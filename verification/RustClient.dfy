/**
  The Rust SDK client: callers update a shared channel map and then queue a command; a background worker owns the
  connection, greets it with AUTH and one SUB per key of the map, and then drains the queue. A call is two steps, so
  callers and the background worker interleave between the map update and the queueing.
 */
module RustClient {
  import opened Utf8

  type Channel = seq<Scalar>

  /** A frame of the command queue or of a socket. */
  datatype Command = Sub(channel: Channel) | Unsub(channel: Channel) | Data(channel: Channel, payload: seq<Scalar>) | Auth | Ping

  /** What the background worker is doing; `visited` and `stable` follow the iteration over the concurrent map. */
  datatype Phase =
    | Offline
    | Resubscribing(visited: set<Channel>, stable: set<Channel>)
    | Online
    | Stopped

  /** A command taken off the queue: sent, or lost with the connection its send failed on. */
  datatype Taken = Taken(command: Command, sent: bool)

  datatype Client = Client(
    reconnect: bool,
    channels: set<Channel>,          // keys of the channel map
    queue: seq<Command>,
    calls: map<nat, Command>,        // calls that have updated the map and not yet queued their command
    phase: Phase,
    told: seq<Command>,              // frames sent on the current socket
    // history
    greeted: nat,                    // how many of them were the greeting
    accepted: seq<Command>,
    taken: seq<Taken>,
    losses: nat)

  datatype Event =
    | BeginSubscribe(call: nat, channel: Channel)
    | BeginUnsubscribe(call: nat, channel: Channel)
    | EndCall(call: nat)
    | Enqueue(channel: Channel, payload: seq<Scalar>)
    | Connected
    | ConnectFailed
    | Visit(channel: Channel)
    | VisitedAll
    | SendNext
    | SendNextFails
    | Heartbeat
    | ConnectionLost

  function Fresh(reconnect: bool): (c: Client)
  {
    Client(reconnect, {}, [], map[], Offline, [], 0, [], [], 0)
  }

  predicate IsConnected(p: Phase)
  {
    p.Resubscribing? || p.Online?
  }

  predicate Enabled(c: Client, e: Event)
  {
    match e
    case BeginSubscribe(i, _) => i !in c.calls
    case BeginUnsubscribe(i, _) => i !in c.calls
    case EndCall(i) => i in c.calls
    case Enqueue(_, _) => !c.phase.Stopped?
    case Connected => c.phase.Offline?
    case ConnectFailed => c.phase.Offline?
    case Visit(ch) => c.phase.Resubscribing? && ch in c.channels
    // a key that is in the map throughout the iteration is visited
    case VisitedAll => c.phase.Resubscribing? && c.phase.stable <= c.phase.visited
    case SendNext => c.phase.Online? && c.queue != []
    case SendNextFails => c.phase.Online? && c.queue != []
    case Heartbeat => c.phase.Online?
    case ConnectionLost => IsConnected(c.phase)
  }

  /** The connection is gone: retry, or end the worker. */
  function Lost(c: Client): (d: Client)
  {
    c.(phase := if c.reconnect then Offline else Stopped, losses := c.losses + 1)
  }

  /** A key leaves the map, also from those the running iteration is bound to visit. */
  function RemoveKey(c: Client, ch: Channel): (d: Client)
  {
    c.(channels := c.channels - {ch},
       phase := if c.phase.Resubscribing? then Resubscribing(c.phase.visited, c.phase.stable - {ch}) else c.phase)
  }

  /** The channel sender rejects commands once the worker has ended. */
  function Queued(c: Client, x: Command): (d: Client)
  {
    if c.phase.Stopped? then c else c.(queue := c.queue + [x], accepted := c.accepted + [x])
  }

  function Apply(c: Client, e: Event): (d: Client)
    requires Enabled(c, e)
  {
    match e
    case BeginSubscribe(i, ch) => c.(channels := c.channels + {ch}, calls := c.calls[i := Sub(ch)])
    case BeginUnsubscribe(i, ch) => RemoveKey(c, ch).(calls := c.calls[i := Unsub(ch)])
    case EndCall(i) => Queued(c, c.calls[i]).(calls := c.calls - {i})
    case Enqueue(ch, payload) => Queued(c, Data(ch, payload))
    case Connected => c.(phase := Resubscribing({}, c.channels), told := [Auth])
    case ConnectFailed => Lost(c)
    case Visit(ch) =>
      c.(told := c.told + [Sub(ch)], phase := Resubscribing(c.phase.visited + {ch}, c.phase.stable))
    case VisitedAll => c.(phase := Online, greeted := |c.told|)
    case SendNext =>
      c.(told := c.told + [c.queue[0]], queue := c.queue[1..], taken := c.taken + [Taken(c.queue[0], true)])
    case SendNextFails =>
      Lost(c.(queue := c.queue[1..], taken := c.taken + [Taken(c.queue[0], false)]))
    case Heartbeat => c.(told := c.told + [Ping])
    case ConnectionLost => Lost(c)
  }

  predicate ValidRun(c: Client, events: seq<Event>)
  {
    events == [] ||
    (ValidRun(c, events[..|events| - 1]) && Enabled(Run(c, events[..|events| - 1]), events[|events| - 1]))
  }

  function Run(c: Client, events: seq<Event>): (d: Client)
  {
    if events == [] then c
    else
      var before := Run(c, events[..|events| - 1]);
      if Enabled(before, events[|events| - 1]) then Apply(before, events[|events| - 1]) else before
  }

  // ---------------------------------------------------------------- what a list of commands does to a set of subscriptions

  function Effect(s: set<Channel>, x: Command): (t: set<Channel>)
  {
    match x
    case Sub(ch) => s + {ch}
    case Unsub(ch) => s - {ch}
    case _ => s
  }

  function Effects(s: set<Channel>, xs: seq<Command>): (t: set<Channel>)
  {
    if xs == [] then s else Effect(Effects(s, xs[..|xs| - 1]), xs[|xs| - 1])
  }

  /** The command concerns the subscription to `ch`. */
  predicate Concerns(x: Command, ch: Channel)
  {
    (x.Sub? || x.Unsub?) && x.channel == ch
  }

  predicate Mentions(xs: seq<Command>, ch: Channel)
  {
    exists i | 0 <= i < |xs| :: Concerns(xs[i], ch)
  }

  predicate InFlight(c: Client, ch: Channel)
  {
    exists i | i in c.calls :: Concerns(c.calls[i], ch)
  }

  lemma {:induction false} EffectsAppend(s: set<Channel>, xs: seq<Command>, ys: seq<Command>)
    ensures Effects(s, xs + ys) == Effects(Effects(s, xs), ys)
  {
    if ys == [] {
      assert xs + ys == xs;
    } else {
      assert (xs + ys)[..|xs + ys| - 1] == xs + ys[..|ys| - 1];
      EffectsAppend(s, xs, ys[..|ys| - 1]);
    }
  }

  /** Commands decide a channel they mention, whatever the start, and leave every other channel alone. */
  lemma {:induction false} EffectsDecide(s: set<Channel>, t: set<Channel>, xs: seq<Command>, ch: Channel)
    ensures Mentions(xs, ch) ==> (ch in Effects(s, xs) <==> ch in Effects(t, xs))
    ensures !Mentions(xs, ch) ==> (ch in Effects(s, xs) <==> ch in s)
  {
    if xs != [] {
      var n := |xs| - 1;
      EffectsDecide(s, t, xs[..n], ch);
      if Mentions(xs, ch) && !Concerns(xs[n], ch) {
        var i :| 0 <= i < |xs| && Concerns(xs[i], ch);
        assert Concerns(xs[..n][i], ch);
      }
      if Mentions(xs[..n], ch) {
        var i :| 0 <= i < n && Concerns(xs[..n][i], ch);
        assert Concerns(xs[i], ch);
      }
    }
  }

  lemma MentionsAppend(xs: seq<Command>, ys: seq<Command>, ch: Channel)
    ensures Mentions(xs + ys, ch) <==> Mentions(xs, ch) || Mentions(ys, ch)
  {
    if Mentions(xs, ch) {
      var i :| 0 <= i < |xs| && Concerns(xs[i], ch);
      assert Concerns((xs + ys)[i], ch);
    }
    if Mentions(ys, ch) {
      var i :| 0 <= i < |ys| && Concerns(ys[i], ch);
      assert Concerns((xs + ys)[|xs| + i], ch);
    }
    if Mentions(xs + ys, ch) {
      var i :| 0 <= i < |xs + ys| && Concerns((xs + ys)[i], ch);
      assert i < |xs| ==> Concerns(xs[i], ch);
      assert i >= |xs| ==> Concerns(ys[i - |xs|], ch);
    }
  }

  // ---------------------------------------------------------------- what holds in every run

  /** Commands forwarded on the current socket since its greeting. */
  function Forwarded(c: Client): (xs: seq<Command>)
  {
    if c.phase.Online? && c.greeted <= |c.told| then c.told[c.greeted..] else []
  }

  /** Those, then the commands still queued. */
  function Since(c: Client): (xs: seq<Command>)
  {
    Forwarded(c) + c.queue
  }

  /** The accepted commands and those since the greeting end alike on every channel the latter mention. */
  ghost predicate LastAccepted(c: Client)
  {
    forall ch: Channel | Mentions(Since(c), ch) :: ch in Effects({}, c.accepted) <==> ch in Effects({}, Since(c))
  }

  /** No call is in flight for the channel, and no command since the greeting concerns it. */
  predicate Untouched(c: Client, ch: Channel)
  {
    !InFlight(c, ch) && !Mentions(Since(c), ch)
  }

  /** An untouched channel has been, or will be, greeted as the map has it. */
  ghost predicate GreetingCurrent(c: Client)
  {
    && (c.phase.Resubscribing? ==>
          && Effects({}, c.told) == c.phase.visited
          && forall ch: Channel | Untouched(c, ch) ::
               (ch in c.channels ==> ch in c.phase.stable) && (ch in c.phase.visited ==> ch in c.channels))
    && (c.phase.Online? ==>
          && c.greeted <= |c.told|
          && forall ch: Channel | Untouched(c, ch) :: ch in Effects({}, c.told[..c.greeted]) <==> ch in c.channels)
  }

  ghost predicate Inv(c: Client)
  {
    LastAccepted(c) && GreetingCurrent(c)
  }

  // ---------------------------------------------------------------- callers

  /** A call that has changed the map is in flight for its channel; the others are as they were. */
  lemma BeginKeeps(c: Client, e: Event)
    requires Inv(c) && Enabled(c, e) && (e.BeginSubscribe? || e.BeginUnsubscribe?)
    ensures Inv(Apply(c, e))
  {
    var d := Apply(c, e);
    assert Since(d) == Since(c);
    assert Concerns(d.calls[e.call], e.channel) && InFlight(d, e.channel);
    forall ch: Channel ensures InFlight(c, ch) ==> InFlight(d, ch) {
      if InFlight(c, ch) {
        var i :| i in c.calls && Concerns(c.calls[i], ch);
        assert i in d.calls && Concerns(d.calls[i], ch);
      }
    }
  }

  /** What one more command at the end means for each channel. */
  lemma OneMore(xs: seq<Command>, x: Command)
    ensures forall ch: Channel :: Mentions(xs + [x], ch) <==> Mentions(xs, ch) || Concerns(x, ch)
    ensures Effects({}, xs + [x]) == Effect(Effects({}, xs), x)
  {
    assert (xs + [x])[..|xs|] == xs;
    forall ch: Channel ensures Mentions(xs + [x], ch) <==> Mentions(xs, ch) || Concerns(x, ch) {
      MentionsAppend(xs, [x], ch);
      assert Mentions([x], ch) <==> Concerns([x][0], ch);
    }
  }

  lemma QueuedKeeps(c: Client, x: Command)
    requires Inv(c) && !c.phase.Stopped?
    ensures Since(Queued(c, x)) == Since(c) + [x]
    ensures LastAccepted(Queued(c, x))
    ensures GreetingCurrent(Queued(c, x))
  {
    var d := Queued(c, x);
    assert Since(d) == Since(c) + [x];
    OneMore(Since(c), x);
    OneMore(c.accepted, x);
    assert forall ch: Channel :: InFlight(d, ch) <==> InFlight(c, ch);
  }

  lemma OthersInFlight(c: Client, i: nat, ch: Channel)
    requires i in c.calls
    ensures InFlight(c, ch) ==> InFlight(Apply(c, EndCall(i)), ch) || Concerns(c.calls[i], ch)
  {
    var d := Apply(c, EndCall(i));
    if InFlight(c, ch) && !Concerns(c.calls[i], ch) {
      var k :| k in c.calls && Concerns(c.calls[k], ch);
      assert k in d.calls && Concerns(d.calls[k], ch);
    }
  }

  /** The channel of an ending call is touched by the command it queues. */
  lemma EndKeeps(c: Client, i: nat)
    requires Inv(c) && i in c.calls
    ensures Inv(Apply(c, EndCall(i)))
  {
    var x, d := c.calls[i], Apply(c, EndCall(i));
    if !c.phase.Stopped? {
      QueuedKeeps(c, x);
      OneMore(Since(c), x);
      assert Since(d) == Since(Queued(c, x));
      forall ch: Channel | Untouched(d, ch) ensures Untouched(Queued(c, x), ch) {
        OthersInFlight(c, i, ch);
      }
    }
  }

  // ---------------------------------------------------------------- the background worker

  /** Nobody's map entry, command or call is concerned. */
  predicate SameCallers(c: Client, d: Client)
  {
    d.channels == c.channels && d.calls == c.calls && d.accepted == c.accepted
  }

  lemma SendNextKeeps(c: Client)
    requires Inv(c) && c.phase.Online? && c.queue != []
    ensures Inv(Apply(c, SendNext))
  {
    var d := Apply(c, SendNext);
    assert d.told[..d.greeted] == c.told[..c.greeted];
    assert d.told[d.greeted..] == c.told[c.greeted..] + [c.queue[0]];
    assert Since(d) == Since(c);
    assert forall ch: Channel :: InFlight(d, ch) <==> InFlight(c, ch);
  }

  lemma HeartbeatKeeps(c: Client)
    requires Inv(c) && c.phase.Online?
    ensures Inv(Apply(c, Heartbeat))
  {
    var d := Apply(c, Heartbeat);
    var f := Forwarded(c);
    assert d.told[..d.greeted] == c.told[..c.greeted];
    assert Forwarded(d) == f + [Ping];
    OneMore(f, Ping);
    EffectsAppend({}, f, c.queue);
    EffectsAppend({}, f + [Ping], c.queue);
    forall ch: Channel ensures Mentions(Since(d), ch) <==> Mentions(Since(c), ch) {
      MentionsAppend(f, c.queue, ch);
      MentionsAppend(f + [Ping], c.queue, ch);
    }
    assert forall ch: Channel :: InFlight(d, ch) <==> InFlight(c, ch);
  }

  /** The connection is gone, and with it some commands from the front: the rest still has the last word. */
  lemma LostKeeps(c: Client, gone: seq<Command>, rest: seq<Command>)
    requires Inv(c) && Since(c) == gone + rest
    ensures LastAccepted(Lost(c.(queue := rest)))
  {
    var d := Lost(c.(queue := rest));
    assert Since(d) == rest;
    EffectsAppend({}, gone, rest);
    forall ch: Channel | Mentions(rest, ch) ensures ch in Effects({}, d.accepted) <==> ch in Effects({}, rest) {
      MentionsAppend(gone, rest, ch);
      EffectsDecide(Effects({}, gone), {}, rest, ch);
    }
  }

  lemma ConnectionLostKeeps(c: Client, e: Event)
    requires Inv(c) && Enabled(c, e) && (e.ConnectFailed? || e.ConnectionLost? || e.SendNextFails?)
    ensures Inv(Apply(c, e))
  {
    if e.SendNextFails? {
      assert c.queue == [c.queue[0]] + c.queue[1..];
      assert Since(c) == (Forwarded(c) + [c.queue[0]]) + c.queue[1..];
      LostKeeps(c, Forwarded(c) + [c.queue[0]], c.queue[1..]);
    } else {
      LostKeeps(c, Forwarded(c), c.queue);
    }
    assert Since(Apply(c, e)) == Apply(c, e).queue;
  }

  lemma GreetingKeeps(c: Client, e: Event)
    requires Inv(c) && Enabled(c, e) && (e.Connected? || e.Visit? || e.VisitedAll?)
    ensures Inv(Apply(c, e))
  {
    var d := Apply(c, e);
    assert Since(c) == Since(d) == c.queue;
    assert forall ch: Channel :: InFlight(d, ch) <==> InFlight(c, ch);
    match e {
      case Connected =>
        assert [Auth][..0] == [];
        assert Effects({}, [Auth]) == {};
      case Visit(ch) => OneMore(c.told, Sub(ch));
      case VisitedAll => assert d.told[..d.greeted] == c.told;
    }
  }

  /** Every step of callers and worker, in any order, keeps the invariant. */
  lemma StepKeeps(c: Client, e: Event)
    requires Inv(c) && Enabled(c, e)
    ensures Inv(Apply(c, e))
  {
    match e {
      case BeginSubscribe(_, _) => BeginKeeps(c, e);
      case BeginUnsubscribe(_, _) => BeginKeeps(c, e);
      case EndCall(i) => EndKeeps(c, i);
      case Enqueue(ch, payload) => QueuedKeeps(c, Data(ch, payload));
      case SendNext => SendNextKeeps(c);
      case Heartbeat => HeartbeatKeeps(c);
      case Connected => GreetingKeeps(c, e);
      case Visit(_) => GreetingKeeps(c, e);
      case VisitedAll => GreetingKeeps(c, e);
      case _ => ConnectionLostKeeps(c, e);
    }
  }

  lemma {:induction false} InvRun(c: Client, events: seq<Event>)
    requires Inv(c) && ValidRun(c, events)
    ensures Inv(Run(c, events))
  {
    if events != [] {
      InvRun(c, events[..|events| - 1]);
      StepKeeps(Run(c, events[..|events| - 1]), events[|events| - 1]);
    }
  }

  lemma InvAfter(reconnect: bool, events: seq<Event>)
    requires ValidRun(Fresh(reconnect), events)
    ensures Inv(Run(Fresh(reconnect), events))
  {
    assert Since(Fresh(reconnect)) == [];
    InvRun(Fresh(reconnect), events);
  }

  // ---------------------------------------------------------------- exactly when server and map agree

  /** What the server will hold once the queue is drained. */
  function Promised(c: Client): (s: set<Channel>)
  {
    Effects({}, c.told + c.queue)
  }

  lemma PromisedOfInv(c: Client, ch: Channel)
    requires Inv(c) && c.phase.Online?
    ensures Mentions(Since(c), ch) ==> (ch in Promised(c) <==> ch in Effects({}, c.accepted))
    ensures Untouched(c, ch) ==> (ch in Promised(c) <==> ch in c.channels)
  {
    var greeting := c.told[..c.greeted];
    assert c.told + c.queue == greeting + Since(c);
    EffectsAppend({}, greeting, Since(c));
    EffectsDecide(Effects({}, greeting), {}, Since(c), ch);
  }

  /** The last accepted command on each channel touched since the greeting says what the map says. */
  ghost predicate LastWordsKept(c: Client)
  {
    forall ch: Channel | Mentions(Since(c), ch) :: ch in Effects({}, c.accepted) <==> ch in c.channels
  }

  /**
    One channel, in every run: online and with no call in flight for it, what the server will hold agrees with the map
    exactly when no command since the greeting concerns the channel or the last accepted one says what the map says.
   */
  lemma ChannelAgreement(reconnect: bool, events: seq<Event>, ch: Channel)
    requires ValidRun(Fresh(reconnect), events)
    requires Run(Fresh(reconnect), events).phase.Online? && !InFlight(Run(Fresh(reconnect), events), ch)
    ensures var d := Run(Fresh(reconnect), events);
            (ch in Promised(d) <==> ch in d.channels)
            <==> (Mentions(Since(d), ch) ==> (ch in Effects({}, d.accepted) <==> ch in d.channels))
  {
    InvAfter(reconnect, events);
    PromisedOfInv(Run(Fresh(reconnect), events), ch);
  }

  /**
    Agreement, exactly: in every run, over any number of reconnects, lost commands and overlapping calls, whenever the
    connection has been resubscribed and no call is half done, the frames sent on it followed by the commands still
    queued leave the server with the keys of the channel map exactly when the last words are kept.
   */
  lemma AgreementExact(reconnect: bool, events: seq<Event>)
    requires ValidRun(Fresh(reconnect), events)
    ensures var d := Run(Fresh(reconnect), events);
            d.phase.Online? && d.calls == map[] ==> (Promised(d) == d.channels <==> LastWordsKept(d))
  {
    InvAfter(reconnect, events);
    var d := Run(Fresh(reconnect), events);
    if d.phase.Online? && d.calls == map[] {
      forall ch: Channel
        ensures (ch in Promised(d) <==> ch in d.channels)
                <==> (Mentions(Since(d), ch) ==> (ch in Effects({}, d.accepted) <==> ch in d.channels))
      {
        assert !InFlight(d, ch);
        PromisedOfInv(d, ch);
      }
    }
  }

  // ---------------------------------------------------------------- calls that do not overlap on a channel

  /** A call in flight still has the last word on its channel, and no other call is in flight for it. */
  predicate CallsCurrent(c: Client)
  {
    && (forall i | i in c.calls :: (c.calls[i].Sub? || c.calls[i].Unsub?) && (c.calls[i].Sub? <==> c.calls[i].channel in c.channels))
    && (forall i, j | i in c.calls && j in c.calls && i != j :: c.calls[i].channel != c.calls[j].channel)
  }

  /** Otherwise the last accepted command on the channel has it. */
  ghost predicate AcceptedCurrent(c: Client)
  {
    !c.phase.Stopped? ==>
      forall ch: Channel | !InFlight(c, ch) :: ch in Effects({}, c.accepted) <==> ch in c.channels
  }

  /** A call starts only while no other call is in flight for its channel. */
  predicate Separate(c: Client, e: Event)
  {
    match e
    case BeginSubscribe(_, ch) => !InFlight(c, ch)
    case BeginUnsubscribe(_, ch) => !InFlight(c, ch)
    case _ => true
  }

  predicate SeparateRun(c: Client, events: seq<Event>)
  {
    forall i | 0 <= i < |events| :: Separate(Run(c, events[..i]), events[i])
  }

  lemma SeparateBegin(c: Client, e: Event)
    requires CallsCurrent(c) && AcceptedCurrent(c) && Enabled(c, e) && Separate(c, e) && (e.BeginSubscribe? || e.BeginUnsubscribe?)
    ensures CallsCurrent(Apply(c, e)) && AcceptedCurrent(Apply(c, e))
  {
    var d := Apply(c, e);
    assert Concerns(d.calls[e.call], e.channel) && InFlight(d, e.channel);
    forall i | i in c.calls ensures d.calls[i] == c.calls[i] && c.calls[i].channel != e.channel {
      assert Concerns(c.calls[i], c.calls[i].channel);
    }
    forall ch: Channel ensures InFlight(c, ch) ==> InFlight(d, ch) {
      if InFlight(c, ch) {
        var i :| i in c.calls && Concerns(c.calls[i], ch);
        assert i in d.calls && Concerns(d.calls[i], ch);
      }
    }
  }

  lemma SeparateEnd(c: Client, i: nat)
    requires CallsCurrent(c) && AcceptedCurrent(c) && i in c.calls
    ensures CallsCurrent(Apply(c, EndCall(i))) && AcceptedCurrent(Apply(c, EndCall(i)))
  {
    var x, d := c.calls[i], Apply(c, EndCall(i));
    assert CallsCurrent(d);
    OneMore(c.accepted, x);
    forall ch: Channel ensures InFlight(c, ch) ==> InFlight(d, ch) || Concerns(x, ch) {
      OthersInFlight(c, i, ch);
    }
  }

  lemma SeparateStep(c: Client, e: Event)
    requires CallsCurrent(c) && AcceptedCurrent(c) && Enabled(c, e) && Separate(c, e)
    ensures CallsCurrent(Apply(c, e)) && AcceptedCurrent(Apply(c, e))
  {
    match e {
      case BeginSubscribe(_, _) => SeparateBegin(c, e);
      case BeginUnsubscribe(_, _) => SeparateBegin(c, e);
      case EndCall(i) => SeparateEnd(c, i);
      case Enqueue(ch, payload) =>
        OneMore(c.accepted, Data(ch, payload));
        assert forall k: Channel :: InFlight(Apply(c, e), k) <==> InFlight(c, k);
      case _ =>
        assert SameCallers(c, Apply(c, e));
        assert forall k: Channel :: InFlight(Apply(c, e), k) <==> InFlight(c, k);
    }
  }

  lemma {:induction false} SeparateKept(c: Client, events: seq<Event>)
    requires CallsCurrent(c) && AcceptedCurrent(c) && ValidRun(c, events) && SeparateRun(c, events)
    ensures CallsCurrent(Run(c, events)) && AcceptedCurrent(Run(c, events))
  {
    if events != [] {
      var n := |events| - 1;
      forall i | 0 <= i < n ensures Separate(Run(c, events[..n][..i]), events[..n][i]) {
        assert events[..n][..i] == events[..i];
      }
      SeparateKept(c, events[..n]);
      SeparateStep(Run(c, events[..n]), events[n]);
    }
  }

  /**
    Agreement for callers that do not overlap on a channel: the last words are always kept, so the server will hold
    exactly the keys of the channel map.
   */
  lemma QueueAgreement(reconnect: bool, events: seq<Event>)
    requires ValidRun(Fresh(reconnect), events) && SeparateRun(Fresh(reconnect), events)
    ensures var d := Run(Fresh(reconnect), events);
            d.phase.Online? && d.calls == map[] ==> LastWordsKept(d) && Promised(d) == d.channels
  {
    SeparateKept(Fresh(reconnect), events);
    AgreementExact(reconnect, events);
    var d := Run(Fresh(reconnect), events);
    assert d.calls == map[] ==> forall ch: Channel :: !InFlight(d, ch);
  }

  /** Once the queue is drained, the frames sent on the connection alone leave the server with those keys. */
  lemma DrainedAgreement(reconnect: bool, events: seq<Event>)
    requires ValidRun(Fresh(reconnect), events)
    requires var d := Run(Fresh(reconnect), events); d.phase.Online? && d.calls == map[] && d.queue == []
    ensures var d := Run(Fresh(reconnect), events); Effects({}, d.told) == d.channels <==> LastWordsKept(d)
    ensures SeparateRun(Fresh(reconnect), events) ==>
              Effects({}, Run(Fresh(reconnect), events).told) == Run(Fresh(reconnect), events).channels
  {
    var d := Run(Fresh(reconnect), events);
    assert d.told + d.queue == d.told;
    AgreementExact(reconnect, events);
    if SeparateRun(Fresh(reconnect), events) {
      QueueAgreement(reconnect, events);
    }
  }

  // ---------------------------------------------------------------- nothing is reordered, little is lost

  function Commands(taken: seq<Taken>): (xs: seq<Command>)
  {
    if taken == [] then [] else Commands(taken[..|taken| - 1]) + [taken[|taken| - 1].command]
  }

  function Failures(taken: seq<Taken>): (n: nat)
  {
    if taken == [] then 0 else Failures(taken[..|taken| - 1]) + if taken[|taken| - 1].sent then 0 else 1
  }

  predicate Accounted(c: Client)
  {
    Commands(c.taken) + c.queue == c.accepted && Failures(c.taken) <= c.losses
  }

  lemma TakeHead(c: Client, sent: bool)
    requires Accounted(c) && c.queue != []
    ensures Commands(c.taken + [Taken(c.queue[0], sent)]) + c.queue[1..] == c.accepted
    ensures Failures(c.taken + [Taken(c.queue[0], sent)]) == Failures(c.taken) + if sent then 0 else 1
  {
    var more := c.taken + [Taken(c.queue[0], sent)];
    assert more[..|c.taken|] == c.taken;
    assert c.queue == [c.queue[0]] + c.queue[1..];
  }

  lemma AccountedStep(c: Client, e: Event)
    requires Accounted(c) && Enabled(c, e)
    ensures Accounted(Apply(c, e))
  {
    match e {
      case SendNext => TakeHead(c, true);
      case SendNextFails => TakeHead(c, false);
      case EndCall(i) => assert Commands(c.taken) + (c.queue + [c.calls[i]]) == Commands(c.taken) + c.queue + [c.calls[i]];
      case Enqueue(ch, p) =>
        assert Commands(c.taken) + (c.queue + [Data(ch, p)]) == Commands(c.taken) + c.queue + [Data(ch, p)];
      case _ =>
    }
  }

  /**
    Conservation, without any discipline: the commands taken off the queue and those still in it are the accepted ones
    in order, and at most one was lost per lost connection.
   */
  lemma {:induction false} QueueConservation(c: Client, events: seq<Event>)
    requires Accounted(c) && ValidRun(c, events)
    ensures Accounted(Run(c, events))
  {
    if events != [] {
      QueueConservation(c, events[..|events| - 1]);
      AccountedStep(Run(c, events[..|events| - 1]), events[|events| - 1]);
    }
  }

  // ---------------------------------------------------------------- two calls on one channel

  lemma RunSnoc(c: Client, events: seq<Event>, e: Event)
    requires ValidRun(c, events) && Enabled(Run(c, events), e)
    ensures ValidRun(c, events + [e]) && Run(c, events + [e]) == Apply(Run(c, events), e)
  {
    assert (events + [e])[..|events|] == events;
  }

  /**
    Overlapping calls can disagree: if two threads subscribe to and unsubscribe from one channel at once, the map can
    end without the channel while the queue ends by subscribing to it, and the server holds a subscription nobody has.
   */
  lemma OverlappingCallsDisagree(ch: Channel) returns (events: seq<Event>)
    ensures ValidRun(Fresh(true), events)
    ensures var d := Run(Fresh(true), events);
            d.phase.Online? && d.calls == map[] && d.channels == {} && Promised(d) == {ch}
  {
    var c := Fresh(true);
    RunSnoc(c, [], BeginSubscribe(0, ch));
    events := [] + [BeginSubscribe(0, ch)];
    RunSnoc(c, events, BeginUnsubscribe(1, ch));
    events := events + [BeginUnsubscribe(1, ch)];
    RunSnoc(c, events, EndCall(1));
    events := events + [EndCall(1)];
    RunSnoc(c, events, EndCall(0));
    events := events + [EndCall(0)];
    RunSnoc(c, events, Connected);
    events := events + [Connected];
    RunSnoc(c, events, VisitedAll);
    events := events + [VisitedAll];
    var d := Run(c, events);
    assert d.queue == [Unsub(ch)] + [Sub(ch)] && d.told == [Auth];
    assert d.calls.Keys == {} && d.channels == {};
    OneMore([], Auth);
    assert [] + [Auth] == [Auth];
    OneMore([Auth], Unsub(ch));
    OneMore([Auth] + [Unsub(ch)], Sub(ch));
    assert d.told + d.queue == [Auth] + [Unsub(ch)] + [Sub(ch)];
  }

  /** The step leaves the connection up and belongs to no call on this channel. */
  predicate Elsewhere(c: Client, e: Event, ch: Channel)
  {
    match e
    case BeginSubscribe(_, k) => k != ch
    case BeginUnsubscribe(_, k) => k != ch
    case SendNextFails => false
    case ConnectionLost => false
    case _ => true
  }

  lemma ElsewhereStep(c: Client, e: Event, ch: Channel)
    requires c.phase.Online? && Enabled(c, e) && !InFlight(c, ch) && Elsewhere(c, e, ch)
    ensures var d := Apply(c, e);
            && d.phase.Online? && !InFlight(d, ch)
            && (ch in d.channels <==> ch in c.channels) && (ch in Promised(d) <==> ch in Promised(c))
  {
    var d := Apply(c, e);
    match e {
      case EndCall(i) =>
        assert d.told + d.queue == (c.told + c.queue) + [c.calls[i]];
        OneMore(c.told + c.queue, c.calls[i]);
        assert !Concerns(c.calls[i], ch);
      case Enqueue(k, payload) =>
        assert d.told + d.queue == (c.told + c.queue) + [Data(k, payload)];
        OneMore(c.told + c.queue, Data(k, payload));
      case SendNext => assert d.told + d.queue == c.told + c.queue;
      case Heartbeat =>
        OneMore(c.told, Ping);
        EffectsAppend({}, c.told, c.queue);
        EffectsAppend({}, c.told + [Ping], c.queue);
      case _ =>
    }
  }

  /**
    A disagreement lasts as long as the connection does and nobody calls about the channel again: both what the server
    will hold and what the map holds stay as they are, whatever else happens.
   */
  lemma {:induction false} DisagreementLasts(c: Client, events: seq<Event>, ch: Channel)
    requires c.phase.Online? && !InFlight(c, ch) && ValidRun(c, events)
    requires forall i | 0 <= i < |events| :: Elsewhere(Run(c, events[..i]), events[i], ch)
    ensures var d := Run(c, events);
            && d.phase.Online? && !InFlight(d, ch)
            && (ch in d.channels <==> ch in c.channels) && (ch in Promised(d) <==> ch in Promised(c))
  {
    if events != [] {
      var n := |events| - 1;
      forall i | 0 <= i < n ensures Elsewhere(Run(c, events[..n][..i]), events[..n][i], ch) {
        assert events[..n][..i] == events[..i] && events[..n][i] == events[i];
      }
      DisagreementLasts(c, events[..n], ch);
      ElsewhereStep(Run(c, events[..n]), events[n], ch);
    }
  }

  /**
    A reconnect repairs it: in every run, a connection just greeted agrees with the map on every channel without a call
    in flight or a command still queued, so on all of them once those are done.
   */
  lemma ReconnectRestores(reconnect: bool, events: seq<Event>, ch: Channel)
    requires ValidRun(Fresh(reconnect), events) && events != [] && events[|events| - 1] == VisitedAll
    requires var d := Run(Fresh(reconnect), events); !InFlight(d, ch) && !Mentions(d.queue, ch)
    ensures var d := Run(Fresh(reconnect), events);
            d.phase.Online? && (ch in Promised(d) <==> ch in d.channels) && (ch in Effects({}, d.told) <==> ch in d.channels)
  {
    InvAfter(reconnect, events);
    var d := Run(Fresh(reconnect), events);
    assert Since(d) == d.queue;
    PromisedOfInv(d, ch);
    EffectsAppend({}, d.told, d.queue);
    EffectsDecide(Effects({}, d.told), {}, d.queue, ch);
  }
}
