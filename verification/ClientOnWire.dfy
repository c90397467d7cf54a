/** The TypeScript client's subscriptions as the server sees them. */
module ClientOnWire {
  import opened Prelude
  import opened Utf16
  import opened Chunking
  import opened Frame
  import opened ClientState
  import opened ClientTraffic
  import opened ClientRuns
  import opened WireChannels

  function Name(channelId: ChannelId): (t: seq<int>)
  {
    OnWire(ToScalars(channelId))
  }

  function ChangeOf(f: Outgoing): (c: Change<ChannelId>)
  {
    if f.opcode == Subscribe then Add(f.channelId)
    else if f.opcode == Unsub then Remove(f.channelId)
    else Neither
  }

  function Changes(frames: seq<Outgoing>): (log: seq<Change<ChannelId>>)
  {
    seq(|frames|, i requires 0 <= i < |frames| => ChangeOf(frames[i]))
  }

  /** The identifiers a server holds after these frames. */
  function ServerView(frames: seq<Outgoing>): (s: set<seq<int>>)
  {
    HeldAs(Changes(frames), Name)
  }

  lemma {:induction false} ViewIsHeld(frames: seq<Outgoing>)
    ensures View({}, frames) == Held(Changes(frames))
  {
    if frames != [] {
      var n := |frames| - 1;
      ViewIsHeld(frames[..n]);
      assert Changes(frames)[..n] == Changes(frames[..n]);
    }
  }

  // ---------------------------------------------------------------- the channels a run speaks of

  predicate Within(frames: seq<Outgoing>, channels: set<ChannelId>)
  {
    forall i | 0 <= i < |frames| :: ChangeOf(frames[i]).Neither? || frames[i].channelId in channels
  }

  predicate WireWithin(w: Wire, channels: set<ChannelId>)
  {
    && (forall k | k in w.order :: k in channels)
    && (forall i | 0 <= i < |w.sockets| :: Within(w.sockets[i].sent, channels))
  }

  predicate EventWithin(e: Event, channels: set<ChannelId>)
  {
    e.Subscribed? || e.Unsubscribed? ==> e.channelId in channels
  }

  lemma {:induction false} SubscribesWithin(order: seq<ChannelId>, channels: set<ChannelId>)
    requires forall k | k in order :: k in channels
    ensures Within(SubscribeFrames(order), channels)
  {
    if order != [] {
      SubscribesWithin(order[..|order| - 1], channels);
      assert order[|order| - 1] in order;
    }
  }

  lemma SendWithin(w: Wire, frames: seq<Outgoing>, channels: set<ChannelId>)
    requires WireWithin(w, channels) && CanSend(w) && Within(frames, channels)
    ensures WireWithin(SendAll(w, frames), channels)
  {
    assert Within(w.sockets[w.ws.value].sent, channels);
  }

  lemma ReadyWithin(w: Wire, s: nat, ready: Ready, channels: set<ChannelId>)
    requires WireWithin(w, channels) && s < |w.sockets|
    ensures WireWithin(WithReady(w, s, ready), channels)
  {
    assert Within(w.sockets[s].sent, channels);
  }

  lemma QuietWithin(c: Client, a: nat, channels: set<ChannelId>)
    requires WireWithin(c.wire, channels)
    ensures WireWithin(Dropping(c.wire), channels)
    ensures WireWithin(ApplyImplResolved(c, a).wire, channels)
  {
    if c.wire.ws.Some? && c.wire.ws.value < |c.wire.sockets| {
      ReadyWithin(c.wire, c.wire.ws.value, Closing, channels);
    }
  }

  lemma OpeningWithin(w: Wire, s: nat, channels: set<ChannelId>)
    requires WireWithin(w, channels) && Inv(w) && s < |w.sockets|
    ensures WireWithin(Opening(w, s), channels)
  {
    var nowOpen, token := WithReady(w, s, Open), w.sockets[s].token;
    assert Within(w.sockets[s].sent, channels);
    SubscribesWithin(w.order, channels);
    assert Within(Greeting(w, token), channels);
    if CanSend(nowOpen) {
      SendWithin(nowOpen, Greeting(w, token), channels);
    }
  }

  lemma SubscribingWithin(w: Wire, channelId: ChannelId, handler: Handler, channels: set<ChannelId>)
    requires WireWithin(w, channels) && channelId in channels
    ensures WireWithin(Subscribing(w, channelId, handler), channels)
  {
    if channelId !in w.subscriptions && CanSend(w) {
      var added := w.(subscriptions := w.subscriptions[channelId := {handler}], order := w.order + [channelId]);
      SendWithin(added, [Outgoing(Subscribe, channelId, [])], channels);
    }
  }

  lemma UnsubscribingWithin(w: Wire, channelId: ChannelId, handler: Handler, channels: set<ChannelId>)
    requires WireWithin(w, channels) && channelId in channels
    ensures WireWithin(Unsubscribing(w, channelId, handler), channels)
  {
    WithoutRemoves(w.order, channelId);
    if channelId in w.subscriptions && w.subscriptions[channelId] - {handler} == {} && CanSend(w) {
      var removed := w.(subscriptions := w.subscriptions - {channelId}, order := Without(w.order, channelId));
      SendWithin(removed, [Outgoing(Unsub, channelId, [])], channels);
    }
  }

  lemma SendingWithin(w: Wire, frames: seq<Outgoing>, channels: set<ChannelId>)
    requires WireWithin(w, channels) && forall f | f in frames :: IsData(f)
    ensures WireWithin(Sending(w, frames), channels)
  {
    forall i | 0 <= i < |frames| ensures ChangeOf(frames[i]).Neither? {
      assert frames[i] in frames;
    }
    if CanSend(w) {
      SendWithin(w.(accepted := w.accepted + frames), frames, channels);
    }
  }

  lemma CallWithin(c: Client, e: Event, channels: set<ChannelId>)
    requires WireWithin(c.wire, channels) && Enabled(c, e) && EventWithin(e, channels)
    requires e.HeartbeatTick? || e.Subscribed? || e.Unsubscribed? || e.Sent?
    ensures WireWithin(Apply(c, e).wire, channels)
  {
    var w := c.wire;
    match e {
      case HeartbeatTick => if CanSend(w) { SendWithin(w, [Outgoing(Ping, [], [])], channels); }
      case Subscribed(channelId, handler) => SubscribingWithin(w, channelId, handler, channels);
      case Unsubscribed(channelId, handler) => UnsubscribingWithin(w, channelId, handler, channels);
      case Sent(frames) => SendingWithin(w, frames, channels);
    }
  }

  lemma WithinStep(c: Client, e: Event, channels: set<ChannelId>)
    requires Inv(c.wire) && WireWithin(c.wire, channels) && Enabled(c, e) && EventWithin(e, channels)
    ensures WireWithin(Apply(c, e).wire, channels)
  {
    if e.HeartbeatTick? || e.Subscribed? || e.Unsubscribed? || e.Sent? {
      CallWithin(c, e, channels);
    } else {
      match e {
        case Opened(s) => OpeningWithin(c.wire, s, channels);
        case Disconnect => QuietWithin(c, 0, channels);
        case ImplResolved(a) => QuietWithin(c, a, channels);
        case Faltered(s) => ReadyWithin(c.wire, s, Closing, channels);
        case SocketClosed(s, _) => ReadyWithin(c.wire, s, Closed, channels);
        case _ =>
      }
    }
  }

  lemma {:induction false} WithinRun(c: Client, events: seq<Event>, channels: set<ChannelId>)
    requires Inv(c.wire) && WireWithin(c.wire, channels) && ValidRun(c, events)
    requires AllWithin(events, channels)
    ensures WireWithin(Run(c, events).wire, channels)
  {
    if events != [] {
      var n := |events| - 1;
      WithinRun(c, events[..n], channels);
      InvRun(c, events[..n]);
      WithinStep(Run(c, events[..n]), events[n], channels);
    }
  }

  predicate AllWithin(events: seq<Event>, channels: set<ChannelId>)
  {
    forall i | 0 <= i < |events| :: EventWithin(events[i], channels)
  }

  /** The server at the other end of an open socket holds exactly the identifiers of the current subscriptions. */
  predicate ServerKnows(w: Wire)
  {
    CanSend(w) ==> ServerView(w.sockets[w.ws.value].sent) == Image(w.subscriptions.Keys, Name)
  }

  lemma ServerKnowsInjective(config: Config, events: seq<Event>, channels: set<ChannelId>)
    requires ValidRun(Start(config), events) && InjectiveOn(channels, Name) && AllWithin(events, channels)
    ensures ServerKnows(Run(Start(config), events).wire)
  {
    InvAfter(config, events);
    WithinRun(Start(config), events, channels);
    var w := Run(Start(config), events).wire;
    if CanSend(w) {
      var sent := w.sockets[w.ws.value].sent;
      assert Within(sent, channels);
      ViewIsHeld(sent);
      HeldAgrees(Changes(sent), channels, Name);
    }
  }

  // ---------------------------------------------------------------- two channels under one identifier

  /** Frames that subscribe to two channels and then unsubscribe from the first. */
  lemma CollidingFrames(sent: seq<Outgoing>, a: ChannelId, b: ChannelId)
    requires |sent| == 4 && ChangeOf(sent[0]) == Neither && ChangeOf(sent[1]) == Add(a)
    requires ChangeOf(sent[2]) == Add(b) && ChangeOf(sent[3]) == Remove(a) && Name(a) == Name(b)
    ensures ServerView(sent) == {}
  {
    var log := Changes(sent);
    assert log[..3][..2] == log[..2] && log[..2][..1] == log[..1] && log[..1][..0] == [];
    HeldAsSnoc(log[..1], Name);
    HeldAsSnoc(log[..2], Name);
    HeldAsSnoc(log[..3], Name);
    HeldAsSnoc(log, Name);
    assert HeldAs(log[..1][..0], Name) == {};
  }

  lemma OpenedClient() returns (config: Config, events: seq<Event>, d: Client)
    ensures ValidRun(Start(config), events) && d == Run(Start(config), events)
    ensures AllWithin(events, {})
    ensures var w := d.wire;
            w.ws == Some(0) && w.subscriptions == map[] && w.order == [] && w.sockets == [Socket(Open, 0, [65], [Outgoing(Auth, [], [65])])]
  {
    config := Config(true, false, Some([65]));
    var c := Start(config);
    d := c;
    events := [];
    events, d := Extend(c, events, d, Connect);
    events, d := Extend(c, events, d, ImplResolved(0));
    assert d.wire.sockets == [Socket(Connecting, 0, [65], [])];
    events, d := Extend(c, events, d, Opened(0));
    assert Greeting(c.wire, [65]) == [Outgoing(Auth, [], [65])];
    assert [] + Greeting(c.wire, [65]) == [Outgoing(Auth, [], [65])];
  }

  /**
    For any two channels with one identifier on the wire there is a run - subscribe to both, unsubscribe from the first -
    after which the client still holds the second and the server nothing.
   */
  lemma CollidingRun(a: ChannelId, b: ChannelId) returns (config: Config, events: seq<Event>)
    requires a != b && Name(a) == Name(b)
    ensures ValidRun(Start(config), events) && AllWithin(events, {a, b})
    ensures var w := Run(Start(config), events).wire;
            CanSend(w) && w.subscriptions.Keys == {b} && ServerView(w.sockets[w.ws.value].sent) == {}
  {
    var d;
    config, events, d := OpenedClient();
    var c := Start(config);
    CollidingWire(d.wire, a, b);
    CollidingWithin(events, Subscribed(a, 0), Subscribed(b, 0), Unsubscribed(a, 0), {a, b});
    events, d := ThreeCalls(c, events, d, a, b);
  }

  lemma ThreeCalls(c: Client, events: seq<Event>, d: Client, a: ChannelId, b: ChannelId) returns (more: seq<Event>, after: Client)
    requires ValidRun(c, events) && Run(c, events) == d
    ensures more == events + [Subscribed(a, 0)] + [Subscribed(b, 0)] + [Unsubscribed(a, 0)]
    ensures ValidRun(c, more) && Run(c, more) == after
    ensures after.wire == Unsubscribing(Subscribing(Subscribing(d.wire, a, 0), b, 0), a, 0)
  {
    more, after := Extend(c, events, d, Subscribed(a, 0));
    more, after := Extend(c, more, after, Subscribed(b, 0));
    more, after := Extend(c, more, after, Unsubscribed(a, 0));
  }

  lemma CollidingWithin(events: seq<Event>, first: Event, second: Event, third: Event, channels: set<ChannelId>)
    requires AllWithin(events, {})
    requires EventWithin(first, channels) && EventWithin(second, channels) && EventWithin(third, channels)
    ensures AllWithin(events + [first] + [second] + [third], channels)
  {
  }

  lemma CollidingWire(w: Wire, a: ChannelId, b: ChannelId)
    requires a != b && Name(a) == Name(b)
    requires w.ws == Some(0) && w.subscriptions == map[] && w.sockets == [Socket(Open, 0, [65], [Outgoing(Auth, [], [65])])]
    ensures var v := Unsubscribing(Subscribing(Subscribing(w, a, 0), b, 0), a, 0);
            CanSend(v) && v.subscriptions.Keys == {b} && ServerView(v.sockets[v.ws.value].sent) == {}
  {
    var w1 := Subscribing(w, a, 0);
    assert w1.subscriptions == map[a := {0}] && w1.ws == Some(0) && w1.sockets[0].sent == w.sockets[0].sent + [Outgoing(Subscribe, a, [])];
    var w2 := Subscribing(w1, b, 0);
    assert w2.subscriptions == map[a := {0}, b := {0}] && w2.ws == Some(0) && w2.sockets[0].sent == w1.sockets[0].sent + [Outgoing(Subscribe, b, [])];
    var v := Unsubscribing(w2, a, 0);
    assert v.subscriptions.Keys == {b} && v.sockets[0].sent == w2.sockets[0].sent + [Outgoing(Unsub, a, [])];
    CollidingFrames(v.sockets[0].sent, a, b);
  }

  /**
    In every run over a set of channels the server at the other end of an open socket holds exactly the identifiers of
    the current subscriptions, exactly when no two of the channels share an identifier on the wire.
   */
  lemma ServerHoldsSubscriptions(channels: set<ChannelId>)
    ensures (forall config: Config, events: seq<Event> | ValidRun(Start(config), events) && AllWithin(events, channels) ::
               ServerKnows(Run(Start(config), events).wire))
            <==> InjectiveOn(channels, Name)
  {
    if InjectiveOn(channels, Name) {
      forall config: Config, events: seq<Event> | ValidRun(Start(config), events) && AllWithin(events, channels)
        ensures ServerKnows(Run(Start(config), events).wire)
      {
        ServerKnowsInjective(config, events, channels);
      }
    } else {
      var a, b :| a in channels && b in channels && Name(a) == Name(b) && a != b;
      var config, events := CollidingRun(a, b);
      assert AllWithin(events, channels);
      assert Name(b) in Image({b}, Name);
      assert !ServerKnows(Run(Start(config), events).wire);
    }
  }

  /** Channel names are such: an ASCII name of 24 characters and any other that begins with it. */
  lemma LongNamesShareOne(front: ChannelId, a: ChannelId, b: ChannelId)
    requires Ascii(front) && |front| == LEN_CHANNEL
    ensures Name(front + a) == Name(front + b)
  {
    AsciiScalars(front);
    AsciiThenMore(front, a);
    AsciiThenMore(front, b);
    LongNamesCollide(front, ToScalars(a), ToScalars(b));
  }

  lemma AsciiThenMore(front: ChannelId, more: ChannelId)
    requires Ascii(front)
    ensures ToScalars(front + more) == front + ToScalars(more)
  {
    AsciiScalars(front);
    ToScalarsAppend(front, more);
  }
}
