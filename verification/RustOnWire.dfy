/** The Rust client's subscriptions as the server sees them. */
module RustOnWire {
  import opened RustClient
  import opened WireChannels

  function ChangeOf(x: Command): (c: Change<Channel>)
  {
    match x
    case Sub(ch) => Add(ch)
    case Unsub(ch) => Remove(ch)
    case _ => Neither
  }

  function Changes(xs: seq<Command>): (log: seq<Change<Channel>>)
  {
    seq(|xs|, i requires 0 <= i < |xs| => ChangeOf(xs[i]))
  }

  /** The identifiers a server holds after these commands. */
  function ServerEffects(xs: seq<Command>): (s: set<seq<int>>)
  {
    HeldAs(Changes(xs), OnWire)
  }

  lemma {:induction false} EffectsAreHeld(xs: seq<Command>)
    ensures Effects({}, xs) == Held(Changes(xs))
  {
    if xs != [] {
      var n := |xs| - 1;
      EffectsAreHeld(xs[..n]);
      assert Changes(xs)[..n] == Changes(xs[..n]);
    }
  }

  // ---------------------------------------------------------------- the channels a run speaks of

  predicate CommandWithin(x: Command, channels: set<Channel>)
  {
    ChangeOf(x).Neither? || x.channel in channels
  }

  predicate ClientWithin(c: Client, channels: set<Channel>)
  {
    && c.channels <= channels
    && (forall i | i in c.calls :: CommandWithin(c.calls[i], channels))
    && (forall i | 0 <= i < |c.queue| :: CommandWithin(c.queue[i], channels))
    && (forall i | 0 <= i < |c.told| :: CommandWithin(c.told[i], channels))
  }

  predicate EventWithin(e: Event, channels: set<Channel>)
  {
    e.BeginSubscribe? || e.BeginUnsubscribe? ==> e.channel in channels
  }

  predicate AllWithin(events: seq<Event>, channels: set<Channel>)
  {
    forall i | 0 <= i < |events| :: EventWithin(events[i], channels)
  }

  lemma WithinStep(c: Client, e: Event, channels: set<Channel>)
    requires ClientWithin(c, channels) && Enabled(c, e) && EventWithin(e, channels)
    ensures ClientWithin(Apply(c, e), channels)
  {
  }

  lemma {:induction false} WithinRun(c: Client, events: seq<Event>, channels: set<Channel>)
    requires ClientWithin(c, channels) && ValidRun(c, events)
    requires AllWithin(events, channels)
    ensures ClientWithin(Run(c, events), channels)
  {
    if events != [] {
      WithinRun(c, events[..|events| - 1], channels);
      WithinStep(Run(c, events[..|events| - 1]), events[|events| - 1], channels);
    }
  }

  /** Over channels that no two share an identifier, images are equal only of equal sets. */
  lemma ImageInjective(channels: set<Channel>, a: set<Channel>, b: set<Channel>)
    requires InjectiveOn(channels, OnWire) && a <= channels && b <= channels
    ensures Image(a, OnWire) == Image(b, OnWire) <==> a == b
  {
    if Image(a, OnWire) == Image(b, OnWire) {
      forall k: Channel ensures k in a <==> k in b {
        assert k in a ==> OnWire(k) in Image(b, OnWire);
        assert k in b ==> OnWire(k) in Image(a, OnWire);
      }
    }
  }

  /**
    In every run over channels that no two share an identifier on the wire, with the connection greeted and no call half
    done, the server will hold exactly the identifiers of the channel map's keys exactly when the last words are kept.
   */
  lemma ServerWillHoldChannels(reconnect: bool, events: seq<Event>, channels: set<Channel>)
    requires ValidRun(Fresh(reconnect), events) && InjectiveOn(channels, OnWire)
    requires AllWithin(events, channels)
    ensures var d := Run(Fresh(reconnect), events);
            d.phase.Online? && d.calls == map[] ==>
              (ServerEffects(d.told + d.queue) == Image(d.channels, OnWire) <==> LastWordsKept(d))
  {
    var d := Run(Fresh(reconnect), events);
    if d.phase.Online? && d.calls == map[] {
      AgreementExact(reconnect, events);
      WithinRun(Fresh(reconnect), events, channels);
      EffectsAreHeld(d.told + d.queue);
      HeldAgrees(Changes(d.told + d.queue), channels, OnWire);
      ImageInjective(channels, Promised(d), d.channels);
    }
  }

  // ---------------------------------------------------------------- two channels under one identifier

  /** The first step of a call that queues this command. */
  function Begin(x: Command): (e: Event)
    requires x.Sub? || x.Unsub?
  {
    if x.Sub? then BeginSubscribe(0, x.channel) else BeginUnsubscribe(0, x.channel)
  }

  /** An uninterrupted call on an idle, greeted client. */
  lemma WholeCall(events: seq<Event>, c: Client, x: Command) returns (more: seq<Event>, d: Client)
    requires ValidRun(Fresh(true), events) && c == Run(Fresh(true), events) && (x.Sub? || x.Unsub?)
    requires c.phase.Online? && c.calls == map[]
    ensures forall channels: set<Channel> | x.channel in channels && AllWithin(events, channels) :: AllWithin(more, channels)
    ensures ValidRun(Fresh(true), more) && d == Run(Fresh(true), more)
    ensures && d.phase.Online? && d.calls == map[] && d.told == c.told && d.channels == Effect(c.channels, x)
            && d.queue == c.queue + [x] && d.accepted == c.accepted + [x]
  {
    RunSnoc(Fresh(true), events, Begin(x));
    RunSnoc(Fresh(true), events + [Begin(x)], EndCall(0));
    more := events + [Begin(x)] + [EndCall(0)];
    d := Run(Fresh(true), more);
  }

  lemma OnlineClient() returns (events: seq<Event>, d: Client)
    ensures ValidRun(Fresh(true), events) && (forall channels: set<Channel> :: AllWithin(events, channels)) && d == Run(Fresh(true), events)
    ensures d.phase.Online? && d.calls == map[] && d.channels == {} && d.queue == [] && d.told == [Auth] && d.accepted == []
  {
    RunSnoc(Fresh(true), [], Connected);
    RunSnoc(Fresh(true), [] + [Connected], VisitedAll);
    events := [] + [Connected] + [VisitedAll];
    d := Run(Fresh(true), events);
  }

  lemma CollidingCommands(a: Channel, b: Channel)
    requires a != b && OnWire(a) == OnWire(b)
    ensures Effects({}, [] + [Sub(a)] + [Sub(b)] + [Unsub(a)]) == {b}
    ensures ServerEffects([Auth] + ([] + [Sub(a)] + [Sub(b)] + [Unsub(a)])) == {}
  {
    OneMore([], Sub(a));
    OneMore([] + [Sub(a)], Sub(b));
    OneMore([] + [Sub(a)] + [Sub(b)], Unsub(a));
    var log := Changes([Auth] + ([] + [Sub(a)] + [Sub(b)] + [Unsub(a)]));
    assert log[..3][..2] == log[..2] && log[..2][..1] == log[..1] && log[..1][..0] == [];
    HeldAsSnoc(log[..1], OnWire);
    HeldAsSnoc(log[..2], OnWire);
    HeldAsSnoc(log[..3], OnWire);
    HeldAsSnoc(log, OnWire);
    assert HeldAs(log[..1][..0], OnWire) == {};
  }

  /** For any two channels with one identifier there is a run whose last words are kept and whose server is left empty. */
  lemma CollidingRun(a: Channel, b: Channel) returns (events: seq<Event>)
    requires a != b && OnWire(a) == OnWire(b)
    ensures ValidRun(Fresh(true), events) && AllWithin(events, {a, b})
    ensures var d := Run(Fresh(true), events);
            d.phase.Online? && d.calls == map[] && d.channels == {b} && LastWordsKept(d) && ServerEffects(d.told + d.queue) == {}
  {
    var d;
    events, d := OnlineClient();
    events, d := WholeCall(events, d, Sub(a));
    events, d := WholeCall(events, d, Sub(b));
    events, d := WholeCall(events, d, Unsub(a));
    CollidingCommands(a, b);
  }

  /** The server will hold the identifiers of the map's keys in every such run exactly when no two of them are the same. */
  lemma NamesMustDiffer(channels: set<Channel>)
    ensures (forall reconnect: bool, events: seq<Event> | Settled(reconnect, events, channels) ::
               var d := Run(Fresh(reconnect), events); ServerEffects(d.told + d.queue) == Image(d.channels, OnWire))
            <==> InjectiveOn(channels, OnWire)
  {
    if InjectiveOn(channels, OnWire) {
      forall reconnect: bool, events: seq<Event> | Settled(reconnect, events, channels)
        ensures var d := Run(Fresh(reconnect), events); ServerEffects(d.told + d.queue) == Image(d.channels, OnWire)
      {
        ServerWillHoldChannels(reconnect, events, channels);
      }
    } else {
      var a, b :| a in channels && b in channels && OnWire(a) == OnWire(b) && a != b;
      var events := CollidingRun(a, b);
      assert Settled(true, events, channels);
      assert OnWire(b) in Image({b}, OnWire);
    }
  }

  /** A run over these channels that ends greeted, with no call half done and the last words kept. */
  ghost predicate Settled(reconnect: bool, events: seq<Event>, channels: set<Channel>)
  {
    && ValidRun(Fresh(reconnect), events) && AllWithin(events, channels)
    && var d := Run(Fresh(reconnect), events); d.phase.Online? && d.calls == map[] && LastWordsKept(d)
  }
}
