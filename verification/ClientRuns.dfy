/**
  Server view and send conservation of the TypeScript client over every run, with no assumption on when `connect()` and
  `disconnect()` are called.
 */
module ClientRuns {
  import opened Prelude
  import opened ClientState
  import opened ClientTraffic

  lemma CallStep(c: Client, e: Event)
    requires Inv(c.wire) && Enabled(c, e) && (e.HeartbeatTick? || e.Subscribed? || e.Unsubscribed? || e.Sent?)
    ensures Inv(Apply(c, e).wire)
  {
    var w := c.wire;
    match e {
      case HeartbeatTick => if CanSend(w) { PingKeeps(w); }
      case Subscribed(channelId, handler) => SubscribingKeeps(w, channelId, handler);
      case Unsubscribed(channelId, handler) => UnsubscribingKeeps(w, channelId, handler);
      case Sent(frames) => SendingKeeps(w, frames);
    }
  }

  lemma ImplKeeps(c: Client, a: nat)
    requires Inv(c.wire)
    ensures Inv(ApplyImplResolved(c, a).wire)
  {
    if c.token.Some? {
      ConstructingKeeps(c.wire, a, c.token.value);
    }
  }

  lemma SocketStep(c: Client, e: Event)
    requires Inv(c.wire) && Enabled(c, e) && (e.Disconnect? || e.ImplResolved? || e.Opened? || e.Faltered? || e.SocketClosed?)
    ensures Inv(Apply(c, e).wire)
  {
    var w := c.wire;
    match e {
      case Disconnect => DroppingKeeps(w);
      case ImplResolved(a) => ImplKeeps(c, a);
      case Opened(s) => OpeningKeeps(w, s);
      case Faltered(s) => WithdrawingKeeps(w, s, Closing, w.ws);
      case SocketClosed(s, _) => WithdrawingKeeps(w, s, Closed, None);
    }
  }

  /** Every step keeps the traffic invariant. */
  lemma WireStep(c: Client, e: Event)
    requires Inv(c.wire) && Enabled(c, e)
    ensures Inv(Apply(c, e).wire)
  {
    if e.HeartbeatTick? || e.Subscribed? || e.Unsubscribed? || e.Sent? {
      CallStep(c, e);
    } else if e.Disconnect? || e.ImplResolved? || e.Opened? || e.Faltered? || e.SocketClosed? {
      SocketStep(c, e);
    }
  }

  lemma {:induction false} InvRun(c: Client, events: seq<Event>)
    requires Inv(c.wire) && ValidRun(c, events)
    ensures Inv(Run(c, events).wire)
  {
    if events != [] {
      InvRun(c, events[..|events| - 1]);
      WireStep(Run(c, events[..|events| - 1]), events[|events| - 1]);
    }
  }

  datatype Config = Config(reconnect: bool, hasGetToken: bool, token: Option<Token>)

  function Start(config: Config): (c: Client)
  {
    Fresh(config.reconnect, config.hasGetToken, config.token)
  }

  lemma InvAfter(config: Config, events: seq<Event>)
    requires ValidRun(Start(config), events)
    ensures Inv(Run(Start(config), events).wire)
  {
    InvRun(Start(config), events);
  }

  /** Server view: whenever the socket is open, the SUB and UNSUB frames sent on it leave exactly the current keys. */
  lemma OpenSocketKnowsSubscriptions(config: Config, events: seq<Event>)
    requires ValidRun(Start(config), events)
    ensures var w := Run(Start(config), events).wire;
            && (CanSend(w) ==> View({}, w.sockets[w.ws.value].sent) == w.subscriptions.Keys)
            && (forall k | k in w.subscriptions :: w.subscriptions[k] != {})
  {
    InvAfter(config, events);
  }

  /** Conservation: the data frames sent over all sockets, then the queue, are the accepted frames in call order. */
  lemma EveryFrameSentOnce(config: Config, events: seq<Event>)
    requires ValidRun(Start(config), events)
    ensures var w := Run(Start(config), events).wire;
            DataSent(w.sockets) + w.pendingSends == w.accepted && (CanSend(w) ==> w.pendingSends == [])
  {
    InvAfter(config, events);
  }
}
