/**
  What keeps the TypeScript client going: exactly which steps let something outstanding end without a successor, why a
  client that is meant to reconnect never runs out, and what disconnecting and opening do to its timers.
 */
module ClientReconnect {
  import opened Prelude
  import opened Frame
  import opened ClientState
  import opened ClientLifecycle
  import opened ClientTraffic
  import opened ClientRuns

  // ---------------------------------------------------------------- one close

  /** A close with this code is followed by a reconnect. */
  predicate Reconnects(c: Client, code: int)
  {
    !c.closedByUser && c.reconnect && !(code == 4001 && !c.hasGetToken)
  }

  /** A close arms exactly one fresh timer, or none and leaves everything else that is scheduled alone. */
  lemma ClosedExactly(c: Client, s: nat, code: int)
    requires Numbered(c) && Enabled(c, SocketClosed(s, code))
    ensures var d := Apply(c, SocketClosed(s, code));
            && d.armed == (if Reconnects(c, code) then c.armed + {c.nextTimer} else c.armed)
            && c.nextTimer !in c.armed
            && (Reconnects(c, code) ==> d.reconnectTimer == Some(c.nextTimer) && d.nextTimer == c.nextTimer + 1)
            && d.attempts == c.attempts && d.wire.ws == None && |d.wire.sockets| == |c.wire.sockets|
            && (forall i | 0 <= i < |c.wire.sockets| ::
                  d.wire.sockets[i] == if i == s then c.wire.sockets[i].(ready := Closed) else c.wire.sockets[i])
  {
  }

  // ---------------------------------------------------------------- what ends without a successor

  /** The step ends an attempt, a timer or a socket that nothing follows. */
  predicate Ends(c: Client, e: Event)
  {
    match e
    case TokenResolved(_, _) => c.closedByUser
    case TokenRejected(_) => c.closedByUser || !c.reconnect
    case ImplResolved(_) => c.closedByUser || c.token.None? || c.token.value == []
    case ImplRejected(_) => true
    case SocketClosed(_, code) => !Reconnects(c, code)
    case TimerFired(_) => c.closedByUser
    case Disconnect => c.reconnectTimer.Some? && c.reconnectTimer.value in c.armed
    case _ => false
  }

  lemma ArmedRemove(armed: set<nat>, t: nat)
    requires t in armed
    ensures |armed - {t}| == |armed| - 1
  {
  }

  lemma AttemptEnds(c: Client, a: nat, token: Token)
    requires Numbered(c) && a in c.attempts
    ensures Outstanding(ApplyTokenResolved(c, a, token)) == Outstanding(c) - (if c.closedByUser then 1 else 0)
    ensures Outstanding(c.(attempts := c.attempts - {a})) == Outstanding(c) - 1
    ensures Outstanding(MaybeReconnect(c.(attempts := c.attempts - {a}))) == Outstanding(c) - (if c.closedByUser || !c.reconnect then 1 else 0)
  {
    CountAdd(c.attempts, a, AwaitingImpl);
    CountRemove(c.attempts, a);
    assert c.nextTimer !in c.armed;
  }

  lemma ImplEnds(c: Client, a: nat)
    requires Numbered(c) && a in c.attempts
    ensures Outstanding(ApplyImplResolved(c, a)) == Outstanding(c) - (if Ends(c, ImplResolved(a)) then 1 else 0)
  {
    CountRemove(c.attempts, a);
    if !Ends(c, ImplResolved(a)) {
      LiveAppend(c.wire.sockets, Socket(Connecting, a, c.token.value, []));
    }
  }

  lemma CloseEnds(c: Client, s: nat, code: int)
    requires Numbered(c) && Enabled(c, SocketClosed(s, code))
    ensures Outstanding(ApplyClosed(c, s, code)) == Outstanding(c) - (if Reconnects(c, code) then 0 else 1)
  {
    ClosedExactly(c, s, code);
    ClosedStep(c, s, code);
    assert s in Live(c.wire.sockets);
  }

  lemma TimerEnds(c: Client, t: nat)
    requires Numbered(c) && t in c.armed
    ensures Outstanding(Apply(c, TimerFired(t))) == Outstanding(c) - (if c.closedByUser then 1 else 0)
  {
    ArmedRemove(c.armed, t);
    CountAdd(c.attempts, c.nextAttempt, if c.hasGetToken then AwaitingToken else AwaitingImpl);
  }

  lemma DisconnectEnds(c: Client)
    ensures Outstanding(ApplyDisconnect(c)) == Outstanding(c) - (if Ends(c, Disconnect) then 1 else 0)
  {
    DroppingKeepsSockets(c.wire);
    if Ends(c, Disconnect) {
      ArmedRemove(c.armed, c.reconnectTimer.value);
    } else if c.reconnectTimer.Some? {
      assert c.armed - {c.reconnectTimer.value} == c.armed;
    }
  }

  /** Whatever was outstanding is replaced by exactly one thing, but for the steps that end it. */
  lemma OutstandingExactly(c: Client, e: Event)
    requires Enabled(c, e) && Numbered(c) && !e.Connect?
    ensures Outstanding(Apply(c, e)) == Outstanding(c) - (if Ends(c, e) then 1 else 0)
  {
    if IsLocal(e) {
      LocalStep(c, e);
    } else {
      match e {
        case Disconnect => DisconnectEnds(c);
        case TokenResolved(a, token) => AttemptEnds(c, a, token);
        case TokenRejected(a) => AttemptEnds(c, a, []);
        case ImplResolved(a) => ImplEnds(c, a);
        case ImplRejected(a) => AttemptEnds(c, a, []);
        case SocketClosed(s, code) => CloseEnds(c, s, code);
        case TimerFired(t) => TimerEnds(c, t);
      }
    }
  }

  // ---------------------------------------------------------------- a client meant to reconnect never runs out

  /** Nothing in the step is final: an implementation exists, tokens are not empty, rejected ones can be renewed. */
  predicate Recoverable(c: Client, e: Event)
  {
    match e
    case ImplRejected(_) => false
    case TokenResolved(_, token) => token != []
    case SocketClosed(_, code) => code != 4001 || c.hasGetToken
    case _ => true
  }

  predicate AlwaysRecoverable(c: Client, events: seq<Event>)
  {
    forall i | 0 <= i < |events| :: Recoverable(c, events[i])
  }

  /** Once past its fetch, an attempt finds a token. */
  predicate Supplied(c: Client)
  {
    && c.reconnect
    && ((exists a :: a in c.attempts && c.attempts[a].AwaitingImpl?) ==> c.token.Some? && c.token.value != [])
    && (!c.hasGetToken ==> c.token.Some? && c.token.value != [])
  }

  lemma SuppliedStep(c: Client, e: Event)
    requires Enabled(c, e) && Numbered(c) && Supplied(c) && Recoverable(c, e)
    ensures Supplied(Apply(c, e)) && Apply(c, e).hasGetToken == c.hasGetToken
  {
    if IsLocal(e) {
      LocalStep(c, e);
    }
  }

  /** While the user wants to be connected something is outstanding. */
  predicate Going(c: Client)
  {
    !c.closedByUser ==> Outstanding(c) >= 1
  }

  lemma GoingStep(c: Client, e: Event)
    requires Enabled(c, e) && Numbered(c) && Supplied(c) && Recoverable(c, e) && Going(c)
    ensures Going(Apply(c, e))
  {
    OutstandingStep(c, e);
    if !e.Connect? {
      OutstandingExactly(c, e);
      UserFlag(c, e);
    }
  }

  lemma UserFlag(c: Client, e: Event)
    requires Enabled(c, e)
    ensures Apply(c, e).closedByUser == if e.Connect? then false else e.Disconnect? || c.closedByUser
  {
  }

  lemma {:induction false} GoingRun(c: Client, events: seq<Event>)
    requires Numbered(c) && Supplied(c) && Going(c) && ValidRun(c, events) && AlwaysRecoverable(c, events)
    ensures var d := Run(c, events); Numbered(d) && Supplied(d) && Going(d) && d.hasGetToken == c.hasGetToken
  {
    if events != [] {
      var n := |events| - 1;
      GoingRun(c, events[..n]);
      OutstandingStep(Run(c, events[..n]), events[n]);
      SuppliedStep(Run(c, events[..n]), events[n]);
      GoingStep(Run(c, events[..n]), events[n]);
    }
  }

  /**
    A client that reconnects is never stranded: in every run without a final failure, from `connect()` on and until
    `disconnect()`, there is a socket, an attempt or a reconnect timer.
   */
  lemma NeverStranded(config: Config, events: seq<Event>)
    requires config.reconnect && (config.hasGetToken || (config.token.Some? && config.token.value != []))
    requires ValidRun(Start(config), events) && AlwaysRecoverable(Start(config), events)
    ensures !Run(Start(config), events).closedByUser ==> Outstanding(Run(Start(config), events)) >= 1
  {
    GoingRun(Start(config), events);
  }

  // ---------------------------------------------------------------- timers

  /** The only timer that can be armed is the one the client remembers; none is after the user has disconnected. */
  predicate TimerKnown(c: Client)
  {
    && (forall t | t in c.armed :: c.reconnectTimer == Some(t))
    && (c.closedByUser ==> c.armed == {})
  }

  lemma OneThing(c: Client)
    requires Outstanding(c) <= 1
    ensures c.attempts != map[] || Live(c.wire.sockets) != {} ==> c.armed == {}
  {
    assert c.attempts != map[] ==> |c.attempts| >= 1;
    assert Live(c.wire.sockets) != {} ==> |Live(c.wire.sockets)| >= 1;
  }

  lemma TimerKnownStep(c: Client, e: Event)
    requires Enabled(c, e) && Outstanding(c) <= 1 && TimerKnown(c) && (e.Connect? ==> Outstanding(c) == 0)
    ensures TimerKnown(Apply(c, e))
  {
    if IsLocal(e) {
      LocalStep(c, e);
      SameTimer(c, e);
    } else {
      TimerSettles(c, e);
    }
  }

  lemma TimerSettles(c: Client, e: Event)
    requires Enabled(c, e) && !IsLocal(e) && Outstanding(c) <= 1 && TimerKnown(c) && (e.Connect? ==> Outstanding(c) == 0)
    ensures TimerKnown(Apply(c, e))
  {
    OneThing(c);
    if e.SocketClosed? {
      assert e.socket in Live(c.wire.sockets);
    } else if e.Connect? {
      assert c.armed == {};
    }
  }

  lemma SameTimer(c: Client, e: Event)
    requires Enabled(c, e) && IsLocal(e)
    ensures Apply(c, e).reconnectTimer == c.reconnectTimer
  {
  }

  lemma {:induction false} TimerKnownRun(c: Client, events: seq<Event>, i: nat)
    requires Numbered(c) && Outstanding(c) == 0 && TimerKnown(c) && ValidRun(c, events) && Disciplined(c, events) && i <= |events|
    ensures TimerKnown(Run(c, events[..i]))
  {
    if i > 0 {
      TimerKnownRun(c, events, i - 1);
      DisciplinedBound(c, events, i - 1);
      StepAt(c, events, i - 1);
      TimerKnownStep(Run(c, events[..i - 1]), events[i - 1]);
    }
  }

  /** When `connect()` is called only with nothing outstanding, no timer survives `disconnect()`. */
  lemma DisconnectClearsTimers(config: Config, events: seq<Event>)
    requires ValidRun(Start(config), events) && Disciplined(Start(config), events)
    ensures Run(Start(config), events).closedByUser ==> Run(Start(config), events).armed == {}
  {
    assert Live([]) == {};
    TimerKnownRun(Start(config), events, |events|);
    assert events[..|events|] == events;
  }

  // ---------------------------------------------------------------- heartbeat

  /** While the current socket is open the heartbeat runs. */
  predicate Beating(c: Client)
  {
    CanSend(c.wire) ==> c.heartbeat
  }

  lemma BeatingStep(c: Client, e: Event)
    requires Enabled(c, e) && Beating(c) && Inv(c.wire)
    ensures Beating(Apply(c, e))
  {
    match e {
      case Opened(s) => OpeningOpens(c.wire, s);
      case Subscribed(channelId, handler) => CallsKeepOpen(c.wire, channelId, handler, []);
      case Unsubscribed(channelId, handler) => CallsKeepOpen(c.wire, channelId, handler, []);
      case Sent(frames) => CallsKeepOpen(c.wire, [], 0, frames);
      case _ =>
    }
  }

  lemma OpeningOpens(w: Wire, s: nat)
    requires s < |w.sockets|
    ensures CanSend(Opening(w, s)) <==> CanSend(WithReady(w, s, Open))
  {
  }

  lemma CallsKeepOpen(w: Wire, channelId: ChannelId, handler: Handler, frames: seq<Outgoing>)
    ensures CanSend(Subscribing(w, channelId, handler)) <==> CanSend(w)
    ensures CanSend(Unsubscribing(w, channelId, handler)) <==> CanSend(w)
    ensures CanSend(Sending(w, frames)) <==> CanSend(w)
  {
  }

  /** In every run an open client sends PINGs, whenever its interval elapses. */
  lemma {:induction false} OpenClientBeats(config: Config, events: seq<Event>)
    requires ValidRun(Start(config), events)
    ensures Beating(Run(Start(config), events))
    ensures var c := Run(Start(config), events);
            CanSend(c.wire) ==>
              && Enabled(c, HeartbeatTick)
              && Apply(c, HeartbeatTick).wire == SendAll(c.wire, [Outgoing(Ping, [], [])])
  {
    if events != [] {
      var n := |events| - 1;
      OpenClientBeats(config, events[..n]);
      InvAfter(config, events[..n]);
      BeatingStep(Run(Start(config), events[..n]), events[n]);
    }
  }
}
