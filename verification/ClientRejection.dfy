/**
  When the TypeScript client stays quiet until the next `connect()`, with and without `getToken`, and what that means for
  a socket closed with code 4001.
 */
module ClientRejection {
  import opened Prelude
  import opened ClientState
  import opened ClientLifecycle
  import opened ClientReconnect

  // ---------------------------------------------------------------- staying quiet

  /** Nothing has been opened or scheduled in between: no socket, no attempt, no timer. */
  predicate NothingNew(c: Client, d: Client)
  {
    |d.wire.sockets| == |c.wire.sockets| && d.nextAttempt == c.nextAttempt && d.nextTimer == c.nextTimer
  }

  predicate HasToken(c: Client)
  {
    c.token.Some? && c.token.value != []
  }

  /** No attempt can make a socket: none waits for a token, and those past that find none. */
  predicate AttemptsFutile(c: Client)
  {
    forall a | a in c.attempts :: c.attempts[a].AwaitingImpl? && !HasToken(c)
  }

  /** Disconnected, or no timer armed, no attempt that could make a socket and no socket whose end would arm a timer. */
  predicate Dormant(c: Client)
  {
    c.closedByUser || (c.armed == {} && AttemptsFutile(c) && (!c.reconnect || Live(c.wire.sockets) == {}))
  }

  lemma DormantSocketStep(c: Client, e: Event)
    requires Dormant(c) && Enabled(c, e) && (e.Disconnect? || e.SocketClosed? || e.TimerFired?)
    ensures Dormant(Apply(c, e)) && NothingNew(c, Apply(c, e))
  {
    match e {
      case Disconnect => DroppingKeepsSockets(c.wire);
      case SocketClosed(s, code) =>
        assert s in Live(c.wire.sockets);
        LiveUpdate(c.wire.sockets, s, c.wire.sockets[s].(ready := Closed));
      case TimerFired(t) =>
    }
  }

  lemma DormantStep(c: Client, e: Event)
    requires Dormant(c) && Enabled(c, e) && !e.Connect?
    ensures Dormant(Apply(c, e)) && NothingNew(c, Apply(c, e))
  {
    if IsLocal(e) {
      LocalStep(c, e);
      SameTokenStep(c, e);
    } else if e.Disconnect? || e.SocketClosed? || e.TimerFired? {
      DormantSocketStep(c, e);
    }
  }

  lemma SameTokenStep(c: Client, e: Event)
    requires Enabled(c, e) && IsLocal(e)
    ensures Apply(c, e).token == c.token && Apply(c, e).reconnect == c.reconnect
  {
  }

  lemma {:induction false} DormantRun(c: Client, events: seq<Event>)
    requires Dormant(c) && ValidRun(c, events) && NoConnect(events)
    ensures Dormant(Run(c, events)) && NothingNew(c, Run(c, events))
  {
    if events != [] {
      var n := |events| - 1;
      DormantRun(c, events[..n]);
      DormantStep(Run(c, events[..n]), events[n]);
    }
  }

  /** An attempt still waiting for its token gets one, and makes its socket. */
  lemma WakingFetch(c: Client, a: nat) returns (events: seq<Event>)
    requires !c.closedByUser && a in c.attempts && c.attempts[a].AwaitingToken?
    ensures ValidRun(c, events) && NoConnect(events) && !NothingNew(c, Run(c, events))
  {
    var d := c;
    events := [];
    events, d := Extend(c, events, d, TokenResolved(a, [65]));
    events, d := Extend(c, events, d, ImplResolved(a));
  }

  /** A client that is not dormant has a run that opens or schedules something. */
  lemma WakingRun(c: Client) returns (events: seq<Event>)
    requires !Dormant(c)
    ensures ValidRun(c, events) && NoConnect(events) && !NothingNew(c, Run(c, events))
  {
    if a :| a in c.attempts && c.attempts[a].AwaitingToken? {
      events := WakingFetch(c, a);
    } else {
      var e := WakingStep(c);
      RunSnoc(c, [], e);
      events := [] + [e];
    }
  }

  lemma WakingStep(c: Client) returns (e: Event)
    requires !Dormant(c) && forall a | a in c.attempts :: c.attempts[a].AwaitingImpl?
    ensures Enabled(c, e) && !e.Connect? && !NothingNew(c, Apply(c, e))
  {
    if t :| t in c.armed {
      e := TimerFired(t);
    } else if a :| a in c.attempts && HasToken(c) {
      e := ImplResolved(a);
    } else {
      assert c.armed == {} && AttemptsFutile(c);
      var s :| s in Live(c.wire.sockets);
      e := SocketClosed(s, 1006);
    }
  }

  /** Whatever happens before the next `connect()`, nothing is opened or scheduled. */
  ghost predicate QuietUntilNextConnect(c: Client)
  {
    forall events: seq<Event> | ValidRun(c, events) && NoConnect(events) :: NothingNew(c, Run(c, events))
  }

  /** From any state: quiet until the next `connect()` exactly when dormant. */
  lemma QuietExactly(c: Client)
    ensures QuietUntilNextConnect(c) <==> Dormant(c)
  {
    if Dormant(c) {
      forall events: seq<Event> | ValidRun(c, events) && NoConnect(events) ensures NothingNew(c, Run(c, events)) {
        DormantRun(c, events);
      }
    } else {
      var events := WakingRun(c);
    }
  }

  // ---------------------------------------------------------------- close code 4001

  /** The state a socket leaves behind that is closed with this code. */
  function AfterClose(c: Client, s: nat, code: int): (d: Client)
    requires Enabled(c, SocketClosed(s, code))
  {
    Apply(c, SocketClosed(s, code))
  }

  /** No timer is armed, no attempt under way could make a socket, and no other socket could end in a reconnect. */
  predicate ClosedAlone(c: Client, s: nat)
  {
    c.armed == {} && AttemptsFutile(c) && (!c.reconnect || Live(c.wire.sockets) <= {s})
  }

  /**
    In any numbered state, with and without `getToken` and for any code: after a socket is closed nothing is opened or
    scheduled until the next `connect()` exactly when the user has disconnected, or this close does not reconnect and
    nothing else was outstanding that could.
   */
  lemma CloseStops(c: Client, s: nat, code: int)
    requires Numbered(c) && Enabled(c, SocketClosed(s, code))
    ensures QuietUntilNextConnect(AfterClose(c, s, code)) <==> c.closedByUser || (!Reconnects(c, code) && ClosedAlone(c, s))
  {
    QuietExactly(AfterClose(c, s, code));
    ClosedExactly(c, s, code);
    ClosedStep(c, s, code);
    if Reconnects(c, code) {
      assert c.nextTimer in AfterClose(c, s, code).armed;
    }
  }

  /** In every run without `getToken`: close code 4001 is final exactly when disconnected or nothing else could go on. */
  lemma RejectedTokenStops(reconnect: bool, token: Option<Token>, events: seq<Event>, s: nat)
    requires ValidRun(Fresh(reconnect, false, token), events)
    requires Enabled(Run(Fresh(reconnect, false, token), events), SocketClosed(s, 4001))
    ensures var c := Run(Fresh(reconnect, false, token), events);
            QuietUntilNextConnect(AfterClose(c, s, 4001)) <==> c.closedByUser || ClosedAlone(c, s)
  {
    NumberedRun(Fresh(reconnect, false, token), events);
    SameGetToken(Fresh(reconnect, false, token), events);
    CloseStops(Run(Fresh(reconnect, false, token), events), s, 4001);
  }

  lemma SameGetTokenStep(c: Client, e: Event)
    requires Enabled(c, e)
    ensures Apply(c, e).hasGetToken == c.hasGetToken
  {
  }

  lemma {:induction false} SameGetToken(c: Client, events: seq<Event>)
    requires ValidRun(c, events)
    ensures Run(c, events).hasGetToken == c.hasGetToken
  {
    if events != [] {
      SameGetToken(c, events[..|events| - 1]);
      SameGetTokenStep(Run(c, events[..|events| - 1]), events[|events| - 1]);
    }
  }

  /** So a client on which at most one thing was outstanding stays quiet. */
  lemma LoneRejectionStops(reconnect: bool, token: Option<Token>, events: seq<Event>, s: nat)
    requires ValidRun(Fresh(reconnect, false, token), events)
    requires Enabled(Run(Fresh(reconnect, false, token), events), SocketClosed(s, 4001))
    requires Outstanding(Run(Fresh(reconnect, false, token), events)) <= 1
    ensures QuietUntilNextConnect(AfterClose(Run(Fresh(reconnect, false, token), events), s, 4001))
  {
    var c := Run(Fresh(reconnect, false, token), events);
    RejectedTokenStops(reconnect, token, events, s);
    assert s in Live(c.wire.sockets);
    SubsetCount({s}, Live(c.wire.sockets));
    assert |c.armed| == 0 && |c.attempts| == 0;
    forall i | i in Live(c.wire.sockets) ensures i == s {
      SubsetCount({s, i}, Live(c.wire.sockets));
    }
  }

  /** After two overlapping `connect()` calls a rejection of the first socket does not keep the second from being made. */
  lemma OverlappingRejection(reconnect: bool, token: Token) returns (before: seq<Event>, after: seq<Event>)
    requires token != []
    ensures var start := Fresh(reconnect, false, Some(token));
            && ValidRun(start, before) && Enabled(Run(start, before), SocketClosed(0, 4001))
            && var d := AfterClose(Run(start, before), 0, 4001);
            && ValidRun(d, after) && NoConnect(after)
            && |d.wire.sockets| == 1 && |Run(d, after).wire.sockets| == 2
  {
    var start := Fresh(reconnect, false, Some(token));
    var c := start;
    before := [];
    before, c := Extend(start, before, c, Connect);
    before, c := Extend(start, before, c, Connect);
    before, c := Extend(start, before, c, ImplResolved(0));
    var d := AfterClose(c, 0, 4001);
    assert 1 in d.attempts && d.token == Some(token) && !d.closedByUser;
    RunSnoc(d, [], ImplResolved(1));
    after := [] + [ImplResolved(1)];
  }
}
