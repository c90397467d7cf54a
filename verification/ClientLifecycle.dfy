/** Lifecycle of the TypeScript client: how much can be outstanding, and what disconnecting and rejection stop. */
module ClientLifecycle {
  import opened Frame
  import opened ClientState

  /** Attempt and timer numbers are fresh; true in every run. */
  predicate Numbered(c: Client)
  {
    (forall a | a in c.attempts :: a < c.nextAttempt) && (forall t | t in c.armed :: t < c.nextTimer)
  }

  // ---------------------------------------------------------------- cardinalities

  lemma CountRemove<K, V>(m: map<K, V>, k: K)
    requires k in m
    ensures |m - {k}| == |m| - 1
  {
    assert (m - {k}).Keys == m.Keys - {k};
    assert |m| == |m.Keys| && |m - {k}| == |(m - {k}).Keys|;
  }

  lemma CountAdd<K, V>(m: map<K, V>, k: K, v: V)
    ensures |m[k := v]| == if k in m then |m| else |m| + 1
  {
    assert m[k := v].Keys == m.Keys + {k};
    assert |m| == |m.Keys| && |m[k := v]| == |m[k := v].Keys|;
  }

  lemma LiveUpdate(sockets: seq<Socket>, s: nat, socket: Socket)
    requires s < |sockets|
    ensures Live(sockets[s := socket]) == if socket.ready.Closed? then Live(sockets) - {s} else Live(sockets) + {s}
  {
  }

  lemma LiveAppend(sockets: seq<Socket>, socket: Socket)
    requires !socket.ready.Closed?
    ensures Live(sockets + [socket]) == Live(sockets) + {|sockets|}
    ensures |Live(sockets + [socket])| == |Live(sockets)| + 1
  {
    assert |sockets| !in Live(sockets);
  }

  lemma SubsetCount(a: set<nat>, b: set<nat>)
    requires a <= b
    ensures |a| <= |b|
  {
    assert b == a + (b - a);
  }

  // ---------------------------------------------------------------- one step

  /** No socket comes or goes. */
  predicate SameSockets(w: Wire, v: Wire)
  {
    |v.sockets| == |w.sockets| && Live(v.sockets) == Live(w.sockets)
  }

  lemma SendKeepsSockets(w: Wire, frames: seq<Outgoing>)
    requires CanSend(w)
    ensures SameSockets(w, SendAll(w, frames))
  {
  }

  lemma OpeningKeepsSockets(w: Wire, s: nat)
    requires s < |w.sockets| && w.sockets[s].ready.Connecting?
    ensures SameSockets(w, Opening(w, s))
  {
    var nowOpen := WithReady(w, s, Open);
    assert SameSockets(w, nowOpen);
    if CanSend(nowOpen) {
      SendKeepsSockets(nowOpen, Greeting(w, w.sockets[s].token));
    }
  }

  lemma DroppingKeepsSockets(w: Wire)
    ensures SameSockets(w, Dropping(w))
  {
  }

  /** Steps that only send, subscribe or change the state of a socket that stays unclosed. */
  predicate IsLocal(e: Event)
  {
    e.Opened? || e.Faltered? || e.HeartbeatTick? || e.Subscribed? || e.Unsubscribed? || e.Sent?
  }

  lemma LocalStep(c: Client, e: Event)
    requires Enabled(c, e) && IsLocal(e)
    ensures var d := Apply(c, e);
            && d.attempts == c.attempts && d.nextAttempt == c.nextAttempt && d.armed == c.armed
            && d.nextTimer == c.nextTimer && d.closedByUser == c.closedByUser && SameSockets(c.wire, d.wire)
  {
    var w := c.wire;
    match e {
      case Opened(s) => OpeningKeepsSockets(w, s);
      case Faltered(s) =>
      case HeartbeatTick => if CanSend(w) { SendKeepsSockets(w, [Outgoing(Ping, [], [])]); }
      case Subscribed(channelId, handler) => SubscribingKeepsSockets(w, channelId, handler);
      case Unsubscribed(channelId, handler) => UnsubscribingKeepsSockets(w, channelId, handler);
      case Sent(frames) => if CanSend(w) { SendKeepsSockets(w.(accepted := w.accepted + frames), frames); }
    }
  }

  lemma SubscribingKeepsSockets(w: Wire, channelId: ChannelId, handler: Handler)
    ensures SameSockets(w, Subscribing(w, channelId, handler))
  {
    if channelId !in w.subscriptions && CanSend(w) {
      var added := w.(subscriptions := w.subscriptions[channelId := {handler}], order := w.order + [channelId]);
      SendKeepsSockets(added, [Outgoing(Subscribe, channelId, [])]);
    }
  }

  lemma UnsubscribingKeepsSockets(w: Wire, channelId: ChannelId, handler: Handler)
    ensures SameSockets(w, Unsubscribing(w, channelId, handler))
  {
    if channelId in w.subscriptions && w.subscriptions[channelId] - {handler} == {} && CanSend(w) {
      var removed := w.(subscriptions := w.subscriptions - {channelId}, order := Without(w.order, channelId));
      SendKeepsSockets(removed, [Outgoing(Unsub, channelId, [])]);
    }
  }

  /** What a step that is not local and not `connect()` may do. */
  predicate Shrinks(c: Client, d: Client)
  {
    && Numbered(d) && Outstanding(d) <= Outstanding(c)
    && (c.closedByUser ==> d.closedByUser && |d.wire.sockets| == |c.wire.sockets|)
  }

  lemma DisconnectStep(c: Client)
    requires Numbered(c)
    ensures Shrinks(c, ApplyDisconnect(c))
  {
    DroppingKeepsSockets(c.wire);
    SubsetCount(ApplyDisconnect(c).armed, c.armed);
  }

  lemma TokenStep(c: Client, a: nat, token: Token)
    requires Numbered(c) && a in c.attempts
    ensures Shrinks(c, ApplyTokenResolved(c, a, token))
    ensures Shrinks(c, MaybeReconnect(c.(attempts := c.attempts - {a})))
    ensures Shrinks(c, c.(attempts := c.attempts - {a}))
  {
    CountAdd(c.attempts, a, AwaitingImpl);
    CountRemove(c.attempts, a);
  }

  lemma ImplStep(c: Client, a: nat)
    requires Numbered(c) && a in c.attempts
    ensures Shrinks(c, ApplyImplResolved(c, a))
  {
    CountRemove(c.attempts, a);
    if !c.closedByUser && c.token.Some? && c.token.value != [] {
      LiveAppend(c.wire.sockets, Socket(Connecting, a, c.token.value, []));
    }
  }

  lemma ClosedStep(c: Client, s: nat, code: int)
    requires s < |c.wire.sockets| && !c.wire.sockets[s].ready.Closed? && Numbered(c)
    ensures Shrinks(c, ApplyClosed(c, s, code))
    ensures Live(ApplyClosed(c, s, code).wire.sockets) == Live(c.wire.sockets) - {s}
  {
    LiveUpdate(c.wire.sockets, s, c.wire.sockets[s].(ready := Closed));
    assert s in Live(c.wire.sockets);
  }

  lemma TimerStep(c: Client, t: nat)
    requires t in c.armed && Numbered(c)
    ensures Shrinks(c, Apply(c, TimerFired(t)))
  {
    CountAdd(c.attempts, c.nextAttempt, if c.hasGetToken then AwaitingToken else AwaitingImpl);
  }

  /** Every step but `connect()` shrinks what is outstanding or leaves it, and none opens a socket once disconnected. */
  lemma QuietStep(c: Client, e: Event)
    requires Enabled(c, e) && Numbered(c) && !e.Connect?
    ensures Shrinks(c, Apply(c, e))
  {
    if IsLocal(e) {
      LocalStep(c, e);
    } else {
      match e {
        case Disconnect => DisconnectStep(c);
        case TokenResolved(a, token) => TokenStep(c, a, token);
        case TokenRejected(a) => TokenStep(c, a, []);
        case ImplResolved(a) => ImplStep(c, a);
        case ImplRejected(a) => TokenStep(c, a, []);
        case SocketClosed(s, code) => ClosedStep(c, s, code);
        case TimerFired(t) => TimerStep(c, t);
      }
    }
  }

  /** Only `connect()` adds to what is outstanding, and it always adds one. */
  lemma OutstandingStep(c: Client, e: Event)
    requires Enabled(c, e) && Numbered(c)
    ensures Numbered(Apply(c, e))
    ensures e.Connect? ==> Outstanding(Apply(c, e)) == Outstanding(c) + 1
    ensures !e.Connect? ==> Outstanding(Apply(c, e)) <= Outstanding(c)
  {
    if e.Connect? {
      CountAdd(c.attempts, c.nextAttempt, if c.hasGetToken then AwaitingToken else AwaitingImpl);
    } else {
      QuietStep(c, e);
    }
  }

  // ---------------------------------------------------------------- whole runs

  lemma {:induction false} NumberedRun(c: Client, events: seq<Event>)
    requires ValidRun(c, events) && Numbered(c)
    ensures Numbered(Run(c, events))
  {
    if events != [] {
      NumberedRun(c, events[..|events| - 1]);
      OutstandingStep(Run(c, events[..|events| - 1]), events[|events| - 1]);
    }
  }

  /**
    In every run of a fresh client, at most one socket, opening attempt or reconnect timer is ever outstanding
    exactly when `connect()` is only ever called with none outstanding.
   */
  lemma AtMostOneOutstanding(c: Client, events: seq<Event>)
    requires Numbered(c) && Outstanding(c) == 0 && ValidRun(c, events)
    ensures (forall i | 0 <= i <= |events| :: Outstanding(Run(c, events[..i])) <= 1) <==> Disciplined(c, events)
  {
    if Disciplined(c, events) {
      forall i | 0 <= i <= |events| ensures Outstanding(Run(c, events[..i])) <= 1 {
        DisciplinedBound(c, events, i);
      }
    }
    if forall i | 0 <= i <= |events| :: Outstanding(Run(c, events[..i])) <= 1 {
      forall i | 0 <= i < |events| && events[i].Connect? ensures Outstanding(Run(c, events[..i])) == 0 {
        StepOfRun(c, events, i);
        assert Outstanding(Run(c, events[..i + 1])) <= 1;
      }
    }
  }

  lemma StepOfRun(c: Client, events: seq<Event>, i: nat)
    requires Numbered(c) && ValidRun(c, events) && i < |events|
    ensures var before := Run(c, events[..i]);
            && Numbered(before) && Enabled(before, events[i])
            && Run(c, events[..i + 1]) == Apply(before, events[i])
            && Outstanding(Run(c, events[..i + 1])) <= Outstanding(before) + 1
            && (events[i].Connect? ==> Outstanding(Run(c, events[..i + 1])) == Outstanding(before) + 1)
            && (!events[i].Connect? ==> Outstanding(Run(c, events[..i + 1])) <= Outstanding(before))
  {
    StepAt(c, events, i);
    NumberedRun(c, events[..i]);
    OutstandingStep(Run(c, events[..i]), events[i]);
  }

  lemma {:induction false} DisciplinedBound(c: Client, events: seq<Event>, i: nat)
    requires Numbered(c) && Outstanding(c) == 0 && ValidRun(c, events) && Disciplined(c, events) && i <= |events|
    ensures Outstanding(Run(c, events[..i])) <= 1
  {
    if i == 0 {
      assert events[..0] == [];
    } else {
      DisciplinedBound(c, events, i - 1);
      StepOfRun(c, events, i - 1);
    }
  }

  predicate NoConnect(events: seq<Event>)
  {
    forall i | 0 <= i < |events| :: !events[i].Connect?
  }

  /** After `disconnect()`, and until `connect()`, no socket is constructed, from any state and without discipline. */
  lemma {:induction false} SilentAfterDisconnect(c: Client, events: seq<Event>)
    requires c.closedByUser && Numbered(c) && ValidRun(c, events) && NoConnect(events)
    ensures Run(c, events).closedByUser && |Run(c, events).wire.sockets| == |c.wire.sockets|
  {
    if events != [] {
      SilentAfterDisconnect(c, events[..|events| - 1]);
      NumberedRun(c, events[..|events| - 1]);
      QuietStep(Run(c, events[..|events| - 1]), events[|events| - 1]);
    }
  }

  /** With nothing outstanding there is nothing left that could open a socket. */
  lemma IdleStep(c: Client, e: Event)
    requires Enabled(c, e) && Numbered(c) && !e.Connect? && Outstanding(c) == 0
    ensures |Apply(c, e).wire.sockets| == |c.wire.sockets|
  {
    assert c.attempts.Keys == {};
    if IsLocal(e) {
      LocalStep(c, e);
    }
  }

  /** Once nothing is outstanding, nothing is scheduled or opened until `connect()`. */
  lemma {:induction false} QuietUntilConnect(c: Client, events: seq<Event>)
    requires Numbered(c) && Outstanding(c) == 0 && ValidRun(c, events) && NoConnect(events)
    ensures var d := Run(c, events);
            Numbered(d) && Outstanding(d) == 0 && |d.wire.sockets| == |c.wire.sockets|
  {
    if events != [] {
      QuietUntilConnect(c, events[..|events| - 1]);
      OutstandingStep(Run(c, events[..|events| - 1]), events[|events| - 1]);
      IdleStep(Run(c, events[..|events| - 1]), events[|events| - 1]);
    }
  }
}
