/**
  Authentication of the TypeScript client's sockets: exactly when every socket's first frame is its only AUTH, exactly
  when that AUTH carries the token fetched for it, and why callers that connect only with nothing outstanding get both.
 */
module ClientAuth {
  import opened Prelude
  import opened Frame
  import opened ClientState
  import opened ClientLifecycle
  import opened ClientTraffic
  import opened ClientRuns

  predicate NoAuth(frames: seq<Outgoing>)
  {
    forall i | 0 <= i < |frames| :: frames[i].opcode != Auth
  }

  /** Nothing before the greeting; AUTH with the socket's own token first and never again. */
  predicate GreetedOnce(s: Socket)
  {
    && (s.ready.Connecting? ==> s.sent == [])
    && (s.ready.Open? ==> s.sent != [])
    && (s.sent != [] ==> s.sent[0] == Outgoing(Auth, [], s.token) && NoAuth(s.sent[1..]))
  }

  predicate AllGreeted(sockets: seq<Socket>)
  {
    forall i | 0 <= i < |sockets| :: GreetedOnce(sockets[i])
  }

  // ---------------------------------------------------------------- frames without AUTH

  lemma StillNoAuth(sent: seq<Outgoing>, frames: seq<Outgoing>)
    requires sent != [] && NoAuth(sent[1..]) && NoAuth(frames)
    ensures NoAuth((sent + frames)[1..])
  {
    assert (sent + frames)[1..] == sent[1..] + frames;
  }

  lemma {:induction false} SubscribesNoAuth(channels: seq<ChannelId>)
    ensures NoAuth(SubscribeFrames(channels))
  {
    if channels != [] {
      SubscribesNoAuth(channels[..|channels| - 1]);
    }
  }

  lemma SendAllGreeted(w: Wire, frames: seq<Outgoing>)
    requires CanSend(w) && AllGreeted(w.sockets) && NoAuth(frames)
    ensures AllGreeted(SendAll(w, frames).sockets)
  {
    assert GreetedOnce(w.sockets[w.ws.value]);
    StillNoAuth(w.sockets[w.ws.value].sent, frames);
  }

  lemma GreetingGreets(w: Wire, token: Token)
    requires AllData(w.pendingSends)
    ensures var frames := Greeting(w, token); frames[0] == Outgoing(Auth, [], token) && NoAuth(frames[1..])
  {
    var auth := [Outgoing(Auth, [], token)];
    SubscribesNoAuth(w.order);
    StillNoAuth(auth, SubscribeFrames(w.order));
    StillNoAuth(auth + SubscribeFrames(w.order), w.pendingSends);
  }

  // ---------------------------------------------------------------- one socket opens

  /** The current socket opens: it is greeted. */
  lemma OpeningGreets(w: Wire, s: nat)
    requires Inv(w) && AllGreeted(w.sockets) && s < |w.sockets| && w.sockets[s].ready.Connecting? && w.ws == Some(s)
    ensures AllGreeted(Opening(w, s).sockets)
  {
    var token := w.sockets[s].token;
    GreetingGreets(w, token);
    assert [] + Greeting(w, token) == Greeting(w, token);
    assert Opening(w, s).sockets[s] == w.sockets[s].(ready := Open, sent := Greeting(w, token));
  }

  /** Another socket opens: it stays without any frame. */
  lemma OpeningMisses(w: Wire, s: nat)
    requires Inv(w) && s < |w.sockets| && w.sockets[s].ready.Connecting? && w.ws != Some(s)
    ensures |Opening(w, s).sockets| == |w.sockets|
    ensures Opening(w, s).sockets[s].ready.Open? && Opening(w, s).sockets[s].sent == []
  {
  }

  /** The opening socket, if the step opens one, is the client's current socket. */
  predicate OpensCurrent(c: Client, e: Event)
  {
    e.Opened? ==> c.wire.ws == Some(e.socket)
  }

  lemma WithdrawingGreeted(w: Wire, s: nat, ready: Ready)
    requires s < |w.sockets| && AllGreeted(w.sockets) && (ready.Closing? || ready.Closed?)
    ensures AllGreeted(WithReady(w, s, ready).sockets)
  {
    assert GreetedOnce(w.sockets[s]);
  }

  lemma DroppingGreeted(w: Wire)
    requires AllGreeted(w.sockets)
    ensures AllGreeted(Dropping(w).sockets)
  {
    if w.ws.Some? && w.ws.value < |w.sockets| {
      WithdrawingGreeted(w, w.ws.value, Closing);
    }
  }

  lemma ImplGreeted(c: Client, a: nat)
    requires AllGreeted(c.wire.sockets)
    ensures AllGreeted(ApplyImplResolved(c, a).wire.sockets)
  {
  }

  lemma CallsGreeted(w: Wire, channelId: ChannelId, handler: Handler, frames: seq<Outgoing>)
    requires AllGreeted(w.sockets) && forall f | f in frames :: IsData(f)
    ensures AllGreeted(Subscribing(w, channelId, handler).sockets)
    ensures AllGreeted(Unsubscribing(w, channelId, handler).sockets)
    ensures AllGreeted(Sending(w, frames).sockets)
  {
    forall i | 0 <= i < |frames| ensures frames[i].opcode != Auth {
      assert frames[i] in frames;
    }
    if CanSend(w) {
      SendAllGreeted(w, [Outgoing(Subscribe, channelId, [])]);
      SendAllGreeted(w, [Outgoing(Unsub, channelId, [])]);
      SendAllGreeted(w, frames);
    }
  }

  lemma GreetedCall(c: Client, e: Event)
    requires AllGreeted(c.wire.sockets) && Enabled(c, e) && (e.HeartbeatTick? || e.Subscribed? || e.Unsubscribed? || e.Sent?)
    ensures AllGreeted(Apply(c, e).wire.sockets)
  {
    var w := c.wire;
    match e {
      case HeartbeatTick => if CanSend(w) { SendAllGreeted(w, [Outgoing(Ping, [], [])]); }
      case Subscribed(channelId, handler) => CallsGreeted(w, channelId, handler, []);
      case Unsubscribed(channelId, handler) => CallsGreeted(w, channelId, handler, []);
      case Sent(frames) => CallsGreeted(w, [], 0, frames);
    }
  }

  lemma GreetedStep(c: Client, e: Event)
    requires Inv(c.wire) && AllGreeted(c.wire.sockets) && Enabled(c, e) && OpensCurrent(c, e)
    ensures AllGreeted(Apply(c, e).wire.sockets)
  {
    if e.HeartbeatTick? || e.Subscribed? || e.Unsubscribed? || e.Sent? {
      GreetedCall(c, e);
    } else {
      match e {
        case Disconnect => DroppingGreeted(c.wire);
        case ImplResolved(a) => ImplGreeted(c, a);
        case Opened(s) => OpeningGreets(c.wire, s);
        case Faltered(s) => WithdrawingGreeted(c.wire, s, Closing);
        case SocketClosed(s, _) => WithdrawingGreeted(c.wire, s, Closed);
        case _ =>
      }
    }
  }

  // ---------------------------------------------------------------- greeted exactly when the opening socket is current

  lemma MissedIsUngreeted(sockets: seq<Socket>, s: nat)
    requires s < |sockets| && sockets[s].ready.Open? && sockets[s].sent == []
    ensures !AllGreeted(sockets)
  {
    assert !GreetedOnce(sockets[s]);
  }

  predicate AlwaysOpensCurrent(c: Client, events: seq<Event>)
  {
    forall i | 0 <= i < |events| :: OpensCurrent(Run(c, events[..i]), events[i])
  }

  lemma {:induction false} GreetedUpTo(c: Client, events: seq<Event>, i: nat)
    requires Inv(c.wire) && AllGreeted(c.wire.sockets) && ValidRun(c, events) && AlwaysOpensCurrent(c, events)
    requires i <= |events|
    ensures AllGreeted(Run(c, events[..i]).wire.sockets)
  {
    if i > 0 {
      GreetedUpTo(c, events, i - 1);
      StepAt(c, events, i - 1);
      InvRun(c, events[..i - 1]);
      GreetedStep(Run(c, events[..i - 1]), events[i - 1]);
    }
  }

  /**
    In every run, every socket's first frame is at all times its only AUTH, sent when it opens, exactly when each
    socket that opens is the client's current socket at that moment.
   */
  lemma AuthComesFirstAndOnce(config: Config, events: seq<Event>)
    requires ValidRun(Start(config), events)
    ensures (forall i | 0 <= i <= |events| :: AllGreeted(Run(Start(config), events[..i]).wire.sockets))
            <==> AlwaysOpensCurrent(Start(config), events)
  {
    var c := Start(config);
    if AlwaysOpensCurrent(c, events) {
      forall i | 0 <= i <= |events| ensures AllGreeted(Run(c, events[..i]).wire.sockets) {
        GreetedUpTo(c, events, i);
      }
    }
    if forall i | 0 <= i <= |events| :: AllGreeted(Run(c, events[..i]).wire.sockets) {
      forall i | 0 <= i < |events| ensures OpensCurrent(Run(c, events[..i]), events[i]) {
        StepAt(c, events, i);
        InvRun(c, events[..i]);
        if !OpensCurrent(Run(c, events[..i]), events[i]) {
          OpeningMisses(Run(c, events[..i]).wire, events[i].socket);
          MissedIsUngreeted(Run(c, events[..i + 1]).wire.sockets, events[i].socket);
          assert false;
        }
      }
    }
  }

  /** After two overlapping `connect()` calls the first socket opens without ever being sent its AUTH. */
  lemma OverlappingConnects(reconnect: bool, token: Token) returns (events: seq<Event>)
    requires token != []
    ensures ValidRun(Fresh(reconnect, false, Some(token)), events)
    ensures var w := Run(Fresh(reconnect, false, Some(token)), events).wire;
            |w.sockets| == 2 && w.sockets[0].ready.Open? && w.sockets[0].sent == [] && w.sockets[1].ready.Connecting?
  {
    var c := Fresh(reconnect, false, Some(token));
    var d := c;
    events := [];
    events, d := Extend(c, events, d, Connect);
    events, d := Extend(c, events, d, Connect);
    events, d := Extend(c, events, d, ImplResolved(0));
    events, d := Extend(c, events, d, ImplResolved(1));
    assert d.wire.sockets == [Socket(Connecting, 0, token, []), Socket(Connecting, 1, token, [])];
    events, d := Extend(c, events, d, Opened(0));
  }

  // ---------------------------------------------------------------- tokens

  /** The socket carries the token fetched by the attempt that made it. */
  predicate OwnToken(c: Client, s: Socket)
  {
    s.attempt in c.fetched && s.token == c.fetched[s.attempt]
  }

  predicate AllOwnTokens(c: Client)
  {
    forall i | 0 <= i < |c.wire.sockets| :: OwnToken(c, c.wire.sockets[i])
  }

  /** Attempts are numbered once; one that has fetched its token, and one that has made a socket, has it on record. */
  predicate Ledger(c: Client)
  {
    && Numbered(c)
    && (forall a | a in c.attempts && c.attempts[a].AwaitingImpl? :: a in c.fetched)
    && (forall i | 0 <= i < |c.wire.sockets| :: var a := c.wire.sockets[i].attempt;
          a in c.fetched && a !in c.attempts && a < c.nextAttempt)
  }

  /** The sockets were made by the same attempts with the same tokens. */
  predicate SameOwners(xs: seq<Socket>, ys: seq<Socket>)
  {
    |ys| == |xs| && forall i | 0 <= i < |xs| :: ys[i].attempt == xs[i].attempt && ys[i].token == xs[i].token
  }

  /** No step but a construction makes a socket or changes the owner of one. */
  lemma OwnersStep(c: Client, e: Event)
    requires Enabled(c, e) && !e.ImplResolved?
    ensures SameOwners(c.wire.sockets, Apply(c, e).wire.sockets)
  {
    match e {
      case Opened(s) => OwnersOfOpening(c.wire, s);
      case Subscribed(channelId, handler) => OwnersOfWire(c.wire, channelId, handler);
      case Unsubscribed(channelId, handler) => OwnersOfWire(c.wire, channelId, handler);
      case _ =>
    }
  }

  lemma OwnersOfOpening(w: Wire, s: nat)
    requires s < |w.sockets|
    ensures SameOwners(w.sockets, Opening(w, s).sockets)
  {
  }

  lemma OwnersOfWire(w: Wire, channelId: ChannelId, handler: Handler)
    ensures SameOwners(w.sockets, Subscribing(w, channelId, handler).sockets)
    ensures SameOwners(w.sockets, Unsubscribing(w, channelId, handler).sockets)
  {
  }

  /** Attempts, token and fetched tokens after a step other than the two settlements of `openSocket`. */
  lemma HistoryStep(c: Client, e: Event)
    requires Enabled(c, e) && Numbered(c) && !e.ImplResolved? && !e.TokenResolved?
    ensures var d := Apply(c, e);
            && d.hasGetToken == c.hasGetToken && d.token == c.token && d.fetched == c.fetched
            && d.nextAttempt >= c.nextAttempt
            && (forall a | a in d.attempts ::
                  (a in c.attempts && d.attempts[a] == c.attempts[a]) || (a >= c.nextAttempt && (c.hasGetToken ==> d.attempts[a].AwaitingToken?)))
  {
  }

  /** The step makes a socket. */
  predicate Constructs(c: Client, e: Event)
  {
    e.ImplResolved? && !c.closedByUser && c.token.Some? && c.token.value != []
  }

  /** If the step makes a socket, the stored token is the one this attempt fetched. */
  predicate ConstructsOwn(c: Client, e: Event)
  {
    Constructs(c, e) ==> e.attempt in c.fetched && c.token == Some(c.fetched[e.attempt])
  }

  lemma LedgerSettles(c: Client, a: nat, token: Token)
    requires Ledger(c) && c.hasGetToken && a in c.attempts
    ensures Ledger(ApplyTokenResolved(c, a, token))
    ensures c.attempts[a].AwaitingImpl? ==> Ledger(ApplyImplResolved(c, a))
  {
  }

  lemma LedgerCarries(c: Client, d: Client)
    requires Ledger(c) && Numbered(d) && SameOwners(c.wire.sockets, d.wire.sockets)
    requires d.fetched == c.fetched && d.nextAttempt >= c.nextAttempt
    requires forall a | a in d.attempts ::
               (a in c.attempts && d.attempts[a] == c.attempts[a]) || (a >= c.nextAttempt && d.attempts[a].AwaitingToken?)
    ensures Ledger(d)
  {
  }

  lemma LedgerOther(c: Client, e: Event)
    requires Enabled(c, e) && Ledger(c) && c.hasGetToken && !e.ImplResolved? && !e.TokenResolved?
    ensures Ledger(Apply(c, e)) && Apply(c, e).hasGetToken
  {
    OutstandingStep(c, e);
    OwnersStep(c, e);
    HistoryStep(c, e);
    LedgerCarries(c, Apply(c, e));
  }

  lemma LedgerStep(c: Client, e: Event)
    requires Enabled(c, e) && Ledger(c) && c.hasGetToken
    ensures Ledger(Apply(c, e)) && Apply(c, e).hasGetToken
  {
    match e {
      case TokenResolved(a, token) => LedgerSettles(c, a, token);
      case ImplResolved(a) => LedgerSettles(c, a, []);
      case _ => LedgerOther(c, e);
    }
  }

  /** The owners' tokens are right after a step exactly when they were before it and any socket it makes is. */
  lemma TokensStep(c: Client, e: Event)
    requires Enabled(c, e) && Ledger(c) && c.hasGetToken
    ensures AllOwnTokens(Apply(c, e)) <==> AllOwnTokens(c) && ConstructsOwn(c, e)
  {
    var d := Apply(c, e);
    forall i | 0 <= i < |c.wire.sockets|
      ensures i < |d.wire.sockets| && (OwnToken(d, d.wire.sockets[i]) <==> OwnToken(c, c.wire.sockets[i]))
    {
      OldTokenStep(c, e, i);
    }
    if Constructs(c, e) {
      assert d.wire.sockets[|c.wire.sockets|] == Socket(Connecting, e.attempt, c.token.value, []);
      assert OwnToken(d, d.wire.sockets[|c.wire.sockets|]) <==> ConstructsOwn(c, e);
    } else if !e.ImplResolved? {
      OwnersStep(c, e);
    }
  }

  lemma OldTokenStep(c: Client, e: Event, i: nat)
    requires Enabled(c, e) && Ledger(c) && c.hasGetToken && i < |c.wire.sockets|
    ensures var d := Apply(c, e);
            i < |d.wire.sockets| && (OwnToken(d, d.wire.sockets[i]) <==> OwnToken(c, c.wire.sockets[i]))
  {
    if !e.ImplResolved? {
      OwnersStep(c, e);
      if !e.TokenResolved? {
        HistoryStep(c, e);
      }
    }
  }

  predicate AlwaysConstructsOwn(c: Client, events: seq<Event>)
  {
    forall i | 0 <= i < |events| :: ConstructsOwn(Run(c, events[..i]), events[i])
  }

  lemma ConstructsOwnLast(c: Client, events: seq<Event>)
    requires events != []
    ensures var n := |events| - 1;
            AlwaysConstructsOwn(c, events) <==> AlwaysConstructsOwn(c, events[..n]) && ConstructsOwn(Run(c, events[..n]), events[n])
  {
    ConstructsOwnPrefix(c, events, |events| - 1);
  }

  /** The steps of a prefix are the first steps. */
  lemma ConstructsOwnPrefix(c: Client, events: seq<Event>, n: nat)
    requires n <= |events|
    ensures AlwaysConstructsOwn(c, events[..n]) <==> forall i | 0 <= i < n :: ConstructsOwn(Run(c, events[..i]), events[i])
  {
    forall i | 0 <= i < n
      ensures ConstructsOwn(Run(c, events[..n][..i]), events[..n][i]) <==> ConstructsOwn(Run(c, events[..i]), events[i])
    {
      assert events[..n][..i] == events[..i];
    }
  }

  lemma {:induction false} TokensRun(c: Client, events: seq<Event>)
    requires ValidRun(c, events) && Ledger(c) && c.hasGetToken && AllOwnTokens(c)
    ensures Ledger(Run(c, events)) && Run(c, events).hasGetToken
    ensures AllOwnTokens(Run(c, events)) <==> AlwaysConstructsOwn(c, events)
  {
    if events != [] {
      var n := |events| - 1;
      var front := events[..n];
      TokensRun(c, front);
      LedgerStep(Run(c, front), events[n]);
      TokensStep(Run(c, front), events[n]);
      ConstructsOwnLast(c, events);
    }
  }

  // ---------------------------------------------------------------- the same condition, on the events alone

  /** The token stored after these events: the last one that arrived, or the configured one. */
  function LastToken(configured: Option<Token>, events: seq<Event>): (t: Option<Token>)
  {
    if events == [] then configured
    else if events[|events| - 1].TokenResolved? then Some(events[|events| - 1].token)
    else LastToken(configured, events[..|events| - 1])
  }

  /** The token that arrived for an attempt. */
  function FetchedBy(events: seq<Event>, a: nat): (t: Option<Token>)
  {
    if events == [] then None
    else
      var last := events[|events| - 1];
      if last.TokenResolved? && last.attempt == a then Some(last.token) else FetchedBy(events[..|events| - 1], a)
  }

  /** The last of the user's calls was `connect()`. */
  predicate UserConnected(events: seq<Event>)
  {
    events != [] &&
    (events[|events| - 1].Connect? || (!events[|events| - 1].Disconnect? && UserConnected(events[..|events| - 1])))
  }

  /** An attempt that gets to make its socket finds that no token has arrived since its own, but perhaps an equal one. */
  predicate OwnFetchLast(configured: Option<Token>, before: seq<Event>, e: Event)
  {
    var stored := LastToken(configured, before);
    e.ImplResolved? && UserConnected(before) && stored.Some? && stored.value != [] ==> FetchedBy(before, e.attempt) == stored
  }

  predicate FetchesInOrder(configured: Option<Token>, events: seq<Event>)
  {
    forall i | 0 <= i < |events| :: OwnFetchLast(configured, events[..i], events[i])
  }

  /** The state's token, record of fetches and flag are what the events say. */
  ghost predicate ReadsAs(c: Client, configured: Option<Token>, events: seq<Event>)
  {
    && c.token == LastToken(configured, events) && c.closedByUser == !UserConnected(events)
    && forall a: nat :: FetchedBy(events, a) == if a in c.fetched then Some(c.fetched[a]) else None
  }

  lemma ReadingStep(c: Client, e: Event)
    requires Enabled(c, e)
    ensures var d := Apply(c, e);
            && d.token == (if e.TokenResolved? then Some(e.token) else c.token)
            && d.fetched == (if e.TokenResolved? then c.fetched[e.attempt := e.token] else c.fetched)
            && d.closedByUser == (if e.Connect? then false else e.Disconnect? || c.closedByUser)
  {
  }

  lemma {:induction false} ReadingRun(config: Config, events: seq<Event>)
    requires ValidRun(Start(config), events)
    ensures ReadsAs(Run(Start(config), events), config.token, events)
  {
    if events != [] {
      ReadingRun(config, events[..|events| - 1]);
      ReadingStep(Run(Start(config), events[..|events| - 1]), events[|events| - 1]);
    }
  }

  lemma ReadingCondition(config: Config, events: seq<Event>)
    requires config.hasGetToken && ValidRun(Start(config), events)
    ensures AlwaysConstructsOwn(Start(config), events) <==> FetchesInOrder(config.token, events)
  {
    var c := Start(config);
    forall i | 0 <= i < |events|
      ensures ConstructsOwn(Run(c, events[..i]), events[i]) <==> OwnFetchLast(config.token, events[..i], events[i])
    {
      StepAt(c, events, i);
      ReadingRun(config, events[..i]);
    }
  }

  /**
    With `getToken`, in every run, every socket carries the token fetched by the attempt that made it exactly when, each
    time an attempt gets to make its socket, the last token to have arrived is the one that arrived for this attempt.
   */
  lemma SocketsOwnTheirTokens(config: Config, events: seq<Event>)
    requires config.hasGetToken && ValidRun(Start(config), events)
    ensures AllOwnTokens(Run(Start(config), events)) <==> FetchesInOrder(config.token, events)
  {
    TokensRun(Start(config), events);
    ReadingCondition(config, events);
  }

  /** Two overlapping attempts: the first makes its socket with the token the second has fetched. */
  lemma OverlappingAttempts(reconnect: bool, first: Token, second: Token) returns (events: seq<Event>)
    requires second != []
    ensures ValidRun(Fresh(reconnect, true, None), events)
    ensures var d := Run(Fresh(reconnect, true, None), events);
            |d.wire.sockets| == 1 && d.wire.sockets[0].attempt in d.fetched
            && d.fetched[d.wire.sockets[0].attempt] == first && d.wire.sockets[0].token == second
  {
    var c := Fresh(reconnect, true, None);
    var d := c;
    events := [];
    events, d := Extend(c, events, d, Connect);
    events, d := Extend(c, events, d, Connect);
    events, d := Extend(c, events, d, TokenResolved(0, first));
    events, d := Extend(c, events, d, TokenResolved(1, second));
    assert d.fetched[0] == first && d.token == Some(second);
    events, d := Extend(c, events, d, ImplResolved(0));
  }

  /** Every socket that has sent anything began with AUTH and its own attempt's token. */
  predicate AuthenticatedAsFetched(c: Client)
  {
    AllGreeted(c.wire.sockets) && AllOwnTokens(c)
  }

  /** With `getToken`, exactly when both conditions hold, each AUTH carries the token fetched for its socket, all along. */
  lemma AuthUsesItsOwnToken(config: Config, events: seq<Event>)
    requires config.hasGetToken && ValidRun(Start(config), events)
    ensures (forall i | 0 <= i <= |events| :: AuthenticatedAsFetched(Run(Start(config), events[..i])))
            <==> AlwaysOpensCurrent(Start(config), events) && FetchesInOrder(config.token, events)
  {
    var c := Start(config);
    AuthComesFirstAndOnce(config, events);
    OwnTokensAllAlong(config, events);
    if forall i | 0 <= i <= |events| :: AuthenticatedAsFetched(Run(c, events[..i])) {
      forall i | 0 <= i <= |events| ensures AllGreeted(Run(c, events[..i]).wire.sockets) && AllOwnTokens(Run(c, events[..i])) {
        assert AuthenticatedAsFetched(Run(c, events[..i]));
      }
    }
  }

  lemma InOrderPrefix(configured: Option<Token>, events: seq<Event>, n: nat)
    requires n <= |events| && FetchesInOrder(configured, events)
    ensures FetchesInOrder(configured, events[..n])
  {
    forall i | 0 <= i < n ensures OwnFetchLast(configured, events[..n][..i], events[..n][i]) {
      assert events[..n][..i] == events[..i];
    }
  }

  lemma OwnTokensAllAlong(config: Config, events: seq<Event>)
    requires config.hasGetToken && ValidRun(Start(config), events)
    ensures (forall i | 0 <= i <= |events| :: AllOwnTokens(Run(Start(config), events[..i]))) <==> FetchesInOrder(config.token, events)
  {
    assert events[..|events|] == events;
    SocketsOwnTheirTokens(config, events);
    if FetchesInOrder(config.token, events) {
      forall i | 0 <= i <= |events| ensures AllOwnTokens(Run(Start(config), events[..i])) {
        PrefixRun(Start(config), events, i);
        InOrderPrefix(config.token, events, i);
        SocketsOwnTheirTokens(config, events[..i]);
      }
    }
  }

  // ---------------------------------------------------------------- callers that respect the discipline

  /** No socket but the current one is opening or open. */
  predicate OnlyCurrent(w: Wire)
  {
    forall i | 0 <= i < |w.sockets| && (w.sockets[i].ready.Connecting? || w.sockets[i].ready.Open?) :: w.ws == Some(i)
  }

  /** An attempt past its fetch finds its own token stored. */
  predicate OwnAttempts(c: Client)
  {
    c.hasGetToken ==>
      forall a | a in c.attempts && c.attempts[a].AwaitingImpl? :: a in c.fetched && c.token == Some(c.fetched[a])
  }

  predicate Orderly(c: Client)
  {
    Outstanding(c) <= 1 && OnlyCurrent(c.wire) && OwnAttempts(c)
  }

  lemma OnlyOne<T>(s: set<T>, x: T)
    requires |s| <= 1 && x in s
    ensures s == {x}
  {
    assert s == {x} + (s - {x});
    assert |s - {x}| == 0;
  }

  lemma AttemptExcludesSockets(c: Client, a: nat)
    requires Outstanding(c) <= 1 && a in c.attempts
    ensures c.attempts.Keys == {a}
    ensures forall i | 0 <= i < |c.wire.sockets| :: c.wire.sockets[i].ready.Closed?
  {
    assert a in c.attempts.Keys && |c.attempts| == |c.attempts.Keys|;
    OnlyOne(c.attempts.Keys, a);
    forall i | 0 <= i < |c.wire.sockets| ensures c.wire.sockets[i].ready.Closed? {
      assert i !in Live(c.wire.sockets);
    }
  }

  lemma SocketExcludesOthers(c: Client, s: nat)
    requires Outstanding(c) <= 1 && s < |c.wire.sockets| && !c.wire.sockets[s].ready.Closed?
    ensures forall i | 0 <= i < |c.wire.sockets| && i != s :: c.wire.sockets[i].ready.Closed?
  {
    assert s in Live(c.wire.sockets);
    OnlyOne(Live(c.wire.sockets), s);
    forall i | 0 <= i < |c.wire.sockets| && i != s ensures c.wire.sockets[i].ready.Closed? {
      assert i !in Live(c.wire.sockets);
    }
  }

  /** Every socket is ready as it was, or has opened, or is closing. */
  predicate SameCurrent(w: Wire, v: Wire)
  {
    && v.ws == w.ws && |v.sockets| == |w.sockets|
    && forall i | 0 <= i < |w.sockets| ::
         v.sockets[i].ready == w.sockets[i].ready || (v.sockets[i].ready.Open? && w.sockets[i].ready.Connecting?) || v.sockets[i].ready.Closing?
  }

  lemma CurrentOfOpening(w: Wire, s: nat)
    requires s < |w.sockets| && w.sockets[s].ready.Connecting?
    ensures SameCurrent(w, Opening(w, s))
  {
  }

  lemma CurrentOfWire(w: Wire, channelId: ChannelId, handler: Handler, frames: seq<Outgoing>)
    ensures SameCurrent(w, Subscribing(w, channelId, handler))
    ensures SameCurrent(w, Unsubscribing(w, channelId, handler))
    ensures SameCurrent(w, Sending(w, frames))
    ensures CanSend(w) ==> SameCurrent(w, SendAll(w, frames))
  {
  }

  /** Steps that neither make nor end a socket leave the current one current. */
  lemma CurrentStep(c: Client, e: Event)
    requires Enabled(c, e) && !e.ImplResolved? && !e.SocketClosed? && !e.Disconnect?
    ensures SameCurrent(c.wire, Apply(c, e).wire)
  {
    match e {
      case Opened(s) => CurrentOfOpening(c.wire, s);
      case Faltered(s) =>
      case Subscribed(channelId, handler) => CurrentOfWire(c.wire, channelId, handler, []);
      case Unsubscribed(channelId, handler) => CurrentOfWire(c.wire, channelId, handler, []);
      case Sent(frames) => CurrentOfWire(c.wire, [], 0, frames);
      case HeartbeatTick => CurrentOfWire(c.wire, [], 0, [Outgoing(Ping, [], [])]);
      case _ =>
    }
  }

  lemma ConstructedIsOnly(c: Client, a: nat)
    requires Orderly(c) && a in c.attempts
    ensures OnlyCurrent(ApplyImplResolved(c, a).wire)
  {
    AttemptExcludesSockets(c, a);
  }

  lemma ClosedWasOnly(c: Client, s: nat, code: int)
    requires Orderly(c) && s < |c.wire.sockets| && !c.wire.sockets[s].ready.Closed?
    ensures OnlyCurrent(ApplyClosed(c, s, code).wire)
  {
    SocketExcludesOthers(c, s);
  }

  lemma DroppedIsNot(w: Wire)
    requires OnlyCurrent(w)
    ensures OnlyCurrent(Dropping(w))
  {
  }

  lemma OnlyCurrentStep(c: Client, e: Event)
    requires Orderly(c) && Enabled(c, e)
    ensures OnlyCurrent(Apply(c, e).wire)
  {
    match e {
      case ImplResolved(a) => ConstructedIsOnly(c, a);
      case SocketClosed(s, code) => ClosedWasOnly(c, s, code);
      case Disconnect => DroppedIsNot(c.wire);
      case _ => CurrentStep(c, e);
    }
  }

  lemma OwnAttemptStep(c: Client, e: Event)
    requires Orderly(c) && Numbered(c) && Enabled(c, e)
    ensures OwnAttempts(Apply(c, e)) && Apply(c, e).hasGetToken == c.hasGetToken
  {
    match e {
      case ImplResolved(a) => AttemptExcludesSockets(c, a);
      case TokenResolved(a, _) => AttemptExcludesSockets(c, a);
      case _ => HistoryStep(c, e);
    }
  }

  lemma OrderlyStep(c: Client, e: Event)
    requires Orderly(c) && Numbered(c) && Enabled(c, e) && (e.Connect? ==> Outstanding(c) == 0)
    ensures Orderly(Apply(c, e)) && Numbered(Apply(c, e)) && Apply(c, e).hasGetToken == c.hasGetToken
  {
    OutstandingStep(c, e);
    OnlyCurrentStep(c, e);
    OwnAttemptStep(c, e);
  }

  lemma {:induction false} OrderlyRun(c: Client, events: seq<Event>, i: nat)
    requires Orderly(c) && Numbered(c) && ValidRun(c, events) && Disciplined(c, events) && i <= |events|
    ensures var d := Run(c, events[..i]); Orderly(d) && Numbered(d) && d.hasGetToken == c.hasGetToken
  {
    if i > 0 {
      OrderlyRun(c, events, i - 1);
      StepAt(c, events, i - 1);
      OrderlyStep(Run(c, events[..i - 1]), events[i - 1]);
    }
  }

  /** A client connected only when nothing is outstanding meets both conditions, so all the above holds of it. */
  lemma DisciplineSuffices(config: Config, events: seq<Event>)
    requires ValidRun(Start(config), events) && Disciplined(Start(config), events)
    ensures AlwaysOpensCurrent(Start(config), events)
    ensures config.hasGetToken ==> FetchesInOrder(config.token, events)
  {
    var c := Start(config);
    assert Live([]) == {};
    forall i | 0 <= i < |events|
      ensures OpensCurrent(Run(c, events[..i]), events[i])
      ensures config.hasGetToken ==> ConstructsOwn(Run(c, events[..i]), events[i])
    {
      OrderlyRun(c, events, i);
      StepAt(c, events, i);
    }
    if config.hasGetToken {
      ReadingCondition(config, events);
    }
  }
}
