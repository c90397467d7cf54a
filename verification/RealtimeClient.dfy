/**
  The TypeScript `RealtimeClient`: fields updated by its methods and callbacks as in the source. The object carries the
  history of its steps; every call and callback extends it by the step it takes, so that what is proved of all runs is a
  postcondition of every method.

  `emit` is left out: no listener re-enters the client.
 */
module RealtimeClientClass {
  import opened Prelude
  import opened Utf16
  import opened Frame
  import opened Chunking
  import opened ClientState
  import opened ClientLifecycle
  import opened ClientTraffic
  import opened ClientRuns
  import opened ClientAuth

  lemma SendAllTwice(w: Wire, xs: seq<Outgoing>, ys: seq<Outgoing>)
    requires CanSend(w)
    ensures CanSend(SendAll(w, xs)) && SendAll(SendAll(w, xs), ys) == SendAll(w, xs + ys)
  {
    var sent := w.sockets[w.ws.value].sent;
    assert sent + xs + ys == sent + (xs + ys);
  }

  lemma SendAllNothing(w: Wire)
    requires CanSend(w)
    ensures SendAll(w, []) == w
  {
    var socket := w.sockets[w.ws.value];
    assert socket.sent + [] == socket.sent;
    assert w.sockets[w.ws.value := socket] == w.sockets;
  }

  lemma SendingTwice(w: Wire, xs: seq<Outgoing>, ys: seq<Outgoing>)
    ensures Sending(Sending(w, xs), ys) == Sending(w, xs + ys)
  {
    assert w.accepted + xs + ys == w.accepted + (xs + ys);
    if CanSend(w) {
      SendAllTwice(w.(accepted := w.accepted + xs), xs, ys);
      SendAllTwice(w.(accepted := w.accepted + xs + ys), xs, ys);
      assert SendAll(w.(accepted := w.accepted + xs), xs).(accepted := w.accepted + xs + ys)
          == SendAll(w.(accepted := w.accepted + xs + ys), xs);
    } else {
      assert w.pendingSends + xs + ys == w.pendingSends + (xs + ys);
    }
  }

  lemma SendingNothing(w: Wire)
    ensures Sending(w, []) == w
  {
    assert w.accepted + [] == w.accepted && w.pendingSends + [] == w.pendingSends;
    if CanSend(w) {
      SendAllNothing(w);
    }
  }

  /** The frames of one `publish` or `unicast`. */
  function ChunkFrames(op: Opcode, channelId: ChannelId, chunks: seq<JsString>): (frames: seq<Outgoing>)
    ensures |frames| == |chunks|
  {
    seq(|chunks|, i requires 0 <= i < |chunks| => Outgoing(op, channelId, chunks[i]))
  }

  /** What removing a handler does to the table, and that removing an absent one does nothing at all. */
  lemma UnsubscribingHandlers(w: Wire, channelId: ChannelId, handler: Handler)
    requires forall k | k in w.subscriptions :: w.subscriptions[k] != {}
    ensures var v := Unsubscribing(w, channelId, handler);
            && HandlersOf(v.subscriptions, channelId) == HandlersOf(w.subscriptions, channelId) - {handler}
            && v.subscriptions - {channelId} == w.subscriptions - {channelId}
            && v.ws == w.ws
            && (if HandlersOf(w.subscriptions, channelId) == {handler} && CanSend(w)
                then ToldMore(w.sockets, v.sockets, w.ws.value, Outgoing(Opcode.Unsub, channelId, []))
                else v.sockets == w.sockets)
            && (handler !in HandlersOf(w.subscriptions, channelId) ==> v == w)
  {
    if channelId in w.subscriptions && handler !in w.subscriptions[channelId] {
      assert w.subscriptions[channelId] - {handler} == w.subscriptions[channelId];
      assert w.subscriptions[channelId := w.subscriptions[channelId]] == w.subscriptions;
    }
  }

  /** One more frame has been sent on this socket, and nothing else has changed. */
  predicate ToldMore(before: seq<Socket>, after: seq<Socket>, ws: nat, f: Outgoing)
  {
    && |after| == |before|
    && forall i | 0 <= i < |before| :: after[i] == if i == ws then before[i].(sent := before[i].sent + [f]) else before[i]
  }

  /** What adding a handler does to the table and its order, and the one frame a new channel costs. */
  lemma SubscribingParts(w: Wire, channelId: ChannelId, handler: Handler)
    ensures var v := Subscribing(w, channelId, handler);
            && v.subscriptions == w.subscriptions[channelId := HandlersOf(w.subscriptions, channelId) + {handler}]
            && v.order == (if channelId in w.subscriptions then w.order else w.order + [channelId])
            && v.ws == w.ws
            && (if channelId !in w.subscriptions && CanSend(w)
                then ToldMore(w.sockets, v.sockets, w.ws.value, Outgoing(Opcode.Subscribe, channelId, []))
                else v.sockets == w.sockets)
  {
    assert {} + {handler} == {handler};
  }

  /** The handlers registered for a channel. */
  function HandlersOf(subscriptions: map<ChannelId, set<Handler>>, channelId: ChannelId): (hs: set<Handler>)
  {
    if channelId in subscriptions then subscriptions[channelId] else {}
  }

  /** AUTH with this token, then one SUB for each of these channels in order, then these frames. */
  predicate IsGreeting(frames: seq<Outgoing>, token: Token, order: seq<ChannelId>, pending: seq<Outgoing>)
  {
    && |frames| == 1 + |order| + |pending|
    && frames[0] == Outgoing(Opcode.Auth, [], token)
    && (forall i | 0 <= i < |order| :: frames[1 + i] == Outgoing(Opcode.Subscribe, order[i], []))
    && frames[1 + |order|..] == pending
  }

  /**
    Socket `s` opens. If it is the current one, the greeting with its token is all it has been sent. If another open
    socket is current, that one is sent the greeting on top of what it was sent, with the token of `s`. The queue is then
    empty. If the current socket is not open, or there is none, nothing is sent.
   */
  predicate OpensAs(w: Wire, s: nat, v: Wire)
    requires s < |w.sockets|
  {
    && v.ws == w.ws && |v.sockets| == |w.sockets| && v.subscriptions == w.subscriptions && v.order == w.order
    && v.sockets[s].ready.Open? && v.sockets[s].token == w.sockets[s].token
    && (w.ws == Some(s) ==> CanSend(v) && IsGreeting(v.sockets[s].sent, w.sockets[s].token, w.order, w.pendingSends))
    && (w.ws != Some(s) ==> v.sockets[s].sent == [])
    && (w.ws != Some(s) && CanSend(v) ==>
          var before, after := w.sockets[v.ws.value].sent, v.sockets[v.ws.value].sent;
          before <= after && IsGreeting(after[|before|..], w.sockets[s].token, w.order, w.pendingSends))
    && (CanSend(v) ==> v.pendingSends == [])
    && (!CanSend(v) ==> v.sockets == w.sockets[s := w.sockets[s].(ready := Open)] && v.pendingSends == w.pendingSends)
  }

  lemma OpeningSends(w: Wire, s: nat)
    requires Inv(w) && s < |w.sockets| && w.sockets[s].ready.Connecting?
    ensures OpensAs(w, s, Opening(w, s))
  {
    GreetingParts(w, w.sockets[s].token);
    if w.ws == Some(s) {
      CurrentOpens(w, s);
    } else {
      OtherOpens(w, s);
    }
  }

  lemma CurrentOpens(w: Wire, s: nat)
    requires Inv(w) && s < |w.sockets| && w.sockets[s].ready.Connecting? && w.ws == Some(s)
    requires IsGreeting(Greeting(w, w.sockets[s].token), w.sockets[s].token, w.order, w.pendingSends)
    ensures OpensAs(w, s, Opening(w, s))
  {
    assert [] + Greeting(w, w.sockets[s].token) == Greeting(w, w.sockets[s].token);
  }

  lemma OtherOpens(w: Wire, s: nat)
    requires Inv(w) && s < |w.sockets| && w.sockets[s].ready.Connecting? && w.ws != Some(s)
    requires IsGreeting(Greeting(w, w.sockets[s].token), w.sockets[s].token, w.order, w.pendingSends)
    ensures OpensAs(w, s, Opening(w, s))
  {
    if w.ws.Some? {
      var before, frames := w.sockets[w.ws.value].sent, Greeting(w, w.sockets[s].token);
      assert (before + frames)[|before|..] == frames;
    }
  }

  /** Only `connect()` adds to what is outstanding after a run, and it adds one. */
  lemma OutstandingOfStep(start: Client, history: seq<Event>, e: Event)
    requires IsFresh(start) && ValidRun(start, history) && Enabled(Run(start, history), e)
    ensures var before := Run(start, history); var after := Apply(before, e);
            && Outstanding(after) <= Outstanding(before) + (if e.Connect? then 1 else 0)
            && (e.Connect? ==> Outstanding(after) == Outstanding(before) + 1)
  {
    NumberedRun(start, history);
    OutstandingStep(Run(start, history), e);
  }

  lemma {:induction false} SubscribeFramesAre(channels: seq<ChannelId>)
    ensures |SubscribeFrames(channels)| == |channels|
    ensures forall i | 0 <= i < |channels| :: SubscribeFrames(channels)[i] == Outgoing(Opcode.Subscribe, channels[i], [])
  {
    if channels != [] {
      SubscribeFramesAre(channels[..|channels| - 1]);
    }
  }

  /** AUTH, then one SUB per key in insertion order, then the queue. */
  lemma GreetingParts(w: Wire, token: Token)
    ensures IsGreeting(Greeting(w, token), token, w.order, w.pendingSends)
  {
    SubscribeFramesAre(w.order);
  }

  predicate IsFresh(c: Client)
  {
    c == Fresh(c.reconnect, c.hasGetToken, c.token)
  }

  class RealtimeClient {
    const reconnect: bool
    const hasGetToken: bool
    const maxMessageBytes: nat
    var token: Option<Token>
    var ws: Option<nat>
    var heartbeat: bool
    var reconnectTimer: Option<nat>
    var reconnectAttempt: nat
    var closedByUser: bool
    var subscriptions: map<ChannelId, set<Handler>>
    var order: seq<ChannelId>
    var pendingSends: seq<Outgoing>

    // the platform: sockets constructed so far, suspended calls of `openSocket`, timers armed
    var sockets: seq<Socket>
    var attempts: map<nat, Attempt>
    var nextAttempt: nat
    var armed: set<nat>
    var nextTimer: nat

    ghost var accepted: seq<Outgoing>
    ghost var fetched: map<nat, Token>
    ghost const start: Client
    ghost var history: seq<Event>

    ghost function Traffic(): (w: Wire)
      reads this
    {
      Wire(ws, sockets, subscriptions, order, pendingSends, accepted)
    }

    ghost function State(): (c: Client)
      reads this
    {
      Client(reconnect, hasGetToken, token, closedByUser, heartbeat, reconnectTimer, reconnectAttempt, Traffic(),
             attempts, nextAttempt, armed, nextTimer, fetched)
    }

    /** The object is where its history leads a fresh client. */
    ghost predicate Valid()
      reads this
    {
      start.hasGetToken == hasGetToken && IsFresh(start) && ValidRun(start, history) && State() == Run(start, history)
    }

    /**
      An open current socket has been told exactly the current keys, none of which is without a handler; the data frames
      sent over all sockets, then the queue, are the accepted ones, and the queue is empty while the socket is open.
     */
    ghost predicate TrafficKept()
      reads this
    {
      && (CanSend(Traffic()) ==> View({}, sockets[ws.value].sent) == subscriptions.Keys && pendingSends == [])
      && (forall k | k in subscriptions :: subscriptions[k] != {})
      && DataSent(sockets) + pendingSends == accepted
    }

    /**
      If every socket opened as the current one, each has its AUTH first and only once; with `getToken` each carries its
      own attempt's token exactly when each was constructed so. Connecting only with nothing outstanding gives both, and
      never more than one thing outstanding.
     */
    ghost predicate SocketsKept()
      reads this
    {
      && (AlwaysOpensCurrent(start, history) ==> AllGreeted(sockets))
      && (hasGetToken ==> (AllOwnTokens(State()) <==> FetchesInOrder(start.token, history)))
      && (Disciplined(start, history) ==>
            Outstanding(State()) <= 1 && AllGreeted(sockets) && (hasGetToken ==> AllOwnTokens(State())))
    }

    lemma TrafficHolds()
      requires Valid()
      ensures TrafficKept()
    {
      InvRun(start, history);
    }

    lemma SocketsHold()
      requires Valid()
      ensures SocketsKept()
    {
      var config := Config(start.reconnect, start.hasGetToken, start.token);
      assert start == Start(config);
      assert history[..|history|] == history;
      assert Live([]) == {};
      AuthComesFirstAndOnce(config, history);
      if hasGetToken {
        SocketsOwnTheirTokens(config, history);
      }
      if Disciplined(start, history) {
        DisciplineSuffices(config, history);
        AtMostOneOutstanding(start, history);
      }
    }

    /** Records a step the fields have taken. */
    ghost method Record(before: Client, e: Event)
      requires start.hasGetToken == hasGetToken && IsFresh(start) && ValidRun(start, history) && before == Run(start, history)
      requires Enabled(before, e) && State() == Apply(before, e)
      modifies this`history
      ensures history == old(history) + [e] && Valid() && TrafficKept() && SocketsKept()
      ensures Outstanding(State()) <= Outstanding(before) + if e.Connect? then 1 else 0
      ensures e.Connect? ==> Outstanding(State()) == Outstanding(before) + 1
    {
      OutstandingOfStep(start, history, e);
      RunSnoc(start, history, e);
      history := history + [e];
      TrafficHolds();
      SocketsHold();
    }

    constructor (reconnect: bool, hasGetToken: bool, token: Option<Token>, maxMessageBytes: nat)
      ensures Valid() && TrafficKept() && SocketsKept() && history == []
      ensures State() == Fresh(reconnect, hasGetToken, token) && this.maxMessageBytes == maxMessageBytes
    {
      this.reconnect, this.hasGetToken, this.maxMessageBytes, this.token := reconnect, hasGetToken, maxMessageBytes, token;
      ws, heartbeat, reconnectTimer, reconnectAttempt, closedByUser := None, false, None, 0, true;
      subscriptions, order, pendingSends := map[], [], [];
      sockets, attempts, nextAttempt, armed, nextTimer := [], map[], 0, {}, 0;
      accepted, fetched, history := [], map[], [];
      start := Fresh(reconnect, hasGetToken, token);
      new;
      TrafficHolds();
      SocketsHold();
    }

    // -------------------------------------------------------------- sending

    method IsOpen() returns (r: bool)
      ensures r == CanSend(Traffic())
    {
      r := ws.Some? && ws.value < |sockets| && sockets[ws.value].ready.Open?;
    }

    /** `send`, on a socket known to be open. */
    method Send(f: Outgoing)
      requires CanSend(Traffic())
      modifies this`sockets
      ensures Traffic() == SendAll(old(Traffic()), [f])
    {
      var socket := sockets[ws.value];
      sockets := sockets[ws.value := socket.(sent := socket.sent + [f])];
    }

    method SendOrQueue(f: Outgoing)
      modifies this`sockets, this`pendingSends, this`accepted
      ensures Traffic() == Sending(old(Traffic()), [f])
      ensures accepted == old(accepted) + [f] && |sockets| == old(|sockets|)
      ensures if CanSend(old(Traffic()))
              then pendingSends == old(pendingSends) && sockets[ws.value].sent == old(sockets)[ws.value].sent + [f]
              else pendingSends == old(pendingSends) + [f] && sockets == old(sockets)
    {
      accepted := accepted + [f];
      var canSend := IsOpen();
      if canSend {
        Send(f);
      } else {
        pendingSends := pendingSends + [f];
      }
    }

    /** The loop shared by `publish` and `unicast`. */
    method SendEach(op: Opcode, channelId: ChannelId, chunks: seq<JsString>)
      modifies this`sockets, this`pendingSends, this`accepted
      ensures Traffic() == Sending(old(Traffic()), ChunkFrames(op, channelId, chunks))
    {
      ghost var frames := ChunkFrames(op, channelId, chunks);
      SendingNothing(Traffic());
      for i := 0 to |chunks|
        invariant Traffic() == Sending(old(Traffic()), frames[..i])
      {
        SendingTwice(old(Traffic()), frames[..i], [frames[i]]);
        assert frames[..i + 1] == frames[..i] + [frames[i]];
        SendOrQueue(Outgoing(op, channelId, chunks[i]));
      }
      assert frames[..|chunks|] == frames;
    }

    method SendChunks(op: Opcode, channelId: ChannelId, chunks: seq<JsString>)
      requires Valid() && IsData(Outgoing(op, channelId, []))
      modifies this`sockets, this`pendingSends, this`accepted, this`history
      ensures Valid() && TrafficKept() && SocketsKept()
      ensures history == old(history) + [Sent(ChunkFrames(op, channelId, chunks))]
      ensures accepted == old(accepted) + ChunkFrames(op, channelId, chunks)
    {
      SendEach(op, channelId, chunks);
      Record(old(State()), Sent(ChunkFrames(op, channelId, chunks)));
    }

    /** `publish`; a payload over the limit is an exception and nothing is accepted. */
    method Publish(channelId: ChannelId, payload: JsString, msgId: JsString) returns (r: Result<(), ChunkError>)
      requires Valid()
      modifies this`sockets, this`pendingSends, this`accepted, this`history
      ensures Valid() && TrafficKept() && SocketsKept()
      ensures match ChunksOf(payload, maxMessageBytes, msgId)
              case Err(e) => r == Err(e) && State() == old(State()) && history == old(history)
              case Ok(chunks) => r == Ok(()) && accepted == old(accepted) + ChunkFrames(Opcode.Publish, channelId, chunks)
    {
      var chunks := EncodeChunks(payload, maxMessageBytes, msgId);
      if chunks.Err? {
        TrafficHolds();
        SocketsHold();
        return Err(chunks.error);
      }
      SendChunks(Opcode.Publish, channelId, chunks.value);
      r := Ok(());
    }

    method Unicast(userId: ChannelId, payload: JsString, msgId: JsString) returns (r: Result<(), ChunkError>)
      requires Valid()
      modifies this`sockets, this`pendingSends, this`accepted, this`history
      ensures Valid() && TrafficKept() && SocketsKept()
      ensures match ChunksOf(payload, maxMessageBytes, msgId)
              case Err(e) => r == Err(e) && State() == old(State()) && history == old(history)
              case Ok(chunks) => r == Ok(()) && accepted == old(accepted) + ChunkFrames(Opcode.Unicast, userId, chunks)
    {
      var chunks := EncodeChunks(payload, maxMessageBytes, msgId);
      if chunks.Err? {
        TrafficHolds();
        SocketsHold();
        return Err(chunks.error);
      }
      SendChunks(Opcode.Unicast, userId, chunks.value);
      r := Ok(());
    }

    method Replay(channelId: ChannelId, sinceUnixSeconds: nat)
      requires Valid()
      modifies this`sockets, this`pendingSends, this`accepted, this`history
      ensures Valid() && TrafficKept() && SocketsKept()
      ensures exists since: JsString | IsNumeral(since) && (since[0] == '0' as int ==> |since| == 1) ::
                NumeralValue(since) == sinceUnixSeconds && accepted == old(accepted) + [Outgoing(Opcode.Replay, channelId, since)]
    {
      DecimalDenotes(sinceUnixSeconds);
      SendOrQueue(Outgoing(Opcode.Replay, channelId, Decimal(sinceUnixSeconds)));
      Record(old(State()), Sent([Outgoing(Opcode.Replay, channelId, Decimal(sinceUnixSeconds))]));
    }

    method ResubscribeAll()
      requires CanSend(Traffic())
      modifies this`sockets
      ensures CanSend(Traffic()) && Traffic() == SendAll(old(Traffic()), SubscribeFrames(order))
    {
      SendAllNothing(Traffic());
      for i := 0 to |order|
        invariant CanSend(Traffic())
        invariant Traffic() == SendAll(old(Traffic()), SubscribeFrames(order[..i]))
      {
        SendAllTwice(old(Traffic()), SubscribeFrames(order[..i]), [Outgoing(Opcode.Subscribe, order[i], [])]);
        assert order[..i + 1][..i] == order[..i];
        Send(Outgoing(Opcode.Subscribe, order[i], []));
      }
      assert order[..|order|] == order;
    }

    method FlushPendingSends()
      requires CanSend(Traffic())
      modifies this`sockets, this`pendingSends
      ensures CanSend(Traffic()) && Traffic() == SendAll(old(Traffic()), old(pendingSends)).(pendingSends := [])
    {
      var pending := pendingSends;
      pendingSends := [];
      ghost var start := Traffic();
      SendAllNothing(start);
      for i := 0 to |pending|
        invariant CanSend(Traffic())
        invariant Traffic() == SendAll(start, pending[..i])
      {
        SendAllTwice(start, pending[..i], [pending[i]]);
        assert pending[..i + 1] == pending[..i] + [pending[i]];
        Send(pending[i]);
      }
      assert pending[..|pending|] == pending;
    }

    // -------------------------------------------------------------- subscriptions

    method Subscribe(channelId: ChannelId, handler: Handler)
      requires Valid()
      modifies this`subscriptions, this`order, this`sockets, this`history
      ensures Valid() && TrafficKept() && SocketsKept() && history == old(history) + [Subscribed(channelId, handler)]
      ensures subscriptions == old(subscriptions)[channelId := HandlersOf(old(subscriptions), channelId) + {handler}]
      ensures order == if channelId in old(subscriptions) then old(order) else old(order) + [channelId]
      ensures if channelId !in old(subscriptions) && CanSend(old(Traffic()))
              then ToldMore(old(sockets), sockets, ws.value, Outgoing(Opcode.Subscribe, channelId, []))
              else sockets == old(sockets)
    {
      SubscribingParts(Traffic(), channelId, handler);
      AddHandler(channelId, handler);
      Record(old(State()), Subscribed(channelId, handler));
    }

    method AddHandler(channelId: ChannelId, handler: Handler)
      modifies this`subscriptions, this`order, this`sockets
      ensures Traffic() == Subscribing(old(Traffic()), channelId, handler)
    {
      var isNewChannel := channelId !in subscriptions;
      if isNewChannel {
        subscriptions := subscriptions[channelId := {}];
        order := order + [channelId];
      }
      subscriptions := subscriptions[channelId := subscriptions[channelId] + {handler}];
      if isNewChannel {
        assert {} + {handler} == {handler};
        assert subscriptions == old(subscriptions)[channelId := {handler}];
      }
      var canSend := IsOpen();
      if isNewChannel && canSend {
        Send(Outgoing(Opcode.Subscribe, channelId, []));
      }
    }

    /** The function `subscribe` returns; calling it again changes nothing more. */
    method UnsubscribeHandler(channelId: ChannelId, handler: Handler)
      requires Valid()
      modifies this`subscriptions, this`order, this`sockets, this`history
      ensures Valid() && TrafficKept() && SocketsKept() && history == old(history) + [Unsubscribed(channelId, handler)]
      ensures HandlersOf(subscriptions, channelId) == HandlersOf(old(subscriptions), channelId) - {handler}
      ensures subscriptions - {channelId} == old(subscriptions) - {channelId}
      ensures handler !in HandlersOf(old(subscriptions), channelId) ==> Traffic() == old(Traffic())
      ensures if HandlersOf(old(subscriptions), channelId) == {handler} && CanSend(old(Traffic()))
              then ToldMore(old(sockets), sockets, ws.value, Outgoing(Opcode.Unsub, channelId, []))
              else sockets == old(sockets)
    {
      TrafficHolds();
      UnsubscribingHandlers(Traffic(), channelId, handler);
      RemoveHandler(channelId, handler);
      Record(old(State()), Unsubscribed(channelId, handler));
    }

    method RemoveHandler(channelId: ChannelId, handler: Handler)
      modifies this`subscriptions, this`order, this`sockets
      ensures Traffic() == Unsubscribing(old(Traffic()), channelId, handler)
    {
      if channelId !in subscriptions {
        return;
      }
      subscriptions := subscriptions[channelId := subscriptions[channelId] - {handler}];
      if subscriptions[channelId] == {} {
        DropChannel(channelId);
        assert old(subscriptions)[channelId := {}] - {channelId} == old(subscriptions) - {channelId};
      }
    }

    method DropChannel(channelId: ChannelId)
      modifies this`subscriptions, this`order, this`sockets
      ensures var removed := old(Traffic()).(subscriptions := old(subscriptions) - {channelId}, order := Without(old(order), channelId));
              Traffic() == if CanSend(removed) then SendAll(removed, [Outgoing(Opcode.Unsub, channelId, [])]) else removed
    {
      subscriptions := subscriptions - {channelId};
      order := Without(order, channelId);
      var canSend := IsOpen();
      if canSend {
        Send(Outgoing(Opcode.Unsub, channelId, []));
      }
    }

    // -------------------------------------------------------------- connecting

    method Connect()
      requires Valid()
      modifies this`closedByUser, this`attempts, this`nextAttempt, this`history
      ensures Valid() && TrafficKept() && SocketsKept() && history == old(history) + [Event.Connect]
      ensures !closedByUser && Outstanding(State()) == old(Outstanding(State())) + 1
      ensures attempts == old(attempts)[old(nextAttempt) := if hasGetToken then AwaitingToken else AwaitingImpl]
    {
      closedByUser := false;
      OpenSocket();
      Record(old(State()), Event.Connect);
    }

    /** `openSocket` up to its first `await`. */
    method OpenSocket()
      modifies this`attempts, this`nextAttempt
      ensures State() == BeginOpen(old(State()))
    {
      attempts := attempts[nextAttempt := if hasGetToken then AwaitingToken else AwaitingImpl];
      nextAttempt := nextAttempt + 1;
    }

    method Disconnect()
      requires Valid()
      modifies this`closedByUser, this`armed, this`heartbeat, this`sockets, this`ws, this`history
      ensures Valid() && TrafficKept() && SocketsKept() && history == old(history) + [Event.Disconnect]
      ensures closedByUser && ws.None? && !heartbeat && Outstanding(State()) <= old(Outstanding(State()))
      ensures armed == if reconnectTimer.Some? then old(armed) - {reconnectTimer.value} else old(armed)
      ensures |sockets| == old(|sockets|)
      ensures forall i | 0 <= i < |sockets| ::
                sockets[i] == if old(ws) == Some(i) && !old(sockets)[i].ready.Closed? then old(sockets)[i].(ready := Closing) else old(sockets)[i]
    {
      GiveUp();
      Record(old(State()), Event.Disconnect);
    }

    method GiveUp()
      modifies this`closedByUser, this`armed, this`heartbeat, this`sockets, this`ws
      ensures State() == ApplyDisconnect(old(State()))
    {
      closedByUser := true;
      if reconnectTimer.Some? {
        armed := armed - {reconnectTimer.value};
      }
      heartbeat := false;
      CloseCurrent();
    }

    /** `ws?.close()` and `ws = null`. */
    method CloseCurrent()
      modifies this`sockets, this`ws
      ensures Traffic() == Dropping(old(Traffic()))
    {
      if ws.Some? && ws.value < |sockets| && !sockets[ws.value].ready.Closed? {
        sockets := sockets[ws.value := sockets[ws.value].(ready := Closing)];
      }
      ws := None;
    }

    method ScheduleReconnect()
      modifies this`reconnectAttempt, this`armed, this`reconnectTimer, this`nextTimer
      ensures State() == ClientState.ScheduleReconnect(old(State()))
    {
      reconnectAttempt := reconnectAttempt + 1;
      armed := armed + {nextTimer};
      reconnectTimer := Some(nextTimer);
      nextTimer := nextTimer + 1;
    }

    /** `getToken` resolves: the token is stored, and the attempt goes on unless the user has disconnected. */
    method OnTokenResolved(a: nat, fresh': Token)
      requires Valid() && Enabled(State(), TokenResolved(a, fresh'))
      modifies this`token, this`fetched, this`attempts, this`history
      ensures Valid() && TrafficKept() && SocketsKept() && history == old(history) + [TokenResolved(a, fresh')]
      ensures token == Some(fresh') && Outstanding(State()) <= old(Outstanding(State()))
      ensures attempts == if closedByUser then old(attempts) - {a} else old(attempts)[a := AwaitingImpl]
    {
      token := Some(fresh');
      fetched := fetched[a := fresh'];
      if closedByUser {
        attempts := attempts - {a};
      } else {
        attempts := attempts[a := AwaitingImpl];
      }
      Record(old(State()), TokenResolved(a, fresh'));
    }

    /** `getToken` rejects: a timer takes the place of the attempt, unless disconnected or not reconnecting. */
    method OnTokenRejected(a: nat)
      requires Valid() && Enabled(State(), TokenRejected(a))
      modifies this`attempts, this`reconnectAttempt, this`armed, this`reconnectTimer, this`nextTimer, this`history
      ensures Valid() && TrafficKept() && SocketsKept() && history == old(history) + [TokenRejected(a)]
      ensures attempts == old(attempts) - {a} && Outstanding(State()) <= old(Outstanding(State()))
      ensures if !closedByUser && reconnect
              then armed == old(armed) + {old(nextTimer)} && reconnectTimer == Some(old(nextTimer))
                   && reconnectAttempt == old(reconnectAttempt) + 1
              else armed == old(armed) && reconnectTimer == old(reconnectTimer) && reconnectAttempt == old(reconnectAttempt)
    {
      attempts := attempts - {a};
      if !closedByUser && reconnect {
        ScheduleReconnect();
      }
      Record(old(State()), TokenRejected(a));
    }

    /** The WebSocket implementation is there: a socket takes the place of the attempt, unless disconnected or without token. */
    method OnImplResolved(a: nat)
      requires Valid() && Enabled(State(), ImplResolved(a))
      modifies this`attempts, this`sockets, this`ws, this`history
      ensures Valid() && TrafficKept() && SocketsKept() && history == old(history) + [ImplResolved(a)]
      ensures attempts == old(attempts) - {a} && Outstanding(State()) <= old(Outstanding(State()))
      ensures if !closedByUser && token.Some? && token.value != []
              then sockets == old(sockets) + [Socket(Connecting, a, token.value, [])] && ws == Some(|old(sockets)|)
              else sockets == old(sockets) && ws == old(ws)
    {
      ConstructSocket(a);
      Record(old(State()), ImplResolved(a));
    }

    method ConstructSocket(a: nat)
      modifies this`attempts, this`sockets, this`ws
      ensures State() == ApplyImplResolved(old(State()), a)
    {
      attempts := attempts - {a};
      if closedByUser {
        return;
      }
      if token.None? || token.value == [] {
        return;
      }
      ws := Some(|sockets|);
      sockets := sockets + [Socket(Connecting, a, token.value, [])];
    }

    /** There is no WebSocket implementation: the attempt ends. */
    method OnImplRejected(a: nat)
      requires Valid() && Enabled(State(), ImplRejected(a))
      modifies this`attempts, this`history
      ensures Valid() && TrafficKept() && SocketsKept() && history == old(history) + [ImplRejected(a)]
      ensures a !in attempts && Outstanding(State()) <= old(Outstanding(State()))
    {
      attempts := attempts - {a};
      Record(old(State()), ImplRejected(a));
    }

    /** `onopen`: the current socket is greeted, its own AUTH first if it is the one that opened. */
    method OnOpen(s: nat)
      requires Valid() && Enabled(State(), Opened(s))
      modifies this`sockets, this`reconnectAttempt, this`pendingSends, this`heartbeat, this`history
      ensures Valid() && TrafficKept() && SocketsKept() && history == old(history) + [Opened(s)]
      ensures reconnectAttempt == 0 && (CanSend(Traffic()) ==> heartbeat)
      ensures OpensAs(old(Traffic()), s, Traffic())
      ensures ws == Some(s) ==> View({}, sockets[s].sent) == subscriptions.Keys
    {
      InvRun(start, history);
      OpeningSends(Traffic(), s);
      SendGreeting(s);
      Record(old(State()), Opened(s));
    }

    /** The handler's body; it ends at its first `send`, which throws, if the current socket is not open. */
    method SendGreeting(s: nat)
      requires s < |sockets|
      modifies this`sockets, this`reconnectAttempt, this`pendingSends, this`heartbeat
      ensures State() == ApplyOpened(old(State()), s)
    {
      sockets := sockets[s := sockets[s].(ready := Open)];
      reconnectAttempt := 0;
      var canSend := IsOpen();
      if canSend {
        Greet(sockets[s].token);
        heartbeat := true;
      }
    }

    /** AUTH first, then every subscription, then the queue. */
    method Greet(token: Token)
      requires CanSend(Traffic())
      modifies this`sockets, this`pendingSends
      ensures Traffic() == SendAll(old(Traffic()), Greeting(old(Traffic()), token)).(pendingSends := [])
    {
      ghost var auth := [Outgoing(Opcode.Auth, [], token)];
      Send(Outgoing(Opcode.Auth, [], token));
      ResubscribeAll();
      SendAllTwice(old(Traffic()), auth, SubscribeFrames(order));
      SendAllTwice(old(Traffic()), auth + SubscribeFrames(order), pendingSends);
      FlushPendingSends();
    }

    /** `onclose`: at most a timer takes the place of the socket, and none after 4001 without `getToken`. */
    method OnClose(s: nat, code: int)
      requires Valid() && Enabled(State(), SocketClosed(s, code))
      modifies this`heartbeat, this`ws, this`sockets, this`reconnectAttempt, this`armed, this`reconnectTimer, this`nextTimer, this`history
      ensures Valid() && TrafficKept() && SocketsKept() && history == old(history) + [SocketClosed(s, code)]
      ensures ws.None? && !heartbeat && Outstanding(State()) <= old(Outstanding(State()))
      ensures sockets == old(sockets)[s := old(sockets)[s].(ready := Closed)]
      ensures if !closedByUser && reconnect && !(code == 4001 && !hasGetToken)
              then armed == old(armed) + {old(nextTimer)} && reconnectTimer == Some(old(nextTimer)) && old(nextTimer) !in old(armed)
                   && reconnectAttempt == old(reconnectAttempt) + 1
              else armed == old(armed) && reconnectTimer == old(reconnectTimer) && reconnectAttempt == old(reconnectAttempt)
    {
      NumberedRun(start, history);
      HandleClose(s, code);
      Record(old(State()), SocketClosed(s, code));
    }

    /** `onclose`, but for the events it emits. */
    method HandleClose(s: nat, code: int)
      requires s < |sockets|
      modifies this`heartbeat, this`ws, this`sockets, this`reconnectAttempt, this`armed, this`reconnectTimer, this`nextTimer
      ensures State() == ApplyClosed(old(State()), s, code)
    {
      sockets := sockets[s := sockets[s].(ready := Closed)];
      heartbeat := false;
      ws := None;
      if code == WS_CLOSE_CODE_AUTH_FAILED {
        if !hasGetToken {
          return;
        }
      }
      if !closedByUser && reconnect {
        ScheduleReconnect();
      }
    }

    /** The socket leaves the open state ahead of its close event. */
    method OnFalter(s: nat)
      requires Valid() && Enabled(State(), Faltered(s))
      modifies this`sockets, this`history
      ensures Valid() && TrafficKept() && SocketsKept() && history == old(history) + [Faltered(s)]
      ensures Outstanding(State()) <= old(Outstanding(State()))
    {
      sockets := sockets[s := sockets[s].(ready := Closing)];
      Record(old(State()), Faltered(s));
    }

    /** The reconnect timer: an attempt takes its place, unless disconnected. */
    method OnTimer(t: nat)
      requires Valid() && Enabled(State(), TimerFired(t))
      modifies this`armed, this`attempts, this`nextAttempt, this`history
      ensures Valid() && TrafficKept() && SocketsKept() && history == old(history) + [TimerFired(t)]
      ensures armed == old(armed) - {t} && Outstanding(State()) <= old(Outstanding(State()))
      ensures attempts == if closedByUser then old(attempts)
                          else old(attempts)[old(nextAttempt) := if hasGetToken then AwaitingToken else AwaitingImpl]
    {
      armed := armed - {t};
      if !closedByUser {
        OpenSocket();
      }
      Record(old(State()), TimerFired(t));
    }

    method OnHeartbeat()
      requires Valid() && Enabled(State(), HeartbeatTick)
      modifies this`sockets, this`history
      ensures Valid() && TrafficKept() && SocketsKept() && history == old(history) + [HeartbeatTick]
      ensures if CanSend(old(Traffic()))
              then && |sockets| == old(|sockets|)
                   && forall i | 0 <= i < |sockets| ::
                        sockets[i] == if ws == Some(i) then old(sockets)[i].(sent := old(sockets)[i].sent + [Outgoing(Opcode.Ping, [], [])])
                                      else old(sockets)[i]
              else sockets == old(sockets)
    {
      var canSend := IsOpen();
      if canSend {
        Send(Outgoing(Opcode.Ping, [], []));
      }
      Record(old(State()), HeartbeatTick);
    }
  }
}
