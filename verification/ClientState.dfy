/**
  The TypeScript client as a state machine: its fields, the sockets, opening attempts and timers it has outstanding,
  and one step per public call, promise settlement, socket event or timer.

  A step runs to completion before the next one starts, as JavaScript guarantees for synchronous code; every `await`
  of `openSocket` is the end of one step and the start of another.
 */
module ClientState {
  import opened Prelude
  import opened Utf16
  import opened Frame

  type ChannelId = JsString
  type Token = JsString

  /** Identity of a message handler function. */
  type Handler = nat

  /** The arguments of `send`, before encoding. */
  datatype Outgoing = Outgoing(opcode: Opcode, channelId: ChannelId, payload: JsString)

  /** `readyState`. */
  datatype Ready = Connecting | Open | Closing | Closed

  /** A constructed socket: its state, the attempt that made it, the token its `onopen` sends, and what it has sent. */
  datatype Socket = Socket(ready: Ready, attempt: nat, token: Token, sent: seq<Outgoing>)

  /** Where a call of `openSocket` is suspended. */
  datatype Attempt = AwaitingToken | AwaitingImpl

  /** The part of the client that concerns traffic: the current socket, all sockets, subscriptions and the send queue. */
  datatype Wire = Wire(
    ws: Option<nat>,
    sockets: seq<Socket>,
    subscriptions: map<ChannelId, set<Handler>>,
    order: seq<ChannelId>,          // insertion order of `subscriptions`
    pendingSends: seq<Outgoing>,
    accepted: seq<Outgoing>)        // history: every frame `sendOrQueue` was given

  datatype Client = Client(
    // configuration
    reconnect: bool,
    hasGetToken: bool,
    // fields
    token: Option<Token>,
    closedByUser: bool,
    heartbeat: bool,
    reconnectTimer: Option<nat>,
    reconnectAttempt: nat,
    wire: Wire,
    // opening attempts and timers outstanding
    attempts: map<nat, Attempt>,
    nextAttempt: nat,
    armed: set<nat>,
    nextTimer: nat,
    fetched: map<nat, Token>)       // history: the token each attempt fetched

  datatype Event =
    | Connect
    | Disconnect
    | TokenResolved(attempt: nat, token: Token)
    | TokenRejected(attempt: nat)
    | ImplResolved(attempt: nat)
    | ImplRejected(attempt: nat)
    | Opened(socket: nat)
    | Faltered(socket: nat)
    | SocketClosed(socket: nat, code: int)
    | TimerFired(timer: nat)
    | HeartbeatTick
    | Subscribed(channelId: ChannelId, handler: Handler)
    | Unsubscribed(channelId: ChannelId, handler: Handler)
    | Sent(frames: seq<Outgoing>)

  const WS_CLOSE_CODE_AUTH_FAILED := 4001

  /** A freshly constructed client. */
  function Fresh(reconnect: bool, hasGetToken: bool, token: Option<Token>): (c: Client)
  {
    Client(reconnect, hasGetToken, token, true, false, None, 0, Wire(None, [], map[], [], [], []), map[], 0, {}, 0, map[])
  }

  /** `publish`, `unicast` and `replay` go through `sendOrQueue`. */
  predicate IsData(f: Outgoing)
  {
    f.opcode == Publish || f.opcode == Unicast || f.opcode == Replay
  }

  /** Which steps can happen. */
  predicate Enabled(c: Client, e: Event)
  {
    match e
    case TokenResolved(a, _) => a in c.attempts && c.attempts[a].AwaitingToken?
    case TokenRejected(a) => a in c.attempts && c.attempts[a].AwaitingToken?
    case ImplResolved(a) => a in c.attempts && c.attempts[a].AwaitingImpl?
    case ImplRejected(a) => a in c.attempts && c.attempts[a].AwaitingImpl?
    case Opened(s) => s < |c.wire.sockets| && c.wire.sockets[s].ready.Connecting?
    case Faltered(s) => s < |c.wire.sockets| && c.wire.sockets[s].ready.Open?
    case SocketClosed(s, _) => s < |c.wire.sockets| && !c.wire.sockets[s].ready.Closed?
    case TimerFired(t) => t in c.armed
    case HeartbeatTick => c.heartbeat
    case Sent(frames) => forall f | f in frames :: IsData(f)
    case _ => true
  }

  // ---------------------------------------------------------------- traffic

  /** `this.ws?.readyState === WS_OPEN`. */
  predicate CanSend(w: Wire)
  {
    w.ws.Some? && w.ws.value < |w.sockets| && w.sockets[w.ws.value].ready.Open?
  }

  function WithReady(w: Wire, s: nat, ready: Ready): (v: Wire)
    requires s < |w.sockets|
  {
    w.(sockets := w.sockets[s := w.sockets[s].(ready := ready)])
  }

  function SendAll(w: Wire, frames: seq<Outgoing>): (v: Wire)
    requires CanSend(w)
  {
    var socket := w.sockets[w.ws.value];
    w.(sockets := w.sockets[w.ws.value := socket.(sent := socket.sent + frames)])
  }

  function SubscribeFrames(channels: seq<ChannelId>): (frames: seq<Outgoing>)
  {
    if channels == [] then []
    else SubscribeFrames(channels[..|channels| - 1]) + [Outgoing(Subscribe, channels[|channels| - 1], [])]
  }

  function Subscribing(w: Wire, channelId: ChannelId, handler: Handler): (v: Wire)
  {
    if channelId in w.subscriptions then
      w.(subscriptions := w.subscriptions[channelId := w.subscriptions[channelId] + {handler}])
    else
      var added := w.(subscriptions := w.subscriptions[channelId := {handler}], order := w.order + [channelId]);
      if CanSend(w) then SendAll(added, [Outgoing(Subscribe, channelId, [])]) else added
  }

  function Without(channels: seq<ChannelId>, channelId: ChannelId): (rest: seq<ChannelId>)
  {
    if channels == [] then []
    else
      Without(channels[..|channels| - 1], channelId) +
      if channels[|channels| - 1] == channelId then [] else [channels[|channels| - 1]]
  }

  function Unsubscribing(w: Wire, channelId: ChannelId, handler: Handler): (v: Wire)
  {
    if channelId !in w.subscriptions then w
    else
      var handlers := w.subscriptions[channelId] - {handler};
      if handlers != {} then w.(subscriptions := w.subscriptions[channelId := handlers])
      else
        var removed := w.(subscriptions := w.subscriptions - {channelId}, order := Without(w.order, channelId));
        if CanSend(w) then SendAll(removed, [Outgoing(Unsub, channelId, [])]) else removed
  }

  /** `sendOrQueue` for each frame of one call. */
  function Sending(w: Wire, frames: seq<Outgoing>): (v: Wire)
  {
    var taken := w.(accepted := w.accepted + frames);
    if CanSend(w) then SendAll(taken, frames) else taken.(pendingSends := w.pendingSends + frames)
  }

  /** `new Impl(url)`, which becomes the current socket. */
  function Constructing(w: Wire, attempt: nat, token: Token): (v: Wire)
  {
    w.(sockets := w.sockets + [Socket(Connecting, attempt, token, [])], ws := Some(|w.sockets|))
  }

  /** The frames `onopen` sends: AUTH, every subscription, every queued frame. */
  function Greeting(w: Wire, token: Token): (frames: seq<Outgoing>)
  {
    [Outgoing(Auth, [], token)] + SubscribeFrames(w.order) + w.pendingSends
  }

  /** `onopen`; `send` throws, and the handler ends, if the client's current socket is not open. */
  function Opening(w: Wire, s: nat): (v: Wire)
    requires s < |w.sockets|
  {
    var nowOpen := WithReady(w, s, Open);
    if CanSend(nowOpen) then SendAll(nowOpen, Greeting(w, w.sockets[s].token)).(pendingSends := []) else nowOpen
  }

  /** `ws?.close()`; `ws = null`: a socket not yet closed starts closing, its close event still to come. */
  function Dropping(w: Wire): (v: Wire)
  {
    if w.ws.Some? && w.ws.value < |w.sockets| && !w.sockets[w.ws.value].ready.Closed?
    then WithReady(w, w.ws.value, Closing).(ws := None)
    else w.(ws := None)
  }

  // ---------------------------------------------------------------- steps

  /** `openSocket` up to its first `await`. */
  function BeginOpen(c: Client): (d: Client)
  {
    c.(attempts := c.attempts[c.nextAttempt := if c.hasGetToken then AwaitingToken else AwaitingImpl],
       nextAttempt := c.nextAttempt + 1)
  }

  function ScheduleReconnect(c: Client): (d: Client)
  {
    c.(reconnectAttempt := c.reconnectAttempt + 1,
       armed := c.armed + {c.nextTimer},
       reconnectTimer := Some(c.nextTimer),
       nextTimer := c.nextTimer + 1)
  }

  function MaybeReconnect(c: Client): (d: Client)
  {
    if !c.closedByUser && c.reconnect then ScheduleReconnect(c) else c
  }

  function ApplyDisconnect(c: Client): (d: Client)
  {
    c.(closedByUser := true,
       armed := if c.reconnectTimer.Some? then c.armed - {c.reconnectTimer.value} else c.armed,
       heartbeat := false,
       wire := Dropping(c.wire))
  }

  /** The token arrives: stored in the configuration, and the attempt goes on unless the user has disconnected. */
  function ApplyTokenResolved(c: Client, a: nat, token: Token): (d: Client)
  {
    c.(token := Some(token),
       fetched := c.fetched[a := token],
       attempts := if c.closedByUser then c.attempts - {a} else c.attempts[a := AwaitingImpl])
  }

  /** The WebSocket implementation arrives: the socket is constructed unless disconnected or without a token. */
  function ApplyImplResolved(c: Client, a: nat): (d: Client)
  {
    if c.closedByUser || c.token.None? || c.token.value == [] then c.(attempts := c.attempts - {a})
    else c.(attempts := c.attempts - {a}, wire := Constructing(c.wire, a, c.token.value))
  }

  /** `onopen`. */
  function ApplyOpened(c: Client, s: nat): (d: Client)
    requires s < |c.wire.sockets|
  {
    c.(reconnectAttempt := 0,
       wire := Opening(c.wire, s),
       heartbeat := c.heartbeat || CanSend(WithReady(c.wire, s, Open)))
  }

  /** `onclose`. */
  function ApplyClosed(c: Client, s: nat, code: int): (d: Client)
    requires s < |c.wire.sockets|
  {
    var closed := c.(heartbeat := false, wire := WithReady(c.wire, s, Closed).(ws := None));
    if code == WS_CLOSE_CODE_AUTH_FAILED && !c.hasGetToken then closed else MaybeReconnect(closed)
  }

  function Apply(c: Client, e: Event): (d: Client)
    requires Enabled(c, e)
  {
    match e
    case Connect => BeginOpen(c.(closedByUser := false))
    case Disconnect => ApplyDisconnect(c)
    case TokenResolved(a, token) => ApplyTokenResolved(c, a, token)
    case TokenRejected(a) => MaybeReconnect(c.(attempts := c.attempts - {a}))
    case ImplResolved(a) => ApplyImplResolved(c, a)
    case ImplRejected(a) => c.(attempts := c.attempts - {a})
    case Opened(s) => ApplyOpened(c, s)
    case Faltered(s) => c.(wire := WithReady(c.wire, s, Closing))
    case SocketClosed(s, code) => ApplyClosed(c, s, code)
    case TimerFired(t) =>
      if c.closedByUser then c.(armed := c.armed - {t}) else BeginOpen(c.(armed := c.armed - {t}))
    case HeartbeatTick => if CanSend(c.wire) then c.(wire := SendAll(c.wire, [Outgoing(Ping, [], [])])) else c
    case Subscribed(channelId, handler) => c.(wire := Subscribing(c.wire, channelId, handler))
    case Unsubscribed(channelId, handler) => c.(wire := Unsubscribing(c.wire, channelId, handler))
    case Sent(frames) => c.(wire := Sending(c.wire, frames))
  }

  // ---------------------------------------------------------------- runs

  predicate ValidRun(c: Client, events: seq<Event>)
  {
    events == [] ||
    (ValidRun(c, events[..|events| - 1]) && Enabled(Run(c, events[..|events| - 1]), events[|events| - 1]))
  }

  /** The state after a run; steps that cannot happen are not taken. */
  function Run(c: Client, events: seq<Event>): (d: Client)
  {
    if events == [] then c
    else
      var before := Run(c, events[..|events| - 1]);
      if Enabled(before, events[|events| - 1]) then Apply(before, events[|events| - 1]) else before
  }

  lemma RunSnoc(c: Client, events: seq<Event>, e: Event)
    requires ValidRun(c, events) && Enabled(Run(c, events), e)
    ensures ValidRun(c, events + [e]) && Run(c, events + [e]) == Apply(Run(c, events), e)
  {
    assert (events + [e])[..|events|] == events;
  }

  /** A run goes on by one step, from a state already known. */
  lemma Extend(c: Client, events: seq<Event>, d: Client, e: Event) returns (more: seq<Event>, after: Client)
    requires ValidRun(c, events) && Run(c, events) == d && Enabled(d, e)
    ensures more == events + [e] && after == Apply(d, e)
    ensures ValidRun(c, more) && Run(c, more) == after
  {
    RunSnoc(c, events, e);
    more, after := events + [e], Apply(d, e);
  }

  lemma {:induction false} PrefixRun(c: Client, events: seq<Event>, i: nat)
    requires ValidRun(c, events) && i <= |events|
    ensures ValidRun(c, events[..i])
    decreases |events|
  {
    if i < |events| {
      assert events[..|events| - 1][..i] == events[..i];
      PrefixRun(c, events[..|events| - 1], i);
    } else {
      assert events[..i] == events;
    }
  }

  /** The `i`th step of a run. */
  lemma StepAt(c: Client, events: seq<Event>, i: nat)
    requires ValidRun(c, events) && i < |events|
    ensures ValidRun(c, events[..i]) && Enabled(Run(c, events[..i]), events[i])
    ensures Run(c, events[..i + 1]) == Apply(Run(c, events[..i]), events[i])
  {
    PrefixRun(c, events, i);
    PrefixRun(c, events, i + 1);
    assert events[..i + 1][..i] == events[..i];
  }

  // ---------------------------------------------------------------- what is outstanding

  /** Sockets whose close event has not been delivered. */
  function Live(sockets: seq<Socket>): (s: set<nat>)
  {
    set i: nat | i < |sockets| && !sockets[i].ready.Closed?
  }

  /** Sockets not yet closed, opening attempts in flight and reconnect timers armed. */
  function Outstanding(c: Client): (n: nat)
  {
    |c.attempts| + |c.armed| + |Live(c.wire.sockets)|
  }

  /** `connect()` is called only when nothing is outstanding. */
  predicate Disciplined(c: Client, events: seq<Event>)
  {
    forall i | 0 <= i < |events| && events[i].Connect? :: Outstanding(Run(c, events[..i])) == 0
  }
}
