/** Routing a received frame to the registered handlers: the exact channel first, then every matching pattern. */
module Dispatch {
  import opened Prelude
  import opened Utf16
  import opened Glob
  import opened Chunking
  import opened Reassembler
  import opened FrameDecoders
  import opened ClientState
  import opened ClientTraffic

  /** One handler invocation, on behalf of the key it is registered under. */
  datatype Call = Call(key: ChannelId, handler: Handler)

  type Subscriptions = map<ChannelId, set<Handler>>

  predicate IsPattern(key: ChannelId)
  {
    STAR in key
  }

  predicate Registered(subs: Subscriptions, call: Call)
  {
    call.key in subs && call.handler in subs[call.key]
  }

  /** How often a registered handler is called: as the exact channel, and again as a matching pattern. */
  function Times(subs: Subscriptions, channelId: ChannelId, call: Call): (n: nat)
  {
    if !Registered(subs, call) then 0
    else (if call.key == channelId then 1 else 0) + PatternTimes(subs, channelId, call)
  }

  function PatternTimes(subs: Subscriptions, channelId: ChannelId, call: Call): (n: nat)
  {
    if Registered(subs, call) && IsPattern(call.key) && GlobMatch(call.key, channelId) then 1 else 0
  }

  /** `handlers.forEach((h) => h(message))`. */
  method CallEach(key: ChannelId, handlers: set<Handler>) returns (called: seq<Call>)
    ensures forall c: Call :: multiset(called)[c] == if c.key == key && c.handler in handlers then 1 else 0
  {
    called := [];
    var rest := handlers;
    while rest != {}
      invariant rest <= handlers
      invariant forall c: Call :: multiset(called)[c] == if c.key == key && c.handler in handlers - rest then 1 else 0
      decreases rest
    {
      var h :| h in rest;
      called := called + [Call(key, h)];
      rest := rest - {h};
    }
  }

  /** The calls `dispatch` makes for a complete message. */
  method Route(subs: Subscriptions, order: seq<ChannelId>, channelId: ChannelId) returns (called: seq<Call>)
    requires Distinct(order) && forall k :: k in order <==> k in subs
    ensures forall c: Call :: multiset(called)[c] == Times(subs, channelId, c)
  {
    called := [];
    if channelId in subs {
      called := CallEach(channelId, subs[channelId]);
    }
    ghost var exact := called;
    for i := 0 to |order|
      invariant forall c: Call ::
        multiset(called)[c] == multiset(exact)[c] + if c.key in order[..i] then PatternTimes(subs, channelId, c) else 0
    {
      assert order[..i + 1] == order[..i] + [order[i]];
      assert order[i] in order && order[i] !in order[..i];
      if IsPattern(order[i]) && GlobMatch(order[i], channelId) {
        var more := CallEach(order[i], subs[order[i]]);
        called := called + more;
      }
    }
    assert order[..|order|] == order;
  }

  lemma {:induction false} SelfMatch(p: seq<int>)
    ensures GlobMatch(p, p)
  {
    if p != [] {
      SelfMatch(p[1..]);
    }
  }

  /** A key without an asterisk matches only itself. */
  lemma PlainKeys(key: ChannelId, channelId: ChannelId)
    requires '*' as int !in key
    ensures GlobMatch(key, channelId) <==> key == channelId
  {
    LiteralMatch(key, channelId);
  }

  /**
    A handler is called exactly if its key, read as a pattern, matches the frame's channel; at most once for every
    handler exactly when the channel is not itself a subscribed key with an asterisk, in which case that key's handlers
    are called twice.
   */
  lemma ExactlyOnce(subs: Subscriptions, channelId: ChannelId)
    requires forall k | k in subs :: subs[k] != {}
    ensures forall c: Call :: Times(subs, channelId, c) > 0 <==> Registered(subs, c) && GlobMatch(c.key, channelId)
    ensures (forall c: Call :: Times(subs, channelId, c) <= 1) <==> !(channelId in subs && '*' as int in channelId)
    ensures forall c: Call :: Times(subs, channelId, c) > 1 <==> Registered(subs, c) && c.key == channelId && '*' as int in channelId
  {
    forall c: Call ensures Times(subs, channelId, c) > 0 <==> Registered(subs, c) && GlobMatch(c.key, channelId) {
      SelfMatch(channelId);
      if !IsPattern(c.key) {
        PlainKeys(c.key, channelId);
      }
    }
    SelfMatch(channelId);
    if channelId in subs && IsPattern(channelId) {
      var h :| h in subs[channelId];
      assert Times(subs, channelId, Call(channelId, h)) == 2;
    }
  }

  /** `dispatch`: chunks go to the reassembler, and handlers hear of a message only once it is complete. */
  method DispatchFrame(r: ChunkReassembler, frame: ScriptDecoded, subs: Subscriptions, order: seq<ChannelId>,
                       number: NumberParser, sweptAt: int, seenAt: int)
    returns (message: Option<JsString>, called: seq<Call>)
    requires Distinct(order) && forall k :: k in order <==> k in subs
    modifies r
    ensures Outcome(r.pending, message) == Receive(old(r.pending), frame.payload, number, sweptAt, seenAt)
    ensures message.None? ==> called == []
    ensures message.Some? ==> forall c: Call :: multiset(called)[c] == Times(subs, frame.channelId, c)
  {
    message := Some(frame.payload);
    called := [];
    var header := ParseChunk(frame.payload, number);
    if header.Some? {
      message := r.Feed(header.value, sweptAt, seenAt);
      if message.None? {
        return;
      }
    }
    called := Route(subs, order, frame.channelId);
  }
}
