/**
  What the TypeScript client's sockets have been told, whatever calls, settlements and socket events come in whatever
  order: an open current socket has been told exactly the current subscriptions, and every accepted frame is sent once,
  in order.
 */
module ClientTraffic {
  import opened Prelude
  import opened Frame
  import opened ClientState

  // ---------------------------------------------------------------- reading the logs

  /** The subscriptions a server holds after these frames. */
  function View(start: set<ChannelId>, frames: seq<Outgoing>): (v: set<ChannelId>)
  {
    if frames == [] then start
    else
      var before, last := View(start, frames[..|frames| - 1]), frames[|frames| - 1];
      if last.opcode == Subscribe then before + {last.channelId}
      else if last.opcode == Unsub then before - {last.channelId}
      else before
  }

  /** The publish, unicast and replay frames among these. */
  function Data(frames: seq<Outgoing>): (ds: seq<Outgoing>)
  {
    if frames == [] then []
    else Data(frames[..|frames| - 1]) + if IsData(frames[|frames| - 1]) then [frames[|frames| - 1]] else []
  }

  /** The data frames sent over all sockets, in order. */
  function DataSent(sockets: seq<Socket>): (ds: seq<Outgoing>)
  {
    if sockets == [] then [] else DataSent(sockets[..|sockets| - 1]) + Data(sockets[|sockets| - 1].sent)
  }

  predicate AllData(frames: seq<Outgoing>)
  {
    forall i | 0 <= i < |frames| :: IsData(frames[i])
  }

  lemma {:induction false} ViewAppend(start: set<ChannelId>, xs: seq<Outgoing>, ys: seq<Outgoing>)
    ensures View(start, xs + ys) == View(View(start, xs), ys)
  {
    if ys == [] {
      assert xs + ys == xs;
    } else {
      assert (xs + ys)[..|xs + ys| - 1] == xs + ys[..|ys| - 1];
      ViewAppend(start, xs, ys[..|ys| - 1]);
    }
  }

  lemma {:induction false} DataAppend(xs: seq<Outgoing>, ys: seq<Outgoing>)
    ensures Data(xs + ys) == Data(xs) + Data(ys)
  {
    if ys == [] {
      assert xs + ys == xs;
    } else {
      assert (xs + ys)[..|xs + ys| - 1] == xs + ys[..|ys| - 1];
      DataAppend(xs, ys[..|ys| - 1]);
    }
  }

  lemma {:induction false} OnlyData(start: set<ChannelId>, frames: seq<Outgoing>)
    requires AllData(frames)
    ensures Data(frames) == frames && View(start, frames) == start
  {
    if frames != [] {
      OnlyData(start, frames[..|frames| - 1]);
      assert IsData(frames[|frames| - 1]);
      assert frames == frames[..|frames| - 1] + [frames[|frames| - 1]];
    }
  }

  lemma {:induction false} OnlySubscribes(start: set<ChannelId>, channels: seq<ChannelId>)
    ensures Data(SubscribeFrames(channels)) == []
    ensures View(start, SubscribeFrames(channels)) == start + (set k | k in channels)
  {
    if channels != [] {
      var front, last := channels[..|channels| - 1], channels[|channels| - 1];
      OnlySubscribes(start, front);
      OneMore(start, SubscribeFrames(front), Outgoing(Subscribe, last, []));
      assert channels == front + [last];
    }
  }

  lemma OneMore(start: set<ChannelId>, frames: seq<Outgoing>, f: Outgoing)
    ensures Data(frames + [f]) == Data(frames) + if IsData(f) then [f] else []
    ensures f.opcode == Subscribe ==> View(start, frames + [f]) == View(start, frames) + {f.channelId}
  {
    assert (frames + [f])[..|frames|] == frames;
  }

  lemma OneFrame(start: set<ChannelId>, f: Outgoing)
    ensures Data([f]) == if IsData(f) then [f] else []
    ensures View(start, [f]) == if f.opcode == Subscribe then start + {f.channelId}
                                else if f.opcode == Unsub then start - {f.channelId} else start
  {
    assert [f][..0] == [];
  }

  // ---------------------------------------------------------------- the invariant

  /** The current socket, if any, is the newest one; a socket that has not opened has been sent nothing. */
  predicate CurrentIsNewest(w: Wire)
  {
    && (w.ws.Some? ==> w.sockets != [] && w.ws.value == |w.sockets| - 1)
    && (forall i | 0 <= i < |w.sockets| :: w.sockets[i].ready.Connecting? ==> w.sockets[i].sent == [])
  }

  predicate Distinct(channels: seq<ChannelId>)
  {
    forall i, j | 0 <= i < j < |channels| :: channels[i] != channels[j]
  }

  /** No key without a handler; `order` lists the keys, each once. */
  ghost predicate SubscriptionsTidy(w: Wire)
  {
    && (forall k | k in w.subscriptions :: w.subscriptions[k] != {})
    && (forall k :: k in w.order <==> k in w.subscriptions)
    && Distinct(w.order)
  }

  /** An open socket has been told exactly the keys of `subscriptions`, and nothing waits in the queue. */
  predicate ServerAgrees(w: Wire)
  {
    CanSend(w) ==> View({}, w.sockets[w.ws.value].sent) == w.subscriptions.Keys && w.pendingSends == []
  }

  /** What was sent, then what is queued, is what was accepted. */
  predicate Conserved(w: Wire)
  {
    AllData(w.pendingSends) && DataSent(w.sockets) + w.pendingSends == w.accepted
  }

  ghost predicate Inv(w: Wire)
  {
    CurrentIsNewest(w) && SubscriptionsTidy(w) && ServerAgrees(w) && Conserved(w)
  }

  // ---------------------------------------------------------------- sending on the current socket

  lemma DataSentLast(sockets: seq<Socket>, last: Socket)
    requires sockets != []
    ensures DataSent(sockets[|sockets| - 1 := last]) == DataSent(sockets[..|sockets| - 1]) + Data(last.sent)
  {
    var n := |sockets| - 1;
    assert sockets[n := last][..n] == sockets[..n];
  }

  lemma SendAllKeeps(w: Wire, frames: seq<Outgoing>)
    requires CurrentIsNewest(w) && CanSend(w)
    ensures var v := SendAll(w, frames);
            && CurrentIsNewest(v) && CanSend(v)
            && DataSent(v.sockets) == DataSent(w.sockets) + Data(frames)
            && View({}, v.sockets[v.ws.value].sent) == View(View({}, w.sockets[w.ws.value].sent), frames)
  {
    var n := w.ws.value;
    var before := w.sockets[n];
    var after := before.(sent := before.sent + frames);
    DataAppend(before.sent, frames);
    ViewAppend({}, before.sent, frames);
    DataSentLast(w.sockets, after);
    assert DataSent(w.sockets) == DataSent(w.sockets[..n]) + Data(before.sent);
    Associate(DataSent(w.sockets[..n]), Data(before.sent), Data(frames));
  }

  // ---------------------------------------------------------------- steps on the wire

  lemma SendOneKeeps(w: Wire, f: Outgoing)
    requires CurrentIsNewest(w) && SubscriptionsTidy(w) && Conserved(w) && CanSend(w)
    requires w.pendingSends == [] && !IsData(f)
    requires View(View({}, w.sockets[w.ws.value].sent), [f]) == w.subscriptions.Keys
    ensures Inv(SendAll(w, [f]))
  {
    SendAllKeeps(w, [f]);
    OneFrame({}, f);
  }

  lemma PingKeeps(w: Wire)
    requires Inv(w) && CanSend(w)
    ensures Inv(SendAll(w, [Outgoing(Ping, [], [])]))
  {
    OneFrame(w.subscriptions.Keys, Outgoing(Ping, [], []));
    SendOneKeeps(w, Outgoing(Ping, [], []));
  }

  lemma SendingKeeps(w: Wire, frames: seq<Outgoing>)
    requires Inv(w) && AllData(frames)
    ensures Inv(Sending(w, frames))
  {
    if CanSend(w) {
      SendingNow(w, frames);
    } else {
      var v := Sending(w, frames);
      assert DataSent(w.sockets) + (w.pendingSends + frames) == DataSent(w.sockets) + w.pendingSends + frames;
      assert Conserved(v);
    }
  }

  lemma SendingNow(w: Wire, frames: seq<Outgoing>)
    requires Inv(w) && AllData(frames) && CanSend(w)
    ensures Inv(Sending(w, frames))
  {
    var taken := w.(accepted := w.accepted + frames);
    OnlyData(w.subscriptions.Keys, frames);
    SendAllKeeps(taken, frames);
    var v := SendAll(taken, frames);
    assert DataSent(w.sockets) + [] == DataSent(w.sockets);
    assert Conserved(v);
    assert ServerAgrees(v);
  }

  lemma SubscribingKeeps(w: Wire, channelId: ChannelId, handler: Handler)
    requires Inv(w)
    ensures Inv(Subscribing(w, channelId, handler))
  {
    if channelId in w.subscriptions {
      assert Subscribing(w, channelId, handler).subscriptions.Keys == w.subscriptions.Keys;
    } else {
      var added := w.(subscriptions := w.subscriptions[channelId := {handler}], order := w.order + [channelId]);
      assert SubscriptionsTidy(added);
      assert added.subscriptions.Keys == w.subscriptions.Keys + {channelId};
      if CanSend(w) {
        OneFrame(w.subscriptions.Keys, Outgoing(Subscribe, channelId, []));
        SendOneKeeps(added, Outgoing(Subscribe, channelId, []));
      }
    }
  }

  lemma {:induction false} WithoutRemoves(channels: seq<ChannelId>, channelId: ChannelId)
    ensures forall k :: k in Without(channels, channelId) <==> k in channels && k != channelId
    ensures Distinct(channels) ==> Distinct(Without(channels, channelId))
  {
    if channels != [] {
      var front := channels[..|channels| - 1];
      WithoutRemoves(front, channelId);
      assert channels == front + [channels[|channels| - 1]];
      if Distinct(channels) {
        assert channels[|channels| - 1] !in front;
      }
    }
  }

  lemma UnsubscribingKeeps(w: Wire, channelId: ChannelId, handler: Handler)
    requires Inv(w)
    ensures Inv(Unsubscribing(w, channelId, handler))
  {
    if channelId in w.subscriptions {
      var handlers := w.subscriptions[channelId] - {handler};
      if handlers != {} {
        assert w.subscriptions[channelId := handlers].Keys == w.subscriptions.Keys;
      } else {
        var removed := w.(subscriptions := w.subscriptions - {channelId}, order := Without(w.order, channelId));
        WithoutRemoves(w.order, channelId);
        assert removed.subscriptions.Keys == w.subscriptions.Keys - {channelId};
        if CanSend(w) {
          OneFrame(w.subscriptions.Keys, Outgoing(Unsub, channelId, []));
          SendOneKeeps(removed, Outgoing(Unsub, channelId, []));
        }
      }
    }
  }

  lemma {:induction false} SameLogs(sockets: seq<Socket>, others: seq<Socket>)
    requires |sockets| == |others| && forall i | 0 <= i < |sockets| :: sockets[i].sent == others[i].sent
    ensures DataSent(sockets) == DataSent(others)
  {
    if sockets != [] {
      SameLogs(sockets[..|sockets| - 1], others[..|others| - 1]);
    }
  }

  /** Any socket closes or starts closing, with or without the client giving up its current one. */
  lemma WithdrawingKeeps(w: Wire, s: nat, ready: Ready, ws: Option<nat>)
    requires Inv(w) && s < |w.sockets| && (ready.Closing? || ready.Closed?) && (ws == None || ws == w.ws)
    ensures Inv(WithReady(w, s, ready).(ws := ws))
  {
    SameLogs(w.sockets, WithReady(w, s, ready).sockets);
  }

  lemma DroppingKeeps(w: Wire)
    requires Inv(w)
    ensures Inv(Dropping(w))
  {
    if w.ws.Some? {
      WithdrawingKeeps(w, w.ws.value, Closing, None);
    }
  }

  lemma ConstructingKeeps(w: Wire, attempt: nat, token: Token)
    requires Inv(w)
    ensures Inv(Constructing(w, attempt, token))
  {
    var v := Constructing(w, attempt, token);
    assert v.sockets[..|w.sockets|] == w.sockets;
    assert Data(v.sockets[|w.sockets|].sent) == [];
  }

  /**
    Any socket opens. The greeting goes to the current socket: if that is the one opening, it has been told nothing
    yet; if it was open already, it is told again what it knows.
   */
  lemma OpeningKeeps(w: Wire, s: nat)
    requires Inv(w) && s < |w.sockets| && w.sockets[s].ready.Connecting?
    ensures Inv(Opening(w, s))
  {
    var nowOpen := WithReady(w, s, Open);
    SameLogs(w.sockets, nowOpen.sockets);
    assert CurrentIsNewest(nowOpen) && SubscriptionsTidy(nowOpen) && Conserved(nowOpen);
    if CanSend(nowOpen) {
      assert w.ws != Some(s) ==> CanSend(w);
      GreetingKeeps(nowOpen, w.sockets[s].token);
    }
  }

  lemma GreetingKeeps(w: Wire, token: Token)
    requires CurrentIsNewest(w) && SubscriptionsTidy(w) && Conserved(w) && CanSend(w)
    requires View({}, w.sockets[w.ws.value].sent) <= w.subscriptions.Keys
    ensures Inv(SendAll(w, Greeting(w, token)).(pendingSends := []))
  {
    GreetingReads(w, View({}, w.sockets[w.ws.value].sent), token);
    SendAllKeeps(w, Greeting(w, token));
    var v := SendAll(w, Greeting(w, token)).(pendingSends := []);
    assert DataSent(v.sockets) + [] == DataSent(v.sockets);
  }

  lemma GreetingReads(w: Wire, start: set<ChannelId>, token: Token)
    requires AllData(w.pendingSends) && SubscriptionsTidy(w) && start <= w.subscriptions.Keys
    ensures Data(Greeting(w, token)) == w.pendingSends
    ensures View(start, Greeting(w, token)) == w.subscriptions.Keys
  {
    var auth, subs := [Outgoing(Auth, [], token)], SubscribeFrames(w.order);
    OneFrame(start, auth[0]);
    OnlySubscribes(start, w.order);
    OrderIsKeys(w);
    assert w.subscriptions.Keys == start + w.subscriptions.Keys;
    OnlyData(w.subscriptions.Keys, w.pendingSends);
    ThreeParts(start, auth, subs, w.pendingSends);
  }

  lemma OrderIsKeys(w: Wire)
    requires SubscriptionsTidy(w)
    ensures (set k | k in w.order) == w.subscriptions.Keys
  {
  }

  lemma ThreeParts(start: set<ChannelId>, xs: seq<Outgoing>, ys: seq<Outgoing>, zs: seq<Outgoing>)
    ensures Data(xs + ys + zs) == Data(xs) + Data(ys) + Data(zs)
    ensures View(start, xs + ys + zs) == View(View(View(start, xs), ys), zs)
  {
    DataAppend(xs, ys);
    DataAppend(xs + ys, zs);
    ViewAppend(start, xs, ys);
    ViewAppend(start, xs + ys, zs);
  }
}
