/**
  Reassembly of chunked messages. The clock is an input: one reading when stale entries are swept and a later one
  when a new entry is stamped, as in the source.
 */
module Reassembler {
  import opened Prelude
  import opened Utf16
  import opened Chunking

  datatype Entry = Entry(total: nat, parts: map<nat, JsString>, firstSeenAt: int)

  type Pending = map<JsString, Entry>

  const REASSEMBLY_TTL_MS := 30_000

  predicate Stale(e: Entry, now: int)
  {
    now - e.firstSeenAt > REASSEMBLY_TTL_MS
  }

  /** The time limit is thirty seconds. */
  lemma TimeLimit(e: Entry, now: int)
    ensures Stale(e, now) <==> now > e.firstSeenAt + 30_000
    ensures REASSEMBLY_TTL_MS == 30_000
  {
  }

  function Sweep(p: Pending, now: int): (q: Pending)
  {
    map id | id in p && !Stale(p[id], now) :: p[id]
  }

  /** Parts `0..n` in order, a missing one counting as empty. */
  function JoinParts(parts: map<nat, JsString>, n: nat): (s: JsString)
  {
    if n == 0 then [] else JoinParts(parts, n - 1) + if n - 1 in parts then parts[n - 1] else []
  }

  /** The entry a chunk is added to, with the chunk added. */
  function Extended(p: Pending, h: ChunkHeader, seenAt: int): (e: Entry)
  {
    var entry := if h.msgId in p then p[h.msgId] else Entry(h.total, map[], seenAt);
    entry.(parts := entry.parts[h.index := h.data])
  }

  datatype Outcome = Outcome(pending: Pending, result: Option<JsString>)

  function FeedChunk(p: Pending, h: ChunkHeader, sweptAt: int, seenAt: int): (o: Outcome)
  {
    var swept := Sweep(p, sweptAt);
    var entry := Extended(swept, h, seenAt);
    if |entry.parts| < entry.total then Outcome(swept[h.msgId := entry], None)
    else Outcome(swept - {h.msgId}, Some(JoinParts(entry.parts, entry.total)))
  }

  /** The parts below `n` in order, nothing standing for a missing one. */
  lemma {:induction false} JoinMeaning(parts: map<nat, JsString>, n: nat)
    ensures JoinParts(parts, n) == Flatten(seq(n, i requires 0 <= i < n => if i in parts then parts[i] else []))
  {
    var all := seq(n, i requires 0 <= i < n => if i in parts then parts[i] else []);
    if n > 0 {
      var front := seq(n - 1, i requires 0 <= i < n - 1 => if i in parts then parts[i] else []);
      JoinMeaning(parts, n - 1);
      assert all == front + [all[n - 1]];
      FlattenSnoc(front, all[n - 1]);
    }
  }

  /** The entry a chunk meets: the one held for its identifier if that is not older than 30 s, or a new one. */
  function Met(p: Pending, h: ChunkHeader, sweptAt: int, seenAt: int): (e: Entry)
  {
    if h.msgId in p && sweptAt - p[h.msgId].firstSeenAt <= 30_000 then p[h.msgId] else Entry(h.total, map[], seenAt)
  }

  /**
    One chunk, whatever is pending: the entries of other identifiers stay unless older than 30 s; the chunk's own is kept
    with its data added, the first chunk's total deciding, until that many parts are there, and is then joined and gone.
   */
  lemma FeedExactly(p: Pending, h: ChunkHeader, sweptAt: int, seenAt: int)
    ensures var o, e := FeedChunk(p, h, sweptAt, seenAt), Met(p, h, sweptAt, seenAt);
            var parts := e.parts[h.index := h.data];
            && (forall id | id != h.msgId :: id in o.pending <==> id in p && sweptAt - p[id].firstSeenAt <= 30_000)
            && (forall id | id != h.msgId && id in o.pending :: o.pending[id] == p[id])
            && (h.msgId in o.pending <==> |parts| < e.total) && (o.result.None? <==> |parts| < e.total)
            && (h.msgId in o.pending ==> o.pending[h.msgId] == Entry(e.total, parts, e.firstSeenAt))
            && (o.result.Some? ==> o.result.value == JoinParts(parts, e.total))
  {
  }

  /** What `dispatch` makes of a payload: a message for the handlers, if there is one yet, and what stays pending. */
  function Receive(p: Pending, payload: JsString, number: NumberParser, sweptAt: int, seenAt: int): (o: Outcome)
  {
    match ParseChunk(payload, number)
    case None => Outcome(p, Some(payload))
    case Some(h) => FeedChunk(p, h, sweptAt, seenAt)
  }

  /** `ChunkReassembler`. */
  class ChunkReassembler {
    var pending: Pending

    constructor ()
      ensures pending == map[]
    {
      pending := map[];
    }

    method SweepStale(now: int)
      modifies this
      ensures pending == Sweep(old(pending), now)
      ensures forall id :: id in pending <==> id in old(pending) && now - old(pending)[id].firstSeenAt <= 30_000
      ensures forall id | id in pending :: pending[id] == old(pending)[id]
    {
      var ids := pending.Keys;
      while ids != {}
        invariant ids <= old(pending).Keys
        invariant forall id :: id in pending <==> id in old(pending) && (id in ids || !Stale(old(pending)[id], now))
        invariant forall id | id in pending :: pending[id] == old(pending)[id]
        decreases ids
      {
        var id :| id in ids;
        if now - pending[id].firstSeenAt > REASSEMBLY_TTL_MS {
          pending := pending - {id};
        }
        ids := ids - {id};
      }
    }

    method Feed(header: ChunkHeader, sweptAt: int, seenAt: int) returns (result: Option<JsString>)
      modifies this
      ensures pending == FeedChunk(old(pending), header, sweptAt, seenAt).pending
      ensures result == FeedChunk(old(pending), header, sweptAt, seenAt).result
    {
      SweepStale(sweptAt);
      var entry;
      if header.msgId in pending {
        entry := pending[header.msgId];
      } else {
        entry := Entry(header.total, map[], seenAt);
      }
      entry := entry.(parts := entry.parts[header.index := header.data]);
      pending := pending[header.msgId := entry];
      if |entry.parts| < entry.total {
        return None;
      }
      pending := pending - {header.msgId};
      assert pending == Sweep(old(pending), sweptAt) - {header.msgId};
      var out: JsString := [];
      for i := 0 to entry.total
        invariant out == JoinParts(entry.parts, i)
      {
        out := out + if i in entry.parts then entry.parts[i] else [];
      }
      result := Some(out);
    }
  }

  // ---------------------------------------------------------------- runs

  datatype Event = Event(header: ChunkHeader, sweptAt: int, seenAt: int)

  /** The clock never runs backwards. */
  predicate Ordered(events: seq<Event>)
  {
    && (forall i | 0 <= i < |events| :: events[i].sweptAt <= events[i].seenAt)
    && (forall i, j | 0 <= i < j < |events| :: events[i].seenAt <= events[j].sweptAt)
  }

  /** What a fresh reassembler holds after a run. */
  function PendingAfter(events: seq<Event>): (p: Pending)
  {
    if events == [] then map[]
    else
      var last := events[|events| - 1];
      FeedChunk(PendingAfter(events[..|events| - 1]), last.header, last.sweptAt, last.seenAt).pending
  }

  /** What the last `feed` of a run returns. */
  function LastResult(events: seq<Event>): (r: Option<JsString>)
    requires events != []
  {
    var last := events[|events| - 1];
    FeedChunk(PendingAfter(events[..|events| - 1]), last.header, last.sweptAt, last.seenAt).result
  }

  /** The events of one message. */
  function Only(events: seq<Event>, id: JsString): (own: seq<Event>)
  {
    if events == [] then []
    else
      Only(events[..|events| - 1], id) +
      if events[|events| - 1].header.msgId == id then [events[|events| - 1]] else []
  }

  /** Two reassemblers agree on a message, or one holds only a stale entry the other has swept already. */
  predicate Agree(p: Pending, q: Pending, id: JsString, now: int)
  {
    if id in p then id in q && p[id] == q[id]
    else id !in q || Stale(q[id], now)
  }

  /** A chunk of another message is fed to the first of two agreeing reassemblers only. */
  lemma AgreeAside(p: Pending, q: Pending, id: JsString, e: Event, now: int)
    requires Agree(p, q, id, e.sweptAt) && e.header.msgId != id && e.sweptAt <= now
    ensures Agree(FeedChunk(p, e.header, e.sweptAt, e.seenAt).pending, q, id, now)
  {
  }

  /** A chunk of the message is fed to both. */
  lemma AgreeBoth(p: Pending, q: Pending, id: JsString, e: Event, now: int)
    requires Agree(p, q, id, e.sweptAt) && e.header.msgId == id
    ensures Agree(FeedChunk(p, e.header, e.sweptAt, e.seenAt).pending, FeedChunk(q, e.header, e.sweptAt, e.seenAt).pending, id, now)
    ensures FeedChunk(p, e.header, e.sweptAt, e.seenAt).result == FeedChunk(q, e.header, e.sweptAt, e.seenAt).result
  {
    assert Extended(Sweep(p, e.sweptAt), e.header, e.seenAt) == Extended(Sweep(q, e.sweptAt), e.header, e.seenAt);
  }

  lemma {:induction false} AgreeAfter(events: seq<Event>, id: JsString, now: int)
    requires Ordered(events)
    requires events != [] ==> events[|events| - 1].seenAt <= now
    ensures Agree(PendingAfter(events), PendingAfter(Only(events, id)), id, now)
  {
    if events != [] {
      var n := |events| - 1;
      var front, last := events[..n], events[n];
      AgreeAfter(front, id, last.sweptAt);
      if last.header.msgId == id {
        assert Only(events, id) == Only(front, id) + [last];
        assert Only(events, id)[..|Only(events, id)| - 1] == Only(front, id);
        AgreeBoth(PendingAfter(front), PendingAfter(Only(front, id)), id, last, now);
      } else {
        assert Only(events, id) == Only(front, id);
        AgreeAside(PendingAfter(front), PendingAfter(Only(front, id)), id, last, now);
      }
    }
  }

  /**
    Isolation: whatever else is interleaved with a message, and whichever sweeps that triggers, each of its chunks is
    answered as if the message had been fed alone with the same clock readings.
   */
  lemma Isolation(events: seq<Event>)
    requires events != [] && Ordered(events)
    ensures var id := events[|events| - 1].header.msgId;
            Only(events, id) != [] && LastResult(events) == LastResult(Only(events, id))
  {
    var n := |events| - 1;
    var front, last := events[..n], events[n];
    var id := last.header.msgId;
    var own := Only(events, id);
    AgreeAfter(front, id, last.sweptAt);
    assert own == Only(front, id) + [last];
    assert own[..|own| - 1] == Only(front, id) && own[|own| - 1] == last;
    AgreeBoth(PendingAfter(front), PendingAfter(Only(front, id)), id, last, last.sweptAt);
  }

  // ---------------------------------------------------------------- one message, chunks in any order

  /** Every event is a chunk of the message with this identifier and these pieces. */
  predicate OwnChunks(own: seq<Event>, id: JsString, pieces: seq<JsString>)
  {
    forall i | 0 <= i < |own| ::
      && own[i].header.index < |pieces|
      && own[i].header == ChunkHeader(id, own[i].header.index, |pieces|, pieces[own[i].header.index])
  }

  /** All swept within the time limit of the first. */
  predicate InTime(own: seq<Event>)
  {
    forall i | 0 <= i < |own| :: own[i].sweptAt - own[0].seenAt <= REASSEMBLY_TTL_MS
  }

  /** Indices received so far. */
  function Seen(own: seq<Event>): (s: set<nat>)
  {
    set e | e in own :: e.header.index
  }

  predicate Complete(own: seq<Event>, total: nat)
  {
    forall i: nat | i < total :: i in Seen(own)
  }

  /** One more chunk joins the unfinished round, or starts afresh if that round's first chunk is out of time. */
  function Joined(round: seq<Event>, e: Event): (r: seq<Event>)
  {
    if round != [] && e.sweptAt - round[0].seenAt > REASSEMBLY_TTL_MS then [e] else round + [e]
  }

  /** The unfinished round: the chunks since the last completion or expiry. */
  function Round(own: seq<Event>, total: nat): (r: seq<Event>)
  {
    if own == [] then []
    else
      var r := Joined(Round(own[..|own| - 1], total), own[|own| - 1]);
      if Complete(r, total) then [] else r
  }

  /** The last chunk completes its round. */
  predicate Completes(own: seq<Event>, total: nat)
    requires own != []
  {
    Complete(Joined(Round(own[..|own| - 1], total), own[|own| - 1]), total)
  }

  lemma SeenSnoc(own: seq<Event>, e: Event)
    ensures Seen(own + [e]) == Seen(own) + {e.header.index}
  {
  }

  function PartsOf(seen: set<nat>, pieces: seq<JsString>): (m: map<nat, JsString>)
    ensures forall i | i in seen :: i < |pieces| ==> i in m && m[i] == pieces[i]
    ensures (forall i | i in seen :: i < |pieces|) ==> m.Keys == seen
  {
    map i | i in seen && i < |pieces| :: pieces[i]
  }

  /** The entry of an unfinished round. */
  function EntryOf(round: seq<Event>, pieces: seq<JsString>): (e: Entry)
    requires round != []
  {
    Entry(|pieces|, PartsOf(Seen(round), pieces), round[0].seenAt)
  }

  /** What the reassembler holds for the message is the unfinished round. */
  predicate Holds(p: Pending, id: JsString, round: seq<Event>, pieces: seq<JsString>)
  {
    if round == [] then id !in p else id in p && p[id] == EntryOf(round, pieces)
  }

  lemma ExtendRound(p: Pending, round: seq<Event>, e: Event, id: JsString, pieces: seq<JsString>)
    requires Holds(p, id, round, pieces) && e.header.index < |pieces|
    requires e.header == ChunkHeader(id, e.header.index, |pieces|, pieces[e.header.index])
    ensures Extended(Sweep(p, e.sweptAt), e.header, e.seenAt) == EntryOf(Joined(round, e), pieces)
  {
    if round == [] || Stale(EntryOf(round, pieces), e.sweptAt) {
      assert Joined(round, e) == [e] == [] + [e];
      PartsSnoc([], e, pieces);
      assert PartsOf(Seen([]), pieces) == map[];
    } else {
      PartsSnoc(round, e, pieces);
    }
  }

  lemma PartsSnoc(round: seq<Event>, e: Event, pieces: seq<JsString>)
    requires e.header.index < |pieces| && e.header.data == pieces[e.header.index]
    ensures PartsOf(Seen(round + [e]), pieces) == PartsOf(Seen(round), pieces)[e.header.index := e.header.data]
  {
    SeenSnoc(round, e);
  }

  lemma {:induction false} RoundOwn(own: seq<Event>, id: JsString, pieces: seq<JsString>)
    requires OwnChunks(own, id, pieces)
    ensures OwnChunks(Round(own, |pieces|), id, pieces)
    ensures own != [] ==> OwnChunks(Joined(Round(own[..|own| - 1], |pieces|), own[|own| - 1]), id, pieces)
  {
    if own != [] {
      RoundOwn(own[..|own| - 1], id, pieces);
    }
  }

  lemma {:induction false} Held(own: seq<Event>, id: JsString, pieces: seq<JsString>)
    requires OwnChunks(own, id, pieces)
    ensures Holds(PendingAfter(own), id, Round(own, |pieces|), pieces)
  {
    if own != [] {
      var n := |own| - 1;
      Held(own[..n], id, pieces);
      ExtendRound(PendingAfter(own[..n]), Round(own[..n], |pieces|), own[n], id, pieces);
      RoundOwn(own, id, pieces);
      PartsCount(Joined(Round(own[..n], |pieces|), own[n]), pieces);
    }
  }

  /**
    Chunks of one message in any order, repeated at will and at any times: a chunk is answered exactly when it completes
    its round, and then with the whole text.
   */
  lemma Answered(own: seq<Event>, id: JsString, pieces: seq<JsString>)
    requires own != [] && OwnChunks(own, id, pieces)
    ensures LastResult(own) == if Completes(own, |pieces|) then Some(Flatten(pieces)) else None
  {
    var n := |own| - 1;
    var r := Joined(Round(own[..n], |pieces|), own[n]);
    Held(own[..n], id, pieces);
    ExtendRound(PendingAfter(own[..n]), Round(own[..n], |pieces|), own[n], id, pieces);
    RoundOwn(own, id, pieces);
    PartsCount(r, pieces);
    if Complete(r, |pieces|) {
      JoinAll(PartsOf(Seen(r), pieces), pieces, |pieces|);
      assert pieces[..|pieces|] == pieces;
    }
  }

  /** The same in any interleaving with other messages. */
  lemma AnsweredPerRound(events: seq<Event>, id: JsString, pieces: seq<JsString>)
    requires events != [] && Ordered(events) && events[|events| - 1].header.msgId == id
    requires OwnChunks(Only(events, id), id, pieces)
    ensures Only(events, id) != []
    ensures LastResult(events) == if Completes(Only(events, id), |pieces|) then Some(Flatten(pieces)) else None
  {
    Isolation(events);
    Answered(Only(events, id), id, pieces);
  }

  lemma JoinedInTime(front: seq<Event>, last: Event)
    requires InTime(front + [last])
    ensures InTime(front) && Joined(front, last) == front + [last]
  {
    var own := front + [last];
    assert forall i | 0 <= i < |front| :: own[i] == front[i];
    assert own[|front|] == last;
  }

  lemma {:induction false} FirstRound(own: seq<Event>, total: nat)
    requires InTime(own) && !Complete(own, total)
    ensures Round(own, total) == own
  {
    if own != [] {
      var n := |own| - 1;
      assert own == own[..n] + [own[n]];
      SeenSnoc(own[..n], own[n]);
      FirstRound(own[..n], total);
    }
  }

  lemma CompletesSnoc(own: seq<Event>, e: Event, total: nat)
    ensures Completes(own + [e], total) <==> Complete(Joined(Round(own, total), e), total)
  {
    assert (own + [e])[..|own|] == own;
  }

  lemma FirstCompletes(front: seq<Event>, last: Event, total: nat)
    requires InTime(front + [last]) && !Complete(front, total)
    ensures Completes(front + [last], total) <==> Complete(front + [last], total)
  {
    JoinedInTime(front, last);
    FirstRound(front, total);
    CompletesSnoc(front, last, total);
  }

  /** In time and not complete before: nothing until the last missing index, then the whole text. */
  lemma Assembly(own: seq<Event>, id: JsString, pieces: seq<JsString>)
    requires own != [] && OwnChunks(own, id, pieces) && InTime(own) && !Complete(own[..|own| - 1], |pieces|)
    ensures LastResult(own) == if Complete(own, |pieces|) then Some(Flatten(pieces)) else None
  {
    var n := |own| - 1;
    var front, last := own[..n], own[n];
    assert own == front + [last];
    FirstCompletes(front, last, |pieces|);
    Answered(own, id, pieces);
  }

  lemma RoundSnoc(own: seq<Event>, e: Event, total: nat)
    ensures var r := Joined(Round(own, total), e); Round(own + [e], total) == if Complete(r, total) then [] else r
  {
    assert (own + [e])[..|own|] == own;
  }

  lemma SameRoundSnoc(xs: seq<Event>, ys: seq<Event>, e: Event, total: nat)
    requires Round(xs, total) == Round(ys, total)
    ensures Round(xs + [e], total) == Round(ys + [e], total)
  {
    RoundSnoc(xs, e, total);
    RoundSnoc(ys, e, total);
  }

  /** Nothing of `done` is remembered when `more` follows. */
  predicate Restarts(done: seq<Event>, more: seq<Event>, total: nat)
  {
    Round(done + more, total) == Round(more, total)
  }

  lemma RestartSnoc(done: seq<Event>, front: seq<Event>, last: Event, total: nat)
    requires Restarts(done, front, total)
    ensures Restarts(done, front + [last], total)
  {
    SameRoundSnoc(done + front, front, last, total);
    Associate(done, front, [last]);
  }

  lemma RestartEmpty(done: seq<Event>, total: nat)
    requires Round(done, total) == []
    ensures Restarts(done, [], total)
  {
    assert done + [] == done;
  }

  /** After a round is finished, or forgotten, everything starts again. */
  lemma {:induction false} RoundRestarts(done: seq<Event>, more: seq<Event>, total: nat)
    requires Round(done, total) == []
    ensures Restarts(done, more, total)
  {
    if more == [] {
      RestartEmpty(done, total);
    } else {
      var front, last := more[..|more| - 1], more[|more| - 1];
      RoundRestarts(done, front, total);
      RestartSnoc(done, front, last, total);
      assert more == front + [last];
    }
  }

  lemma CompletesAgain(first: seq<Event>, front: seq<Event>, last: Event, total: nat)
    requires Round(first, total) == [] && InTime(front + [last])
    requires !Complete(front, total) && Complete(front + [last], total)
    ensures Completes(first + front + [last], total)
  {
    JoinedInTime(front, last);
    RoundRestarts(first, front, total);
    FirstRound(front, total);
    CompletesSnoc(first + front, last, total);
  }

  /** So after any finished rounds, one more full round of the same message is answered again with the whole text. */
  lemma AnotherRoundIsAnswered(done: seq<Event>, front: seq<Event>, last: Event, id: JsString, pieces: seq<JsString>)
    requires OwnChunks(done, id, pieces) && Round(done, |pieces|) == []
    requires OwnChunks(front + [last], id, pieces) && InTime(front + [last])
    requires !Complete(front, |pieces|) && Complete(front + [last], |pieces|)
    ensures LastResult(done + front + [last]) == Some(Flatten(pieces))
  {
    CompletesAgain(done, front, last, |pieces|);
    assert done + front + [last] == done + (front + [last]);
    OwnAppend(done, front + [last], id, pieces);
    Answered(done + front + [last], id, pieces);
  }

  lemma OwnAppend(xs: seq<Event>, ys: seq<Event>, id: JsString, pieces: seq<JsString>)
    requires OwnChunks(xs, id, pieces) && OwnChunks(ys, id, pieces)
    ensures OwnChunks(xs + ys, id, pieces)
  {
  }

  lemma PartsCount(own: seq<Event>, pieces: seq<JsString>)
    requires forall e | e in own :: e.header.index < |pieces|
    ensures |PartsOf(Seen(own), pieces)| < |pieces| <==> !Complete(own, |pieces|)
  {
    NatsBelow(Seen(own), |pieces|);
    assert |PartsOf(Seen(own), pieces)| == |PartsOf(Seen(own), pieces).Keys|;
  }

  lemma {:induction false} JoinAll(parts: map<nat, JsString>, pieces: seq<JsString>, n: nat)
    requires n <= |pieces| && forall i: nat | i < n :: i in parts && parts[i] == pieces[i]
    ensures JoinParts(parts, n) == Flatten(pieces[..n])
  {
    if n > 0 {
      JoinAll(parts, pieces, n - 1);
      assert pieces[..n] == pieces[..n - 1] + [pieces[n - 1]];
      FlattenSnoc(pieces[..n - 1], pieces[n - 1]);
    }
  }

  /** The same in any interleaving with other messages. */
  lemma Interleaved(events: seq<Event>, id: JsString, pieces: seq<JsString>)
    requires events != [] && Ordered(events) && events[|events| - 1].header.msgId == id
    requires OwnChunks(Only(events, id), id, pieces) && InTime(Only(events, id))
    requires !Complete(Only(events[..|events| - 1], id), |pieces|)
    ensures LastResult(events) == if Complete(Only(events, id), |pieces|) then Some(Flatten(pieces)) else None
  {
    var own := Only(events, id);
    Isolation(events);
    assert own[..|own| - 1] == Only(events[..|events| - 1], id);
    Assembly(own, id, pieces);
  }

  lemma {:induction false} OnlyPrefix(events: seq<Event>, id: JsString, i: nat)
    requires i <= |events|
    ensures Only(events[..i], id) <= Only(events, id)
  {
    if i < |events| {
      assert events[..|events| - 1][..i] == events[..i];
      OnlyPrefix(events[..|events| - 1], id, i);
    } else {
      assert events[..i] == events;
    }
  }

  lemma PrefixKeeps(xs: seq<Event>, ys: seq<Event>, id: JsString, pieces: seq<JsString>)
    requires xs <= ys
    ensures OwnChunks(ys, id, pieces) && InTime(ys) ==> OwnChunks(xs, id, pieces) && InTime(xs)
    ensures Complete(xs, |pieces|) ==> Complete(ys, |pieces|)
  {
    assert forall e | e in xs :: e in ys;
    assert Seen(xs) <= Seen(ys);
  }

  /** Only the chunk that completes a message is answered with it. */
  lemma AnsweredOnce(events: seq<Event>, id: JsString, pieces: seq<JsString>, i: nat)
    requires events != [] && Ordered(events)
    requires OwnChunks(Only(events, id), id, pieces) && InTime(Only(events, id))
    requires !Complete(Only(events[..|events| - 1], id), |pieces|) && Complete(Only(events, id), |pieces|)
    requires i < |events| && events[i].header.msgId == id
    ensures LastResult(events[..i + 1]) == if i == |events| - 1 then Some(Flatten(pieces)) else None
  {
    var n := |events| - 1;
    if i == n {
      assert events[..i + 1] == events;
      Interleaved(events, id, pieces);
    } else {
      assert events[..n][..i + 1] == events[..i + 1];
      PrefixOfIncomplete(events[..n], id, pieces, i + 1);
      UnansweredPrefix(events, id, pieces, i + 1);
    }
  }

  lemma UnansweredPrefix(events: seq<Event>, id: JsString, pieces: seq<JsString>, n: nat)
    requires 0 < n <= |events| && Ordered(events) && events[n - 1].header.msgId == id
    requires OwnChunks(Only(events, id), id, pieces) && InTime(Only(events, id)) && !Complete(Only(events[..n], id), |pieces|)
    ensures LastResult(events[..n]) == None
  {
    OnlyPrefix(events, id, n);
    PrefixKeeps(Only(events[..n], id), Only(events, id), id, pieces);
    Unanswered(events[..n], id, pieces);
  }

  /** While a message is incomplete its chunks are answered with nothing. */
  lemma Unanswered(events: seq<Event>, id: JsString, pieces: seq<JsString>)
    requires events != [] && Ordered(events) && events[|events| - 1].header.msgId == id
    requires OwnChunks(Only(events, id), id, pieces) && InTime(Only(events, id)) && !Complete(Only(events, id), |pieces|)
    ensures LastResult(events) == None
  {
    PrefixOfIncomplete(events, id, pieces, |events| - 1);
    Interleaved(events, id, pieces);
  }

  lemma PrefixOfIncomplete(events: seq<Event>, id: JsString, pieces: seq<JsString>, i: nat)
    requires i <= |events| && !Complete(Only(events, id), |pieces|)
    ensures !Complete(Only(events[..i], id), |pieces|)
  {
    OnlyPrefix(events, id, i);
    PrefixKeeps(Only(events[..i], id), Only(events, id), id, pieces);
  }

  /** Entries are keyed by identifier alone: two messages that share one are mixed. */
  lemma SharedIdentifierMixes(first: Event, second: Event)
    requires first.header.msgId == second.header.msgId && first.header.total == second.header.total == 2
    requires first.header.index == 0 && second.header.index == 1
    requires first.sweptAt <= first.seenAt && second.sweptAt - first.seenAt <= REASSEMBLY_TTL_MS
    ensures LastResult([first, second]) == Some(first.header.data + second.header.data)
  {
    var own, pieces := [first, second], [first.header.data, second.header.data];
    assert own[..1] == [first] && own == [first] + [second];
    SeenSnoc([first], second);
    assert Seen([first]) == {0};
    assert 1 !in Seen(own[..1]);
    assert OwnChunks(own, first.header.msgId, pieces) && InTime(own);
    assert Complete(own, 2);
    Assembly(own, first.header.msgId, pieces);
    FlattenTwo(first.header.data, second.header.data);
  }
}
