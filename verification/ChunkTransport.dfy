/**
  A message from one TypeScript client to another: split into chunks, encoded into frames, decoded, parsed and
  reassembled, in any order and interleaved with anything else.
 */
module ChunkTransport {
  import opened Prelude
  import opened Utf8
  import opened Utf16
  import opened TextField
  import opened FieldReading
  import opened Frame
  import opened FrameEncoders
  import opened FrameDecoders
  import opened Uuid
  import opened Chunking
  import opened Reassembler

  /** A piece as the receiver sees it: unpaired surrogates replaced, cut at the first NUL. */
  function Delivered(piece: JsString): (s: JsString)
  {
    FromScalars(CutAtNul(ToScalars(piece)))
  }

  function DeliveredPieces(pieces: seq<JsString>): (ds: seq<JsString>)
    ensures |ds| == |pieces|
  {
    seq(|pieces|, i requires 0 <= i < |pieces| => Delivered(pieces[i]))
  }

  /** The chunk header a receiver reads out of a frame, if it is one. */
  function ReceivedHeader(frame: seq<Byte>, number: NumberParser): (h: Option<ChunkHeader>)
  {
    match ScriptDecode(frame)
    case Err(_) => None
    case Ok(f) => ParseChunk(f.payload, number)
  }

  // ---------------------------------------------------------------- one chunk through one frame

  lemma {:induction false} FromScalarsAppend(xs: Text, ys: Text)
    ensures FromScalars(xs + ys) == FromScalars(xs) + FromScalars(ys)
  {
    if xs == [] {
      assert xs + ys == ys;
    } else {
      assert (xs + ys)[1..] == xs[1..] + ys;
      FromScalarsAppend(xs[1..], ys);
    }
  }

  lemma ChunkThroughFrame(op: Opcode, tenantId: JsString, channelId: JsString, msgId: JsString, index: nat, total: nat,
                          piece: JsString, number: NumberParser)
    requires IsUuid(tenantId) && IsMsgId(msgId) && index < total <= MAX_CHUNKS && ReadsDecimals(number)
    requires ByteLength(piece) <= DATA_BUDGET_PER_CHUNK
    ensures var frame := ScriptFrame(op, tenantId, channelId, Header(msgId, index, total) + piece);
            frame.Ok? && ReceivedHeader(frame.value, number) == Some(ChunkHeader(msgId, index, total, Delivered(piece)))
  {
    var h := Header(msgId, index, total);
    HeaderIsAscii(msgId, index, total);
    ChunkScalars(msgId, index, total, piece);
    ScriptRoundTrip(op, tenantId, channelId, h + piece);
    FitAll(h + ToScalars(piece), LEN_PAYLOAD);
    CutSkips(h, ToScalars(piece));
    AsciiScalars(h);
    ToFromAscii(h);
    FromScalarsAppend(h, CutAtNul(ToScalars(piece)));
    ParseOfChunk(msgId, index, total, Delivered(piece), number);
  }

  lemma ToFromAscii(h: JsString)
    requires Ascii(h)
    ensures FromScalars(h) == h && 0 !in h
  {
    AsciiScalars(h);
    SurrogateFreeIsWellFormed(h);
    SanitizeKeepsLength(h);
  }

  // ---------------------------------------------------------------- the whole message

  /** A call of `publish` or `unicast`: the payload, its limit, the identifier drawn, and the frame's other fields. */
  datatype Sending = Sending(text: JsString, limit: nat, msgId: JsString, op: Opcode, tenantId: JsString, channelId: JsString)

  /** The call is accepted and its payload does not fit one frame. */
  predicate IsChunked(m: Sending)
  {
    && IsUuid(m.tenantId) && IsMsgId(m.msgId)
    && ByteLength(m.text) > LEN_PAYLOAD && ChunksOf(m.text, m.limit, m.msgId).Ok?
  }

  function Pieces(m: Sending): (ps: seq<JsString>)
  {
    Split(m.text, DATA_BUDGET_PER_CHUNK)
  }

  /** The frames sent, one per chunk. */
  function FramesOf(m: Sending): (fs: seq<seq<Byte>>)
    requires IsChunked(m)
    ensures |fs| == |Pieces(m)|
  {
    var chunks := ChunksOf(m.text, m.limit, m.msgId).value;
    seq(|chunks|, i requires 0 <= i < |chunks| => ScriptFrame(m.op, m.tenantId, m.channelId, chunks[i]).value)
  }

  lemma FrameOfPiece(m: Sending, number: NumberParser, k: nat)
    requires IsChunked(m) && ReadsDecimals(number) && k < |Pieces(m)|
    ensures ReceivedHeader(FramesOf(m)[k], number)
            == Some(ChunkHeader(m.msgId, k, |Pieces(m)|, Delivered(Pieces(m)[k])))
  {
    PiecesAreTight(m.text, DATA_BUDGET_PER_CHUNK, k);
    ChunkThroughFrame(m.op, m.tenantId, m.channelId, m.msgId, k, |Pieces(m)|, Pieces(m)[k], number);
  }

  /** The receiver read this header out of one of the frames. */
  predicate ReadFrom(h: ChunkHeader, frames: seq<seq<Byte>>, number: NumberParser)
  {
    exists k | 0 <= k < |frames| :: ReceivedHeader(frames[k], number) == Some(h)
  }

  /** Every event of the message stems from one of its frames. */
  predicate Arrived(own: seq<Event>, m: Sending, number: NumberParser)
    requires IsChunked(m)
  {
    forall i | 0 <= i < |own| :: ReadFrom(own[i].header, FramesOf(m), number)
  }

  lemma ArrivedIsChunk(h: ChunkHeader, m: Sending, number: NumberParser)
    requires IsChunked(m) && ReadsDecimals(number) && ReadFrom(h, FramesOf(m), number)
    ensures h.index < |Pieces(m)|
    ensures h == ChunkHeader(m.msgId, h.index, |Pieces(m)|, Delivered(Pieces(m)[h.index]))
  {
    var k :| 0 <= k < |FramesOf(m)| && ReceivedHeader(FramesOf(m)[k], number) == Some(h);
    FrameOfPiece(m, number, k);
  }

  lemma ArrivedAreChunks(own: seq<Event>, m: Sending, number: NumberParser)
    requires IsChunked(m) && ReadsDecimals(number) && Arrived(own, m, number)
    ensures OwnChunks(own, m.msgId, DeliveredPieces(Pieces(m)))
  {
    forall i | 0 <= i < |own|
      ensures own[i].header.index < |Pieces(m)|
      ensures own[i].header == ChunkHeader(m.msgId, own[i].header.index, |Pieces(m)|, Delivered(Pieces(m)[own[i].header.index]))
    {
      ArrivedIsChunk(own[i].header, m, number);
    }
  }

  /**
    End to end, at any times: in any run of the receiver's reassembler, each chunk of a message is answered exactly when
    it completes a round of the message's chunks, and then with the delivered pieces in order.
   */
  lemma EveryRoundAnswered(m: Sending, number: NumberParser, events: seq<Event>)
    requires IsChunked(m) && ReadsDecimals(number)
    requires events != [] && Ordered(events) && events[|events| - 1].header.msgId == m.msgId
    requires Arrived(Only(events, m.msgId), m, number)
    ensures Only(events, m.msgId) != []
    ensures LastResult(events)
            == if Completes(Only(events, m.msgId), |FramesOf(m)|) then Some(Flatten(DeliveredPieces(Pieces(m)))) else None
  {
    ArrivedAreChunks(Only(events, m.msgId), m, number);
    AnsweredPerRound(events, m.msgId, DeliveredPieces(Pieces(m)));
  }

  /**
    End to end: in any run of the receiver's reassembler, each chunk of a message not yet complete is answered with
    nothing until its last missing index, and then with the delivered pieces in order.
   */
  lemma EndToEnd(m: Sending, number: NumberParser, events: seq<Event>)
    requires IsChunked(m) && ReadsDecimals(number)
    requires events != [] && Ordered(events) && events[|events| - 1].header.msgId == m.msgId
    requires Arrived(Only(events, m.msgId), m, number) && InTime(Only(events, m.msgId))
    requires !Complete(Only(events[..|events| - 1], m.msgId), |FramesOf(m)|)
    ensures LastResult(events)
            == if Complete(Only(events, m.msgId), |FramesOf(m)|)
               then Some(Flatten(DeliveredPieces(Pieces(m)))) else None
  {
    ArrivedAreChunks(Only(events, m.msgId), m, number);
    Interleaved(events, m.msgId, DeliveredPieces(Pieces(m)));
  }

  /** No chunk before the one that completes the message is answered with anything, and that one with the message. */
  lemma DeliveredExactlyOnce(m: Sending, number: NumberParser, events: seq<Event>, i: nat)
    requires IsChunked(m) && ReadsDecimals(number) && events != [] && Ordered(events)
    requires Arrived(Only(events, m.msgId), m, number) && InTime(Only(events, m.msgId))
    requires !Complete(Only(events[..|events| - 1], m.msgId), |FramesOf(m)|)
    requires Complete(Only(events, m.msgId), |FramesOf(m)|)
    requires i < |events| && events[i].header.msgId == m.msgId
    ensures LastResult(events[..i + 1])
            == if i == |events| - 1 then Some(Flatten(DeliveredPieces(Pieces(m)))) else None
  {
    ArrivedAreChunks(Only(events, m.msgId), m, number);
    AnsweredOnce(events, m.msgId, DeliveredPieces(Pieces(m)), i);
  }

  // ---------------------------------------------------------------- when the delivered text is the text sent

  lemma {:induction false} NulScalars(s: JsString)
    ensures 0 in ToScalars(s) <==> 0 in s
    decreases |s|
  {
    if s != [] {
      if StartsWithPair(s) {
        NulScalars(s[2..]);
        assert s == [s[0], s[1]] + s[2..];
      } else {
        NulScalars(s[1..]);
        assert s == [s[0]] + s[1..];
      }
    }
  }

  /** A delivered piece is never longer than the piece, and is the piece exactly when it is well-formed and NUL-free. */
  lemma DeliveredIntact(piece: JsString)
    ensures |Delivered(piece)| <= |piece|
    ensures Delivered(piece) == piece <==> WellFormed(piece) && 0 !in piece
  {
    var t := ToScalars(piece);
    SanitizeKeepsLength(piece);
    NulScalars(piece);
    if 0 in t {
      CutShortens(t);
    } else {
      NulFree(t);
    }
  }

  lemma CutShortens(t: Text)
    requires 0 in t
    ensures |FromScalars(CutAtNul(t))| < |FromScalars(t)|
  {
    var c := CutAtNul(t);
    var rest := t[|c|..];
    assert t == c + rest && rest != [];
    FromScalarsAppend(c, rest);
  }

  lemma {:induction false} FlattenShrinks(ds: seq<JsString>, ps: seq<JsString>)
    requires |ds| == |ps| && forall i | 0 <= i < |ds| :: |ds[i]| <= |ps[i]|
    ensures |Flatten(ds)| <= |Flatten(ps)|
    ensures Flatten(ds) == Flatten(ps) <==> ds == ps
  {
    if ds != [] {
      FlattenShrinks(ds[1..], ps[1..]);
      if Flatten(ds) == Flatten(ps) {
        assert |ds[0]| == |ps[0]|;
        assert Flatten(ds)[..|ds[0]|] == ds[0] && Flatten(ps)[..|ps[0]|] == ps[0];
        assert Flatten(ds)[|ds[0]|..] == Flatten(ds[1..]) && Flatten(ps)[|ps[0]|..] == Flatten(ps[1..]);
        assert ds == [ds[0]] + ds[1..] && ps == [ps[0]] + ps[1..];
      }
    }
  }

  lemma {:induction false} NulInPieces(pieces: seq<JsString>)
    ensures 0 in Flatten(pieces) <==> exists p | p in pieces :: 0 in p
  {
    if pieces != [] {
      NulInPieces(pieces[1..]);
      assert pieces == [pieces[0]] + pieces[1..];
      assert forall p :: p in pieces <==> p == pieces[0] || p in pieces[1..];
    }
  }

  /**
    The receiver obtains the text that was sent exactly when the text is NUL-free and well-formed and no cut of the
    greedy split separates a surrogate pair.
   */
  lemma WhenTextArrives(text: JsString)
    ensures Flatten(DeliveredPieces(Split(text, DATA_BUDGET_PER_CHUNK))) == text
            <==> 0 !in text && WellFormed(text) && !SplitsPair(text, DATA_BUDGET_PER_CHUNK)
  {
    var pieces := Split(text, DATA_BUDGET_PER_CHUNK);
    var ds := DeliveredPieces(pieces);
    PiecesJoinToText(text, DATA_BUDGET_PER_CHUNK);
    PiecesWellFormed(text, DATA_BUDGET_PER_CHUNK);
    NulInPieces(pieces);
    forall i | 0 <= i < |pieces|
      ensures |ds[i]| <= |pieces[i]| && (ds[i] == pieces[i] <==> WellFormed(pieces[i]) && 0 !in pieces[i])
    {
      DeliveredIntact(pieces[i]);
    }
    FlattenShrinks(ds, pieces);
    PointwiseIntact(ds, pieces);
  }

  lemma PointwiseIntact(ds: seq<JsString>, pieces: seq<JsString>)
    requires |ds| == |pieces|
    requires forall i | 0 <= i < |pieces| :: ds[i] == pieces[i] <==> WellFormed(pieces[i]) && 0 !in pieces[i]
    ensures ds == pieces <==> (forall p | p in pieces :: WellFormed(p)) && !(exists p | p in pieces :: 0 in p)
  {
    if ds == pieces {
      forall p | p in pieces ensures WellFormed(p) && 0 !in p {
        var i :| 0 <= i < |pieces| && pieces[i] == p;
        assert ds[i] == pieces[i];
      }
    }
    if (forall p | p in pieces :: WellFormed(p)) && !(exists p | p in pieces :: 0 in p) {
      forall i | 0 <= i < |pieces| ensures ds[i] == pieces[i] {
        assert pieces[i] in pieces;
      }
    }
  }

  /** NUL-free text without surrogates always arrives. */
  lemma SurrogateFreeArrives(text: JsString)
    requires SurrogateFree(text) && 0 !in text
    ensures Flatten(DeliveredPieces(Split(text, DATA_BUDGET_PER_CHUNK))) == text
  {
    WhenTextArrives(text);
    SurrogateFreeIsWellFormed(text);
    SurrogateFreeNeverSplits(text, DATA_BUDGET_PER_CHUNK);
  }

  /** A well-formed, NUL-free text that is chunked and does not arrive: 192 letters, an emoji, more letters. */
  lemma EmojiAtTheCutIsLost(letters: JsString, emoji: JsString, tail: JsString)
    requires Ascii(letters) && |letters| == 192 && Ascii(tail) && |tail| >= 16
    requires |emoji| == 2 && IsHigh(emoji[0]) && IsLow(emoji[1])
    ensures var text := letters + emoji + tail;
            && WellFormed(text) && 0 !in text && ByteLength(text) > LEN_PAYLOAD
            && Flatten(DeliveredPieces(Split(text, DATA_BUDGET_PER_CHUNK))) != text
  {
    var text := letters + emoji + tail;
    EmojiBetweenLetters(letters, emoji, tail);
    EmojiBytes(letters, emoji, tail);
    assert text[..192] == letters && text[192] == emoji[0] && text[193] == emoji[1];
    AsciiScalars(letters);
    CutLandsInPair(text, DATA_BUDGET_PER_CHUNK, 192);
    assert SplitsPair(text, DATA_BUDGET_PER_CHUNK);
    WhenTextArrives(text);
  }

  lemma EmojiBetweenLetters(a: JsString, emoji: JsString, b: JsString)
    requires Ascii(a) && Ascii(b) && |emoji| == 2 && IsHigh(emoji[0]) && IsLow(emoji[1])
    ensures WellFormed(a + emoji + b) && 0 !in a + emoji + b
  {
    SurrogateFreeIsWellFormed(a);
    SurrogateFreeIsWellFormed(b);
    assert emoji[2..] == [];
    WellFormedAppend(a, emoji);
    WellFormedAppend(a + emoji, b);
  }

  lemma EmojiBytes(a: JsString, emoji: JsString, b: JsString)
    requires Ascii(a) && Ascii(b) && |emoji| == 2 && IsHigh(emoji[0]) && IsLow(emoji[1])
    ensures ByteLength(a + emoji + b) == |a| + 4 + |b|
  {
    AsciiScalars(a);
    AsciiScalars(b);
    CutCost(a, emoji);
    CutCost(a + emoji, b);
    PairBytes(emoji);
  }

  lemma PairBytes(emoji: JsString)
    requires |emoji| == 2 && StartsWithPair(emoji)
    ensures ByteLength(emoji) == 4
  {
    var c := Pair(emoji[0], emoji[1]);
    assert emoji[2..] == [];
    assert ToScalars(emoji) == [c] + ToScalars([]);
    assert [c][1..] == [];
    assert Encode([c]) == EncodeScalar(c) + Encode([]);
  }

  // ---------------------------------------------------------------- messages that fit one frame

  /** What a receiver with these chunks pending makes of a frame. */
  function ReceiveFrame(p: Pending, frame: seq<Byte>, number: NumberParser, sweptAt: int, seenAt: int): (o: Outcome)
  {
    match ScriptDecode(frame)
    case Err(_) => Outcome(p, None)
    case Ok(f) => Receive(p, f.payload, number, sweptAt, seenAt)
  }

  /** The frame's text field brings the payload unchanged. */
  predicate SurvivesField(payload: JsString)
  {
    WellFormed(payload) && 0 !in payload && !(payload != [] && payload[0] == BOM)
  }

  /** What is decoded is never longer than the payload, and is the payload exactly when it survives the text field. */
  lemma FieldIntact(op: Opcode, tenantId: JsString, channelId: JsString, payload: JsString)
    requires IsUuid(tenantId) && ByteLength(payload) <= LEN_PAYLOAD
    ensures var frame := ScriptFrame(op, tenantId, channelId, payload);
            && frame.Ok? && ScriptDecode(frame.value).Ok?
            && |ScriptDecode(frame.value).value.payload| <= |payload|
            && (ScriptDecode(frame.value).value.payload == payload <==> SurvivesField(payload))
  {
    ScriptRoundTrip(op, tenantId, channelId, payload);
    var t := ToScalars(payload);
    FitAll(t, LEN_PAYLOAD);
    DeliveredIntact(payload);
    var c := CutAtNul(t);
    if StartsWithBom(c) {
      assert c == [c[0]] + c[1..];
      FromScalarsAppend([c[0]], c[1..]);
      assert |FromScalars(DropBom(c))| < |payload|;
    }
    if payload != [] && WellFormed(payload) && 0 !in payload {
      assert t[0] == BOM <==> payload[0] == BOM;
      NulScalars(payload);
      NulFree(t);
    }
  }

  /** A chunk that meets no pending entry is a message by itself exactly when it is the only one. */
  lemma ChunkAlone(h: ChunkHeader, sweptAt: int, seenAt: int)
    requires h.index < h.total
    ensures FeedChunk(map[], h, sweptAt, seenAt).result == if h.total == 1 then Some(h.data) else None
  {
    var parts: map<nat, JsString> := map[][h.index := h.data];
    assert parts.Keys == {h.index} && |parts| == |parts.Keys|;
    assert Extended(Sweep(map[], sweptAt), h, seenAt).parts == parts;
    if h.total == 1 {
      assert JoinParts(parts, 0) == [] && [] + h.data == h.data;
      assert JoinParts(parts, 1) == h.data;
    }
  }

  /**
    A message that fits one frame is what the receiver's handlers hear exactly when it survives the text field and does
    not itself read as a chunk: for a receiver with nothing pending; for every other receiver too it then is.
   */
  lemma SingleFrameArrives(op: Opcode, tenantId: JsString, channelId: JsString, payload: JsString, p: Pending,
                           number: NumberParser, sweptAt: int, seenAt: int)
    requires IsUuid(tenantId) && ByteLength(payload) <= LEN_PAYLOAD
    ensures var frame := ScriptFrame(op, tenantId, channelId, payload);
            && frame.Ok?
            && (ReceiveFrame(map[], frame.value, number, sweptAt, seenAt).result == Some(payload)
                <==> SurvivesField(payload) && ParseChunk(payload, number).None?)
            && (SurvivesField(payload) && ParseChunk(payload, number).None? ==>
                ReceiveFrame(p, frame.value, number, sweptAt, seenAt) == Outcome(p, Some(payload)))
  {
    FieldIntact(op, tenantId, channelId, payload);
    var q := ScriptDecode(ScriptFrame(op, tenantId, channelId, payload).value).value.payload;
    if ParseChunk(q, number).Some? {
      ParsedIsShorter(q, number);
      ChunkAlone(ParseChunk(q, number).value, sweptAt, seenAt);
    }
  }

  /**
    A payload that reads as a chunk is sent as it is, arrives as it is, and is swallowed: its handlers hear nothing, or
    only the data behind the header when the header says it is the only chunk.
   */
  lemma SwallowedPayload(op: Opcode, tenantId: JsString, channelId: JsString, msgId: JsString, index: nat, total: nat,
                         data: JsString, limit: nat, drawn: JsString, number: NumberParser, sweptAt: int, seenAt: int)
    requires IsUuid(tenantId) && IsMsgId(msgId) && index < total <= MAX_CHUNKS && ReadsDecimals(number)
    requires ByteLength(data) <= DATA_BUDGET_PER_CHUNK && WellFormed(data) && 0 !in data
    ensures var payload := Header(msgId, index, total) + data;
            var frame := ScriptFrame(op, tenantId, channelId, payload);
            && ChunksOf(payload, limit, drawn) == Ok([payload]) && SurvivesField(payload)
            && frame.Ok? && ScriptDecode(frame.value).Ok? && ScriptDecode(frame.value).value.payload == payload
            && ReceiveFrame(map[], frame.value, number, sweptAt, seenAt).result == if total == 1 then Some(data) else None
  {
    var payload := Header(msgId, index, total) + data;
    ChunkSurvives(msgId, index, total, data);
    FieldIntact(op, tenantId, channelId, payload);
    ParseOfChunk(msgId, index, total, data, number);
    ChunkAlone(ChunkHeader(msgId, index, total, data), sweptAt, seenAt);
  }

  lemma ChunkSurvives(msgId: JsString, index: nat, total: nat, data: JsString)
    requires IsMsgId(msgId) && index < total <= MAX_CHUNKS
    requires ByteLength(data) <= DATA_BUDGET_PER_CHUNK && WellFormed(data) && 0 !in data
    ensures var payload := Header(msgId, index, total) + data; ByteLength(payload) <= LEN_PAYLOAD && SurvivesField(payload)
  {
    var h := Header(msgId, index, total);
    HeaderIsAscii(msgId, index, total);
    ChunkScalars(msgId, index, total, data);
    SurrogateFreeIsWellFormed(h);
    WellFormedAppend(h, data);
  }
}
