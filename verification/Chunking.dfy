/**
  Splitting messages larger than one frame: the greedy splitter with its binary search, the text header of a chunk,
  and its parser.
 */
module Chunking {
  import opened Prelude
  import opened Utf8
  import opened Utf16
  import opened Frame

  const CHUNK_MARKER: Unit := 1
  const COLON: Unit := 58
  const MSG_ID_LEN := 4
  const HEADER_MAX_OVERHEAD := 1 + MSG_ID_LEN + 1 + 4 + 1 + 4 + 1
  const DATA_BUDGET_PER_CHUNK := LEN_PAYLOAD - HEADER_MAX_OVERHEAD
  const MAX_CHUNKS := 9999

  /** Every frame has 211 bytes of payload, a header takes at most 16 of them, and its numbers have up to four digits. */
  lemma Constants()
    ensures LEN_PAYLOAD == 211 && HEADER_MAX_OVERHEAD == 16 && DATA_BUDGET_PER_CHUNK == 195 && MAX_CHUNKS == 9999
    ensures CHUNK_MARKER == 1 && COLON == ':' as int && MSG_ID_LEN == 4
  {
  }

  // ---------------------------------------------------------------- the longest fitting prefix

  predicate Fits(s: JsString, n: nat, budget: nat)
    requires n <= |s|
  {
    ByteLength(s[..n]) <= budget
  }

  /** The longest prefix of `s`, at most `n` units long, whose encoding fits the budget. */
  function LongestUpTo(s: JsString, n: nat, budget: nat): (best: nat)
    requires n <= |s|
    ensures best <= n
  {
    if n == 0 || Fits(s, n, budget) then n else LongestUpTo(s, n - 1, budget)
  }

  lemma ShorterFits(s: JsString, m: nat, n: nat, budget: nat)
    requires m <= n <= |s| && Fits(s, n, budget)
    ensures Fits(s, m, budget)
  {
    if m < n {
      PrefixesGrow(s, m, n);
    }
  }

  lemma EmptyFits(s: JsString, budget: nat)
    ensures Fits(s, 0, budget)
  {
    assert s[..0] == [];
  }

  /** A prefix is the longest fitting one exactly when it fits and no longer one does. */
  lemma {:induction false} LongestIsUnique(s: JsString, n: nat, best: nat, budget: nat)
    requires best <= n <= |s| && Fits(s, best, budget)
    requires forall m | best < m <= n :: !Fits(s, m, budget)
    ensures LongestUpTo(s, n, budget) == best
  {
    if best < n {
      LongestIsUnique(s, n - 1, best, budget);
    }
  }

  lemma {:induction false} LongestIsLongest(s: JsString, n: nat, budget: nat)
    requires n <= |s|
    ensures Fits(s, LongestUpTo(s, n, budget), budget)
    ensures forall m | LongestUpTo(s, n, budget) < m <= n :: !Fits(s, m, budget)
  {
    EmptyFits(s, budget);
    if n > 0 && !Fits(s, n, budget) {
      LongestIsLongest(s, n - 1, budget);
    }
  }

  /** Units taken for one piece: the longest fitting prefix, but at least one unit. */
  function Take(s: JsString, budget: nat): (n: nat)
    requires s != []
    ensures 1 <= n <= |s|
  {
    var best := LongestUpTo(s, |s|, budget);
    if best == 0 then 1 else best
  }

  function Split(s: JsString, budget: nat): (pieces: seq<JsString>)
  {
    if s == [] then [] else [s[..Take(s, budget)]] + Split(s[Take(s, budget)..], budget)
  }

  /** The binary search of the inner loop. */
  method LongestPrefix(s: JsString, budget: nat) returns (best: nat)
    ensures best <= |s| && best == LongestUpTo(s, |s|, budget)
    ensures ByteLength(s[..best]) <= budget && forall m | best < m <= |s| :: ByteLength(s[..m]) > budget
  {
    var lo, hi := 1, |s|;
    best := 0;
    EmptyFits(s, budget);
    while lo <= hi
      invariant best == lo - 1 && best <= hi <= |s|
      invariant Fits(s, best, budget)
      invariant forall m | hi < m <= |s| :: !Fits(s, m, budget)
    {
      var mid := (lo + hi) / 2;
      if ByteLength(s[..mid]) <= budget {
        best := mid;
        lo := mid + 1;
      } else {
        forall m | mid <= m <= |s| ensures !Fits(s, m, budget) {
          if Fits(s, m, budget) {
            ShorterFits(s, mid, m, budget);
          }
        }
        hi := mid - 1;
      }
    }
    LongestIsUnique(s, |s|, best, budget);
    LongestIsLongest(s, |s|, budget);
    forall m | best < m <= |s| ensures ByteLength(s[..m]) > budget {
      assert !Fits(s, m, budget);
    }
  }

  /** The split is greedy: its first piece is the longest fitting prefix, and the others split what follows. */
  lemma SplitIsGreedy(s: JsString, budget: nat)
    requires s != [] && budget >= 3
    ensures Split(s, budget) != []
    ensures var n := |Split(s, budget)[0]|;
            && 1 <= n <= |s| && Split(s, budget)[0] == s[..n] && Split(s, budget)[1..] == Split(s[n..], budget)
            && ByteLength(s[..n]) <= budget && forall m | n < m <= |s| :: ByteLength(s[..m]) > budget
  {
    var n := Take(s, budget);
    FrontPiece(s, budget);
    LongestIsLongest(s, |s|, budget);
    assert s[..1] == [] + [s[0]];
    ByteLengthSnoc([], s[0]);
    assert Fits(s, 1, budget);
    forall m | n < m <= |s| ensures ByteLength(s[..m]) > budget {
      assert !Fits(s, m, budget);
    }
  }

  lemma SplitStep(pieces: seq<JsString>, s: JsString, budget: nat)
    requires s != []
    ensures pieces + Split(s, budget)
            == (pieces + [s[..Take(s, budget)]]) + Split(s[Take(s, budget)..], budget)
  {
  }

  /** `splitByByteBudget`. */
  method SplitByByteBudget(text: JsString, budget: nat) returns (pieces: seq<JsString>)
    ensures pieces == Split(text, budget)
  {
    pieces := [];
    var remaining := text;
    while |remaining| > 0
      invariant Split(text, budget) == pieces + Split(remaining, budget)
      decreases |remaining|
    {
      var best := LongestPrefix(remaining, budget);
      var take := if best == 0 then 1 else best;
      SplitStep(pieces, remaining, budget);
      pieces := pieces + [remaining[..take]];
      remaining := remaining[take..];
    }
  }

  // ---------------------------------------------------------------- what the pieces satisfy

  lemma {:induction false} PiecesJoinToText(s: JsString, budget: nat)
    ensures Flatten(Split(s, budget)) == s
  {
    if s != [] {
      PiecesJoinToText(s[Take(s, budget)..], budget);
    }
  }

  /** The piece at the front: within the budget, and at most two bytes short of it unless it is everything. */
  lemma FrontPiece(s: JsString, budget: nat)
    requires s != [] && budget >= 3
    ensures ByteLength(s[..Take(s, budget)]) <= budget
    ensures Take(s, budget) < |s| ==> ByteLength(s[..Take(s, budget)]) >= budget - 2
  {
    var n := Take(s, budget);
    LongestIsLongest(s, |s|, budget);
    assert s[..1] == [] + [s[0]];
    ByteLengthSnoc([], s[0]);
    assert Fits(s, 1, budget);
    if n < |s| {
      assert s[..n + 1] == s[..n] + [s[n]];
      ByteLengthSnoc(s[..n], s[n]);
      assert !Fits(s, n + 1, budget);
    }
  }

  /** Every piece is non-empty and within the budget; every piece but the last is at most two bytes below it. */
  lemma {:induction false} PiecesAreTight(s: JsString, budget: nat, i: nat)
    requires budget >= 3 && i < |Split(s, budget)|
    ensures Split(s, budget)[i] != []
    ensures ByteLength(Split(s, budget)[i]) <= budget
    ensures i < |Split(s, budget)| - 1 ==> ByteLength(Split(s, budget)[i]) >= budget - 2
  {
    FrontPiece(s, budget);
    var rest := s[Take(s, budget)..];
    if i > 0 {
      PiecesAreTight(rest, budget, i - 1);
    } else if |Split(s, budget)| > 1 {
      assert rest != [];
    }
  }

  /** Cutting a string adds at most two bytes, when the cut separates a pair. */
  lemma CutCost(a: JsString, b: JsString)
    ensures ByteLength(a + b) + (if CutsPair(a, b) then 2 else 0) == ByteLength(a) + ByteLength(b)
  {
    if CutsPair(a, b) {
      var a0, hi, lo, b0 := a[..|a| - 1], a[|a| - 1], b[0], b[1..];
      ToScalarsComplete(a, lo);
      assert a + b == (a + [lo]) + b0;
      ToScalarsAppend(a + [lo], b0);
      assert b == [lo] + b0;
      ToScalarsAppend([lo], b0);
      assert [lo][1..] == [];
      assert ToScalars([lo]) == [REPLACEMENT];
      EncodeAppend(ToScalars(a0), [REPLACEMENT]);
      EncodeAppend(ToScalars(a0), [Pair(hi, lo)]);
      EncodeAppend(ToScalars(a + [lo]), ToScalars(b0));
      EncodeAppend([REPLACEMENT], ToScalars(b0));
    } else {
      ToScalarsAppend(a, b);
      EncodeAppend(ToScalars(a), ToScalars(b));
    }
  }

  /** The number of pieces is bounded by the size of the text, whatever its surrogates. */
  lemma {:induction false} PieceCount(s: JsString)
    requires s != []
    ensures 191 * (|Split(s, DATA_BUDGET_PER_CHUNK)| - 1) <= ByteLength(s)
  {
    var n := Take(s, DATA_BUDGET_PER_CHUNK);
    var rest := s[n..];
    assert |Split(s, DATA_BUDGET_PER_CHUNK)| == 1 + |Split(rest, DATA_BUDGET_PER_CHUNK)|;
    if rest != [] {
      FrontPiece(s, DATA_BUDGET_PER_CHUNK);
      PieceCount(rest);
      CutCost(s[..n], rest);
      assert s == s[..n] + rest;
    }
  }

  // ---------------------------------------------------------------- where a cut separates a surrogate pair

  /** A pair is cut exactly when the piece has room for three more bytes but not for four. */
  lemma CutLandsInPair(s: JsString, budget: nat, j: nat)
    requires budget >= 3 && j + 1 < |s| && IsHigh(s[j]) && IsLow(s[j + 1])
    ensures Take(s, budget) == j + 1 <==> ByteLength(s[..j]) == budget - 3
  {
    assert s[..j + 1] == s[..j] + [s[j]];
    ByteLengthSnoc(s[..j], s[j]);
    assert s[..j + 2] == s[..j + 1] + [s[j + 1]];
    ByteLengthSnoc(s[..j + 1], s[j + 1]);
    LongestIsLongest(s, |s|, budget);
    FrontPiece(s, budget);
    if ByteLength(s[..j]) == budget - 3 {
      assert Fits(s, j + 1, budget) && !Fits(s, j + 2, budget);
      var best := LongestUpTo(s, |s|, budget);
      if best > j + 1 {
        ShorterFits(s, j + 2, best, budget);
      }
    }
    if Take(s, budget) == j + 1 {
      assert !Fits(s, j + 2, budget);
    }
  }

  /** Some cut of the greedy split separates a surrogate pair. */
  predicate SplitsPair(s: JsString, budget: nat)
  {
    s != [] &&
    (CutsPair(s[..Take(s, budget)], s[Take(s, budget)..]) || SplitsPair(s[Take(s, budget)..], budget))
  }

  lemma {:induction false} WellFormedAppend(a: JsString, b: JsString)
    requires !CutsPair(a, b)
    ensures WellFormed(a + b) <==> WellFormed(a) && WellFormed(b)
    decreases |a|
  {
    if a == [] {
      assert a + b == b;
    } else if StartsWithPair(a) {
      assert (a + b)[2..] == a[2..] + b;
      WellFormedAppend(a[2..], b);
    } else {
      assert (a + b)[1..] == a[1..] + b;
      WellFormedAppend(a[1..], b);
    }
  }

  lemma EndsHighIsIllFormed(a: JsString)
    requires a != [] && IsHigh(a[|a| - 1])
    ensures !WellFormed(a)
  {
    var n := |a| - 1;
    assert a == a[..n] + [a[n]];
    WellFormedAppend(a[..n], [a[n]]);
  }

  /** The pieces are all well-formed exactly when the text is and no cut separates a pair. */
  lemma {:induction false} PiecesWellFormed(s: JsString, budget: nat)
    ensures (forall p | p in Split(s, budget) :: WellFormed(p)) <==> WellFormed(s) && !SplitsPair(s, budget)
  {
    if s != [] {
      var n := Take(s, budget);
      var front, rest := s[..n], s[n..];
      assert s == front + rest;
      var pieces := Split(s, budget);
      assert pieces == [front] + Split(rest, budget);
      assert front == pieces[0] && front in pieces;
      assert forall p :: p in pieces <==> p == front || p in Split(rest, budget);
      PiecesWellFormed(rest, budget);
      if CutsPair(front, rest) {
        EndsHighIsIllFormed(front);
      } else {
        WellFormedAppend(front, rest);
      }
    }
  }

  lemma {:induction false} SurrogateFreeNeverSplits(s: JsString, budget: nat)
    requires SurrogateFree(s)
    ensures !SplitsPair(s, budget)
  {
    if s != [] {
      SurrogateFreeNeverSplits(s[Take(s, budget)..], budget);
    }
  }

  // ---------------------------------------------------------------- chunks

  /** Decimal digits of a number, as template interpolation prints it. */
  function Decimal(n: nat): (s: JsString)
    ensures |s| >= 1
    ensures forall i | 0 <= i < |s| :: 48 <= s[i] <= 57
  {
    if n < 10 then [48 + n] else Decimal(n / 10) + [48 + n % 10]
  }

  /** A digit of a decimal numeral. */
  predicate IsDigit(u: Unit)
  {
    '0' as int <= u <= '9' as int
  }

  predicate IsNumeral(s: JsString)
  {
    s != [] && forall i | 0 <= i < |s| :: IsDigit(s[i])
  }

  /** What a numeral denotes: each digit counts ten times the one after it. */
  function NumeralValue(s: JsString): (v: nat)
    requires forall i | 0 <= i < |s| :: IsDigit(s[i])
  {
    if s == [] then 0
    else
      assert IsDigit(s[|s| - 1]);
      10 * NumeralValue(s[..|s| - 1]) + (s[|s| - 1] - '0' as int)
  }

  /** A number is printed as the numeral without leading zeros that denotes it. */
  lemma {:induction false} DecimalDenotes(n: nat)
    ensures IsNumeral(Decimal(n)) && NumeralValue(Decimal(n)) == n
    ensures n > 0 ==> Decimal(n)[0] != '0' as int
    ensures n == 0 ==> Decimal(n) == ['0' as int]
  {
    if n < 10 {
      assert Decimal(n)[..0] == [];
    } else {
      DecimalDenotes(n / 10);
      assert Decimal(n)[..|Decimal(n)| - 1] == Decimal(n / 10);
    }
  }

  lemma DecimalWidth(n: nat)
    requires n <= MAX_CHUNKS
    ensures |Decimal(n)| <= 4
  {
    var a := n / 10;
    var b := a / 10;
    var c := b / 10;
    assert c < 10 && |Decimal(c)| == 1;
    assert |Decimal(b)| <= 2;
    assert |Decimal(a)| <= 3;
  }

  /** `:index:total:`. */
  function Numbers(index: nat, total: nat): (s: JsString)
  {
    [COLON] + Decimal(index) + [COLON] + (Decimal(total) + [COLON])
  }

  function Header(msgId: JsString, index: nat, total: nat): (h: JsString)
  {
    [CHUNK_MARKER] + msgId + Numbers(index, total)
  }

  /** Message identifiers are four characters of `a-z0-9`. */
  predicate IsMsgId(id: JsString)
  {
    |id| == MSG_ID_LEN && forall i | 0 <= i < |id| :: 97 <= id[i] <= 122 || 48 <= id[i] <= 57
  }

  datatype ChunkError = TooLarge(bytes: nat, limit: nat) | TooManyChunks(chunks: nat)

  /** `encodeChunks`; the random identifier is an input. */
  function ChunksOf(payload: JsString, maxMessageBytes: nat, msgId: JsString): (r: Result<seq<JsString>, ChunkError>)
  {
    var totalBytes := ByteLength(payload);
    if totalBytes <= LEN_PAYLOAD then Ok([payload])
    else if totalBytes > maxMessageBytes then Err(TooLarge(totalBytes, maxMessageBytes))
    else
      var pieces := Split(payload, DATA_BUDGET_PER_CHUNK);
      if |pieces| > MAX_CHUNKS then Err(TooManyChunks(|pieces|))
      else Ok(seq(|pieces|, i requires 0 <= i < |pieces| => Header(msgId, i, |pieces|) + pieces[i]))
  }

  method EncodeChunks(payload: JsString, maxMessageBytes: nat, msgId: JsString)
    returns (r: Result<seq<JsString>, ChunkError>)
    ensures r == ChunksOf(payload, maxMessageBytes, msgId)
  {
    var totalBytes := ByteLength(payload);
    if totalBytes <= LEN_PAYLOAD {
      return Ok([payload]);
    }
    if totalBytes > maxMessageBytes {
      return Err(TooLarge(totalBytes, maxMessageBytes));
    }
    var pieces := SplitByByteBudget(payload, DATA_BUDGET_PER_CHUNK);
    if |pieces| > MAX_CHUNKS {
      return Err(TooManyChunks(|pieces|));
    }
    var total := |pieces|;
    r := Ok(seq(total, i requires 0 <= i < total => Header(msgId, i, total) + pieces[i]));
  }

  /** Below 191 * 9999 bytes, so at the default limit of 64 KiB, the guard on the number of chunks never trips. */
  lemma ChunkGuardNeverTrips(payload: JsString, maxMessageBytes: nat, msgId: JsString)
    requires maxMessageBytes < 191 * MAX_CHUNKS
    ensures ChunksOf(payload, maxMessageBytes, msgId).Err? <==>
            ByteLength(payload) > LEN_PAYLOAD && ByteLength(payload) > maxMessageBytes
  {
    if LEN_PAYLOAD < ByteLength(payload) <= maxMessageBytes {
      PieceCount(payload);
    }
  }

  /** A chunk on the wire: SOH, the identifier, both numbers in decimal, each followed by a colon, and the data. */
  ghost predicate IsChunk(chunk: JsString, msgId: JsString, index: nat, total: nat, data: JsString)
  {
    exists a, b | IsNumeral(a) && IsNumeral(b) ::
      && NumeralValue(a) == index && NumeralValue(b) == total
      && chunk == [1] + msgId + [':' as int] + a + [':' as int] + b + [':' as int] + data
  }

  lemma HeaderIsChunk(msgId: JsString, index: nat, total: nat, data: JsString)
    ensures IsChunk(Header(msgId, index, total) + data, msgId, index, total, data)
  {
    var a, b := Decimal(index), Decimal(total);
    DecimalDenotes(index);
    DecimalDenotes(total);
    assert Header(msgId, index, total) + data == [1] + msgId + [':' as int] + a + [':' as int] + b + [':' as int] + data;
  }

  /**
    What `publish` sends for a payload: up to 211 bytes, the payload itself; above the limit, an exception; otherwise
    the pieces of the payload in order, each behind a header with its index and their number.
   */
  lemma ChunksMeaning(payload: JsString, maxMessageBytes: nat, msgId: JsString)
    ensures var r := ChunksOf(payload, maxMessageBytes, msgId);
            && (ByteLength(payload) <= 211 ==> r == Ok([payload]))
            && (r.Err? <==> ByteLength(payload) > 211
                            && (ByteLength(payload) > maxMessageBytes || |Split(payload, 195)| > 9999))
            && (ByteLength(payload) > 211 && ByteLength(payload) > maxMessageBytes ==>
                r == Err(TooLarge(ByteLength(payload), maxMessageBytes)))
            && (r.Ok? && ByteLength(payload) > 211 ==>
                exists pieces: seq<JsString> | |pieces| == |r.value| ::
                  && Flatten(pieces) == payload
                  && forall i | 0 <= i < |pieces| :: IsChunk(r.value[i], msgId, i, |pieces|, pieces[i]))
  {
    var r := ChunksOf(payload, maxMessageBytes, msgId);
    if r.Ok? && ByteLength(payload) > 211 {
      var pieces := Split(payload, 195);
      PiecesJoinToText(payload, 195);
      forall i | 0 <= i < |pieces| ensures IsChunk(r.value[i], msgId, i, |pieces|, pieces[i]) {
        HeaderIsChunk(msgId, i, |pieces|, pieces[i]);
      }
    }
  }

  predicate Ascii(s: JsString)
  {
    forall i | 0 <= i < |s| :: 1 <= s[i] < 0x80
  }

  lemma {:induction false} AsciiScalars(s: JsString)
    requires Ascii(s)
    ensures ToScalars(s) == s && |Encode(s)| == |s|
  {
    if s != [] {
      AsciiScalars(s[1..]);
      assert s == [s[0]] + s[1..];
    }
  }

  lemma HeaderIsAscii(msgId: JsString, index: nat, total: nat)
    requires IsMsgId(msgId) && index <= MAX_CHUNKS && total <= MAX_CHUNKS
    ensures var h := Header(msgId, index, total);
            Ascii(h) && |h| <= HEADER_MAX_OVERHEAD && h[0] == CHUNK_MARKER && h[|h| - 1] == COLON
  {
    DecimalWidth(index);
    DecimalWidth(total);
  }

  lemma ChunkScalars(msgId: JsString, index: nat, total: nat, piece: JsString)
    requires IsMsgId(msgId) && index <= MAX_CHUNKS && total <= MAX_CHUNKS
    ensures var h := Header(msgId, index, total);
            && ToScalars(h + piece) == h + ToScalars(piece)
            && ByteLength(h + piece) == |h| + ByteLength(piece)
  {
    var h := Header(msgId, index, total);
    HeaderIsAscii(msgId, index, total);
    AsciiScalars(h);
    ToScalarsAppend(h, piece);
    EncodeAppend(h, ToScalars(piece));
  }

  /** No chunk exceeds the payload field, so the frame encoder never truncates one. */
  lemma ChunksFitTheirFrames(payload: JsString, maxMessageBytes: nat, msgId: JsString, i: nat)
    requires IsMsgId(msgId)
    requires ChunksOf(payload, maxMessageBytes, msgId).Ok? && i < |ChunksOf(payload, maxMessageBytes, msgId).value|
    ensures ByteLength(ChunksOf(payload, maxMessageBytes, msgId).value[i]) <= LEN_PAYLOAD
  {
    if ByteLength(payload) > LEN_PAYLOAD {
      var pieces := Split(payload, DATA_BUDGET_PER_CHUNK);
      PiecesAreTight(payload, DATA_BUDGET_PER_CHUNK, i);
      HeaderIsAscii(msgId, i, |pieces|);
      ChunkScalars(msgId, i, |pieces|, pieces[i]);
    }
  }

  // ---------------------------------------------------------------- parsing a chunk

  datatype ChunkHeader = ChunkHeader(msgId: JsString, index: nat, total: nat, data: JsString)

  /** `s.indexOf(u, from)`, with the length of `s` for -1. */
  function IndexOf(s: JsString, u: Unit, from: nat): (i: nat)
    requires from <= |s|
    ensures from <= i <= |s|
    ensures forall k | from <= k < i :: s[k] != u
    ensures i < |s| ==> s[i] == u
    decreases |s| - from
  {
    if from == |s| || s[from] == u then from else IndexOf(s, u, from + 1)
  }

  /** JavaScript's `Number(s)` when the result is an integer. */
  type NumberParser = JsString -> Option<int>

  /** All that is used of `Number`: it reads numerals of up to four digits, the longest a chunk header contains. */
  ghost predicate ReadsDecimals(number: NumberParser)
  {
    forall s: JsString | IsNumeral(s) && |s| <= 4 :: number(s) == Some(NumeralValue(s))
  }

  lemma ReadsPrinted(number: NumberParser, n: nat)
    requires ReadsDecimals(number) && n <= MAX_CHUNKS
    ensures number(Decimal(n)) == Some(n)
  {
    DecimalDenotes(n);
    DecimalWidth(n);
  }

  /** `parseChunk`. */
  function ParseChunk(payload: JsString, number: NumberParser): (r: Option<ChunkHeader>)
  {
    if |payload| < MSG_ID_LEN + 5 || payload[0] != CHUNK_MARKER then None
    else ParseRest(payload[1..1 + MSG_ID_LEN], payload[1 + MSG_ID_LEN..], number)
  }

  /** What follows the message identifier: `:index:total:data`. */
  function ParseRest(msgId: JsString, rest: JsString, number: NumberParser): (r: Option<ChunkHeader>)
    requires rest != []
  {
    if rest[0] != COLON then None
    else
      var secondColon := IndexOf(rest, COLON, 1);
      if secondColon == |rest| then None
      else ParseTail(msgId, number(rest[1..secondColon]), rest[secondColon + 1..], number)
  }

  /** What follows the index: `total:data`. */
  function ParseTail(msgId: JsString, index: Option<int>, afterIndex: JsString, number: NumberParser)
    : (r: Option<ChunkHeader>)
  {
    var thirdColon := IndexOf(afterIndex, COLON, 0);
    if thirdColon == |afterIndex| then None
    else
      var total := number(afterIndex[..thirdColon]);
      if index.None? || total.None? || index.value < 0 || total.value <= 0 || index.value >= total.value then None
      else Some(ChunkHeader(msgId, index.value, total.value, afterIndex[thirdColon + 1..]))
  }

  /** The payload as a chunk with this header: its parts, the two numbers as `Number` reads them. */
  ghost predicate ReadsAs(payload: JsString, number: NumberParser, h: ChunkHeader)
  {
    && |payload| >= 9 && |h.msgId| == 4 && h.index < h.total
    && exists a, b | ':' as int !in a && ':' as int !in b ::
         && number(a) == Some(h.index) && number(b) == Some(h.total)
         && payload == [1] + h.msgId + [':' as int] + a + [':' as int] + b + [':' as int] + h.data
  }

  /** A payload is taken for a chunk exactly when it has the form of one. */
  lemma ParseExactly(payload: JsString, number: NumberParser, h: ChunkHeader)
    ensures ParseChunk(payload, number) == Some(h) <==> ReadsAs(payload, number, h)
  {
    if ParseChunk(payload, number) == Some(h) {
      ParsedParts(payload, number, h);
    }
    if ReadsAs(payload, number, h) {
      var a, b :| ':' as int !in a && ':' as int !in b
                  && number(a) == Some(h.index) && number(b) == Some(h.total)
                  && payload == [1] + h.msgId + [':' as int] + a + [':' as int] + b + [':' as int] + h.data;
      PartsParse(payload, number, h, a, b);
    }
  }

  lemma CutAt(s: JsString, i: nat)
    requires i < |s|
    ensures s == s[..i] + [s[i]] + s[i + 1..]
  {
  }

  lemma Regroup(front: JsString, a: JsString, b: JsString, data: JsString, colon: JsString)
    ensures front + (colon + a + colon + (b + colon + data)) == front + colon + a + colon + b + colon + data
  {
  }

  lemma NoneBefore(s: JsString, u: Unit, from: nat)
    requires from <= |s|
    ensures u !in s[from..IndexOf(s, u, from)]
  {
    var t := s[from..IndexOf(s, u, from)];
    forall k | 0 <= k < |t| ensures t[k] != u {
      assert t[k] == s[from + k];
    }
  }

  lemma ParsedParts(payload: JsString, number: NumberParser, h: ChunkHeader)
    requires ParseChunk(payload, number) == Some(h)
    ensures ReadsAs(payload, number, h)
  {
    var rest := payload[5..];
    var second := IndexOf(rest, COLON, 1);
    var afterIndex := rest[second + 1..];
    var third := IndexOf(afterIndex, COLON, 0);
    var a, b := rest[1..second], afterIndex[..third];
    NoneBefore(rest, COLON, 1);
    NoneBefore(afterIndex, COLON, 0);
    assert b == afterIndex[0..third];
    CutAt(rest, second);
    assert rest[..second] == [COLON] + a;
    CutAt(afterIndex, third);
    assert payload == [1] + h.msgId + rest;
    Regroup([1] + h.msgId, a, b, h.data, [COLON]);
  }

  lemma PartsParse(payload: JsString, number: NumberParser, h: ChunkHeader, a: JsString, b: JsString)
    requires |payload| >= 9 && |h.msgId| == 4 && h.index < h.total && COLON !in a && COLON !in b
    requires number(a) == Some(h.index) && number(b) == Some(h.total)
    requires payload == [1] + h.msgId + [COLON] + a + [COLON] + b + [COLON] + h.data
    ensures ParseChunk(payload, number) == Some(h)
  {
    var tail := b + [COLON] + h.data;
    var rest := [COLON] + a + [COLON] + tail;
    Regroup([1] + h.msgId, a, b, h.data, [COLON]);
    FrontSlices(h.msgId, rest, []);
    assert [1] + h.msgId + rest + [] == payload && rest + [] == rest;
    RestParses(h.msgId, number, a, tail);
    IndexOfFirst(b, COLON, h.data, 0);
    CutAt(tail, |b|);
    assert tail[..|b|] == b && tail[|b| + 1..] == h.data;
  }

  lemma RestParses(msgId: JsString, number: NumberParser, a: JsString, tail: JsString)
    requires COLON !in a
    ensures ParseRest(msgId, [COLON] + a + [COLON] + tail, number) == ParseTail(msgId, number(a), tail, number)
  {
    var rest := [COLON] + a + [COLON] + tail;
    IndexOfFirst([COLON] + a, COLON, tail, 1);
    assert rest[1..1 + |a|] == a && rest[|a| + 2..] == tail;
  }

  /** What is parsed out of a payload is shorter than the payload, and its index is in range. */
  lemma ParsedIsShorter(payload: JsString, number: NumberParser)
    requires ParseChunk(payload, number).Some?
    ensures var h := ParseChunk(payload, number).value; |h.data| < |payload| && h.index < h.total
  {
  }

  lemma IndexOfFirst(front: JsString, u: Unit, rest: JsString, from: nat)
    requires from <= |front| && forall k | from <= k < |front| :: front[k] != u
    ensures IndexOf(front + [u] + rest, u, from) == |front|
  {
    var i := IndexOf(front + [u] + rest, u, from);
    assert (front + [u] + rest)[|front|] == u;
    assert forall k | from <= k < |front| :: (front + [u] + rest)[k] == front[k];
  }

  /** Parsing a chunk gives back its header and its data, whatever the data contain. */
  lemma ParseOfChunk(msgId: JsString, index: nat, total: nat, data: JsString, number: NumberParser)
    requires IsMsgId(msgId) && index < total <= MAX_CHUNKS && ReadsDecimals(number)
    ensures ParseChunk(Header(msgId, index, total) + data, number) == Some(ChunkHeader(msgId, index, total, data))
  {
    HeaderLayout(msgId, index, total, data);
    RestOfChunk(msgId, index, Decimal(total) + [COLON] + data, number);
    TailOfChunk(msgId, index, total, data, number);
  }

  lemma RestOfChunk(msgId: JsString, index: nat, tail: JsString, number: NumberParser)
    requires index <= MAX_CHUNKS && ReadsDecimals(number)
    ensures ParseRest(msgId, [COLON] + Decimal(index) + [COLON] + tail, number) == ParseTail(msgId, Some(index), tail, number)
  {
    var d := Decimal(index);
    assert COLON !in d;
    RestParses(msgId, number, d, tail);
    ReadsPrinted(number, index);
  }

  lemma TailOfChunk(msgId: JsString, index: nat, total: nat, data: JsString, number: NumberParser)
    requires index < total <= MAX_CHUNKS && ReadsDecimals(number)
    ensures ParseTail(msgId, Some(index), Decimal(total) + [COLON] + data, number)
            == Some(ChunkHeader(msgId, index, total, data))
  {
    var e := Decimal(total);
    var tail := e + [COLON] + data;
    IndexOfFirst(e, COLON, data, 0);
    assert tail[..|e|] == e && tail[|e| + 1..] == data;
    ReadsPrinted(number, total);
  }

  lemma HeaderLayout(msgId: JsString, index: nat, total: nat, data: JsString)
    requires |msgId| == MSG_ID_LEN
    ensures var payload := Header(msgId, index, total) + data;
            && |payload| >= MSG_ID_LEN + 6 && payload[0] == CHUNK_MARKER
            && payload[1..1 + MSG_ID_LEN] == msgId
            && payload[1 + MSG_ID_LEN..] == [COLON] + Decimal(index) + [COLON] + (Decimal(total) + [COLON] + data)
  {
    var rest := Numbers(index, total) + data;
    FrontSlices(msgId, Numbers(index, total), data);
    Associate([COLON] + Decimal(index) + [COLON], Decimal(total) + [COLON], data);
  }

  lemma FrontSlices(msgId: JsString, numbers: JsString, data: JsString)
    requires |msgId| == MSG_ID_LEN
    ensures var payload := [CHUNK_MARKER] + msgId + numbers + data;
            && payload[0] == CHUNK_MARKER && payload[1..1 + MSG_ID_LEN] == msgId
            && payload[1 + MSG_ID_LEN..] == numbers + data
  {
  }
}
