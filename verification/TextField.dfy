/**
  A fixed-width text field of the frame: the longest whole-character prefix that fits, zero-padded. The four codecs
  reach it by four different routes, each modelled here as its source writes it.
 */
module TextField {
  import opened Prelude
  import opened Utf8

  type Text = seq<Scalar>

  /** Byte offset at which character `k` starts. */
  function Offset(text: Text, k: nat): (o: nat)
    requires k <= |text|
  {
    |Encode(text[..k])|
  }

  /** Number of leading characters that fit in `width` bytes. */
  function Fit(text: Text, width: nat): (k: nat)
    ensures k <= |text|
  {
    if text == [] || Width(text[0]) > width then 0 else 1 + Fit(text[1..], width - Width(text[0]))
  }

  function Truncate(text: Text, width: nat): (t: Text)
  {
    text[..Fit(text, width)]
  }

  /** The octets of a field holding `text`. */
  function FieldBytes(text: Text, width: nat): (bs: seq<Byte>)
    ensures |bs| == width
  {
    FitIsLongest(text, width);
    Encode(Truncate(text, width)) + Zeros(width - |Encode(Truncate(text, width))|)
  }

  // ---------------------------------------------------------------- offsets

  lemma {:induction false} OffsetTail(text: Text, k: nat)
    requires 1 <= k <= |text|
    ensures Offset(text, k) == Width(text[0]) + Offset(text[1..], k - 1)
  {
    assert text[..k] == [text[0]] + text[1..][..k - 1];
    EncodeAppend([text[0]], text[1..][..k - 1]);
    assert Encode([text[0]]) == EncodeScalar(text[0]) + Encode([text[0]][1..]);
  }

  lemma {:induction false} OffsetsIncrease(text: Text, j: nat, k: nat)
    requires j < k <= |text|
    ensures Offset(text, j) < Offset(text, k)
  {
    OffsetTail(text, k);
    if j > 0 {
      OffsetTail(text, j);
      OffsetsIncrease(text[1..], j - 1, k - 1);
    }
  }

  /** `Fit` is the longest prefix that fits: it fits, and no longer one does. */
  lemma {:induction false} FitIsLongest(text: Text, width: nat)
    ensures Offset(text, Fit(text, width)) <= width
    ensures forall k | Fit(text, width) < k <= |text| :: Offset(text, k) > width
  {
    if text != [] {
      if Width(text[0]) <= width {
        FitIsLongest(text[1..], width - Width(text[0]));
        OffsetTail(text, Fit(text, width));
      }
      forall k | Fit(text, width) < k <= |text| ensures Offset(text, k) > width {
        OffsetTail(text, k);
      }
    }
  }

  /** Text that fills the field is all that is kept of it, whatever follows. */
  lemma {:induction false} FitExact(text: Text, more: Text, width: nat)
    requires |Encode(text)| == width
    ensures Truncate(text + more, width) == text
  {
    if text == [] {
      assert text + more == more;
    } else {
      assert (text + more)[1..] == text[1..] + more && (text + more)[0] == text[0];
      FitExact(text[1..], more, width - Width(text[0]));
      assert (text + more)[..1 + |text[1..]|] == text;
    }
  }

  lemma FitAll(text: Text, width: nat)
    requires |Encode(text)| <= width
    ensures Truncate(text, width) == text
  {
    FitIsLongest(text, width);
    assert text[..|text|] == text;
    assert Offset(text, |text|) <= width;
  }

  lemma TruncateStep(text: Text, width: nat)
    requires text != [] && Width(text[0]) <= width
    ensures Truncate(text, width) == [text[0]] + Truncate(text[1..], width - Width(text[0]))
    ensures Encode(Truncate(text, width)) == EncodeScalar(text[0]) + Encode(Truncate(text[1..], width - Width(text[0])))
  {
    var rest := Truncate(text[1..], width - Width(text[0]));
    assert Truncate(text, width) == [text[0]] + rest;
    assert ([text[0]] + rest)[1..] == rest;
  }

  /** Every byte of encoded text that is not a continuation byte starts a character. */
  lemma {:induction false} BoundaryIsOffset(text: Text, i: nat) returns (k: nat)
    requires i < |Encode(text)| && !IsContinuation(Encode(text)[i])
    ensures k < |text| && Offset(text, k) == i
  {
    if i < Width(text[0]) {
      ContinuationWithin(text[0], i);
      k := 0;
    } else {
      k := BoundaryIsOffset(text[1..], i - Width(text[0]));
      k := k + 1;
      OffsetTail(text, k);
    }
  }

  /** A character starts with a byte that is not a continuation byte. */
  lemma OffsetIsBoundary(text: Text, k: nat)
    requires k < |text|
    ensures Offset(text, k) < |Encode(text)| && !IsContinuation(Encode(text)[Offset(text, k)])
  {
    assert text == text[..k] + text[k..];
    EncodeAppend(text[..k], text[k..]);
    ContinuationWithin(text[k], 0);
  }

  // ---------------------------------------------------------------- route 1: walk back to a boundary

  /** `str::is_char_boundary`. */
  predicate IsCharBoundary(bytes: seq<Byte>, i: nat)
  {
    i == 0 || i == |bytes| || (i < |bytes| && !IsContinuation(bytes[i]))
  }

  /** Below `width`, the nearest boundary is where the longest fitting prefix ends. */
  lemma WalkStops(text: Text, width: nat, i: nat)
    requires |Encode(text)| > width && Offset(text, Fit(text, width)) <= i <= width
    ensures IsCharBoundary(Encode(text), i) <==> i == Offset(text, Fit(text, width))
  {
    var k := Fit(text, width);
    FitIsLongest(text, width);
    assert text[..|text|] == text;
    OffsetIsBoundary(text, k);
    if IsCharBoundary(Encode(text), i) {
      var j := BoundaryIsOffset'(text, i);
      if j < k {
        OffsetsIncrease(text, j, k);
      }
    }
  }

  lemma BoundaryIsOffset'(text: Text, i: nat) returns (k: nat)
    requires i < |Encode(text)| && IsCharBoundary(Encode(text), i)
    ensures k <= |text| && Offset(text, k) == i
  {
    if i == 0 {
      k := 0;
      assert text[..0] == [];
    } else {
      k := BoundaryIsOffset(text, i);
    }
  }

  /** The truncation loop of the Rust `write_padded`. */
  method RustTake(text: Text, width: nat) returns (take: nat)
    ensures take <= width && take <= |Encode(text)| && Encode(text)[..take] == Encode(Truncate(text, width))
  {
    var bytes := Encode(text);
    if |bytes| > width {
      take := width;
      FitIsLongest(text, width);
      while take > 0 && !IsCharBoundary(bytes, take)
        invariant Offset(text, Fit(text, width)) <= take <= width
      {
        WalkStops(text, width, take);
        take := take - 1;
      }
      WalkStops(text, width, take);
    } else {
      take := |bytes|;
      FitAll(text, width);
    }
    PrefixBytes(text, Fit(text, width));
  }

  /** The truncation loop of the plain JavaScript `writePadded`; reading past the end gives no continuation byte. */
  method ScriptTake(text: Text, width: nat) returns (take: nat)
    ensures take <= width && take <= |Encode(text)| && Encode(text)[..take] == Encode(Truncate(text, width))
  {
    var encoded := Encode(text);
    take := if |encoded| < width then |encoded| else width;
    FitIsLongest(text, width);
    if |encoded| <= width {
      FitAll(text, width);
    }
    while take > 0 && take < |encoded| && IsContinuation(encoded[take])
      invariant Offset(text, Fit(text, width)) <= take <= width
      invariant |encoded| <= width ==> take == |encoded|
      invariant take <= |encoded|
    {
      WalkStops(text, width, take);
      take := take - 1;
    }
    if |encoded| > width {
      WalkStops(text, width, take);
    }
    PrefixBytes(text, Fit(text, width));
  }

  lemma PrefixBytes(text: Text, k: nat)
    requires k <= |text|
    ensures Offset(text, k) <= |Encode(text)|
    ensures Encode(text)[..Offset(text, k)] == Encode(text[..k])
  {
    assert text == text[..k] + text[k..];
    EncodeAppend(text[..k], text[k..]);
  }

  // ---------------------------------------------------------------- route 2: cut, decode leniently, encode again

  /** Python's `_write_padded`. */
  function PythonField(width: nat, text: Text): (bs: seq<Byte>)
  {
    var encoded := Encode(text);
    var kept := if |encoded| > width then Encode(DecodePatching(encoded[..width], [])) else encoded;
    kept + (if |kept| <= width then Zeros(width - |kept|) else [])
  }

  /** Decoding a raw cut and dropping the broken tail gives back exactly the whole characters before the cut. */
  lemma {:induction false} LenientCut(text: Text, width: nat)
    requires |Encode(text)| > width
    ensures DecodePatching(Encode(text)[..width], []) == Truncate(text, width)
  {
    var cut := Encode(text)[..width];
    var n := Width(text[0]);
    var rest := Encode(text[1..]);
    if n <= width {
      assert cut == EncodeScalar(text[0]) + rest[..width - n];
      StepOfEncoded(text[0], rest[..width - n]);
      assert cut[n..] == rest[..width - n];
      LenientCut(text[1..], width - n);
      TruncateStep(text, width);
    } else if width > 0 {
      assert cut == EncodeScalar(text[0])[..width];
      StepOfCutChar(text[0], width);
      assert cut[width..] == [];
    }
  }

  lemma PythonFieldAgrees(width: nat, text: Text)
    ensures PythonField(width, text) == FieldBytes(text, width)
  {
    FitIsLongest(text, width);
    if |Encode(text)| > width {
      LenientCut(text, width);
    } else {
      FitAll(text, width);
    }
  }

  // ---------------------------------------------------------------- route 3: write whole characters while they fit

  lemma WrittenGrows(text: Text, width: nat, i: nat, written: seq<Byte>)
    requires i < |text| && |written| + Width(text[i]) <= width
    ensures written + Encode(Truncate(text[i..], width - |written|))
            == written + EncodeScalar(text[i]) + Encode(Truncate(text[i + 1..], width - |written| - Width(text[i])))
  {
    TruncateStep(text[i..], width - |written|);
    assert text[i..][1..] == text[i + 1..];
  }

  /** `TextEncoder.encodeInto` on a destination of `width` bytes: the bytes it writes. */
  method EncodeInto(text: Text, width: nat) returns (written: seq<Byte>)
    ensures written == Encode(Truncate(text, width))
  {
    written := [];
    var i := 0;
    while i < |text| && |written| + Width(text[i]) <= width
      invariant i <= |text| && |written| <= width
      invariant Encode(Truncate(text, width)) == written + Encode(Truncate(text[i..], width - |written|))
    {
      WrittenGrows(text, width, i, written);
      written := written + EncodeScalar(text[i]);
      i := i + 1;
    }
  }
}
