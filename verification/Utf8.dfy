/**
  UTF-8 (section 3 of RFC 3629) as the string types and text codecs of the four languages implement it: the encoder,
  one decoder step, and the three ways the sources decode - strictly, dropping ill-formed bytes, and replacing them.
 */
module Utf8 {
  import opened Prelude

  type Scalar = c: int | 0 <= c < 0xD800 || 0xE000 <= c < 0x110000

  const REPLACEMENT: Scalar := 0xFFFD
  const BOM: Scalar := 0xFEFF

  /** The replacement character and the byte-order mark. */
  lemma Specials()
    ensures REPLACEMENT == 0xFFFD && BOM == 0xFEFF
  {
  }

  function Width(c: Scalar): (n: nat)
    ensures 1 <= n <= 4
  {
    if c < 0x80 then 1 else if c < 0x800 then 2 else if c < 0x10000 then 3 else 4
  }

  function EncodeScalar(c: Scalar): (bs: seq<Byte>)
    ensures |bs| == Width(c)
  {
    if c < 0x80 then [c]
    else if c < 0x800 then [0xC0 + c / 64, 0x80 + c % 64]
    else if c < 0x10000 then [0xE0 + c / 4096, 0x80 + c / 64 % 64, 0x80 + c % 64]
    else [0xF0 + c / 262144, 0x80 + c / 4096 % 64, 0x80 + c / 64 % 64, 0x80 + c % 64]
  }

  function Encode(text: seq<Scalar>): (bs: seq<Byte>)
  {
    if text == [] then [] else EncodeScalar(text[0]) + Encode(text[1..])
  }

  // ---------------------------------------------------------------- decoding

  predicate IsContinuation(b: Byte)
  {
    0x80 <= b < 0xC0
  }

  /** Result of reading the front of a byte string: one scalar, or the length of an ill-formed run. */
  datatype Step = Char(c: Scalar, n: nat) | Bad(n: nat)

  /** Smallest and one past the largest second byte allowed after the lead byte `b`. */
  function SecondByteRange(b: Byte): (r: (int, int))
  {
    if b == 0xE0 then (0xA0, 0xC0)
    else if b == 0xED then (0x80, 0xA0)
    else if b == 0xF0 then (0x90, 0xC0)
    else if b == 0xF4 then (0x80, 0x90)
    else (0x80, 0xC0)
  }

  predicate SecondByteFits(s: seq<Byte>)
    requires |s| >= 1
  {
    |s| >= 2 && SecondByteRange(s[0]).0 <= s[1] < SecondByteRange(s[0]).1
  }

  predicate ContinuationAt(s: seq<Byte>, i: nat)
  {
    i < |s| && IsContinuation(s[i])
  }

  // The scalar denoted by the bytes of a two-, three- and four-byte sequence.

  function Join2(b0: int, b1: int): (c: int)
  {
    (b0 - 0xC0) * 64 + (b1 - 0x80)
  }

  function Join3(b0: int, b1: int, b2: int): (c: int)
  {
    (b0 - 0xE0) * 4096 + (b1 - 0x80) * 64 + (b2 - 0x80)
  }

  function Join4(b0: int, b1: int, b2: int, b3: int): (c: int)
  {
    (b0 - 0xF0) * 262144 + (b1 - 0x80) * 4096 + (b2 - 0x80) * 64 + (b3 - 0x80)
  }

  /** Reads the front of `s`; an ill-formed run is the longest prefix of some encoded scalar, or a single byte. */
  function DecodeStep(s: seq<Byte>): (r: Step)
    requires s != []
    ensures 1 <= r.n <= |s|
  {
    var b := s[0];
    if b < 0x80 then Char(b, 1)
    else if 0xC2 <= b < 0xE0 then
      if !SecondByteFits(s) then Bad(1)
      else Char(Join2(b, s[1]), 2)
    else if 0xE0 <= b < 0xF0 then
      if !SecondByteFits(s) then Bad(1)
      else if !ContinuationAt(s, 2) then Bad(2)
      else Char(Join3(b, s[1], s[2]), 3)
    else if 0xF0 <= b < 0xF5 then
      if !SecondByteFits(s) then Bad(1)
      else if !ContinuationAt(s, 2) then Bad(2)
      else if !ContinuationAt(s, 3) then Bad(3)
      else Char(Join4(b, s[1], s[2], s[3]), 4)
    else Bad(1)
  }

  /** Strict decoding: fails on the first ill-formed byte. */
  function DecodeStrict(s: seq<Byte>): (r: Option<seq<Scalar>>)
    decreases |s|
  {
    if s == [] then Some([])
    else
      match DecodeStep(s)
      case Bad(_) => None
      case Char(c, n) =>
        match DecodeStrict(s[n..])
        case None => None
        case Some(rest) => Some([c] + rest)
  }

  predicate IsValid(s: seq<Byte>)
  {
    DecodeStrict(s).Some?
  }

  /** Tolerant decoding: every ill-formed run becomes `patch`. */
  function DecodePatching(s: seq<Byte>, patch: seq<Scalar>): (text: seq<Scalar>)
    decreases |s|
  {
    if s == [] then []
    else
      match DecodeStep(s)
      case Bad(n) => patch + DecodePatching(s[n..], patch)
      case Char(c, n) => [c] + DecodePatching(s[n..], patch)
  }

  // ---------------------------------------------------------------- encoder and decoder are inverse

  lemma StepOfEncoded(c: Scalar, rest: seq<Byte>)
    ensures DecodeStep(EncodeScalar(c) + rest) == Char(c, Width(c))
  {
    var e := EncodeScalar(c);
    var s := e + rest;
    assert forall i | 0 <= i < |e| :: s[i] == e[i];
    if 0x80 <= c < 0x800 {
      SplitJoin2(c);
    } else if 0x800 <= c < 0x10000 {
      SplitJoin3(c, e[0], e[1], e[2]);
    } else if 0x10000 <= c {
      SplitJoin4(c, e[0], e[1], e[2], e[3]);
    }
  }

  lemma SplitJoin2(c: int)
    requires 0x80 <= c < 0x800
    ensures 0xC2 <= 0xC0 + c / 64 < 0xE0 && Join2(0xC0 + c / 64, 0x80 + c % 64) == c
  {
  }

  lemma SplitJoin3(c: Scalar, b0: Byte, b1: Byte, b2: Byte)
    requires 0x800 <= c < 0x10000
    requires b0 == 0xE0 + c / 4096 && b1 == 0x80 + c / 64 % 64 && b2 == 0x80 + c % 64
    ensures 0xE0 <= b0 < 0xF0 && SecondByteRange(b0).0 <= b1 < SecondByteRange(b0).1 && IsContinuation(b2)
    ensures Join3(b0, b1, b2) == c
  {
    assert c / 4096 == c / 64 / 64;
  }

  lemma SplitJoin4(c: Scalar, b0: Byte, b1: Byte, b2: Byte, b3: Byte)
    requires 0x10000 <= c
    requires b0 == 0xF0 + c / 262144 && b1 == 0x80 + c / 4096 % 64 && b2 == 0x80 + c / 64 % 64 && b3 == 0x80 + c % 64
    ensures 0xF0 <= b0 < 0xF5 && SecondByteRange(b0).0 <= b1 < SecondByteRange(b0).1
    ensures IsContinuation(b2) && IsContinuation(b3)
    ensures Join4(b0, b1, b2, b3) == c
  {
    assert c / 4096 == c / 64 / 64 && c / 262144 == c / 4096 / 64;
  }

  lemma EncodedOfStep(s: seq<Byte>)
    requires s != [] && DecodeStep(s).Char?
    ensures var Char(c, n) := DecodeStep(s); n == Width(c) && s[..n] == EncodeScalar(c)
  {
    var b := s[0];
    if b < 0x80 {
      assert s[..1] == [b];
    } else if b < 0xE0 {
      TwoBytes(s);
    } else if b < 0xF0 {
      ThreeBytes(s);
    } else {
      FourBytes(s);
    }
  }

  lemma TwoBytes(s: seq<Byte>)
    requires |s| >= 2 && 0xC2 <= s[0] < 0xE0 && IsContinuation(s[1])
    ensures var c := Join2(s[0], s[1]); 0x80 <= c < 0x800 && s[..2] == EncodeScalar(c)
  {
    JoinSplit2(s[0], s[1]);
    assert s[..2] == [s[0], s[1]];
  }

  lemma ThreeBytes(s: seq<Byte>)
    requires |s| >= 3 && 0xE0 <= s[0] < 0xF0 && SecondByteFits(s) && IsContinuation(s[2])
    ensures var c := Join3(s[0], s[1], s[2]);
            0x800 <= c < 0x10000 && !(0xD800 <= c < 0xE000) && s[..3] == EncodeScalar(c)
  {
    JoinSplit3(s[0], s[1], s[2]);
    assert s[..3] == [s[0], s[1], s[2]];
  }

  lemma FourBytes(s: seq<Byte>)
    requires |s| >= 4 && 0xF0 <= s[0] < 0xF5 && SecondByteFits(s) && IsContinuation(s[2]) && IsContinuation(s[3])
    ensures var c := Join4(s[0], s[1], s[2], s[3]); 0x10000 <= c < 0x110000 && s[..4] == EncodeScalar(c)
  {
    JoinSplit4(s[0], s[1], s[2], s[3]);
    assert s[..4] == [s[0], s[1], s[2], s[3]];
  }

  lemma JoinSplit2(b0: Byte, b1: Byte)
    requires 0xC2 <= b0 < 0xE0 && IsContinuation(b1)
    ensures var c := Join2(b0, b1); 0x80 <= c < 0x800 && b0 == 0xC0 + c / 64 && b1 == 0x80 + c % 64
  {
  }

  lemma JoinSplit3(b0: Byte, b1: Byte, b2: Byte)
    requires 0xE0 <= b0 < 0xF0 && SecondByteRange(b0).0 <= b1 < SecondByteRange(b0).1 && IsContinuation(b2)
    ensures var c := Join3(b0, b1, b2);
            0x800 <= c < 0x10000 && b0 == 0xE0 + c / 4096 && b1 == 0x80 + c / 64 % 64 && b2 == 0x80 + c % 64
  {
    var c := Join3(b0, b1, b2);
    assert c / 64 == (b0 - 0xE0) * 64 + (b1 - 0x80);
    assert c / 4096 == c / 64 / 64;
  }

  lemma JoinSplit4(b0: Byte, b1: Byte, b2: Byte, b3: Byte)
    requires 0xF0 <= b0 < 0xF5 && SecondByteRange(b0).0 <= b1 < SecondByteRange(b0).1
    requires IsContinuation(b2) && IsContinuation(b3)
    ensures var c := Join4(b0, b1, b2, b3);
            0x10000 <= c < 0x110000 && b0 == 0xF0 + c / 262144 && b1 == 0x80 + c / 4096 % 64
            && b2 == 0x80 + c / 64 % 64 && b3 == 0x80 + c % 64
  {
    var c := Join4(b0, b1, b2, b3);
    assert c / 64 == (b0 - 0xF0) * 4096 + (b1 - 0x80) * 64 + (b2 - 0x80);
    assert c / 4096 == c / 64 / 64 == (b0 - 0xF0) * 64 + (b1 - 0x80);
    assert c / 262144 == c / 4096 / 64;
  }

  lemma {:induction false} DecodeEncoded(text: seq<Scalar>)
    ensures DecodeStrict(Encode(text)) == Some(text)
  {
    if text != [] {
      var rest := Encode(text[1..]);
      StepOfEncoded(text[0], rest);
      assert (EncodeScalar(text[0]) + rest)[Width(text[0])..] == rest;
      DecodeEncoded(text[1..]);
      assert text == [text[0]] + text[1..];
    }
  }

  lemma {:induction false} EncodeDecoded(s: seq<Byte>)
    requires IsValid(s)
    ensures Encode(DecodeStrict(s).value) == s
    decreases |s|
  {
    if s != [] {
      var step := DecodeStep(s);
      EncodeDecoded(s[step.n..]);
      Rebuild(s, DecodeStrict(s[step.n..]).value);
    }
  }

  lemma Rebuild(s: seq<Byte>, rest: seq<Scalar>)
    requires s != [] && DecodeStep(s).Char? && Encode(rest) == s[DecodeStep(s).n..]
    ensures Encode([DecodeStep(s).c] + rest) == s
  {
    EncodedOfStep(s);
    EncodeCons(DecodeStep(s).c, rest);
    assert s == s[..DecodeStep(s).n] + s[DecodeStep(s).n..];
  }

  lemma EncodeCons(c: Scalar, rest: seq<Scalar>)
    ensures Encode([c] + rest) == EncodeScalar(c) + Encode(rest)
  {
    assert ([c] + rest)[1..] == rest;
  }

  lemma EncodeInjective(a: seq<Scalar>, b: seq<Scalar>)
    requires Encode(a) == Encode(b)
    ensures a == b
  {
    DecodeEncoded(a);
    DecodeEncoded(b);
  }

  /** On well-formed input the tolerant decoders agree with the strict one. */
  lemma {:induction false} PatchingEncoded(text: seq<Scalar>, patch: seq<Scalar>)
    ensures DecodePatching(Encode(text), patch) == text
  {
    if text != [] {
      var rest := Encode(text[1..]);
      StepOfEncoded(text[0], rest);
      assert (EncodeScalar(text[0]) + rest)[Width(text[0])..] == rest;
      PatchingEncoded(text[1..], patch);
    }
  }

  // ---------------------------------------------------------------- the standard, without the formulas

  /** The byte sequences of one character, by the grammar of section 4 of RFC 3629. */
  predicate IsUtf8Char(bs: seq<Byte>)
  {
    || (|bs| == 1 && bs[0] <= 0x7F)
    || (|bs| == 2 && 0xC2 <= bs[0] <= 0xDF && IsContinuation(bs[1]))
    || (|bs| == 3 && IsContinuation(bs[1]) && IsContinuation(bs[2])
        && ((bs[0] == 0xE0 && 0xA0 <= bs[1]) || 0xE1 <= bs[0] <= 0xEC || (bs[0] == 0xED && bs[1] <= 0x9F) || 0xEE <= bs[0] <= 0xEF))
    || (|bs| == 4 && IsContinuation(bs[1]) && IsContinuation(bs[2]) && IsContinuation(bs[3])
        && ((bs[0] == 0xF0 && 0x90 <= bs[1]) || 0xF1 <= bs[0] <= 0xF3 || (bs[0] == 0xF4 && bs[1] <= 0x8F)))
  }

  /** Lexicographic order on bytes. */
  predicate Before(a: seq<Byte>, b: seq<Byte>)
  {
    b != [] && (a == [] || a[0] < b[0] || (a[0] == b[0] && Before(a[1..], b[1..])))
  }

  /** A continuation byte is one from 80 to BF. */
  lemma ContinuationBytes(b: Byte)
    ensures IsContinuation(b) <==> 0x80 <= b <= 0xBF
  {
  }

  /** Exactly the byte sequences of the grammar are encodings of a character. */
  lemma EncodingsAreTheGrammar(bs: seq<Byte>)
    ensures IsUtf8Char(bs) <==> exists c: Scalar :: EncodeScalar(c) == bs
  {
    if IsUtf8Char(bs) {
      assert DecodeStep(bs).Char? && DecodeStep(bs).n == |bs|;
      EncodedOfStep(bs);
      assert bs[..|bs|] == bs;
    }
    if c: Scalar :| EncodeScalar(c) == bs {
      StepOfEncoded(c, []);
      assert bs + [] == bs;
      SecondBytes(bs);
    }
  }

  lemma SecondBytes(bs: seq<Byte>)
    requires bs != [] && DecodeStep(bs).Char? && DecodeStep(bs).n == |bs|
    ensures IsUtf8Char(bs)
  {
  }

  /** And they are assigned in order: a greater character has a greater encoding. */
  lemma EncodingsAreOrdered(c: Scalar, d: Scalar)
    requires c < d
    ensures Before(EncodeScalar(c), EncodeScalar(d))
  {
    var a, b := EncodeScalar(c), EncodeScalar(d);
    if d < 0x80 || Width(c) < Width(d) {
      FirstByteGrows(c, d);
    } else if d < 0x800 {
      assert c / 64 < d / 64 || (c / 64 == d / 64 && c % 64 < d % 64);
      BeforeAt(a, b, if c / 64 < d / 64 then 0 else 1);
    } else if d < 0x10000 {
      ThreeDigits(c, d);
      BeforeAt(a, b, if c / 4096 < d / 4096 then 0 else if c / 64 % 64 < d / 64 % 64 then 1 else 2);
    } else {
      FourDigits(c, d);
      BeforeAt(a, b, if c / 262144 < d / 262144 then 0 else if c / 4096 % 64 < d / 4096 % 64 then 1
                     else if c / 64 % 64 < d / 64 % 64 then 2 else 3);
    }
  }

  lemma FirstByteGrows(c: Scalar, d: Scalar)
    requires c < d && (d < 0x80 || Width(c) < Width(d))
    ensures EncodeScalar(c)[0] < EncodeScalar(d)[0]
  {
  }

  lemma {:induction false} BeforeAt(a: seq<Byte>, b: seq<Byte>, i: nat)
    requires i < |a| && i < |b| && a[i] < b[i] && forall k | 0 <= k < i :: a[k] == b[k]
    ensures Before(a, b)
  {
    if i > 0 {
      BeforeAt(a[1..], b[1..], i - 1);
    }
  }

  /** Comparing numbers digit by digit in base 64. */
  lemma ThreeDigits(c: int, d: int)
    requires 0 <= c < d
    ensures c / 4096 < d / 4096
         || (c / 4096 == d / 4096 && (c / 64 % 64 < d / 64 % 64 || (c / 64 % 64 == d / 64 % 64 && c % 64 < d % 64)))
  {
    assert c / 4096 == c / 64 / 64 && d / 4096 == d / 64 / 64;
    assert c / 64 < d / 64 || (c / 64 == d / 64 && c % 64 < d % 64);
  }

  lemma FourDigits(c: int, d: int)
    requires 0 <= c < d
    ensures c / 262144 < d / 262144
         || (c / 262144 == d / 262144
             && (c / 4096 % 64 < d / 4096 % 64
                 || (c / 4096 % 64 == d / 4096 % 64
                     && (c / 64 % 64 < d / 64 % 64 || (c / 64 % 64 == d / 64 % 64 && c % 64 < d % 64)))))
  {
    assert c / 262144 == c / 4096 / 64 && d / 262144 == d / 4096 / 64;
    ThreeDigits(c, d);
  }

  /** These bytes begin some character. */
  ghost predicate BeginsChar(bs: seq<Byte>)
  {
    exists c: Scalar :: bs <= EncodeScalar(c)
  }

  /**
    One decoder step: a character if the text starts with its encoding; otherwise the ill-formed run is the longest
    beginning of a character there, or one byte if there is none.
   */
  lemma StepExactly(s: seq<Byte>)
    requires s != []
    ensures forall c: Scalar :: DecodeStep(s) == Char(c, Width(c)) <==> EncodeScalar(c) <= s
    ensures DecodeStep(s).Bad? ==>
              var n := DecodeStep(s).n;
              (n == 1 || BeginsChar(s[..n])) && forall m | n < m <= |s| :: !BeginsChar(s[..m])
  {
    forall c: Scalar ensures DecodeStep(s) == Char(c, Width(c)) <==> EncodeScalar(c) <= s {
      CharExactly(s, c);
    }
    if DecodeStep(s).Bad? {
      var n := DecodeStep(s).n;
      if n > 1 {
        RunBegins(s);
      }
      forall m | n < m <= |s| ensures !BeginsChar(s[..m]) {
        RunIsLongest(s, m);
      }
    }
  }

  lemma CharExactly(s: seq<Byte>, c: Scalar)
    requires s != []
    ensures DecodeStep(s) == Char(c, Width(c)) <==> EncodeScalar(c) <= s
  {
    if DecodeStep(s) == Char(c, Width(c)) {
      EncodedOfStep(s);
    }
    if EncodeScalar(c) <= s {
      StepOfEncoded(c, s[Width(c)..]);
      assert s == EncodeScalar(c) + s[Width(c)..];
    }
  }

  lemma RunBegins(s: seq<Byte>)
    requires s != [] && DecodeStep(s).Bad? && DecodeStep(s).n > 1
    ensures BeginsChar(s[..DecodeStep(s).n])
  {
    var n := DecodeStep(s).n;
    if s[0] < 0xF0 {
      JoinSplit3(s[0], s[1], 0x80);
      var c: Scalar := Join3(s[0], s[1], 0x80);
      assert EncodeScalar(c) == [s[0], s[1], 0x80];
      assert s[..n] <= EncodeScalar(c);
    } else {
      var b2: Byte := if n == 2 then 0x80 else s[2];
      JoinSplit4(s[0], s[1], b2, 0x80);
      var c: Scalar := Join4(s[0], s[1], b2, 0x80);
      assert EncodeScalar(c) == [s[0], s[1], b2, 0x80];
      assert s[..n] <= EncodeScalar(c);
    }
  }

  lemma RunIsLongest(s: seq<Byte>, m: nat)
    requires s != [] && DecodeStep(s).Bad? && DecodeStep(s).n < m <= |s|
    ensures !BeginsChar(s[..m])
  {
    if c: Scalar :| s[..m] <= EncodeScalar(c) {
      if m == Width(c) {
        assert EncodeScalar(c) == s[..m];
        CharExactly(s, c);
      } else {
        StepOfCutChar(c, m);
        assert EncodeScalar(c)[..m] == s[..m];
        MoreBytes(s, m);
      }
    }
  }

  /** With more bytes to see, an ill-formed run does not get shorter. */
  lemma MoreBytes(s: seq<Byte>, m: nat)
    requires 0 < m <= |s| && DecodeStep(s[..m]) == Bad(m)
    ensures DecodeStep(s).n >= m
  {
  }

  lemma {:induction false} CharsAreKept(text: seq<Scalar>, tail: seq<Byte>, patch: seq<Scalar>)
    ensures DecodePatching(Encode(text) + tail, patch) == text + DecodePatching(tail, patch)
  {
    if text == [] {
      assert Encode(text) + tail == tail;
    } else {
      CharsAreKept(text[1..], tail, patch);
      OneCharIsKept(text[0], Encode(text[1..]) + tail, patch);
      Associate(EncodeScalar(text[0]), Encode(text[1..]), tail);
      assert text == [text[0]] + text[1..];
      Associate([text[0]], text[1..], DecodePatching(tail, patch));
    }
  }

  lemma OneCharIsKept(c: Scalar, more: seq<Byte>, patch: seq<Scalar>)
    ensures DecodePatching(EncodeScalar(c) + more, patch) == [c] + DecodePatching(more, patch)
  {
    StepOfEncoded(c, more);
    assert (EncodeScalar(c) + more)[Width(c)..] == more;
  }

  /** Tolerant decoding puts one `patch` for each ill-formed run and keeps the text around it. */
  lemma RunsArePatched(text: seq<Scalar>, run: seq<Byte>, rest: seq<Byte>, patch: seq<Scalar>)
    requires run != [] && DecodeStep(run + rest) == Bad(|run|)
    ensures DecodePatching(Encode(text) + (run + rest), patch) == text + (patch + DecodePatching(rest, patch))
  {
    CharsAreKept(text, run + rest, patch);
    assert (run + rest)[|run|..] == rest;
  }

  // ---------------------------------------------------------------- structure of encoded text

  lemma {:induction false} EncodeAppend(xs: seq<Scalar>, ys: seq<Scalar>)
    ensures Encode(xs + ys) == Encode(xs) + Encode(ys)
  {
    if xs == [] {
      assert xs + ys == ys;
    } else {
      assert (xs + ys)[1..] == xs[1..] + ys;
      EncodeAppend(xs[1..], ys);
    }
  }

  /** Only the first byte of a character is not a continuation byte. */
  lemma ContinuationWithin(c: Scalar, i: nat)
    requires i < Width(c)
    ensures IsContinuation(EncodeScalar(c)[i]) <==> i > 0
  {
  }

  /** A proper non-empty prefix of a character is one ill-formed run. */
  lemma StepOfCutChar(c: Scalar, k: nat)
    requires 0 < k < Width(c)
    ensures DecodeStep(EncodeScalar(c)[..k]) == Bad(k)
  {
  }

  /** Byte zero occurs only as the encoding of U+0000. */
  lemma ZeroWithin(c: Scalar, i: nat)
    requires i < Width(c)
    ensures EncodeScalar(c)[i] == 0 <==> c == 0
  {
  }
}
