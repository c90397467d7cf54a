/**
  Channel patterns: `*` stands for any substring. The SDKs run the same recursive matcher over bytes (Rust), code points
  (Python) and UTF-16 code units (JavaScript); all three are sequences of numbers here.
 */
module Glob {
  import opened Prelude
  import opened Utf8
  import opened Utf16

  const STAR := 42

  /** The recursive helper of every SDK. */
  predicate GlobMatch(p: seq<int>, c: seq<int>)
  {
    if p == [] then c == []
    else if p[0] == STAR then exists i | 0 <= i <= |c| :: GlobMatch(p[1..], c[i..])
    else c != [] && c[0] == p[0] && GlobMatch(p[1..], c[1..])
  }

  /** The wildcard is the asterisk. */
  lemma Wildcard()
    ensures STAR == '*' as int
  {
  }

  /** The helper of the JavaScript modules, with its loop over the candidate's suffixes. */
  method GlobMatchLoop(p: seq<int>, c: seq<int>) returns (r: bool)
    ensures r == GlobMatch(p, c)
    decreases |p|
  {
    if |p| == 0 {
      return |c| == 0;
    }
    if p[0] == STAR {
      for i := 0 to |c| + 1
        invariant forall k | 0 <= k < i :: !GlobMatch(p[1..], c[k..])
      {
        var found := GlobMatchLoop(p[1..], c[i..]);
        if found {
          return true;
        }
      }
      return false;
    }
    if |c| == 0 || c[0] != p[0] {
      return false;
    }
    r := GlobMatchLoop(p[1..], c[1..]);
  }

  // ---------------------------------------------------------------- what a pattern means

  function Stars(p: seq<int>): (n: nat)
  {
    if p == [] then 0 else (if p[0] == STAR then 1 else 0) + Stars(p[1..])
  }

  /** The pattern with its stars replaced, in order, by the given texts. */
  function Fill(p: seq<int>, gaps: seq<seq<int>>): (c: seq<int>)
    requires |gaps| == Stars(p)
  {
    if p == [] then []
    else if p[0] == STAR then gaps[0] + Fill(p[1..], gaps[1..])
    else [p[0]] + Fill(p[1..], gaps)
  }

  /** `c` is the pattern with some text at each star. */
  ghost predicate Denotes(p: seq<int>, c: seq<int>)
  {
    exists gaps: seq<seq<int>> | |gaps| == Stars(p) :: Fill(p, gaps) == c
  }

  lemma {:induction false} MatchGaps(p: seq<int>, c: seq<int>) returns (gaps: seq<seq<int>>)
    requires GlobMatch(p, c)
    ensures |gaps| == Stars(p) && Fill(p, gaps) == c
  {
    if p == [] {
      gaps := [];
    } else if p[0] == STAR {
      var i :| 0 <= i <= |c| && GlobMatch(p[1..], c[i..]);
      gaps := MatchGaps(p[1..], c[i..]);
      gaps := [c[..i]] + gaps;
    } else {
      gaps := MatchGaps(p[1..], c[1..]);
    }
  }

  lemma {:induction false} FillMatches(p: seq<int>, gaps: seq<seq<int>>)
    requires |gaps| == Stars(p)
    ensures GlobMatch(p, Fill(p, gaps))
  {
    if p != [] {
      var c := Fill(p, gaps);
      if p[0] == STAR {
        FillMatches(p[1..], gaps[1..]);
        assert c[|gaps[0]|..] == Fill(p[1..], gaps[1..]);
      } else {
        FillMatches(p[1..], gaps);
        assert c[1..] == Fill(p[1..], gaps);
      }
    }
  }

  /** A candidate matches exactly when it is the pattern with arbitrary text at each star. */
  lemma GlobMeaning(p: seq<int>, c: seq<int>)
    ensures GlobMatch(p, c) <==> Denotes(p, c)
  {
    if GlobMatch(p, c) {
      var gaps := MatchGaps(p, c);
    }
    if Denotes(p, c) {
      var gaps: seq<seq<int>> :| |gaps| == Stars(p) && Fill(p, gaps) == c;
      FillMatches(p, gaps);
    }
  }

  // ---------------------------------------------------------------- algebra

  /** A concatenated pattern matches exactly the concatenations of matches. */
  lemma {:induction false} GlobConcat(p: seq<int>, q: seq<int>, c: seq<int>)
    ensures GlobMatch(p + q, c) <==> exists k | 0 <= k <= |c| :: GlobMatch(p, c[..k]) && GlobMatch(q, c[k..])
  {
    if GlobMatch(p + q, c) {
      var k := SplitMatch(p, q, c);
    }
    if k :| 0 <= k <= |c| && GlobMatch(p, c[..k]) && GlobMatch(q, c[k..]) {
      JoinMatch(p, q, c[..k], c[k..]);
      assert c[..k] + c[k..] == c;
    }
  }

  lemma SplitStar(p: seq<int>, q: seq<int>, c: seq<int>, i: nat, k: nat)
    requires p != [] && p[0] == STAR && i <= |c| && k <= |c[i..]|
    requires GlobMatch(p[1..], c[i..][..k]) && GlobMatch(q, c[i..][k..])
    ensures GlobMatch(p, c[..i + k]) && GlobMatch(q, c[i + k..])
  {
    assert c[i..][..k] == c[..i + k][i..] && c[i..][k..] == c[i + k..];
  }

  lemma SplitLiteral(p: seq<int>, q: seq<int>, c: seq<int>, k: nat)
    requires p != [] && p[0] != STAR && c != [] && c[0] == p[0] && k <= |c[1..]|
    requires GlobMatch(p[1..], c[1..][..k]) && GlobMatch(q, c[1..][k..])
    ensures GlobMatch(p, c[..1 + k]) && GlobMatch(q, c[1 + k..])
  {
    assert c[1..][..k] == c[..1 + k][1..] && c[1..][k..] == c[1 + k..];
  }

  lemma StarMatch(p: seq<int>, q: seq<int>, c: seq<int>) returns (i: nat)
    requires p != [] && p[0] == STAR && GlobMatch(p + q, c)
    ensures i <= |c| && GlobMatch(p[1..] + q, c[i..])
  {
    assert (p + q)[1..] == p[1..] + q && (p + q)[0] == p[0];
    i :| 0 <= i <= |c| && GlobMatch((p + q)[1..], c[i..]);
  }

  lemma HeadMatch(p: seq<int>, q: seq<int>, c: seq<int>)
    requires p != [] && p[0] != STAR && GlobMatch(p + q, c)
    ensures c != [] && c[0] == p[0] && GlobMatch(p[1..] + q, c[1..])
  {
    assert (p + q)[1..] == p[1..] + q && (p + q)[0] == p[0];
  }

  lemma EmptyMatch(q: seq<int>, c: seq<int>)
    requires GlobMatch([] + q, c)
    ensures GlobMatch([], c[..0]) && GlobMatch(q, c[0..])
  {
    assert [] + q == q && c[..0] == [] && c[0..] == c;
  }

  lemma {:induction false} SplitMatch(p: seq<int>, q: seq<int>, c: seq<int>) returns (k: nat)
    requires GlobMatch(p + q, c)
    ensures k <= |c| && GlobMatch(p, c[..k]) && GlobMatch(q, c[k..])
    decreases |p|, 1
  {
    if p == [] {
      EmptyMatch(q, c);
      k := 0;
    } else if p[0] == STAR {
      k := SplitAfterStar(p, q, c);
    } else {
      k := SplitAfterLiteral(p, q, c);
    }
  }

  lemma {:induction false} SplitAfterStar(p: seq<int>, q: seq<int>, c: seq<int>) returns (k: nat)
    requires p != [] && p[0] == STAR && GlobMatch(p + q, c)
    ensures k <= |c| && GlobMatch(p, c[..k]) && GlobMatch(q, c[k..])
    decreases |p|, 0
  {
    var i := StarMatch(p, q, c);
    var j := SplitMatch(p[1..], q, c[i..]);
    SplitStar(p, q, c, i, j);
    k := i + j;
  }

  lemma {:induction false} SplitAfterLiteral(p: seq<int>, q: seq<int>, c: seq<int>) returns (k: nat)
    requires p != [] && p[0] != STAR && GlobMatch(p + q, c)
    ensures k <= |c| && GlobMatch(p, c[..k]) && GlobMatch(q, c[k..])
    decreases |p|, 0
  {
    HeadMatch(p, q, c);
    var j := SplitMatch(p[1..], q, c[1..]);
    SplitLiteral(p, q, c, j);
    k := 1 + j;
  }

  lemma {:induction false} JoinMatch(p: seq<int>, q: seq<int>, a: seq<int>, b: seq<int>)
    requires GlobMatch(p, a) && GlobMatch(q, b)
    ensures GlobMatch(p + q, a + b)
  {
    if p == [] {
      assert p + q == q && a + b == b;
    } else {
      assert (p + q)[1..] == p[1..] + q;
      if p[0] == STAR {
        var i :| 0 <= i <= |a| && GlobMatch(p[1..], a[i..]);
        JoinMatch(p[1..], q, a[i..], b);
        assert (a + b)[i..] == a[i..] + b;
      } else {
        JoinMatch(p[1..], q, a[1..], b);
        assert (a + b)[1..] == a[1..] + b;
      }
    }
  }

  /** Without stars a pattern matches only itself. */
  lemma {:induction false} LiteralMatch(p: seq<int>, c: seq<int>)
    requires STAR !in p
    ensures GlobMatch(p, c) <==> p == c
  {
    if p != [] {
      assert p[0] in p;
      assert p == [p[0]] + p[1..];
      if c != [] {
        LiteralMatch(p[1..], c[1..]);
        assert c == [c[0]] + c[1..];
      }
    }
  }

  /** `**` means `*`. */
  lemma DoubleStar(a: seq<int>, b: seq<int>, c: seq<int>)
    ensures GlobMatch(a + [STAR, STAR] + b, c) <==> GlobMatch(a + [STAR] + b, c)
  {
    forall d ensures GlobMatch([STAR, STAR] + b, d) <==> GlobMatch([STAR] + b, d) {
      StarTwice(b, d);
    }
    GlobConcat(a, [STAR, STAR] + b, c);
    GlobConcat(a, [STAR] + b, c);
    assert a + [STAR, STAR] + b == a + ([STAR, STAR] + b);
    assert a + [STAR] + b == a + ([STAR] + b);
  }

  lemma StarTwice(b: seq<int>, d: seq<int>)
    ensures GlobMatch([STAR, STAR] + b, d) <==> GlobMatch([STAR] + b, d)
  {
    assert ([STAR, STAR] + b)[1..] == [STAR] + b && ([STAR] + b)[1..] == b;
    if GlobMatch([STAR] + b, d) {
      assert d[0..] == d;
    }
    if GlobMatch([STAR, STAR] + b, d) {
      var i :| 0 <= i <= |d| && GlobMatch([STAR] + b, d[i..]);
      StarAbsorbs(b, d, i);
    }
  }

  lemma StarAbsorbs(b: seq<int>, d: seq<int>, i: nat)
    requires i <= |d| && GlobMatch([STAR] + b, d[i..])
    ensures GlobMatch([STAR] + b, d)
  {
    assert ([STAR] + b)[1..] == b;
    var j :| 0 <= j <= |d[i..]| && GlobMatch(b, d[i..][j..]);
    assert d[i..][j..] == d[i + j..];
  }

  // ---------------------------------------------------------------- one answer in every encoding

  type Encoding = Scalar -> seq<int>

  /**
    A self-synchronising encoding: the first unit of a character is never the later unit of one, no character's
    encoding is a prefix of another's, and the star is encoded as itself and nowhere else.
   */
  ghost predicate SelfSynchronising(enc: Encoding, trails: iset<int>)
  {
    && (forall c: Scalar :: enc(c) != [] && enc(c)[0] !in trails)
    && (forall c: Scalar, i | 1 <= i < |enc(c)| :: enc(c)[i] in trails)
    && (forall c: Scalar, d: Scalar :: enc(c) <= enc(d) ==> c == d)
    && enc(STAR) == [STAR]
    && (forall c: Scalar | c != STAR :: STAR !in enc(c))
  }

  function Encoded(enc: Encoding, text: seq<Scalar>): (units: seq<int>)
  {
    if text == [] then [] else enc(text[0]) + Encoded(enc, text[1..])
  }

  lemma {:induction false} EncodedSuffix(enc: Encoding, text: seq<Scalar>, k: nat) returns (i: nat)
    requires k <= |text|
    ensures i <= |Encoded(enc, text)| && Encoded(enc, text)[i..] == Encoded(enc, text[k..])
  {
    if k == 0 {
      i := 0;
      assert text[0..] == text;
    } else {
      i := EncodedSuffix(enc, text[1..], k - 1);
      assert text[1..][k - 1..] == text[k..];
      assert Encoded(enc, text)[|enc(text[0])| + i..] == Encoded(enc, text[1..])[i..];
      i := |enc(text[0])| + i;
    }
  }

  /** An offset into encoded text is the start of a character, or a later unit of one stands there. */
  lemma {:induction false} OffsetKind(enc: Encoding, trails: iset<int>, text: seq<Scalar>, i: nat) returns (k: nat)
    requires SelfSynchronising(enc, trails) && i <= |Encoded(enc, text)|
    ensures k <= |text|
    ensures Encoded(enc, text)[i..] == Encoded(enc, text[k..])
         || (i < |Encoded(enc, text)| && Encoded(enc, text)[i] in trails)
  {
    if i == 0 {
      k := 0;
      assert text[0..] == text;
    } else {
      var n := |enc(text[0])|;
      if i < n {
        k := 0;
      } else {
        k := OffsetKind(enc, trails, text[1..], i - n);
        assert Encoded(enc, text)[i..] == Encoded(enc, text[1..])[i - n..];
        assert text[1..][k..] == text[k + 1..];
        k := k + 1;
      }
    }
  }

  lemma {:induction false} LiteralPrefix(l: seq<int>, r: seq<int>, c: seq<int>)
    requires STAR !in l
    ensures GlobMatch(l + r, c) <==> l <= c && GlobMatch(r, c[|l|..])
  {
    if l == [] {
      assert l + r == r && c[0..] == c;
    } else {
      assert l[0] in l;
      assert (l + r)[1..] == l[1..] + r;
      if c != [] && c[0] == l[0] {
        LiteralPrefix(l[1..], r, c[1..]);
        assert l == [l[0]] + l[1..] && c == [c[0]] + c[1..];
        assert l[1..] <= c[1..] <==> l <= c;
        if l <= c {
          assert c[1..][|l[1..]|..] == c[|l|..];
        }
      }
    }
  }

  /** Matching the encoded pattern against the encoded candidate is matching the texts. */
  lemma {:induction false} SameInEveryEncoding(enc: Encoding, trails: iset<int>, p: seq<Scalar>, c: seq<Scalar>)
    requires SelfSynchronising(enc, trails)
    ensures GlobMatch(Encoded(enc, p), Encoded(enc, c)) <==> GlobMatch(p, c)
    decreases |p|, |c|
  {
    if p == [] {
      assert c != [] ==> enc(c[0]) != [];
    } else if p[0] == STAR {
      assert Encoded(enc, p)[1..] == Encoded(enc, p[1..]);
      if GlobMatch(p, c) {
        var k :| 0 <= k <= |c| && GlobMatch(p[1..], c[k..]);
        SameInEveryEncoding(enc, trails, p[1..], c[k..]);
        var i := EncodedSuffix(enc, c, k);
      }
      if GlobMatch(Encoded(enc, p), Encoded(enc, c)) {
        var i :| 0 <= i <= |Encoded(enc, c)| && GlobMatch(Encoded(enc, p[1..]), Encoded(enc, c)[i..]);
        var k := AlignedMatch(enc, trails, p[1..], c, i);
        SameInEveryEncoding(enc, trails, p[1..], c[k..]);
      }
    } else {
      LiteralPrefix(enc(p[0]), Encoded(enc, p[1..]), Encoded(enc, c));
      if c != [] {
        SameInEveryEncoding(enc, trails, p[1..], c[1..]);
        FirstCharacter(enc, trails, p[0], c);
      }
    }
  }

  /** A literal character at the front of encoded text is that text's first character. */
  lemma FirstCharacter(enc: Encoding, trails: iset<int>, x: Scalar, c: seq<Scalar>)
    requires SelfSynchronising(enc, trails) && c != []
    ensures enc(x) <= Encoded(enc, c) <==> x == c[0]
    ensures Encoded(enc, c)[|enc(c[0])|..] == Encoded(enc, c[1..])
  {
    var e := Encoded(enc, c);
    assert e[..|enc(c[0])|] == enc(c[0]);
    if enc(x) <= e {
      Comparable(enc(x), enc(c[0]), e);
    }
  }

  /** A match that starts inside a character can be moved to the start of one. */
  lemma AlignedMatch(enc: Encoding, trails: iset<int>, p: seq<Scalar>, c: seq<Scalar>, i: nat) returns (k: nat)
    requires SelfSynchronising(enc, trails)
    requires i <= |Encoded(enc, c)| && GlobMatch(Encoded(enc, p), Encoded(enc, c)[i..])
    ensures k <= |c| && GlobMatch(Encoded(enc, p), Encoded(enc, c[k..]))
  {
    k := OffsetKind(enc, trails, c, i);
    var e := Encoded(enc, c);
    if e[i..] != Encoded(enc, c[k..]) {
      OnlyStarMatchesTrail(enc, trails, p, e[i..]);
      assert Encoded(enc, p) == [STAR] + Encoded(enc, p[1..]);
      StarAbsorbs(Encoded(enc, p[1..]), e, i);
      k := 0;
      assert c[0..] == c;
    }
  }

  /** A pattern that matches text starting inside a character starts with a star. */
  lemma OnlyStarMatchesTrail(enc: Encoding, trails: iset<int>, p: seq<Scalar>, d: seq<int>)
    requires SelfSynchronising(enc, trails) && d != [] && d[0] in trails && GlobMatch(Encoded(enc, p), d)
    ensures p != [] && p[0] == STAR
  {
    if p != [] {
      assert Encoded(enc, p)[0] == enc(p[0])[0] && enc(p[0])[0] in enc(p[0]);
    }
  }

  // ---------------------------------------------------------------- UTF-8 and UTF-16

  function Bytes(c: Scalar): (units: seq<int>)
  {
    EncodeScalar(c)
  }

  function Units(c: Scalar): (units: seq<int>)
  {
    UnitsOf(c)
  }

  ghost const CONTINUATIONS := iset b: int | 0x80 <= b < 0xC0
  ghost const LOW_SURROGATES := iset u: int | 0xDC00 <= u < 0xE000

  lemma Utf8Synchronises()
    ensures SelfSynchronising(Bytes, CONTINUATIONS)
  {
    forall c: Scalar ensures !(0x80 <= EncodeScalar(c)[0] < 0xC0) {
      ContinuationWithin(c, 0);
    }
    forall c: Scalar, i | 1 <= i < |EncodeScalar(c)| ensures 0x80 <= EncodeScalar(c)[i] < 0xC0 {
      ContinuationWithin(c, i);
    }
    forall c: Scalar, d: Scalar | EncodeScalar(c) <= EncodeScalar(d) ensures c == d {
      EncodingIsPrefixFree(c, d);
    }
  }

  lemma EncodingIsPrefixFree(c: Scalar, d: Scalar)
    requires EncodeScalar(c) <= EncodeScalar(d)
    ensures c == d
  {
    var rest := EncodeScalar(d)[|EncodeScalar(c)|..];
    assert EncodeScalar(d) == EncodeScalar(c) + rest && EncodeScalar(d) == EncodeScalar(d) + [];
    StepOfEncoded(c, rest);
    StepOfEncoded(d, []);
  }

  lemma Utf16Synchronises()
    ensures SelfSynchronising(Units, LOW_SURROGATES)
  {
    forall c: Scalar, d: Scalar | UnitsOf(c) <= UnitsOf(d) ensures c == d {
      if c >= 0x10000 {
        PairInverse(c);
      }
      if d >= 0x10000 {
        PairInverse(d);
      }
    }
  }

  lemma {:induction false} EncodedIsUtf8(text: seq<Scalar>)
    ensures Encoded(Bytes, text) == Encode(text)
  {
    if text != [] {
      EncodedIsUtf8(text[1..]);
    }
  }

  lemma {:induction false} EncodedIsUtf16(text: seq<Scalar>)
    ensures Encoded(Units, text) == FromScalars(text)
  {
    if text != [] {
      EncodedIsUtf16(text[1..]);
    }
  }

  /**
    The Rust matcher on UTF-8 bytes, the Python matcher on code points and the JavaScript matcher on UTF-16 units
    answer alike for every pattern and candidate.
   */
  lemma MatchersAgree(p: seq<Scalar>, c: seq<Scalar>)
    ensures GlobMatch(Encode(p), Encode(c)) <==> GlobMatch(p, c)
    ensures GlobMatch(FromScalars(p), FromScalars(c)) <==> GlobMatch(p, c)
  {
    Utf8Synchronises();
    EncodedIsUtf8(p);
    EncodedIsUtf8(c);
    SameInEveryEncoding(Bytes, CONTINUATIONS, p, c);
    Utf16Synchronises();
    EncodedIsUtf16(p);
    EncodedIsUtf16(c);
    SameInEveryEncoding(Units, LOW_SURROGATES, p, c);
  }
}
