/**
  JavaScript strings: sequences of UTF-16 code units, in which a surrogate need not have its partner. The platform's
  `TextEncoder` reads such a string as scalars, taking U+FFFD for every unpaired surrogate.
 */
module Utf16 {
  import opened Utf8

  type Unit = u: int | 0 <= u < 0x10000
  type JsString = seq<Unit>

  predicate IsHigh(u: Unit)
  {
    0xD800 <= u < 0xDC00
  }

  predicate IsLow(u: Unit)
  {
    0xDC00 <= u < 0xE000
  }

  predicate StartsWithPair(s: JsString)
  {
    |s| >= 2 && IsHigh(s[0]) && IsLow(s[1])
  }

  function Pair(hi: Unit, lo: Unit): (c: Scalar)
    requires IsHigh(hi) && IsLow(lo)
    ensures c >= 0x10000
  {
    0x10000 + (hi - 0xD800) * 1024 + (lo - 0xDC00)
  }

  /** The scalar a unit stands for on its own. */
  function Alone(u: Unit): (c: Scalar)
    ensures c < 0x10000
  {
    if IsHigh(u) || IsLow(u) then REPLACEMENT else u
  }

  function ToScalars(s: JsString): (text: seq<Scalar>)
  {
    if s == [] then []
    else if StartsWithPair(s) then [Pair(s[0], s[1])] + ToScalars(s[2..])
    else [Alone(s[0])] + ToScalars(s[1..])
  }

  function UnitsOf(c: Scalar): (s: JsString)
    ensures |s| == if c < 0x10000 then 1 else 2
  {
    if c < 0x10000 then [c]
    else [0xD800 + (c - 0x10000) / 1024, 0xDC00 + (c - 0x10000) % 1024]
  }

  function FromScalars(text: seq<Scalar>): (s: JsString)
  {
    if text == [] then [] else UnitsOf(text[0]) + FromScalars(text[1..])
  }

  /** Bytes of the string's UTF-8 encoding: `textEncoder.encode(s).length`. */
  function ByteLength(s: JsString): (n: nat)
  {
    |Encode(ToScalars(s))|
  }

  /** Every surrogate has its partner. */
  predicate WellFormed(s: JsString)
  {
    if s == [] then true
    else if StartsWithPair(s) then WellFormed(s[2..])
    else !IsHigh(s[0]) && !IsLow(s[0]) && WellFormed(s[1..])
  }

  /** What a receiver sees of `s` after encoding and decoding. */
  function Sanitize(s: JsString): (t: JsString)
  {
    FromScalars(ToScalars(s))
  }

  // ---------------------------------------------------------------- conversions are inverse

  lemma PairInverse(c: Scalar)
    requires c >= 0x10000
    ensures var u := UnitsOf(c); IsHigh(u[0]) && IsLow(u[1]) && Pair(u[0], u[1]) == c
  {
  }

  lemma UnitsOfPair(hi: Unit, lo: Unit)
    requires IsHigh(hi) && IsLow(lo)
    ensures UnitsOf(Pair(hi, lo)) == [hi, lo]
  {
    var c: int := Pair(hi, lo);
    assert (c - 0x10000) / 1024 == hi - 0xD800;
    assert (c - 0x10000) % 1024 == lo - 0xDC00;
  }

  /** Pairs are assigned to the characters from U+10000 on in order, first by the high surrogate. */
  lemma PairsAreOrdered(h1: Unit, l1: Unit, h2: Unit, l2: Unit)
    requires IsHigh(h1) && IsLow(l1) && IsHigh(h2) && IsLow(l2)
    ensures Pair(h1, l1) < Pair(h2, l2) <==> h1 < h2 || (h1 == h2 && l1 < l2)
    ensures 0x10000 <= Pair(h1, l1) <= 0x10FFFF
  {
  }

  /** The ranges of the two halves of a pair, and what stands for an unpaired one. */
  lemma Surrogates(u: Unit)
    ensures IsHigh(u) <==> 0xD800 <= u <= 0xDBFF
    ensures IsLow(u) <==> 0xDC00 <= u <= 0xDFFF
    ensures Alone(u) == if 0xD800 <= u <= 0xDFFF then 0xFFFD else u
  {
  }

  lemma {:induction false} ToFromScalars(text: seq<Scalar>)
    ensures ToScalars(FromScalars(text)) == text
    ensures WellFormed(FromScalars(text))
  {
    if text != [] {
      var c, rest := text[0], FromScalars(text[1..]);
      var s := FromScalars(text);
      ToFromScalars(text[1..]);
      if c >= 0x10000 {
        PairInverse(c);
        assert s[0] == UnitsOf(c)[0] && s[1] == UnitsOf(c)[1];
        assert s[2..] == rest;
      } else {
        assert s[0] == c && s[1..] == rest;
      }
      assert text == [c] + text[1..];
    }
  }

  lemma {:induction false} SanitizeKeepsLength(s: JsString)
    ensures |Sanitize(s)| == |s|
    ensures Sanitize(s) == s <==> WellFormed(s)
    decreases |s|
  {
    if s != [] {
      var t := ToScalars(s);
      if StartsWithPair(s) {
        SanitizeKeepsLength(s[2..]);
        UnitsOfPair(s[0], s[1]);
        assert t[1..] == ToScalars(s[2..]);
        assert Sanitize(s) == [s[0], s[1]] + Sanitize(s[2..]);
        assert s == [s[0], s[1]] + s[2..];
        assert Sanitize(s)[2..] == Sanitize(s[2..]);
      } else {
        SanitizeKeepsLength(s[1..]);
        assert t[1..] == ToScalars(s[1..]);
        assert Sanitize(s) == [Alone(s[0])] + Sanitize(s[1..]);
        assert s == [s[0]] + s[1..];
        assert Sanitize(s)[1..] == Sanitize(s[1..]);
      }
    }
  }

  // ---------------------------------------------------------------- concatenation

  /** Whether cutting between `a` and `b` separates a surrogate pair. */
  predicate CutsPair(a: JsString, b: JsString)
  {
    a != [] && b != [] && IsHigh(a[|a| - 1]) && IsLow(b[0])
  }

  lemma {:induction false} ToScalarsAppend(a: JsString, b: JsString)
    requires !CutsPair(a, b)
    ensures ToScalars(a + b) == ToScalars(a) + ToScalars(b)
    decreases |a|
  {
    if a == [] {
      assert a + b == b;
    } else if StartsWithPair(a) {
      assert (a + b)[2..] == a[2..] + b;
      ToScalarsAppend(a[2..], b);
    } else {
      assert (a + b)[1..] == a[1..] + b;
      ToScalarsAppend(a[1..], b);
    }
  }

  /** A unit that completes a pair turns the three bytes of the lone surrogate before it into four. */
  lemma {:induction false} ToScalarsComplete(a: JsString, lo: Unit)
    requires CutsPair(a, [lo])
    ensures var n := |a| - 1;
            ToScalars(a) == ToScalars(a[..n]) + [REPLACEMENT]
            && ToScalars(a + [lo]) == ToScalars(a[..n]) + [Pair(a[n], lo)]
  {
    var n := |a| - 1;
    assert a == a[..n] + [a[n]];
    ToScalarsAppend(a[..n], [a[n]]);
    assert a + [lo] == a[..n] + [a[n], lo];
    ToScalarsAppend(a[..n], [a[n], lo]);
    assert [a[n], lo][2..] == [];
    assert [a[n]][1..] == [];
  }

  /** Bytes a unit costs on its own. */
  function UnitCost(u: Unit): (n: nat)
    ensures 1 <= n <= 3
  {
    if u < 0x80 then 1 else if u < 0x800 then 2 else 3
  }

  /** The byte cost of one more unit. */
  lemma ByteLengthSnoc(a: JsString, u: Unit)
    ensures ByteLength(a + [u]) == ByteLength(a) + if CutsPair(a, [u]) then 1 else UnitCost(u)
  {
    if CutsPair(a, [u]) {
      var front := ToScalars(a[..|a| - 1]);
      ToScalarsComplete(a, u);
      EncodeAppend(front, [REPLACEMENT]);
      EncodeAppend(front, [Pair(a[|a| - 1], u)]);
    } else {
      ToScalarsAppend(a, [u]);
      assert [u][1..] == [];
      assert ToScalars([u]) == [Alone(u)];
      EncodeAppend(ToScalars(a), [Alone(u)]);
    }
  }

  lemma {:induction false} PrefixesGrow(s: JsString, m: nat, n: nat)
    requires m < n <= |s|
    ensures ByteLength(s[..m]) < ByteLength(s[..n])
  {
    assert s[..n] == s[..n - 1] + [s[n - 1]];
    ByteLengthSnoc(s[..n - 1], s[n - 1]);
    if m < n - 1 {
      PrefixesGrow(s, m, n - 1);
    }
  }

  /** Strings without surrogates denote one scalar per unit. */
  predicate SurrogateFree(s: JsString)
  {
    forall i | 0 <= i < |s| :: !IsHigh(s[i]) && !IsLow(s[i])
  }

  lemma {:induction false} SurrogateFreeIsWellFormed(s: JsString)
    requires SurrogateFree(s)
    ensures WellFormed(s) && ToScalars(s) == s
  {
    if s != [] {
      SurrogateFreeIsWellFormed(s[1..]);
      assert s == [s[0]] + s[1..];
    }
  }
}
