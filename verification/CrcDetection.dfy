/**
  Which differences between two messages the checksum is guaranteed to notice.

  The register is linear in the message, so two messages that both leave it at zero differ by a message that takes
  a zero register back to zero. No such difference has an odd number of bits, and none fits in sixteen consecutive
  bits.
 */
module CrcDetection {
  import opened Prelude
  import opened Crc16

  const ZERO: Word := Falses(16)

  // ---------------------------------------------------------------- linearity

  lemma StepLinear(r: Word, s: Word, a: bool, b: bool)
    ensures Step(Xor(r, s), a != b) == Xor(Step(r, a), Step(s, b))
  {
  }

  lemma {:induction false} FeedLinear(r: Word, s: Word, xs: Bits, ys: Bits)
    requires |xs| == |ys|
    ensures Feed(Xor(r, s), Xor(xs, ys)) == Xor(Feed(r, xs), Feed(s, ys))
  {
    if xs != [] {
      var n := |xs| - 1;
      assert Xor(xs, ys)[..n] == Xor(xs[..n], ys[..n]);
      FeedLinear(r, s, xs[..n], ys[..n]);
      StepLinear(Feed(r, xs[..n]), Feed(s, ys[..n]), xs[n], ys[n]);
    }
  }

  /** Two messages that both end at zero differ by one that takes zero to zero. */
  lemma DifferenceIsUnnoticed(x: Bits, y: Bits)
    requires |x| == |y| && Feed(INITIAL, x) == ZERO && Feed(INITIAL, y) == ZERO
    ensures Feed(ZERO, Xor(x, y)) == ZERO
  {
    FeedLinear(INITIAL, INITIAL, x, y);
    assert Xor(INITIAL, INITIAL) == ZERO;
    assert Xor(ZERO, ZERO) == ZERO;
  }

  // ---------------------------------------------------------------- a checksummed message ends at zero

  lemma {:induction false} FeedSelf(r: Word, k: nat)
    requires k <= 16
    ensures Feed(r, r[..k]) == r[k..] + Falses(k)
  {
    if k == 0 {
      assert r[..0] == [];
    } else {
      FeedSelf(r, k - 1);
      assert r[..k][..k - 1] == r[..k - 1];
    }
  }

  lemma ChecksummedEndsAtZero(data: seq<Byte>, tail: seq<Byte>)
    requires |tail| == 2 && MessageBits(tail) == Run(data)
    ensures Feed(INITIAL, MessageBits(data + tail)) == ZERO
  {
    RunIsFeed(data);
    MessageBitsAppend(data, tail);
    FeedAppend(INITIAL, MessageBits(data), MessageBits(tail));
    FeedSelf(Run(data), 16);
    assert Run(data)[..16] == Run(data);
    assert Run(data)[16..] + Falses(16) == ZERO;
  }

  lemma {:induction false} MessageBitsAppend(xs: seq<Byte>, ys: seq<Byte>)
    ensures MessageBits(xs + ys) == MessageBits(xs) + MessageBits(ys)
  {
    if ys == [] {
      assert xs + ys == xs;
    } else {
      assert (xs + ys)[..|xs + ys| - 1] == xs + ys[..|ys| - 1];
      MessageBitsAppend(xs, ys[..|ys| - 1]);
    }
  }

  /** The two stored octets carry exactly the bits of the register. */
  lemma BigEndianBits(crc: Word)
    ensures MessageBits(BigEndian(crc)) == crc
  {
    var bs := BigEndian(crc);
    ToFromBits(crc[..8]);
    ToFromBits(crc[8..]);
    assert bs[..1] == [bs[0]] && bs[..1][..0] == [];
    assert MessageBits(bs[..1]) == ToBits(bs[0], 8);
    assert crc[..8] + crc[8..] == crc;
  }

  // ---------------------------------------------------------------- an odd number of bits

  /** Parity of the number of ones. */
  predicate Odd(bits: Bits)
  {
    bits != [] && (bits[|bits| - 1] != Odd(bits[..|bits| - 1]))
  }

  lemma {:induction false} OddTail(bits: Bits)
    requires bits != []
    ensures Odd(bits) == (bits[0] != Odd(bits[1..]))
  {
    if |bits| > 1 {
      var n := |bits| - 1;
      OddTail(bits[..n]);
      assert bits[..n][1..] == bits[1..][..n - 1];
    }
  }

  lemma {:induction false} OddXor(a: Bits, b: Bits)
    requires |a| == |b|
    ensures Odd(Xor(a, b)) == (Odd(a) != Odd(b))
  {
    if a != [] {
      var n := |a| - 1;
      assert Xor(a, b)[..n] == Xor(a[..n], b[..n]);
      OddXor(a[..n], b[..n]);
    }
  }

  lemma {:induction false} OddFalses(n: nat)
    ensures !Odd(Falses(n))
  {
    if n > 0 {
      assert Falses(n)[..n - 1] == Falses(n - 1);
      OddFalses(n - 1);
    }
  }

  lemma {:induction false} OddPrefixOfTaps(k: nat)
    requires k <= 16
    ensures Odd(POLY[..k]) == (3 < k <= 10 || k == 16)
  {
    if k > 0 {
      OddPrefixOfTaps(k - 1);
      assert POLY[..k][..k - 1] == POLY[..k - 1];
    }
  }

  /** The polynomial is divisible by x + 1: a step changes the register's parity by the message bit alone. */
  lemma StepParity(r: Word, bit: bool)
    ensures Odd(Step(r, bit)) == (Odd(r) != bit)
  {
    OddTail(r);
    assert (r[1..] + [false])[..15] == r[1..];
    OddXor(r[1..] + [false], POLY);
    OddPrefixOfTaps(16);
    assert POLY[..16] == POLY;
  }

  lemma {:induction false} FeedParity(r: Word, bits: Bits)
    ensures Odd(Feed(r, bits)) == (Odd(r) != Odd(bits))
  {
    if bits != [] {
      FeedParity(r, bits[..|bits| - 1]);
      StepParity(Feed(r, bits[..|bits| - 1]), bits[|bits| - 1]);
    }
  }

  lemma OddIsNoticed(e: Bits)
    requires Odd(e)
    ensures Feed(ZERO, e) != ZERO
  {
    FeedParity(ZERO, e);
    OddFalses(16);
  }

  // ---------------------------------------------------------------- a burst of at most sixteen bits

  lemma {:induction false} FeedFalses(r: Word, n: nat)
    ensures Feed(r, Falses(n)) == ZERO <==> r == ZERO
  {
    if n == 0 {
      assert Falses(0) == [];
    } else {
      var s := Feed(r, Falses(n - 1));
      assert Falses(n)[..n - 1] == Falses(n - 1);
      FeedFalses(r, n - 1);
      if Step(s, false) == ZERO {
        assert Step(s, false)[15] == s[0];
        forall i | 1 <= i < 16 ensures !s[i] {
          assert Step(s, false)[i - 1] == s[i];
        }
      }
    }
  }

  /** A register that reaches zero within `|bits| < 16` steps had zeros in its `16 - |bits|` low positions. */
  lemma {:induction false} ReachedZero(r: Word, bits: Bits)
    requires |bits| < 16 && Feed(r, bits) == ZERO
    ensures forall i | |bits| <= i < 16 :: !r[i]
    decreases |bits|
  {
    if bits != [] {
      var first := bits[..1];
      FeedAppend(r, first, bits[1..]);
      assert first + bits[1..] == bits;
      assert first[..0] == [] && Feed(r, first) == Step(r, bits[0]);
      var s := Step(r, bits[0]);
      ReachedZero(s, bits[1..]);
      assert s[15] == (r[0] != bits[0]);
      forall i | |bits| <= i < 16 ensures !r[i] {
        assert !s[i - 1];
      }
    }
  }

  lemma PaddedBurstIsNoticed(before: nat, middle: Bits, after: nat)
    requires |middle| < 16
    ensures Feed(ZERO, Falses(before) + ([true] + (middle + Falses(after)))) != ZERO
  {
    var first := [true];
    FeedAppend(ZERO, Falses(before), first + (middle + Falses(after)));
    FeedFalses(ZERO, before);
    FeedAppend(ZERO, first, middle + Falses(after));
    assert first[..0] == [] && Feed(ZERO, first) == Step(ZERO, true);
    var r := Step(ZERO, true);
    assert r[15];
    FeedAppend(r, middle, Falses(after));
    FeedFalses(Feed(r, middle), after);
    if Feed(r, middle) == ZERO {
      ReachedZero(r, middle);
    }
  }

  /** A non-zero difference confined to sixteen consecutive bits, starting at `from`, is noticed. */
  lemma {:induction false} BurstIsNoticed(e: Bits, from: nat, i: nat)
    requires from <= i < |e| && e[i]
    requires forall k | 0 <= k < |e| && e[k] :: from <= k < from + 16
    ensures Feed(ZERO, e) != ZERO
    decreases i
  {
    if k :| from <= k < i && e[k] {
      BurstIsNoticed(e, from, k);
    } else {
      var j := if from + 16 <= |e| then from + 16 else |e|;
      var middle := e[i + 1..j];
      PaddedBurstIsNoticed(i, middle, |e| - j);
      assert e == Falses(i) + ([true] + (middle + Falses(|e| - j)));
    }
  }
}
