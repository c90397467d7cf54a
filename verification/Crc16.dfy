/**
  CRC16/CCITT-FALSE (polynomial 0x1021, initial register 0xFFFF, no reflection, no final xor), as every
  implementation of the frame codec computes it: a 16-bit register, shifted eight times per octet.

  Machine words are lists of their bits, most significant first, so `w[0]` is the source's `w & 0x8000 != 0`,
  `w[1..] + [false]` its `w << 1` and `Xor` its `^`.
 */
module Crc16 {
  import opened Prelude

  type Bits = seq<bool>

  /** The `n` low bits of `v`, most significant first. */
  function ToBits(v: nat, n: nat): (bits: Bits)
    ensures |bits| == n
  {
    if n == 0 then [] else ToBits(v / 2, n - 1) + [v % 2 == 1]
  }

  /** The number a list of bits denotes. */
  function FromBits(bits: Bits): (v: nat)
  {
    if bits == [] then 0
    else 2 * FromBits(bits[..|bits| - 1]) + (if bits[|bits| - 1] then 1 else 0)
  }

  function Pow2(n: nat): (p: nat)
    ensures p > 0
  {
    if n == 0 then 1 else 2 * Pow2(n - 1)
  }

  lemma {:induction false} FromToBits(v: nat, n: nat)
    requires v < Pow2(n)
    ensures FromBits(ToBits(v, n)) == v
  {
    if n > 0 {
      FromToBits(v / 2, n - 1);
      assert ToBits(v, n)[..n - 1] == ToBits(v / 2, n - 1);
    }
  }

  lemma {:induction false} ToFromBits(bits: Bits)
    ensures FromBits(bits) < Pow2(|bits|)
    ensures ToBits(FromBits(bits), |bits|) == bits
  {
    if bits != [] {
      ToFromBits(bits[..|bits| - 1]);
      assert FromBits(bits) / 2 == FromBits(bits[..|bits| - 1]);
    }
  }

  function Xor(a: Bits, b: Bits): (c: Bits)
    requires |a| == |b|
    ensures |c| == |a|
  {
    seq(|a|, i requires 0 <= i < |a| => a[i] != b[i])
  }

  function Falses(n: nat): (c: Bits)
    ensures |c| == n
  {
    seq(n, _ => false)
  }

  type Word = w: Bits | |w| == 16 witness Falses(16)

  function Trues(n: nat): (c: Bits)
    ensures |c| == n
  {
    seq(n, _ => true)
  }

  /** The bits of weight 2^12, 2^5 and 2^0 of a word. */
  function Taps(): (c: Bits)
    ensures |c| == 16
  {
    seq(16, i => i == 3 || i == 10 || i == 15)
  }

  const INITIAL: Word := Trues(16)

  const POLY: Word := Taps()

  lemma {:induction false} PrefixOfTaps(k: nat)
    requires k <= 16
    ensures FromBits(POLY[..k]) == if k <= 3 then 0 else if k <= 10 then Pow2(k - 4)
                                   else if k <= 15 then Pow2(k - 4) + Pow2(k - 11) else 0x1021
  {
    if k > 0 {
      PrefixOfTaps(k - 1);
      assert POLY[..k][..k - 1] == POLY[..k - 1];
    }
  }

  lemma {:induction false} AllOnes(n: nat)
    ensures FromBits(Trues(n)) == Pow2(n) - 1
  {
    if n > 0 {
      AllOnes(n - 1);
      assert Trues(n)[..n - 1] == Trues(n - 1);
    }
  }

  /** The polynomial is 0x1021 and the initial register 0xFFFF. */
  lemma Constants()
    ensures FromBits(POLY) == 0x1021 && FromBits(INITIAL) == 0xFFFF
  {
    PrefixOfTaps(16);
    assert POLY[..16] == POLY;
    AllOnes(16);
    assert Pow2(8) == 256;
    assert Pow2(16) == 65536;
  }

  /** One pass of the inner loop. */
  function Shift(crc: Word): (r: Word)
  {
    if crc[0] then Xor(crc[1..] + [false], POLY) else crc[1..] + [false]
  }

  function Shifts(crc: Word, n: nat): (r: Word)
  {
    if n == 0 then crc else Shift(Shifts(crc, n - 1))
  }

  /** The octet in the high half of a word: the source's `(byte as u16) << 8`. */
  function HighHalf(b: Byte): (r: Word)
  {
    ToBits(b, 8) + Falses(8)
  }

  /** The register after the loops have consumed `data`. */
  function Run(data: seq<Byte>): (r: Word)
  {
    if data == [] then INITIAL
    else Shifts(Xor(Run(data[..|data| - 1]), HighHalf(data[|data| - 1])), 8)
  }

  /** The two nested loops of the source over `data[..len]`. */
  method ComputeChecksum(data: array<Byte>, len: nat) returns (crc: Word)
    requires len <= data.Length
    ensures crc == Run(data[..len])
  {
    crc := INITIAL;
    for i := 0 to len
      invariant crc == Run(data[..i])
    {
      assert data[..i + 1][..i] == data[..i];
      crc := Xor(crc, HighHalf(data[i]));
      ghost var mixed := crc;
      for bit := 0 to 8
        invariant crc == Shifts(mixed, bit)
      {
        crc := if crc[0] then Xor(crc[1..] + [false], POLY) else crc[1..] + [false];
      }
    }
  }

  /** Big-endian octets of the register, as they are stored in the frame. */
  function BigEndian(crc: Word): (bs: seq<Byte>)
    ensures |bs| == 2
  {
    ToFromBits(crc[..8]);
    ToFromBits(crc[8..]);
    assert Pow2(8) == 256;
    [FromBits(crc[..8]), FromBits(crc[8..])]
  }

  // ---------------------------------------------------------------- bit-serial form

  /** The bits of a message in transmission order. */
  function MessageBits(data: seq<Byte>): (bits: Bits)
    ensures |bits| == 8 * |data|
  {
    if data == [] then [] else MessageBits(data[..|data| - 1]) + ToBits(data[|data| - 1], 8)
  }

  /** One message bit enters the register. */
  function Step(r: Word, bit: bool): (s: Word)
  {
    if r[0] != bit then Xor(r[1..] + [false], POLY) else r[1..] + [false]
  }

  function Feed(r: Word, bits: Bits): (s: Word)
  {
    if bits == [] then r else Step(Feed(r, bits[..|bits| - 1]), bits[|bits| - 1])
  }

  lemma {:induction false} FeedAppend(r: Word, xs: Bits, ys: Bits)
    ensures Feed(r, xs + ys) == Feed(Feed(r, xs), ys)
  {
    if ys == [] {
      assert xs + ys == xs;
    } else {
      assert (xs + ys)[..|xs + ys| - 1] == xs + ys[..|ys| - 1];
      FeedAppend(r, xs, ys[..|ys| - 1]);
    }
  }

  /** One pass on a register already mixed with the bits to come is one step on the register itself. */
  lemma ShiftMixed(w: Word, mixed: Word, bit: bool, after: Word)
    requires mixed[0] == bit && !after[15] && forall i | 0 <= i < 15 :: after[i] == mixed[i + 1]
    ensures Shift(Xor(w, mixed)) == Xor(Step(w, bit), after)
  {
  }

  /** After `k` bits of an octet, the xor-first register is the bit-serial one plus the bits still to come. */
  lemma {:induction false} ShiftsIsFeed(r: Word, bits: Bits, k: nat)
    requires |bits| == 8 && k <= 8
    ensures Shifts(Xor(r, bits + Falses(8)), k) == Xor(Feed(r, bits[..k]), bits[k..] + Falses(8 + k))
  {
    if k == 0 {
      assert bits[..0] == [];
    } else {
      ShiftsIsFeed(r, bits, k - 1);
      assert bits[..k][..k - 1] == bits[..k - 1];
      ShiftMixed(Feed(r, bits[..k - 1]), bits[k - 1..] + Falses(7 + k), bits[k - 1], bits[k..] + Falses(8 + k));
    }
  }

  /** The loops of the source feed the message bit by bit. */
  lemma {:induction false} RunIsFeed(data: seq<Byte>)
    ensures Run(data) == Feed(INITIAL, MessageBits(data))
  {
    if data != [] {
      var front, last := data[..|data| - 1], ToBits(data[|data| - 1], 8);
      RunIsFeed(front);
      FeedAppend(INITIAL, MessageBits(front), last);
      ShiftsIsFeed(Run(front), last, 8);
      assert last[..8] == last;
      assert Xor(Feed(Run(front), last), last[8..] + Falses(16)) == Feed(Run(front), last);
    }
  }
}
