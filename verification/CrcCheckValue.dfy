/** The checksum of the nine characters 123456789, by which implementations of a checksum are told apart. */
module CrcCheckValue {
  import opened Prelude
  import opened Crc16
  import opened CrcOrder

  function Mixed(g: Reg, h: Reg): (m: Reg)
  {
    Reg(g.b0 != h.b0, g.b1 != h.b1, g.b2 != h.b2, g.b3 != h.b3, g.b4 != h.b4, g.b5 != h.b5,
        g.b6 != h.b6, g.b7 != h.b7, g.b8 != h.b8, g.b9 != h.b9, g.b10 != h.b10,
        g.b11 != h.b11, g.b12 != h.b12, g.b13 != h.b13, g.b14 != h.b14, g.b15 != h.b15)
  }

  /** Times x^8. */
  function Shifted(g: Reg): (h: Reg)
  {
    Reg((g.b0 != g.b4) != g.b8, (g.b1 != g.b5) != g.b9, (g.b2 != g.b6) != g.b10, ((g.b0 != g.b3) != g.b7) != g.b11,
        g.b1 != g.b12, g.b2 != g.b13, g.b3 != g.b14, (g.b0 != g.b4) != g.b15,
        (g.b0 != g.b1) != g.b5, (g.b1 != g.b2) != g.b6, (g.b2 != g.b3) != g.b7, g.b3,
        g.b0 != g.b4, g.b1 != g.b5, g.b2 != g.b6, g.b3 != g.b7)
  }

  /** The register after one more octet. */
  function AfterOctet(g: Reg, high: Reg): (h: Reg)
  {
    Shifted(Mixed(g, high))
  }

  lemma MixedIsXor(v: Word, w: Word)
    ensures ToReg(Xor(v, w)) == Mixed(ToReg(v), ToReg(w))
  {
  }

  lemma {:induction false} ShiftsAreNexts(w: Word, n: nat)
    ensures ToReg(Shifts(w, n)) == Nexts(ToReg(w), n)
  {
    if n == 0 {
      NextsZero(ToReg(w));
    } else {
      ShiftsAreNexts(w, n - 1);
      NextsOneMore(ToReg(w), n - 1);
      StepIsNext(Shifts(w, n - 1));
      assert Step(Shifts(w, n - 1), false) == Shift(Shifts(w, n - 1));
    }
  }

  /** Times x^4. */
  function ShiftedFour(g: Reg): (h: Reg)
  {
    Reg(g.b0 != g.b4, g.b1 != g.b5, g.b2 != g.b6, g.b3 != g.b7,
        g.b8, g.b9, g.b10, g.b0 != g.b11,
        g.b1 != g.b12, g.b2 != g.b13, g.b3 != g.b14, g.b15,
        g.b0, g.b1, g.b2, g.b3)
  }

  predicate AreNexts(g: Reg, n: nat, h: Reg)
  {
    Nexts(g, n) == h
  }

  lemma OneMoreNext(g: Reg, n: nat, h: Reg)
    requires AreNexts(g, n, h)
    ensures AreNexts(g, n + 1, Next(h))
  {
    NextsOneMore(g, n);
  }

  lemma NoNext(g: Reg)
    ensures AreNexts(g, 0, g)
  {
    NextsZero(g);
  }

  lemma FourSteps(g: Reg)
    ensures Next(Next(Next(Next(g)))) == ShiftedFour(g)
  {
  }

  lemma FourNexts(g: Reg)
    ensures AreNexts(g, 4, ShiftedFour(g))
  {
    NoNext(g);
    OneMoreNext(g, 0, g);
    OneMoreNext(g, 1, Next(g));
    OneMoreNext(g, 2, Next(Next(g)));
    OneMoreNext(g, 3, Next(Next(Next(g))));
    FourSteps(g);
  }

  lemma ShiftedTwice(g: Reg)
    ensures ShiftedFour(ShiftedFour(g)) == Shifted(g)
  {
  }

  lemma EightNexts(g: Reg)
    ensures Nexts(g, 8) == Shifted(g)
  {
    NextsAdd(g, 4, 4);
    FourNexts(g);
    FourNexts(ShiftedFour(g));
    ShiftedTwice(g);
  }

  lemma {:induction false} BitAt(v: nat, n: nat, i: nat)
    requires i < n
    ensures ToBits(v, n)[i] <==> v / Pow2(n - 1 - i) % 2 == 1
  {
    if i < n - 1 {
      BitAt(v / 2, n - 1, i);
      assert v / 2 / Pow2(n - 2 - i) == v / (2 * Pow2(n - 2 - i)) by { HalfThen(v, Pow2(n - 2 - i)); }
    }
  }

  lemma HalfThen(v: nat, p: nat)
    requires p > 0
    ensures v / 2 / p == v / (2 * p)
  {
    var q := v / (2 * p);
    var r := v - q * (2 * p);
    assert 0 <= r < 2 * p;
    assert v == 2 * (q * p) + r;
    assert v / 2 == q * p + r / 2;
    assert r / 2 < p;
    Quotient(q, p, r / 2);
  }

  lemma MulLess(a: nat, b: nat, p: nat)
    requires a < b
    ensures a * p + p <= b * p
  {
    MulSplit(a + 1, b - a - 1, p);
    MulSplit(a, 1, p);
  }

  lemma MulSplit(a: nat, b: nat, p: nat)
    ensures (a + b) * p == a * p + b * p && b * p >= 0
  {
  }

  lemma Quotient(q: nat, p: nat, r: nat)
    requires r < p
    ensures (q * p + r) / p == q
  {
    var k := (q * p + r) / p;
    assert k * p <= q * p + r < k * p + p;
    if k < q {
      MulLess(k, q, p);
      assert false;
    } else if k > q {
      MulLess(q, k, p);
      assert false;
    }
  }

  lemma Powers()
    ensures Pow2(0) == 1 && Pow2(1) == 2 && Pow2(2) == 4 && Pow2(3) == 8
    ensures Pow2(4) == 16 && Pow2(5) == 32 && Pow2(6) == 64 && Pow2(7) == 128
  {
  }

  lemma DigitHigh(b: Byte)
    requires 0x30 <= b <= 0x39
    ensures var bits := ToBits(b, 8); !bits[0] && !bits[1] && bits[2] && bits[3]
  {
    Powers();
    BitAt(b, 8, 0);
    BitAt(b, 8, 1);
    BitAt(b, 8, 2);
    BitAt(b, 8, 3);
  }

  lemma DigitMiddle(d: nat)
    requires d <= 9
    ensures var bits := ToBits(0x30 + d, 8); (bits[4] <==> d >= 8) && (bits[5] <==> d % 8 >= 4)
  {
    Powers();
    BitAt(0x30 + d, 8, 4);
    BitAt(0x30 + d, 8, 5);
  }

  lemma DigitLow(d: nat)
    requires d <= 9
    ensures var bits := ToBits(0x30 + d, 8); (bits[6] <==> d % 4 >= 2) && (bits[7] <==> d % 2 == 1)
  {
    Powers();
    BitAt(0x30 + d, 8, 6);
    BitAt(0x30 + d, 8, 7);
  }

  /** The octet of a decimal digit's character, in the high half of a word. */
  lemma DigitOctet(d: nat)
    requires d <= 9
    ensures ToReg(HighHalf(0x30 + d)) == Hex(3, d, 0, 0)
  {
    DigitHigh(0x30 + d);
    DigitMiddle(d);
    DigitLow(d);
    var bits, w := ToBits(0x30 + d, 8), HighHalf(0x30 + d);
    assert forall i | 0 <= i < 8 :: w[i] == bits[i];
    assert forall i | 8 <= i < 16 :: !w[i];
  }

  /** These octets leave this register. */
  predicate Leaves(data: seq<Byte>, g: Reg)
  {
    ToReg(Run(data)) == g
  }

  lemma NextDigit(front: seq<Byte>, d: nat, g: Reg)
    requires d <= 9 && Leaves(front, g)
    ensures Leaves(front + [0x30 + d], AfterOctet(g, Hex(3, d, 0, 0)))
  {
    var w, high := Run(front), HighHalf(0x30 + d);
    assert (front + [0x30 + d])[..|front|] == front;
    DigitOctet(d);
    MixedIsXor(w, high);
    ShiftsAreNexts(Xor(w, high), 8);
    EightNexts(ToReg(Xor(w, high)));
  }

  /** The characters 123456789. */
  predicate IsOneToNine(data: seq<Byte>)
  {
    |data| == 9 && forall i | 0 <= i < 9 :: data[i] == 0x31 + i
  }

  lemma DigitLeaves(data: seq<Byte>, k: nat, g: Reg, h: Reg)
    requires IsOneToNine(data) && k < 9
    requires Leaves(data[..k], g) && AfterOctet(g, Hex(3, k + 1, 0, 0)) == h
    ensures Leaves(data[..k + 1], h)
  {
    NextDigit(data[..k], k + 1, g);
    assert data[..k + 1] == data[..k] + [0x30 + (k + 1)];
  }

  lemma FirstThree(data: seq<Byte>)
    requires IsOneToNine(data) && Leaves(data[..0], Hex(15, 15, 15, 15))
    ensures Leaves(data[..3], Hex(5, 11, 12, 14))
  {
    DigitLeaves(data, 0, Hex(15, 15, 15, 15), Hex(12, 7, 8, 2));
    DigitLeaves(data, 1, Hex(12, 7, 8, 2), Hex(3, 13, 11, 10));
    DigitLeaves(data, 2, Hex(3, 13, 11, 10), Hex(5, 11, 12, 14));
  }

  lemma MiddleThree(data: seq<Byte>)
    requires IsOneToNine(data) && Leaves(data[..3], Hex(5, 11, 12, 14))
    ensures Leaves(data[..6], Hex(2, 14, 15, 4))
  {
    DigitLeaves(data, 3, Hex(5, 11, 12, 14), Hex(5, 3, 4, 9));
    DigitLeaves(data, 4, Hex(5, 3, 4, 9), Hex(4, 5, 6, 0));
    DigitLeaves(data, 5, Hex(4, 5, 6, 0), Hex(2, 14, 15, 4));
  }

  lemma LastThree(data: seq<Byte>)
    requires IsOneToNine(data) && Leaves(data[..6], Hex(2, 14, 15, 4))
    ensures Leaves(data[..9], Hex(2, 9, 11, 1))
  {
    DigitLeaves(data, 6, Hex(2, 14, 15, 4), Hex(7, 7, 1, 8));
    DigitLeaves(data, 7, Hex(7, 7, 1, 8), Hex(10, 1, 2, 11));
    DigitLeaves(data, 8, Hex(10, 1, 2, 11), Hex(2, 9, 11, 1));
  }

  lemma InitialRegister()
    ensures Leaves([], Hex(15, 15, 15, 15))
  {
  }

  lemma AfterAll(data: seq<Byte>)
    requires IsOneToNine(data)
    ensures Leaves(data, Hex(2, 9, 11, 1))
  {
    InitialRegister();
    assert data[..0] == [] && data[..9] == data;
    FirstThree(data);
    MiddleThree(data);
    LastThree(data);
  }

  lemma PrefixValue(w: Word, k: nat)
    requires k < 16
    ensures FromBits(w[..k + 1]) == 2 * FromBits(w[..k]) + (if w[k] then 1 else 0)
  {
    assert w[..k + 1][..k] == w[..k];
  }

  lemma WordBits(w: Word)
    requires ToReg(w) == Hex(2, 9, 11, 1)
    ensures !w[0] && !w[1] && w[2] && !w[3] && w[4] && !w[5] && !w[6] && w[7]
    ensures w[8] && !w[9] && w[10] && w[11] && !w[12] && !w[13] && !w[14] && w[15]
  {
  }

  lemma HighValue(w: Word)
    requires !w[0] && !w[1] && w[2] && !w[3] && w[4] && !w[5] && !w[6] && w[7]
    ensures FromBits(w[..8]) == 0x29
  {
    assert w[..0] == [];
    PrefixValue(w, 0);
    PrefixValue(w, 1);
    PrefixValue(w, 2);
    PrefixValue(w, 3);
    PrefixValue(w, 4);
    PrefixValue(w, 5);
    PrefixValue(w, 6);
    PrefixValue(w, 7);
  }

  lemma LowValue(w: Word)
    requires FromBits(w[..8]) == 0x29
    requires w[8] && !w[9] && w[10] && w[11] && !w[12] && !w[13] && !w[14] && w[15]
    ensures FromBits(w) == 0x29B1
  {
    PrefixValue(w, 8);
    PrefixValue(w, 9);
    PrefixValue(w, 10);
    PrefixValue(w, 11);
    PrefixValue(w, 12);
    PrefixValue(w, 13);
    PrefixValue(w, 14);
    PrefixValue(w, 15);
    assert w[..16] == w;
  }

  /** The check value of CRC-16/CCITT-FALSE: the checksum of the characters 123456789 is 29B1. */
  lemma CheckValue(data: seq<Byte>)
    requires IsOneToNine(data)
    ensures FromBits(Run(data)) == 0x29B1
  {
    AfterAll(data);
    WordBits(Run(data));
    HighValue(Run(data));
    LowValue(Run(data));
  }
}
