/**
  Two changed bits. The order of x modulo the polynomial is 32767 = 7 * 31 * 151, so the checksum notices every two-bit
  difference in messages of up to 32767 bits.

  Squaring the remainder of x^n doubles n, which reaches 32768 in fifteen computations from x; the order is then a divisor
  of 32767, and the three largest proper divisors are excluded likewise.
 */
module CrcOrder {
  import opened Crc16
  import opened CrcDetection

  /** A word by its sixteen bits, most significant first: the remainder of a polynomial. */
  datatype Reg = Reg(b0: bool, b1: bool, b2: bool, b3: bool, b4: bool, b5: bool, b6: bool, b7: bool,
                     b8: bool, b9: bool, b10: bool, b11: bool, b12: bool, b13: bool, b14: bool, b15: bool)

  /** Times x. */
  function Next(g: Reg): (h: Reg)
  {
    Reg(g.b1, g.b2, g.b3, g.b4 != g.b0, g.b5, g.b6, g.b7, g.b8, g.b9, g.b10, g.b11 != g.b0, g.b12, g.b13, g.b14, g.b15, g.b0)
  }

  /** The square: the bit of x^i goes where the remainder of x^2i has ones. */
  function Square(g: Reg): (h: Reg)
  {
    Reg(g.b2, ((g.b2 != g.b4) != g.b6) != g.b8, g.b3, ((g.b3 != g.b5) != g.b7) != g.b9,
        (g.b0 != g.b2) != g.b4, (g.b0 != g.b2) != g.b10, (g.b1 != g.b3) != g.b5, ((g.b0 != g.b1) != g.b3) != g.b11,
        ((g.b0 != g.b2) != g.b4) != g.b6, (((g.b0 != g.b1) != g.b2) != g.b4) != g.b12,
        ((g.b1 != g.b3) != g.b5) != g.b7, ((g.b1 != g.b3) != g.b5) != g.b13,
        g.b0, (((g.b0 != g.b2) != g.b4) != g.b6) != g.b14, g.b1, (((g.b1 != g.b3) != g.b5) != g.b7) != g.b15)
  }

  /** The word with these four hexadecimal digits. */
  function Hex(a: nat, b: nat, c: nat, d: nat): (g: Reg)
  {
    Reg(a >= 8, a % 8 >= 4, a % 4 >= 2, a % 2 == 1,
        b >= 8, b % 8 >= 4, b % 4 >= 2, b % 2 == 1,
        c >= 8, c % 8 >= 4, c % 4 >= 2, c % 2 == 1,
        d >= 8, d % 8 >= 4, d % 4 >= 2, d % 2 == 1)
  }

  /** Times x once for each of these bits. */
  function Fed(g: Reg, zeros: Bits): (h: Reg)
  {
    if zeros == [] then g else Next(Fed(g, zeros[..|zeros| - 1]))
  }

  /** Times x^n. */
  function Nexts(g: Reg, n: nat): (h: Reg)
  {
    Fed(g, Falses(n))
  }

  /** The remainder of x^n. */
  function Power(n: nat): (g: Reg)
  {
    Nexts(Hex(0, 0, 0, 1), n)
  }

  lemma NextsZero(g: Reg)
    ensures Nexts(g, 0) == g
  {
    assert Falses(0) == [];
  }

  lemma NextsOneMore(g: Reg, n: nat)
    ensures Nexts(g, n + 1) == Next(Nexts(g, n))
  {
    assert Falses(n + 1)[..n] == Falses(n);
  }

  lemma {:induction false} NextsAdd(g: Reg, m: nat, n: nat)
    ensures Nexts(Nexts(g, m), n) == Nexts(g, m + n)
  {
    if n == 0 {
      NextsZero(Nexts(g, m));
    } else {
      NextsAdd(g, m, n - 1);
      NextsOneMore(Nexts(g, m), n - 1);
      NextsOneMore(g, m + n - 1);
    }
  }

  lemma NextInjective(g: Reg, h: Reg)
    requires Next(g) == Next(h)
    ensures g == h
  {
  }

  lemma {:induction false} NextsInjective(g: Reg, h: Reg, n: nat)
    requires Nexts(g, n) == Nexts(h, n)
    ensures g == h
  {
    if n == 0 {
      NextsZero(g);
      NextsZero(h);
    } else {
      NextsOneMore(g, n - 1);
      NextsOneMore(h, n - 1);
      NextInjective(Nexts(g, n - 1), Nexts(h, n - 1));
      NextsInjective(g, h, n - 1);
    }
  }

  lemma SquareOfNext0(g: Reg)
    ensures var s, t := Square(Next(g)), Next(Next(Square(g))); s.b0 == t.b0 && s.b1 == t.b1 && s.b2 == t.b2 && s.b3 == t.b3
  {
  }

  lemma SquareOfNext4(g: Reg)
    ensures var s, t := Square(Next(g)), Next(Next(Square(g))); s.b4 == t.b4 && s.b5 == t.b5 && s.b6 == t.b6 && s.b7 == t.b7
  {
  }

  lemma SquareOfNext8(g: Reg)
    ensures var s, t := Square(Next(g)), Next(Next(Square(g))); s.b8 == t.b8 && s.b9 == t.b9 && s.b10 == t.b10 && s.b11 == t.b11
  {
  }

  lemma SquareOfNext12(g: Reg)
    ensures var s, t := Square(Next(g)), Next(Next(Square(g))); s.b12 == t.b12 && s.b13 == t.b13 && s.b14 == t.b14 && s.b15 == t.b15
  {
  }

  /** Squaring turns one factor x into two. */
  lemma SquareOfNext(g: Reg)
    ensures Square(Next(g)) == Next(Next(Square(g)))
  {
    SquareOfNext0(g);
    SquareOfNext4(g);
    SquareOfNext8(g);
    SquareOfNext12(g);
  }

  lemma SquareOfOne()
    ensures Square(Power(0)) == Power(0)
  {
    NextsZero(Hex(0, 0, 0, 1));
  }

  lemma TwoMore(n: nat)
    ensures Power(2 * (n + 1)) == Next(Next(Power(2 * n)))
  {
    NextsOneMore(Hex(0, 0, 0, 1), 2 * n);
    NextsOneMore(Hex(0, 0, 0, 1), 2 * n + 1);
  }

  lemma SquareOfOneMore(n: nat)
    ensures Square(Power(n + 1)) == Next(Next(Square(Power(n))))
  {
    NextsOneMore(Hex(0, 0, 0, 1), n);
    SquareOfNext(Power(n));
  }

  lemma SquareStep(n: nat)
    requires Square(Power(n)) == Power(2 * n)
    ensures Square(Power(n + 1)) == Power(2 * (n + 1))
  {
    TwoMore(n);
    SquareOfOneMore(n);
  }

  lemma {:induction false} SquareOfPower(n: nat)
    ensures Square(Power(n)) == Power(2 * n)
  {
    if n == 0 {
      SquareOfOne();
    } else {
      SquareOfPower(n - 1);
      SquareStep(n - 1);
    }
  }

  // ---------------------------------------------------------------- some powers

  lemma Even(n: nat, g: Reg)
    requires Power(n) == g
    ensures Power(2 * n) == Square(g)
  {
    SquareOfPower(n);
  }

  lemma Odds(n: nat, g: Reg)
    requires Power(n) == g
    ensures Power(2 * n + 1) == Next(Square(g))
  {
    SquareOfPower(n);
    NextsOneMore(Hex(0, 0, 0, 1), 2 * n);
  }

  lemma PowerOfOne()
    ensures Power(1) == Hex(0, 0, 0, 2)
  {
    NextsZero(Hex(0, 0, 0, 1));
    NextsOneMore(Hex(0, 0, 0, 1), 0);
  }

  /** Fifteen squarings lead back to x. */
  lemma Power32768()
    ensures Power(32768) == Hex(0, 0, 0, 2)
  {
    PowerOfOne();
    Even(1, Hex(0, 0, 0, 2));
    Even(2, Hex(0, 0, 0, 4));
    Even(4, Hex(0, 0, 1, 0));
    Even(8, Hex(0, 1, 0, 0));
    Even(16, Hex(1, 0, 2, 1));
    Even(32, Hex(3, 7, 3, 0));
    Even(64, Hex(11, 8, 6, 1));
    Even(128, Hex(10, 14, 15, 12));
    Even(256, Hex(8, 14, 2, 9));
    Even(512, Hex(1, 3, 15, 12));
    Even(1024, Hex(3, 6, 12, 4));
    Even(2048, Hex(15, 13, 5, 0));
    Even(4096, Hex(10, 10, 9, 14));
    Even(8192, Hex(8, 8, 1, 12));
    Even(16384, Hex(4, 4, 5, 8));
  }

  lemma Power217()
    ensures Power(217) == Hex(4, 8, 14, 3)
  {
    PowerOfOne();
    Odds(1, Hex(0, 0, 0, 2));
    Even(3, Hex(0, 0, 0, 8));
    Odds(6, Hex(0, 0, 4, 0));
    Odds(13, Hex(2, 0, 0, 0));
    Even(27, Hex(8, 9, 10, 9));
    Even(54, Hex(1, 1, 6, 8));
    Odds(108, Hex(3, 7, 5, 0));
  }

  lemma Power1057()
    ensures Power(1057) == Hex(15, 2, 10, 15)
  {
    PowerOfOne();
    Even(1, Hex(0, 0, 0, 2));
    Even(2, Hex(0, 0, 0, 4));
    Even(4, Hex(0, 0, 1, 0));
    Even(8, Hex(0, 1, 0, 0));
    Odds(16, Hex(1, 0, 2, 1));
    Even(33, Hex(6, 14, 6, 0));
    Even(66, Hex(12, 1, 12, 6));
    Even(132, Hex(4, 14, 8, 10));
    Even(264, Hex(5, 9, 4, 6));
    Odds(528, Hex(7, 8, 11, 3));
  }

  lemma Power4681()
    ensures Power(4681) == Hex(2, 12, 4, 2)
  {
    PowerOfOne();
    Even(1, Hex(0, 0, 0, 2));
    Even(2, Hex(0, 0, 0, 4));
    Odds(4, Hex(0, 0, 1, 0));
    Even(9, Hex(0, 2, 0, 0));
    Even(18, Hex(4, 0, 8, 4));
    Odds(36, Hex(4, 3, 6, 3));
    Even(73, Hex(8, 15, 10, 6));
    Even(146, Hex(4, 3, 8, 8));
    Odds(292, Hex(1, 3, 9, 6));
    Even(585, Hex(4, 5, 0, 0));
    Even(1170, Hex(0, 1, 6, 3));
    Odds(2340, Hex(0, 4, 2, 4));
  }

  // ---------------------------------------------------------------- the order of x

  predicate Period(n: nat)
  {
    Power(n) == Hex(0, 0, 0, 1)
  }

  lemma FullPeriod()
    ensures Period(32767)
  {
    Power32768();
    NextsOneMore(Hex(0, 0, 0, 1), 32767);
    NextInjective(Power(32767), Hex(0, 0, 0, 1));
  }

  lemma NotPeriods()
    ensures !Period(217) && !Period(1057) && !Period(4681)
  {
    Power217();
    Power1057();
    Power4681();
  }

  lemma {:induction false} LeastPeriod(n: nat) returns (m: nat)
    requires n > 0 && Period(n)
    ensures 0 < m <= n && Period(m) && forall k | 0 < k < m :: !Period(k)
    decreases n
  {
    if k :| 0 < k < n && Period(k) {
      m := LeastPeriod(k);
    } else {
      m := n;
    }
  }

  /** The least period divides every period. */
  lemma {:induction false} PeriodDivides(m: nat, n: nat) returns (k: nat)
    requires m > 0 && Period(m) && Period(n) && forall j | 0 < j < m :: !Period(j)
    ensures n == k * m
    decreases n
  {
    if n == 0 {
      k := 0;
    } else {
      assert n >= m;
      NextsAdd(Hex(0, 0, 0, 1), m, n - m);
      k := PeriodDivides(m, n - m);
      k := k + 1;
    }
  }

  lemma {:induction false} PeriodMultiple(m: nat, k: nat)
    requires Period(m)
    ensures Period(k * m)
  {
    if k == 0 {
      NextsZero(Hex(0, 0, 0, 1));
    } else {
      PeriodMultiple(m, k - 1);
      assert k * m == (k - 1) * m + m;
      NextsAdd(Hex(0, 0, 0, 1), (k - 1) * m, m);
    }
  }

  lemma SmallDivisor(d: nat, other: nat)
    requires d * other == 32767 && d <= 181
    ensures d == 1 || d == 7 || d == 31 || d == 151
  {
  }

  /** A proper divisor of 32767 is 4681, 1057 or 217, or divides 217 or 1057. */
  lemma ProperDivisor(k: nat, m: nat)
    requires k * m == 32767 && m < 32767
    ensures m == 4681 || m == 1057 || m == 217 || m == 1 || m == 7 || m == 31 || m == 151
  {
    if m <= 181 {
      SmallDivisor(m, k);
    } else {
      SmallCofactor(k, m);
      SmallDivisor(k, m);
      CofactorOf(k, m);
    }
  }

  lemma CofactorOf(k: nat, m: nat)
    requires k * m == 32767 && (k == 1 || k == 7 || k == 31 || k == 151)
    ensures m == 32767 || m == 4681 || m == 1057 || m == 217
  {
  }

  lemma SmallCofactor(k: nat, m: nat)
    requires k * m == 32767 && m > 181
    ensures 1 <= k <= 181
  {
  }

  /** The order of x is 32767. */
  lemma NoShorterPeriod(n: nat)
    requires 0 < n < 32767
    ensures !Period(n)
  {
    if Period(n) {
      var m := LeastPeriod(n);
      FullPeriod();
      var k := PeriodDivides(m, 32767);
      ProperDivisor(k, m);
      NotPeriods();
      PeriodMultiple(m, if m == 151 || m == 31 then 7 else if m == 7 then 31 else 217);
    }
  }

  // ---------------------------------------------------------------- feeding two bits

  function ToReg(w: Word): (g: Reg)
  {
    Reg(w[0], w[1], w[2], w[3], w[4], w[5], w[6], w[7], w[8], w[9], w[10], w[11], w[12], w[13], w[14], w[15])
  }

  lemma StepIsNext(w: Word)
    ensures ToReg(Step(w, false)) == Next(ToReg(w))
  {
  }

  lemma {:induction false} FeedFalsesIsNexts(w: Word, n: nat)
    ensures ToReg(Feed(w, Falses(n))) == Nexts(ToReg(w), n)
  {
    if n == 0 {
      assert Falses(0) == [];
    } else {
      FeedFalsesIsNexts(w, n - 1);
      assert Falses(n)[..n - 1] == Falses(n - 1);
      StepIsNext(Feed(w, Falses(n - 1)));
    }
  }

  /** A second one cancels only the remainder a first one leaves. */
  lemma SecondOne(w: Word)
    requires Step(w, true) == ZERO
    ensures Next(ToReg(w)) == ToReg(POLY)
  {
    assert forall i | 0 <= i < 16 :: !Step(w, true)[i];
    StepIsNext(w);
    forall i | 0 <= i < 16 ensures Step(w, false)[i] == POLY[i] {
      assert Step(w, true)[i] == (Step(w, false)[i] != POLY[i]);
    }
  }

  lemma FirstOne()
    ensures Feed(ZERO, [true]) == POLY && ToReg(POLY) == Power(16)
  {
    assert [true][..0] == [];
    assert Step(ZERO, true) == POLY;
    PowerOfOne();
    Even(1, Hex(0, 0, 0, 2));
    Even(2, Hex(0, 0, 0, 4));
    Even(4, Hex(0, 0, 1, 0));
    Even(8, Hex(0, 1, 0, 0));
    assert ToReg(POLY) == Hex(1, 0, 2, 1);
  }

  /** Two ones `d` places apart, with zeros between them. */
  function Pair(d: nat): (bits: Bits)
    requires d > 0
  {
    [true] + Falses(d - 1) + [true]
  }

  lemma PairIsNoticed(d: nat)
    requires 0 < d < 32767
    ensures Feed(ZERO, Pair(d)) != ZERO
  {
    var w := Feed(ZERO, [true] + Falses(d - 1));
    FirstOne();
    FeedAppend(ZERO, [true], Falses(d - 1));
    FeedFalsesIsNexts(POLY, d - 1);
    assert Pair(d)[..d] == [true] + Falses(d - 1);
    if Feed(ZERO, Pair(d)) == ZERO {
      SecondOne(w);
      NextsOneMore(Power(16), d - 1);
      assert Nexts(Power(16), d) == Power(16);
      NextsAdd(Hex(0, 0, 0, 1), 16, d);
      NextsAdd(Hex(0, 0, 0, 1), d, 16);
      NextsInjective(Power(d), Hex(0, 0, 0, 1), 16);
      NoShorterPeriod(d);
    }
  }

  lemma PairAt(d: nat, k: nat)
    requires 0 < d && k <= d
    ensures Pair(d)[k] <==> k == 0 || k == d
  {
  }

  lemma PairWithin(e: Bits, i: nat, j: nat)
    requires i < j < |e| && forall k | 0 <= k < |e| :: e[k] <==> k == i || k == j
    ensures e == Falses(i) + (Pair(j - i) + Falses(|e| - j - 1))
  {
    var f := Falses(i) + (Pair(j - i) + Falses(|e| - j - 1));
    forall k | 0 <= k < |e| ensures e[k] == f[k] {
      if i <= k <= j {
        PairAt(j - i, k - i);
        assert f[k] == Pair(j - i)[k - i];
      }
    }
  }

  /** A difference of exactly two bits, less than 32767 places apart, is noticed. */
  lemma TwoBitsAreNoticed(e: Bits, i: nat, j: nat)
    requires i < j < |e| && j - i < 32767 && forall k | 0 <= k < |e| :: e[k] <==> k == i || k == j
    ensures Feed(ZERO, e) != ZERO
  {
    var before, after := Falses(i), Falses(|e| - j - 1);
    PairWithin(e, i, j);
    FeedAppend(ZERO, before, Pair(j - i) + after);
    FeedFalses(ZERO, i);
    FeedAppend(ZERO, Pair(j - i), after);
    PairIsNoticed(j - i);
    FeedFalses(Feed(ZERO, Pair(j - i)), |e| - j - 1);
  }

  lemma FeedItself(w: Word)
    ensures Feed(w, w) == ZERO
  {
    FeedSelf(w, 16);
    assert w[..16] == w;
    assert w[16..] + Falses(16) == ZERO;
  }

  /** No better is possible: the four bits of the polynomial itself, seventeen places wide, are not noticed. */
  lemma FourBitsAreMissed(before: nat, after: nat)
    ensures Feed(ZERO, Falses(before) + (([true] + POLY) + Falses(after))) == ZERO
  {
    var four: Bits := [true] + POLY;
    FeedAppend(ZERO, Falses(before), four + Falses(after));
    FeedFalses(ZERO, before);
    FeedAppend(ZERO, four, Falses(after));
    FeedAppend(ZERO, [true], POLY);
    FirstOne();
    FeedItself(POLY);
    FeedFalses(ZERO, after);
  }
}
