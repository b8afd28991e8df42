/** When the unsigned division of intervals (src/crab/interval.cpp) contains every quotient of
    64-bit operands. */
module IntervalUDiv {
  import opened AsmSyntax
  import opened Interval
  import opened IntervalDivision

  /** Some 64-bit numbers, signed or not, with or without an upper bound. */
  predicate Words(i: Interval) {
    Proper(i) && !IsBottom(i) && Reads64(i) && Lt(i.lb, Fin(TWO_64)) && (Lt(i.ub, Fin(TWO_64)) || i.ub.PosInf?)
  }

  /** Negative and other numbers: the smallest unsigned numbers and the largest. */
  predicate Straddles(i: Interval) {
    Lt(i.lb, Fin(0)) && Leq(Fin(0), i.ub)
  }

  /** Both are non-empty, and the divisor is a number. The code divides the two ends of the
      dividend, which are the least and the greatest quotient only if it does not straddle. */
  predicate RightByNumber(i: Interval, c: int)
    requires i.lb.Fin?
  {
    || c == 0 || c == 1 || !Straddles(i)
    || (As64(i.lb.n) < As64(c) && Leq(Fin(As64(c)), i.ub))
  }

  /** The divisor contains zero and another number: its halves are divided by and joined. */
  predicate RightBySplit(i: Interval, x: Interval)
    requires i.lb.Fin? && x.lb.Fin?
  {
    || x.lb.n != -1 || !Straddles(i) || Leq(Fin(U64MAX), i.ub)
    || Leq(Fin(2), x.ub) || (x.ub == Fin(1) && i.ub != Fin(0))
  }

  /** The divisor is positive: the greatest quotient of a negative dividend survives its
      shift if nothing is cut off, or if another dividend has the same quotient. */
  predicate RightByPositive(i: Interval, c: nat)
    requires Words(i) && c > 0
  {
    || i.lb.n >= 0
    || (if i.ub.Fin? && i.ub.n < 0 then (As64(i.ub.n) + 1) % c == 0
        else TWO_64 % c == 0 || Leq(Fin(U64MAX - U64MAX % c), i.ub))
  }

  /** The divisor is negative, so that quotients are zero or one. */
  predicate RightByNegative(i: Interval, x: Interval)
    requires x.lb.Fin? && x.ub.Fin?
  {
    i.ub.Fin? && i.ub.n < 0 ==> i.ub.n < x.lb.n || x.lb.n <= i.ub.n + x.ub.n + 1
  }

  /** The condition under which UDiv contains every quotient. */
  predicate UDivIsRight(i: Interval, x: Interval)
    requires Words(i) && Words(x)
  {
    if Singleton(x).Some? then RightByNumber(i, Singleton(x).value)
    else if Contains(x, 0) then RightBySplit(i, x)
    else if x.lb.n > 0 then RightByPositive(i, x.lb.n)
    else RightByNegative(i, x)
  }

  /** The quotient an instruction computes. */
  function Quotient64(n: int, d: int): nat
    requires n >= -TWO_64 && d >= -TWO_64
  {
    UnsignedDiv(As64(n), As64(d))
  }

  // ----- arithmetic -----

  lemma QuotientIs(n: nat, d: nat, q: nat, r: nat)
    requires n == d * q + r && r < d
    ensures n / d == q && n % d == r
  {
    Euclid(n, d);
    if n / d > q {
      LargerProduct(d, n / d, d, q);
    } else if n / d < q {
      LargerProduct(d, q, d, n / d);
    }
  }

  lemma SmallQuotient(n: nat, d: nat)
    requires d > 0
    ensures n / d == 0 <==> n < d
    ensures d <= n < 2 * d ==> n / d == 1
  {
    Euclid(n, d);
    if n < d {
      QuotientIs(n, d, 0, n);
    } else if n < 2 * d {
      QuotientIs(n, d, 1, n - d);
    } else {
      DivMonotone(d, n, d, d);
    }
  }

  /** The shift of the dividend keeps the quotient exactly if the next number is a multiple. */
  lemma ShiftedQuotient(m: nat, c: nat)
    requires 0 < c <= m + 1
    ensures (m + 1 - c) / c == if (m + 1) % c == 0 then m / c else m / c - 1
  {
    var q, r := (m + 1) / c, (m + 1) % c;
    Euclid(m + 1, c);
    SmallQuotient(m + 1, c);
    assert c * (q - 1) == c * q - c;
    QuotientIs(m + 1 - c, c, q - 1, r);
    if r > 0 {
      QuotientIs(m, c, q, r - 1);
    } else {
      QuotientIs(m, c, q - 1, c - 1);
    }
  }

  /** The greatest multiple of c up to m. */
  lemma LargeQuotient(n: nat, m: nat, c: nat)
    requires 0 < c && n <= m
    ensures n / c == m / c <==> n >= m - m % c
  {
    Euclid(m, c);
    Euclid(n, c);
    if n >= m - m % c {
      QuotientIs(n, c, m / c, n - c * (m / c));
    } else {
      assert n < c * (m / c);
    }
  }

  // ----- what the branches compute -----

  /** Of the four quotients of the ends. */
  lemma Corners(a: nat, b: nat, c: nat, d: nat)
    requires a <= b && 0 < c <= d
    ensures Min4(Fin(a / c), Fin(a / d), Fin(b / c), Fin(b / d)) == Fin(a / d)
    ensures Max4(Fin(a / c), Fin(a / d), Fin(b / c), Fin(b / d)) == Fin(b / c)
    ensures a / d <= b / c
  {
    DivMonotone(a, a, d, c);
    DivMonotone(a, b, d, d);
    DivMonotone(b, b, d, c);
    DivMonotone(a, b, c, c);
  }

  lemma OfEnds(i: Interval, x: Interval)
    requires Words(i) && Words(x) && Singleton(x).None? && !Contains(x, 0) && !Contains(i, 0)
    ensures UDiv(i, x) == EndsUDiv(MakeDividend(i, x), x)
  {
  }

  lemma EndsOfWords(i: Interval, x: Interval)
    requires i.lb.Fin? && i.ub.Fin? && x.lb.Fin? && x.ub.Fin? && i.lb.n <= i.ub.n && x.lb.n <= x.ub.n
    requires Reads64(x) && !Contains(x, 0) && !Contains(i, 0) && EndsUDiv(i, x).Some?
    ensures Reads64(i)
    ensures EndsUDiv(i, x).value ==
              Interval(Fin(As64(i.lb.n) / As64(x.ub.n)), Fin(As64(i.ub.n) / As64(x.lb.n)))
  {
    Corners(As64(i.lb.n), As64(i.ub.n), As64(x.lb.n), As64(x.ub.n));
  }

  lemma DividendForPositive(i: Interval, x: Interval)
    requires Words(i) && Words(x) && Lt(i.ub, Fin(0)) && x.lb.n > 0
    ensures i.ub.Fin? && MakeDividend(i, x).ub == Fin(i.ub.n + 1 - x.lb.n)
    ensures MakeDividend(i, x).lb == if x.ub.Fin? then Fin(i.lb.n + 1 - x.ub.n) else NegInf
  {
  }

  lemma EndsForPositive(i: Interval, x: Interval)
    requires Words(i) && Words(x) && Lt(i.ub, Fin(0)) && x.lb.n > 0 && EndsUDiv(MakeDividend(i, x), x).Some?
    ensures x.ub.Fin? && i.ub.Fin? && As64(i.lb.n) + 1 - x.ub.n >= 0
    ensures EndsUDiv(MakeDividend(i, x), x).value ==
              Interval(Fin((As64(i.lb.n) + 1 - x.ub.n) / x.ub.n), Fin((As64(i.ub.n) + 1 - x.lb.n) / x.lb.n))
  {
    DividendForPositive(i, x);
    EndsOfWords(MakeDividend(i, x), x);
    assert As64(i.ub.n + 1 - x.lb.n) == As64(i.ub.n) + 1 - x.lb.n;
    assert As64(i.lb.n + 1 - x.ub.n) == As64(i.lb.n) + 1 - x.ub.n;
  }

  lemma NegativeByPositive(i: Interval, x: Interval)
    requires Words(i) && Words(x) && Lt(i.ub, Fin(0)) && x.lb.n > 0 && Singleton(x).None? && UDiv(i, x).Some?
    ensures x.ub.Fin? && i.ub.Fin? && As64(i.lb.n) + 1 - x.ub.n >= 0
    ensures UDiv(i, x).value ==
              Interval(Fin((As64(i.lb.n) + 1 - x.ub.n) / x.ub.n), Fin((As64(i.ub.n) + 1 - x.lb.n) / x.lb.n))
  {
    OfEnds(i, x);
    EndsForPositive(i, x);
  }

  lemma NegativeByNegative(i: Interval, x: Interval)
    requires Words(i) && Words(x) && Lt(i.ub, Fin(0)) && Lt(x.ub, Fin(0)) && Singleton(x).None? && UDiv(i, x).Some?
    ensures x.ub.Fin? && i.ub.Fin? && i.lb.n + x.lb.n + 1 >= -TWO_64
    ensures UDiv(i, x).value ==
              Interval(Fin(As64(i.lb.n + x.lb.n + 1) / As64(x.ub.n)), Fin(As64(i.ub.n + x.ub.n + 1) / As64(x.lb.n)))
  {
    OfEnds(i, x);
    EndsOfWords(MakeDividend(i, x), x);
  }

  lemma PositiveByPositive(i: Interval, x: Interval)
    requires Words(i) && Words(x) && i.lb.n > 0 && x.lb.n > 0 && Singleton(x).None?
    requires i.ub.Fin? && x.ub.Fin? && UDiv(i, x).Some?
    ensures UDiv(i, x).value == Interval(Fin(i.lb.n / x.ub.n), Fin(i.ub.n / x.lb.n))
  {
    OfEnds(i, x);
    EndsOfWords(i, x);
  }

  lemma ByNumber(i: Interval, c: int)
    requires Words(i) && Words(Just(c)) && c != 0 && c != 1
    ensures UDiv(i, Just(c)) ==
              Some(Make(Fin(As64(i.lb.n) / As64(c)), if i.ub.Fin? then Fin(As64(i.ub.n) / As64(c)) else PosInf))
  {
  }

  // ----- right under the condition -----

  predicate Good(i: Interval, x: Interval, n: int, d: int)
    requires Words(i) && Words(x) && Contains(i, n) && Contains(x, d)
  {
    UDiv(i, x).Some? && Contains(UDiv(i, x).value, Quotient64(n, d))
  }

  lemma NumberIsRight(i: Interval, c: int, n: int)
    requires Words(i) && Words(Just(c)) && c != 0 && c != 1 && Contains(i, n) && RightByNumber(i, c)
    ensures Good(i, Just(c), n, c)
  {
    ByNumber(i, c);
    var w := As64(c);
    if Straddles(i) {
      SmallQuotient(As64(i.lb.n), w);
      if i.ub.Fin? {
        SmallQuotient(i.ub.n, w);
        SmallQuotient(As64(n), w);
      }
    } else {
      DivMonotone(As64(i.lb.n), As64(n), w, w);
      if i.ub.Fin? {
        DivMonotone(As64(n), As64(i.ub.n), w, w);
      }
    }
  }

  lemma ShiftedContains(r: Interval, a: nat, n: nat, b: nat, c: nat, d: nat, e: nat)
    requires a <= n <= b && 0 < c <= d <= e <= a + 1 && (b + 1) % c == 0
    requires r == Interval(Fin((a + 1 - e) / e), Fin((b + 1 - c) / c))
    ensures Contains(r, n / d)
  {
    DivMonotone(a + 1 - e, n, e, d);
    DivMonotone(n, b, d, c);
    ShiftedQuotient(b, c);
  }

  lemma NegativeByPositiveIsRight(i: Interval, x: Interval, n: int, d: int)
    requires Words(i) && Words(x) && Lt(i.ub, Fin(0)) && x.lb.n > 0 && Singleton(x).None? && UDiv(i, x).Some?
    requires Contains(i, n) && Contains(x, d) && RightByPositive(i, x.lb.n)
    ensures Good(i, x, n, d)
  {
    NegativeByPositive(i, x);
    ShiftedContains(UDiv(i, x).value, As64(i.lb.n), As64(n), As64(i.ub.n), x.lb.n, d, x.ub.n);
  }

  lemma NegativeByNegativeIsRight(i: Interval, x: Interval, n: int, d: int)
    requires Words(i) && Words(x) && Lt(i.ub, Fin(0)) && Lt(x.ub, Fin(0)) && Singleton(x).None? && UDiv(i, x).Some?
    requires Contains(i, n) && Contains(x, d) && RightByNegative(i, x)
    ensures Good(i, x, n, d)
  {
    NegativeByNegative(i, x);
    DivMonotone(As64(i.lb.n + x.lb.n + 1), As64(n), As64(x.ub.n), As64(d));
    DivMonotone(As64(n), As64(i.ub.n), As64(d), As64(x.lb.n));
    SmallQuotient(As64(i.ub.n), As64(x.lb.n));
    SmallQuotient(As64(i.ub.n + x.ub.n + 1), As64(x.lb.n));
  }

  lemma DividendSplits(i: Interval, x: Interval)
    requires Words(i) && Words(x) && Singleton(x).None? && !Contains(x, 0) && Contains(i, 0)
    ensures UDiv(i, x) == BothOr(UDiv(Negatives(i), x), UDiv(Positives(i), x), Just(0))
  {
  }

  lemma DivisorSplits(i: Interval, x: Interval)
    requires Words(i) && Words(x) && Singleton(x).None? && Contains(x, 0)
    ensures UDiv(i, x) == BothOr(UDiv(i, Negatives(x)), UDiv(i, Positives(x)), Just(0))
  {
  }

  /** With zero joined to it, an interval contains what lies below its numbers. */
  lemma JoinedContains(a: Option<Interval>, b: Option<Interval>, v: nat, w: nat)
    requires BothOr(a, b, Just(0)).Some? && v <= w && (v == 0 || Contains(a.value, w) || Contains(b.value, w))
    ensures Contains(BothOr(a, b, Just(0)).value, v)
  {
  }

  /** The largest number has a quotient that a positive dividend has as well. */
  lemma CoveredByPositive(i: Interval, x: Interval, n: int, d: int) returns (w: nat)
    requires Words(i) && Words(x) && x.lb.n > 0 && Straddles(i) && Contains(i, n) && n < 0 && Contains(x, d)
    requires UDiv(Positives(i), x).Some? && Leq(Fin(U64MAX - U64MAX % x.lb.n), i.ub)
    ensures Quotient64(n, d) <= w && Contains(UDiv(Positives(i), x).value, w)
  {
    var b, c := if i.ub.Fin? then i.ub.n else U64MAX, x.lb.n;
    LargeQuotient(b, U64MAX, c);
    SmallQuotient(U64MAX, c);
    SmallQuotient(b, c);
    DivMonotone(As64(n), U64MAX, d, c);
    UDivSound(Positives(i), x, b, c);
    w := b / c;
  }

  lemma NegativePartIsRight(i: Interval, x: Interval, n: int, d: int)
    requires Words(i) && Words(x) && Singleton(x).None? && !Contains(x, 0) && Straddles(i) && UDiv(i, x).Some?
    requires Contains(i, n) && n < 0 && Contains(x, d) && UDivIsRight(i, x)
    ensures Good(i, x, n, d)
  {
    DividendSplits(i, x);
    var j, q := Negatives(i), Quotient64(n, d);
    var w := q;
    if x.lb.n < 0 {
      NegativeByNegativeIsRight(j, x, n, d);
    } else if TWO_64 % x.lb.n == 0 {
      NegativeByPositiveIsRight(j, x, n, d);
    } else {
      w := CoveredByPositive(i, x, n, d);
    }
    JoinedContains(UDiv(j, x), UDiv(Positives(i), x), q, w);
  }

  lemma DividendIsRight(i: Interval, x: Interval, n: int, d: int)
    requires Words(i) && Words(x) && Singleton(x).None? && !Contains(x, 0) && Contains(i, 0) && UDiv(i, x).Some?
    requires Contains(i, n) && Contains(x, d) && UDivIsRight(i, x)
    ensures Good(i, x, n, d)
  {
    if n < 0 {
      NegativePartIsRight(i, x, n, d);
    } else {
      DividendSplits(i, x);
      ByOne(n, As64(d));
      if n > 0 {
        UDivSound(Positives(i), x, n, d);
      }
      JoinedContains(UDiv(Negatives(i), x), UDiv(Positives(i), x), Quotient64(n, d), Quotient64(n, d));
    }
  }

  lemma NonzeroIsRight(i: Interval, x: Interval, n: int, d: int)
    requires Words(i) && Words(x) && !Contains(x, 0) && x != Just(1) && UDiv(i, x).Some?
    requires Contains(i, n) && Contains(x, d) && UDivIsRight(i, x)
    ensures Good(i, x, n, d)
  {
    if Singleton(x).Some? {
      NumberIsRight(i, d, n);
    } else if Contains(i, 0) {
      DividendIsRight(i, x, n, d);
    } else if i.lb.n > 0 {
      UDivSound(i, x, n, d);
    } else if x.lb.n > 0 {
      NegativeByPositiveIsRight(i, x, n, d);
    } else {
      NegativeByNegativeIsRight(i, x, n, d);
    }
  }

  /** Division by -1, the largest number, next to zero. */
  lemma MinusOneIsRight(i: Interval, x: Interval, n: int)
    requires Words(i) && Words(x) && Singleton(x).None? && Contains(x, 0) && x.lb == Fin(-1) && UDiv(i, x).Some?
    requires Contains(i, n) && RightBySplit(i, x)
    ensures Good(i, x, n, -1)
  {
    DivisorSplits(i, x);
    var l, u, q := Negatives(x), Positives(x), Quotient64(n, -1);
    var w := q;
    assert l == Just(-1);
    SmallQuotient(As64(n), U64MAX);
    if !Straddles(i) {
      NumberIsRight(i, -1, n);
    } else if Leq(Fin(U64MAX), i.ub) {
      ByNumber(i, -1);
      if i.ub.Fin? {
        SmallQuotient(i.ub.n, U64MAX);
      }
      if i.lb.n < -1 {
        NumberIsRight(i, -1, n);
      }
      SmallQuotient(As64(i.lb.n), U64MAX);
    } else if q > 0 && u == Just(1) {
      w := 1;
    } else if q > 0 {
      NonzeroIsRight(i, u, -1, 1);
      w := U64MAX;
      assert As64(-1) == U64MAX && U64MAX / 1 == U64MAX;
    }
    JoinedContains(UDiv(i, l), UDiv(i, u), q, w);
  }

  lemma DivisorIsRight(i: Interval, x: Interval, n: int, d: int)
    requires Words(i) && Words(x) && Singleton(x).None? && Contains(x, 0) && UDiv(i, x).Some?
    requires Contains(i, n) && Contains(x, d) && UDivIsRight(i, x)
    ensures Represents(UDiv(i, x).value, Quotient64(n, d))
  {
    var l, u := Negatives(x), Positives(x);
    if d == -1 && x.lb.n == -1 {
      MinusOneIsRight(i, x, n);
    } else {
      DivisorSplits(i, x);
      BothOrContains(UDiv(i, l), UDiv(i, u), Just(0), Quotient64(n, d));
      if d < 0 {
        NonzeroIsRight(i, l, n, d);
      } else if d > 0 && u == Just(1) {
        ByOne(As64(n), 1);
      } else if d > 0 {
        NonzeroIsRight(i, u, n, d);
      }
    }
  }

  lemma UDivRight(i: Interval, x: Interval, n: int, d: int)
    requires Words(i) && Words(x) && UDiv(i, x).Some? && Contains(i, n) && Contains(x, d) && UDivIsRight(i, x)
    ensures Represents(UDiv(i, x).value, Quotient64(n, d))
  {
    if x == Just(0) {
    } else if x == Just(1) {
      ByOne(As64(n), 1);
    } else if Contains(x, 0) {
      DivisorIsRight(i, x, n, d);
    } else {
      NonzeroIsRight(i, x, n, d);
    }
  }

  // ----- and only then -----

  /** The operands have a quotient that is not found. */
  predicate Misses(i: Interval, x: Interval, n: int, d: int)
    requires Words(i) && Words(x)
  {
    && Contains(i, n) && Contains(x, d)
    && UDiv(i, x).Some? && !Represents(UDiv(i, x).value, Quotient64(n, d))
  }

  lemma NumberMisses(i: Interval, c: int) returns (n: int)
    requires Words(i) && Words(Just(c)) && !RightByNumber(i, c)
    ensures Misses(i, Just(c), n, c)
  {
    ByNumber(i, c);
    var w := As64(c);
    if w <= As64(i.lb.n) {
      n := 0;
      SmallQuotient(0, w);
      SmallQuotient(As64(i.lb.n), w);
    } else {
      n := -1;
      SmallQuotient(i.ub.n, w);
      SmallQuotient(U64MAX, w);
    }
  }

  lemma SplitMisses(i: Interval, x: Interval)
    requires Words(i) && Words(x) && Singleton(x).None? && Contains(x, 0) && !RightBySplit(i, x)
    ensures Misses(i, x, -1, -1)
  {
    DivisorSplits(i, x);
    ByNumber(i, -1);
    SmallQuotient(As64(i.lb.n), U64MAX);
    SmallQuotient(i.ub.n, U64MAX);
    SmallQuotient(U64MAX, U64MAX);
  }

  /** Not found because it is too large. */
  lemma TooLarge(r: Interval, v: nat)
    requires NonNegative(r) && Lt(r.ub, Fin(v)) && v < TWO_64
    ensures !Represents(r, v)
  {
  }

  lemma QuotientFits(n: nat, d: nat)
    requires n < TWO_64 && d > 0
    ensures 0 <= n / d < TWO_64
  {
    DivMonotone(n, n, d, 1);
    ByOne(n, 1);
  }

  lemma ShiftedMisses(r: Interval, a: nat, b: nat, c: nat, e: nat)
    requires a <= b < TWO_64 && 0 < c <= e <= a + 1 && (b + 1) % c != 0
    requires r == Interval(Fin((a + 1 - e) / e), Fin((b + 1 - c) / c))
    ensures NonNegative(r) && Lt(r.ub, Fin(b / c)) && !Represents(r, b / c)
  {
    ShiftedQuotient(b, c);
    QuotientFits(b, c);
    QuotientFits(a + 1 - e, e);
    TooLarge(r, b / c);
  }

  lemma NegativeByPositiveMisses(i: Interval, x: Interval)
    requires Words(i) && Words(x) && Singleton(x).None? && x.lb.n > 0 && !RightByPositive(i, x.lb.n)
    requires Lt(i.ub, Fin(0)) && UDiv(i, x).Some?
    ensures Misses(i, x, i.ub.n, x.lb.n)
  {
    NegativeByPositive(i, x);
    ShiftedMisses(UDiv(i, x).value, As64(i.lb.n), As64(i.ub.n), x.lb.n, x.ub.n);
  }

  lemma NegativeByNegativeMisses(i: Interval, x: Interval)
    requires Words(i) && Words(x) && Singleton(x).None? && Lt(x.ub, Fin(0)) && !RightByNegative(i, x)
    requires UDiv(i, x).Some?
    ensures Misses(i, x, i.ub.n, x.lb.n)
  {
    NegativeByNegative(i, x);
    SmallQuotient(As64(i.ub.n), As64(x.lb.n));
    SmallQuotient(As64(i.ub.n + x.ub.n + 1), As64(x.lb.n));
    QuotientFits(As64(i.lb.n + x.lb.n + 1), As64(x.ub.n));
    TooLarge(UDiv(i, x).value, 1);
  }

  lemma JoinedBelow(a: Option<Interval>, b: Option<Interval>, v: nat)
    requires BothOr(a, b, Just(0)).Some? && v > 0
    requires NonNegative(a.value) && NonNegative(b.value) && Lt(a.value.ub, Fin(v)) && Lt(b.value.ub, Fin(v))
    ensures NonNegative(BothOr(a, b, Just(0)).value) && Lt(BothOr(a, b, Just(0)).value.ub, Fin(v))
  {
  }

  lemma PositivePart(i: Interval, x: Interval, q: nat)
    requires Words(i) && Words(x) && Singleton(x).None? && x.lb.n > 0 && x.ub.Fin? && Straddles(i) && i.ub.Fin?
    requires UDiv(Positives(i), x).Some? && i.ub.n / x.lb.n < q
    ensures NonNegative(UDiv(Positives(i), x).value) && Lt(UDiv(Positives(i), x).value.ub, Fin(q))
  {
    if i.ub.n > 0 {
      PositiveByPositive(Positives(i), x);
      QuotientFits(1, x.ub.n);
    } else {
      QuotientFits(0, x.lb.n);
    }
  }

  lemma NegativePart(i: Interval, x: Interval)
    requires Words(i) && Words(x) && Singleton(x).None? && x.lb.n > 0 && TWO_64 % x.lb.n != 0 && Straddles(i)
    requires UDiv(Negatives(i), x).Some?
    ensures x.ub.Fin? && NonNegative(UDiv(Negatives(i), x).value)
    ensures Lt(UDiv(Negatives(i), x).value.ub, Fin(U64MAX / x.lb.n))
  {
    NegativeByPositive(Negatives(i), x);
    ShiftedMisses(UDiv(Negatives(i), x).value, As64(i.lb.n), U64MAX, x.lb.n, x.ub.n);
  }

  lemma StraddlingMisses(i: Interval, x: Interval)
    requires Words(i) && Words(x) && Singleton(x).None? && x.lb.n > 0 && !RightByPositive(i, x.lb.n)
    requires Straddles(i) && UDiv(i, x).Some?
    ensures Misses(i, x, -1, x.lb.n)
  {
    var c, l, u := x.lb.n, Negatives(i), Positives(i);
    var q := U64MAX / c;
    DividendSplits(i, x);
    NegativePart(i, x);
    assert i.ub.n / c < q < TWO_64 by {
      LargeQuotient(i.ub.n, U64MAX, c);
      DivMonotone(i.ub.n, U64MAX, c, c);
      QuotientFits(U64MAX, c);
    }
    PositivePart(i, x, q);
    JoinedBelow(UDiv(l, x), UDiv(u, x), q);
    TooLarge(UDiv(i, x).value, q);
  }

  /** On 64-bit operands, the quotient is right exactly under the condition. */
  lemma UDivSoundIff(i: Interval, x: Interval)
    requires Words(i) && Words(x) && UDiv(i, x).Some?
    ensures (forall n, d :: Contains(i, n) && Contains(x, d) ==> Represents(UDiv(i, x).value, Quotient64(n, d)))
       <==> UDivIsRight(i, x)
  {
    if UDivIsRight(i, x) {
      forall n, d | Contains(i, n) && Contains(x, d) ensures Represents(UDiv(i, x).value, Quotient64(n, d)) {
        UDivRight(i, x, n, d);
      }
    } else if Singleton(x).Some? {
      var n := NumberMisses(i, x.lb.n);
    } else if Contains(x, 0) {
      SplitMisses(i, x);
    } else if Straddles(i) {
      StraddlingMisses(i, x);
    } else if x.lb.n > 0 {
      NegativeByPositiveMisses(i, x);
    } else {
      NegativeByNegativeMisses(i, x);
    }
  }

  /** An empty result for operands that are not: [-1, 5] by two is nothing. */
  lemma UDivIsEmpty()
    ensures UDiv(Interval(Fin(-1), Fin(5)), Just(2)) == Some(BOTTOM)
  {
    ByNumber(Interval(Fin(-1), Fin(5)), 2);
  }

  // ----- errors -----

  /** The dividend has a shifted lower end that is still a 64-bit number, and not both operands
      are unbounded; the divisor does not contain zero. */
  predicate PartDefined(i: Interval, x: Interval)
    requires i.lb.Fin? && x.lb.Fin?
  {
    || IsBottom(x) || Singleton(x).Some?
    || (&& (Leq(Fin(1), i.ub) ==> i.ub.Fin? || x.ub.Fin?)
        && (i.lb.n < 0 ==> x.ub.Fin?
                           && i.lb.n + 1 + (if x.lb.n > 0 then -x.ub.n else x.lb.n) >= -(TWO_64 / 2)))
  }

  predicate UDivIsDefined(i: Interval, x: Interval)
    requires i.lb.Fin? && x.lb.Fin?
  {
    if Contains(x, 0) && Singleton(x).None? then PartDefined(i, Negatives(x)) && PartDefined(i, Positives(x))
    else PartDefined(i, x)
  }

  lemma EndsDefined(j: Interval, x: Interval)
    requires Words(x) && !Contains(x, 0)
    ensures EndsUDiv(j, x).Some? <==>
              && (x.ub.Fin? || (j.lb.Fin? && j.ub.Fin?))
              && (j.lb.Fin? ==> j.lb.n >= -(TWO_64 / 2)) && (j.ub.Fin? ==> j.ub.n >= -(TWO_64 / 2))
  {
  }

  lemma UnsplitDefined(i: Interval, x: Interval)
    requires Words(i) && Words(x) && !Contains(x, 0) && !Contains(i, 0)
    ensures UDiv(i, x).Some? <==> PartDefined(i, x)
  {
    if Singleton(x).None? {
      OfEnds(i, x);
      EndsDefined(MakeDividend(i, x), x);
      if i.lb.n < 0 && x.lb.n > 0 {
        DividendForPositive(i, x);
      }
    }
  }

  lemma NonzeroDefined(i: Interval, x: Interval)
    requires Words(i) && Words(x) && !Contains(x, 0)
    ensures UDiv(i, x).Some? <==> PartDefined(i, x)
  {
    if Contains(i, 0) && Singleton(x).None? {
      DividendSplits(i, x);
      if i.lb.n < 0 {
        UnsplitDefined(Negatives(i), x);
      }
      if i.ub != Fin(0) {
        UnsplitDefined(Positives(i), x);
      }
    } else if Singleton(x).None? {
      UnsplitDefined(i, x);
    }
  }

  /** On 64-bit operands no error is raised exactly under the condition. */
  lemma UDivDefinedIff(i: Interval, x: Interval)
    requires Words(i) && Words(x)
    ensures UDiv(i, x).Some? <==> UDivIsDefined(i, x)
  {
    if Contains(x, 0) && Singleton(x).None? {
      DivisorSplits(i, x);
      if x.lb.n < 0 {
        NonzeroDefined(i, Negatives(x));
      }
      if x.ub != Fin(0) {
        NonzeroDefined(i, Positives(x));
      }
    } else if Singleton(x).None? {
      NonzeroDefined(i, x);
    }
  }
}
