/** How precise the operations on intervals are (src/crab/interval.hpp and src/crab/interval.cpp):
    no result is larger than stated here. */
module IntervalPrecision {
  import opened AsmSyntax
  import B = Bits
  import opened Interval
  import opened IntervalDivision
  import opened IntervalBits

  // ----- the lattice -----

  /** The join is the least interval that contains both. */
  lemma JoinIsLeast(i: Interval, x: Interval, r: Interval)
    requires Proper(i) && Proper(x)
    ensures Within(i, Join(i, x)) && Within(x, Join(i, x))
    ensures Within(i, r) && Within(x, r) ==> Within(Join(i, x), r)
  {
  }

  /** The widening is the least interval that contains both and whose bounds are those of the
      first, or infinite. */
  lemma WidenIsLeast(i: Interval, x: Interval, r: Interval)
    requires Proper(i) && Proper(x) && !IsBottom(i)
    requires Within(i, r) && Within(x, r) && (r.lb == i.lb || r.lb.NegInf?) && (r.ub == i.ub || r.ub.PosInf?)
    ensures Within(i, Widen(i, x)) && Within(x, Widen(i, x)) && Within(Widen(i, x), r)
  {
  }

  /** Narrowing by an interval inside lies in between, keeps every finite bound and takes the finite
      bounds of the smaller one where it has none. */
  lemma NarrowIsBetween(i: Interval, x: Interval)
    requires Proper(i) && Proper(x) && !IsBottom(x) && Within(x, i)
    ensures Within(x, Narrow(i, x)) && Within(Narrow(i, x), i)
    ensures i.lb.Fin? ==> Narrow(i, x).lb == i.lb
    ensures i.ub.Fin? ==> Narrow(i, x).ub == i.ub
    ensures (Narrow(i, x).lb.Fin? <==> i.lb.Fin? || x.lb.Fin?) && (Narrow(i, x).ub.Fin? <==> i.ub.Fin? || x.ub.Fin?)
  {
  }

  // ----- sums -----

  /** Between the ends of two intervals, a number next to a member, as near as it can be. */
  function Nearest(i: Interval, n: int): (m: int)
    requires !IsBottom(i) && Proper(i)
    ensures Contains(i, m)
    ensures Contains(i, n) ==> m == n
    ensures m < n ==> i.ub == Fin(m)
    ensures m > n ==> i.lb == Fin(m)
  {
    if Lt(Fin(n), i.lb) then i.lb.n else if Lt(i.ub, Fin(n)) then i.ub.n else n
  }

  /** The sum consists of sums. */
  lemma AddExact(i: Interval, x: Interval, v: int)
    requires Proper(i) && Proper(x) && !IsBottom(i) && !IsBottom(x) && Contains(Add(i, x), v)
    ensures exists n, m :: Contains(i, n) && Contains(x, m) && n + m == v
  {
    // the member of x that leaves the nearest rest for i
    var m := Nearest(x, v - SomeOf(i));
    var n := Nearest(i, v - m);
    var k := Nearest(x, v - n);
    assert n + k == v;
  }

  lemma SubtractExact(i: Interval, x: Interval, v: int)
    requires Proper(i) && Proper(x) && !IsBottom(i) && !IsBottom(x) && Contains(Subtract(i, x), v)
    ensures exists n, m :: Contains(i, n) && Contains(x, m) && n - m == v
  {
    var m := Nearest(x, SomeOf(i) - v);
    var n := Nearest(i, v + m);
    var k := Nearest(x, n - v);
    assert n - k == v;
  }

  // ----- remainders -----

  function Size(b: Bound): nat {
    if b.Fin? then Abs(b.n) else 0
  }

  /** The size of the largest finite end, and at least one. */
  function LargestSize(x: Interval): nat {
    var ends := if Size(x.lb) <= Size(x.ub) then Size(x.ub) else Size(x.lb);
    if ends == 0 then 1 else ends
  }

  /** Of no other sign than the dividend, and smaller than the size. */
  function Below(i: Interval, size: nat): Interval {
    Interval(if Leq(Fin(0), i.lb) then Fin(0) else Fin(1 - size),
             if Leq(i.ub, Fin(0)) then Fin(0) else Fin(size - 1))
  }

  /** Of no other sign than the dividend, and smaller than the size or no further from zero than a
      dividend. */
  function Reach(i: Interval, size: nat): Interval {
    Interval(Min(i.lb, Below(i, size).lb), Max(i.ub, Below(i, size).ub))
  }

  /** By bounded divisors other than zero, the remainder is smaller than the largest of them, and has
      no other sign than the dividend. */
  lemma SRemBelow(i: Interval, x: Interval)
    requires Proper(i) && Proper(x) && !IsBottom(x) && x.lb.Fin? && x.ub.Fin? && !Contains(x, 0)
    ensures Within(SRem(i, x), Below(i, LargestSize(x)))
  {
    if Singleton(i).Some? && Singleton(x).Some? {
      TruncatedDivision(Singleton(i).value, Singleton(x).value);
    }
  }

  /** By unbounded ones it lies between zero and the dividend. */
  lemma SRemBetween(i: Interval, x: Interval)
    requires Proper(i) && Proper(x) && !IsBottom(i) && !(x.lb.Fin? && x.ub.Fin?) && !Contains(x, 0)
    ensures Within(SRem(i, x), Join(i, Just(0)))
  {
  }

  lemma SRemOfNumbers(i: Interval, x: Interval)
    requires Singleton(i).Some? && Singleton(x).Some?
    ensures Within(SRem(i, x), Reach(i, LargestSize(x)))
  {
    if Singleton(x).value != 0 {
      TruncatedDivision(Singleton(i).value, Singleton(x).value);
    }
  }

  lemma SRemByNonzero(i: Interval, x: Interval)
    requires Proper(i) && Proper(x) && !Contains(x, 0) && (Singleton(i).None? || Singleton(x).None?)
    ensures Within(SRem(i, x), Reach(i, LargestSize(x)))
  {
  }

  /** In any case it has no other sign than the dividend, and is smaller than the largest divisor or no
      further from zero than the dividend. */
  lemma {:induction false} SRemBounded(i: Interval, x: Interval)
    requires Proper(i) && Proper(x)
    ensures Within(SRem(i, x), Reach(i, LargestSize(x)))
    decreases ZeroWeight(x)
  {
    if IsBottom(i) || IsBottom(x) {
    } else if Singleton(i).Some? && Singleton(x).Some? {
      SRemOfNumbers(i, x);
    } else if Contains(x, 0) {
      SRemBounded(i, Negatives(x));
      SRemBounded(i, Positives(x));
      SRemByParts(i, x);
    } else {
      SRemByNonzero(i, x);
    }
  }

  lemma SRemByParts(i: Interval, x: Interval)
    requires Proper(i) && Proper(x) && !IsBottom(i) && Contains(x, 0) && (Singleton(i).None? || Singleton(x).None?)
    requires Within(SRem(i, Negatives(x)), Reach(i, LargestSize(Negatives(x))))
    requires Within(SRem(i, Positives(x)), Reach(i, LargestSize(Positives(x))))
    ensures Within(SRem(i, x), Reach(i, LargestSize(x)))
  {
    var a, b, r := SRem(i, Negatives(x)), SRem(i, Positives(x)), Reach(i, LargestSize(x));
    ReachGrows(i, a, LargestSize(Negatives(x)), LargestSize(x));
    ReachGrows(i, b, LargestSize(Positives(x)), LargestSize(x));
    SRemProper(i, Negatives(x));
    SRemProper(i, Positives(x));
    JoinIsLeast(a, b, r);
    JoinIsLeast(Join(a, b), i, r);
  }

  lemma ReachGrows(i: Interval, a: Interval, size: nat, larger: nat)
    requires Within(a, Reach(i, size)) && (IsBottom(a) || size <= larger) && !IsBottom(i)
    ensures Within(a, Reach(i, larger)) && Within(i, Reach(i, larger))
  {
  }

  lemma {:induction false} SRemProper(i: Interval, x: Interval)
    requires Proper(i) && Proper(x)
    ensures Proper(SRem(i, x))
    decreases ZeroWeight(x)
  {
    if !(Singleton(i).Some? && Singleton(x).Some?) && Contains(x, 0) {
      SRemProper(i, Negatives(x));
      SRemProper(i, Positives(x));
    }
  }

  /** An interval whose members are all smaller than a number, in size. */
  lemma AllSmaller(i: Interval, b: nat)
    requires Proper(i) && !IsBottom(i) && forall n :: Contains(i, n) ==> Abs(n) < b
    ensures i.lb.Fin? && i.ub.Fin? && Abs(i.lb.n) < b && Abs(i.ub.n) < b
  {
    var least, largest := Nearest(i, 0 - b), Nearest(i, b);
    assert Abs(least) < b && Abs(largest) < b;
  }

  /** A dividend that is smaller than every divisor stays as it is. */
  lemma SRemKeeps(i: Interval, x: Interval)
    requires Proper(i) && Proper(x) && !IsBottom(i) && !IsBottom(x) && x.lb.Fin? && x.ub.Fin?
    requires forall n, d :: Contains(i, n) && Contains(x, d) ==> Abs(n) < Abs(d)
    ensures SRem(i, x) == i
  {
    assert Contains(x, x.lb.n) && Contains(x, x.ub.n);
    AllSmaller(i, Abs(x.lb.n));
    AllSmaller(i, Abs(x.ub.n));
    if Contains(x, 0) {
      AllSmaller(i, 0);
    }
    SRemOfSmaller(i, x);
  }

  lemma SRemOfSmaller(i: Interval, x: Interval)
    requires i.lb.Fin? && i.ub.Fin? && x.lb.Fin? && x.ub.Fin? && !IsBottom(i) && !IsBottom(x) && !Contains(x, 0)
    requires Abs(i.lb.n) < Abs(x.lb.n) && Abs(i.ub.n) < Abs(x.lb.n)
    requires Abs(i.lb.n) < Abs(x.ub.n) && Abs(i.ub.n) < Abs(x.ub.n)
    ensures SRem(i, x) == i
  {
    if Singleton(i).Some? {
      TruncatedDivision(Singleton(i).value, x.lb.n);
    }
  }

  // ----- quotients -----

  /** A finite bound is a quotient of members. */
  ghost predicate IsQuotient(i: Interval, x: Interval, b: Bound) {
    b.Fin? ==> exists n: nat, d: nat :: Contains(i, n) && Contains(x, d) && UnsignedDiv(n, d) == b.n
  }

  lemma QuotientOf(i: Interval, x: Interval, n: nat, d: nat)
    requires Contains(i, n) && Contains(x, d)
    ensures IsQuotient(i, x, Fin(UnsignedDiv(n, d)))
  {
  }

  /** The quotient of two ends. */
  lemma EndsAttained(i: Interval, x: Interval, a: Bound, b: Bound)
    requires Proper(i) && Proper(x) && NonNegative(i) && Leq(Fin(1), x.lb) && !IsBottom(i) && !IsBottom(x)
    requires (a == i.lb || a == i.ub) && (b == x.lb || b == x.ub) && BoundUDiv(a, b).Some?
    ensures IsQuotient(i, x, BoundUDiv(a, b).value)
  {
    if a.Fin? {
      if b.Fin? {
        QuotientOf(i, x, a.n, b.n);
      } else {
        var d := Nearest(x, a.n + 1);
        QuotientOf(i, x, a.n, d);
        SmallOverLarge(a.n, d);
      }
    }
  }

  lemma SmallOverLarge(n: nat, d: nat)
    requires n < d
    ensures n / d == 0
  {
  }

  lemma PartOfQuotients(i: Interval, x: Interval, j: Interval, y: Interval, b: Bound)
    requires IsQuotient(j, y, b) && Within(j, i) && Within(y, x)
    ensures IsQuotient(i, x, b)
  {
    if b.Fin? {
      var n: nat, d: nat :| Contains(j, n) && Contains(y, d) && UnsignedDiv(n, d) == b.n;
      QuotientOf(i, x, n, d);
    }
  }

  /** Both bounds are attained. */
  ghost predicate IsTight(i: Interval, x: Interval, r: Interval) {
    IsQuotient(i, x, r.lb) && IsQuotient(i, x, r.ub)
  }

  lemma UDivOfNumber(i: Interval, x: Interval, c: nat)
    requires Proper(i) && NonNegative(i) && !IsBottom(i) && x == Just(c) && c < TWO_64
    requires UDiv(i, x).Some? && !IsBottom(UDiv(i, x).value)
    ensures IsTight(i, x, UDiv(i, x).value)
  {
    NumberCases(i, c);
    if c == 0 {
      QuotientOf(i, x, Nearest(i, 0), 0);
    } else {
      EndOverNumber(i, x, i.lb, c);
      EndOverNumber(i, x, i.ub, c);
    }
  }

  lemma NumberCases(i: Interval, c: nat)
    requires Proper(i) && NonNegative(i) && !IsBottom(i) && c < TWO_64
    ensures c == 0 ==> UDiv(i, Just(c)) == Some(Just(0))
    ensures c == 1 ==> UDiv(i, Just(c)) == Some(i)
    ensures c > 1 && UDiv(i, Just(c)).Some? ==>
              && BoundUDiv(i.lb, Fin(c)).Some? && BoundUDiv(i.ub, Fin(c)).Some?
              && (UDiv(i, Just(c)).value ==
                    Interval(BoundUDiv(i.lb, Fin(c)).value, BoundUDiv(i.ub, Fin(c)).value)
                  || UDiv(i, Just(c)).value == BOTTOM)
  {
    assert Singleton(Just(c)) == Some(c) && CastU64(c) == Some(c);
  }

  lemma EndOverNumber(i: Interval, x: Interval, a: Bound, c: nat)
    requires NonNegative(i) && !IsBottom(i) && (a == i.lb || a == i.ub) && Contains(x, c) && c > 0
    ensures BoundUDiv(a, Fin(c)).Some? ==> IsQuotient(i, x, BoundUDiv(a, Fin(c)).value)
    ensures c == 1 ==> IsQuotient(i, x, a)
  {
    if a.Fin? {
      QuotientOf(i, x, a.n, c);
      ByOne(a.n, c);
    }
  }

  lemma UDivOfEnds(i: Interval, x: Interval)
    requires Proper(i) && Proper(x) && Leq(Fin(1), i.lb) && Leq(Fin(1), x.lb) && !IsBottom(i) && !IsBottom(x)
    requires EndsUDiv(i, x).Some? && !IsBottom(EndsUDiv(i, x).value)
    ensures IsTight(i, x, EndsUDiv(i, x).value)
  {
    EndsAttained(i, x, i.lb, x.lb);
    EndsAttained(i, x, i.lb, x.ub);
    EndsAttained(i, x, i.ub, x.lb);
    EndsAttained(i, x, i.ub, x.ub);
  }

  /** The bounds of a join with zero are bounds of the part, or zero. */
  lemma TightWithZero(i: Interval, x: Interval, a: Interval)
    requires IsQuotient(i, x, Fin(0)) && (!IsBottom(a) ==> IsTight(i, x, a))
    ensures IsTight(i, x, Join(Join(BOTTOM, a), Just(0)))
  {
  }

  lemma UDivByParts(i: Interval, x: Interval)
    requires Proper(i) && Proper(x) && NonNegative(i) && NonNegative(x) && !IsBottom(i) && Contains(x, 0)
    requires UDiv(i, x).Some? && !(Singleton(x).Some? && CastU64(Singleton(x).value).Some?)
    requires IsQuotient(i, x, Fin(0))
    requires UDiv(i, Positives(x)).Some? && !IsBottom(Positives(x)) ==>
               IsTight(i, Positives(x), UDiv(i, Positives(x)).value)
    ensures IsTight(i, x, UDiv(i, x).value)
  {
    assert IsBottom(Negatives(x)) && UDiv(i, Negatives(x)) == Some(BOTTOM);
    var a := UDiv(i, Positives(x)).value;
    if !IsBottom(Positives(x)) {
      PartOfQuotients(i, x, i, Positives(x), a.lb);
      PartOfQuotients(i, x, i, Positives(x), a.ub);
    }
    TightWithZero(i, x, a);
  }

  lemma UDivOfParts(i: Interval, x: Interval)
    requires Proper(i) && Proper(x) && NonNegative(i) && NonNegative(x) && !IsBottom(x) && Contains(i, 0)
    requires UDiv(i, x).Some? && !(Singleton(x).Some? && CastU64(Singleton(x).value).Some?) && !Contains(x, 0)
    requires IsQuotient(i, x, Fin(0))
    requires UDiv(Positives(i), x).Some? && !IsBottom(Positives(i)) ==>
               IsTight(Positives(i), x, UDiv(Positives(i), x).value)
    ensures IsTight(i, x, UDiv(i, x).value)
  {
    assert IsBottom(Negatives(i)) && UDiv(Negatives(i), x) == Some(BOTTOM);
    var a := UDiv(Positives(i), x).value;
    if !IsBottom(Positives(i)) {
      PartOfQuotients(i, x, Positives(i), x, a.lb);
      PartOfQuotients(i, x, Positives(i), x, a.ub);
    }
    TightWithZero(i, x, a);
  }

  /** The quotient of what is not negative is no larger than it has to be: a finite bound is itself a
      quotient. */
  lemma {:induction false} UDivTight(i: Interval, x: Interval)
    requires Proper(i) && Proper(x) && NonNegative(i) && NonNegative(x) && !IsBottom(i) && !IsBottom(x)
    requires UDiv(i, x).Some?
    ensures !IsBottom(UDiv(i, x).value) && IsTight(i, x, UDiv(i, x).value)
    decreases ZeroWeight(i) + ZeroWeight(x)
  {
    UDivSound(i, x, Nearest(i, 0), Nearest(x, 0));
    if Singleton(x).Some? && CastU64(Singleton(x).value).Some? {
      UDivOfNumber(i, x, Singleton(x).value);
    } else if Contains(x, 0) {
      QuotientOf(i, x, Nearest(i, 0), 0);
      if !IsBottom(Positives(x)) {
        UDivTight(i, Positives(x));
      }
      UDivByParts(i, x);
    } else if Contains(i, 0) {
      QuotientOf(i, x, 0, Nearest(x, 0));
      if !IsBottom(Positives(i)) {
        UDivTight(Positives(i), x);
      }
      UDivOfParts(i, x);
    } else {
      UDivOfEnds(i, x);
    }
  }

  // ----- unsigned remainders -----

  /** Of positive numbers, by bounded divisors other than zero, the remainder is smaller than the
      largest of them. */
  lemma URemBelow(i: Interval, x: Interval)
    requires Proper(i) && Proper(x) && Leq(Fin(1), i.lb) && Leq(Fin(1), x.lb) && x.ub.Fin? && URem(i, x).Some?
    ensures Within(URem(i, x).value, Below(i, LargestSize(x)))
  {
    if BothNumbers(i, x) && !IsBottom(x) {
      Euclid(Singleton(i).value, Singleton(x).value);
    }
  }

  /** In any case it stays below the largest divisor or the largest dividend. */
  lemma {:induction false} URemBounded(i: Interval, x: Interval)
    requires Proper(i) && Proper(x) && NonNegative(i) && NonNegative(x) && URem(i, x).Some?
    ensures Within(URem(i, x).value, Reach(i, LargestSize(x)))
    decreases ZeroWeight(i) + ZeroWeight(x)
  {
    if IsBottom(i) || IsBottom(x) {
    } else if BothNumbers(i, x) {
      URemOfNumbers(i, x);
    } else if Contains(x, 0) {
      URemBounded(i, Positives(x));
      URemByParts(i, x);
    } else if Contains(i, 0) {
      URemBounded(Positives(i), x);
      URemOfParts(i, x);
    } else {
      URemByNonzero(i, x);
    }
  }

  lemma URemOfNumbers(i: Interval, x: Interval)
    requires Proper(i) && Proper(x) && NonNegative(i) && NonNegative(x) && BothNumbers(i, x)
    ensures Within(URem(i, x).value, Reach(i, LargestSize(x)))
  {
    if Singleton(x).value != 0 {
      Euclid(Singleton(i).value, Singleton(x).value);
    }
  }

  lemma URemByNonzero(i: Interval, x: Interval)
    requires Proper(i) && Proper(x) && Leq(Fin(1), i.lb) && Leq(Fin(1), x.lb) && !IsBottom(i) && !IsBottom(x)
    requires !BothNumbers(i, x) && URem(i, x).Some?
    ensures Within(URem(i, x).value, Reach(i, LargestSize(x)))
  {
  }

  lemma URemByParts(i: Interval, x: Interval)
    requires Proper(i) && Proper(x) && NonNegative(i) && NonNegative(x) && !IsBottom(i) && Contains(x, 0)
    requires !BothNumbers(i, x) && URem(i, x).Some?
    requires URem(i, Positives(x)).Some? ==>
               Within(URem(i, Positives(x)).value, Reach(i, LargestSize(Positives(x))))
    ensures Within(URem(i, x).value, Reach(i, LargestSize(x)))
  {
    assert URem(i, Negatives(x)) == Some(BOTTOM);
    ReachGrows(i, URem(i, Positives(x)).value, LargestSize(Positives(x)), LargestSize(x));
  }

  lemma URemOfParts(i: Interval, x: Interval)
    requires Proper(i) && Proper(x) && NonNegative(i) && NonNegative(x) && Contains(i, 0) && !Contains(x, 0)
    requires !BothNumbers(i, x) && URem(i, x).Some? && !IsBottom(x)
    requires URem(Positives(i), x).Some? ==>
               Within(URem(Positives(i), x).value, Reach(Positives(i), LargestSize(x)))
    ensures Within(URem(i, x).value, Reach(i, LargestSize(x)))
  {
    assert URem(Negatives(i), x) == Some(BOTTOM);
  }

  /** A dividend below every divisor stays as it is. */
  lemma URemKeeps(i: Interval, x: Interval)
    requires Proper(i) && Proper(x) && Leq(Fin(1), i.lb) && i.ub.Fin? && !IsBottom(i) && !IsBottom(x)
    requires x.ub.Fin? && Lt(i.ub, x.lb) && x.ub.n < TWO_64
    ensures URem(i, x) == Some(i)
  {
    if BothNumbers(i, x) {
      Euclid(Singleton(i).value, Singleton(x).value);
    }
  }

  // ----- truncation -----

  /** All members wrap around equally often. */
  ghost predicate WrapsAsWhole(i: Interval, t: IntType, k: int)
    requires t.bits > 0
  {
    forall n :: Contains(i, n) ==> Wrap(n, t) == n - k
  }

  /** Then nothing is added to the wrapped values, unless the interval is too long for the type. */
  lemma TruncateIsWhole(i: Interval, t: IntType, k: int)
    requires Proper(i) && t.bits > 0 && !IsBottom(i) && WrapsAsWhole(i, t, k)
    requires i.lb.Fin? && i.ub.Fin? && FitsType(i.ub.n - i.lb.n, t)
    ensures TruncateTo(i, t) == Interval(Fin(i.lb.n - k), Fin(i.ub.n - k))
  {
    assert Contains(i, i.lb.n) && Contains(i, i.ub.n);
    if Within(i, Full(t)) {
      WrapFitting(i.lb.n, t);
    }
  }

  // ----- bit operations -----

  /** A conjunction is not negative and not larger than either operand. */
  lemma AndBounded(i: Interval, x: Interval, r: int)
    requires Proper(i) && Proper(x) && Leq(Fin(0), i.lb) && Leq(Fin(0), x.lb) && Contains(And(i, x), r)
    ensures r >= 0 && Leq(Fin(r), i.ub) && Leq(Fin(r), x.ub)
  {
    if Singleton(i).Some? && Singleton(x).Some? {
      B.AndShrinks(Singleton(i).value, Singleton(x).value);
    } else if x == Just(U32MAX) {
      MaskBounded(i, r);
    } else if Contains(x, U64MAX) {
      TruncateBounded(i, r);
    }
  }

  lemma MaskBounded(i: Interval, r: int)
    requires Proper(i) && Leq(Fin(0), i.lb) && !IsBottom(i) && Singleton(i).None? && Contains(MaskTo(i, U32TYPE), r)
    ensures 0 <= r <= U32MAX && Leq(Fin(r), i.ub)
  {
    LowWords(i.lb.n);
    if i.ub.Fin? {
      LowWords(i.ub.n);
      LowWords(i.ub.n - i.lb.n);
    }
  }

  /** The low half of a number, and the range of low halves. */
  lemma LowWords(n: int)
    ensures 0 <= Wrap(n, U32TYPE) <= U32MAX && (0 <= n <= U32MAX ==> Wrap(n, U32TYPE) == n)
    ensures Full(U32TYPE) == Interval(Fin(0), Fin(U32MAX)) && (FitsType(n, U32TYPE) <==> 0 <= n <= U32MAX)
  {
    Maxima();
    WrapCounts(n, U32TYPE);
    if 0 <= n <= U32MAX {
      WrapFitting(n, U32TYPE);
    }
  }

  lemma TruncateBounded(i: Interval, r: int)
    requires Proper(i) && Leq(Fin(0), i.lb) && !IsBottom(i) && Contains(TruncateTo(i, U64TYPE), r)
    ensures 0 <= r <= U64MAX && Leq(Fin(r), i.ub)
  {
    LongWords(i.lb.n);
    if i.ub.Fin? {
      LongWords(i.ub.n);
    }
  }

  lemma LongWords(n: int)
    ensures 0 <= Wrap(n, U64TYPE) <= U64MAX && Full(U64TYPE) == Interval(Fin(0), Fin(U64MAX))
  {
    Maxima();
    WrapCounts(n, U64TYPE);
  }

  /** Of what is not negative, disjunctions stay below the fill of the larger bound; of two numbers
      they are one. */
  lemma OrXorBounded(i: Interval, x: Interval, r: int)
    requires Leq(Fin(0), i.lb) && Leq(Fin(0), x.lb) && (Contains(Or(i, x), r) || Contains(Xor(i, x), r))
    ensures r >= 0
    ensures i.ub.Fin? && x.ub.Fin? ==> r <= B.FillOnes(if i.ub.n <= x.ub.n then x.ub.n else i.ub.n)
  {
    if Singleton(i).Some? && Singleton(x).Some? {
      var n, m := Singleton(i).value, Singleton(x).value;
      BelowFill(n, m, if n <= m then m else n);
    }
  }

  lemma OrXorOfNumbers(n: int, m: int)
    ensures Or(Just(n), Just(m)) == Just(B.Or(n, m)) && Xor(Just(n), Just(m)) == Just(B.Xor(n, m))
    ensures And(Just(n), Just(m)) == Just(B.And(n, m))
  {
    assert Singleton(Just(n)) == Some(n) && Singleton(Just(m)) == Some(m);
  }

  // ----- shifts -----

  /** A finite bound of a shift to the left is a shifted number. */
  lemma ShlTight(i: Interval, k: nat)
    requires Proper(i) && !IsBottom(i) && k <= 128
    ensures Shifted(i, Just(k)).lb.Fin? ==> IsShifted(i, k, Shifted(i, Just(k)).lb.n)
    ensures Shifted(i, Just(k)).ub.Fin? ==> IsShifted(i, k, Shifted(i, Just(k)).ub.n)
  {
    var p, r := Just(B.Pow2(k)), Shifted(i, Just(k));
    MulTight(i, p);
    forall n, m | Contains(i, n) && Contains(p, m) ensures n * m == B.ShiftLeft(n, k) {
      B.ShiftLeftIsProduct(n, k);
    }
  }

  ghost predicate IsShifted(i: Interval, k: nat, v: int) {
    exists n :: Contains(i, n) && B.ShiftLeft(n, k) == v
  }

  /** A shift to the right of what is bounded and not negative lies between numbers shifted. */
  lemma LShrTight(i: Interval, k: nat, v: int)
    requires Proper(i) && !IsBottom(i) && Leq(Fin(0), i.lb) && i.ub.Fin? && 0 < k < 0x8000_0000
    ensures LShr(i, Just(k)).Some?
    ensures Contains(LShr(i, Just(k)).value, v) ==>
              exists n, m :: Contains(i, n) && Contains(i, m) && B.ShiftRight(n, k) <= v <= B.ShiftRight(m, k)
  {
    assert Contains(i, i.lb.n) && Contains(i, i.ub.n);
  }
}
