/** Division and remainder of intervals (src/crab/interval.cpp). */
module IntervalDivision {
  import opened AsmSyntax
  import opened Interval

  // ----- what is computed on numbers -----

  function Abs(n: int): nat {
    if n < 0 then -n else n
  }

  /** Division of cpp_int: towards zero. */
  function TruncDiv(n: int, d: int): int
    requires d != 0
  {
    var q := Abs(n) / Abs(d);
    if (n < 0) == (d < 0) then q else -q
  }

  /** Remainder of cpp_int: with the sign of the dividend. */
  function TruncRem(n: int, d: int): int
    requires d != 0
  {
    var r := Abs(n) % Abs(d);
    if n < 0 then -r else r
  }

  lemma Euclid(n: nat, d: nat)
    requires d > 0
    ensures n == d * (n / d) + n % d && n % d < d && n % d <= n && n / d >= 0
    ensures n < d ==> n % d == n
  {
  }

  lemma SignsOut(d: int, q: int)
    ensures d * -q == -(d * q) && -d * q == -(d * q)
  {
  }

  /** The remainder of a truncated division, told by its properties. */
  ghost predicate IsRemainder(n: int, d: int, r: int) {
    && Abs(r) < Abs(d) && Abs(r) <= Abs(n)
    && (n >= 0 ==> r >= 0) && (n <= 0 ==> r <= 0)
    && (Abs(n) < Abs(d) ==> r == n)
  }

  lemma TruncatedDivision(n: int, d: int)
    requires d != 0
    ensures n == d * TruncDiv(n, d) + TruncRem(n, d) && IsRemainder(n, d, TruncRem(n, d))
  {
    var q, r := Abs(n) / Abs(d), Abs(n) % Abs(d);
    Euclid(Abs(n), Abs(d));
    SignsOut(d, q);
  }

  /** Signed and unsigned modulo and unsigned division as an instruction does them: by zero,
      the dividend stays as it is, and the quotient is zero. */
  function SignedMod(n: int, d: int): int {
    if d == 0 then n else TruncRem(n, d)
  }

  function UnsignedMod(n: nat, d: nat): nat {
    if d == 0 then n else n % d
  }

  function UnsignedDiv(n: nat, d: nat): nat {
    if d == 0 then 0 else n / d
  }

  // ----- signed remainder -----

  /** The two halves of an interval around zero. */
  function Negatives(x: Interval): Interval {
    Make(x.lb, Fin(-1))
  }

  function Positives(x: Interval): Interval {
    Make(Fin(1), x.ub)
  }

  function ZeroWeight(x: Interval): nat {
    if Contains(x, 0) then 1 else 0
  }

  /** SRem */
  function SRem(i: Interval, x: Interval): Interval
    decreases ZeroWeight(x)
  {
    if IsBottom(i) || IsBottom(x) then BOTTOM
    else if Singleton(i).Some? && Singleton(x).Some? then
      if Singleton(x).value == 0 then i
      else Just(TruncRem(Singleton(i).value, Singleton(x).value))
    else if Contains(x, 0) then
      Join(Join(SRem(i, Negatives(x)), SRem(i, Positives(x))), i)
    else if x.ub.Fin? && x.lb.Fin? then
      var a, b := Abs(x.lb.n), Abs(x.ub.n);
      var minDivisor, maxDivisor := if a <= b then a else b, if a <= b then b else a;
      if Lt(i.ub, Fin(minDivisor)) && Lt(Negate(i.lb), Fin(minDivisor)) then i
      else if Lt(i.lb, Fin(0)) then
        if Lt(Fin(0), i.ub) then Make(Fin(-(maxDivisor - 1)), Fin(maxDivisor - 1))
        else Make(Fin(-(maxDivisor - 1)), Fin(0))
      else Make(Fin(0), Fin(maxDivisor - 1))
    else Join(i, Just(0))
  }

  lemma SRemNonzero(i: Interval, x: Interval, n: int, d: int, r: int)
    requires Contains(i, n) && Contains(x, d) && !Contains(x, 0) && IsRemainder(n, d, r)
    requires Singleton(i).None? || Singleton(x).None?
    ensures Contains(SRem(i, x), r)
  {
  }

  /** Every truncated remainder lies in the remainder, whatever the intervals. */
  lemma {:induction false} SRemSound(i: Interval, x: Interval, n: int, d: int)
    requires Contains(i, n) && Contains(x, d)
    ensures Contains(SRem(i, x), SignedMod(n, d))
    decreases ZeroWeight(x)
  {
    if Singleton(i).Some? && Singleton(x).Some? {
    } else if Contains(x, 0) {
      if d < 0 {
        SRemSound(i, Negatives(x), n, d);
      } else if d > 0 {
        SRemSound(i, Positives(x), n, d);
      }
    } else {
      TruncatedDivision(n, d);
      SRemNonzero(i, x, n, d, TruncRem(n, d));
    }
  }

  // ----- unsigned division -----

  /** cast_to<uint64_t>; numbers too large for it raise an error. */
  function CastU64(n: int): Option<nat> {
    if 0 <= n < TWO_64 then Some(n)
    else if -(TWO_64 / 2) <= n < 0 then Some(n + TWO_64)
    else None
  }

  /** extended_number::UDiv; None stands for the errors it raises. */
  function BoundUDiv(a: Bound, b: Bound): Option<Bound> {
    if b == Fin(0) then None
    else if !b.Fin? then if a.Fin? then Some(Fin(0)) else None
    else if !a.Fin? then Some(a)
    else
      var n, d := if a.n >= 0 then Some(a.n) else CastU64(a.n), if b.n >= 0 then Some(b.n) else CastU64(b.n);
      if n.None? || d.None? then None else Some(Fin(n.value / d.value))
  }

  /** make_dividend_when_both_nonzero */
  function MakeDividend(i: Interval, x: Interval): Interval
    requires Proper(i) && Proper(x)
  {
    if Leq(Fin(0), i.ub) then i
    else if Lt(x.ub, Fin(0)) then Add(Add(i, x), Just(1))
    else Subtract(Add(i, Just(1)), x)
  }

  function BothOr(a: Option<Interval>, b: Option<Interval>, c: Interval): Option<Interval> {
    if a.None? || b.None? then None else Some(Join(Join(a.value, b.value), c))
  }

  /** The least and the greatest quotient of the ends. */
  function EndsUDiv(i: Interval, x: Interval): Option<Interval> {
    var a, b := BoundUDiv(i.lb, x.lb), BoundUDiv(i.lb, x.ub);
    var c, d := BoundUDiv(i.ub, x.lb), BoundUDiv(i.ub, x.ub);
    if a.None? || b.None? || c.None? || d.None? then None
    else Some(Make(Min4(a.value, b.value, c.value, d.value), Max4(a.value, b.value, c.value, d.value)))
  }

  /** UDiv */
  function UDiv(i: Interval, x: Interval): Option<Interval>
    requires Proper(i) && Proper(x)
    decreases ZeroWeight(i) + ZeroWeight(x)
  {
    if IsBottom(i) || IsBottom(x) then Some(BOTTOM)
    else if Singleton(x).Some? && CastU64(Singleton(x).value).Some? then
      var c := CastU64(Singleton(x).value).value;
      if c == 1 then Some(i)
      else if c > 0 then
        var lb, ub := BoundUDiv(i.lb, Fin(c)), BoundUDiv(i.ub, Fin(c));
        if lb.None? || ub.None? then None else Some(Make(lb.value, ub.value))
      else Some(Just(0))
    else if Contains(x, 0) then
      BothOr(UDiv(i, Negatives(x)), UDiv(i, Positives(x)), Just(0))
    else if Contains(i, 0) then
      BothOr(UDiv(Negatives(i), x), UDiv(Positives(i), x), Just(0))
    else EndsUDiv(MakeDividend(i, x), x)
  }

  predicate NonNegative(i: Interval) {
    Leq(Fin(0), i.lb)
  }

  /** A number as an instruction reads it: of 64 bits, without a sign. */
  function As64(n: int): int {
    if n < 0 then n + TWO_64 else n
  }

  /** No number is too small to be read. */
  predicate Reads64(i: Interval) {
    Leq(Fin(-(TWO_64 / 2)), i.lb)
  }

  predicate SignDefinite(i: Interval) {
    Reads64(i) && (Leq(Fin(1), i.lb) || Lt(i.ub, Fin(0)))
  }

  /** A larger dividend and a smaller divisor make a larger quotient. */
  lemma {:induction false} DivMonotone(a: nat, b: nat, c: nat, d: nat)
    requires a <= b && 0 < d <= c
    ensures a / c <= b / d
  {
    var q, r := a / c, b / d;
    assert a == c * q + a % c && b == d * r + b % d;
    if q > r {
      LargerProduct(c, q, d, r);
    }
  }

  lemma LargerProduct(c: nat, q: nat, d: nat, r: nat)
    requires d <= c && q > r
    ensures c * q >= d * r + d
  {
    assert c * q >= d * q;
    assert d * q >= d * (r + 1);
  }

  lemma BoundUDivBrackets(i: Interval, x: Interval, n: nat, d: int)
    requires Contains(i, n) && Contains(x, d) && NonNegative(i) && SignDefinite(x)
    ensures BoundUDiv(i.lb, x.ub).Some? ==> Leq(BoundUDiv(i.lb, x.ub).value, Fin(n / As64(d)))
    ensures BoundUDiv(i.ub, x.lb).Some? ==> Leq(Fin(n / As64(d)), BoundUDiv(i.ub, x.lb).value)
  {
    if x.ub.Fin? {
      DivMonotone(i.lb.n, n, As64(x.ub.n), As64(d));
    } else {
      assert n / As64(d) >= 0;
    }
    if i.ub.Fin? {
      DivMonotone(n, i.ub.n, As64(d), As64(x.lb.n));
    }
  }

  /** Neither contains zero. */
  lemma UDivNonzero(i: Interval, x: Interval, n: nat, d: int, q: int)
    requires Proper(i) && Proper(x) && Contains(i, n) && Contains(x, d) && UDiv(i, x).Some?
    requires Leq(Fin(1), i.lb) && SignDefinite(x)
    requires BoundUDiv(i.lb, x.ub).Some? ==> Leq(BoundUDiv(i.lb, x.ub).value, Fin(q))
    requires BoundUDiv(i.ub, x.lb).Some? ==> Leq(Fin(q), BoundUDiv(i.ub, x.lb).value)
    requires d == 1 ==> q == n
    ensures Contains(UDiv(i, x).value, q)
  {
  }

  /** The divisor is a number. */
  lemma UDivByNumber(i: Interval, x: Interval, n: nat, d: int)
    requires Proper(i) && Proper(x) && NonNegative(i) && Contains(i, n) && x == Just(d) && CastU64(d).Some?
    requires UDiv(i, x).Some?
    ensures Contains(UDiv(i, x).value, UnsignedDiv(n, As64(d)))
  {
    if d == 1 {
      assert n / 1 == n;
    } else if d != 0 {
      BoundUDivBrackets(i, x, n, d);
      assert CastU64(d).value == As64(d) && BoundUDiv(i.lb, Fin(As64(d))) == BoundUDiv(i.lb, x.ub);
    }
  }

  lemma ByOne(n: nat, d: nat)
    requires d > 0
    ensures (d == 1 ==> n / d == n) && (n == 0 ==> n / d == 0)
  {
  }

  /** Every quotient of a non-negative number by any 64-bit number lies in the quotient. */
  lemma {:induction false} UDivSound(i: Interval, x: Interval, n: nat, d: int)
    requires Proper(i) && Proper(x) && NonNegative(i) && Reads64(x) && Contains(i, n) && Contains(x, d)
    requires UDiv(i, x).Some?
    ensures Contains(UDiv(i, x).value, UnsignedDiv(n, As64(d)))
    decreases ZeroWeight(i) + ZeroWeight(x)
  {
    if d != 0 {
      ByOne(n, As64(d));
    }
    if Singleton(x).Some? && CastU64(Singleton(x).value).Some? {
      UDivByNumber(i, x, n, d);
    } else if Contains(x, 0) {
      if d != 0 {
        UDivSound(i, if d > 0 then Positives(x) else Negatives(x), n, d);
      }
    } else if Contains(i, 0) {
      if n > 0 {
        UDivSound(Positives(i), x, n, d);
      }
    } else {
      BoundUDivBrackets(i, x, n, d);
      UDivNonzero(i, x, n, d, n / As64(d));
    }
  }

  /** A negative dividend is shifted before it is divided, which is wrong: -1 is the largest
      number, and a third of it is not in the quotient. */
  lemma UDivMissesNegative()
    ensures var i, x := Interval(Fin(-5), Fin(-1)), Interval(Fin(3), Fin(4));
            && UDiv(i, x).Some? && Contains(i, -1) && Contains(x, 3)
            && !Contains(UDiv(i, x).value, UnsignedDiv(As64(-1), 3))
  {
  }

  /** On non-negative intervals an error is raised only if both are unbounded. */
  lemma {:induction false} UDivDefined(i: Interval, x: Interval)
    requires Proper(i) && Proper(x) && NonNegative(i) && NonNegative(x) && (i.ub.Fin? || x.ub.Fin?)
    ensures UDiv(i, x).Some?
    decreases ZeroWeight(i) + ZeroWeight(x)
  {
    if !IsBottom(i) && !IsBottom(x) {
      if Singleton(x).Some? && CastU64(Singleton(x).value).Some? {
      } else if Contains(x, 0) {
        UDivDefined(i, Positives(x));
        UDivDefined(i, Negatives(x));
      } else if Contains(i, 0) {
        UDivDefined(Positives(i), x);
        UDivDefined(Negatives(i), x);
      }
    }
  }

  // ----- unsigned remainder -----

  /** URem; None stands for the errors it raises. */
  function URem(i: Interval, x: Interval): Option<Interval>
    requires Proper(i) && Proper(x)
    decreases ZeroWeight(i) + ZeroWeight(x)
  {
    if IsBottom(i) || IsBottom(x) then Some(BOTTOM)
    else if BothNumbers(i, x) then
      if Singleton(x).value == 0 then Some(i)
      else Some(Just(CastU64(Singleton(i).value).value % CastU64(Singleton(x).value).value))
    else if Contains(x, 0) then
      BothOr(URem(i, Negatives(x)), URem(i, Positives(x)), i)
    else if Contains(i, 0) then
      BothOr(URem(Negatives(i), x), URem(Positives(i), x), i)
    else if !x.lb.Fin? || !x.ub.Fin? then
      Some(if Lt(i.ub, Fin(0)) then TOP else Join(Subtract(i, Just(1)), Just(0)))
    else
      var lowest, highest := CastU64(x.lb.n), CastU64(x.ub.n);
      var largest := if i.ub.Fin? then CastU64(i.ub.n) else None;
      if i.ub.Fin? && (largest.None? || lowest.None?) then None
      else if i.ub.Fin? && largest.value < lowest.value then Some(i)
      else if highest.None? then None
      else Some(Make(Fin(0), Fin(highest.value - 1)))
  }

  /** The case that is wrong: a positive, bounded dividend by a positive, unbounded divisor. */
  predicate MissesDividend(i: Interval, x: Interval) {
    Leq(Fin(1), i.lb) && i.ub.Fin? && Leq(Fin(1), x.lb) && x.ub.PosInf?
  }

  /** A 64-bit number lies in the interval, with or without its sign. */
  predicate Represents(i: Interval, v: int) {
    Contains(i, v) || Contains(i, v - TWO_64)
  }

  lemma URemNonzero(i: Interval, x: Interval, n: int, d: int, r: nat)
    requires Proper(i) && Proper(x) && Contains(i, n) && Contains(x, d)
    requires SignDefinite(i) && SignDefinite(x) && IsRemainder(As64(n), As64(d), r)
    requires !BothNumbers(i, x)
    requires URem(i, x).Some? && !MissesDividend(i, x)
    ensures Represents(URem(i, x).value, r)
  {
  }

  /** What comes out in the case that is wrong: everything up to, but not, the dividend. */
  lemma URemMissed(i: Interval, x: Interval)
    requires Proper(i) && Proper(x) && !IsBottom(i) && MissesDividend(i, x)
    ensures URem(i, x) == Some(Interval(Fin(0), Fin(i.ub.n - 1)))
  {
  }

  lemma BothOrContains(a: Option<Interval>, b: Option<Interval>, c: Interval, v: int)
    requires BothOr(a, b, c).Some?
    ensures Represents(a.value, v) || Represents(b.value, v) || Represents(c, v) ==>
              Represents(BothOr(a, b, c).value, v)
  {
  }

  /** Both operands are numbers that can be read. */
  predicate BothNumbers(i: Interval, x: Interval) {
    && Singleton(i).Some? && Singleton(x).Some?
    && CastU64(Singleton(i).value).Some? && CastU64(Singleton(x).value).Some?
  }

  lemma URemNumbers(i: Interval, x: Interval, n: int, d: int)
    requires Proper(i) && Proper(x) && BothNumbers(i, x) && Contains(i, n) && Contains(x, d)
    ensures URem(i, x).Some? && Represents(URem(i, x).value, UnsignedMod(As64(n), As64(d)))
  {
    assert i == Just(n) && x == Just(d) && CastU64(n).value == As64(n) && CastU64(d).value == As64(d);
  }

  /** The divisor is split around zero. */
  lemma {:induction false} URemSplitDivisor(i: Interval, x: Interval, n: int, d: int)
    requires Proper(i) && Proper(x) && Reads64(i) && Reads64(x) && Contains(i, n) && Contains(x, d)
    requires URem(i, x).Some? && !BothNumbers(i, x) && Contains(x, 0)
    ensures Represents(URem(i, x).value, UnsignedMod(As64(n), As64(d)))
    decreases ZeroWeight(i) + ZeroWeight(x), 2
  {
    var r := UnsignedMod(As64(n), As64(d));
    BothOrContains(URem(i, Negatives(x)), URem(i, Positives(x)), i, r);
    if d != 0 {
      URemPart(i, if d > 0 then Positives(x) else Negatives(x), n, d);
    }
  }

  /** The dividend is split around zero. */
  lemma {:induction false} URemSplitDividend(i: Interval, x: Interval, n: int, d: int)
    requires Proper(i) && Proper(x) && Reads64(i) && Reads64(x) && Contains(i, n) && Contains(x, d)
    requires URem(i, x).Some? && !BothNumbers(i, x) && !Contains(x, 0) && Contains(i, 0)
    ensures Represents(URem(i, x).value, UnsignedMod(As64(n), As64(d)))
    decreases ZeroWeight(i) + ZeroWeight(x), 2
  {
    var r := UnsignedMod(As64(n), As64(d));
    BothOrContains(URem(Negatives(i), x), URem(Positives(i), x), i, r);
    if n != 0 {
      URemPart(if n > 0 then Positives(i) else Negatives(i), x, n, d);
    } else {
      Euclid(0, As64(d));
    }
  }

  /** Every remainder of 64-bit numbers lies in the remainder, but for that case. */
  lemma {:induction false} URemSound(i: Interval, x: Interval, n: int, d: int)
    requires Proper(i) && Proper(x) && Reads64(i) && Reads64(x) && Contains(i, n) && Contains(x, d)
    requires URem(i, x).Some? && !MissesDividend(i, x)
    ensures Represents(URem(i, x).value, UnsignedMod(As64(n), As64(d)))
    decreases ZeroWeight(i) + ZeroWeight(x), 3
  {
    if BothNumbers(i, x) {
      URemNumbers(i, x, n, d);
    } else if Contains(x, 0) {
      URemSplitDivisor(i, x, n, d);
    } else if Contains(i, 0) {
      URemSplitDividend(i, x, n, d);
    } else {
      Euclid(As64(n), As64(d));
      URemNonzero(i, x, n, d, UnsignedMod(As64(n), As64(d)));
    }
  }

  /** Part of a split operand: right, or it misses a dividend that the whole adds again. */
  lemma {:induction false} URemPart(i: Interval, x: Interval, n: int, d: int)
    requires Proper(i) && Proper(x) && Reads64(i) && Reads64(x) && Contains(i, n) && Contains(x, d) && d != 0
    requires URem(i, x).Some?
    ensures Represents(URem(i, x).value, UnsignedMod(As64(n), As64(d)))
            || (MissesDividend(i, x) && UnsignedMod(As64(n), As64(d)) == i.ub.n)
    decreases ZeroWeight(i) + ZeroWeight(x), 4
  {
    if MissesDividend(i, x) {
      Euclid(n, d);
      URemMissed(i, x);
    } else {
      URemSound(i, x, n, d);
    }
  }

  /** On 64-bit operands, the remainder is sound exactly outside that case. */
  lemma URemSoundIff(i: Interval, x: Interval)
    requires Proper(i) && Proper(x) && Reads64(i) && Reads64(x) && !IsBottom(i) && URem(i, x).Some?
    requires Lt(i.ub, Fin(TWO_64)) || i.ub.PosInf?
    ensures (forall n, d :: Contains(i, n) && Contains(x, d) ==>
               Represents(URem(i, x).value, UnsignedMod(As64(n), As64(d))))
       <==> !MissesDividend(i, x)
  {
    if MissesDividend(i, x) {
      var n := i.ub.n;
      var d := (if x.lb.n <= n then n else x.lb.n) + 1;
      URemMissed(i, x);
      Euclid(n, d);
      assert Contains(i, n) && Contains(x, d) && UnsignedMod(As64(n), As64(d)) == n;
      assert !Represents(URem(i, x).value, n);
    } else {
      forall n, d | Contains(i, n) && Contains(x, d)
        ensures Represents(URem(i, x).value, UnsignedMod(As64(n), As64(d)))
      {
        URemSound(i, x, n, d);
      }
    }
  }

  /** Five modulo something from one up can be five; the code says at most four. */
  lemma URemMissesFive()
    ensures URem(Just(5), Interval(Fin(1), PosInf)) == Some(Interval(Fin(0), Fin(4)))
    ensures UnsignedMod(5, 6) == 5 && Contains(Interval(Fin(1), PosInf), 6)
  {
    URemMissed(Just(5), Interval(Fin(1), PosInf));
  }

  /** No error on 64-bit values. */
  lemma {:induction false} URemDefined(i: Interval, x: Interval)
    requires Proper(i) && Proper(x) && Reads64(i) && Reads64(x)
    requires Lt(i.ub, Fin(TWO_64)) && Lt(x.ub, Fin(TWO_64))
    ensures URem(i, x).Some?
    decreases ZeroWeight(i) + ZeroWeight(x)
  {
    if !IsBottom(i) && !IsBottom(x) {
      if Contains(x, 0) {
        URemDefined(i, Negatives(x));
        URemDefined(i, Positives(x));
      } else if Contains(i, 0) {
        URemDefined(Negatives(i), x);
        URemDefined(Positives(i), x);
      }
    }
  }
}
