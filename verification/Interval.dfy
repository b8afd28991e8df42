/** Intervals of integers (src/crab/interval.hpp) with bounds that may be infinite
    (src/crab_utils/num_extended.hpp): the lattice, and addition and multiplication. */
module Interval {
  import opened AsmSyntax
  import opened AbstractDomain

  const U32MAX: nat := TWO_32 - 1
  const U64MAX: nat := TWO_64 - 1

  /** extended_number */
  datatype Bound = NegInf | Fin(n: int) | PosInf

  predicate Leq(a: Bound, b: Bound) {
    a.NegInf? || b.PosInf? || (a.Fin? && b.Fin? && a.n <= b.n)
  }

  predicate Lt(a: Bound, b: Bound) {
    !Leq(b, a)
  }

  function Min(a: Bound, b: Bound): Bound {
    if Leq(a, b) then a else b
  }

  function Max(a: Bound, b: Bound): Bound {
    if Leq(a, b) then b else a
  }

  function Negate(a: Bound): Bound {
    match a
    case NegInf => PosInf
    case PosInf => NegInf
    case Fin(n) => Fin(-n)
  }

  /** There is no sum of opposite infinities. */
  function Plus(a: Bound, b: Bound): Bound
    requires !(a.NegInf? && b.PosInf?) && !(a.PosInf? && b.NegInf?)
  {
    if a.Fin? then if b.Fin? then Fin(a.n + b.n) else b else a
  }

  predicate Positive(a: Bound) {
    Lt(Fin(0), a)
  }

  function Times(a: Bound, b: Bound): Bound {
    if a == Fin(0) || b == Fin(0) then Fin(0)
    else if a.Fin? && b.Fin? then Fin(a.n * b.n)
    else if Positive(a) == Positive(b) then PosInf
    else NegInf
  }

  /** interval_t */
  datatype Interval = Interval(lb: Bound, ub: Bound)

  const BOTTOM := Interval(Fin(0), Fin(-1))
  const TOP := Interval(NegInf, PosInf)

  /** The constructor: bounds the wrong way round make bottom. */
  function Make(lb: Bound, ub: Bound): Interval {
    if Lt(ub, lb) then BOTTOM else Interval(lb, ub)
  }

  function Just(n: int): Interval {
    Interval(Fin(n), Fin(n))
  }

  predicate IsBottom(i: Interval) {
    Lt(i.ub, i.lb)
  }

  predicate IsTop(i: Interval) {
    !i.lb.Fin? && !i.ub.Fin?
  }

  predicate Contains(i: Interval, n: int) {
    Leq(i.lb, Fin(n)) && Leq(Fin(n), i.ub)
  }

  /** No bound is the infinity of the other side. */
  predicate Proper(i: Interval) {
    !i.lb.PosInf? && !i.ub.NegInf?
  }

  function Singleton(i: Interval): Option<int> {
    if !IsBottom(i) && i.lb == i.ub && i.lb.Fin? then Some(i.lb.n) else None
  }

  function FiniteSize(i: Interval): Option<int>
    requires Proper(i)
  {
    if i.lb.Fin? && i.ub.Fin? then Some(i.ub.n - i.lb.n) else None
  }

  predicate Within(i: Interval, x: Interval) {
    if IsBottom(i) then true else if IsBottom(x) then false else Leq(x.lb, i.lb) && Leq(i.ub, x.ub)
  }

  function Join(i: Interval, x: Interval): (r: Interval)
    ensures forall n :: Contains(i, n) || Contains(x, n) ==> Contains(r, n)
  {
    if IsBottom(i) then x else if IsBottom(x) then i
    else Make(Min(i.lb, x.lb), Max(i.ub, x.ub))
  }

  function Meet(i: Interval, x: Interval): (r: Interval)
    ensures forall n :: Contains(r, n) <==> Contains(i, n) && Contains(x, n)
  {
    if IsBottom(i) || IsBottom(x) then BOTTOM else Make(Max(i.lb, x.lb), Min(i.ub, x.ub))
  }

  function Widen(i: Interval, x: Interval): Interval {
    if IsBottom(i) then x else if IsBottom(x) then i
    else Make(if Lt(x.lb, i.lb) then NegInf else i.lb, if Lt(i.ub, x.ub) then PosInf else i.ub)
  }

  function Narrow(i: Interval, x: Interval): Interval {
    if IsBottom(i) || IsBottom(x) then BOTTOM
    else Make(if !i.lb.Fin? && x.lb.Fin? then x.lb else i.lb, if !i.ub.Fin? && x.ub.Fin? then x.ub else i.ub)
  }

  // ----- the widening has a rank -----

  /** How often a widening can still give way: the bounds that are not infinite yet. */
  function WideningRank(i: Interval): nat {
    if IsBottom(i) then 3 else (if i.lb.NegInf? then 0 else 1) + (if i.ub.PosInf? then 0 else 1)
  }

  lemma WidenLowersRank(i: Interval, x: Interval)
    requires !Within(x, i)
    ensures WideningRank(Widen(i, x)) < WideningRank(i)
    ensures forall n :: Contains(i, n) || Contains(x, n) ==> Contains(Widen(i, x), n)
  {
  }

  /** Intervals as the domain of the analyzer, with whatever transformer. */
  function IntervalDomain(
    transform: (Interval, Instruction) -> Interval, assuming: (Interval, Assertion) -> Interval,
    check: (Interval, Assertion) -> seq<string>, initializeCounter: (Interval, Label) -> Interval): Domain<Interval>
  {
    Domain(BOTTOM, i => IsBottom(i), (i, x) => Within(i, x), (i, x) => Join(i, x), (i, x) => Meet(i, x),
           (i, x, toConstants) => Widen(i, x), (i, x) => Narrow(i, x), transform, assuming, check, initializeCounter)
  }

  /** On intervals the analyzer is sound and stops. */
  lemma IntervalsAreRanked(
    transform: (Interval, Instruction) -> Interval, assuming: (Interval, Assertion) -> Interval,
    check: (Interval, Assertion) -> seq<string>, initializeCounter: (Interval, Label) -> Interval,
    m: Meaning<Interval, int>)
    requires forall i, n :: m.gamma(i, n) == Contains(i, n)
    ensures var d := IntervalDomain(transform, assuming, check, initializeCounter);
            SoundLattice(d, m) && RankedWidening(d, WideningRank)
  {
    var d := IntervalDomain(transform, assuming, check, initializeCounter);
    forall a, b, flag: bool | !d.leq(b, a)
      ensures WideningRank(d.widen(a, b, flag)) < WideningRank(a)
    {
      WidenLowersRank(a, b);
    }
    forall a, b, s | m.gamma(a, s) && m.gamma(b, s)
      ensures m.gamma(d.narrow(a, b), s)
    {
      assert Contains(Narrow(a, b), s);
    }
    forall a, b, s | d.leq(a, b) && m.gamma(a, s)
      ensures m.gamma(b, s)
    {
      assert Contains(b, s);
    }
  }

  // ----- sums and products -----

  /** operator+ */
  function Add(i: Interval, x: Interval): (r: Interval)
    requires Proper(i) && Proper(x)
    ensures Proper(r) && forall n, m :: Contains(i, n) && Contains(x, m) ==> Contains(r, n + m)
  {
    if IsBottom(i) || IsBottom(x) then BOTTOM else Make(Plus(i.lb, x.lb), Plus(i.ub, x.ub))
  }

  /** operator- */
  function Subtract(i: Interval, x: Interval): (r: Interval)
    requires Proper(i) && Proper(x)
    ensures Proper(r) && forall n, m :: Contains(i, n) && Contains(x, m) ==> Contains(r, n - m)
  {
    if IsBottom(i) || IsBottom(x) then BOTTOM else Make(Plus(i.lb, Negate(x.ub)), Plus(i.ub, Negate(x.lb)))
  }

  function Min4(a: Bound, b: Bound, c: Bound, d: Bound): (r: Bound)
    ensures Leq(r, a) && Leq(r, b) && Leq(r, c) && Leq(r, d)
    ensures r == a || r == b || r == c || r == d
  {
    Min(Min(a, b), Min(c, d))
  }

  function Max4(a: Bound, b: Bound, c: Bound, d: Bound): (r: Bound)
    ensures Leq(a, r) && Leq(b, r) && Leq(c, r) && Leq(d, r)
    ensures r == a || r == b || r == c || r == d
  {
    Max(Max(a, b), Max(c, d))
  }

  /** operator* */
  function Mul(i: Interval, x: Interval): Interval {
    if IsBottom(i) || IsBottom(x) then BOTTOM
    else
      var a, b, c, d := Times(i.lb, x.lb), Times(i.lb, x.ub), Times(i.ub, x.lb), Times(i.ub, x.ub);
      Make(Min4(a, b, c, d), Max4(a, b, c, d))
  }

  lemma ProductMonotone(a: int, b: int, m: int)
    requires a <= b
    ensures m >= 0 ==> a * m <= b * m
    ensures m <= 0 ==> b * m <= a * m
  {
  }

  /** Between two bounds, a multiple lies between the multiples of the bounds. */
  lemma TimesBetween(x: Interval, m: int, c: Bound)
    requires Contains(x, m)
    ensures Leq(Min(Times(c, x.lb), Times(c, x.ub)), Times(c, Fin(m)))
    ensures Leq(Times(c, Fin(m)), Max(Times(c, x.lb), Times(c, x.ub)))
  {
    if c.Fin? {
      if x.lb.Fin? {
        ProductMonotone(x.lb.n, m, c.n);
        assert c.n * x.lb.n == x.lb.n * c.n && c.n * m == m * c.n;
      }
      if x.ub.Fin? {
        ProductMonotone(m, x.ub.n, c.n);
        assert c.n * x.ub.n == x.ub.n * c.n && c.n * m == m * c.n;
      }
      assert Times(c, Fin(m)) == Fin(c.n * m);
    }
  }

  lemma TimesCommutes(a: Bound, b: Bound)
    ensures Times(a, b) == Times(b, a)
  {
  }

  /** v lies between p and q, p between a and b, q between c and d. */
  lemma Sandwich(a: Bound, b: Bound, c: Bound, d: Bound, p: Bound, q: Bound, v: Bound)
    requires Leq(Min(a, b), p) && Leq(p, Max(a, b)) && Leq(Min(c, d), q) && Leq(q, Max(c, d))
    requires Leq(Min(p, q), v) && Leq(v, Max(p, q))
    ensures Leq(Min4(a, b, c, d), v) && Leq(v, Max4(a, b, c, d))
  {
  }

  /** Every product lies in the product. */
  lemma MulSound(i: Interval, x: Interval, n: int, m: int)
    requires Contains(i, n) && Contains(x, m)
    ensures Contains(Mul(i, x), n * m)
  {
    var p, q := Times(i.lb, Fin(m)), Times(i.ub, Fin(m));
    TimesBetween(x, m, i.lb);
    TimesBetween(x, m, i.ub);
    assert Leq(Min(p, q), Fin(n * m)) && Leq(Fin(n * m), Max(p, q)) by {
      TimesBetween(i, n, Fin(m));
      TimesCommutes(Fin(m), i.lb);
      TimesCommutes(Fin(m), i.ub);
      TimesCommutes(Fin(m), Fin(n));
      assert Times(Fin(n), Fin(m)) == Fin(n * m);
    }
    Sandwich(Times(i.lb, x.lb), Times(i.lb, x.ub), Times(i.ub, x.lb), Times(i.ub, x.ub), p, q, Fin(n * m));
  }

  /** The product is no larger than it has to be: a finite bound is itself a product. */
  lemma MulTight(i: Interval, x: Interval)
    requires !IsBottom(i) && !IsBottom(x) && Proper(i) && Proper(x)
    ensures Mul(i, x).lb.Fin? ==> exists n, m :: Contains(i, n) && Contains(x, m) && n * m == Mul(i, x).lb.n
    ensures Mul(i, x).ub.Fin? ==> exists n, m :: Contains(i, n) && Contains(x, m) && n * m == Mul(i, x).ub.n
  {
    var r := Mul(i, x);
    if r.lb.Fin? {
      var n, m := CornerAttained(i, x, r.lb);
    }
    if r.ub.Fin? {
      var n, m := CornerAttained(i, x, r.ub);
    }
  }

  ghost predicate IsCorner(i: Interval, x: Interval, b: Bound) {
    b == Times(i.lb, x.lb) || b == Times(i.lb, x.ub) || b == Times(i.ub, x.lb) || b == Times(i.ub, x.ub)
  }

  function SomeOf(i: Interval): (n: int)
    requires !IsBottom(i) && Proper(i)
    ensures Contains(i, n)
  {
    if i.lb.Fin? then i.lb.n else if i.ub.Fin? then i.ub.n else 0
  }

  lemma CornerAttained(i: Interval, x: Interval, b: Bound) returns (n: int, m: int)
    requires !IsBottom(i) && !IsBottom(x) && Proper(i) && Proper(x) && b.Fin? && IsCorner(i, x, b)
    ensures Contains(i, n) && Contains(x, m) && n * m == b.n
  {
    if b.n == 0 {
      n, m := SomeOf(i), SomeOf(x);
      if Contains(i, 0) {
        n := 0;
      } else {
        m := 0;
      }
    } else if b == Times(i.lb, x.lb) {
      n, m := i.lb.n, x.lb.n;
    } else if b == Times(i.lb, x.ub) {
      n, m := i.lb.n, x.ub.n;
    } else if b == Times(i.ub, x.lb) {
      n, m := i.ub.n, x.lb.n;
    } else {
      n, m := i.ub.n, x.ub.n;
    }
  }
}
