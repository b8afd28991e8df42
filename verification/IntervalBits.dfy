/** Truncation, bit operations and shifts of intervals (src/crab/interval.hpp and
    src/crab/interval.cpp). */
module IntervalBits {
  import opened AsmSyntax
  import B = Bits
  import opened Interval

  /** An integer type of C++: its width and whether it has a sign. */
  datatype IntType = IntType(bits: nat, signed: bool)

  function Lowest(t: IntType): int
    requires t.bits > 0
  {
    if t.signed then 0 - B.Pow2(t.bits - 1) else 0
  }

  function Highest(t: IntType): int
    requires t.bits > 0
  {
    Lowest(t) + B.Pow2(t.bits) - 1
  }

  predicate FitsType(n: int, t: IntType)
    requires t.bits > 0
  {
    Lowest(t) <= n <= Highest(t)
  }

  /** number_t::truncate_to: mask, then read in two's complement. */
  function Wrap(n: int, t: IntType): int
    requires t.bits > 0
  {
    var v := B.And(n, B.Pow2(t.bits) - 1);
    if v > Highest(t) then v - B.Pow2(t.bits) else v
  }

  lemma WrapCounts(n: int, t: IntType)
    requires t.bits > 0
    ensures Wrap(n, t) == Lowest(t) + B.Low(n - Lowest(t), t.bits)
  {
    B.AndOnes(n, t.bits);
    B.LowAdvance(n, -Lowest(t), t.bits);
  }

  lemma WrapFitting(n: int, t: IntType)
    requires t.bits > 0 && FitsType(n, t)
    ensures Wrap(n, t) == n
  {
    WrapCounts(n, t);
    B.LowFits(n - Lowest(t), t.bits);
  }

  function Full(t: IntType): Interval
    requires t.bits > 0
  {
    Interval(Fin(Lowest(t)), Fin(Highest(t)))
  }

  /** truncate_to */
  function TruncateTo(i: Interval, t: IntType): Interval
    requires Proper(i) && t.bits > 0
  {
    if Within(i, Full(t)) then i
    else
      var size := FiniteSize(i);
      if size.Some? && FitsType(size.value, t) && Wrap(i.lb.n, t) <= Wrap(i.ub.n, t)
      then Make(Fin(Wrap(i.lb.n, t)), Fin(Wrap(i.ub.n, t)))
      else Full(t)
  }

  lemma LowInOrder(a: int, d: nat, e: nat, bits: nat)
    requires e <= d < B.Pow2(bits) && B.Low(a, bits) <= B.Low(a + d, bits)
    ensures B.Low(a + e, bits) == B.Low(a, bits) + e
  {
    B.LowAdvance(a, d, bits);
    B.LowAdvance(a, e, bits);
  }

  lemma FitsBelow(d: int, t: IntType)
    requires t.bits > 0 && 0 <= d && FitsType(d, t)
    ensures d < B.Pow2(t.bits)
  {
  }

  /** If the ends have not changed order, nothing in between has wrapped around. */
  lemma WrapInOrder(lb: int, ub: int, n: int, t: IntType)
    requires t.bits > 0 && lb <= n <= ub && FitsType(ub - lb, t) && Wrap(lb, t) <= Wrap(ub, t)
    ensures Wrap(n, t) == Wrap(lb, t) + (n - lb)
  {
    WrapCounts(lb, t);
    WrapCounts(ub, t);
    WrapCounts(n, t);
    FitsBelow(ub - lb, t);
    var a := lb - Lowest(t);
    assert ub - Lowest(t) == a + (ub - lb) && n - Lowest(t) == a + (n - lb);
    LowInOrder(a, ub - lb, n - lb, t.bits);
  }

  /** The wrapped values of an interval. */
  ghost predicate IsWrapped(i: Interval, t: IntType, v: int)
    requires t.bits > 0
  {
    exists n :: Contains(i, n) && Wrap(n, t) == v
  }

  lemma TruncateSound(i: Interval, t: IntType, n: int)
    requires Proper(i) && t.bits > 0 && Contains(i, n)
    ensures Contains(TruncateTo(i, t), Wrap(n, t))
  {
    WrapCounts(n, t);
    if Within(i, Full(t)) {
      WrapFitting(n, t);
    } else if TruncateTo(i, t) != Full(t) {
      WrapInOrder(i.lb.n, i.ub.n, n, t);
      WrapInOrder(i.lb.n, i.ub.n, i.ub.n, t);
    }
  }

  /** Truncation gives exactly the wrapped values, or the whole range of the type. */
  lemma TruncateExact(i: Interval, t: IntType)
    requires Proper(i) && t.bits > 0
    ensures forall v :: IsWrapped(i, t, v) ==> Contains(TruncateTo(i, t), v)
    ensures TruncateTo(i, t) == Full(t) || forall v :: Contains(TruncateTo(i, t), v) ==> IsWrapped(i, t, v)
  {
    forall v | IsWrapped(i, t, v)
      ensures Contains(TruncateTo(i, t), v)
    {
      var n :| Contains(i, n) && Wrap(n, t) == v;
      TruncateSound(i, t, n);
    }
    if TruncateTo(i, t) != Full(t) {
      forall v | Contains(TruncateTo(i, t), v)
        ensures IsWrapped(i, t, v)
      {
        if Within(i, Full(t)) {
          WrapFitting(v, t);
          assert Contains(i, v) && Wrap(v, t) == v;
        } else {
          var n := i.lb.n + (v - Wrap(i.lb.n, t));
          WrapInOrder(i.lb.n, i.ub.n, i.ub.n, t);
          WrapInOrder(i.lb.n, i.ub.n, n, t);
          assert Contains(i, n) && Wrap(n, t) == v;
        }
      }
    }
  }

  // ----- bit operations -----

  const U32TYPE := IntType(32, false)
  const U64TYPE := IntType(64, false)

  lemma DoubledProduct(p: nat, q: nat)
    ensures 2 * (p * q) == 2 * p * q
  {
  }

  lemma {:induction false} PowersMultiply(a: nat, b: nat)
    ensures B.Pow2(a + b) == B.Pow2(a) * B.Pow2(b)
  {
    if a > 0 {
      PowersMultiply(a - 1, b);
      DoubledProduct(B.Pow2(a - 1), B.Pow2(b));
    }
  }

  lemma Maxima()
    ensures B.Pow2(32) == U32MAX + 1 && B.Pow2(64) == U64MAX + 1
  {
    SquareOf(8, 256);
    SquareOf(16, 0x1_0000);
    SquareOf(32, 0x1_0000_0000);
  }

  lemma SquareOf(a: nat, p: nat)
    requires B.Pow2(a) == p
    ensures B.Pow2(2 * a) == p * p
  {
    PowersMultiply(a, a);
  }

  /** The mask of 32-bit operations: the low halves, if they do not wrap around. */
  function MaskTo(i: Interval, t: IntType): Interval
    requires Proper(i) && t.bits > 0
  {
    var width := FiniteSize(i);
    if width.Some?
       && FitsType(width.value, t)
       && Wrap(i.lb.n, t) < Wrap(i.ub.n, t)
       && Wrap(i.lb.n, t) + Wrap(width.value, t) == Wrap(i.ub.n, t)
    then Make(Fin(Wrap(i.lb.n, t)), Fin(Wrap(i.ub.n, t)))
    else Full(t)
  }

  /** And */
  function And(i: Interval, x: Interval): Interval
    requires Proper(i) && Proper(x)
  {
    if IsBottom(i) || IsBottom(x) then BOTTOM
    else if Singleton(i).Some? && Singleton(x).Some? then
      Just(B.And(Singleton(i).value, Singleton(x).value))
    else if x == Just(U32MAX) then MaskTo(i, U32TYPE)
    else if Contains(x, U64MAX) then TruncateTo(i, U64TYPE)
    else if !IsTop(i) && !IsTop(x) then Make(Fin(0), Min(i.ub, x.ub))
    else if !IsTop(x) then Make(Fin(0), x.ub)
    else if !IsTop(i) then Make(Fin(0), i.ub)
    else TOP
  }

  lemma MaskToSound(i: Interval, t: IntType, n: int)
    requires Proper(i) && t.bits > 0 && Contains(i, n)
    ensures Contains(MaskTo(i, t), Wrap(n, t))
  {
    WrapCounts(n, t);
    if MaskTo(i, t) != Full(t) {
      WrapInOrder(i.lb.n, i.ub.n, n, t);
      WrapInOrder(i.lb.n, i.ub.n, i.ub.n, t);
    }
  }

  /** The masks of all ones truncate. */
  lemma MaskWraps(n: int)
    ensures Wrap(n, U32TYPE) == B.And(n, U32MAX) && Wrap(n, U64TYPE) == B.And(n, U64MAX)
  {
    Maxima();
    B.AndShrinks(n, U32MAX);
    B.AndShrinks(n, U64MAX);
  }

  lemma AndByMask32(i: Interval, n: int)
    requires Proper(i) && Contains(i, n)
    ensures Contains(And(i, Just(U32MAX)), B.And(n, U32MAX))
  {
    MaskWraps(n);
    MaskToSound(i, U32TYPE, n);
    ByMask(i, Just(U32MAX), n, MaskTo(i, U32TYPE));
  }

  lemma AndByMask64(i: Interval, n: int)
    requires Proper(i) && Contains(i, n)
    ensures Contains(And(i, Just(U64MAX)), B.And(n, U64MAX))
  {
    MaskWraps(n);
    TruncateSound(i, U64TYPE, n);
    ByMask(i, Just(U64MAX), n, TruncateTo(i, U64TYPE));
  }

  lemma ByMask(i: Interval, x: Interval, n: int, r: Interval)
    requires Proper(i) && Contains(i, n) && (x == Just(U32MAX) || x == Just(U64MAX))
    requires r == if x == Just(U32MAX) then MaskTo(i, U32TYPE) else TruncateTo(i, U64TYPE)
    requires Contains(r, B.And(n, x.lb.n))
    ensures Contains(And(i, x), B.And(n, x.lb.n))
  {
  }

  /** Every conjunction lies in the conjunction, if the mask stays below all ones or is all
      ones, or the left operand begins at zero. That may be anything, as it is when top. */
  lemma AndSound(i: Interval, x: Interval, n: int, m: nat)
    requires Proper(i) && Proper(x) && (IsTop(i) || Leq(Fin(0), i.lb)) && Leq(Fin(0), x.lb)
    requires Contains(i, n) && Contains(x, m)
    requires Lt(x.ub, Fin(U64MAX)) || x == Just(U64MAX) || (i.lb == Fin(0) && Leq(i.ub, Fin(U64MAX)))
    ensures Contains(And(i, x), B.And(n, m))
  {
    if x == Just(U32MAX) {
      AndByMask32(i, n);
    } else if x == Just(U64MAX) {
      AndByMask64(i, n);
    } else {
      B.AndShrinks(n, m);
      FullU64();
      AndOtherwise(i, x, n, m, B.And(n, m));
    }
  }

  /** Neither mask: the result is bounded by the smaller bound. */
  lemma AndOtherwise(i: Interval, x: Interval, n: int, m: nat, r: int)
    requires Proper(i) && Proper(x) && (IsTop(i) || Leq(Fin(0), i.lb)) && Leq(Fin(0), x.lb)
    requires Contains(i, n) && Contains(x, m) && x != Just(U32MAX) && r == B.And(n, m)
    requires 0 <= r <= m && (n >= 0 ==> r <= n) && Full(U64TYPE) == Interval(Fin(0), Fin(U64MAX))
    requires Lt(x.ub, Fin(U64MAX)) || (i.lb == Fin(0) && Leq(i.ub, Fin(U64MAX)))
    ensures Contains(And(i, x), r)
  {
  }

  lemma FullU64()
    ensures Full(U64TYPE) == Interval(Fin(0), Fin(U64MAX))
  {
    Maxima();
  }

  /** An interval of 64-bit numbers. */
  predicate Is64(i: Interval) {
    i.lb.Fin? && i.ub.Fin? && 0 <= i.lb.n <= i.ub.n <= U64MAX
  }

  /** When the conjunction is right: the mask cannot be all ones, or the low bits that some
      mask lacks are all zero at the lower end of the left operand. */
  predicate AndIsSound(i: Interval, x: Interval)
    requires Is64(i) && Is64(x)
  {
    x.ub.n < U64MAX || i.lb.n % (B.FillOnes(U64MAX - x.lb.n) + 1) == 0
  }

  /** A mask that can be all ones leaves the left operand as it is. */
  lemma AndByAllOnes(i: Interval, x: Interval)
    requires Is64(i) && Is64(x) && x.ub.n == U64MAX && x.lb.n < U64MAX
    ensures And(i, x) == i
  {
    FullU64();
  }

  /** No mask in x takes more than the low k bits away. */
  lemma MaskKeepsHigh(w: nat, n: nat, r: nat, a: nat, k: nat)
    requires n < B.Pow2(w) && r < B.Pow2(w) && r < B.Pow2(k) && a <= n && B.Low(a, k) == 0
    ensures a <= B.And(n, B.Pow2(w) - 1 - r) <= n
  {
    B.AndComplement(n, r, w);
    B.AndWithinLow(n, r, k);
    B.RoundsDownTo(a, n, k);
  }

  /** Some mask takes one of the low k bits away. */
  lemma MaskTakesLow(w: nat, a: nat, k: nat, d: nat) returns (r: nat)
    requires a < B.Pow2(w) && d < B.Pow2(w) && B.Low(a, k) > 0 && (k > 0 ==> B.Pow2(k - 1) <= d)
    ensures r <= d && B.And(a, B.Pow2(w) - 1 - r) < a
  {
    var j := B.SomeLowBit(a, k);
    r := B.Pow2(j);
    B.PowersRise(j, k - 1);
    B.AndComplement(a, r, w);
  }

  ghost predicate AndCovers(i: Interval, x: Interval)
    requires Proper(i) && Proper(x)
  {
    forall n, m :: Contains(i, n) && Contains(x, m) ==> Contains(And(i, x), B.And(n, m))
  }

  lemma AllOnesCover(i: Interval, x: Interval, w: nat, k: nat)
    requires Is64(i) && Is64(x) && x.ub.n == U64MAX && x.lb.n < U64MAX && B.Pow2(w) == U64MAX + 1
    requires U64MAX - x.lb.n < B.Pow2(k) && (k > 0 ==> B.Pow2(k - 1) <= U64MAX - x.lb.n)
    ensures AndCovers(i, x) <==> B.Low(i.lb.n, k) == 0
  {
    AndByAllOnes(i, x);
    if B.Low(i.lb.n, k) == 0 {
      forall n, m | Contains(i, n) && Contains(x, m)
        ensures Contains(And(i, x), B.And(n, m))
      {
        MaskKeepsHigh(w, n, U64MAX - m, i.lb.n, k);
      }
    } else {
      var r := MaskTakesLow(w, i.lb.n, k, U64MAX - x.lb.n);
      var m := U64MAX - r;
      assert Contains(i, i.lb.n) && Contains(x, m) && !Contains(i, B.And(i.lb.n, m));
    }
  }

  lemma OtherMasksCover(i: Interval, x: Interval)
    requires Is64(i) && Is64(x) && (x.ub.n < U64MAX || x == Just(U64MAX))
    ensures AndCovers(i, x)
  {
    forall n, m | Contains(i, n) && Contains(x, m)
      ensures Contains(And(i, x), B.And(n, m))
    {
      AndSound(i, x, n, m);
    }
  }

  lemma LowOfFill(a: nat, d: nat) returns (k: nat)
    ensures d < B.Pow2(k) && (k > 0 ==> B.Pow2(k - 1) <= d)
    ensures a % (B.FillOnes(d) + 1) == 0 <==> B.Low(a, k) == 0
  {
    k := B.FillOnesIsLeast(d);
    B.LowIsRemainder(a, k);
  }

  /** On 64-bit intervals every conjunction lies in the conjunction if and only if that
      condition holds. */
  lemma AndSoundIff(i: Interval, x: Interval)
    requires Is64(i) && Is64(x)
    ensures AndCovers(i, x) <==> AndIsSound(i, x)
  {
    var k := LowOfFill(i.lb.n, U64MAX - x.lb.n);
    if x.ub.n < U64MAX {
      OtherMasksCover(i, x);
    } else if x.lb.n == U64MAX {
      OtherMasksCover(i, x);
      assert k == 0;
    } else {
      var w := Width64();
      AllOnesCover(i, x, w, k);
    }
  }

  lemma Width64() returns (w: nat)
    ensures B.Pow2(w) == U64MAX + 1
  {
    Maxima();
    w := 64;
  }

  /** For example, five masked with anything is said to be five. */
  lemma AndMissesZero()
    ensures var i, x := Just(5), Interval(Fin(0), Fin(U64MAX));
            And(i, x) == Just(5) && Contains(x, 0) && B.And(5, 0) == 0
  {
    FullU64();
    B.AndZero(5);
  }

  /** Or */
  function Or(i: Interval, x: Interval): Interval {
    if IsBottom(i) || IsBottom(x) then BOTTOM
    else if Singleton(i).Some? && Singleton(x).Some? then
      Just(B.Or(Singleton(i).value, Singleton(x).value))
    else if Leq(Fin(0), i.lb) && Leq(Fin(0), x.lb) then
      if i.ub.Fin? && x.ub.Fin?
      then Make(Fin(0), Fin(B.FillOnes(if i.ub.n <= x.ub.n then x.ub.n else i.ub.n)))
      else Make(Fin(0), PosInf)
    else TOP
  }

  /** Xor */
  function Xor(i: Interval, x: Interval): Interval {
    if IsBottom(i) || IsBottom(x) then BOTTOM
    else if Singleton(i).Some? && Singleton(x).Some? then
      Just(B.Xor(Singleton(i).value, Singleton(x).value))
    else Or(i, x)
  }

  lemma BelowFill(n: nat, m: nat, u: nat)
    requires n <= u && m <= u
    ensures 0 <= B.Xor(n, m) <= B.Or(n, m) <= B.FillOnes(u)
  {
    var k := B.FillOnesIsLeast(u);
    B.OrStays(n, m, k);
  }

  /** Every disjunction and every exclusive one lies in its interval, whatever the intervals. */
  lemma OrXorSound(i: Interval, x: Interval, n: int, m: int)
    requires Contains(i, n) && Contains(x, m)
    ensures Contains(Or(i, x), B.Or(n, m)) && Contains(Xor(i, x), B.Xor(n, m))
  {
    if Leq(Fin(0), i.lb) && Leq(Fin(0), x.lb) {
      if i.ub.Fin? && x.ub.Fin? {
        BelowFill(n, m, if i.ub.n <= x.ub.n then x.ub.n else i.ub.n);
      } else {
        BelowFill(n, m, if n <= m then m else n);
      }
    }
  }

  // ----- shifts -----

  /** What Shl computes: a product with a power of two. */
  function Shifted(i: Interval, x: Interval): Interval {
    if IsBottom(i) || IsBottom(x) then BOTTOM
    else if Singleton(x).Some? && 0 <= Singleton(x).value <= 128
    then Mul(i, Just(B.Pow2(Singleton(x).value)))
    else TOP
  }

  /** Shl */
  method Shl(i: Interval, x: Interval) returns (r: Interval)
    ensures r == Shifted(i, x)
  {
    if IsBottom(i) || IsBottom(x) {
      return BOTTOM;
    }
    var shift := Singleton(x);
    if shift.Some? {
      var k := shift.value;
      if k < 0 {
        return TOP;
      }
      if k <= 128 {
        var factor, j := 1, 0;
        while k > j
          invariant 0 <= j <= k && factor == B.Pow2(j)
        {
          factor, j := factor * 2, j + 1;
        }
        return Mul(i, Just(factor));
      }
    }
    return TOP;
  }

  /** Every number shifted lies in the interval shifted. */
  lemma ShlSound(i: Interval, x: Interval, n: int, k: nat)
    requires Contains(i, n) && Contains(x, k)
    ensures Contains(Shifted(i, x), B.ShiftLeft(n, k))
  {
    B.ShiftLeftIsProduct(n, k);
    MulSound(i, Just(B.Pow2(k)), n, B.Pow2(k));
  }

  /** LShr; None stands for the error raised for a shift of more than 31 bits length. */
  function LShr(i: Interval, x: Interval): Option<Interval> {
    if IsBottom(i) || IsBottom(x) then Some(BOTTOM)
    else if Singleton(x).Some? && Singleton(x).value > 0 && Leq(Fin(0), i.lb) && i.ub.Fin? then
      if Singleton(x).value < 0x8000_0000
      then Some(Make(Fin(B.ShiftRight(i.lb.n, Singleton(x).value)), Fin(B.ShiftRight(i.ub.n, Singleton(x).value))))
      else None
    else Some(TOP)
  }

  lemma LShrSound(i: Interval, x: Interval, n: int, k: nat)
    requires Contains(i, n) && Contains(x, k) && LShr(i, x).Some?
    ensures Contains(LShr(i, x).value, B.ShiftRight(n, k))
  {
    if i.lb.Fin? {
      B.ShiftRightMonotone(i.lb.n, n, k);
    }
    if i.ub.Fin? {
      B.ShiftRightMonotone(n, i.ub.n, k);
    }
  }
}
