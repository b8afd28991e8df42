/** What the analyzer needs of its domain: the operations of ebpf_domain_t, and the
    meaning that makes each of them sound. */
module AbstractDomain {
  import opened AsmSyntax

  datatype Domain<!A> = Domain(
    bottom: A,
    isBottom: A -> bool,
    leq: (A, A) -> bool,
    join: (A, A) -> A,
    meet: (A, A) -> A,
    widen: (A, A, bool) -> A,
    narrow: (A, A) -> A,
    transform: (A, Instruction) -> A,
    assuming: (A, Assertion) -> A,
    check: (A, Assertion) -> seq<string>,
    initializeCounter: (A, Label) -> A)

  /** Concrete states: what an abstract value stands for, what an instruction does, what
      an assertion demands, and the state with one loop counter set to zero. */
  datatype Meaning<!A, !S> = Meaning(
    gamma: (A, S) -> bool,
    step: (Instruction, S, S) -> bool,
    holds: (Assertion, S) -> bool,
    resetCounter: (S, Label) -> S)

  ghost predicate SoundLattice<A(!new), S(!new)>(d: Domain<A>, m: Meaning<A, S>) {
    && (forall a, s :: d.isBottom(a) ==> !m.gamma(a, s))
    && (forall a, b, s :: d.leq(a, b) && m.gamma(a, s) ==> m.gamma(b, s))
    && (forall a, b, s :: m.gamma(a, s) || m.gamma(b, s) ==> m.gamma(d.join(a, b), s))
    && (forall a, b, s :: m.gamma(a, s) && m.gamma(b, s) ==> m.gamma(d.meet(a, b), s))
    && (forall a, b, s :: m.gamma(a, s) && m.gamma(b, s) ==> m.gamma(d.narrow(a, b), s))
  }

  ghost predicate SoundTransformer<A(!new), S(!new)>(d: Domain<A>, m: Meaning<A, S>) {
    && (forall a, i, s, t :: m.gamma(a, s) && m.step(i, s, t) ==> m.gamma(d.transform(a, i), t))
    && (forall a, q, s :: m.gamma(a, s) && m.holds(q, s) ==> m.gamma(d.assuming(a, q), s))
    && (forall a, q, s :: m.gamma(a, s) && d.check(a, q) == [] ==> m.holds(q, s))
    && (forall a, l, s :: m.gamma(a, s) ==> m.gamma(d.initializeCounter(a, l), m.resetCounter(s, l)))
  }

  /** Nothing is asked of the widening but a rank that drops whenever it is applied to a
      value not yet covered, and that only for the unbounded ascending iteration to stop. */
  ghost predicate RankedWidening<A(!new)>(d: Domain<A>, rank: A -> nat) {
    forall a, b, flag :: !d.leq(b, a) ==> rank(d.widen(a, b, flag)) < rank(a)
  }
}
