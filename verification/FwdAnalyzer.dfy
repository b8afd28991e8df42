/** The forward fixpoint iterator (src/crab/fwd_analyzer.cpp) and its soundness. */
module FwdAnalyzer {
  import opened AsmSyntax
  import opened ControlFlowGraph
  import opened Wto
  import opened AbstractDomain
  import opened AnalysisTable

  // ----- concrete runs -----

  ghost predicate AssertionsHold<A, S>(p: Problem<A, S>, l: Label, s: S)
    requires l in p.cfg.instructions
  {
    forall q :: q in p.cfg.instructions[l].preconditions ==> p.m.holds(q, s)
  }

  /** The instruction of l takes s to t; when assertions are assumed, only from states
      that meet them. */
  ghost predicate Executes<A, S>(p: Problem<A, S>, l: Label, s: S, t: S) {
    && l in p.cfg.instructions
    && p.m.step(p.cfg.instructions[l].cmd, s, t)
    && (p.assume_ ==> AssertionsHold(p, l, s))
  }

  /** A run that stays inside `part`, entering it from states in the table. */
  ghost predicate LocalRun<A, S>(p: Problem<A, S>, entryInv: A, inv: Table<A>, part: set<Label>, r: Run<S>) {
    match r
    case AtEntry(s) => ENTRY in part && p.m.gamma(entryInv, s)
    case Enter(via, l, s) =>
      l in part && via !in part && p.cfg.Edge(via, l) && via in inv && p.m.gamma(inv[via].post, s)
    case Then(r0, l, s) =>
      && LocalRun(p, entryInv, inv, part, r0)
      && l in part && p.cfg.Edge(r0.At(), l) && Executes(p, r0.At(), r0.state, s)
  }

  /** The state of the last visit lies in the invariant before its label, and every
      state the instruction leads to in the invariant after it. */
  ghost predicate Covered<A, S(!new)>(p: Problem<A, S>, inv: Table<A>, r: Run<S>) {
    && r.At() in inv
    && p.m.gamma(inv[r.At()].pre, r.state)
    && forall t :: Executes(p, r.At(), r.state, t) ==> p.m.gamma(inv[r.At()].post, t)
  }

  ghost predicate Covers<A, S(!new)>(p: Problem<A, S>, entryInv: A, inv: Table<A>, part: set<Label>) {
    forall r :: LocalRun(p, entryInv, inv, part, r) ==> Covered(p, inv, r)
  }

  /** A run of the program: from the entry, along edges, executing each instruction. */
  ghost predicate ProgramRun<A, S>(p: Problem<A, S>, entryInv: A, r: Run<S>) {
    match r
    case AtEntry(s) => p.m.gamma(entryInv, s)
    case Enter(_, _, _) => false
    case Then(r0, l, s) =>
      ProgramRun(p, entryInv, r0) && p.cfg.Edge(r0.At(), l) && Executes(p, r0.At(), r0.state, s)
  }

  // ----- local runs under changes of the table, unions and cycles -----

  lemma EndsInside<A, S>(p: Problem<A, S>, e: A, inv: Table<A>, part: set<Label>, r: Run<S>)
    ensures LocalRun(p, e, inv, part, r) ==> r.At() in part
  {
  }

  /** Local runs look at the table only where an edge enters their part. */
  lemma {:induction false} LocalRunFrame<A, S>(
    p: Problem<A, S>, e: A, inv: Table<A>, inv': Table<A>, part: set<Label>, r: Run<S>)
    requires inv.Keys == inv'.Keys
    requires forall via, l :: via in inv && via !in part && l in part && p.cfg.Edge(via, l) ==>
                                inv[via].post == inv'[via].post
    ensures LocalRun(p, e, inv, part, r) <==> LocalRun(p, e, inv', part, r)
  {
    if r.Then? {
      LocalRunFrame(p, e, inv, inv', part, r.before);
    }
  }

  lemma CoversFrame<A, S(!new)>(p: Problem<A, S>, e: A, inv: Table<A>, inv': Table<A>, part: set<Label>)
    requires inv.Keys == inv'.Keys
    requires forall l :: l in part && l in inv ==> inv[l] == inv'[l]
    requires forall via, l :: via in inv && via !in part && l in part && p.cfg.Edge(via, l) ==>
                                inv[via].post == inv'[via].post
    requires Covers(p, e, inv, part)
    ensures Covers(p, e, inv', part)
  {
    forall r | LocalRun(p, e, inv', part, r)
      ensures Covered(p, inv', r)
    {
      LocalRunFrame(p, e, inv, inv', part, r);
      assert Covered(p, inv, r);
      assert r.At() in part;
    }
  }

  /** A run through two parts, the second never leading back to the first, ends with a
      run inside the part it ends in. */
  lemma {:induction false} SplitRun<A, S(!new)>(
    p: Problem<A, S>, e: A, inv: Table<A>, first: set<Label>, second: set<Label>, r: Run<S>)
    returns (tail: Run<S>)
    requires first !! second && NoEdge(p.cfg, second, first)
    requires Covers(p, e, inv, first) && Covers(p, e, inv, second)
    requires LocalRun(p, e, inv, first + second, r)
    ensures tail.At() == r.At() && tail.state == r.state
    ensures LocalRun(p, e, inv, if r.At() in first then first else second, tail)
  {
    match r
    case AtEntry(_) => tail := r;
    case Enter(_, _, _) => tail := r;
    case Then(r0, l, s) =>
      var tail0 := SplitRun(p, e, inv, first, second, r0);
      assert Covered(p, inv, tail0);
      if r0.At() in first <==> l in first {
        tail := Then(tail0, l, s);
      } else {
        tail := Enter(r0.At(), l, s);
      }
  }

  lemma CoversUnion<A, S(!new)>(p: Problem<A, S>, e: A, inv: Table<A>, first: set<Label>, second: set<Label>)
    requires first !! second && NoEdge(p.cfg, second, first)
    requires Covers(p, e, inv, first) && Covers(p, e, inv, second)
    ensures Covers(p, e, inv, first + second)
  {
    forall r | LocalRun(p, e, inv, first + second, r)
      ensures Covered(p, inv, r)
    {
      var tail := SplitRun(p, e, inv, first, second, r);
      assert Covered(p, inv, tail);
    }
  }

  /** A covered part stays covered when the next component is visited. */
  lemma NextCovered<A, S(!new)>(
    p: Problem<A, S>, e: A, inv: Table<A>, inv': Table<A>, done: set<Label>, next: set<Label>)
    requires inv.Keys == inv'.Keys && forall l :: l in inv && l !in next ==> inv[l] == inv'[l]
    requires done !! next && NoEdge(p.cfg, next, done)
    requires Covers(p, e, inv, done) && Covers(p, e, inv', next)
    ensures Covers(p, e, inv', done + next)
  {
    CoversFrame(p, e, inv, inv', done);
    CoversUnion(p, e, inv', done, next);
  }

  /** After the head was processed from `i`, its post-state covers what leaves it. */
  ghost predicate PostOf<A, S(!new)>(p: Problem<A, S>, inv: Table<A>, head: Label, i: A) {
    head in inv &&
    forall s, t :: p.m.gamma(i, s) && Executes(p, head, s, t) ==> p.m.gamma(inv[head].post, t)
  }

  /** `a` covers every state the table sends into the label. */
  ghost predicate CoversArrivals<A, S(!new)>(p: Problem<A, S>, inv: Table<A>, l: Label, a: A) {
    forall via, s :: via in inv && p.cfg.Edge(via, l) && p.m.gamma(inv[via].post, s) ==> p.m.gamma(a, s)
  }

  /** Every run of the cycle reaches its head inside `i`. */
  ghost predicate HeadBound<A, S(!new)>(
    p: Problem<A, S>, e: A, inv: Table<A>, cycle: set<Label>, head: Label, i: A)
  {
    forall r :: LocalRun(p, e, inv, cycle, r) && r.At() == head ==> p.m.gamma(i, r.state)
  }

  /** A vertex without a self-loop, processed from what arrives at it. */
  lemma VertexCovered<A, S(!new)>(p: Problem<A, S>, e: A, inv: Table<A>, l: Label)
    requires l in inv && !p.cfg.Edge(l, l) && PostOf(p, inv, l, inv[l].pre)
    requires if l == ENTRY then inv[l].pre == e else CoversArrivals(p, inv, l, inv[l].pre)
    requires forall via :: !p.cfg.Edge(via, ENTRY)
    ensures Covers(p, e, inv, {l})
  {
    forall r | LocalRun(p, e, inv, {l}, r)
      ensures Covered(p, inv, r)
    {
      if r.Then? {
        EndsInside(p, e, inv, {l}, r.before);
        assert false;
      }
    }
  }

  /** A run of a cycle reaches the head inside `i`, and elsewhere ends with a run of the
      body alone. Either `i` is a post-fixpoint of the table, or the bound is known. */
  lemma {:induction false} EndInBody<A, S(!new)>(
    p: Problem<A, S>, e: A, inv: Table<A>, head: Label, body: set<Label>, i: A, r: Run<S>)
    returns (tail: Run<S>)
    requires head !in body && head != ENTRY
    requires PostOf(p, inv, head, i) && Covers(p, e, inv, body)
    requires CoversArrivals(p, inv, head, i) || HeadBound(p, e, inv, {head} + body, head, i)
    requires LocalRun(p, e, inv, {head} + body, r)
    ensures r.At() == head ==> p.m.gamma(i, r.state)
    ensures r.At() != head ==>
              tail.At() == r.At() && tail.state == r.state && LocalRun(p, e, inv, body, tail)
  {
    tail := r;
    if r.Then? {
      var tail0 := EndInBody(p, e, inv, head, body, i, r.before);
      if r.before.At() == head {
        tail := Enter(head, r.node, r.state);
      } else {
        assert Covered(p, inv, tail0);
        tail := Then(tail0, r.node, r.state);
      }
    }
  }

  lemma PostFixpointBoundsHead<A, S(!new)>(
    p: Problem<A, S>, e: A, inv: Table<A>, head: Label, body: set<Label>, i: A)
    requires head !in body && head != ENTRY
    requires PostOf(p, inv, head, i) && Covers(p, e, inv, body) && CoversArrivals(p, inv, head, i)
    ensures HeadBound(p, e, inv, {head} + body, head, i)
  {
    forall r | LocalRun(p, e, inv, {head} + body, r) && r.At() == head
      ensures p.m.gamma(i, r.state)
    {
      var _ := EndInBody(p, e, inv, head, body, i, r);
    }
  }

  /** One more round through the body from a bound on the head gives a table that covers
      the cycle, and the join of the arrivals is again a bound on the head. */
  lemma CycleRound<A, S(!new)>(
    p: Problem<A, S>, e: A, inv: Table<A>, head: Label, body: set<Label>, i: A, arrivals: A)
    requires head !in body && head != ENTRY
    requires PostOf(p, inv, head, i) && Covers(p, e, inv, body)
    requires HeadBound(p, e, inv, {head} + body, head, i)
    requires CoversArrivals(p, inv, head, arrivals)
    ensures HeadBound(p, e, inv, {head} + body, head, arrivals)
    ensures inv[head].pre == i ==> Covers(p, e, inv, {head} + body)
  {
    forall r | LocalRun(p, e, inv, {head} + body, r)
      ensures r.At() == head ==> p.m.gamma(arrivals, r.state)
      ensures inv[head].pre == i ==> Covered(p, inv, r)
    {
      var tail := EndInBody(p, e, inv, head, body, i, r);
      assert r.At() != head ==> Covered(p, inv, tail);
      if r.Then? && r.At() == head {
        var tail0 := EndInBody(p, e, inv, head, body, i, r.before);
        assert r.before.At() != head ==> Covered(p, inv, tail0);
      }
    }
  }

  /** The bound on a head survives any change inside its cycle. */
  lemma HeadBoundFrame<A, S(!new)>(
    p: Problem<A, S>, e: A, inv: Table<A>, inv': Table<A>, cycle: set<Label>, head: Label, i: A)
    requires inv.Keys == inv'.Keys
    requires forall l :: l in inv && l !in cycle ==> inv[l] == inv'[l]
    requires HeadBound(p, e, inv, cycle, head, i)
    ensures HeadBound(p, e, inv', cycle, head, i)
  {
    forall r | LocalRun(p, e, inv', cycle, r) && r.At() == head
      ensures p.m.gamma(i, r.state)
    {
      LocalRunFrame(p, e, inv, inv', cycle, r);
    }
  }

  /** A round that ends in a post-fixpoint: the arrivals bound the head, and still do once
      they are written in front of it. */
  lemma StableRound<A(!new), S(!new)>(
    p: Problem<A, S>, e: A, inv: Table<A>, head: Label, body: set<Label>, i: A, newPre: A)
    requires SoundLattice(p.d, p.m) && p.d.leq(newPre, i)
    requires head !in body && head != ENTRY
    requires PostOf(p, inv, head, i) && Covers(p, e, inv, body) && CoversArrivals(p, inv, head, newPre)
    ensures HeadBound(p, e, inv[head := InvariantPair(newPre, inv[head].post)], {head} + body, head, newPre)
  {
    forall via, s | via in inv && p.cfg.Edge(via, head) && p.m.gamma(inv[via].post, s)
      ensures p.m.gamma(i, s)
    {
      assert p.m.gamma(newPre, s);
    }
    PostFixpointBoundsHead(p, e, inv, head, body, i);
    CycleRound(p, e, inv, head, body, i, newPre);
    HeadBoundFrame(p, e, inv, inv[head := InvariantPair(newPre, inv[head].post)], {head} + body, head, newPre);
  }

  /** A prefix of a well-formed sequence and the component behind it. */
  lemma {:induction false} PrefixFacts(cfg: Cfg, cs: seq<Component>, k: nat)
    requires k < |cs| && WellFormedSequence(cfg, cs)
    ensures AllLabels(cs[..k + 1]) == AllLabels(cs[..k]) + Labels(cs[k])
    ensures AllLabels(cs[..k]) !! Labels(cs[k]) && NoEdge(cfg, Labels(cs[k]), AllLabels(cs[..k]))
    ensures WellFormed(cfg, cs[k]) && Labels(cs[k]) <= AllLabels(cs)
    ensures Heads([cs[k]]) <= Heads(cs)
  {
    if k == 0 {
      assert cs[..1] == [cs[0]] && cs[..0] == [];
      assert [cs[0]][1..] == [];
    } else {
      PrefixFacts(cfg, cs[1..], k - 1);
      assert cs[..k + 1][1..] == cs[1..][..k] && cs[..k][1..] == cs[1..][..k - 1];
    }
  }

  // ----- the iterator -----

  /** Both bounds hold, so their meet or narrowing is a bound, also once it is written. */
  lemma RefinedBound<A(!new), S(!new)>(
    p: Problem<A, S>, e: A, inv: Table<A>, cycle: set<Label>, head: Label, i: A, newPre: A, iteration: nat)
    requires SoundLattice(p.d, p.m) && head in inv && head in cycle
    requires HeadBound(p, e, inv, cycle, head, i) && HeadBound(p, e, inv, cycle, head, newPre)
    ensures var i' := Refine(p.d, i, newPre, iteration);
            HeadBound(p, e, inv[head := InvariantPair(i', inv[head].post)], cycle, head, i')
  {
    var i' := Refine(p.d, i, newPre, iteration);
    assert HeadBound(p, e, inv, cycle, head, i');
    HeadBoundFrame(p, e, inv, inv[head := InvariantPair(i', inv[head].post)], cycle, head, i');
  }

  // ----- the whole order -----

  /** Covered and settled. */
  ghost predicate Solved<A(!new), S(!new)>(p: Problem<A, S>, e: A, inv: Table<A>, cs: seq<Component>) {
    Covers(p, e, inv, AllLabels(cs)) && SettledAll(p, e, inv, cs)
  }

  lemma NothingSolved<A(!new), S(!new)>(p: Problem<A, S>, e: A, inv: Table<A>)
    ensures Solved(p, e, inv, [])
  {
    forall r ensures !LocalRun(p, e, inv, {}, r) {
      EndsInside(p, e, inv, {}, r);
    }
  }

  lemma NextSolved<A(!new), S(!new)>(
    p: Problem<A, S>, e: A, inv: Table<A>, inv': Table<A>, done: seq<Component>, next: Component)
    requires p.cfg.Valid() && inv.Keys == inv'.Keys && forall l :: l in inv && l !in Labels(next) ==> inv[l] == inv'[l]
    requires AllLabels(done) !! Labels(next) && NoEdge(p.cfg, Labels(next), AllLabels(done))
    requires AllLabels(done + [next]) == AllLabels(done) + Labels(next)
    requires Solved(p, e, inv, done) && Covers(p, e, inv', Labels(next)) && SettledIn(p, e, inv', next)
    ensures Solved(p, e, inv', done + [next])
  {
    NextCovered(p, e, inv, inv', AllLabels(done), Labels(next));
    NextSettled(p, e, inv, inv', done, next);
  }

  /** The state of the analysis in front of the k-th component. The first f components, which lie
      before the entry's, are skipped, and the others are solved; nothing else is touched. */
  ghost predicate SoFar<A(!new), S(!new)>(
    p: Problem<A, S>, e: A, start: Table<A>, inv: Table<A>, skip: bool, f: nat, k: nat)
  {
    && f <= k <= |p.wto| && (skip <==> f == k) && ENTRY !in AllLabels(p.wto[..f])
    && (f < k ==> ENTRY in Labels(p.wto[f])) && Solved(p, e, inv, p.wto[f..k])
    && inv.Keys == start.Keys && forall l :: l in inv && l !in AllLabels(p.wto[f..k]) ==> inv[l] == start[l]
  }

  lemma {:induction false} SuffixFacts(cfg: Cfg, cs: seq<Component>, f: nat)
    requires f <= |cs| && WellFormedSequence(cfg, cs)
    ensures WellFormedSequence(cfg, cs[f..]) && AllLabels(cs) == AllLabels(cs[..f]) + AllLabels(cs[f..])
    ensures NoEdge(cfg, AllLabels(cs[f..]), AllLabels(cs[..f]))
  {
    if f > 0 {
      SuffixFacts(cfg, cs[1..], f - 1);
      assert cs[1..][f - 1..] == cs[f..] && cs[..f][1..] == cs[1..][..f - 1];
    } else {
      assert cs[..0] == [] && cs[0..] == cs;
    }
  }

  /** The next component and those before it. */
  lemma NextFacts(cfg: Cfg, cs: seq<Component>, f: nat, k: nat)
    requires WellFormedSequence(cfg, cs) && f <= k < |cs|
    ensures AllLabels(cs[f..k + 1]) == AllLabels(cs[f..k]) + Labels(cs[k]) && cs[f..k + 1] == cs[f..k] + [cs[k]]
    ensures AllLabels(cs[f..k]) !! Labels(cs[k]) && NoEdge(cfg, Labels(cs[k]), AllLabels(cs[f..k]))
  {
    SuffixFacts(cfg, cs, f);
    PrefixFacts(cfg, cs[f..], k - f);
    SliceOfSuffix(cs, f, k);
  }

  lemma SliceOfSuffix(cs: seq<Component>, f: nat, k: nat)
    requires f <= k < |cs|
    ensures cs[f..][..k - f] == cs[f..k] && cs[f..][..k - f + 1] == cs[f..k + 1] && cs[f..][k - f] == cs[k]
    ensures cs[f..k + 1] == cs[f..k] + [cs[k]]
  {
  }

  lemma SoFarBegins<A(!new), S(!new)>(p: Problem<A, S>, e: A, start: Table<A>)
    ensures SoFar(p, e, start, start, true, 0, 0)
  {
    assert p.wto[..0] == [] && p.wto[0..0] == [];
    NothingSolved(p, e, start);
  }

  lemma SoFarNext<A(!new), S(!new)>(
    p: Problem<A, S>, e: A, start: Table<A>, table: Table<A>, inv: Table<A>, skipped: bool, skip: bool, f: nat, k: nat)
    requires p.cfg.Valid() && WellFormedSequence(p.cfg, p.wto) && k < |p.wto|
    requires SoFar(p, e, start, table, skipped, f, k)
    requires inv.Keys == table.Keys && forall n :: n in inv && n !in Labels(p.wto[k]) ==> inv[n] == table[n]
    requires skip == (skipped && ENTRY !in Labels(p.wto[k])) && (skip ==> inv == table)
    requires !skip ==> Covers(p, e, inv, Labels(p.wto[k])) && SettledIn(p, e, inv, p.wto[k])
    ensures SoFar(p, e, start, inv, skip, if skip then f + 1 else f, k + 1)
  {
    NextFacts(p.cfg, p.wto, f, k);
    PrefixFacts(p.cfg, p.wto, k);
    if skip {
      assert p.wto[f + 1..k + 1] == [] && p.wto[f..k] == [];
      NothingSolved(p, e, inv);
    } else {
      NextSolved(p, e, table, inv, p.wto[f..k], p.wto[k]);
    }
  }

  /** interleaved_fwd_fixpoint_iterator_t. With `limit` None the ascending iteration goes
      on until it is stable, as in the original; it then needs a ranked widening. With
      Some(k) it is watched for at most k rounds, for any widening, and a visit that
      needs more rounds reports false. */
  class Iterator<A(!new), S(!new)> {
    const p: Problem<A, S>
    const limit: Option<nat>
    ghost const rank: A -> nat
    ghost const entryInv: A
    var inv: Table<A>
    var skip: bool

    ghost predicate Valid()
      reads this
    {
      && p.cfg.Valid()
      && SoundLattice(p.d, p.m) && SoundTransformer(p.d, p.m)
      && (limit.None? ==> RankedWidening(p.d, rank))
      && inv.Keys == p.cfg.neighbours.Keys
      && inv[ENTRY].pre == entryInv
    }

    constructor (p: Problem<A, S>, entryInv: A, limit: Option<nat>, ghost rank: A -> nat)
      requires p.cfg.Valid() && SoundLattice(p.d, p.m) && SoundTransformer(p.d, p.m)
      requires limit.None? ==> RankedWidening(p.d, rank)
      ensures Valid() && skip
      ensures forall l :: l in inv && l != ENTRY ==> inv[l] == InvariantPair(p.d.bottom, p.d.bottom)
      ensures this.p == p && this.limit == limit && this.entryInv == entryInv && this.rank == rank
    {
      this.p, this.limit, this.rank, this.entryInv := p, limit, rank, entryInv;
      this.skip := true;
      this.inv :=
        (map l | l in p.cfg.neighbours :: InvariantPair(p.d.bottom, p.d.bottom))
        [ENTRY := InvariantPair(entryInv, p.d.bottom)];
    }

    method SetPre(l: Label, a: A)
      requires l in inv
      modifies this`inv
      ensures inv == old(inv)[l := InvariantPair(a, old(inv)[l].post)]
    {
      inv := inv[l := InvariantPair(a, inv[l].post)];
    }

    method TransformToPost(l: Label, a: A)
      requires Valid() && l in inv
      modifies this`inv
      ensures Valid() && PostOf(p, inv, l, a)
      ensures inv == old(inv)[l := InvariantPair(old(inv)[l].pre, Transformed(p, l, a))]
    {
      var pre := a;
      if p.assume_ {
        var assertions := p.cfg.instructions[l].preconditions;
        for k := 0 to |assertions|
          invariant pre == AssumeAll(p.d, a, assertions[..k])
          invariant forall s :: p.m.gamma(a, s) && AssertionsHold(p, l, s) ==> p.m.gamma(pre, s)
        {
          assert assertions[k] in assertions && assertions[..k + 1][..k] == assertions[..k];
          pre := p.d.assuming(pre, assertions[k]);
        }
        assert assertions[..|assertions|] == assertions;
      }
      inv := inv[l := InvariantPair(inv[l].pre, p.d.transform(pre, p.cfg.instructions[l].cmd))];
    }

    /** The join over the parents, in whatever order the set gives them. */
    method JoinAllPrevs(l: Label) returns (a: A)
      requires Valid() && l in inv
      ensures if l == ENTRY then a == inv[l].pre else CoversArrivals(p, inv, l, a) && IsJoin(p, inv, l, a)
    {
      if l == ENTRY {
        return inv[l].pre;
      }
      ghost var order := [];
      a := p.d.bottom;
      ChildrenKnown(p.cfg, l);
      ghost var parents := p.cfg.neighbours[l].parents;
      var rest := p.cfg.neighbours[l].parents;
      assert parents - rest == {};
      while rest != {}
        invariant rest <= parents && Joined(parents, rest, order, a)
        decreases rest
      {
        var prev :| prev in rest;
        JoinedStep(parents, rest, order, a, prev);
        a, order, rest := p.d.join(a, inv[prev].post), order + [prev], rest - {prev};
      }
      assert parents - rest == parents;
      JoinedParentsCover(p, inv, l, order);
      assert JoinsInOrder(p, inv, parents, order, a);
    }

    method VisitVertex(l: Label)
      requires Valid() && l in inv && !p.cfg.Edge(l, l)
      modifies this
      ensures Valid()
      ensures forall n :: n in inv && n != l ==> inv[n] == old(inv)[n]
      ensures skip == (old(skip) && l != ENTRY)
      ensures if skip then inv == old(inv)
              else Covers(p, entryInv, inv, {l}) && SettledIn(p, entryInv, inv, Vertex(l))
    {
      if skip && l == ENTRY {
        skip := false;
      }
      if skip {
        return;
      }
      var pre := JoinAllPrevs(l);
      WriteVertex(l, pre);
    }

    method WriteVertex(l: Label, pre: A)
      requires Valid() && l in inv && !p.cfg.Edge(l, l)
      requires if l == ENTRY then pre == inv[l].pre else CoversArrivals(p, inv, l, pre) && IsJoin(p, inv, l, pre)
      modifies this`inv
      ensures Valid() && inv.Keys == old(inv).Keys
      ensures Covers(p, entryInv, inv, {l}) && SettledIn(p, entryInv, inv, Vertex(l))
      ensures forall n :: n in inv && n != l ==> inv[n] == old(inv)[n]
    {
      SetPre(l, pre);
      TransformToPost(l, pre);
      VertexCovered(p, entryInv, inv, l);
      if l != ENTRY {
        JoinStays(p, old(inv), inv, l, pre);
      }
    }

    /** The components of a cycle in order, but for its head. */
    method VisitBody(cs: seq<Component>) returns (ok: bool)
      requires Valid() && !skip
      requires WellFormed(p.cfg, Cycle(cs)) && AllLabels(cs) <= inv.Keys && ENTRY !in Heads(cs)
      modifies this
      ensures Valid() && !skip
      ensures forall n :: n in inv && n !in AllLabels(cs[1..]) ==> inv[n] == old(inv)[n]
      ensures limit.None? ==> ok
      ensures ok ==> Solved(p, entryInv, inv, cs[1..])
      decreases cs, 1
    {
      var head := cs[0].vertex;
      ghost var body := cs[1..];
      NothingSolved(p, entryInv, inv);
      assert body[..0] == [];
      for k := 0 to |cs|
        invariant Valid() && !skip
        invariant forall n :: n in inv && n !in AllLabels(body) ==> inv[n] == old(inv)[n]
        invariant Solved(p, entryInv, inv, body[..if k > 0 then k - 1 else 0])
      {
        if cs[k] != Vertex(head) {
          ok := VisitPart(cs, k);
          if !ok {
            return;
          }
        } else {
          HeadIsFirst(p.cfg, cs, k);
        }
      }
      ok := true;
      assert body[..|body|] == body;
    }

    /** One of the components behind the head. */
    method VisitPart(cs: seq<Component>, k: nat) returns (ok: bool)
      requires Valid() && !skip && 0 < k < |cs|
      requires WellFormed(p.cfg, Cycle(cs)) && AllLabels(cs) <= inv.Keys && ENTRY !in Heads(cs)
      requires Solved(p, entryInv, inv, cs[1..][..k - 1])
      modifies this
      ensures Valid() && !skip
      ensures forall n :: n in inv && n !in AllLabels(cs[1..]) ==> inv[n] == old(inv)[n]
      ensures limit.None? ==> ok
      ensures ok ==> Solved(p, entryInv, inv, cs[1..][..k])
      decreases cs, 0
    {
      ghost var body, before := cs[1..], inv;
      PrefixFacts(p.cfg, body, k - 1);
      assert body[k - 1] == cs[k] && body[..k] == body[..k - 1] + [cs[k]];
      HeadsOfTail(cs);
      ok := VisitComponent(cs[k]);
      if ok {
        NextSolved(p, entryInv, before, inv, body[..k - 1], cs[k]);
      }
    }

    method VisitCycle(cs: seq<Component>) returns (ok: bool)
      requires Valid()
      requires WellFormed(p.cfg, Cycle(cs)) && AllLabels(cs) <= inv.Keys
      requires cs[0].vertex in inv && cs[0].vertex != ENTRY && ENTRY !in Heads(cs)
      modifies this
      ensures Valid()
      ensures forall n :: n in inv && n !in AllLabels(cs) ==> inv[n] == old(inv)[n]
      ensures skip == (old(skip) && ENTRY !in AllLabels(cs))
      ensures skip ==> inv == old(inv)
      ensures limit.None? ==> ok
      ensures ok && !skip ==> Covers(p, entryInv, inv, AllLabels(cs)) && CycleSettled(p, entryInv, inv, cs)
      decreases cs, 6
    {
      ok := true;
      var head := cs[0].vertex;
      CycleLabels(cs);
      var entryInThisCycle := false;
      if skip {
        entryInThisCycle := IsComponentMember(ENTRY, Cycle(cs));
        skip := !entryInThisCycle;
        if skip {
          return;
        }
      }
      var first := InitialInvariant(cs, entryInThisCycle);
      ok := Iterate(cs, first);
    }

    /** The increasing and the decreasing sequence. */
    method Iterate(cs: seq<Component>, first: A) returns (ok: bool)
      requires Valid() && !skip
      requires WellFormed(p.cfg, Cycle(cs)) && AllLabels(cs) <= inv.Keys
      requires cs[0].vertex in inv && cs[0].vertex != ENTRY && ENTRY !in Heads(cs)
      requires IsStart(p, entryInv, inv, cs, first)
      modifies this
      ensures Valid() && !skip
      ensures forall n :: n in inv && n !in AllLabels(cs) ==> inv[n] == old(inv)[n]
      ensures limit.None? ==> ok
      ensures ok ==> Covers(p, entryInv, inv, AllLabels(cs)) && CycleSettled(p, entryInv, inv, cs)
      decreases cs, 5
    {
      ghost var before := inv;
      var invariant_;
      invariant_, ok := Ascend(cs, first);
      if ok {
        StartsTheDescent(p, entryInv, before, inv, cs, first, invariant_);
        ok := Descend(cs, invariant_, first);
      }
    }

    /** The value a cycle starts from. Soundness does not rely on it, because the ascending
        iteration ends only on a post-fixpoint. */
    method InitialInvariant(cs: seq<Component>, entryInThisCycle: bool) returns (a: A)
      requires Valid() && cs != [] && cs[0].Vertex? && cs[0].vertex in inv
      requires entryInThisCycle ==> ENTRY in AllLabels(cs)
      ensures if entryInThisCycle then a == entryInv else StartsFrom(p, inv, cs[0].vertex, a)
      ensures IsStart(p, entryInv, inv, cs, a)
    {
      if entryInThisCycle {
        return inv[ENTRY].pre;
      }
      a := JoinOutside(cs[0].vertex);
      assert SameInflow(p, inv, inv, AllLabels(cs));
    }

    method JoinOutside(head: Label) returns (a: A)
      requires Valid() && head in inv
      ensures StartsFrom(p, inv, head, a)
    {
      a := p.d.bottom;
      ghost var order := [];
      ChildrenKnown(p.cfg, head);
      ghost var outside := OutsideParents(p, head);
      var rest := p.cfg.neighbours[head].parents;
      assert outside - rest == {};
      while rest != {}
        invariant rest <= p.cfg.neighbours[head].parents && Joined(outside, rest, order, a)
        decreases rest
      {
        var prev :| prev in rest;
        assert EntersFrom(p, head, prev) <==> prev in outside;
        JoinedStep(outside, rest, order, a, prev);
        if EntersFrom(p, head, prev) {
          a, order := p.d.join(a, inv[prev].post), order + [prev];
        }
        rest := rest - {prev};
      }
      assert outside - rest == outside;
      assert JoinsInOrder(p, inv, outside, order, a);
    }

    /** The part of a set that has been taken is joined. */
    ghost predicate Joined(part: set<Label>, rest: set<Label>, order: seq<Label>, a: A)
      reads this
    {
      && Lists(order, part - rest) && (forall k :: 0 <= k < |order| ==> order[k] in inv)
      && a == JoinPosts(p.d, inv, order)
    }

    lemma JoinedStep(part: set<Label>, rest: set<Label>, order: seq<Label>, a: A, l: Label)
      requires Joined(part, rest, order, a) && l in rest && l in inv
      ensures if l in part then Joined(part, rest - {l}, order + [l], p.d.join(a, inv[l].post))
              else Joined(part, rest - {l}, order, a)
    {
      OutsideStep(order, part, rest, l);
      assert (order + [l])[..|order|] == order;
    }

    /** One round of either sequence: the head from `i`, the body, and what now arrives. */
    method Round(cs: seq<Component>, i: A) returns (newPre: A, ok: bool)
      requires Valid() && !skip
      requires WellFormed(p.cfg, Cycle(cs)) && AllLabels(cs) <= inv.Keys
      requires cs[0].vertex in inv && cs[0].vertex != ENTRY && ENTRY !in Heads(cs)
      modifies this
      ensures Valid() && !skip
      ensures forall n :: n in inv && n !in AllLabels(cs) ==> inv[n] == old(inv)[n]
      ensures inv[cs[0].vertex].pre == old(inv)[cs[0].vertex].pre
      ensures limit.None? ==> ok
      ensures ok ==> PostOf(p, inv, cs[0].vertex, i) && CoversArrivals(p, inv, cs[0].vertex, newPre)
      ensures ok ==> RoundEnds(p, entryInv, inv, cs, i, newPre) && Covers(p, entryInv, inv, AllLabels(cs[1..]))
      decreases cs, 2
    {
      var head := cs[0].vertex;
      CycleLabels(cs);
      TransformToPost(head, i);
      ok := VisitBody(cs);
      newPre := JoinAllPrevs(head);
    }

    /** Increasing iteration sequence with widening. */
    method Ascend(cs: seq<Component>, start: A) returns (i: A, ok: bool)
      requires Valid() && !skip
      requires WellFormed(p.cfg, Cycle(cs)) && AllLabels(cs) <= inv.Keys
      requires cs[0].vertex in inv && cs[0].vertex != ENTRY && ENTRY !in Heads(cs)
      modifies this
      ensures Valid() && !skip
      ensures forall n :: n in inv && n !in AllLabels(cs) ==> inv[n] == old(inv)[n]
      ensures limit.None? ==> ok
      ensures ok ==> inv[cs[0].vertex].pre == i && HeadBound(p, entryInv, inv, AllLabels(cs), cs[0].vertex, i)
      ensures ok ==> Ascended(p, entryInv, old(inv), cs, start, i)
      decreases cs, 3
    {
      var head := cs[0].vertex;
      CycleLabels(cs);
      i := start;
      var iteration := 1;
      ClimbingBegins(p, entryInv, inv, cs, start);
      while true
        invariant Valid() && !skip && iteration >= 1 && Climbing(p, entryInv, old(inv), cs, start, i, iteration)
        invariant forall n :: n in inv && n !in AllLabels(cs) ==> inv[n] == old(inv)[n]
        invariant limit.Some? ==> iteration <= limit.value + 1
        decreases if limit.None? && iteration < WIDENING_DELAY then 1 else 0,
                  if limit.None? then rank(i) else limit.value + 1 - iteration
      {
        if limit.Some? && iteration > limit.value {
          return i, false;
        }
        SetPre(head, i);
        var newPre: A;
        newPre, ok := Round(cs, i);
        if !ok {
          return;
        }
        RoundIsRound(p, entryInv, old(inv), inv, cs, i, newPre);
        ClimbingNext(p, entryInv, old(inv), cs, start, i, iteration, newPre);
        if p.d.leq(newPre, i) {
          EndAscent(cs, i, newPre);
          return newPre, true;
        }
        i := Extrapolate(p.d, i, newPre, iteration);
        iteration := iteration + 1;
      }
    }

    /** Post-fixpoint reached. */
    method EndAscent(cs: seq<Component>, ghost i: A, newPre: A)
      requires Valid() && WellFormed(p.cfg, Cycle(cs)) && cs[0].vertex in inv && cs[0].vertex != ENTRY
      requires PostOf(p, inv, cs[0].vertex, i) && CoversArrivals(p, inv, cs[0].vertex, newPre)
      requires Covers(p, entryInv, inv, AllLabels(cs[1..])) && p.d.leq(newPre, i)
      modifies this`inv
      ensures Valid() && inv == old(inv)[cs[0].vertex := InvariantPair(newPre, old(inv)[cs[0].vertex].post)]
      ensures HeadBound(p, entryInv, inv, AllLabels(cs), cs[0].vertex, newPre)
    {
      StableRound(p, entryInv, inv, cs[0].vertex, AllLabels(cs[1..]), i, newPre);
      SetPre(cs[0].vertex, newPre);
    }

    /** Decreasing iteration sequence with narrowing. */
    method Descend(cs: seq<Component>, stable: A, ghost first: A) returns (ok: bool)
      requires Valid() && !skip
      requires WellFormed(p.cfg, Cycle(cs)) && AllLabels(cs) <= inv.Keys
      requires cs[0].vertex in inv && cs[0].vertex != ENTRY && ENTRY !in Heads(cs)
      requires inv[cs[0].vertex].pre == stable && HeadBound(p, entryInv, inv, AllLabels(cs), cs[0].vertex, stable)
      requires IsStart(p, entryInv, inv, cs, first) && Ascended(p, entryInv, inv, cs, first, stable)
      modifies this
      ensures Valid() && !skip
      ensures forall n :: n in inv && n !in AllLabels(cs) ==> inv[n] == old(inv)[n]
      ensures limit.None? ==> ok
      ensures ok ==> Covers(p, entryInv, inv, AllLabels(cs)) && CycleSettled(p, entryInv, inv, cs)
      decreases cs, 4
    {
      var head := cs[0].vertex;
      CycleLabels(cs);
      var i := stable;
      var iteration := 1;
      SinkingBegins(p, entryInv, inv, cs, stable);
      while true
        invariant Valid() && !skip && 1 <= iteration <= DESCENDING_ITERATIONS + 1
        invariant Sinking(p, entryInv, old(inv), cs, stable, i, iteration)
        invariant forall n :: n in inv && n !in AllLabels(cs) ==> inv[n] == old(inv)[n]
        invariant inv[head].pre == i
        invariant HeadBound(p, entryInv, inv, AllLabels(cs), head, i)
        decreases DESCENDING_ITERATIONS + 1 - iteration
      {
        var newPre: A;
        newPre, ok := RoundBelow(cs, i);
        if !ok {
          return;
        }
        DescendOn(p, entryInv, old(inv), inv, cs, first, stable, iteration, newPre);
        if p.d.leq(i, newPre) || iteration > DESCENDING_ITERATIONS {
          return true;
        }
        i := GoDown(cs, i, iteration, newPre);
        iteration := iteration + 1;
      }
    }

    /** A round from a bound covers the cycle, and gives another bound. */
    method RoundBelow(cs: seq<Component>, i: A) returns (newPre: A, ok: bool)
      requires Valid() && !skip
      requires WellFormed(p.cfg, Cycle(cs)) && AllLabels(cs) <= inv.Keys
      requires cs[0].vertex in inv && cs[0].vertex != ENTRY && ENTRY !in Heads(cs)
      requires inv[cs[0].vertex].pre == i && HeadBound(p, entryInv, inv, AllLabels(cs), cs[0].vertex, i)
      modifies this
      ensures Valid() && !skip
      ensures forall n :: n in inv && n !in AllLabels(cs) ==> inv[n] == old(inv)[n]
      ensures limit.None? ==> ok
      ensures inv[cs[0].vertex].pre == i
      ensures ok ==> RoundEnds(p, entryInv, inv, cs, i, newPre) && Covers(p, entryInv, inv, AllLabels(cs))
      ensures ok ==> HeadBound(p, entryInv, inv, AllLabels(cs), cs[0].vertex, i)
      ensures ok ==> HeadBound(p, entryInv, inv, AllLabels(cs), cs[0].vertex, newPre)
      decreases cs, 3
    {
      ghost var before := inv;
      newPre, ok := Round(cs, i);
      if ok {
        RoundBounds(p, entryInv, before, inv, cs, i, newPre);
      }
    }

    method GoDown(cs: seq<Component>, i: A, iteration: nat, newPre: A) returns (refined: A)
      requires Valid() && WellFormed(p.cfg, Cycle(cs)) && cs[0].vertex in inv && cs[0].vertex != ENTRY
      requires HeadBound(p, entryInv, inv, AllLabels(cs), cs[0].vertex, i)
      requires HeadBound(p, entryInv, inv, AllLabels(cs), cs[0].vertex, newPre)
      modifies this`inv
      ensures Valid() && inv == old(inv)[cs[0].vertex := InvariantPair(refined, old(inv)[cs[0].vertex].post)]
      ensures HeadBound(p, entryInv, inv, AllLabels(cs), cs[0].vertex, refined)
      ensures refined == Refine(p.d, i, newPre, iteration)
    {
      CycleLabels(cs);
      RefinedBound(p, entryInv, inv, AllLabels(cs), cs[0].vertex, i, newPre, iteration);
      refined := Refine(p.d, i, newPre, iteration);
      SetPre(cs[0].vertex, refined);
    }

    /** Where the loop over the components is. */
    ghost predicate IsBefore(start: Table<A>, f: nat, k: nat)
      reads this
    {
      SoFar(p, entryInv, start, inv, skip, f, k)
    }

    /** All n components of the order. The first f of them, in front of the entry's, are skipped. */
    method VisitAll() returns (ok: bool, ghost f: nat, n: nat)
      requires Valid() && skip && ValidWto(p.cfg, p.wto)
      modifies this
      ensures Valid() && (limit.None? ==> ok)
      ensures ok ==> n == |p.wto| && IsBefore(old(inv), f, n)
    {
      f, ok, n := 0, true, 0;
      SoFarBegins(p, entryInv, inv);
      while n < |p.wto|
        invariant Valid() && ok && n <= |p.wto| && IsBefore(old(inv), f, n)
      {
        ok, f := VisitNext(n, old(inv), f);
        if !ok {
          return;
        }
        n := n + 1;
      }
    }

    method VisitNext(k: nat, ghost start: Table<A>, ghost f0: nat) returns (ok: bool, ghost f: nat)
      requires Valid() && ValidWto(p.cfg, p.wto) && k < |p.wto| && IsBefore(start, f0, k)
      modifies this
      ensures Valid() && (limit.None? ==> ok)
      ensures ok ==> IsBefore(start, f, k + 1)
    {
      PrefixFacts(p.cfg, p.wto, k);
      ghost var table, skipped := inv, skip;
      ok := VisitComponent(p.wto[k]);
      f := if skip then f0 + 1 else f0;
      if ok {
        SoFarNext(p, entryInv, start, table, inv, skipped, skip, f0, k);
      }
    }

    method VisitComponent(c: Component) returns (ok: bool)
      requires Valid()
      requires WellFormed(p.cfg, c) && Labels(c) <= inv.Keys && ENTRY !in Heads([c])
      modifies this
      ensures Valid()
      ensures forall n :: n in inv && n !in Labels(c) ==> inv[n] == old(inv)[n]
      ensures skip == (old(skip) && ENTRY !in Labels(c))
      ensures skip ==> inv == old(inv)
      ensures limit.None? ==> ok
      ensures ok && !skip ==> Covers(p, entryInv, inv, Labels(c)) && SettledIn(p, entryInv, inv, c)
      decreases c, 3
    {
      match c
      case Vertex(l) =>
        VisitVertex(l);
        ok := true;
      case Cycle(cs) =>
        CycleLabels(cs);
        ok := VisitCycle(cs);
    }
  }

  /** What a round leaves is a round for every table that sends the same into the cycle. */
  lemma RoundIsRound<A(!new), S(!new)>(
    p: Problem<A, S>, e: A, start: Table<A>, inv: Table<A>, cs: seq<Component>, i: A, newPre: A)
    requires cs != [] && cs[0].Vertex? && RoundEnds(p, e, inv, cs, i, newPre) && inv.Keys == start.Keys
    requires forall n :: n in inv && n !in AllLabels(cs) ==> inv[n] == start[n]
    ensures IsRound(p, e, start, cs, i, newPre)
  {
    assert SameInflow(p, start, inv, AllLabels(cs));
  }

  lemma RoundBounds<A(!new), S(!new)>(
    p: Problem<A, S>, e: A, before: Table<A>, inv: Table<A>, cs: seq<Component>, i: A, newPre: A)
    requires WellFormed(p.cfg, Cycle(cs)) && cs[0].vertex != ENTRY && inv.Keys == before.Keys
    requires forall n :: n in inv && n !in AllLabels(cs) ==> before[n] == inv[n]
    requires HeadBound(p, e, before, AllLabels(cs), cs[0].vertex, i) && PostOf(p, inv, cs[0].vertex, i)
    requires Covers(p, e, inv, AllLabels(cs[1..])) && CoversArrivals(p, inv, cs[0].vertex, newPre)
    ensures HeadBound(p, e, inv, AllLabels(cs), cs[0].vertex, i)
    ensures HeadBound(p, e, inv, AllLabels(cs), cs[0].vertex, newPre)
    ensures inv[cs[0].vertex].pre == i ==> Covers(p, e, inv, AllLabels(cs))
  {
    CycleLabels(cs);
    HeadBoundFrame(p, e, before, inv, AllLabels(cs), cs[0].vertex, i);
    CycleRound(p, e, inv, cs[0].vertex, AllLabels(cs[1..]), i, newPre);
  }

  lemma OutsideStep(order: seq<Label>, outside: set<Label>, rest: set<Label>, l: Label)
    requires Lists(order, outside - rest) && l in rest
    ensures Lists(if l in outside then order + [l] else order, outside - (rest - {l}))
  {
    if l in outside {
      assert outside - (rest - {l}) == (outside - rest) + {l};
    } else {
      assert outside - (rest - {l}) == outside - rest;
    }
  }

  /** A join covers each of its parts. */
  lemma {:induction false} JoinPostsCover<A(!new), S(!new)>(
    p: Problem<A, S>, inv: Table<A>, order: seq<Label>, k: nat, s: S)
    requires SoundLattice(p.d, p.m) && forall n :: 0 <= n < |order| ==> order[n] in inv
    requires k < |order| && p.m.gamma(inv[order[k]].post, s)
    ensures p.m.gamma(JoinPosts(p.d, inv, order), s)
  {
    if k < |order| - 1 {
      JoinPostsCover(p, inv, order[..|order| - 1], k, s);
    }
  }

  lemma JoinedParentsCover<A(!new), S(!new)>(p: Problem<A, S>, inv: Table<A>, l: Label, order: seq<Label>)
    requires SoundLattice(p.d, p.m) && p.cfg.Valid() && l in p.cfg.neighbours
    requires Lists(order, p.cfg.neighbours[l].parents) && forall n :: 0 <= n < |order| ==> order[n] in inv
    ensures CoversArrivals(p, inv, l, JoinPosts(p.d, inv, order))
  {
    forall via, s | via in inv && p.cfg.Edge(via, l) && p.m.gamma(inv[via].post, s)
      ensures p.m.gamma(JoinPosts(p.d, inv, order), s)
    {
      assert p.cfg.HasParent(l, via);
      assert via in multiset(order);
      var k :| 0 <= k < |order| && order[k] == via;
      JoinPostsCover(p, inv, order, k, s);
    }
  }

  /** What the increasing sequence found holds of the table that it leaves. */
  lemma StartsTheDescent<A(!new), S(!new)>(
    p: Problem<A, S>, e: A, start: Table<A>, inv: Table<A>, cs: seq<Component>, first: A, stable: A)
    requires WellFormed(p.cfg, Cycle(cs)) && inv.Keys == start.Keys
    requires forall n :: n in inv && n !in AllLabels(cs) ==> inv[n] == start[n]
    requires IsStart(p, e, start, cs, first) && Ascended(p, e, start, cs, first, stable)
    ensures IsStart(p, e, inv, cs, first) && Ascended(p, e, inv, cs, first, stable)
  {
    assert SameInflow(p, start, inv, AllLabels(cs));
    StartStays(p, e, start, inv, cs, first);
    AscendedStays(p, e, start, inv, cs, first, stable);
  }

  /** The decreasing sequence is over. */
  lemma DescentEnds<A(!new), S(!new)>(
    p: Problem<A, S>, e: A, start: Table<A>, inv: Table<A>, cs: seq<Component>, first: A, stable: A, newPre: A)
    requires WellFormed(p.cfg, Cycle(cs)) && inv.Keys == start.Keys && cs[0].vertex in inv
    requires forall n :: n in inv && n !in AllLabels(cs) ==> inv[n] == start[n]
    requires IsStart(p, e, start, cs, first) && Ascended(p, e, start, cs, first, stable)
    requires Descended(p, e, start, cs, stable, inv[cs[0].vertex].pre, newPre)
    requires RoundEnds(p, e, inv, cs, inv[cs[0].vertex].pre, newPre)
    ensures CycleSettled(p, e, inv, cs)
  {
    assert SameInflow(p, start, inv, AllLabels(cs));
    StartStays(p, e, start, inv, cs, first);
    AscendedStays(p, e, start, inv, cs, first, stable);
    DescendedStays(p, e, start, inv, cs, stable, inv[cs[0].vertex].pre, newPre);
  }

  lemma DescendOn<A(!new), S(!new)>(
    p: Problem<A, S>, e: A, start: Table<A>, inv: Table<A>, cs: seq<Component>, first: A, stable: A, iteration: nat,
    newPre: A)
    requires WellFormed(p.cfg, Cycle(cs)) && inv.Keys == start.Keys && cs[0].vertex in inv
    requires forall n :: n in inv && n !in AllLabels(cs) ==> inv[n] == start[n]
    requires IsStart(p, e, start, cs, first) && Ascended(p, e, start, cs, first, stable)
    requires Sinking(p, e, start, cs, stable, inv[cs[0].vertex].pre, iteration)
    requires RoundEnds(p, e, inv, cs, inv[cs[0].vertex].pre, newPre) && iteration <= DESCENDING_ITERATIONS + 1
    ensures var i := inv[cs[0].vertex].pre;
            if p.d.leq(i, newPre) || iteration > DESCENDING_ITERATIONS then CycleSettled(p, e, inv, cs)
            else Sinking(p, e, start, cs, stable, Refine(p.d, i, newPre, iteration), iteration + 1)
  {
    var i := inv[cs[0].vertex].pre;
    RoundIsRound(p, e, start, inv, cs, i, newPre);
    SinkingNext(p, e, start, cs, stable, i, iteration, newPre);
    if p.d.leq(i, newPre) || iteration > DESCENDING_ITERATIONS {
      DescentEnds(p, e, start, inv, cs, first, stable, newPre);
    }
  }

  lemma HeadsOfTail(cs: seq<Component>)
    requires cs != []
    ensures Heads(cs[1..]) <= Heads(cs)
  {
  }

  // ----- the whole analysis -----

  /** The entry invariant with the counters of the given heads set to zero, in order. */
  function InitializeCounters<A>(d: Domain<A>, heads: seq<Label>, a: A): A
    decreases |heads|
  {
    if heads == [] then a else InitializeCounters(d, heads[1..], d.initializeCounter(a, heads[0]))
  }

  ghost function ResetCounters<A, S>(m: Meaning<A, S>, heads: seq<Label>, s: S): S
    decreases |heads|
  {
    if heads == [] then s else ResetCounters(m, heads[1..], m.resetCounter(s, heads[0]))
  }

  /** Every entry state, its loop counters set to zero, is an entry state of the analysis. */
  lemma {:induction false} CountersInitialized<A(!new), S(!new)>(
    d: Domain<A>, m: Meaning<A, S>, heads: seq<Label>, a: A, s: S)
    requires SoundTransformer(d, m) && m.gamma(a, s)
    ensures m.gamma(InitializeCounters(d, heads, a), ResetCounters(m, heads, s))
    decreases |heads|
  {
    if heads != [] {
      CountersInitialized(d, m, heads[1..], d.initializeCounter(a, heads[0]), m.resetCounter(s, heads[0]));
    }
  }

  function EntryInvariant<A, S>(p: Problem<A, S>, entryInv: A, checkForTermination: bool): A {
    if checkForTermination then InitializeCounters(p.d, TopLevelHeads(p.wto), entryInv) else entryInv
  }

  /** A run of the program never leaves the components from the entry's onwards. */
  lemma {:induction false} RunStaysBehindEntry<A, S(!new)>(
    p: Problem<A, S>, e: A, inv: Table<A>, visited: set<Label>, before: set<Label>, r: Run<S>)
    requires ValidWto(p.cfg, p.wto) && visited + before == AllLabels(p.wto)
    requires ENTRY in visited && NoEdge(p.cfg, visited, before)
    requires ProgramRun(p, e, r)
    ensures r.At() in visited && LocalRun(p, e, inv, visited, r)
  {
    if r.Then? {
      RunStaysBehindEntry(p, e, inv, visited, before, r.before);
    }
  }

  /** What the analysis finds. Soundness: every state that any run of the program brings to a label
      lies in the invariant in front of it, and every state its instruction leads to in the invariant
      behind it. Exactness: from the component of the entry on, the table is what the equations and the
      two sequences make of the entry value, and it is empty elsewhere. */
  ghost predicate IsAnalysis<A(!new), S(!new)>(p: Problem<A, S>, e: A, inv: Table<A>) {
    && inv.Keys == p.cfg.neighbours.Keys && ENTRY in inv && inv[ENTRY].pre == e
    && (forall r :: ProgramRun(p, e, r) ==> Covered(p, inv, r))
    && exists f :: IsExact(p, e, inv, f)
  }

  ghost predicate IsExact<A(!new), S>(p: Problem<A, S>, e: A, inv: Table<A>, f: nat) {
    && f < |p.wto| && ENTRY in Labels(p.wto[f]) && SettledAll(p, e, inv, p.wto[f..])
    && forall l :: l in inv && l !in AllLabels(p.wto[f..]) ==> inv[l] == InvariantPair(p.d.bottom, p.d.bottom)
  }

  /** run_forward_analyzer. Whatever the widening does, the table is sound and exact; with a
      ranked widening the unlimited iteration always delivers. */
  method RunForwardAnalyzer<A(!new), S(!new)>(
    p: Problem<A, S>, entryInv: A, checkForTermination: bool, limit: Option<nat>, ghost rank: A -> nat)
    returns (inv: Table<A>, ok: bool)
    requires p.cfg.Valid() && ValidWto(p.cfg, p.wto)
    requires SoundLattice(p.d, p.m) && SoundTransformer(p.d, p.m)
    requires limit.None? ==> RankedWidening(p.d, rank)
    ensures limit.None? ==> ok
    ensures ok ==> IsAnalysis(p, EntryInvariant(p, entryInv, checkForTermination), inv)
  {
    var e := entryInv;
    if checkForTermination {
      e := InitializeLoopCounters(p, entryInv);
    }
    var analyzer := new Iterator(p, e, limit, rank);
    ghost var start, f := analyzer.inv, 0;
    var n;
    ok, f, n := analyzer.VisitAll();
    inv := analyzer.inv;
    if ok {
      SoFarEnds(p, e, start, inv, analyzer.skip, f, n);
    }
  }

  /** All components were visited. */
  lemma SoFarEnds<A(!new), S(!new)>(
    p: Problem<A, S>, e: A, start: Table<A>, inv: Table<A>, skip: bool, f: nat, n: nat)
    requires ValidWto(p.cfg, p.wto) && n == |p.wto| && SoFar(p, e, start, inv, skip, f, n)
    requires forall l :: l in start && l != ENTRY ==> start[l] == InvariantPair(p.d.bottom, p.d.bottom)
    ensures IsExact(p, e, inv, f) && forall r :: ProgramRun(p, e, r) ==> Covered(p, inv, r)
  {
    assert p.wto[f..|p.wto|] == p.wto[f..] && p.wto[..|p.wto|] == p.wto;
    SuffixFacts(p.cfg, p.wto, f);
    if f < |p.wto| {
      ComponentWithin(p.wto[f..], 0);
      assert p.wto[f..][0] == p.wto[f];
    }
    forall r | ProgramRun(p, e, r) ensures Covered(p, inv, r) {
      RunStaysBehindEntry(p, e, inv, AllLabels(p.wto[f..]), AllLabels(p.wto[..f]), r);
    }
  }

  /** The loop over the heads in front of the analysis. */
  method InitializeLoopCounters<A, S>(p: Problem<A, S>, entryInv: A) returns (e: A)
    ensures e == InitializeCounters(p.d, TopLevelHeads(p.wto), entryInv)
  {
    e := entryInv;
    var heads := TopLevelHeads(p.wto);
    assert heads[0..] == heads;
    for k := 0 to |heads|
      invariant InitializeCounters(p.d, heads[k..], e) == InitializeCounters(p.d, heads, entryInv)
    {
      assert heads[k..][1..] == heads[k + 1..];
      e := p.d.initializeCounter(e, heads[k]);
    }
  }
}
