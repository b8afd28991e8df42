/** Verified programs stop: the counters of prepare_cfg, the loop assertions and the
    verdict together bound the length of every run, unless a loop escapes the counters. */
module Termination {
  import opened AsmSyntax
  import opened ControlFlowGraph
  import opened LoopCounters
  import opened PrepareCfg
  import opened AnalysisTable
  import opened FwdAnalyzer
  import opened CrabVerifier
  import opened Wto

  /** Every closed walk inside a part of the graph passes a head. */
  ghost predicate EveryCycleHasHead(cfg: Cfg, within: set<Label>, heads: set<Label>) {
    forall w :: IsCycle(cfg, w) && Inside(w, within) ==> !Avoids(w, heads)
  }

  /** The part contains the entry and is never left. */
  ghost predicate Closed(cfg: Cfg, within: set<Label>) {
    ENTRY in within && within <= cfg.neighbours.Keys && forall u, v :: u in within && cfg.Edge(u, v) ==> v in within
  }

  /** Counters behind heads that meet every cycle leave no loop uncounted. */
  lemma CountedCycles(plain: Cfg, cfg: Cfg, within: set<Label>, heads: set<Label>, k: nat)
    requires plain.Valid() && CountedGraph(plain, cfg, heads)
    requires Closed(plain, within) && EveryCycleHasHead(plain, within, heads)
    ensures NoFreeLasso(cfg, Counters(heads), k)
  {
    forall w, i: nat | FreeLasso(cfg, Counters(heads), k, w, i)
      ensures false
    {
      UncountedCycle(plain, cfg, heads, w, i);
      forall j | 0 <= j < |w[i..]|
        ensures w[i..][j] in within
      {
        StaysWithin(plain, cfg, within, heads, w, i + j);
      }
    }
  }

  /** A walk of the counted graph stays in the part, but for counters. */
  lemma {:induction false} StaysWithin(
    plain: Cfg, cfg: Cfg, within: set<Label>, heads: set<Label>, w: seq<Label>, j: nat)
    requires CountedEdges(plain, cfg, heads) && CountersApart(plain, heads) && Closed(plain, within)
    requires IsWalk(cfg, w) && w[0] == ENTRY && j < |w|
    ensures w[j] in within || exists h :: h in within && IsCounterOf(heads, w[j], h)
    decreases j
  {
    if j > 0 {
      assert forall l, h :: IsCounterOf(heads, l, h) ==> l in Counters(heads);
      StaysWithin(plain, cfg, within, heads, w, j - 1);
      assert cfg.Edge(w[j - 1], w[j - 1 + 1]);
      assert CountedEdge(plain, heads, w[j - 1], w[j]);
    }
  }

  /** A loop through no counter is a loop of the original graph through no head. */
  lemma UncountedCycle(plain: Cfg, cfg: Cfg, heads: set<Label>, w: seq<Label>, i: nat)
    requires plain.Valid() && CountedGraph(plain, cfg, heads)
    requires IsWalk(cfg, w) && i + 1 < |w| && w[i] == w[|w| - 1] && Avoids(w[i..], Counters(heads))
    ensures IsCycle(plain, w[i..]) && Avoids(w[i..], heads)
  {
    var v := w[i..];
    forall j | 0 <= j < |v|
      ensures v[j] in plain.neighbours
    {
      assert v[j] == w[i + j] && v[j] !in Counters(heads);
    }
    forall j | 0 <= j < |v| - 1
      ensures plain.Edge(v[j], v[j + 1]) && v[j] !in heads
    {
      assert cfg.Edge(w[i + j], w[i + j + 1]);
      assert CountedEdge(plain, heads, v[j], v[j + 1]);
      assert v[j] !in Counters(heads) && v[j + 1] !in Counters(heads);
      assert forall h :: !IsCounterOf(heads, v[j], h) && !IsCounterOf(heads, v[j + 1], h);
    }
    assert v[|v| - 1] == v[0];
  }

  /** Loop assertions: what get_assertions returns for an increment. */
  ghost predicate AssertsLimits(assertionsOf: (Instruction, Label) -> seq<Assertion>) {
    forall name, l :: BoundedLoopCount(name) in assertionsOf(IncrementLoopCounter(name), l)
  }

  lemma AnnotatedIsInstrumented(
    plain: Cfg, mid: Cfg, cfg: Cfg, assertionsOf: (Instruction, Label) -> seq<Assertion>, heads: set<Label>)
    requires plain.Valid() && CountedGraph(plain, mid, heads) && WithAssertions(mid, cfg, assertionsOf)
    requires AssertsLimits(assertionsOf)
    requires forall l :: l in plain.instructions ==> !plain.instructions[l].cmd.IncrementLoopCounter?
    ensures Instrumented(cfg, Counters(heads))
  {
    forall l | l in cfg.instructions && cfg.instructions[l].cmd.IncrementLoopCounter?
      ensures l in Counters(heads)
    {
      assert mid.instructions[l].cmd == cfg.instructions[l].cmd;
      assert l !in plain.instructions;
    }
  }

  /** Runs of an annotated graph are runs of the counted one: only assertions differ. */
  lemma SameEdges(mid: Cfg, cfg: Cfg, counters: set<Label>, k: nat)
    requires cfg.neighbours == mid.neighbours && NoFreeLasso(mid, counters, k)
    ensures NoFreeLasso(cfg, counters, k)
  {
    assert forall x, y :: cfg.Edge(x, y) == mid.Edge(x, y);
    forall w, i | FreeLasso(cfg, counters, k, w, i)
      ensures false
    {
      assert FreeLasso(mid, counters, k, w, i);
    }
  }

  /** If every run of the program meets its assertions, each is met all along. */
  lemma {:induction false} AssertionsAllAlong<A(!new), S(!new)>(p: Problem<A, S>, e: A, r: Run<S>)
    requires p.cfg.Valid() && UnfilteredRun(p, e, r)
    requires forall r' :: UnfilteredRun(p, e, r') ==>
               r'.At() in p.cfg.instructions && AssertionsHold(p, r'.At(), r'.state)
    ensures HoldsThroughout(p.cfg, p.m.holds, r)
  {
    if r.Then? {
      AssertionsAllAlong(p, e, r.before);
    }
  }

  /** The whole chain: a graph made by prepare_cfg whose analysis raises no warning has
      no run from a state with counters at zero longer than the bound. */
  lemma VerifiedRunsAreBounded<A(!new), S(!new)>(
    p: Problem<A, S>, e: A, plain: Cfg, mid: Cfg, within: set<Label>, heads: set<Label>,
    assertionsOf: (Instruction, Label) -> seq<Assertion>, counter: (S, Label) -> int, init: S -> bool, r: Run<S>)
    requires plain.Valid() && p.cfg.Valid()
    requires CountedGraph(plain, mid, heads) && WithAssertions(mid, p.cfg, assertionsOf)
    requires forall l :: l in plain.instructions ==> !plain.instructions[l].cmd.IncrementLoopCounter?
    requires AssertsLimits(assertionsOf) && Counts(p.m.step, p.m.holds, counter)
    requires Closed(plain, within) && EveryCycleHasHead(plain, within, heads)
    requires forall r' :: UnfilteredRun(p, e, r') ==>
               r'.At() in p.cfg.instructions && AssertionsHold(p, r'.At(), r'.state)
    requires forall s :: init(s) ==> p.m.gamma(e, s)
    requires forall s, h :: init(s) && h in heads ==> counter(s, h) == 0
    requires CfgRun(p.cfg, p.m.step, init, r)
    ensures |Walk(r)| <= Bound(Others(p.cfg, Counters(heads)), Allowance(Counters(heads), LOOP_LIMIT + 1))
  {
    AnnotatedIsInstrumented(plain, mid, p.cfg, assertionsOf, heads);
    CountedCycles(plain, mid, within, heads, LOOP_LIMIT + 1);
    SameEdges(mid, p.cfg, Counters(heads), LOOP_LIMIT + 1);
    WeakerStart(p, e, init, r);
    AssertionsAllAlong(p, e, r);
    RunBounded(p.cfg, Counters(heads), p.m.step, p.m.holds, counter, init, r);
  }

  lemma {:induction false} WeakerStart<A(!new), S(!new)>(p: Problem<A, S>, e: A, init: S -> bool, r: Run<S>)
    requires CfgRun(p.cfg, p.m.step, init, r) && forall s :: init(s) ==> p.m.gamma(e, s)
    ensures UnfilteredRun(p, e, r)
  {
    if r.Then? {
      WeakerStart(p, e, init, r.before);
    }
  }

  // ----- which orders count every loop -----

  /** No cycle of the order contains another. */
  ghost predicate Flat(cs: seq<Component>) {
    forall i :: 0 <= i < |cs| && cs[i].Cycle? ==>
      forall j :: 0 <= j < |cs[i].components| ==> cs[i].components[j].Vertex?
  }

  /** Once past the first component, a walk never returns to it. */
  lemma {:induction false} StaysInTail(cfg: Cfg, first: set<Label>, tail: set<Label>, w: seq<Label>, i: nat, j: nat)
    requires NoEdge(cfg, tail, first) && IsWalk(cfg, w) && Inside(w, first + tail)
    requires i <= j < |w| && w[i] in tail
    ensures w[j] in tail
    decreases j
  {
    if i < j {
      StaysInTail(cfg, first, tail, w, i, j - 1);
      assert cfg.Edge(w[j - 1], w[j - 1 + 1]);
    }
  }

  /** Every cycle passes the head of a component, nested ones included. */
  lemma {:induction false} CycleMeetsHead(cfg: Cfg, cs: seq<Component>, w: seq<Label>)
    requires WellFormedSequence(cfg, cs) && IsCycle(cfg, w) && Inside(w, AllLabels(cs))
    ensures !Avoids(w, Heads(cs))
    decreases cs
  {
    var first, tail := Labels(cs[0]), AllLabels(cs[1..]);
    if w[0] in tail {
      forall j | 0 <= j < |w|
        ensures w[j] in tail
      {
        StaysInTail(cfg, first, tail, w, 0, j);
      }
      CycleMeetsHead(cfg, cs[1..], w);
    } else {
      forall j | 0 <= j < |w|
        ensures w[j] in first
      {
        if w[j] in tail {
          StaysInTail(cfg, first, tail, w, j, |w| - 1);
        }
      }
      CycleInComponent(cfg, cs[0], w);
      assert Heads([cs[0]]) <= Heads(cs) by {
        assert [cs[0]][1..] == [];
      }
    }
  }

  lemma {:induction false} CycleInComponent(cfg: Cfg, c: Component, w: seq<Label>)
    requires WellFormed(cfg, c) && IsCycle(cfg, w) && Inside(w, Labels(c))
    ensures !Avoids(w, Heads([c]))
    decreases c
  {
    assert [c][1..] == [];
    match c
    case Vertex(l) =>
      assert cfg.Edge(w[0], w[0 + 1]);
    case Cycle(inner) =>
      CycleLabels(inner);
      if Avoids(w, {inner[0].vertex}) {
        CycleMeetsHead(cfg, inner[1..], w);
        assert Heads(inner[1..]) <= Heads(inner);
      } else {
        var j :| 0 <= j < |w| && w[j] in {inner[0].vertex};
        assert w[j] in Heads([c]);
      }
  }

  lemma {:induction false} VerticesHaveNoHeads(cs: seq<Component>)
    requires forall j :: 0 <= j < |cs| ==> cs[j].Vertex?
    ensures Heads(cs) == {}
  {
    if cs != [] {
      VerticesHaveNoHeads(cs[1..]);
    }
  }

  lemma {:induction false} FlatHeads(cs: seq<Component>)
    requires Flat(cs)
    ensures Heads(cs) == ToSet(TopLevelHeads(cs))
  {
    if cs != [] {
      assert Flat(cs[1..]);
      FlatHeads(cs[1..]);
      if cs[0].Cycle? {
        VerticesHaveNoHeads(cs[0].components);
      }
    }
  }

  /** A top-level head is the first vertex of a top-level cycle. */
  lemma {:induction false} TopLevelHeadOf(cs: seq<Component>, h: Label) returns (i: nat)
    requires h in TopLevelHeads(cs)
    ensures i < |cs| && cs[i].Cycle? && cs[i].components != [] && cs[i].components[0] == Vertex(h)
    ensures h in Labels(cs[i])
  {
    if h in TopLevelHeads(cs[1..]) {
      var k := TopLevelHeadOf(cs[1..], h);
      i := k + 1;
    } else {
      i := 0;
      CycleLabels(cs[0].components);
    }
  }

  lemma {:induction false} ComponentInside(cs: seq<Component>, i: nat)
    requires i < |cs|
    ensures Labels(cs[i]) <= AllLabels(cs)
  {
    if i > 0 {
      ComponentInside(cs[1..], i - 1);
    }
  }

  lemma {:induction false} ComponentsApart(cfg: Cfg, cs: seq<Component>, i: nat, j: nat)
    requires WellFormedSequence(cfg, cs) && i < j < |cs|
    ensures Labels(cs[i]) !! Labels(cs[j])
  {
    if i == 0 {
      ComponentInside(cs[1..], j - 1);
    } else {
      ComponentsApart(cfg, cs[1..], i - 1, j - 1);
    }
  }

  /** Without nested cycles, the heads that are visited meet every cycle. */
  lemma FlatCountsAll(cfg: Cfg, wto: seq<Component>)
    requires ValidWto(cfg, wto) && Flat(wto)
    ensures EveryCycleHasHead(cfg, AllLabels(wto), ToSet(TopLevelHeads(wto)))
  {
    FlatHeads(wto);
    forall w | IsCycle(cfg, w) && Inside(w, AllLabels(wto))
      ensures !Avoids(w, ToSet(TopLevelHeads(wto)))
    {
      CycleMeetsHead(cfg, wto, w);
    }
  }

  /** Which programs the counters cover: since only top-level heads are counted, every
      cycle passes a counter if and only if no cycle of the order is nested. */
  lemma CountedIffFlat(cfg: Cfg, wto: seq<Component>)
    requires ValidWto(cfg, wto) && Genuine(cfg, wto)
    ensures EveryCycleHasHead(cfg, AllLabels(wto), ToSet(TopLevelHeads(wto))) <==> Flat(wto)
  {
    if Flat(wto) {
      FlatCountsAll(cfg, wto);
    } else {
      var i, j :| 0 <= i < |wto| && wto[i].Cycle? && 0 <= j < |wto[i].components| && wto[i].components[j].Cycle?;
      var w := NestedEscapes(cfg, wto, i, j);
    }
  }

  lemma BodyHasNoTopLevelHead(cfg: Cfg, wto: seq<Component>, i: nat, l: Label)
    requires WellFormedSequence(cfg, wto) && i < |wto| && wto[i].Cycle? && WellFormed(cfg, wto[i])
    requires l in AllLabels(wto[i].components[1..])
    ensures l !in TopLevelHeads(wto)
  {
    CycleLabels(wto[i].components);
    if l in TopLevelHeads(wto) {
      var n := TopLevelHeadOf(wto, l);
      if n < i {
        ComponentsApart(cfg, wto, n, i);
      } else if i < n {
        ComponentsApart(cfg, wto, i, n);
      }
    }
  }

  lemma NestedEscapes(cfg: Cfg, wto: seq<Component>, i: nat, j: nat) returns (w: seq<Label>)
    requires ValidWto(cfg, wto) && Genuine(cfg, wto)
    requires i < |wto| && wto[i].Cycle? && j < |wto[i].components| && wto[i].components[j].Cycle?
    ensures IsCycle(cfg, w) && Inside(w, AllLabels(wto)) && Avoids(w, ToSet(TopLevelHeads(wto)))
  {
    PrefixFacts(cfg, wto, i);
    var inner := wto[i].components;
    assert Genuine(cfg, inner) && WellFormed(cfg, wto[i]);
    var within := AllLabels(inner[j].components);
    w := HasClosedWalk(cfg, inner[j].components);
    assert j > 0 && inner[1..][j - 1] == inner[j] && Labels(inner[j]) == within;
    ComponentInside(inner[1..], j - 1);
    CycleLabels(inner);
    forall k | 0 <= k < |w|
      ensures w[k] in AllLabels(wto) && w[k] !in ToSet(TopLevelHeads(wto))
    {
      assert w[k] in within;
      BodyHasNoTopLevelHead(cfg, wto, i, w[k]);
    }
  }

  // ----- and so bound every walk -----

  ghost predicate Distinct(w: seq<Label>) {
    forall i, j :: 0 <= i < j < |w| ==> w[i] != w[j]
  }

  /** Without its detours, a walk visits no label twice. */
  lemma {:induction false} WithoutDetours(cfg: Cfg, w: seq<Label>, l: Label) returns (v: seq<Label>)
    requires ReachedBy(cfg, w, l)
    ensures ReachedBy(cfg, v, l) && Distinct(v)
    decreases |w|
  {
    if Distinct(w) {
      v := w;
    } else {
      var i, j :| 0 <= i < j < |w| && w[i] == w[j];
      CutDetour(cfg, w, l, i, j);
      v := WithoutDetours(cfg, w[..i] + w[j..], l);
    }
  }

  lemma CutDetour(cfg: Cfg, w: seq<Label>, l: Label, i: nat, j: nat)
    requires ReachedBy(cfg, w, l) && i < j < |w| && w[i] == w[j]
    ensures ReachedBy(cfg, w[..i] + w[j..], l)
  {
    var v := w[..i] + w[j..];
    forall n | 0 <= n < |v|
      ensures v[n] in cfg.neighbours && (n < |v| - 1 ==> cfg.Edge(v[n], v[n + 1]))
    {
      if n >= i {
        assert v[n] == w[j + (n - i)];
      } else if n == i - 1 {
        assert cfg.Edge(w[n], w[n + 1]);
      }
    }
  }

  lemma {:induction false} DistinctCountsOnce(w: seq<Label>, l: Label)
    requires Distinct(w)
    ensures Count(w, l) <= 1
  {
    if w != [] {
      DistinctCountsOnce(w[1..], l);
      if w[0] == l {
        assert forall i :: 0 <= i < |w[1..]| ==> w[1..][i] == w[i + 1];
        CountAvoided(w[1..], {l}, l);
      }
    }
  }

  /** A walk through the counters behind the heads it leaves. */
  ghost function ThroughCounters(w: seq<Label>, heads: set<Label>): seq<Label> {
    if |w| <= 1 then w
    else
      var n := |w| - 1;
      ThroughCounters(w[..n], heads) + (if w[n - 1] in heads then [Counter(w[n - 1])] else []) + [w[n]]
  }

  lemma {:induction false} ThroughCountersIsWalk(plain: Cfg, cfg: Cfg, heads: set<Label>, w: seq<Label>)
    requires plain.neighbours.Keys == plain.instructions.Keys && CountedGraph(plain, cfg, heads) && IsWalk(plain, w)
    ensures var v := ThroughCounters(w, heads);
            IsWalk(cfg, v) && v[0] == w[0] && v[|v| - 1] == w[|w| - 1]
  {
    if |w| > 1 {
      var n := |w| - 1;
      var v, last := ThroughCounters(w[..n], heads), w[n - 1];
      ThroughCountersIsWalk(plain, cfg, heads, w[..n]);
      assert plain.Edge(w[n - 1], w[n - 1 + 1]);
      if last in heads {
        assert IsCounterOf(heads, Counter(last), last);
        assert CountedEdge(plain, heads, last, Counter(last)) && CountedEdge(plain, heads, Counter(last), w[n]);
        AddStep(cfg, v, Counter(last));
        AddStep(cfg, v + [Counter(last)], w[n]);
      } else {
        assert CountedEdge(plain, heads, last, w[n]);
        AddStep(cfg, v, w[n]);
      }
    }
  }

  lemma AddStep(cfg: Cfg, v: seq<Label>, l: Label)
    requires IsWalk(cfg, v) && cfg.Edge(v[|v| - 1], l) && l in cfg.neighbours
    ensures IsWalk(cfg, v + [l])
  {
  }

  /** The counter of a head is visited as often as the head is left. */
  lemma {:induction false} ThroughCountersCounts(plain: Cfg, heads: set<Label>, w: seq<Label>, h: Label)
    requires CountersApart(plain, heads) && h in heads && w != []
    requires forall i :: 0 <= i < |w| ==> w[i] in plain.neighbours
    ensures Count(ThroughCounters(w, heads), Counter(h)) == Count(w[..|w| - 1], h)
    decreases |w|
  {
    var n, c := |w| - 1, Counter(h);
    assert c in Counters(heads) && w[n] != c;
    assert [w[n]][1..] == [];
    if n > 0 {
      var last := w[n - 1];
      ThroughCountersCounts(plain, heads, w[..n], h);
      var v, step := ThroughCounters(w[..n], heads), if last in heads then [Counter(last)] else [];
      CountConcat(v + step, [w[n]], c);
      CountConcat(v, step, c);
      CountConcat(w[..n - 1], [last], h);
      assert w[..n] == w[..n - 1] + [last] && w[..n][..n - 1] == w[..n - 1];
      assert [last][1..] == [] && (step != [] ==> step[1..] == []);
    }
  }

  /** A cycle through no head that the entry reaches is a free lasso of the counted graph. */
  lemma EscapeIsLasso(plain: Cfg, cfg: Cfg, heads: set<Label>, k: nat, way: seq<Label>, w: seq<Label>)
    requires plain.Valid() && CountedGraph(plain, cfg, heads) && k > 0
    requires IsCycle(plain, w) && Avoids(w, heads) && ReachedBy(plain, way, w[0])
    ensures !NoFreeLasso(cfg, Counters(heads), k)
  {
    var v := WithoutDetours(plain, way, w[0]);
    var u := ThroughCounters(v, heads);
    ThroughCountersIsWalk(plain, cfg, heads, v);
    LassoIsWalk(plain, cfg, heads, u, w);
    LassoRespects(plain, heads, k, v, w);
    CycleHasNoCounter(plain, heads, w);
    LassoIsFree(cfg, Counters(heads), k, u, w);
  }

  lemma LassoIsFree(cfg: Cfg, counters: set<Label>, k: nat, u: seq<Label>, w: seq<Label>)
    requires u != [] && |w| > 1 && u[0] == ENTRY && u[|u| - 1] == w[0] == w[|w| - 1] && Avoids(w, counters)
    requires IsWalk(cfg, u + w[1..]) && Respects(u + w[1..], counters, k)
    ensures !NoFreeLasso(cfg, counters, k)
  {
    var long := u + w[1..];
    assert long[|u| - 1..] == w;
    assert FreeLasso(cfg, counters, k, long, |u| - 1);
  }

  /** Such a lasso visits no counter twice. */
  lemma LassoRespects(plain: Cfg, heads: set<Label>, k: nat, v: seq<Label>, w: seq<Label>)
    requires CountersApart(plain, heads) && k > 0 && IsWalk(plain, w) && v != []
    requires (forall i :: 0 <= i < |v| ==> v[i] in plain.neighbours) && Distinct(v)
    ensures Respects(ThroughCounters(v, heads) + w[1..], Counters(heads), k)
  {
    var u := ThroughCounters(v, heads);
    CycleHasNoCounter(plain, heads, w);
    forall c | c in Counters(heads)
      ensures Count(u + w[1..], c) <= k
    {
      var h :| h in heads && Counter(h) == c;
      ThroughCountersCounts(plain, heads, v, h);
      DistinctCountsOnce(v[..|v| - 1], h);
      CountConcat(u, w[1..], c);
      CountAvoided(w[1..], Counters(heads), c);
    }
  }

  lemma CycleHasNoCounter(plain: Cfg, heads: set<Label>, w: seq<Label>)
    requires CountersApart(plain, heads) && IsWalk(plain, w)
    ensures Avoids(w, Counters(heads)) && Avoids(w[1..], Counters(heads))
  {
  }

  lemma LassoIsWalk(plain: Cfg, cfg: Cfg, heads: set<Label>, u: seq<Label>, w: seq<Label>)
    requires plain.neighbours.Keys == plain.instructions.Keys && CountedGraph(plain, cfg, heads)
    requires IsWalk(cfg, u) && IsCycle(plain, w) && Avoids(w, heads) && u[|u| - 1] == w[0]
    ensures IsWalk(cfg, u + w[1..])
  {
    var long := u + w[1..];
    forall j | 0 <= j < |long|
      ensures long[j] in cfg.neighbours && (j < |long| - 1 ==> cfg.Edge(long[j], long[j + 1]))
    {
      if j >= |u| - 1 && j < |long| - 1 {
        var n := j - (|u| - 1);
        assert long[j] == w[n] && long[j + 1] == w[n + 1] && plain.Edge(w[n], w[n + 1]);
        assert CountedEdge(plain, heads, w[n], w[n + 1]);
      } else if j >= |u| {
        assert long[j] == w[j - |u| + 1];
      }
    }
  }

  /** The counters of prepare_cfg bound the walks of a program, all of whose labels can be
      reached, if and only if no loop of it is nested in another. */
  lemma CountersBoundIffFlat(plain: Cfg, cfg: Cfg, wto: seq<Component>, k: nat)
    requires plain.Valid() && ValidWto(plain, wto) && Genuine(plain, wto) && AllReachable(plain, AllLabels(wto))
    requires CountedGraph(plain, cfg, ToSet(TopLevelHeads(wto))) && k > 0
    ensures (exists bound: nat :: AllBounded(cfg, Counters(ToSet(TopLevelHeads(wto))), k, bound)) <==> Flat(wto)
  {
    var heads := ToSet(TopLevelHeads(wto));
    BoundedIffNoFreeLasso(cfg, Counters(heads), k);
    CountedIffFlat(plain, wto);
    if Flat(wto) {
      CountedCycles(plain, cfg, AllLabels(wto), heads, k);
    } else {
      var w :| IsCycle(plain, w) && Inside(w, AllLabels(wto)) && Avoids(w, heads);
      var way :| ReachedBy(plain, way, w[0]);
      EscapeIsLasso(plain, cfg, heads, k, way, w);
    }
  }
}
