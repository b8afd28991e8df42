/** The table of the forward analysis (src/crab/fwd_analyzer.cpp): which equations it solves, with the
    sequences of values in front of the heads of cycles. */
module AnalysisTable {
  import opened AsmSyntax
  import opened ControlFlowGraph
  import opened Wto
  import opened AbstractDomain

  datatype InvariantPair<A> = InvariantPair(pre: A, post: A)

  type Table<A> = map<Label, InvariantPair<A>>

  /** The graph under analysis, its order, the domain and what its values stand for.
      `assume` is the option assume_assertions. */
  datatype Problem<!A, !S> = Problem(
    cfg: Cfg, wto: seq<Component>, d: Domain<A>, m: Meaning<A, S>, assume_: bool)

  // ----- effects and joins -----

  /** The nesting of a parent does not lie inside that of the head. */
  predicate EntersFrom<A, S>(p: Problem<A, S>, head: Label, via: Label) {
    !StrictlyNestedIn(Nesting(p.wto, via, []), Nesting(p.wto, head, []))
  }

  ghost function OutsideParents<A, S>(p: Problem<A, S>, head: Label): set<Label>
    requires head in p.cfg.neighbours
  {
    set via | via in p.cfg.neighbours[head].parents && EntersFrom(p, head, via)
  }

  /** What the assertions of a label, assumed one after the other, leave of a value. */
  function AssumeAll<A>(d: Domain<A>, a: A, assertions: seq<Assertion>): A {
    if assertions == [] then a
    else d.assuming(AssumeAll(d, a, assertions[..|assertions| - 1]), assertions[|assertions| - 1])
  }

  /** The effect of a label. */
  function Transformed<A, S>(p: Problem<A, S>, l: Label, a: A): A
    requires l in p.cfg.instructions
  {
    p.d.transform(if p.assume_ then AssumeAll(p.d, a, p.cfg.instructions[l].preconditions) else a,
                  p.cfg.instructions[l].cmd)
  }

  /** The values behind some labels, joined in this order. */
  function JoinPosts<A>(d: Domain<A>, inv: Table<A>, order: seq<Label>): A
    requires forall k :: 0 <= k < |order| ==> order[k] in inv
  {
    if order == [] then d.bottom
    else d.join(JoinPosts(d, inv, order[..|order| - 1]), inv[order[|order| - 1]].post)
  }

  /** Each label of a set once. */
  ghost predicate Lists(order: seq<Label>, labels: set<Label>) {
    multiset(order) == multiset(labels)
  }

  /** The values behind the parents of a label, each joined once. */
  ghost predicate IsJoin<A, S>(p: Problem<A, S>, inv: Table<A>, l: Label, a: A) {
    && l in p.cfg.neighbours
    && exists order :: JoinsInOrder(p, inv, p.cfg.neighbours[l].parents, order, a)
  }

  ghost predicate JoinsInOrder<A, S>(p: Problem<A, S>, inv: Table<A>, labels: set<Label>, order: seq<Label>, a: A) {
    && (forall k :: 0 <= k < |order| ==> order[k] in inv)
    && Lists(order, labels) && a == JoinPosts(p.d, inv, order)
  }

  const WIDENING_DELAY: nat := 2
  const DESCENDING_ITERATIONS: nat := 2000000

  function Extrapolate<A>(d: Domain<A>, before: A, after: A, iteration: nat): A {
    if iteration < WIDENING_DELAY then d.join(before, after)
    else d.widen(before, after, iteration == WIDENING_DELAY)
  }

  function Refine<A>(d: Domain<A>, before: A, after: A, iteration: nat): A {
    if iteration == 1 then d.meet(before, after) else d.narrow(before, after)
  }

  // ----- what is settled -----

  /** Both tables send the same into a part from outside. */
  ghost predicate SameInflow<A, S>(p: Problem<A, S>, inv: Table<A>, other: Table<A>, part: set<Label>) {
    && other.Keys == inv.Keys
    && forall via, l :: via in inv && via !in part && l in part && p.cfg.Edge(via, l) ==>
         other[via].post == inv[via].post
  }

  /** One after the other: in front of a vertex stands the join of what stands behind its parents, and
      behind it its effect on that. For cycles, see below. */
  ghost predicate SettledIn<A(!new), S>(p: Problem<A, S>, e: A, inv: Table<A>, c: Component)
    decreases c, 0
  {
    match c
    case Vertex(l) =>
      && l in inv && l in p.cfg.instructions && inv[l].post == Transformed(p, l, inv[l].pre)
      && (l != ENTRY ==> IsJoin(p, inv, l, inv[l].pre))
    case Cycle(cs) => cs != [] && cs[0].Vertex? && CycleSettled(p, e, inv, cs)
  }

  ghost predicate SettledAll<A(!new), S>(p: Problem<A, S>, e: A, inv: Table<A>, cs: seq<Component>)
    decreases cs, 0
  {
    forall k {:trigger SettledIn(p, e, inv, cs[k])} :: 0 <= k < |cs| ==> SettledIn(p, e, inv, cs[k])
  }

  /** In front of the head stands what the increasing and then the decreasing sequence make of a start,
      behind it its effect, and the rest of the cycle is settled. */
  ghost predicate CycleSettled<A(!new), S>(p: Problem<A, S>, e: A, inv: Table<A>, cs: seq<Component>)
    requires cs != [] && cs[0].Vertex?
    decreases cs, 6
  {
    var head := cs[0].vertex;
    && head in inv && head in p.cfg.instructions && inv[head].post == Transformed(p, head, inv[head].pre)
    && SettledAll(p, e, inv, cs[1..])
    && exists start, stable, arriving ::
         && IsStart(p, e, inv, cs, start) && Ascended(p, e, inv, cs, start, stable)
         && Descended(p, e, inv, cs, stable, inv[head].pre, arriving) && IsJoin(p, inv, head, arriving)
  }

  /** What a cycle starts from: the entry value, or what enters from outside, by the table before the
      cycle was visited. */
  ghost predicate IsStart<A(!new), S>(p: Problem<A, S>, e: A, inv: Table<A>, cs: seq<Component>, start: A)
    requires cs != [] && cs[0].Vertex?
  {
    || (ENTRY in AllLabels(cs) && start == e)
    || exists before :: SameInflow(p, inv, before, AllLabels(cs)) && StartsFrom(p, before, cs[0].vertex, start)
  }

  ghost predicate StartsFrom<A, S>(p: Problem<A, S>, before: Table<A>, head: Label, start: A) {
    && head in p.cfg.neighbours
    && exists order :: JoinsInOrder(p, before, OutsideParents(p, head), order, start)
  }

  /** From a value in front of the head, one round through a cycle makes these arrivals. */
  ghost predicate IsRound<A(!new), S>(
    p: Problem<A, S>, e: A, inv: Table<A>, cs: seq<Component>, value: A, arriving: A)
    requires cs != [] && cs[0].Vertex?
    decreases cs, 2
  {
    exists after :: SameInflow(p, inv, after, AllLabels(cs)) && RoundEnds(p, e, after, cs, value, arriving)
  }

  ghost predicate RoundEnds<A(!new), S>(
    p: Problem<A, S>, e: A, after: Table<A>, cs: seq<Component>, value: A, arriving: A)
    requires cs != [] && cs[0].Vertex?
    decreases cs, 1
  {
    var head := cs[0].vertex;
    && head in after && head in p.cfg.instructions && after[head].post == Transformed(p, head, value)
    && SettledAll(p, e, after, cs[1..]) && IsJoin(p, after, head, arriving)
  }

  ghost predicate AreRounds<A(!new), S>(
    p: Problem<A, S>, e: A, inv: Table<A>, cs: seq<Component>, values: seq<A>, arrivals: seq<A>)
    requires cs != [] && cs[0].Vertex? && |arrivals| <= |values|
    decreases cs, 3
  {
    forall k {:trigger IsRound(p, e, inv, cs, values[k], arrivals[k])} ::
      0 <= k < |arrivals| ==> IsRound(p, e, inv, cs, values[k], arrivals[k])
  }

  /** The increasing sequence: a join, then widenings, as long as something new arrives. */
  ghost predicate Climbs<A>(d: Domain<A>, values: seq<A>, arrivals: seq<A>)
    requires |values| <= |arrivals| + 1
  {
    forall k :: 0 <= k < |values| - 1 ==>
      && !d.leq(arrivals[k], values[k])
      && values[k + 1] == if k == 0 then d.join(values[k], arrivals[k]) else d.widen(values[k], arrivals[k], k == 1)
  }

  /** The decreasing sequence: a meet, then narrowings, as long as less arrives. */
  ghost predicate Sinks<A>(d: Domain<A>, values: seq<A>, arrivals: seq<A>)
    requires |values| <= |arrivals| + 1
  {
    forall k :: 0 <= k < |values| - 1 ==>
      && !d.leq(values[k], arrivals[k])
      && values[k + 1] == if k == 0 then d.meet(values[k], arrivals[k]) else d.narrow(values[k], arrivals[k])
  }

  /** The increasing sequence ends with arrivals that are below its last value. */
  ghost predicate Ascended<A(!new), S>(
    p: Problem<A, S>, e: A, inv: Table<A>, cs: seq<Component>, start: A, stable: A)
    requires cs != [] && cs[0].Vertex?
    decreases cs, 4
  {
    exists values, arrivals ::
      && |values| == |arrivals| > 0 && Climbs(p.d, values, arrivals) && AreRounds(p, e, inv, cs, values, arrivals)
      && values[0] == start && arrivals[|arrivals| - 1] == stable && p.d.leq(stable, values[|values| - 1])
  }

  /** The decreasing sequence ends below what arrives, or by its cap. */
  ghost predicate Descended<A(!new), S>(
    p: Problem<A, S>, e: A, inv: Table<A>, cs: seq<Component>, stable: A, value: A, arriving: A)
    requires cs != [] && cs[0].Vertex?
    decreases cs, 4
  {
    exists values, arrivals ::
      && |values| == |arrivals| > 0 && Sinks(p.d, values, arrivals) && AreRounds(p, e, inv, cs, values, arrivals)
      && values[0] == stable && values[|values| - 1] == value && arrivals[|arrivals| - 1] == arriving
      && (p.d.leq(value, arriving) || |values| == DESCENDING_ITERATIONS + 1)
  }

  // ----- the sequences on their way -----

  ghost predicate Climbing<A(!new), S>(
    p: Problem<A, S>, e: A, inv: Table<A>, cs: seq<Component>, start: A, i: A, iteration: nat)
    requires cs != [] && cs[0].Vertex?
  {
    exists values, arrivals ::
      && |values| == |arrivals| + 1 == iteration && Climbs(p.d, values, arrivals)
      && AreRounds(p, e, inv, cs, values, arrivals) && values[0] == start && values[|values| - 1] == i
  }

  lemma ClimbingBegins<A(!new), S>(p: Problem<A, S>, e: A, inv: Table<A>, cs: seq<Component>, start: A)
    requires cs != [] && cs[0].Vertex?
    ensures Climbing(p, e, inv, cs, start, start, 1)
  {
    var values, arrivals := [start], [];
    assert Climbs(p.d, values, arrivals) && AreRounds(p, e, inv, cs, values, arrivals);
  }

  lemma OneMoreRound<A(!new), S>(
    p: Problem<A, S>, e: A, inv: Table<A>, cs: seq<Component>, values: seq<A>, arrivals: seq<A>, next: seq<A>,
    newPre: A)
    requires cs != [] && cs[0].Vertex? && |values| == |arrivals| + 1 && AreRounds(p, e, inv, cs, values, arrivals)
    requires IsRound(p, e, inv, cs, values[|values| - 1], newPre)
    ensures AreRounds(p, e, inv, cs, values + next, arrivals + [newPre])
  {
    forall k | 0 <= k < |arrivals| + 1
      ensures IsRound(p, e, inv, cs, (values + next)[k], (arrivals + [newPre])[k])
    {
      assert k < |arrivals| ==> IsRound(p, e, inv, cs, values[k], arrivals[k]);
    }
  }

  lemma ClimbsFurther<A>(d: Domain<A>, values: seq<A>, arrivals: seq<A>, newPre: A)
    requires |values| == |arrivals| + 1 && Climbs(d, values, arrivals)
    ensures Climbs(d, values, arrivals + [newPre])
    ensures !d.leq(newPre, values[|values| - 1]) ==>
              Climbs(d, values + [Extrapolate(d, values[|values| - 1], newPre, |values|)], arrivals + [newPre])
  {
  }

  lemma ClimbingNext<A(!new), S>(
    p: Problem<A, S>, e: A, inv: Table<A>, cs: seq<Component>, start: A, i: A, iteration: nat, newPre: A)
    requires cs != [] && cs[0].Vertex? && Climbing(p, e, inv, cs, start, i, iteration)
    requires IsRound(p, e, inv, cs, i, newPre)
    ensures if p.d.leq(newPre, i) then Ascended(p, e, inv, cs, start, newPre)
            else Climbing(p, e, inv, cs, start, Extrapolate(p.d, i, newPre, iteration), iteration + 1)
  {
    var values, arrivals :|
      && |values| == |arrivals| + 1 == iteration && Climbs(p.d, values, arrivals)
      && AreRounds(p, e, inv, cs, values, arrivals) && values[0] == start && values[|values| - 1] == i;
    ClimbsFurther(p.d, values, arrivals, newPre);
    OneMoreRound(p, e, inv, cs, values, arrivals, [], newPre);
    OneMoreRound(p, e, inv, cs, values, arrivals, [Extrapolate(p.d, i, newPre, iteration)], newPre);
    assert values + [] == values;
  }

  ghost predicate Sinking<A(!new), S>(
    p: Problem<A, S>, e: A, inv: Table<A>, cs: seq<Component>, stable: A, i: A, iteration: nat)
    requires cs != [] && cs[0].Vertex?
  {
    exists values, arrivals ::
      && |values| == |arrivals| + 1 == iteration && Sinks(p.d, values, arrivals)
      && AreRounds(p, e, inv, cs, values, arrivals) && values[0] == stable && values[|values| - 1] == i
  }

  lemma SinkingBegins<A(!new), S>(p: Problem<A, S>, e: A, inv: Table<A>, cs: seq<Component>, stable: A)
    requires cs != [] && cs[0].Vertex?
    ensures Sinking(p, e, inv, cs, stable, stable, 1)
  {
    var values, arrivals := [stable], [];
    assert Sinks(p.d, values, arrivals) && AreRounds(p, e, inv, cs, values, arrivals);
  }

  lemma SinksFurther<A>(d: Domain<A>, values: seq<A>, arrivals: seq<A>, newPre: A)
    requires |values| == |arrivals| + 1 && Sinks(d, values, arrivals)
    ensures Sinks(d, values, arrivals + [newPre])
    ensures !d.leq(values[|values| - 1], newPre) ==>
              Sinks(d, values + [Refine(d, values[|values| - 1], newPre, |values|)], arrivals + [newPre])
  {
  }

  lemma SinkingNext<A(!new), S>(
    p: Problem<A, S>, e: A, inv: Table<A>, cs: seq<Component>, stable: A, i: A, iteration: nat, newPre: A)
    requires cs != [] && cs[0].Vertex? && Sinking(p, e, inv, cs, stable, i, iteration)
    requires IsRound(p, e, inv, cs, i, newPre) && iteration <= DESCENDING_ITERATIONS + 1
    ensures if p.d.leq(i, newPre) || iteration > DESCENDING_ITERATIONS
            then Descended(p, e, inv, cs, stable, i, newPre)
            else Sinking(p, e, inv, cs, stable, Refine(p.d, i, newPre, iteration), iteration + 1)
  {
    var values, arrivals :|
      && |values| == |arrivals| + 1 == iteration && Sinks(p.d, values, arrivals)
      && AreRounds(p, e, inv, cs, values, arrivals) && values[0] == stable && values[|values| - 1] == i;
    SinksFurther(p.d, values, arrivals, newPre);
    OneMoreRound(p, e, inv, cs, values, arrivals, [], newPre);
    OneMoreRound(p, e, inv, cs, values, arrivals, [Refine(p.d, i, newPre, iteration)], newPre);
    assert values + [] == values;
  }

  // ----- what stays settled -----

  lemma {:induction false} SameJoin<A, S>(p: Problem<A, S>, inv: Table<A>, inv': Table<A>, order: seq<Label>)
    requires forall k :: 0 <= k < |order| ==>
               order[k] in inv && order[k] in inv' && inv[order[k]].post == inv'[order[k]].post
    ensures JoinPosts(p.d, inv, order) == JoinPosts(p.d, inv', order)
  {
    if order != [] {
      SameJoin(p, inv, inv', order[..|order| - 1]);
    }
  }

  /** A join stays the join while nothing changes behind the parents. */
  lemma JoinStays<A, S>(p: Problem<A, S>, inv: Table<A>, inv': Table<A>, l: Label, a: A)
    requires p.cfg.Valid() && IsJoin(p, inv, l, a)
    requires forall via :: via in inv && p.cfg.Edge(via, l) ==> via in inv' && inv[via].post == inv'[via].post
    ensures IsJoin(p, inv', l, a)
  {
    var parents := p.cfg.neighbours[l].parents;
    var order :| JoinsInOrder(p, inv, parents, order, a);
    forall k | 0 <= k < |order| ensures order[k] in inv' && inv[order[k]].post == inv'[order[k]].post {
      assert order[k] in multiset(order);
      assert order[k] in multiset(parents);
      assert p.cfg.HasParent(l, order[k]);
    }
    SameJoin(p, inv, inv', order);
    assert JoinsInOrder(p, inv', parents, order, a);
  }

  lemma InflowTwice<A, S>(p: Problem<A, S>, a: Table<A>, b: Table<A>, c: Table<A>, part: set<Label>)
    requires SameInflow(p, a, b, part) && SameInflow(p, a, c, part)
    ensures SameInflow(p, b, c, part)
  {
  }

  lemma RoundsStay<A(!new), S>(
    p: Problem<A, S>, e: A, inv: Table<A>, other: Table<A>, cs: seq<Component>, values: seq<A>, arrivals: seq<A>)
    requires cs != [] && cs[0].Vertex? && |arrivals| <= |values| && SameInflow(p, inv, other, AllLabels(cs))
    requires AreRounds(p, e, inv, cs, values, arrivals)
    ensures AreRounds(p, e, other, cs, values, arrivals)
  {
    forall k | 0 <= k < |arrivals| ensures IsRound(p, e, other, cs, values[k], arrivals[k]) {
      assert IsRound(p, e, inv, cs, values[k], arrivals[k]);
      var after :| SameInflow(p, inv, after, AllLabels(cs)) && RoundEnds(p, e, after, cs, values[k], arrivals[k]);
      InflowTwice(p, inv, other, after, AllLabels(cs));
    }
  }

  lemma AscendedStays<A(!new), S>(
    p: Problem<A, S>, e: A, inv: Table<A>, other: Table<A>, cs: seq<Component>, start: A, stable: A)
    requires cs != [] && cs[0].Vertex? && SameInflow(p, inv, other, AllLabels(cs))
    requires Ascended(p, e, inv, cs, start, stable)
    ensures Ascended(p, e, other, cs, start, stable)
  {
    var values, arrivals :|
      && |values| == |arrivals| > 0 && Climbs(p.d, values, arrivals) && AreRounds(p, e, inv, cs, values, arrivals)
      && values[0] == start && arrivals[|arrivals| - 1] == stable && p.d.leq(stable, values[|values| - 1]);
    RoundsStay(p, e, inv, other, cs, values, arrivals);
  }

  lemma DescendedStays<A(!new), S>(
    p: Problem<A, S>, e: A, inv: Table<A>, other: Table<A>, cs: seq<Component>, stable: A, value: A, arriving: A)
    requires cs != [] && cs[0].Vertex? && SameInflow(p, inv, other, AllLabels(cs))
    requires Descended(p, e, inv, cs, stable, value, arriving)
    ensures Descended(p, e, other, cs, stable, value, arriving)
  {
    var values, arrivals :|
      && |values| == |arrivals| > 0 && Sinks(p.d, values, arrivals) && AreRounds(p, e, inv, cs, values, arrivals)
      && values[0] == stable && values[|values| - 1] == value && arrivals[|arrivals| - 1] == arriving
      && (p.d.leq(value, arriving) || |values| == DESCENDING_ITERATIONS + 1);
    RoundsStay(p, e, inv, other, cs, values, arrivals);
  }

  lemma StartStays<A(!new), S>(
    p: Problem<A, S>, e: A, inv: Table<A>, other: Table<A>, cs: seq<Component>, start: A)
    requires cs != [] && cs[0].Vertex? && SameInflow(p, inv, other, AllLabels(cs)) && IsStart(p, e, inv, cs, start)
    ensures IsStart(p, e, other, cs, start)
  {
    if !(ENTRY in AllLabels(cs) && start == e) {
      var before :| SameInflow(p, inv, before, AllLabels(cs)) && StartsFrom(p, before, cs[0].vertex, start);
      InflowTwice(p, inv, other, before, AllLabels(cs));
    }
  }

  /** The tables agree on a component and on what comes into it. */
  ghost predicate SameAround<A, S>(p: Problem<A, S>, inv: Table<A>, other: Table<A>, part: set<Label>) {
    SameInflow(p, inv, other, part) && forall l :: l in part && l in inv ==> other[l] == inv[l]
  }

  lemma AroundPart<A, S>(p: Problem<A, S>, inv: Table<A>, other: Table<A>, part: set<Label>, smaller: set<Label>)
    requires SameAround(p, inv, other, part) && smaller <= part
    ensures SameAround(p, inv, other, smaller)
  {
  }

  lemma {:induction false} ComponentWithin(cs: seq<Component>, k: nat)
    requires k < |cs|
    ensures Labels(cs[k]) <= AllLabels(cs)
  {
    if k > 0 {
      ComponentWithin(cs[1..], k - 1);
    }
  }

  lemma {:induction false} SettledStays<A(!new), S>(
    p: Problem<A, S>, e: A, inv: Table<A>, other: Table<A>, c: Component)
    requires p.cfg.Valid() && SameAround(p, inv, other, Labels(c)) && SettledIn(p, e, inv, c)
    ensures SettledIn(p, e, other, c)
    decreases c, 0
  {
    match c
    case Vertex(l) =>
      if l != ENTRY {
        JoinStays(p, inv, other, l, inv[l].pre);
      }
    case Cycle(cs) =>
      CycleLabels(cs);
      AroundPart(p, inv, other, AllLabels(cs), AllLabels(cs[1..]));
      AllStay(p, e, inv, other, cs[1..]);
      CycleStays(p, e, inv, other, cs);
  }

  lemma {:induction false} AllStay<A(!new), S>(
    p: Problem<A, S>, e: A, inv: Table<A>, other: Table<A>, cs: seq<Component>)
    requires p.cfg.Valid() && SameAround(p, inv, other, AllLabels(cs)) && SettledAll(p, e, inv, cs)
    ensures SettledAll(p, e, other, cs)
    decreases cs, 0
  {
    forall k: nat | k < |cs| ensures SettledIn(p, e, other, cs[k]) {
      assert SettledIn(p, e, inv, cs[k]);
      ComponentWithin(cs, k);
      AroundPart(p, inv, other, AllLabels(cs), Labels(cs[k]));
      SettledStays(p, e, inv, other, cs[k]);
    }
  }

  lemma CycleStays<A(!new), S>(p: Problem<A, S>, e: A, inv: Table<A>, other: Table<A>, cs: seq<Component>)
    requires p.cfg.Valid() && cs != [] && cs[0].Vertex? && SameAround(p, inv, other, AllLabels(cs))
    requires CycleSettled(p, e, inv, cs) && SettledAll(p, e, other, cs[1..])
    ensures CycleSettled(p, e, other, cs)
  {
    var head := cs[0].vertex;
    CycleLabels(cs);
    var start, stable, arriving :|
      && IsStart(p, e, inv, cs, start) && Ascended(p, e, inv, cs, start, stable)
      && Descended(p, e, inv, cs, stable, inv[head].pre, arriving) && IsJoin(p, inv, head, arriving);
    StartStays(p, e, inv, other, cs, start);
    AscendedStays(p, e, inv, other, cs, start, stable);
    DescendedStays(p, e, inv, other, cs, stable, inv[head].pre, arriving);
    JoinStays(p, inv, other, head, arriving);
  }

  /** A settled sequence stays so when the next component is visited. */
  lemma NextSettled<A(!new), S>(
    p: Problem<A, S>, e: A, inv: Table<A>, other: Table<A>, done: seq<Component>, next: Component)
    requires p.cfg.Valid() && other.Keys == inv.Keys
    requires forall l :: l in inv && l !in Labels(next) ==> other[l] == inv[l]
    requires AllLabels(done) !! Labels(next) && NoEdge(p.cfg, Labels(next), AllLabels(done))
    requires SettledAll(p, e, inv, done) && SettledIn(p, e, other, next)
    ensures SettledAll(p, e, other, done + [next])
  {
    AllStay(p, e, inv, other, done);
    forall k | 0 <= k < |done| + 1 ensures SettledIn(p, e, other, (done + [next])[k]) {
      assert k < |done| ==> SettledIn(p, e, other, done[k]);
    }
  }

  /** The vertex of the head stands in front only. */
  lemma HeadIsFirst(cfg: Cfg, cs: seq<Component>, k: nat)
    requires WellFormed(cfg, Cycle(cs)) && k < |cs| && cs[k] == Vertex(cs[0].vertex)
    ensures k == 0
  {
    if k > 0 {
      ComponentWithin(cs[1..], k - 1);
    }
  }

  // ----- the equations, label by label -----

  /** What the decreasing sequence leaves when its cap ends it. */
  ghost predicate IsCapped<A(!new)>(d: Domain<A>, value: A) {
    exists values, arrivals ::
      |values| == |arrivals| == DESCENDING_ITERATIONS + 1 && Sinks(d, values, arrivals)
      && values[|values| - 1] == value
  }

  /** In front of a label stands the join of what stands behind its parents; in front of a head, no more
      than that. */
  ghost predicate Solves<A(!new), S>(p: Problem<A, S>, inv: Table<A>, heads: set<Label>, l: Label) {
    && l in inv && l in p.cfg.instructions && inv[l].post == Transformed(p, l, inv[l].pre)
    && (l != ENTRY ==> if l in heads then SolvesHead(p, inv, l) else IsJoin(p, inv, l, inv[l].pre))
  }

  ghost predicate SolvesHead<A(!new), S>(p: Problem<A, S>, inv: Table<A>, l: Label)
    requires l in inv
  {
    exists a :: IsJoin(p, inv, l, a) && (p.d.leq(inv[l].pre, a) || IsCapped(p.d, inv[l].pre))
  }

  lemma {:induction false} HeadsAreInside(cs: seq<Component>)
    ensures Heads(cs) <= AllLabels(cs)
    decreases cs
  {
    if cs != [] {
      HeadsAreInside(cs[1..]);
      if cs[0].Cycle? {
        HeadsAreInside(cs[0].components);
      }
    }
  }

  lemma HeadSolves<A(!new), S>(p: Problem<A, S>, e: A, inv: Table<A>, cs: seq<Component>, heads: set<Label>)
    requires cs != [] && cs[0].Vertex? && CycleSettled(p, e, inv, cs) && cs[0].vertex in heads
    ensures Solves(p, inv, heads, cs[0].vertex)
  {
    var head := cs[0].vertex;
    var start, stable, arriving :|
      && IsStart(p, e, inv, cs, start) && Ascended(p, e, inv, cs, start, stable)
      && Descended(p, e, inv, cs, stable, inv[head].pre, arriving) && IsJoin(p, inv, head, arriving);
  }

  lemma CycleParts<A(!new), S>(p: Problem<A, S>, e: A, inv: Table<A>, c: Component)
    requires c.Cycle? && SettledIn(p, e, inv, c)
    ensures c.components != [] && c.components[0].Vertex? && CycleSettled(p, e, inv, c.components)
    ensures SettledAll(p, e, inv, c.components[1..])
  {
  }

  /** A settled table solves the equations. */
  lemma {:induction false} SettledSolves<A(!new), S>(
    p: Problem<A, S>, e: A, inv: Table<A>, cs: seq<Component>, l: Label)
    requires WellFormedSequence(p.cfg, cs) && SettledAll(p, e, inv, cs) && l in AllLabels(cs)
    ensures Solves(p, inv, Heads(cs), l)
    decreases cs
  {
    assert SettledIn(p, e, inv, cs[0]);
    HeadsAreInside(cs[1..]);
    HeadsAreInside([cs[0]]);
    assert [cs[0]][1..] == [] && Heads(cs) == Heads([cs[0]]) + Heads(cs[1..]);
    if l !in Labels(cs[0]) {
      forall k | 0 <= k < |cs[1..]| ensures SettledIn(p, e, inv, cs[1..][k]) {
        assert SettledIn(p, e, inv, cs[k + 1]);
      }
      SettledSolves(p, e, inv, cs[1..], l);
    } else if cs[0].Cycle? {
      var inner := cs[0].components;
      CycleLabels(inner);
      CycleParts(p, e, inv, cs[0]);
      if l == inner[0].vertex {
        HeadSolves(p, e, inv, inner, Heads(cs));
      } else {
        SettledSolves(p, e, inv, inner[1..], l);
      }
    }
  }
}
