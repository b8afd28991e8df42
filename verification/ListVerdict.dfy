/** From the instruction list to the verdict: what a verified program promises of the list
    it was made from. */
module ListVerdict {
  import opened AsmSyntax
  import opened ControlFlowGraph
  import opened InstructionSeqToCfg
  import opened CfgMeaning
  import opened LabelTexts
  import opened InlinedFrame
  import opened CallLayout
  import opened CallMeaning
  import opened ListCalls
  import opened LoopCounters
  import opened PrepareCfg
  import opened AbstractDomain
  import opened AnalysisTable
  import opened FwdAnalyzer
  import opened CrabVerifier
  import opened Termination
  import W = Wto
  import opened WtoBuilder

  // ----- states with loop counters -----

  /** A state of the machine on lists, and the loop counters, which a list does not have. */
  datatype Counted<C> = Counted(core: C, counts: map<Label, nat>)

  function CountOf<C>(s: Counted<C>, l: Label): int {
    if l in s.counts then s.counts[l] else 0
  }

  /** The machine on lists, with counters that count. */
  ghost function CountedStep<C(!new)>(m: Machine<C>): (Instruction, Counted<C>, Counted<C>) -> bool {
    (i: Instruction, s: Counted<C>, t: Counted<C>) =>
      if i.IncrementLoopCounter? then
        t == Counted(s.core, s.counts[i.name := CountOf(s, i.name) + 1])
      else NodeStep(m)(i, s.core, t.core) && t.counts == s.counts
  }

  /** What the analyzer takes instructions, assertions and resets to mean agrees with the
      machine: steps are steps, assertions are about the core or a limit, and a reset sets
      one counter to zero. */
  ghost predicate Describes<A, C(!new)>(
    mean: Meaning<A, Counted<C>>, m: Machine<C>, holds: (Assertion, C) -> bool)
  {
    && (forall i, s, t :: CountedStep(m)(i, s, t) ==> mean.step(i, s, t))
    && (forall q, s :: mean.holds(q, s) ==> holds(q, s.core))
    && (forall name, s :: mean.holds(BoundedLoopCount(name), s) ==> CountOf(s, name) <= LOOP_LIMIT)
    && (forall s, h :: mean.resetCounter(s, h).core == s.core)
    && (forall s, h, l :: CountOf(mean.resetCounter(s, h), l) == if l == h then 0 else CountOf(s, l))
  }

  ghost predicate AllZero<C>(s: Counted<C>) {
    forall l :: CountOf(s, l) == 0
  }

  lemma {:induction false} ResetKeepsZero<A, C(!new)>(
    mean: Meaning<A, Counted<C>>, m: Machine<C>, holds: (Assertion, C) -> bool, heads: seq<Label>, s: Counted<C>)
    requires Describes(mean, m, holds) && AllZero(s)
    ensures ResetCounters(mean, heads, s).core == s.core && AllZero(ResetCounters(mean, heads, s))
    decreases |heads|
  {
    if heads != [] {
      ResetKeepsZero(mean, m, holds, heads[1..], mean.resetCounter(s, heads[0]));
    }
  }

  // ----- runs of the list as runs of the prepared graph -----

  /** `cfg` is `plain` with counters behind the heads, whose labels have these assertions. */
  ghost predicate CountedProgram(
    plain: Cfg, cfg: Cfg, heads: set<Label>, assertionsOf: (Instruction, Label) -> seq<Assertion>)
  {
    && (forall l :: l in plain.instructions ==> PlainNode(plain, cfg, assertionsOf, l))
    && (forall x, y :: plain.Edge(x, y) && x !in heads ==> cfg.Edge(x, y))
    && (forall x, y :: plain.Edge(x, y) && x in heads ==> CounterBetween(cfg, x, y))
  }

  ghost predicate PlainNode(
    plain: Cfg, cfg: Cfg, assertionsOf: (Instruction, Label) -> seq<Assertion>, l: Label)
    requires l in plain.instructions
  {
    && !plain.instructions[l].cmd.IncrementLoopCounter? && l in cfg.instructions
    && cfg.instructions[l].cmd == plain.instructions[l].cmd
    && cfg.instructions[l].preconditions == assertionsOf(plain.instructions[l].cmd, l)
  }

  ghost predicate CounterBetween(cfg: Cfg, x: Label, y: Label) {
    && cfg.Edge(x, Counter(x)) && cfg.Edge(Counter(x), y)
    && Counter(x) in cfg.instructions && cfg.instructions[Counter(x)].cmd == IncrementLoopCounter(x)
  }

  /** The run with a visit to the counter behind every head it leaves. */
  ghost function Lift<C>(r: Run<C>, heads: set<Label>, counts: map<Label, nat>): Run<Counted<C>> {
    match r
    case AtEntry(s) => AtEntry(Counted(s, counts))
    case Enter(via, l, s) => Enter(via, l, Counted(s, counts))
    case Then(r0, l, s) =>
      var q := Lift(r0, heads, counts);
      var x, before := r0.At(), q.state;
      if x in heads then
        var mid := Counted(s, before.counts);
        Then(Then(q, Counter(x), mid), l, Counted(s, mid.counts[x := CountOf(mid, x) + 1]))
      else Then(q, l, Counted(s, before.counts))
  }

  lemma {:induction false} LiftRuns<C(!new)>(
    plain: Cfg, cfg: Cfg, heads: set<Label>, assertionsOf: (Instruction, Label) -> seq<Assertion>,
    m: Machine<C>, init: C -> bool, init': Counted<C> -> bool, counts: map<Label, nat>, r: Run<C>)
    requires CountedProgram(plain, cfg, heads, assertionsOf) && CfgRun(plain, NodeStep(m), init, r)
    requires forall c :: init(c) ==> init'(Counted(c, counts))
    ensures var q := Lift(r, heads, counts);
            && CfgRun(cfg, CountedStep(m), init', q) && q.At() == r.At() && q.state.core == r.state
            && |Walk(q)| >= |Walk(r)|
  {
    if r.Then? {
      LiftRuns(plain, cfg, heads, assertionsOf, m, init, init', counts, r.before);
      LiftStep(plain, cfg, heads, assertionsOf, m, r.before.At(), r.before.state, r.node, r.state);
    }
  }

  lemma LiftStep<C(!new)>(
    plain: Cfg, cfg: Cfg, heads: set<Label>, assertionsOf: (Instruction, Label) -> seq<Assertion>,
    m: Machine<C>, x: Label, s: C, y: Label, t: C)
    requires CountedProgram(plain, cfg, heads, assertionsOf)
    requires plain.Edge(x, y) && x in plain.instructions && NodeStep(m)(plain.instructions[x].cmd, s, t)
    ensures x in cfg.instructions
    ensures forall counts :: CountedStep(m)(cfg.instructions[x].cmd, Counted(s, counts), Counted(t, counts))
    ensures if x in heads then CounterBetween(cfg, x, y) else cfg.Edge(x, y)
  {
    assert PlainNode(plain, cfg, assertionsOf, x);
  }

  lemma AnnotatedNodes(
    plain: Cfg, mid: Cfg, cfg: Cfg, heads: set<Label>, assertionsOf: (Instruction, Label) -> seq<Assertion>, l: Label)
    requires plain.neighbours.Keys == plain.instructions.Keys && CountedNodes(plain, mid, heads)
    requires WithAssertions(mid, cfg, assertionsOf) && l in plain.instructions
    requires !plain.instructions[l].cmd.IncrementLoopCounter?
    ensures PlainNode(plain, cfg, assertionsOf, l)
  {
  }

  lemma AnnotatedEdge(plain: Cfg, mid: Cfg, cfg: Cfg, heads: set<Label>,
                      assertionsOf: (Instruction, Label) -> seq<Assertion>, x: Label, y: Label)
    requires plain.neighbours.Keys == plain.instructions.Keys && CountedNodes(plain, mid, heads)
    requires CountedEdges(plain, mid, heads) && WithAssertions(mid, cfg, assertionsOf) && plain.Edge(x, y)
    ensures if x in heads then CounterBetween(cfg, x, y) else cfg.Edge(x, y)
  {
    if x in heads {
      assert IsCounterOf(heads, Counter(x), x) && Counter(x) in Counters(heads);
      assert CountedEdge(plain, heads, x, Counter(x)) && CountedEdge(plain, heads, Counter(x), y);
      assert mid.Edge(x, Counter(x)) && mid.Edge(Counter(x), y);
    } else {
      assert CountedEdge(plain, heads, x, y);
      assert mid.Edge(x, y);
    }
  }

  lemma AnnotatedIsCounted(
    plain: Cfg, mid: Cfg, cfg: Cfg, heads: set<Label>, assertionsOf: (Instruction, Label) -> seq<Assertion>)
    requires plain.neighbours.Keys == plain.instructions.Keys && CountedNodes(plain, mid, heads)
    requires CountedEdges(plain, mid, heads) && WithAssertions(mid, cfg, assertionsOf)
    requires forall l :: l in plain.instructions ==> !plain.instructions[l].cmd.IncrementLoopCounter?
    ensures CountedProgram(plain, cfg, heads, assertionsOf)
  {
    forall l | l in plain.instructions
      ensures PlainNode(plain, cfg, assertionsOf, l)
    {
      AnnotatedNodes(plain, mid, cfg, heads, assertionsOf, l);
    }
    forall x, y | plain.Edge(x, y)
      ensures if x in heads then CounterBetween(cfg, x, y) else cfg.Edge(x, y)
    {
      AnnotatedEdge(plain, mid, cfg, heads, assertionsOf, x, y);
    }
  }

  function Start<S>(r: Run<S>): S {
    match r
    case AtEntry(s) => s
    case Enter(_, _, s) => s
    case Then(r0, _, _) => Start(r0)
  }

  lemma {:induction false} FromItsStart<S(!new)>(
    cfg: Cfg, step: (Instruction, S, S) -> bool, init: S -> bool, r: Run<S>, c: S)
    requires CfgRun(cfg, step, init, r) && c == Start(r)
    ensures init(c) && CfgRun(cfg, step, s => s == c, r)
  {
    if r.Then? {
      FromItsStart(cfg, step, init, r.before, c);
    }
  }

  lemma {:induction false} RunCarriesOver<S(!new)>(
    cfg: Cfg, step: (Instruction, S, S) -> bool, step': (Instruction, S, S) -> bool,
    init: S -> bool, init': S -> bool, r: Run<S>)
    requires CfgRun(cfg, step, init, r)
    requires (forall i, s, t :: step(i, s, t) ==> step'(i, s, t)) && forall s :: init(s) ==> init'(s)
    ensures CfgRun(cfg, step', init', r)
  {
    if r.Then? {
      RunCarriesOver(cfg, step, step', init, init', r.before);
    }
  }

  // ----- what the verdict says -----

  /** A prepared graph, and an analysis of it that found nothing. */
  ghost predicate Passed<A(!new), C(!new)>(
    p: Problem<A, Counted<C>>, e: A, entryInv: A, initHeads: seq<Label>, plain: Cfg, heads: set<Label>, m: Machine<C>,
    holds: (Assertion, C) -> bool, assertionsOf: (Instruction, Label) -> seq<Assertion>)
  {
    && CountedProgram(plain, p.cfg, heads, assertionsOf) && Describes(p.m, m, holds) && p.cfg.Valid()
    && SoundTransformer(p.d, p.m) && e == InitializeCounters(p.d, initHeads, entryInv)
    && forall r :: UnfilteredRun(p, e, r) ==> r.At() in p.cfg.instructions && AssertionsHold(p, r.At(), r.state)
  }

  /** A run of the plain graph, as a run that the analyzer knows. */
  lemma LiftPassed<A(!new), C(!new)>(
    p: Problem<A, Counted<C>>, e: A, entryInv: A, initHeads: seq<Label>, plain: Cfg, heads: set<Label>, m: Machine<C>,
    holds: (Assertion, C) -> bool, assertionsOf: (Instruction, Label) -> seq<Assertion>, r: Run<C>)
    returns (q: Run<Counted<C>>, start: Counted<C>)
    requires Passed(p, e, entryInv, initHeads, plain, heads, m, holds, assertionsOf)
    requires CfgRun(plain, NodeStep(m), c => p.m.gamma(entryInv, Counted(c, map[])), r)
    ensures CfgRun(p.cfg, CountedStep(m), s => s == start, q) && AllZero(start)
    ensures q.At() == r.At() && q.state.core == r.state && |Walk(q)| >= |Walk(r)| && UnfilteredRun(p, e, q)
  {
    var init := c => p.m.gamma(entryInv, Counted(c, map[]));
    var c := Start(r);
    FromItsStart(plain, NodeStep(m), init, r, c);
    var zero := Counted(c, map[]);
    ResetKeepsZero(p.m, m, holds, initHeads, zero);
    CountersInitialized(p.d, p.m, initHeads, entryInv, zero);
    start := ResetCounters(p.m, initHeads, zero);
    q := Lift(r, heads, start.counts);
    LiftRuns(plain, p.cfg, heads, assertionsOf, m, d => d == c, s => s == start, start.counts, r);
    RunCarriesOver(p.cfg, CountedStep(m), p.m.step, s => s == start, s => p.m.gamma(e, s), q);
  }

  /** Wherever a run of the graph arrives, the assertions of the instruction there hold. */
  ghost predicate GraphIsSafe<C(!new)>(
    m: Machine<C>, plain: Cfg, holds: (Assertion, C) -> bool, assertionsOf: (Instruction, Label) -> seq<Assertion>,
    init: C -> bool)
  {
    forall r, q ::
      (CfgRun(plain, NodeStep(m), init, r) && r.At() in plain.instructions
       && q in assertionsOf(plain.instructions[r.At()].cmd, r.At())) ==> holds(q, r.state)
  }

  lemma PassedGraphIsSafe<A(!new), C(!new)>(
    p: Problem<A, Counted<C>>, e: A, entryInv: A, initHeads: seq<Label>, plain: Cfg, heads: set<Label>, m: Machine<C>,
    holds: (Assertion, C) -> bool, assertionsOf: (Instruction, Label) -> seq<Assertion>)
    requires Passed(p, e, entryInv, initHeads, plain, heads, m, holds, assertionsOf)
    ensures GraphIsSafe(m, plain, holds, assertionsOf, c => p.m.gamma(entryInv, Counted(c, map[])))
  {
    var init := c => p.m.gamma(entryInv, Counted(c, map[]));
    forall r, a |
      CfgRun(plain, NodeStep(m), init, r) && r.At() in plain.instructions
      && a in assertionsOf(plain.instructions[r.At()].cmd, r.At())
      ensures holds(a, r.state)
    {
      var q, start := LiftPassed(p, e, entryInv, initHeads, plain, heads, m, holds, assertionsOf, r);
      assert PlainNode(plain, p.cfg, assertionsOf, r.At());
      assert AssertionsHold(p, q.At(), q.state);
    }
  }

  // ----- and that it stops -----

  lemma CountedStepCounts<A, C(!new)>(mean: Meaning<A, Counted<C>>, m: Machine<C>, holds: (Assertion, C) -> bool)
    requires Describes(mean, m, holds)
    ensures Counts(CountedStep(m), mean.holds, (s, l) => CountOf(s, l))
  {
  }

  /** The counters bound every run of the graph if they meet every cycle. */
  lemma PassedRunStops<A(!new), C(!new)>(
    p: Problem<A, Counted<C>>, e: A, entryInv: A, initHeads: seq<Label>, plain: Cfg, mid: Cfg, within: set<Label>,
    heads: set<Label>, m: Machine<C>, holds: (Assertion, C) -> bool,
    assertionsOf: (Instruction, Label) -> seq<Assertion>, r: Run<C>)
    requires Passed(p, e, entryInv, initHeads, plain, heads, m, holds, assertionsOf) && plain.Valid()
    requires CountedGraph(plain, mid, heads) && WithAssertions(mid, p.cfg, assertionsOf) && AssertsLimits(assertionsOf)
    requires NoCounters(plain) && Closed(plain, within) && EveryCycleHasHead(plain, within, heads)
    requires CfgRun(plain, NodeStep(m), c => p.m.gamma(entryInv, Counted(c, map[])), r)
    ensures |Walk(r)| <= Bound(Others(p.cfg, Counters(heads)), Allowance(Counters(heads), LOOP_LIMIT + 1))
  {
    var q, start := LiftPassed(p, e, entryInv, initHeads, plain, heads, m, holds, assertionsOf, r);
    AnnotatedIsInstrumented(plain, mid, p.cfg, assertionsOf, heads);
    CountedCycles(plain, mid, within, heads, LOOP_LIMIT + 1);
    SameEdges(mid, p.cfg, Counters(heads), LOOP_LIMIT + 1);
    AssertionsAllAlong(p, e, q);
    CountedStepCounts(p.m, m, holds);
    RunBounded(p.cfg, Counters(heads), CountedStep(m), p.m.holds, (s, l) => CountOf(s, l), s => s == start, q);
  }

  ghost predicate GraphStops<C(!new)>(m: Machine<C>, plain: Cfg, init: C -> bool, bound: nat) {
    forall r :: CfgRun(plain, NodeStep(m), init, r) ==> |Walk(r)| <= bound
  }

  /** The steps that n nodes and h counted heads allow. */
  ghost function StepBound(plain: Cfg, heads: set<Label>): nat {
    Bound(|plain.neighbours.Keys|, |heads| * (LOOP_LIMIT + 1))
  }

  lemma BoundOfProgram(
    plain: Cfg, mid: Cfg, cfg: Cfg, heads: set<Label>, assertionsOf: (Instruction, Label) -> seq<Assertion>)
    requires plain.neighbours.Keys == plain.instructions.Keys && CountersApart(plain, heads)
    requires CountedNodes(plain, mid, heads) && WithAssertions(mid, cfg, assertionsOf)
    ensures Bound(Others(cfg, Counters(heads)), Allowance(Counters(heads), LOOP_LIMIT + 1)) == StepBound(plain, heads)
  {
    assert cfg.neighbours.Keys - Counters(heads) == plain.neighbours.Keys;
    CountersAreAsMany(plain, heads);
  }

  lemma {:induction false} CountersAreAsMany(plain: Cfg, heads: set<Label>)
    requires CountersApart(plain, heads)
    ensures |Counters(heads)| == |heads|
    decreases heads
  {
    if heads != {} {
      var h :| h in heads;
      var rest := heads - {h};
      assert Counters(rest) <= Counters(heads);
      CountersAreAsMany(plain, rest);
      assert Counters(heads) == Counters(rest) + {Counter(h)};
      assert Counter(h) !in Counters(rest);
    }
  }

  // ----- the verdict on the graph -----

  /** No instruction of a list counts, so no node of its graph does. */
  /** What the verdict on a prepared graph says about the graph before counters and assertions. */
  lemma VerdictOnGraph<A(!new), C(!new)>(
    p: Problem<A, Counted<C>>, entryInv: A, initHeads: seq<Label>, plain: Cfg, heads: set<Label>,
    wto: seq<W.Component>, m: Machine<C>, holds: (Assertion, C) -> bool,
    assertionsOf: (Instruction, Label) -> seq<Assertion>)
    requires plain.Valid() && NoCounters(plain) && Annotated(plain, p.cfg, assertionsOf, heads) && p.cfg.Valid()
    requires SoundTransformer(p.d, p.m) && Describes(p.m, m, holds) && AssertsLimits(assertionsOf)
    requires forall r :: UnfilteredRun(p, InitializeCounters(p.d, initHeads, entryInv), r) ==>
               r.At() in p.cfg.instructions && AssertionsHold(p, r.At(), r.state)
    ensures GraphIsSafe(m, plain, holds, assertionsOf, c => p.m.gamma(entryInv, Counted(c, map[])))
    ensures W.ValidWto(plain, wto) && Flat(wto) && heads == ToSet(W.TopLevelHeads(wto)) ==>
              GraphStops(m, plain, c => p.m.gamma(entryInv, Counted(c, map[])), StepBound(plain, heads))
  {
    var e := InitializeCounters(p.d, initHeads, entryInv);
    var mid :| CountedGraph(plain, mid, heads) && WithAssertions(mid, p.cfg, assertionsOf);
    AnnotatedIsCounted(plain, mid, p.cfg, heads, assertionsOf);
    PassedGraphIsSafe(p, e, entryInv, initHeads, plain, heads, m, holds, assertionsOf);
    if W.ValidWto(plain, wto) && Flat(wto) && heads == ToSet(W.TopLevelHeads(wto)) {
      FlatCountsAll(plain, wto);
      BoundOfProgram(plain, mid, p.cfg, heads, assertionsOf);
      forall r | CfgRun(plain, NodeStep(m), c => p.m.gamma(entryInv, Counted(c, map[])), r)
        ensures |Walk(r)| <= StepBound(plain, heads)
      {
        PassedRunStops(p, e, entryInv, initHeads, plain, mid, W.AllLabels(wto), heads, m, holds, assertionsOf, r);
      }
    }
  }

  // ----- what it says about a list without local calls -----

  /** Wherever a run of the list arrives, the assertions of the instruction there hold. */
  ghost predicate ListIsSafe<C(!new)>(
    m: Machine<C>, insts: seq<LabeledInstruction>, holds: (Assertion, C) -> bool,
    assertionsOf: (Instruction, Label) -> seq<Assertion>, init: C -> bool)
    requires insts != []
  {
    forall tr, i, q ::
      ListRun(m, insts, init, tr) && Is(insts, i, tr.At(insts)) && q in assertionsOf(insts[i].ins, insts[i].lab) ==>
        holds(q, tr.state)
  }

  lemma SafeGraphIsSafeList<C(!new)>(
    m: Machine<C>, insts: seq<LabeledInstruction>, plain: Cfg, holds: (Assertion, C) -> bool,
    assertionsOf: (Instruction, Label) -> seq<Assertion>, init: C -> bool)
    requires Complementary(m) && GraphOf(insts, plain) && GraphIsSafe(m, plain, holds, assertionsOf, init)
    ensures ListIsSafe(m, insts, holds, assertionsOf, init)
  {
    forall tr, i, a |
      ListRun(m, insts, init, tr) && Is(insts, i, tr.At(insts)) && a in assertionsOf(insts[i].ins, insts[i].lab)
      ensures holds(a, tr.state)
    {
      ListRunEmbeds(m, insts, plain, init, tr);
      assert Defined(insts, i) && plain.instructions[insts[i].lab].cmd == insts[i].ins;
      assert Embed(insts, tr).At() == insts[i].lab;
    }
  }

  function Steps<C>(tr: Trace<C>): nat {
    match tr
    case Begin(_) => 0
    case Next(tr0, _, _) => Steps(tr0) + 1
  }

  lemma {:induction false} EmbedIsLonger<C>(insts: seq<LabeledInstruction>, tr: Trace<C>)
    requires insts != []
    ensures Steps(tr) < |Walk(Embed(insts, tr))|
  {
    if tr.Next? {
      EmbedIsLonger(insts, tr.before);
    }
  }

  ghost predicate ListStops<C(!new)>(m: Machine<C>, insts: seq<LabeledInstruction>, init: C -> bool, bound: nat)
    requires insts != []
  {
    forall tr :: ListRun(m, insts, init, tr) ==> Steps(tr) < bound
  }

  lemma GraphStopsListStops<C(!new)>(
    m: Machine<C>, insts: seq<LabeledInstruction>, plain: Cfg, init: C -> bool, bound: nat)
    requires Complementary(m) && GraphOf(insts, plain) && GraphStops(m, plain, init, bound)
    ensures ListStops(m, insts, init, bound)
  {
    forall tr | ListRun(m, insts, init, tr) ensures Steps(tr) < bound {
      ListRunEmbeds(m, insts, plain, init, tr);
      EmbedIsLonger(insts, tr);
    }
  }

  // ----- what it says about a program with local calls -----

  /** The instruction as it is executed at a spot. */
  function InstructionAt(ins: Instruction, s: Spot): Instruction {
    if ins.CallLocal? then CallLocal(ins.target, LabelText(NodeOf(s)))
    else if s.stack == [] then ins
    else InFrame(ins, FrameOf(s.stack))
  }

  ghost predicate ProgramIsSafe<C(!new)>(
    m: Machine<C>, insts: seq<LabeledInstruction>, holds: (Assertion, C) -> bool,
    assertionsOf: (Instruction, Label) -> seq<Assertion>, init: C -> bool)
    requires insts != []
  {
    forall e, i, q ::
      (IsExecution(m, insts, init, e) && Is(insts, i, e.At(insts).at)
       && q in assertionsOf(InstructionAt(insts[i].ins, e.At(insts)), NodeOf(e.At(insts)))) ==> holds(q, e.state)
  }

  ghost predicate ProgramStops<C(!new)>(m: Machine<C>, insts: seq<LabeledInstruction>, init: C -> bool, bound: nat)
    requires insts != []
  {
    forall e :: IsExecution(m, insts, init, e) ==> e.Length() < bound
  }

  /** An execution of the list as a run of the graph with its calls inlined. */
  lemma ExecutionInGraph<C(!new)>(
    m: Machine<C>, insts: seq<LabeledInstruction>, base: Cfg, plain: Cfg, main: set<Label>, init: C -> bool,
    e: Execution<C>)
    returns (r: Run<C>)
    requires Complementary(m) && GraphOf(insts, base) && InlinedFaithfully(base, plain, main)
    requires IsExecution(m, insts, init, e)
    ensures CfgRun(plain, NodeStep(m), init, r) && r.At() == NodeOf(e.At(insts)) && r.state == e.state
    ensures CommandIs(base, plain, e.At(insts)) && |Walk(r)| > e.Length()
  {
    var k := ExecutionIsStackRun(m, insts, base, init, e);
    StackRunFlattens(base, plain, main, NodeStep(m), init, k);
    GraphAtSpot(base, plain, main, k.At());
    FlattenAt(base, k);
    FlattenLength(k);
    r := Flatten(k);
  }

  lemma {:induction false} FlattenLength<C>(r: StackRun<C>)
    ensures |Walk(Flatten(r))| == Moved(r) + 1
  {
    if r.Go? {
      FlattenLength(r.before);
    }
  }

  lemma SafeGraphIsSafeProgram<C(!new)>(
    m: Machine<C>, insts: seq<LabeledInstruction>, base: Cfg, plain: Cfg, main: set<Label>,
    holds: (Assertion, C) -> bool, assertionsOf: (Instruction, Label) -> seq<Assertion>, init: C -> bool)
    requires Complementary(m) && GraphOf(insts, base) && InlinedFaithfully(base, plain, main)
    requires GraphIsSafe(m, plain, holds, assertionsOf, init)
    ensures ProgramIsSafe(m, insts, holds, assertionsOf, init)
  {
    forall e, i, q |
      IsExecution(m, insts, init, e) && Is(insts, i, e.At(insts).at)
      && q in assertionsOf(InstructionAt(insts[i].ins, e.At(insts)), NodeOf(e.At(insts)))
      ensures holds(q, e.state)
    {
      var r := ExecutionInGraph(m, insts, base, plain, main, init, e);
      assert Defined(insts, i) && base.instructions[insts[i].lab].cmd == insts[i].ins;
      assert CommandAt(base, e.At(insts)) == InstructionAt(insts[i].ins, e.At(insts));
    }
  }

  lemma GraphStopsProgramStops<C(!new)>(
    m: Machine<C>, insts: seq<LabeledInstruction>, base: Cfg, plain: Cfg, main: set<Label>, init: C -> bool, bound: nat)
    requires Complementary(m) && GraphOf(insts, base) && InlinedFaithfully(base, plain, main)
    requires GraphStops(m, plain, init, bound)
    ensures ProgramStops(m, insts, init, bound)
  {
    forall e | IsExecution(m, insts, init, e) ensures e.Length() < bound {
      var r := ExecutionInGraph(m, insts, base, plain, main, init, e);
    }
  }

  // ----- the pipeline -----

  ghost predicate NoCalls(insts: seq<LabeledInstruction>) {
    forall k :: 0 <= k < |insts| ==> !insts[k].ins.CallLocal?
  }

  /** What the verdict on a graph says about the list it comes from. */
  lemma VerdictOnList<C(!new)>(
    m: Machine<C>, insts: seq<LabeledInstruction>, base: Cfg, plain: Cfg, main: set<Label>, body: set<Label>,
    bodies: seq<set<Label>>, holds: (Assertion, C) -> bool, assertionsOf: (Instruction, Label) -> seq<Assertion>,
    init: C -> bool)
    requires PlainLabels(insts) && GraphOf(insts, base) && Complementary(m)
    requires WellLaidOut(insts, base, main, body) && OneBody(insts, body, bodies) ==> ProgramInlined(base, plain, main)
    requires NoCalls(insts) ==> plain == base
    requires GraphIsSafe(m, plain, holds, assertionsOf, init)
    ensures NoCalls(insts) ==> ListIsSafe(m, insts, holds, assertionsOf, init)
    ensures WellLaidOut(insts, base, main, body) && OneBody(insts, body, bodies) ==>
              ProgramIsSafe(m, insts, holds, assertionsOf, init)
  {
    if NoCalls(insts) {
      SafeGraphIsSafeList(m, insts, plain, holds, assertionsOf, init);
    }
    if WellLaidOut(insts, base, main, body) && OneBody(insts, body, bodies) {
      GraphIsBase(insts, base);
      SafeGraphIsSafeProgram(m, insts, base, plain, main, holds, assertionsOf, init);
    }
  }

  lemma BoundOnList<C(!new)>(
    m: Machine<C>, insts: seq<LabeledInstruction>, base: Cfg, plain: Cfg, main: set<Label>, body: set<Label>,
    bodies: seq<set<Label>>, init: C -> bool, bound: nat)
    requires PlainLabels(insts) && GraphOf(insts, base) && Complementary(m)
    requires WellLaidOut(insts, base, main, body) && OneBody(insts, body, bodies) ==> ProgramInlined(base, plain, main)
    requires NoCalls(insts) ==> plain == base
    requires GraphStops(m, plain, init, bound)
    ensures NoCalls(insts) ==> ListStops(m, insts, init, bound)
    ensures WellLaidOut(insts, base, main, body) && OneBody(insts, body, bodies) ==> ProgramStops(m, insts, init, bound)
  {
    if NoCalls(insts) {
      GraphStopsListStops(m, insts, plain, init, bound);
    }
    if WellLaidOut(insts, base, main, body) && OneBody(insts, body, bodies) {
      GraphIsBase(insts, base);
      GraphStopsProgramStops(m, insts, base, plain, main, init, bound);
    }
  }

  /** What the pipeline goes through: whether the list can be prepared, its graph, with its calls
      inlined, its order if counters are inserted, the prepared graph with its order, whether the
      iteration delivers, and the table it delivers. */
  datatype Passage<!A> = Passage(
    success: bool, base: Cfg, plain: Cfg, wto: seq<W.Component>, prepared: Cfg, order: seq<W.Component>,
    delivers: bool, table: Table<A>)

  /** The verdict on a graph: exactly whether the table of its analysis has no warning. */
  ghost predicate IsVerdict<A(!new), S(!new)>(
    p: Problem<A, S>, e: A, limit: Option<nat>, delivers: bool, table: Table<A>, verified: bool)
  {
    && (limit.None? ==> delivers) && (verified ==> delivers)
    && (delivers ==> p.cfg.Valid() && IsAnalysis(p, e, table) && (verified <==> NoWarnings(p, table)))
  }

  /** The verdict on a list: the list is prepared, and the table of the prepared graph, analyzed in
      an order of that graph, has no warning. */
  ghost predicate IsListVerdict<A(!new), C(!new)>(
    insts: seq<LabeledInstruction>, mustHaveExit: bool, checkForTermination: bool,
    assertionsOf: (Instruction, Label) -> seq<Assertion>, d: Domain<A>, mean: Meaning<A, Counted<C>>,
    assumeAssertions: bool, entryInv: A, limit: Option<nat>, bodies: seq<set<Label>>, t: Passage<A>,
    verified: bool)
  {
    && SucceedsExactly(insts, mustHaveExit, bodies, t.base, t.success)
    && if !t.success then !verified
       else
         var p := Problem(t.prepared, t.order, d, mean, assumeAssertions);
         && IsPrepared(insts, checkForTermination, assertionsOf, bodies, t)
         && IsVerdict(p, EntryInvariant(p, entryInv, checkForTermination), limit, t.delivers, t.table, verified)
  }

  /** The calls of the list are inlined one after the other, counters stand behind the top-level
      heads of an order of that graph, and assertions at every label. */
  ghost predicate IsPrepared<A>(
    insts: seq<LabeledInstruction>, checkForTermination: bool, assertionsOf: (Instruction, Label) -> seq<Assertion>,
    bodies: seq<set<Label>>, t: Passage<A>)
  {
    && t.plain.Valid() && t.prepared.Valid() && GraphOf(insts, t.base) && (NoCalls(insts) ==> t.plain == t.base)
    && |bodies| == |insts| && Reached(insts, t.base, bodies, |insts|, t.plain)
    && (checkForTermination ==> IsOrder(t.plain, t.wto)) && IsOrder(t.prepared, t.order)
    && Annotated(t.plain, t.prepared, assertionsOf,
         if checkForTermination then ToSet(W.TopLevelHeads(t.wto)) else {})
  }

  /** The pipeline from an instruction list. Its verdict is exactly that the list can be prepared and
      the table of the prepared graph has no warning. If it says verified, then no run of the list, of
      any length, violates an assertion of an instruction, neither of a list without local calls nor
      of one that is well laid out. If it also checks for termination and no loop is nested in
      another, every run is shorter than an explicit bound. */
  method VerifyList<A(!new), C(!new)>(
    insts: seq<LabeledInstruction>, mustHaveExit: bool, checkForTermination: bool,
    assertionsOf: (Instruction, Label) -> seq<Assertion>, d: Domain<A>, mean: Meaning<A, Counted<C>>,
    assumeAssertions: bool, entryInv: A, limit: Option<nat>, ghost main: set<Label>, ghost body: set<Label>,
    ghost bodies: seq<set<Label>>, ghost rank: A -> nat, ghost m: Machine<C>, ghost holds: (Assertion, C) -> bool)
    returns (verified: bool, ghost t: Passage<A>)
    requires PlainLabels(insts) && NoIncrements(insts) && |bodies| == |insts|
    requires SoundLattice(d, mean) && SoundTransformer(d, mean) && Complementary(m) && Describes(mean, m, holds)
    requires AssertsLimits(assertionsOf) && (limit.None? ==> RankedWidening(d, rank))
    ensures IsListVerdict(insts, mustHaveExit, checkForTermination, assertionsOf, d, mean, assumeAssertions, entryInv,
              limit, bodies, t, verified)
    ensures verified && NoCalls(insts) ==>
              ListIsSafe(m, insts, holds, assertionsOf, c => mean.gamma(entryInv, Counted(c, map[])))
    ensures verified && WellLaidOut(insts, t.base, main, body) && OneBody(insts, body, bodies) ==>
              ProgramIsSafe(m, insts, holds, assertionsOf, c => mean.gamma(entryInv, Counted(c, map[])))
    ensures verified && checkForTermination && Flat(t.wto) && NoCalls(insts) ==>
              ListStops(m, insts, c => mean.gamma(entryInv, Counted(c, map[])),
                        StepBound(t.plain, ToSet(W.TopLevelHeads(t.wto))))
    ensures verified && checkForTermination && Flat(t.wto) && WellLaidOut(insts, t.base, main, body)
            && OneBody(insts, body, bodies) ==>
              ProgramStops(m, insts, c => mean.gamma(entryInv, Counted(c, map[])),
                           StepBound(t.plain, ToSet(W.TopLevelHeads(t.wto))))
  {
    ghost var init := c => mean.gamma(entryInv, Counted(c, map[]));
    verified, t := VerifyGraph(insts, mustHaveExit, checkForTermination, assertionsOf, d, mean,
      assumeAssertions, entryInv, limit, main, body, bodies, rank, m, holds);
    if verified {
      VerdictOnList(m, insts, t.base, t.plain, main, body, bodies, holds, assertionsOf, init);
      if checkForTermination && Flat(t.wto) {
        BoundOnList(m, insts, t.base, t.plain, main, body, bodies, init,
          StepBound(t.plain, ToSet(W.TopLevelHeads(t.wto))));
      }
    }
  }

  /** The same, as far as the graph. */
  method VerifyGraph<A(!new), C(!new)>(
    insts: seq<LabeledInstruction>, mustHaveExit: bool, checkForTermination: bool,
    assertionsOf: (Instruction, Label) -> seq<Assertion>, d: Domain<A>, mean: Meaning<A, Counted<C>>,
    assumeAssertions: bool, entryInv: A, limit: Option<nat>, ghost main: set<Label>, ghost body: set<Label>,
    ghost bodies: seq<set<Label>>, ghost rank: A -> nat, ghost m: Machine<C>, ghost holds: (Assertion, C) -> bool)
    returns (verified: bool, ghost t: Passage<A>)
    requires PlainLabels(insts) && NoIncrements(insts) && |bodies| == |insts|
    requires SoundLattice(d, mean) && SoundTransformer(d, mean) && Describes(mean, m, holds)
    requires AssertsLimits(assertionsOf) && (limit.None? ==> RankedWidening(d, rank))
    ensures IsListVerdict(insts, mustHaveExit, checkForTermination, assertionsOf, d, mean, assumeAssertions, entryInv,
              limit, bodies, t, verified)
    ensures verified && WellLaidOut(insts, t.base, main, body) && OneBody(insts, body, bodies) ==>
              ProgramInlined(t.base, t.plain, main)
    ensures verified ==> GraphIsSafe(m, t.plain, holds, assertionsOf, c => mean.gamma(entryInv, Counted(c, map[])))
    ensures verified && checkForTermination && Flat(t.wto) ==>
              GraphStops(m, t.plain, c => mean.gamma(entryInv, Counted(c, map[])),
                         StepBound(t.plain, ToSet(W.TopLevelHeads(t.wto))))
  {
    var builder, st;
    ghost var plain, base, wto;
    builder, st, plain, base, wto :=
      PrepareCfg.PrepareCfg(insts, mustHaveExit, checkForTermination, assertionsOf, main, body, bodies);
    t := Passage(st.Done?, base, plain, wto, builder.cfg, [], false, map[]);
    if st.Failed? {
      return false, t;
    }
    NoCountersInList(insts, base);
    ghost var order, delivers, table;
    verified, order, delivers, table := AnalyzePrepared(builder.cfg, checkForTermination, wto, assertionsOf, d, mean,
      assumeAssertions, entryInv, limit, plain, rank, m, holds);
    t := Passage(true, base, plain, wto, builder.cfg, order, delivers, table);
  }

  /** The analysis of the prepared graph, in the order of that graph. */
  method AnalyzePrepared<A(!new), C(!new)>(
    cfg: Cfg, checkForTermination: bool, ghost wto: seq<W.Component>,
    ghost assertionsOf: (Instruction, Label) -> seq<Assertion>, d: Domain<A>, mean: Meaning<A, Counted<C>>,
    assumeAssertions: bool, entryInv: A, limit: Option<nat>, ghost plain: Cfg,
    ghost rank: A -> nat, ghost m: Machine<C>, ghost holds: (Assertion, C) -> bool)
    returns (verified: bool, ghost order: seq<W.Component>, ghost delivers: bool, ghost table: Table<A>)
    requires plain.Valid() && NoCounters(plain) && cfg.Valid()
    requires Annotated(plain, cfg, assertionsOf, if checkForTermination then ToSet(W.TopLevelHeads(wto)) else {})
    requires checkForTermination ==> W.ValidWto(plain, wto)
    requires SoundLattice(d, mean) && SoundTransformer(d, mean) && Describes(mean, m, holds)
    requires AssertsLimits(assertionsOf) && (limit.None? ==> RankedWidening(d, rank))
    ensures IsOrder(cfg, order)
    ensures var p := Problem(cfg, order, d, mean, assumeAssertions);
            IsVerdict(p, EntryInvariant(p, entryInv, checkForTermination), limit, delivers, table, verified)
    ensures verified ==> GraphIsSafe(m, plain, holds, assertionsOf, c => mean.gamma(entryInv, Counted(c, map[])))
    ensures verified && checkForTermination && Flat(wto) ==>
              GraphStops(m, plain, c => mean.gamma(entryInv, Counted(c, map[])),
                         StepBound(plain, ToSet(W.TopLevelHeads(wto))))
  {
    var components := OrderOf(cfg);
    order := components;
    verified, delivers, table := AnalyzeInOrder(cfg, components, checkForTermination, wto, assertionsOf, d, mean,
      assumeAssertions, entryInv, limit, plain, rank, m, holds);
  }

  method AnalyzeInOrder<A(!new), C(!new)>(
    cfg: Cfg, order: seq<W.Component>, checkForTermination: bool, ghost wto: seq<W.Component>,
    ghost assertionsOf: (Instruction, Label) -> seq<Assertion>, d: Domain<A>, mean: Meaning<A, Counted<C>>,
    assumeAssertions: bool, entryInv: A, limit: Option<nat>, ghost plain: Cfg,
    ghost rank: A -> nat, ghost m: Machine<C>, ghost holds: (Assertion, C) -> bool)
    returns (verified: bool, ghost delivers: bool, ghost table: Table<A>)
    requires plain.Valid() && NoCounters(plain) && cfg.Valid() && W.ValidWto(cfg, order)
    requires Annotated(plain, cfg, assertionsOf, if checkForTermination then ToSet(W.TopLevelHeads(wto)) else {})
    requires checkForTermination ==> W.ValidWto(plain, wto)
    requires SoundLattice(d, mean) && SoundTransformer(d, mean) && Describes(mean, m, holds)
    requires AssertsLimits(assertionsOf) && (limit.None? ==> RankedWidening(d, rank))
    ensures var p := Problem(cfg, order, d, mean, assumeAssertions);
            IsVerdict(p, EntryInvariant(p, entryInv, checkForTermination), limit, delivers, table, verified)
    ensures verified ==> GraphIsSafe(m, plain, holds, assertionsOf, c => mean.gamma(entryInv, Counted(c, map[])))
    ensures verified && checkForTermination && Flat(wto) ==>
              GraphStops(m, plain, c => mean.gamma(entryInv, Counted(c, map[])),
                         StepBound(plain, ToSet(W.TopLevelHeads(wto))))
  {
    var p := Problem(cfg, order, d, mean, assumeAssertions);
    var ok;
    verified, ok, table := AnalyzeAndVerify(p, entryInv, checkForTermination, limit, rank);
    delivers := ok;
    if verified {
      VerdictOnGraph(p, entryInv, if checkForTermination then W.TopLevelHeads(p.wto) else [], plain,
        if checkForTermination then ToSet(W.TopLevelHeads(wto)) else {}, wto, m, holds, assertionsOf);
    }
  }
}
