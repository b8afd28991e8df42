/** prepare_cfg (src/asm_cfg.cpp): counters behind loop heads, then assertions. */
module PrepareCfg {
  import opened AsmSyntax
  import opened ControlFlowGraph
  import opened AsmCfg
  import opened InstructionSeqToCfg
  import Inlining
  import opened InlinedFrame
  import opened CallLayout
  import Wto
  import opened WtoBuilder

  function Counter(l: Label): Label {
    Label.MakeIncrementCounter(l)
  }

  // ----- what a splice does to paths -----

  datatype Path = From(at: Label) | Step(before: Path, at: Label) {
    function First(): Label {
      if From? then at else before.First()
    }
  }

  ghost predicate IsPath(cfg: Cfg, p: Path) {
    p.at in cfg.neighbours && (p.Step? ==> IsPath(cfg, p.before) && cfg.Edge(p.before.at, p.at))
  }

  /** A path of the old graph, with the new node behind every prev that is left again. */
  function Splice(p: Path, prev: Label, node: Label): Path {
    match p
    case From(l) => p
    case Step(p0, l) =>
      var q := Splice(p0, prev, node);
      Step(if p0.at == prev then Step(q, node) else q, l)
  }

  /** A path of the new graph without the visits to the new node. */
  function Unsplice(p: Path, node: Label): Path {
    match p
    case From(_) => p
    case Step(p0, l) => if l == node then Unsplice(p0, node) else Step(Unsplice(p0, node), l)
  }

  /** `next` is the graph after insert_after(prev, node). */
  ghost predicate SpliceOf(cfg: Cfg, next: Cfg, prev: Label, node: Label) {
    && cfg.Valid() && prev in cfg.neighbours && node !in cfg.neighbours
    && next.neighbours.Keys == cfg.neighbours.Keys + {node}
    && forall x, y :: next.Edge(x, y) <==> SplicedEdge(cfg, prev, node, x, y)
  }

  lemma {:induction false} SpliceEnds(p: Path, prev: Label, node: Label)
    ensures Splice(p, prev, node).at == p.at && Splice(p, prev, node).First() == p.First()
  {
    if p.Step? {
      SpliceEnds(p.before, prev, node);
    }
  }

  /** Every path of the old graph is a path of the new one, through the new node once
      after each visit of prev, and can be read back from it. */
  lemma {:induction false} SplicePath(cfg: Cfg, next: Cfg, prev: Label, node: Label, p: Path)
    requires SpliceOf(cfg, next, prev, node) && IsPath(cfg, p)
    ensures IsPath(next, Splice(p, prev, node)) && Unsplice(Splice(p, prev, node), node) == p
  {
    if p.Step? {
      SplicePath(cfg, next, prev, node, p.before);
      SpliceEnds(p.before, prev, node);
      if p.before.at == prev {
        assert next.Edge(prev, node) && next.Edge(node, p.at);
      } else {
        assert next.Edge(p.before.at, p.at);
      }
    }
  }

  /** Every path of the new graph that begins and ends at old nodes comes from a path of
      the old graph: nothing else was added. */
  lemma {:induction false} UnsplicePath(cfg: Cfg, next: Cfg, prev: Label, node: Label, p: Path)
    requires SpliceOf(cfg, next, prev, node) && IsPath(next, p) && p.First() != node
    ensures p.at == node ==> p.Step? && p.before.at == prev
    ensures p.at != node ==> var q := Unsplice(p, node); IsPath(cfg, q) && q.at == p.at && Splice(q, prev, node) == p
    decreases p
  {
    if p.Step? {
      assert next.Edge(p.before.at, p.at) <==> SplicedEdge(cfg, prev, node, p.before.at, p.at);
      UnsplicePath(cfg, next, prev, node, p.before);
      if p.before.at == node {
        UnsplicePath(cfg, next, prev, node, p.before.before);
      }
    }
  }

  // ----- counters behind a set of heads -----

  ghost predicate IsCounterOf(heads: set<Label>, c: Label, h: Label) {
    h in heads && c == Counter(h)
  }

  /** The edges once every head leads only to its counter. */
  ghost predicate CountedEdge(cfg: Cfg, heads: set<Label>, x: Label, y: Label) {
    || (x !in heads && cfg.Edge(x, y))
    || (IsCounterOf(heads, y, x) && exists z :: cfg.Edge(x, z))
    || (exists h :: IsCounterOf(heads, x, h) && cfg.Edge(h, y))
  }

  function Counters(heads: set<Label>): set<Label> {
    set h | h in heads :: Counter(h)
  }

  ghost predicate CountersApart(cfg: Cfg, heads: set<Label>) {
    && heads <= cfg.neighbours.Keys && Counters(heads) !! cfg.neighbours.Keys
    && (forall g, h :: g in heads && h in heads && Counter(g) == Counter(h) ==> g == h)
  }

  ghost predicate CountedNodes(cfg: Cfg, next: Cfg, heads: set<Label>)
    requires cfg.neighbours.Keys == cfg.instructions.Keys
  {
    && next.neighbours.Keys == cfg.neighbours.Keys + Counters(heads)
    && next.instructions.Keys == next.neighbours.Keys
    && (forall l :: l in cfg.instructions ==> next.instructions[l] == cfg.instructions[l])
    && (forall h :: h in heads ==> next.instructions[Counter(h)] == GuardedInstruction(IncrementLoopCounter(h), []))
  }

  ghost predicate CountedEdges(cfg: Cfg, next: Cfg, heads: set<Label>) {
    forall x, y :: next.Edge(x, y) <==> CountedEdge(cfg, heads, x, y)
  }

  /** `next` is `cfg` with a counter spliced in behind each of the heads. */
  ghost predicate CountedGraph(cfg: Cfg, next: Cfg, heads: set<Label>)
    requires cfg.neighbours.Keys == cfg.instructions.Keys
  {
    && next.Valid() && CountersApart(cfg, heads) && CountedNodes(cfg, next, heads)
    && CountedEdges(cfg, next, heads)
  }

  lemma CountNextNode(cfg: Cfg, mid: Cfg, next: Cfg, heads: set<Label>, h: Label)
    requires cfg.neighbours.Keys == cfg.instructions.Keys
    requires CountersApart(cfg, heads) && CountedNodes(cfg, mid, heads)
    requires Counter(h) !in mid.neighbours && h in cfg.neighbours
    requires next.neighbours.Keys == mid.neighbours.Keys + {Counter(h)}
    requires next.instructions == mid.instructions[Counter(h) := GuardedInstruction(IncrementLoopCounter(h), [])]
    ensures CountersApart(cfg, heads + {h}) && CountedNodes(cfg, next, heads + {h})
  {
    assert forall g :: g in heads ==> Counter(g) in Counters(heads);
    assert Counters(heads + {h}) == Counters(heads) + {Counter(h)};
  }

  /** One more counter. */
  lemma CountNext(cfg: Cfg, mid: Cfg, next: Cfg, heads: set<Label>, h: Label)
    requires cfg.Valid() && CountedGraph(cfg, mid, heads)
    requires Counter(h) !in mid.neighbours && h in cfg.neighbours && h !in heads
    requires next.Valid() && next.neighbours.Keys == mid.neighbours.Keys + {Counter(h)}
    requires next.instructions == mid.instructions[Counter(h) := GuardedInstruction(IncrementLoopCounter(h), [])]
    requires h in mid.neighbours && forall x, y :: next.Edge(x, y) <==> SplicedEdge(mid, h, Counter(h), x, y)
    ensures CountedGraph(cfg, next, heads + {h})
  {
    CountNextNode(cfg, mid, next, heads, h);
    forall x, y
      ensures next.Edge(x, y) <==> CountedEdge(cfg, heads + {h}, x, y)
    {
      CountNextEdge(cfg, mid, heads, h, x, y);
    }
  }

  lemma CountNextEdge(cfg: Cfg, mid: Cfg, heads: set<Label>, h: Label, x: Label, y: Label)
    requires cfg.neighbours.Keys == cfg.instructions.Keys && CountersApart(cfg, heads) && CountedNodes(cfg, mid, heads)
    requires CountedEdges(cfg, mid, heads)
    requires h in mid.neighbours && Counter(h) !in mid.neighbours && h in cfg.neighbours && h !in heads
    ensures SplicedEdge(mid, h, Counter(h), x, y) <==> CountedEdge(cfg, heads + {h}, x, y)
  {
    var c, heads' := Counter(h), heads + {h};
    assert forall l, g :: IsCounterOf(heads, l, g) ==> l in Counters(heads);
    forall z
      ensures mid.Edge(h, z) <==> cfg.Edge(h, z)
    {
      assert mid.Edge(h, z) <==> CountedEdge(cfg, heads, h, z);
    }
    assert mid.neighbours[h].children != {} <==> exists z :: cfg.Edge(h, z) by {
      assert forall z :: z in mid.neighbours[h].children <==> mid.Edge(h, z);
    }
    if x == c {
      assert IsCounterOf(heads', c, h);
      assert forall g :: IsCounterOf(heads', c, g) ==> g == h;
    } else if x == h {
      assert forall g :: !IsCounterOf(heads', h, g);
    } else {
      assert forall g :: IsCounterOf(heads', x, g) <==> IsCounterOf(heads, x, g);
      assert mid.Edge(x, y) <==> CountedEdge(cfg, heads, x, y);
      assert IsCounterOf(heads', y, x) <==> IsCounterOf(heads, y, x);
    }
  }

  function ToSet(heads: seq<Label>): set<Label> {
    set h | h in heads
  }

  /** The heads can be told apart by their counters, which are new to the graph. */
  ghost predicate Countable(cfg: Cfg, heads: seq<Label>) {
    && (forall i :: 0 <= i < |heads| ==> Counter(heads[i]) !in cfg.neighbours)
    && (forall i, j :: 0 <= i < j < |heads| ==> Counter(heads[i]) != Counter(heads[j]))
  }

  lemma CountNoHeads(cfg: Cfg)
    requires cfg.Valid()
    ensures CountedGraph(cfg, cfg, {})
  {
    assert Counters({}) == {};
    assert forall x, y :: cfg.Edge(x, y) <==> CountedEdge(cfg, {}, x, y);
  }

  /** A counter behind every loop head of the order. */
  method InsertCounters(builder: Builder, heads: seq<Label>) returns (st: Status)
    requires builder.cfg.Valid() && ToSet(heads) <= builder.cfg.neighbours.Keys
    modifies builder
    ensures st.Done? <==> Countable(old(builder.cfg), heads)
    ensures st.Done? ==> CountedGraph(old(builder.cfg), builder.cfg, ToSet(heads))
  {
    ghost var before := builder.cfg;
    CountNoHeads(before);
    assert heads[..0] == [] && ToSet(heads[..0]) == {};
    for k := 0 to |heads|
      invariant CountedGraph(before, builder.cfg, ToSet(heads[..k])) && Countable(before, heads[..k])
    {
      ghost var mid, done := builder.cfg, ToSet(heads[..k]);
      assert heads[k] in ToSet(heads);
      CounterIsNew(before, mid, heads, k);
      st := builder.InsertAfter(heads[k], Counter(heads[k]), IncrementLoopCounter(heads[k]));
      if st.Failed? {
        return;
      }
      CountNext(before, mid, builder.cfg, done, heads[k]);
      assert ToSet(heads[..k + 1]) == done + {heads[k]};
    }
    assert heads[..|heads|] == heads;
    return Done;
  }

  lemma CounterIsNew(cfg: Cfg, mid: Cfg, heads: seq<Label>, k: nat)
    requires k < |heads| && cfg.neighbours.Keys == cfg.instructions.Keys && heads[k] in cfg.neighbours
    requires CountedNodes(cfg, mid, ToSet(heads[..k])) && Countable(cfg, heads[..k])
    ensures heads[k] in mid.neighbours
    ensures Counter(heads[k]) !in mid.neighbours ==>
              && Countable(cfg, heads[..k + 1])
              && heads[k] !in ToSet(heads[..k]) && heads[k] != Counter(heads[k])
    ensures Counter(heads[k]) in mid.neighbours ==> !Countable(cfg, heads)
  {
    var c := Counter(heads[k]);
    if c !in mid.neighbours {
      forall i | 0 <= i < k
        ensures Counter(heads[i]) != c
      {
        assert heads[..k][i] in ToSet(heads[..k]);
        assert Counter(heads[i]) in Counters(ToSet(heads[..k]));
      }
      StillCountable(cfg, heads, k);
    } else if c !in cfg.neighbours {
      var h :| h in ToSet(heads[..k]) && c == Counter(h);
      var i :| 0 <= i < k && heads[..k][i] == h;
      assert Counter(heads[i]) == Counter(heads[k]);
    }
  }

  lemma StillCountable(cfg: Cfg, heads: seq<Label>, k: nat)
    requires k < |heads| && Countable(cfg, heads[..k]) && Counter(heads[k]) !in cfg.neighbours
    requires forall i :: 0 <= i < k ==> Counter(heads[i]) != Counter(heads[k])
    ensures Countable(cfg, heads[..k + 1]) && heads[k] !in heads[..k]
  {
    assert forall i :: 0 <= i < k ==> heads[..k][i] == heads[i] && heads[..k + 1][i] == heads[i];
  }

  /** Every label gets the assertions of its instruction. */
  method SetAssertions(builder: Builder, assertionsOf: (Instruction, Label) -> seq<Assertion>)
    requires builder.cfg.Valid()
    modifies builder
    ensures builder.cfg.Valid() && builder.cfg.neighbours == old(builder.cfg).neighbours
    ensures WithAssertions(old(builder.cfg), builder.cfg, assertionsOf)
  {
    ghost var before := builder.cfg;
    var rest := builder.cfg.instructions.Keys;
    while rest != {}
      invariant rest <= before.instructions.Keys && builder.cfg.neighbours == before.neighbours
      invariant builder.cfg.instructions.Keys == before.instructions.Keys
      invariant forall l :: l in before.instructions ==>
                  builder.cfg.instructions[l] ==
                  if l in rest then before.instructions[l]
                  else GuardedInstruction(before.instructions[l].cmd, assertionsOf(before.instructions[l].cmd, l))
      decreases rest
    {
      var l :| l in rest;
      rest := rest - {l};
      builder.cfg := builder.cfg.(instructions := builder.cfg.instructions[l :=
        GuardedInstruction(builder.cfg.instructions[l].cmd, assertionsOf(builder.cfg.instructions[l].cmd, l))]);
    }
    assert forall a, b ::
        builder.cfg.Edge(a, b) == before.Edge(a, b) && builder.cfg.HasParent(a, b) == before.HasParent(a, b);
  }

  /** `cfg` is `plain` with counters behind the heads and assertions everywhere. */
  ghost predicate Annotated(
    plain: Cfg, cfg: Cfg, assertionsOf: (Instruction, Label) -> seq<Assertion>, heads: set<Label>)
    requires plain.neighbours.Keys == plain.instructions.Keys
  {
    exists mid :: CountedGraph(plain, mid, heads) && WithAssertions(mid, cfg, assertionsOf)
  }

  ghost predicate WithAssertions(mid: Cfg, cfg: Cfg, assertionsOf: (Instruction, Label) -> seq<Assertion>) {
    && cfg.neighbours == mid.neighbours && cfg.instructions.Keys == mid.instructions.Keys
    && forall l :: l in mid.instructions ==>
         cfg.instructions[l] == GuardedInstruction(mid.instructions[l].cmd, assertionsOf(mid.instructions[l].cmd, l))
  }

  lemma LabelsShallow(insts: seq<LabeledInstruction>, cfg: Cfg)
    requires PlainLabels(insts) && GraphOf(insts, cfg)
    ensures Inlining.Shallow(cfg)
  {
    forall l | l in cfg.neighbours
      ensures l.stackFramePrefix == "" && l.special == ""
    {
      if IsJumpBelow(insts, |insts|, l) {
        var i :| i < |insts| && IsJumpOf(insts, i, l);
      }
    }
  }

  lemma {:induction false} HeadsAreLabels(cs: seq<Wto.Component>)
    ensures ToSet(Wto.TopLevelHeads(cs)) <= Wto.AllLabels(cs)
  {
    if cs != [] {
      HeadsAreLabels(cs[1..]);
      forall h | h in ToSet(Wto.TopLevelHeads(cs)) ensures h in Wto.AllLabels(cs) {
        if h !in Wto.TopLevelHeads(cs[1..]) {
          Wto.CycleLabels(cs[0].components);
        }
      }
    }
  }

  ghost predicate NoIncrements(insts: seq<LabeledInstruction>) {
    forall k :: 0 <= k < |insts| ==> !insts[k].ins.IncrementLoopCounter?
  }

  lemma NoCountersInList(insts: seq<LabeledInstruction>, base: Cfg)
    requires PlainLabels(insts) && GraphOf(insts, base) && NoIncrements(insts)
    ensures NoCounters(base)
  {
    forall l | l in base.neighbours ensures l.special == "" && !base.instructions[l].cmd.IncrementLoopCounter? {
      if IsInstructionLabel(insts, l) {
        var i :| Defined(insts, i) && insts[i].lab == l;
      } else if l != ENTRY && l != EXIT {
        var i :| i < |insts| && IsJumpOf(insts, i, l);
      }
    }
  }

  /** The heads of an order are told apart, and the counters of a graph without counters are new. */
  lemma {:induction false} HeadsDiffer(cfg: Cfg, cs: seq<Wto.Component>)
    requires Wto.WellFormedSequence(cfg, cs)
    ensures forall i, j :: 0 <= i < j < |Wto.TopLevelHeads(cs)| ==> Wto.TopLevelHeads(cs)[i] != Wto.TopLevelHeads(cs)[j]
  {
    if cs != [] {
      HeadsDiffer(cfg, cs[1..]);
      HeadsAreLabels(cs[1..]);
      var heads, rest := Wto.TopLevelHeads(cs), Wto.TopLevelHeads(cs[1..]);
      if cs[0].Cycle? {
        Wto.CycleLabels(cs[0].components);
        assert heads[1..] == rest;
        forall j | 0 < j < |heads| ensures heads[j] == rest[j - 1] && heads[0] != heads[j] {
          assert rest[j - 1] in ToSet(rest);
        }
      }
    }
  }

  lemma OrderIsCountable(cfg: Cfg, order: seq<Wto.Component>)
    requires NoCounters(cfg) && Wto.ValidWto(cfg, order)
    ensures Countable(cfg, Wto.TopLevelHeads(order))
  {
    var heads := Wto.TopLevelHeads(order);
    HeadsDiffer(cfg, order);
    HeadsAreLabels(order);
    forall i | 0 <= i < |heads| ensures heads[i] in cfg.neighbours {
      assert heads[i] in ToSet(heads);
    }
  }

  /** The order of the graph is built, and counters are put behind the heads of its loops. */
  method CountLoops(builder: Builder) returns (st: Status, ghost wto: seq<Wto.Component>)
    requires builder.cfg.Valid()
    modifies builder
    ensures IsOrder(old(builder.cfg), wto)
    ensures st.Done? ==> CountedGraph(old(builder.cfg), builder.cfg, ToSet(Wto.TopLevelHeads(wto)))
    ensures NoCounters(old(builder.cfg)) ==> st.Done?
  {
    var order := OrderOf(builder.cfg);
    wto := order;
    HeadsAreLabels(order);
    if NoCounters(builder.cfg) {
      OrderIsCountable(builder.cfg, order);
    }
    st := InsertCounters(builder, Wto.TopLevelHeads(order));
  }

  /** When a list is prepared: it is acceptable and its calls can be inlined. */
  ghost predicate SucceedsExactly(
    insts: seq<LabeledInstruction>, mustHaveExit: bool, bodies: seq<set<Label>>, base: Cfg, success: bool)
  {
    if Acceptable(insts, mustHaveExit) then
      && base.Valid() && GraphOf(insts, base)
      && (!success ==> FailsSomewhere(insts, base, bodies))
      && (CallersFirst(insts, base, bodies) ==> (success <==> AllCallsFit(insts, base)))
    else !success
  }

  /** prepare_cfg. It fails exactly if the list is not acceptable or a call cannot be inlined. The
      translated list before its calls are inlined is returned as `base`, and before counters and
      assertions as `plain`, with its order if there are counters. */
  method PrepareCfg(
    insts: seq<LabeledInstruction>, mustHaveExit: bool, checkForTermination: bool,
    assertionsOf: (Instruction, Label) -> seq<Assertion>, ghost main: set<Label>, ghost body: set<Label>,
    ghost bodies: seq<set<Label>>)
    returns (builder: Builder, st: Status, ghost plain: Cfg, ghost base: Cfg, ghost wto: seq<Wto.Component>)
    requires PlainLabels(insts) && |bodies| == |insts|
    ensures NoIncrements(insts) ==> SucceedsExactly(insts, mustHaveExit, bodies, base, st.Done?)
    ensures st.Done? ==> Acceptable(insts, mustHaveExit) && GraphOf(insts, base)
    ensures st.Done? ==> Reached(insts, base, bodies, |insts|, plain)
    ensures st.Done? ==> builder.cfg.Valid() && plain.Valid() && Inlining.Shallow(plain)
    ensures st.Done? && (forall k :: 0 <= k < |insts| ==> !insts[k].ins.CallLocal?) ==> plain == base
    ensures st.Done? && WellLaidOut(insts, base, main, body) && OneBody(insts, body, bodies) ==>
              ProgramInlined(base, plain, main)
    ensures st.Done? && NoCounters(base) ==> NoCounters(plain)
    ensures st.Done? && checkForTermination ==> IsOrder(plain, wto)
    ensures st.Done? ==> Annotated(plain, builder.cfg, assertionsOf,
              if checkForTermination then ToSet(Wto.TopLevelHeads(wto)) else {})
  {
    wto := [];
    builder, st := FirstPass(insts, mustHaveExit);
    plain, base := builder.cfg, builder.cfg;
    if st.Failed? {
      return;
    }
    LabelsShallow(insts, builder.cfg);
    if NoIncrements(insts) {
      NoCountersInList(insts, base);
    }
    st := Inlining.InlineCalls(builder, insts, main, body, bodies);
    plain := builder.cfg;
    if st.Failed? {
      return;
    }
    st, wto := CountAndAssert(builder, checkForTermination, assertionsOf);
  }

  /** Counters, if they are asked for, and assertions. */
  method CountAndAssert(
    builder: Builder, checkForTermination: bool, assertionsOf: (Instruction, Label) -> seq<Assertion>)
    returns (st: Status, ghost wto: seq<Wto.Component>)
    requires builder.cfg.Valid()
    modifies builder
    ensures st.Done? ==> builder.cfg.Valid()
    ensures NoCounters(old(builder.cfg)) ==> st.Done?
    ensures st.Done? && checkForTermination ==> IsOrder(old(builder.cfg), wto)
    ensures st.Done? ==> Annotated(old(builder.cfg), builder.cfg, assertionsOf,
              if checkForTermination then ToSet(Wto.TopLevelHeads(wto)) else {})
  {
    CountNoHeads(builder.cfg);
    st, wto := Done, [];
    if checkForTermination {
      st, wto := CountLoops(builder);
      if st.Failed? {
        return;
      }
    }
    SetAssertions(builder, assertionsOf);
  }
}
