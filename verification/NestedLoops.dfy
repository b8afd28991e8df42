/** A program with two nested loops, of which prepare_cfg counts only the outer: it runs for
    ever while every loop assertion holds. */
module NestedLoops {
  import opened AsmSyntax
  import opened ControlFlowGraph
  import opened Wto
  import opened InstructionSeqToCfg
  import opened LoopCounters
  import opened PrepareCfg
  import opened AsmCfg
  import Machines

  const L0: Label := InstructionLabel(0)
  const L1: Label := InstructionLabel(1)
  const L2: Label := InstructionLabel(2)
  const L3: Label := InstructionLabel(3)

  function IsZero(r: Uint8): Condition {
    Condition(EQ, r, Imm(0), true)
  }

  /** 0: r3 = 0; 1: if r1 == 0 goto 1; 2: if r2 == 0 goto 0; 3: exit */
  const PROGRAM: seq<LabeledInstruction> := [
    LabeledInstruction(L0, Bin(MOV, 3, Imm(0), true, false)),
    LabeledInstruction(L1, Jmp(Some(IsZero(1)), L1)),
    LabeledInstruction(L2, Jmp(Some(IsZero(2)), L0)),
    LabeledInstruction(L3, Exit(""))]

  /** The jump nodes. */
  const J11: Label := Label("", 1, 1, "")
  const J12: Label := Label("", 1, 2, "")
  const J20: Label := Label("", 2, 0, "")
  const J23: Label := Label("", 2, 3, "")

  // ----- its graph -----

  predicate IsEdge(x: Label, y: Label) {
    || (x == ENTRY && y == L0) || (x == L0 && y == L1) || (x == L1 && (y == J11 || y == J12))
    || (x == J11 && y == L1) || (x == J12 && y == L2) || (x == L2 && (y == J20 || y == J23))
    || (x == J20 && y == L0) || (x == J23 && y == L3) || (x == L3 && y == EXIT)
  }

  lemma ProgramJumps()
    ensures Splits(PROGRAM, 1) && TakenLabel(PROGRAM, 1) == J11 && NotTakenLabel(PROGRAM, 1) == J12
    ensures Splits(PROGRAM, 2) && TakenLabel(PROGRAM, 2) == J20 && NotTakenLabel(PROGRAM, 2) == J23
    ensures forall i :: Splits(PROGRAM, i) ==> i == 1 || i == 2
    ensures forall i :: Defined(PROGRAM, i) <==> 0 <= i < 4
    ensures PlainLabels(PROGRAM)
  {
  }

  lemma ProgramNodes(cfg: Cfg, l: Label)
    requires GraphOf(PROGRAM, cfg)
    ensures l in cfg.neighbours <==> l in {ENTRY, L0, L1, J11, J12, L2, J20, J23, L3, EXIT}
  {
    ProgramJumps();
    assert IsJumpOf(PROGRAM, 1, J11) && IsJumpOf(PROGRAM, 1, J12);
    assert IsJumpOf(PROGRAM, 2, J20) && IsJumpOf(PROGRAM, 2, J23);
    assert PROGRAM[0].lab == L0 && PROGRAM[1].lab == L1 && PROGRAM[2].lab == L2 && PROGRAM[3].lab == L3;
  }

  function SuccessorsOf(i: nat): set<Label> {
    if i == 0 then {L1} else if i == 1 then {J11, J12} else if i == 2 then {J20, J23} else {EXIT}
  }

  lemma ProgramSuccessors(i: nat)
    requires i < 4
    ensures PROGRAM[i].lab == InstructionLabel(i) && Successors(PROGRAM, i) == SuccessorsOf(i)
  {
    ProgramJumps();
  }

  lemma EdgesOf(insts: seq<LabeledInstruction>, cfg: Cfg, i: nat, x: Label, ys: set<Label>, y: Label)
    requires GraphOf(insts, cfg) && Defined(insts, i) && insts[i].lab == x && Successors(insts, i) == ys
    ensures cfg.Edge(x, y) <==> y in ys
  {
  }

  lemma EdgesOfInstruction(cfg: Cfg, i: nat, y: Label)
    requires GraphOf(PROGRAM, cfg) && i < 4
    ensures cfg.Edge(InstructionLabel(i), y) <==> y in SuccessorsOf(i)
  {
    ProgramSuccessors(i);
    EdgesOf(PROGRAM, cfg, i, InstructionLabel(i), SuccessorsOf(i), y);
  }

  lemma EdgesOfJumps(cfg: Cfg, y: Label)
    requires GraphOf(PROGRAM, cfg)
    ensures (cfg.Edge(J11, y) <==> y == L1) && (cfg.Edge(J12, y) <==> y == L2)
    ensures (cfg.Edge(J20, y) <==> y == L0) && (cfg.Edge(J23, y) <==> y == L3)
  {
    ProgramJumps();
    assert JumpNode(cfg, TakenLabel(PROGRAM, 1), IsZero(1), L1);
    assert JumpNode(cfg, NotTakenLabel(PROGRAM, 1), Reverse(IsZero(1)), L2);
    assert JumpNode(cfg, TakenLabel(PROGRAM, 2), IsZero(2), L0);
    assert JumpNode(cfg, NotTakenLabel(PROGRAM, 2), Reverse(IsZero(2)), L3);
  }

  lemma ProgramEdges(cfg: Cfg, x: Label, y: Label)
    requires GraphOf(PROGRAM, cfg)
    ensures cfg.Edge(x, y) <==> IsEdge(x, y)
  {
    ProgramNodes(cfg, x);
    if x in {L0, L1, L2, L3} {
      EdgesOfInstruction(cfg, x.from, y);
    } else if x in {J11, J12, J20, J23} {
      EdgesOfJumps(cfg, y);
    } else if x == ENTRY {
      assert PROGRAM[0].lab == L0;
    }
  }

  /** prepare_cfg accepts it. */
  lemma ProgramIsAcceptable()
    ensures Acceptable(PROGRAM, true)
  {
    ProgramJumps();
    forall k | 0 <= k < 4
      ensures Accepted(PROGRAM, k, true)
    {
      assert PROGRAM[0].lab == L0 && PROGRAM[1].lab == L1 && PROGRAM[2].lab == L2 && PROGRAM[3].lab == L3;
      assert IsInstructionLabel(PROGRAM, L0) && IsInstructionLabel(PROGRAM, L1);
      assert IsInstructionLabel(PROGRAM, L2) && IsInstructionLabel(PROGRAM, L3);
    }
  }

  // ----- its order -----

  const INNER: Component := Cycle([Vertex(L1)] + ([Vertex(J11)] + []))
  const BODY: seq<Component> := [INNER] + REST
  const OUTER: Component := Cycle([Vertex(L0)] + BODY)
  const ORDER: seq<Component> := [Vertex(ENTRY)] + ([OUTER] + TAIL)

  /** The components are in order, with these labels and heads. */
  ghost predicate InOrder(
    cfg: Cfg, cs: seq<Component>, labels: set<Label>, heads: set<Label>, top: seq<Label>)
  {
    WellFormedSequence(cfg, cs) && AllLabels(cs) == labels && Heads(cs) == heads && TopLevelHeads(cs) == top
  }

  lemma PutVertex(
    cfg: Cfg, l: Label, cs: seq<Component>, labels: set<Label>, heads: set<Label>, top: seq<Label>)
    requires InOrder(cfg, cs, labels, heads, top) && l !in labels && !cfg.Edge(l, l) && NoEdge(cfg, labels, {l})
    ensures InOrder(cfg, [Vertex(l)] + cs, {l} + labels, heads, top)
  {
    assert ([Vertex(l)] + cs)[1..] == cs;
    assert [] + top == top;
  }

  lemma PutCycle(
    cfg: Cfg, h: Label, body: seq<Component>, inside: set<Label>, nested: set<Label>, bodyTop: seq<Label>,
    cs: seq<Component>, labels: set<Label>, heads: set<Label>, top: seq<Label>)
    requires InOrder(cfg, body, inside, nested, bodyTop) && InOrder(cfg, cs, labels, heads, top)
    requires h !in inside && ({h} + inside) !! labels && NoEdge(cfg, labels, {h} + inside)
    ensures InOrder(cfg, [Cycle([Vertex(h)] + body)] + cs, {h} + inside + labels, {h} + nested + heads, [h] + top)
  {
    var all := [Vertex(h)] + body;
    assert all[1..] == body && ([Cycle(all)] + cs)[1..] == cs;
    assert Heads(all) == nested;
    CycleLabels(all);
  }

  ghost predicate Edges(cfg: Cfg) {
    forall x, y :: cfg.Edge(x, y) <==> IsEdge(x, y)
  }

  const REST: seq<Component> := [Vertex(J12)] + ([Vertex(L2)] + ([Vertex(J20)] + []))

  lemma RestInOrder(cfg: Cfg)
    requires Edges(cfg)
    ensures InOrder(cfg, REST, {J12, L2, J20}, {}, [])
  {
    PutVertex(cfg, J20, [], {}, {}, []);
    PutVertex(cfg, L2, [Vertex(J20)] + [], {J20}, {}, []);
    PutVertex(cfg, J12, [Vertex(L2)] + ([Vertex(J20)] + []), {L2, J20}, {}, []);
  }

  lemma InnerInOrder(cfg: Cfg)
    requires Edges(cfg)
    ensures InOrder(cfg, BODY, {L1, J11, J12, L2, J20}, {L1}, [L1])
  {
    RestInOrder(cfg);
    PutVertex(cfg, J11, [], {}, {}, []);
    PutCycle(cfg, L1, [Vertex(J11)] + [], {J11}, {}, [], REST, {J12, L2, J20}, {}, []);
  }

  const TAIL: seq<Component> := [Vertex(J23)] + ([Vertex(L3)] + ([Vertex(EXIT)] + []))

  lemma TailInOrder(cfg: Cfg)
    requires Edges(cfg)
    ensures InOrder(cfg, TAIL, {J23, L3, EXIT}, {}, [])
  {
    PutVertex(cfg, EXIT, [], {}, {}, []);
    PutVertex(cfg, L3, [Vertex(EXIT)] + [], {EXIT}, {}, []);
    PutVertex(cfg, J23, [Vertex(L3)] + ([Vertex(EXIT)] + []), {L3, EXIT}, {}, []);
  }

  lemma AllInOrder(cfg: Cfg)
    requires Edges(cfg)
    ensures InOrder(cfg, ORDER, NODES, {L0, L1}, [L0])
  {
    InnerInOrder(cfg);
    TailInOrder(cfg);
    PutCycle(cfg, L0, BODY, {L1, J11, J12, L2, J20}, {L1}, [L1], TAIL, {J23, L3, EXIT}, {}, []);
    PutVertex(cfg, ENTRY, [OUTER] + TAIL, {L0, L1, J11, J12, L2, J20, J23, L3, EXIT}, {L0, L1}, [L0]);
  }

  lemma GraphHasEdges(cfg: Cfg)
    requires GraphOf(PROGRAM, cfg)
    ensures Edges(cfg)
  {
    forall x, y
      ensures cfg.Edge(x, y) <==> IsEdge(x, y)
    {
      ProgramEdges(cfg, x, y);
    }
  }

  const NODES: set<Label> := {ENTRY, L0, L1, J11, J12, L2, J20, J23, L3, EXIT}

  /** The order is one that the analyzer may use, and its only top-level head is 0. */
  lemma OrderIsValid(cfg: Cfg)
    requires GraphOf(PROGRAM, cfg)
    ensures ValidWto(cfg, ORDER) && TopLevelHeads(ORDER) == [L0]
  {
    GraphHasEdges(cfg);
    AllInOrder(cfg);
    forall l | l in NODES
      ensures l in cfg.neighbours
    {
      ProgramNodes(cfg, l);
    }
    InOrderIsValid(cfg, ORDER, [L0]);
  }

  lemma InOrderIsValid(cfg: Cfg, cs: seq<Component>, top: seq<Label>)
    requires Edges(cfg) && NODES <= cfg.neighbours.Keys && InOrder(cfg, cs, NODES, {L0, L1}, top)
    ensures ValidWto(cfg, cs)
  {
    forall u, v | u in NODES && cfg.Edge(u, v)
      ensures v in NODES
    {
      assert IsEdge(u, v);
    }
  }

  // ----- its runs -----

  /** Registers, and the loop counters by the head they belong to. */
  datatype State = State(regs: Machines.Regs, counts: map<Label, nat>)

  function CountOf(s: State, l: Label): int {
    if l in s.counts then s.counts[l] else 0
  }

  /** The machine: arithmetic on registers, and counters that count. */
  predicate Moves(i: Instruction, s: State, t: State) {
    match i
    case Bin(op, dst, v, is64, _) => t == s.(regs := Result(op, dst, v, is64, s.regs))
    case IncrementLoopCounter(h) => t == s.(counts := s.counts[h := CountOf(s, h) + 1])
    case _ => t.counts == s.counts
  }

  function Result(op: BinOp, dst: Uint8, v: Value, is64: bool, regs: Machines.Regs): Machines.Regs {
    Machines.Set(regs, dst, Machines.OpAlu(op, is64, Machines.Get(regs, dst), Machines.Operand(regs, v)))
  }

  ghost function RegisterMachine(): Machine<State> {
    Machine((i: Instruction, s: State, t: State) => Moves(i, s, t),
            RegisterTest((s: State, r: Uint8) => Machines.Get(s.regs, r)))
  }

  /** Loop assertions are what they say, all others hold. */
  function Holds(q: Assertion, s: State): bool {
    match q
    case BoundedLoopCount(name) => CountOf(s, name) <= LOOP_LIMIT
    case OtherAssertion(_) => true
  }

  lemma StepCounts(i: Instruction, s: State, t: State, l: Label)
    requires NodeStep(RegisterMachine())(i, s, t)
    ensures CountOf(t, l) == CountOf(s, l) + if i == IncrementLoopCounter(l) then 1 else 0
  {
  }

  /** It is a machine that counts, as the loop assertions expect. */
  lemma MachineCounts()
    ensures Counts(NodeStep(RegisterMachine()), Holds, CountOf)
  {
    forall i, s, t, l | NodeStep(RegisterMachine())(i, s, t)
      ensures CountOf(t, l) == CountOf(s, l) + if i == IncrementLoopCounter(l) then 1 else 0
    {
      StepCounts(i, s, t, l);
    }
  }

  const ZEROS: Machines.Regs := [0, 0, 0, 0, 0, 0, 0, 0, 0, 0, 0]
  const START: State := State(ZEROS, map[])
  const LATER: State := State(ZEROS, map[L0 := 1])

  ghost function IntoTheLoop(): Run<State> {
    Then(Then(Then(AtEntry(START), L0, START), Counter(L0), START), L1, LATER)
  }

  /** Into the inner loop, and n times around it. */
  ghost function Forever(n: nat): Run<State> {
    if n == 0 then IntoTheLoop() else Then(Then(Forever(n - 1), J11, LATER), L1, LATER)
  }

  lemma {:induction false} ForeverGrows(n: nat)
    ensures |Walk(Forever(n))| >= n && Forever(n).At() == L1 && Forever(n).state == LATER
  {
    if n > 0 {
      ForeverGrows(n - 1);
    }
  }

  /** The edges and instructions of the prepared graph that the run uses. */
  ghost predicate Prepared(cfg: Cfg) {
    && cfg.Edge(ENTRY, L0) && cfg.Edge(L0, Counter(L0)) && cfg.Edge(Counter(L0), L1)
    && cfg.Edge(L1, J11) && cfg.Edge(J11, L1)
    && {ENTRY, L0, Counter(L0), L1, J11} <= cfg.instructions.Keys
    && cfg.instructions[ENTRY].cmd == Undefined(0)
    && cfg.instructions[L0].cmd == Bin(MOV, 3, Imm(0), true, false)
    && cfg.instructions[Counter(L0)].cmd == IncrementLoopCounter(L0)
    && cfg.instructions[L1].cmd == Jmp(Some(IsZero(1)), L1)
    && cfg.instructions[J11].cmd == Assume(IsZero(1), true)
  }

  lemma Steps()
    ensures Moves(Bin(MOV, 3, Imm(0), true, false), START, START)
    ensures Moves(IncrementLoopCounter(L0), START, LATER)
    ensures RegisterMachine().test(IsZero(1), LATER)
  {
    assert Machines.OpAlu(MOV, true, 0, 0) == 0;
    assert Machines.Set(ZEROS, 3, 0) == ZEROS;
    assert Machines.Get(ZEROS, 1) == 0 && Compare(EQ, true, 0, 0);
  }

  lemma EnterLoopRuns(cfg: Cfg, init: State -> bool)
    requires Prepared(cfg) && init(START)
    ensures CfgRun(cfg, NodeStep(RegisterMachine()), init, IntoTheLoop()) && HoldsThroughout(cfg, Holds, IntoTheLoop())
  {
    Steps();
    var step := NodeStep(RegisterMachine());
    var r0 := AtEntry(START);
    var r1 := Then(r0, L0, START);
    var r2 := Then(r1, Counter(L0), START);
    assert CfgRun(cfg, step, init, r0) && HoldsThroughout(cfg, Holds, r0);
    assert CfgRun(cfg, step, init, r1) && HoldsThroughout(cfg, Holds, r1);
    assert CfgRun(cfg, step, init, r2) && HoldsThroughout(cfg, Holds, r2);
  }

  /** Wherever the run stands at 1 with the counter at one, it can go round once more. */
  lemma OnceMore(cfg: Cfg, init: State -> bool, r: Run<State>)
    requires Prepared(cfg) && r.At() == L1 && r.state == LATER
    requires CfgRun(cfg, NodeStep(RegisterMachine()), init, r) && HoldsThroughout(cfg, Holds, r)
    ensures var q := Then(Then(r, J11, LATER), L1, LATER);
            CfgRun(cfg, NodeStep(RegisterMachine()), init, q) && HoldsThroughout(cfg, Holds, q)
  {
    Steps();
    var q := Then(r, J11, LATER);
    assert CfgRun(cfg, NodeStep(RegisterMachine()), init, q);
    assert HoldsThroughout(cfg, Holds, q);
  }

  lemma {:induction false} ForeverRuns(cfg: Cfg, init: State -> bool, n: nat)
    requires Prepared(cfg) && init(START)
    ensures CfgRun(cfg, NodeStep(RegisterMachine()), init, Forever(n)) && HoldsThroughout(cfg, Holds, Forever(n))
  {
    if n == 0 {
      EnterLoopRuns(cfg, init);
    } else {
      ForeverRuns(cfg, init, n - 1);
      ForeverGrows(n - 1);
      OnceMore(cfg, init, Forever(n - 1));
    }
  }

  lemma CountedEdgesOfProgram(plain: Cfg, mid: Cfg)
    requires GraphOf(PROGRAM, plain) && CountedGraph(plain, mid, {L0})
    ensures mid.Edge(ENTRY, L0) && mid.Edge(L0, Counter(L0)) && mid.Edge(Counter(L0), L1)
    ensures mid.Edge(L1, J11) && mid.Edge(J11, L1)
  {
    ProgramEdges(plain, ENTRY, L0);
    ProgramEdges(plain, L0, L1);
    ProgramEdges(plain, L1, J11);
    ProgramEdges(plain, J11, L1);
    KeptEdge(plain, mid, ENTRY, L0);
    KeptEdge(plain, mid, L1, J11);
    KeptEdge(plain, mid, J11, L1);
    CountedEdgeAt0(plain, mid, L1);
  }

  lemma KeptEdge(plain: Cfg, mid: Cfg, x: Label, y: Label)
    requires CountedEdges(plain, mid, {L0}) && plain.Edge(x, y) && x != L0
    ensures mid.Edge(x, y)
  {
    assert CountedEdge(plain, {L0}, x, y);
  }

  lemma CountedEdgeAt0(plain: Cfg, mid: Cfg, y: Label)
    requires CountedEdges(plain, mid, {L0}) && plain.Edge(L0, y)
    ensures mid.Edge(L0, Counter(L0)) && mid.Edge(Counter(L0), y)
  {
    assert IsCounterOf({L0}, Counter(L0), L0);
    assert CountedEdge(plain, {L0}, L0, Counter(L0)) && CountedEdge(plain, {L0}, Counter(L0), y);
  }

  lemma CommandsOfProgram(plain: Cfg)
    requires GraphOf(PROGRAM, plain)
    ensures {ENTRY, L0, L1, J11} <= plain.instructions.Keys
    ensures plain.instructions[ENTRY].cmd == Undefined(0)
    ensures plain.instructions[L0].cmd == Bin(MOV, 3, Imm(0), true, false)
    ensures plain.instructions[L1].cmd == Jmp(Some(IsZero(1)), L1)
    ensures plain.instructions[J11].cmd == Assume(IsZero(1), true)
  {
    ProgramJumps();
    assert PROGRAM[0].lab == L0 && PROGRAM[1].lab == L1;
    assert JumpNode(plain, TakenLabel(PROGRAM, 1), IsZero(1), L1);
  }

  lemma ProgramIsPrepared(plain: Cfg, cfg: Cfg, assertionsOf: (Instruction, Label) -> seq<Assertion>)
    requires GraphOf(PROGRAM, plain) && Annotated(plain, cfg, assertionsOf, {L0})
    ensures Prepared(cfg)
  {
    var mid :| CountedGraph(plain, mid, {L0}) && WithAssertions(mid, cfg, assertionsOf);
    CountedEdgesOfProgram(plain, mid);
    CommandsOfProgram(plain);
    CarriesOver(plain, mid, cfg, assertionsOf);
  }

  lemma CarriesOver(plain: Cfg, mid: Cfg, cfg: Cfg, assertionsOf: (Instruction, Label) -> seq<Assertion>)
    requires plain.neighbours.Keys == plain.instructions.Keys && CountedNodes(plain, mid, {L0})
    requires WithAssertions(mid, cfg, assertionsOf)
    ensures forall x, y :: cfg.Edge(x, y) <==> mid.Edge(x, y)
    ensures forall l :: l in plain.instructions ==>
              l in cfg.instructions && cfg.instructions[l].cmd == plain.instructions[l].cmd
    ensures Counter(L0) in cfg.instructions && cfg.instructions[Counter(L0)].cmd == IncrementLoopCounter(L0)
  {
    assert Counter(L0) in Counters({L0});
  }

  lemma RunsForever(cfg: Cfg, n: nat) returns (r: Run<State>)
    requires Prepared(cfg)
    ensures CfgRun(cfg, NodeStep(RegisterMachine()), s => s == START, r)
    ensures HoldsThroughout(cfg, Holds, r) && |Walk(r)| >= n
  {
    r := Forever(n);
    ForeverRuns(cfg, s => s == START, n);
    ForeverGrows(n);
  }

  lemma OneHead(cfg: Cfg)
    requires GraphOf(PROGRAM, cfg)
    ensures ToSet(TopLevelHeads(ORDER)) == {L0}
  {
    OrderIsValid(cfg);
  }

  /** However this program is prepared with this order, it has runs of any length, from zero
      registers and counters, along which every assertion holds. */
  lemma NestedLoopEscapes(
    plain: Cfg, cfg: Cfg, assertionsOf: (Instruction, Label) -> seq<Assertion>, n: nat) returns (r: Run<State>)
    requires GraphOf(PROGRAM, plain) && Annotated(plain, cfg, assertionsOf, ToSet(TopLevelHeads(ORDER)))
    ensures CfgRun(cfg, NodeStep(RegisterMachine()), s => s == START, r)
    ensures HoldsThroughout(cfg, Holds, r) && |Walk(r)| >= n
  {
    OneHead(plain);
    ProgramIsPrepared(plain, cfg, assertionsOf);
    r := RunsForever(cfg, n);
  }

  lemma ProgramIsCountable(cfg: Cfg)
    requires GraphOf(PROGRAM, cfg)
    ensures Countable(cfg, [L0]) && ToSet([L0]) == {L0} && L0 in cfg.neighbours
  {
    ProgramNodes(cfg, Counter(L0));
    ProgramNodes(cfg, L0);
  }

  /** A list whose graphs have room for a counter at one label. */
  method PrepareWithCounter(
    insts: seq<LabeledInstruction>, h: Label, assertionsOf: (Instruction, Label) -> seq<Assertion>)
    returns (builder: Builder, ghost plain: Cfg)
    requires PlainLabels(insts) && Acceptable(insts, true)
    requires forall cfg :: GraphOf(insts, cfg) ==> Countable(cfg, [h]) && h in cfg.neighbours
    ensures GraphOf(insts, plain) && Annotated(plain, builder.cfg, assertionsOf, {h})
  {
    var st;
    builder, st := FirstPass(insts, true);
    plain := builder.cfg;
    assert ToSet([h]) == {h};
    st := InsertCounters(builder, [h]);
    SetAssertions(builder, assertionsOf);
  }

  /** And it can be prepared: the translation, the counter and the assertions succeed. */
  method PrepareProgram(assertionsOf: (Instruction, Label) -> seq<Assertion>)
    returns (builder: Builder, ghost plain: Cfg)
    ensures GraphOf(PROGRAM, plain) && Annotated(plain, builder.cfg, assertionsOf, ToSet(TopLevelHeads(ORDER)))
  {
    ProgramIsAcceptable();
    ProgramJumps();
    forall cfg | GraphOf(PROGRAM, cfg)
      ensures Countable(cfg, [L0]) && L0 in cfg.neighbours
    {
      ProgramIsCountable(cfg);
    }
    builder, plain := PrepareWithCounter(PROGRAM, L0, assertionsOf);
    OneHead(plain);
  }
}
