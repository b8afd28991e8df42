/** A program with a loop in a local function. Its call is inlined without an error, the loop is cut,
    and an assertion that fails in the second round holds in all runs of the graph. */
module CutLoop {
  import opened AsmSyntax
  import opened ControlFlowGraph
  import opened AsmCfg
  import opened InstructionSeqToCfg
  import opened CfgMeaning
  import opened LabelTexts
  import opened CalleeWalk
  import opened InlinedFrame
  import opened CallLayout
  import opened CallMeaning
  import opened ListCalls
  import opened PrepareCfg
  import opened Inlining
  import opened LostLoops
  import opened ListVerdict
  import opened Machines
  import NestedLoops

  const L0: Label := InstructionLabel(0)
  const L1: Label := InstructionLabel(1)
  const L2: Label := InstructionLabel(2)
  const L3: Label := InstructionLabel(3)
  const L4: Label := InstructionLabel(4)

  const ZERO: Condition := Condition(EQ, 1, Imm(0), true)

  /** 0: call 2; 1: exit; 2: r3 += 1; 3: if r1 == 0 goto 2; 4: exit */
  const PROGRAM: seq<LabeledInstruction> := [
    LabeledInstruction(L0, CallLocal(L2, "")),
    LabeledInstruction(L1, Exit("")),
    LabeledInstruction(L2, Bin(ADD, 3, Imm(1), true, false)),
    LabeledInstruction(L3, Jmp(Some(ZERO), L2)),
    LabeledInstruction(L4, Exit(""))]

  /** The jump nodes. */
  const J32: Label := Label("", 3, 2, "")
  const J34: Label := Label("", 3, 4, "")

  const BODY: set<Label> := {L2, L3, J32, J34, L4}
  const BODIES: seq<set<Label>> := [BODY, BODY, BODY, BODY, BODY]
  const ORDER: seq<Label> := [L2, L3, J32, J34, L4]

  predicate IsEdge(x: Label, y: Label) {
    || (x == ENTRY && y == L0) || (x == L0 && y == L1) || (x == L1 && y == EXIT)
    || (x == L2 && y == L3) || (x == L3 && (y == J32 || y == J34))
    || (x == J32 && y == L2) || (x == J34 && y == L4) || (x == L4 && y == EXIT)
  }

  lemma ProgramJumps()
    ensures Splits(PROGRAM, 3) && TakenLabel(PROGRAM, 3) == J32 && NotTakenLabel(PROGRAM, 3) == J34
    ensures forall i :: Splits(PROGRAM, i) ==> i == 3
    ensures forall i :: Defined(PROGRAM, i) <==> 0 <= i < 5
    ensures PlainLabels(PROGRAM)
  {
  }

  lemma ProgramNodes(base: Cfg, l: Label)
    requires GraphOf(PROGRAM, base)
    ensures l in base.neighbours <==> l in {ENTRY, L0, L1, L2, L3, J32, J34, L4, EXIT}
  {
    ProgramJumps();
    assert IsJumpOf(PROGRAM, 3, J32) && IsJumpOf(PROGRAM, 3, J34);
    assert PROGRAM[0].lab == L0 && PROGRAM[1].lab == L1 && PROGRAM[2].lab == L2;
    assert PROGRAM[3].lab == L3 && PROGRAM[4].lab == L4;
  }

  function SuccessorsOf(i: nat): set<Label> {
    if i == 0 then {L1} else if i == 1 || i == 4 then {EXIT} else if i == 2 then {L3} else {J32, J34}
  }

  lemma ProgramSuccessors(i: nat)
    requires i < 5
    ensures PROGRAM[i].lab == InstructionLabel(i) && Successors(PROGRAM, i) == SuccessorsOf(i)
  {
    ProgramJumps();
  }

  lemma EdgesOfInstruction(base: Cfg, i: nat, y: Label)
    requires GraphOf(PROGRAM, base) && i < 5
    ensures base.Edge(InstructionLabel(i), y) <==> y in SuccessorsOf(i)
  {
    ProgramSuccessors(i);
    ProgramJumps();
    assert base.Edge(PROGRAM[i].lab, y) <==> y in Successors(PROGRAM, i);
  }

  lemma EdgesOfJumps(base: Cfg, y: Label)
    requires GraphOf(PROGRAM, base)
    ensures (base.Edge(J32, y) <==> y == L2) && (base.Edge(J34, y) <==> y == L4)
  {
    ProgramJumps();
    assert JumpNode(base, TakenLabel(PROGRAM, 3), ZERO, L2);
    assert JumpNode(base, NotTakenLabel(PROGRAM, 3), Reverse(ZERO), L4);
  }

  lemma ProgramEdges(base: Cfg, x: Label, y: Label)
    requires GraphOf(PROGRAM, base)
    ensures base.Edge(x, y) <==> IsEdge(x, y)
  {
    ProgramNodes(base, x);
    if x in {L0, L1, L2, L3, L4} {
      EdgesOfInstruction(base, x.from, y);
    } else if x in {J32, J34} {
      EdgesOfJumps(base, y);
    } else if x == ENTRY {
      assert PROGRAM[0].lab == L0;
    }
  }

  ghost predicate HasEdges(base: Cfg) {
    forall x, y :: base.Edge(x, y) <==> IsEdge(x, y)
  }

  lemma GraphHasEdges(base: Cfg)
    requires GraphOf(PROGRAM, base)
    ensures HasEdges(base)
  {
    forall x, y ensures base.Edge(x, y) <==> IsEdge(x, y) {
      ProgramEdges(base, x, y);
    }
  }

  lemma ProgramIsAcceptable()
    ensures Acceptable(PROGRAM, true)
  {
    ProgramJumps();
    forall k | 0 <= k < 5
      ensures Accepted(PROGRAM, k, true)
    {
      ProgramSuccessors(k);
      assert Targets(PROGRAM, k) == if k == 3 then {L2, L4} else SuccessorsOf(k);
      assert forall i :: 0 <= i < 5 ==> Defined(PROGRAM, i);
      assert PROGRAM[1].lab == L1 && PROGRAM[2].lab == L2 && PROGRAM[3].lab == L3 && PROGRAM[4].lab == L4;
    }
  }

  // ----- the walk over its function -----

  /** The next label, if all but one of the labels so far have no successor left. */
  lemma NextIs(base: Cfg, done: seq<Label>, parent: Label, l: Label)
    requires HasEdges(base) && parent in done && IsEdge(parent, l) && l != EXIT && l !in done
    requires forall p, x :: p in done && p != parent && IsEdge(p, x) ==> x == EXIT || x in done
    requires forall x :: IsEdge(parent, x) ==> x in done || LabelLeq(l, x)
    requires IsWalkPrefix(base, L2, done)
    ensures IsWalkPrefix(base, L2, done + [l])
  {
    assert base.Edge(parent, l);
    forall x | Ahead(base, done, x) ensures LabelLeq(l, x) {
      var p :| p in done && base.Edge(p, x);
      assert IsEdge(p, x);
    }
    WalkGrows(base, L2, done, l);
  }

  lemma WalkBegins(base: Cfg)
    requires HasEdges(base)
    ensures IsWalkPrefix(base, L2, [L2] + [L3] + [J32])
  {
    NextIs(base, [L2], L2, L3);
    NextIs(base, [L2] + [L3], L3, J32);
  }

  lemma WalkTurns(base: Cfg)
    requires HasEdges(base)
    ensures IsWalkPrefix(base, L2, [L2] + [L3] + [J32] + [J34])
  {
    WalkBegins(base);
    NextIs(base, [L2] + [L3] + [J32], L3, J34);
  }

  lemma TurnIsClosed(done: seq<Label>)
    requires done == [L2] + [L3] + [J32] + [J34]
    ensures J34 in done && L4 !in done
    ensures forall p, x :: p in done && p != J34 && IsEdge(p, x) ==> x == EXIT || x in done
  {
  }

  lemma WalkFinishes(base: Cfg)
    requires HasEdges(base)
    ensures IsWalkPrefix(base, L2, [L2] + [L3] + [J32] + [J34] + [L4])
  {
    WalkTurns(base);
    var done := [L2] + [L3] + [J32] + [J34];
    TurnIsClosed(done);
    NextIs(base, done, J34, L4);
  }

  lemma OrderIsSum()
    ensures ORDER == [L2] + [L3] + [J32] + [J34] + [L4]
  {
  }

  lemma OrderIsWalk(base: Cfg)
    requires HasEdges(base)
    ensures IsWalk(base, L2, ORDER)
  {
    OrderIsSum();
    WalkFinishes(base);
    NothingAhead(base);
  }

  lemma NothingAhead(base: Cfg)
    requires HasEdges(base)
    ensures forall l :: !Ahead(base, ORDER, l)
  {
    OrderIsClosed();
    forall l, p | p in ORDER && base.Edge(p, l) ensures l == EXIT || l in ORDER {
      assert IsEdge(p, l);
    }
  }

  lemma OrderIsClosed()
    ensures forall p, l :: p in ORDER && IsEdge(p, l) ==> l == EXIT || l in ORDER
  {
  }

  lemma OnlyWayBack(i: nat, j: nat)
    requires j <= i < |ORDER| && IsEdge(ORDER[i], ORDER[j])
    ensures j == 0
  {
  }

  /** The way back is an edge against the walk, to the label where the walk began. */
  lemma WalkedAgainst(base: Cfg)
    requires HasEdges(base)
    ensures base.Edge(J32, L2) && !Topological(base, ORDER) && !Rediscovers(base, L2, ORDER)
  {
    assert base.Edge(ORDER[2], ORDER[0]);
    forall i: nat, j: nat | j <= i < |ORDER| && base.Edge(ORDER[i], ORDER[j]) ensures j == 0 {
      assert IsEdge(ORDER[i], ORDER[j]);
      OnlyWayBack(i, j);
    }
  }

  lemma BodyCallsNothing(base: Cfg, l: Label)
    requires GraphOf(PROGRAM, base) && l in BODY
    ensures l in base.neighbours && !Calls(base, l)
  {
    ProgramNodes(base, l);
    CallIsListed(PROGRAM, base, l);
    forall i | IsCallAt(PROGRAM, i) ensures PROGRAM[i].lab == L0 {
    }
  }

  lemma CallIsFit(base: Cfg)
    requires GraphOf(PROGRAM, base) && IsBase(base)
    ensures Fits(base, base, BODY, L0, L2, L1, LabelText(L0))
  {
    GraphHasEdges(base);
    TextNotEmpty(L0);
    forall l | l in BODY ensures l in base.neighbours && !Calls(base, l) {
      BodyCallsNothing(base, l);
    }
    BodyIsFit(base, LabelText(L0));
  }

  lemma BodyIsFit(base: Cfg, prefix: string)
    requires IsBase(base) && HasEdges(base) && prefix != ""
    requires forall l :: l in BODY ==> l in base.neighbours && !Calls(base, l)
    ensures Fits(base, base, BODY, L0, L2, L1, prefix)
  {
  }

  /** The graph of the program, before its call is inlined. */
  method TranslateProgram() returns (builder: Builder)
    ensures fresh(builder) && builder.cfg.Valid() && GraphOf(PROGRAM, builder.cfg) && HasEdges(builder.cfg)
    ensures Shallow(builder.cfg) && IsBase(builder.cfg)
  {
    ProgramIsAcceptable();
    ProgramJumps();
    var st;
    builder, st := FirstPass(PROGRAM, true);
    LabelsShallow(PROGRAM, builder.cfg);
    GraphIsBase(PROGRAM, builder.cfg);
    GraphHasEdges(builder.cfg);
  }

  // ----- the graph with the call inlined -----

  lemma CallIsLeaf(base: Cfg)
    requires GraphOf(PROGRAM, base) && HasEdges(base) && IsBase(base)
    ensures LeafPlaced(base, base, BODY, L0, L2, L1) && OnlySuccessor(base, L0, L1)
  {
    CallIsFit(base);
    ProgramNodes(base, L0);
    ProgramJumps();
    assert PROGRAM[0].lab == L0 && base.instructions[L0].cmd == PROGRAM[0].ins;
    forall l | l in BODY ensures !Calls(base, l) {
      BodyCallsNothing(base, l);
    }
    OneWayFromCall(base);
  }

  lemma OneWayFromCall(base: Cfg)
    requires HasEdges(base)
    ensures OnlySuccessor(base, L0, L1)
  {
  }

  lemma OnlyCall(k: nat)
    requires k < 5
    ensures PROGRAM[k].ins.CallLocal? <==> k == 0
  {
  }

  /** The graph after the second pass: the frame of the one call. */
  lemma OneFrame(base: Cfg, g: Cfg)
    requires GraphOf(PROGRAM, base) && HasEdges(base) && IsBase(base) && Reached(PROGRAM, base, BODIES, 5, g)
    ensures Framed(base, g, L0, L1, LabelText(L0)) && FrameCopied(base, g, L0, L2, L1, ORDER)
    ensures L0 in g.instructions && g.instructions[L0].cmd == CallLocal(L2, LabelText(L0))
  {
    OnlyCall(4);
    OnlyCall(3);
    OnlyCall(2);
    OnlyCall(1);
    OnlyCall(0);
    assert Reached(PROGRAM, base, BODIES, 4, g) && Reached(PROGRAM, base, BODIES, 3, g);
    assert Reached(PROGRAM, base, BODIES, 2, g) && Reached(PROGRAM, base, BODIES, 1, g);
    CallIsLeaf(base);
    var exitTo :| CallDone(PROGRAM, base, BODY, 0, base, g, exitTo);
    OneReturn(base, L0, exitTo, L1);
    var order :| FrameCopied(base, g, L0, L2, L1, order);
    OrderIsWalk(base);
    WalkUnique(base, L2, order, ORDER);
  }

  lemma FunctionIsWaiting(base: Cfg)
    requires GraphOf(PROGRAM, base) && HasEdges(base) && IsBase(base)
    ensures CallersFirst(PROGRAM, base, BODIES)
  {
    CallIsLeaf(base);
    forall k | IsCallAt(PROGRAM, k)
      ensures FunctionWaits(PROGRAM, base, BODIES[k], k) && OnlySuccessor(base, PROGRAM[k].lab, L1)
    {
      OnlyCall(k);
    }
  }

  lemma TheCallFits(base: Cfg)
    requires GraphOf(PROGRAM, base) && HasEdges(base) && IsBase(base)
    ensures AllCallsFit(PROGRAM, base)
  {
    CallIsLeaf(base);
    OrderIsWalk(base);
    WalkedAgainst(base);
    FailsByWalk(base, L2, ORDER);
    FitsByWalk(base, L2, ORDER, FramesLeft(L0));
    forall k | IsCallAt(PROGRAM, k) ensures k == 0 {
      OnlyCall(k);
    }
  }

  lemma ProgramIsPlain()
    ensures PlainLabels(PROGRAM)
  {
  }

  method InlineCall(builder: Builder)
    requires builder.cfg.Valid() && GraphOf(PROGRAM, builder.cfg) && HasEdges(builder.cfg)
    requires Shallow(builder.cfg) && IsBase(builder.cfg)
    modifies builder
    ensures builder.cfg.Valid() && Reached(PROGRAM, old(builder.cfg), BODIES, 5, builder.cfg)
  {
    ProgramIsPlain();
    FunctionIsWaiting(builder.cfg);
    TheCallFits(builder.cfg);
    var st := InlineCalls(builder, PROGRAM, {}, BODY, BODIES);
  }

  /** The program is translated without an error, and the graph is known. */
  method InlineProgram() returns (builder: Builder, ghost base: Cfg)
    ensures builder.cfg.Valid() && GraphOf(PROGRAM, base) && HasEdges(base) && IsBase(base)
    ensures Framed(base, builder.cfg, L0, L1, LabelText(L0)) && FrameCopied(base, builder.cfg, L0, L2, L1, ORDER)
    ensures L0 in builder.cfg.instructions && builder.cfg.instructions[L0].cmd == CallLocal(L2, LabelText(L0))
  {
    builder := TranslateProgram();
    base := builder.cfg;
    InlineCall(builder);
    OneFrame(base, builder.cfg);
  }

  // ----- a machine, and an assertion -----

  const ZEROS: Regs := [0, 0, 0, 0, 0, 0, 0, 0, 0, 0, 0]
  const ROUND: Regs := ZEROS[3 := 1]

  /** Arithmetic on registers; nothing else changes them. */
  predicate Computes(i: Instruction, s: Regs, t: Regs) {
    t == if i.Bin? then NestedLoops.Result(i.binOp, i.dst, i.v, i.is64, s) else s
  }

  ghost function RegisterMachine(): Machine<Regs> {
    Machine((i: Instruction, s: Regs, t: Regs) => Computes(i, s, t), RegisterTest((s: Regs, r: Uint8) => Get(s, r)))
  }

  /** In front of an addition, register 3 must be zero. */
  function AssertionsOf(i: Instruction, l: Label): seq<Assertion> {
    if i.Bin? then [OtherAssertion(0)] else []
  }

  function Holds(q: Assertion, s: Regs): bool {
    Get(s, 3) == 0
  }

  lemma MachineIsComplementary()
    ensures Complementary(RegisterMachine())
  {
    RegistersAreComplementary(
      (i: Instruction, s: Regs, t: Regs) => Computes(i, s, t), (s: Regs, r: Uint8) => Get(s, r));
  }

  // ----- the program violates it -----

  lemma FirstRound()
    ensures Computes(PROGRAM[2].ins, ZEROS, ROUND)
  {
  }

  /** One round through the function, and the beginning of the second. */
  const SECOND_ROUND: Execution<Regs> :=
    Later(Later(Later(First(ZEROS), Spot([L0], L2), ZEROS), Spot([L0], L3), ROUND), Spot([L0], L2), ROUND)

  lemma StepIn(m: Machine<Regs>)
    requires m == RegisterMachine()
    ensures Is(PROGRAM, 0, L0) && ExecutionStep(m, PROGRAM, 0, Spot([], L0), ZEROS, Spot([L0], L2), ZEROS)
  {
    assert [] + [L0] == [L0];
  }

  lemma StepOn(m: Machine<Regs>)
    requires m == RegisterMachine()
    ensures Is(PROGRAM, 2, L2) && ExecutionStep(m, PROGRAM, 2, Spot([L0], L2), ZEROS, Spot([L0], L3), ROUND)
  {
    FirstRound();
    assert Goes(m, PROGRAM, 2, Spot([L0], L2), ZEROS, L3, Spot([L0], L3), ROUND);
  }

  /** The program goes back whenever register 1 is zero. */
  lemma StepBack<S(!new)>(m: Machine<S>, s: S)
    requires m.test(ZERO, s)
    ensures Is(PROGRAM, 3, L3) && ExecutionStep(m, PROGRAM, 3, Spot([L0], L3), s, Spot([L0], L2), s)
  {
    assert Goes(m, PROGRAM, 3, Spot([L0], L3), s, L2, Spot([L0], L2), s);
  }

  lemma Extend<S(!new)>(m: Machine<S>, init: S -> bool, e: Execution<S>, i: int, there: Spot, t: S)
    requires IsExecution(m, PROGRAM, init, e) && Is(PROGRAM, i, e.At(PROGRAM).at)
    requires ExecutionStep(m, PROGRAM, i, e.At(PROGRAM), e.state, there, t)
    ensures IsExecution(m, PROGRAM, init, Later(e, there, t))
  {
  }

  lemma ZeroIsZero(m: Machine<Regs>)
    requires m == RegisterMachine()
    ensures m.test(ZERO, ROUND)
  {
    assert Get(ROUND, 1) == 0 && Compare(EQ, true, 0, 0);
  }

  lemma SecondRoundIsReached(m: Machine<Regs>)
    requires m == RegisterMachine()
    ensures IsExecution(m, PROGRAM, s => s == ZEROS, SECOND_ROUND)
  {
    var init := s => s == ZEROS;
    var e0 := First(ZEROS);
    assert e0.At(PROGRAM) == Spot([], L0);
    StepIn(m);
    Extend(m, init, e0, 0, Spot([L0], L2), ZEROS);
    var e1 := Later(e0, Spot([L0], L2), ZEROS);
    StepOn(m);
    Extend(m, init, e1, 2, Spot([L0], L3), ROUND);
    var e2 := Later(e1, Spot([L0], L3), ROUND);
    ZeroIsZero(m);
    StepBack(m, ROUND);
    Extend(m, init, e2, 3, Spot([L0], L2), ROUND);
    RunCarries(m, init, s => s == ZEROS, SECOND_ROUND);
  }

  lemma {:induction false} RunCarries<S(!new)>(m: Machine<S>, init: S -> bool, other: S -> bool, e: Execution<S>)
    requires IsExecution(m, PROGRAM, init, e) && forall s :: init(s) ==> other(s)
    ensures IsExecution(m, PROGRAM, other, e)
  {
    if e.Later? {
      RunCarries(m, init, other, e.before);
    }
  }

  /** In the second round the assertion fails. */
  lemma ProgramIsUnsafe()
    ensures !ProgramIsSafe(RegisterMachine(), PROGRAM, Holds, AssertionsOf, s => s == ZEROS)
  {
    SecondRoundIsReached(RegisterMachine());
    assert Is(PROGRAM, 2, SECOND_ROUND.At(PROGRAM).at);
    assert OtherAssertion(0) in AssertionsOf(InstructionAt(PROGRAM[2].ins, SECOND_ROUND.At(PROGRAM)),
                                             NodeOf(SECOND_ROUND.At(PROGRAM)));
    assert !Holds(OtherAssertion(0), SECOND_ROUND.state);
  }

  // ----- the graph does not -----

  function Copy(l: Label): Label {
    Clone(l, LabelText(L0))
  }

  /** The labels in front of and at the addition, and the others that runs come to. */
  predicate Before(l: Label) {
    l == ENTRY || l == L0 || l == Copy(L2)
  }

  predicate Behind(l: Label) {
    l == Copy(L3) || l == Copy(J32) || l == Copy(J34) || l == Copy(L4) || l == L1 || l == EXIT
  }

  lemma EdgesOfCopy(base: Cfg, g: Cfg, i: nat, y: Label)
    requires HasEdges(base) && EdgesCopied(base, g, L1, LabelText(L0), ORDER) && i < 5
    requires g.Edge(Copy(ORDER[i]), y)
    ensures Behind(y)
  {
    assert ORDER[2] == J32;
    CutAt(base, g, ORDER);
    if i != 2 {
      var x :| base.Edge(ORDER[i], x) && y == Landing(x, LabelText(L0), L1);
      assert IsEdge(ORDER[i], x);
    }
  }

  lemma CutAt(base: Cfg, g: Cfg, order: seq<Label>)
    requires HasEdges(base) && EdgesCopied(base, g, L1, LabelText(L0), order)
    requires |order| == 5 && order[0] == L2 && order[2] == J32
    ensures forall y :: !g.Edge(Copy(J32), y)
  {
    assert IsEdge(J32, L2);
    assert forall x :: base.Edge(order[2], x) ==> IsEdge(J32, x);
    DeadEnd(base, g, L1, LabelText(L0), order, 2, 0);
  }

  lemma CopyIsInOrder(l: Label)
    requires l == Copy(L2) || (Behind(l) && l != L1 && l != EXIT)
    ensures exists i :: 0 <= i < 5 && l == Copy(ORDER[i])
  {
    assert ORDER[0] == L2 && ORDER[1] == L3 && ORDER[2] == J32 && ORDER[3] == J34 && ORDER[4] == L4;
  }

  lemma OutsideTheFrame(base: Cfg, g: Cfg, l: Label, y: Label)
    requires HasEdges(base) && Framed(base, g, L0, L1, LabelText(L0)) && l in {ENTRY, L1, EXIT} && l in base.neighbours
    requires g.Edge(l, y)
    ensures IsEdge(l, y)
  {
    TextNotEmpty(L0);
    assert Outside(l, L0, LabelText(L0)) && SameNode(base, g, l);
  }

  /** Runs stay in front of the addition or behind it, and never come back. */
  lemma EdgesOfCut(base: Cfg, g: Cfg, x: Label, y: Label)
    requires GraphOf(PROGRAM, base) && HasEdges(base) && Framed(base, g, L0, L1, LabelText(L0))
    requires FrameCopied(base, g, L0, L2, L1, ORDER)
    requires (Before(x) || Behind(x)) && g.Edge(x, y)
    ensures if x == ENTRY then y == L0 else if x == L0 then y == Copy(L2) else Behind(y)
  {
    if x == Copy(L2) || (Behind(x) && x != L1 && x != EXIT) {
      CopyIsInOrder(x);
      var i :| 0 <= i < 5 && x == Copy(ORDER[i]);
      CopyIsNot(x);
      EdgesOfCopy(base, g, i, y);
    } else if x != L0 {
      ProgramNodes(base, x);
      OutsideTheFrame(base, g, x, y);
    }
  }

  lemma CopyIsNot(x: Label)
    requires exists l :: x == Copy(l)
    ensures x != ENTRY && x != L0 && x != L1 && x != EXIT
  {
    TextNotEmpty(L0);
  }

  // ----- the verdict -----

  lemma CommandInFunction(base: Cfg, l: Label)
    requires GraphOf(PROGRAM, base) && l in ORDER && l != L2
    ensures l in base.instructions && !base.instructions[l].cmd.Bin?
  {
    ProgramJumps();
    ProgramNodes(base, l);
    if l == J32 || l == J34 {
      assert JumpNode(base, TakenLabel(PROGRAM, 3), ZERO, L2);
      assert JumpNode(base, NotTakenLabel(PROGRAM, 3), Reverse(ZERO), L4);
    } else {
      assert PROGRAM[3].lab == L3 && PROGRAM[4].lab == L4;
      assert base.instructions[L3].cmd == PROGRAM[3].ins && base.instructions[L4].cmd == PROGRAM[4].ins;
    }
  }

  lemma CommandOfCopy(base: Cfg, g: Cfg, l: Label)
    requires GraphOf(PROGRAM, base) && NodesCopied(base, g, LabelText(L0), ORDER)
    requires l in ORDER && l != L2 && Copy(l) in g.instructions
    ensures !g.instructions[Copy(l)].cmd.Bin?
  {
    CommandInFunction(base, l);
  }

  lemma CommandOutside(base: Cfg, g: Cfg, l: Label)
    requires GraphOf(PROGRAM, base) && Framed(base, g, L0, L1, LabelText(L0)) && l in {ENTRY, L1, EXIT}
    ensures l in g.instructions && !g.instructions[l].cmd.Bin?
  {
    TextNotEmpty(L0);
    ProgramJumps();
    ProgramNodes(base, l);
    assert PROGRAM[1].lab == L1 && base.instructions[L1].cmd == PROGRAM[1].ins;
    assert Outside(l, L0, LabelText(L0)) && SameNode(base, g, l);
  }

  /** Behind the addition nothing is asserted. */
  lemma NothingAsserted(base: Cfg, g: Cfg, l: Label)
    requires GraphOf(PROGRAM, base) && Framed(base, g, L0, L1, LabelText(L0))
    requires FrameCopied(base, g, L0, L2, L1, ORDER) && Behind(l) && l in g.instructions
    ensures !g.instructions[l].cmd.Bin?
  {
    if l == L1 || l == EXIT {
      CommandOutside(base, g, l);
    } else {
      var inner := Label("", l.from, l.to, "");
      assert l == Copy(inner) && inner in ORDER;
      CommandOfCopy(base, g, inner);
    }
  }

  lemma EntryDoesNothing(base: Cfg, g: Cfg)
    requires GraphOf(PROGRAM, base) && Framed(base, g, L0, L1, LabelText(L0))
    ensures ENTRY in g.instructions && g.instructions[ENTRY].cmd == Undefined(0)
  {
    TextNotEmpty(L0);
    assert Outside(ENTRY, L0, LabelText(L0)) && SameNode(base, g, ENTRY);
  }

  ghost predicate CutEdge(g: Cfg, x: Label, y: Label) {
    (Before(x) || Behind(x)) && g.Edge(x, y) ==>
      if x == ENTRY then y == L0 else if x == L0 then y == Copy(L2) else Behind(y)
  }

  ghost predicate CutGraph(g: Cfg) {
    && (forall x, y :: CutEdge(g, x, y))
    && ENTRY in g.instructions && g.instructions[ENTRY].cmd == Undefined(0)
    && L0 in g.instructions && g.instructions[L0].cmd.CallLocal?
    && (forall l :: Behind(l) && l in g.instructions ==> !g.instructions[l].cmd.Bin?)
  }

  lemma GraphIsCut(base: Cfg, g: Cfg)
    requires GraphOf(PROGRAM, base) && HasEdges(base) && Framed(base, g, L0, L1, LabelText(L0))
    requires FrameCopied(base, g, L0, L2, L1, ORDER)
    requires L0 in g.instructions && g.instructions[L0].cmd.CallLocal?
    ensures CutGraph(g)
  {
    EntryDoesNothing(base, g);
    forall x, y ensures CutEdge(g, x, y) {
      if (Before(x) || Behind(x)) && g.Edge(x, y) {
        EdgesOfCut(base, g, x, y);
      }
    }
    forall l | Behind(l) && l in g.instructions ensures !g.instructions[l].cmd.Bin? {
      NothingAsserted(base, g, l);
    }
  }

  /** Up to the addition the registers are as they were. */
  lemma {:induction false} StaysZero(g: Cfg, m: Machine<Regs>, r: Run<Regs>)
    requires CutGraph(g) && m == RegisterMachine() && CfgRun(g, NodeStep(m), s => s == ZEROS, r)
    ensures (Before(r.At()) && r.state == ZEROS) || Behind(r.At())
  {
    if r.Then? {
      StaysZero(g, m, r.before);
      assert CutEdge(g, r.before.At(), r.At());
    }
  }

  lemma CutGraphIsSafe(g: Cfg, m: Machine<Regs>)
    requires CutGraph(g) && m == RegisterMachine()
    ensures GraphIsSafe(m, g, Holds, AssertionsOf, s => s == ZEROS)
  {
    forall r, q |
      CfgRun(g, NodeStep(m), s => s == ZEROS, r) && r.At() in g.instructions
      && q in AssertionsOf(g.instructions[r.At()].cmd, r.At())
      ensures Holds(q, r.state)
    {
      StaysZero(g, m, r);
      assert Before(r.At()) ==> Holds(q, r.state);
    }
  }

  /** All of it: the call is inlined without an error, and the assertion holds in all runs of the
      graph although the program violates it. */
  method LoopIsCut() returns (builder: Builder)
    ensures builder.cfg.Valid() && GraphIsSafe(RegisterMachine(), builder.cfg, Holds, AssertionsOf, s => s == ZEROS)
    ensures !ProgramIsSafe(RegisterMachine(), PROGRAM, Holds, AssertionsOf, s => s == ZEROS)
    ensures Complementary(RegisterMachine())
  {
    MachineIsComplementary();
    ghost var base;
    builder, base := InlineProgram();
    GraphIsCut(base, builder.cfg);
    CutGraphIsSafe(builder.cfg, RegisterMachine());
    ProgramIsUnsafe();
  }
}
