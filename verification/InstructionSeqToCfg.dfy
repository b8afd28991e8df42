/** From an instruction list to a graph (instruction_seq_to_cfg in src/asm_cfg.cpp). */
module InstructionSeqToCfg {
  import opened AsmSyntax
  import opened ControlFlowGraph
  import opened AsmCfg

  datatype LabeledInstruction = LabeledInstruction(lab: Label, ins: Instruction)

  /** Labels are instruction indices, as the decoder makes them. */
  ghost predicate PlainLabels(insts: seq<LabeledInstruction>) {
    forall i :: 0 <= i < |insts| ==>
      && insts[i].lab == InstructionLabel(insts[i].lab.from)
      && (insts[i].ins.Jmp? ==> insts[i].ins.target == InstructionLabel(insts[i].ins.target.from))
  }

  // ----- conditions -----

  function ReverseOp(op: CondOp): CondOp {
    match op
    case EQ => NE
    case NE => EQ
    case GE => LT
    case LT => GE
    case SGE => SLT
    case SLT => SGE
    case LE => GT
    case GT => LE
    case SLE => SGT
    case SGT => SLE
    case SET => NSET
    case NSET => SET
  }

  function Reverse(c: Condition): Condition {
    c.(op := ReverseOp(c.op))
  }

  /** The lowest bits of a number, read with a sign. */
  function Signed(v: Uint64, width: int): int
    requires width > 0
  {
    if v % width >= width / 2 then v % width - width else v % width
  }

  /** The bitwise conjunction of two numbers is not zero. */
  function CommonBit(a: nat, b: nat): bool {
    a != 0 && ((a % 2 == 1 && b % 2 == 1) || CommonBit(a / 2, b / 2))
  }

  /** A comparison of two registers, of 64 bits or of their low 32 bits. */
  function Compare(op: CondOp, is64: bool, x: Uint64, y: Uint64): bool {
    var width := if is64 then TWO_64 else TWO_32;
    var a := x % width;
    var b := y % width;
    match op
    case EQ => a == b
    case NE => a != b
    case SET => CommonBit(a, b)
    case NSET => !CommonBit(a, b)
    case LT => a < b
    case LE => a <= b
    case GT => a > b
    case GE => a >= b
    case SLT => Signed(x, width) < Signed(y, width)
    case SLE => Signed(x, width) <= Signed(y, width)
    case SGT => Signed(x, width) > Signed(y, width)
    case SGE => Signed(x, width) >= Signed(y, width)
  }

  lemma ReverseComplements(op: CondOp, is64: bool, x: Uint64, y: Uint64)
    ensures Compare(ReverseOp(op), is64, x, y) == !Compare(op, is64, x, y)
  {
  }

  // ----- the machine -----

  /** What the machine does with an instruction that is no jump, and how it decides
      conditions. */
  datatype Machine<!S> = Machine(run: (Instruction, S, S) -> bool, test: (Condition, S) -> bool)

  ghost predicate Complementary<S(!new)>(m: Machine<S>) {
    forall c, s :: m.test(Reverse(c), s) == !m.test(c, s)
  }

  /** Conditions over a register file. */
  function RegisterTest<S(!new)>(register: (S, Uint8) -> Uint64): (Condition, S) -> bool {
    (c: Condition, s: S) =>
      Compare(c.op, c.is64, register(s, c.left), if c.right.Imm? then c.right.imm else register(s, c.right.reg))
  }

  /** A condition and its reverse never agree, whatever the registers hold. */
  lemma RegistersAreComplementary<S(!new)>(run: (Instruction, S, S) -> bool, register: (S, Uint8) -> Uint64)
    ensures Complementary(Machine(run, RegisterTest(register)))
  {
    var m := Machine(run, RegisterTest(register));
    forall c, s
      ensures m.test(Reverse(c), s) == !m.test(c, s)
    {
      ReverseComplements(c.op, c.is64, register(s, c.left),
        if c.right.Imm? then c.right.imm else register(s, c.right.reg));
    }
  }

  /** One instruction as a node of the graph: jumps are decided by the Assume behind them, and the
      exit does something only if it leaves a local function. */
  ghost function NodeStep<S(!new)>(m: Machine<S>): (Instruction, S, S) -> bool {
    (i: Instruction, s: S, t: S) =>
      match i
      case Assume(c, _) => s == t && m.test(c, s)
      case Jmp(_, _) => s == t
      case Exit(frame) => if frame == "" then s == t else m.run(i, s, t)
      case Undefined(_) => s == t
      case _ => m.run(i, s, t)
  }

  predicate HasFall(ins: Instruction) {
    !ins.Exit? && !(ins.Jmp? && ins.cond.None?)
  }

  predicate Defined(insts: seq<LabeledInstruction>, i: int) {
    0 <= i < |insts| && !insts[i].ins.Undefined?
  }

  function Fallthrough(insts: seq<LabeledInstruction>, i: int): Label
    requires 0 <= i < |insts|
  {
    if i + 1 < |insts| then insts[i + 1].lab else EXIT
  }

  /** A conditional jump that does not lead to the next instruction anyway. */
  predicate Splits(insts: seq<LabeledInstruction>, i: int) {
    && 0 <= i < |insts| && insts[i].ins.Jmp? && insts[i].ins.cond.Some?
    && insts[i].ins.target != Fallthrough(insts, i)
  }

  function TakenLabel(insts: seq<LabeledInstruction>, i: int): Label
    requires Splits(insts, i)
  {
    Label.MakeJump(insts[i].lab, insts[i].ins.target)
  }

  function NotTakenLabel(insts: seq<LabeledInstruction>, i: int): Label
    requires Splits(insts, i)
  {
    Label.MakeJump(insts[i].lab, Fallthrough(insts, i))
  }

  function Successors(insts: seq<LabeledInstruction>, i: int): set<Label>
    requires 0 <= i < |insts|
  {
    if Splits(insts, i) then {TakenLabel(insts, i), NotTakenLabel(insts, i)}
    else if insts[i].ins.Jmp? then {insts[i].ins.target}
    else if insts[i].ins.Exit? then {EXIT}
    else {Fallthrough(insts, i)}
  }

  // ----- the graph of a list -----

  ghost predicate IsInstructionLabel(insts: seq<LabeledInstruction>, l: Label) {
    exists i :: Defined(insts, i) && insts[i].lab == l
  }

  /** l is one of the two jump nodes of instruction i. */
  ghost predicate IsJumpOf(insts: seq<LabeledInstruction>, i: int, l: Label) {
    Splits(insts, i) && (l == TakenLabel(insts, i) || l == NotTakenLabel(insts, i))
  }

  ghost predicate IsJumpBelow(insts: seq<LabeledInstruction>, k: int, l: Label) {
    exists i :: i < k && IsJumpOf(insts, i, l)
  }

  ghost predicate JumpNode(cfg: Cfg, l: Label, c: Condition, target: Label) {
    && l in cfg.neighbours && l in cfg.instructions
    && cfg.instructions[l].cmd == Assume(c, true)
    && (forall y :: cfg.Edge(l, y) <==> y == target)
  }

  /** Instruction labels are distinct and neither the entry nor the exit. */
  ghost predicate LabelsApart(insts: seq<LabeledInstruction>) {
    && (forall i, j :: Defined(insts, i) && Defined(insts, j) && insts[i].lab == insts[j].lab ==> i == j)
    && (forall i :: Defined(insts, i) ==> insts[i].lab != ENTRY && insts[i].lab != EXIT)
  }

  /** The jump nodes of the first k instructions are distinct and not instructions. */
  ghost predicate JumpsApart(insts: seq<LabeledInstruction>, k: int) {
    && (forall i, l :: i < k && IsJumpOf(insts, i, l) ==> l != ENTRY && l != EXIT && !IsInstructionLabel(insts, l))
    && (forall i, j, l :: i < k && j < k && IsJumpOf(insts, i, l) && IsJumpOf(insts, j, l) ==> i == j)
    && (forall i :: i < k && Splits(insts, i) ==> TakenLabel(insts, i) != NotTakenLabel(insts, i))
  }

  ghost predicate Nodes(insts: seq<LabeledInstruction>, k: int, cfg: Cfg) {
    && cfg.neighbours.Keys == cfg.instructions.Keys
    && (forall l :: l in cfg.neighbours <==>
          l == ENTRY || l == EXIT || IsInstructionLabel(insts, l) || IsJumpBelow(insts, k, l))
    && ENTRY in cfg.instructions && cfg.instructions[ENTRY].cmd == Undefined(0)
    && EXIT in cfg.instructions && cfg.instructions[EXIT].cmd == Undefined(0)
    && (forall i :: Defined(insts, i) ==>
          insts[i].lab in cfg.instructions && cfg.instructions[insts[i].lab].cmd == insts[i].ins)
  }

  ghost predicate InstructionEdges(insts: seq<LabeledInstruction>, k: int, cfg: Cfg) {
    forall i, y :: Defined(insts, i) ==>
      (cfg.Edge(insts[i].lab, y) <==> i < k && y in Successors(insts, i))
  }

  ghost predicate JumpNodes(insts: seq<LabeledInstruction>, k: int, cfg: Cfg) {
    forall i :: i < k && Splits(insts, i) ==>
      && JumpNode(cfg, TakenLabel(insts, i), insts[i].ins.cond.value, insts[i].ins.target)
      && JumpNode(cfg, NotTakenLabel(insts, i), Reverse(insts[i].ins.cond.value), Fallthrough(insts, i))
  }

  /** The graph with all instructions inserted and the first k of them connected. */
  ghost predicate Connected(insts: seq<LabeledInstruction>, k: int, cfg: Cfg) {
    && cfg.Valid() && LabelsApart(insts) && JumpsApart(insts, k)
    && Nodes(insts, k, cfg) && InstructionEdges(insts, k, cfg) && JumpNodes(insts, k, cfg)
  }

  /** Where instruction k may lead, its jump nodes left out. */
  function Targets(insts: seq<LabeledInstruction>, k: int): set<Label>
    requires 0 <= k < |insts|
  {
    if Splits(insts, k) then {insts[k].ins.target, Fallthrough(insts, k)} else Successors(insts, k)
  }

  ghost predicate Accepted(insts: seq<LabeledInstruction>, k: int, mustHaveExit: bool)
    requires 0 <= k < |insts|
  {
    Defined(insts, k) ==>
      && (forall l :: l in Targets(insts, k) ==> l == EXIT || IsInstructionLabel(insts, l))
      && (mustHaveExit && k + 1 == |insts| ==> !HasFall(insts[k].ins))
  }

  /** The lists that are translated: not empty, with distinct labels, beginning at and
      leading only to instructions or the exit, and, if asked for, not
      running off the end. */
  ghost predicate Acceptable(insts: seq<LabeledInstruction>, mustHaveExit: bool) {
    && insts != [] && LabelsApart(insts)
    && (insts[0].lab == EXIT || IsInstructionLabel(insts, insts[0].lab))
    && forall k :: 0 <= k < |insts| ==> Accepted(insts, k, mustHaveExit)
  }

  /** The finished graph: the entry leads to the first instruction. */
  ghost predicate GraphOf(insts: seq<LabeledInstruction>, cfg: Cfg) {
    && insts != [] && Connected(insts, |insts|, cfg)
    && cfg.neighbours[ENTRY].children == {insts[0].lab}
  }

  lemma SameChildren(cfg: Cfg, next: Cfg, l: Label)
    requires l in cfg.neighbours && l in next.neighbours
    requires forall y :: next.Edge(l, y) <==> cfg.Edge(l, y)
    ensures next.neighbours[l].children == cfg.neighbours[l].children
  {
    forall y
      ensures y in next.neighbours[l].children <==> y in cfg.neighbours[l].children
    {
      assert next.Edge(l, y) <==> cfg.Edge(l, y);
    }
  }

  lemma OnlyChild(cfg: Cfg, l: Label, child: Label)
    requires l in cfg.neighbours
    requires forall y :: cfg.Edge(l, y) <==> y == child
    ensures cfg.neighbours[l].children == {child}
  {
    forall y
      ensures y in cfg.neighbours[l].children <==> y == child
    {
      assert cfg.Edge(l, y) <==> y == child;
    }
  }

  ghost predicate IsLabelBelow(insts: seq<LabeledInstruction>, k: int, l: Label) {
    exists i :: i < k && Defined(insts, i) && insts[i].lab == l
  }

  ghost predicate Inserted(insts: seq<LabeledInstruction>, k: int, cfg: Cfg) {
    && cfg.Valid()
    && (forall i, j ::
          i < k && j < k && Defined(insts, i) && Defined(insts, j) && insts[i].lab == insts[j].lab ==> i == j)
    && (forall i :: i < k && Defined(insts, i) ==>
          && insts[i].lab != ENTRY && insts[i].lab != EXIT
          && insts[i].lab in cfg.instructions
          && cfg.instructions[insts[i].lab].cmd == insts[i].ins)
    && (forall l :: l in cfg.neighbours <==>
          l == ENTRY || l == EXIT || IsLabelBelow(insts, k, l))
    && cfg.instructions[ENTRY].cmd == Undefined(0) && cfg.instructions[EXIT].cmd == Undefined(0)
    && (forall x, y :: !cfg.Edge(x, y))
  }

  lemma InsertNext(insts: seq<LabeledInstruction>, k: int, cfg: Cfg)
    requires 0 <= k < |insts| && Inserted(insts, k, cfg)
    requires Defined(insts, k) ==> insts[k].lab !in cfg.neighbours
    ensures Inserted(insts, k + 1, if Defined(insts, k) then WithNode(cfg, insts[k].lab, insts[k].ins) else cfg)
  {
    forall l
      ensures IsLabelBelow(insts, k + 1, l) <==> IsLabelBelow(insts, k, l) || (Defined(insts, k) && l == insts[k].lab)
    {
    }
    if Defined(insts, k) {
      WithNodeValid(cfg, insts[k].lab, insts[k].ins);
      assert forall i :: i < k && Defined(insts, i) ==> IsLabelBelow(insts, k, insts[i].lab);
    }
  }

  /** All instructions become nodes without edges. */
  method InsertInstructions(builder: Builder, insts: seq<LabeledInstruction>) returns (st: Status)
    requires Inserted(insts, 0, builder.cfg)
    modifies builder
    ensures builder.cfg.Valid()
    ensures st.Done? ==> Inserted(insts, |insts|, builder.cfg)
    ensures st.Failed? ==> !LabelsApart(insts)
  {
    for k := 0 to |insts|
      invariant Inserted(insts, k, builder.cfg)
    {
      ghost var before := builder.cfg;
      if !insts[k].ins.Undefined? {
        st := builder.Insert(insts[k].lab, insts[k].ins);
        if st.Failed? {
          assert Defined(insts, k);
          return;
        }
      }
      InsertNext(insts, k, before);
    }
    return Done;
  }

  /** One more instruction whose edges lead straight to other instructions. */
  lemma ConnectStraight(insts: seq<LabeledInstruction>, k: int, cfg: Cfg, next: Cfg)
    requires 0 <= k < |insts| && Connected(insts, k, cfg) && next.Valid()
    requires next.neighbours.Keys == cfg.neighbours.Keys && next.instructions == cfg.instructions
    requires !Splits(insts, k)
    requires forall x, y :: next.Edge(x, y) <==>
               cfg.Edge(x, y) || (Defined(insts, k) && x == insts[k].lab && y in Successors(insts, k))
    ensures Connected(insts, k + 1, next)
    ensures next.neighbours[ENTRY].children == cfg.neighbours[ENTRY].children
  {
    assert forall i, l :: IsJumpOf(insts, i, l) && i < k + 1 ==> i < k;
    assert JumpsApart(insts, k + 1);
    SameChildren(cfg, next, ENTRY);
    assert Nodes(insts, k + 1, next) by {
      forall l
        ensures IsJumpBelow(insts, k + 1, l) <==> IsJumpBelow(insts, k, l)
      {
      }
    }
    assert JumpNodes(insts, k + 1, next) by {
      forall i | i < k && Splits(insts, i)
        ensures JumpNode(next, TakenLabel(insts, i), insts[i].ins.cond.value, insts[i].ins.target)
        ensures JumpNode(next, NotTakenLabel(insts, i), Reverse(insts[i].ins.cond.value), Fallthrough(insts, i))
      {
        assert IsJumpOf(insts, i, TakenLabel(insts, i)) && IsJumpOf(insts, i, NotTakenLabel(insts, i));
      }
    }
  }

  /** The two jump nodes of a conditional jump and their edges. */
  ghost predicate SplitEdge(insts: seq<LabeledInstruction>, k: int, x: Label, y: Label)
    requires Splits(insts, k)
  {
    || (x == insts[k].lab && y in Successors(insts, k))
    || (x == TakenLabel(insts, k) && y == insts[k].ins.target)
    || (x == NotTakenLabel(insts, k) && y == Fallthrough(insts, k))
  }

  ghost predicate SplitKeys(insts: seq<LabeledInstruction>, k: int, cfg: Cfg, next: Cfg)
    requires Splits(insts, k)
  {
    var taken, other := TakenLabel(insts, k), NotTakenLabel(insts, k);
    && taken !in cfg.neighbours && other !in cfg.neighbours && taken != other
    && next.neighbours.Keys == cfg.neighbours.Keys + {taken, other}
    && next.instructions ==
       cfg.instructions[taken := GuardedInstruction(Assume(insts[k].ins.cond.value, true), [])]
                       [other := GuardedInstruction(Assume(Reverse(insts[k].ins.cond.value), true), [])]
  }

  ghost predicate SplitInto(insts: seq<LabeledInstruction>, k: int, cfg: Cfg, next: Cfg)
    requires Splits(insts, k)
  {
    && SplitKeys(insts, k, cfg, next)
    && forall x, y :: next.Edge(x, y) <==> cfg.Edge(x, y) || SplitEdge(insts, k, x, y)
  }

  lemma SplitApart(insts: seq<LabeledInstruction>, k: int, cfg: Cfg, next: Cfg)
    requires Splits(insts, k) && JumpsApart(insts, k) && Nodes(insts, k, cfg)
    requires SplitKeys(insts, k, cfg, next)
    ensures JumpsApart(insts, k + 1)
  {
    forall i, l | i < k && IsJumpOf(insts, i, l)
      ensures l in cfg.neighbours
    {
      assert IsJumpBelow(insts, k, l);
    }
    assert forall i, l :: i < k + 1 && IsJumpOf(insts, i, l) ==> i == k || i < k;
  }

  lemma JumpsBelowNext(insts: seq<LabeledInstruction>, k: int, l: Label)
    requires Splits(insts, k)
    ensures IsJumpBelow(insts, k + 1, l) <==>
            IsJumpBelow(insts, k, l) || l == TakenLabel(insts, k) || l == NotTakenLabel(insts, k)
  {
    if IsJumpBelow(insts, k + 1, l) {
      var i :| i < k + 1 && IsJumpOf(insts, i, l);
      assert i == k || IsJumpBelow(insts, k, l);
    } else {
      assert !IsJumpOf(insts, k, l);
    }
  }

  lemma SplitKnown(insts: seq<LabeledInstruction>, k: int, cfg: Cfg, next: Cfg, l: Label)
    requires Splits(insts, k) && Nodes(insts, k, cfg) && SplitKeys(insts, k, cfg, next)
    ensures l in next.neighbours <==>
            l == ENTRY || l == EXIT || IsInstructionLabel(insts, l) || IsJumpBelow(insts, k + 1, l)
  {
    JumpsBelowNext(insts, k, l);
  }

  lemma SplitKeeps(insts: seq<LabeledInstruction>, k: int, cfg: Cfg, next: Cfg, l: Label)
    requires Splits(insts, k) && SplitKeys(insts, k, cfg, next)
    requires cfg.neighbours.Keys == cfg.instructions.Keys && l in cfg.instructions
    ensures l in next.instructions && next.instructions[l] == cfg.instructions[l]
  {
  }

  lemma SplitNodes(insts: seq<LabeledInstruction>, k: int, cfg: Cfg, next: Cfg)
    requires Splits(insts, k) && Nodes(insts, k, cfg) && cfg.neighbours.Keys == cfg.instructions.Keys
    requires SplitKeys(insts, k, cfg, next)
    ensures Nodes(insts, k + 1, next)
  {
    forall l
      ensures l in next.neighbours <==>
              l == ENTRY || l == EXIT || IsInstructionLabel(insts, l) || IsJumpBelow(insts, k + 1, l)
    {
      SplitKnown(insts, k, cfg, next, l);
    }
    forall l | l in cfg.instructions
      ensures l in next.instructions && next.instructions[l] == cfg.instructions[l]
    {
      SplitKeeps(insts, k, cfg, next, l);
    }
  }

  lemma SplitEdges(insts: seq<LabeledInstruction>, k: int, cfg: Cfg, next: Cfg)
    requires Splits(insts, k) && LabelsApart(insts) && Nodes(insts, k, cfg) && InstructionEdges(insts, k, cfg)
    requires SplitInto(insts, k, cfg, next)
    ensures InstructionEdges(insts, k + 1, next)
  {
    assert Defined(insts, k);
    forall i, y | Defined(insts, i)
      ensures next.Edge(insts[i].lab, y) <==> i < k + 1 && y in Successors(insts, i)
    {
      assert insts[i].lab in cfg.neighbours;
    }
  }

  lemma SplitJumps(insts: seq<LabeledInstruction>, k: int, cfg: Cfg, next: Cfg)
    requires Splits(insts, k) && JumpsApart(insts, k) && JumpNodes(insts, k, cfg)
    requires insts[k].lab in cfg.neighbours
    requires SplitInto(insts, k, cfg, next)
    ensures JumpNodes(insts, k + 1, next)
  {
    assert Defined(insts, k);
    forall i | i < k && Splits(insts, i)
      ensures JumpNode(next, TakenLabel(insts, i), insts[i].ins.cond.value, insts[i].ins.target)
      ensures JumpNode(next, NotTakenLabel(insts, i), Reverse(insts[i].ins.cond.value), Fallthrough(insts, i))
    {
      assert IsJumpOf(insts, i, TakenLabel(insts, i)) && IsJumpOf(insts, i, NotTakenLabel(insts, i));
    }
  }

  lemma ConnectSplit(insts: seq<LabeledInstruction>, k: int, cfg: Cfg, next: Cfg)
    requires Splits(insts, k) && Connected(insts, k, cfg) && next.Valid() && SplitInto(insts, k, cfg, next)
    ensures Connected(insts, k + 1, next)
    ensures next.neighbours[ENTRY].children == cfg.neighbours[ENTRY].children
  {
    assert Defined(insts, k) && insts[k].lab in cfg.neighbours;
    SameChildren(cfg, next, ENTRY);
    SplitApart(insts, k, cfg, next);
    SplitNodes(insts, k, cfg, next);
    SplitEdges(insts, k, cfg, next);
    SplitJumps(insts, k, cfg, next);
  }

  /** Jump nodes of plain labels never clash with anything in the graph. */
  lemma FreshJump(insts: seq<LabeledInstruction>, k: int, cfg: Cfg, to: Label)
    requires PlainLabels(insts) && Defined(insts, k) && LabelsApart(insts) && Nodes(insts, k, cfg)
    requires to == InstructionLabel(to.from) && to != ENTRY
    ensures Label.MakeJump(insts[k].lab, to) !in cfg.neighbours
  {
    assert forall i :: i < k && Splits(insts, i) ==> Defined(insts, i);
  }

  /** The jump nodes of a conditional jump. */
  method InsertBothJumps(builder: Builder, insts: seq<LabeledInstruction>, k: int) returns (st: Status)
    requires PlainLabels(insts) && Splits(insts, k) && builder.cfg.Valid()
    requires insts[k].lab in builder.cfg.neighbours && insts[k].lab != EXIT
    requires insts[k].ins.target in builder.cfg.neighbours
    requires insts[k].ins.target != ENTRY ==> TakenLabel(insts, k) !in builder.cfg.neighbours
    requires Fallthrough(insts, k) != ENTRY ==> NotTakenLabel(insts, k) !in builder.cfg.neighbours
    modifies builder
    ensures builder.cfg.Valid()
    ensures st.Done? <==> forall l :: l in Targets(insts, k) ==> l in old(builder.cfg).neighbours && l != ENTRY
    ensures st.Done? ==> SplitInto(insts, k, old(builder.cfg), builder.cfg)
  {
    var jmp, here, fallthrough := insts[k].ins, insts[k].lab, Fallthrough(insts, k);
    ghost var g0 := builder.cfg;
    :- builder.InsertJump(here, jmp.target, Assume(jmp.cond.value, true));
    ghost var g1 := builder.cfg;
    JumpInserted(g0, here, jmp.target, Assume(jmp.cond.value, true));
    assert fallthrough == InstructionLabel(fallthrough.from);
    assert fallthrough != ENTRY ==> fallthrough != Label.MakeJump(here, fallthrough);
    :- builder.InsertJump(here, fallthrough, Assume(Reverse(jmp.cond.value), true));
    JumpInserted(g1, here, fallthrough, Assume(Reverse(jmp.cond.value), true));
    BothInserted(insts, k, g0, g1, builder.cfg);
    return Done;
  }

  lemma BothInserted(insts: seq<LabeledInstruction>, k: int, cfg: Cfg, mid: Cfg, next: Cfg)
    requires Splits(insts, k)
    requires TakenLabel(insts, k) !in cfg.neighbours && NotTakenLabel(insts, k) !in mid.neighbours
    requires JumpAdded(cfg, mid, insts[k].lab, insts[k].ins.target, Assume(insts[k].ins.cond.value, true))
    requires JumpAdded(mid, next, insts[k].lab, Fallthrough(insts, k), Assume(Reverse(insts[k].ins.cond.value), true))
    ensures SplitInto(insts, k, cfg, next)
  {
  }

  ghost predicate JumpAdded(cfg: Cfg, next: Cfg, from: Label, to: Label, cmd: Instruction) {
    var j := Label.MakeJump(from, to);
    && next.neighbours.Keys == cfg.neighbours.Keys + {j}
    && next.instructions == cfg.instructions[j := GuardedInstruction(cmd, [])]
    && forall x, y :: next.Edge(x, y) <==> cfg.Edge(x, y) || (x == from && y == j) || (x == j && y == to)
  }

  lemma JumpInserted(cfg: Cfg, from: Label, to: Label, cmd: Instruction)
    requires cfg.Valid() && from in cfg.neighbours && to in cfg.neighbours && to != ENTRY && from != EXIT
    requires Label.MakeJump(from, to) !in cfg.neighbours
    ensures var j := Label.MakeJump(from, to);
            var next := WithEdge(WithEdge(WithNode(cfg, j, cmd), from, j), j, to);
            next.Valid() && JumpAdded(cfg, next, from, to, cmd)
  {
    var j := Label.MakeJump(from, to);
    WithNodeValid(cfg, j, cmd);
    var g1 := WithNode(cfg, j, cmd);
    WithEdgeValid(g1, from, j);
    WithEdgeValid(WithEdge(g1, from, j), j, to);
  }

  lemma PlainTargets(insts: seq<LabeledInstruction>, n: int, k: int, cfg: Cfg, l: Label)
    requires PlainLabels(insts) && Defined(insts, k) && l in Targets(insts, k)
    requires LabelsApart(insts) && JumpsApart(insts, n) && Nodes(insts, n, cfg)
    ensures l in cfg.neighbours && l != ENTRY <==> l == EXIT || IsInstructionLabel(insts, l)
  {
    assert l == InstructionLabel(l.from);
    assert forall i :: i < n && Splits(insts, i) ==> Defined(insts, i);
  }

  /** The first pass over one instruction. */
  method ConnectInstruction(builder: Builder, insts: seq<LabeledInstruction>, k: int, mustHaveExit: bool)
    returns (st: Status)
    requires PlainLabels(insts) && 0 <= k < |insts| && Connected(insts, k, builder.cfg)
    modifies builder
    ensures builder.cfg.Valid()
    ensures st.Done? ==>
      && Connected(insts, k + 1, builder.cfg)
      && builder.cfg.neighbours[ENTRY].children == old(builder.cfg).neighbours[ENTRY].children
    ensures st.Done? <==> Accepted(insts, k, mustHaveExit)
  {
    ghost var before := builder.cfg;
    var here, ins := insts[k].lab, insts[k].ins;
    if ins.Undefined? {
      ConnectStraight(insts, k, before, before);
      return Done;
    }
    assert Defined(insts, k);
    forall l | l in Targets(insts, k)
      ensures l in before.neighbours && l != ENTRY <==> l == EXIT || IsInstructionLabel(insts, l)
    {
      PlainTargets(insts, k, k, before, l);
    }
    var fallthrough := Fallthrough(insts, k);
    if k + 1 == |insts| && HasFall(ins) && mustHaveExit {
      return Failed(FallthroughInLast);
    }
    if Splits(insts, k) {
      if ins.target !in builder.cfg.neighbours {
        return Failed(UndefinedTarget);
      }
      if ins.target != ENTRY {
        FreshJump(insts, k, before, ins.target);
      }
      if fallthrough != ENTRY {
        FreshJump(insts, k, before, fallthrough);
      }
      st := InsertBothJumps(builder, insts, k);
      if st.Done? {
        ConnectSplit(insts, k, before, builder.cfg);
      }
      return;
    }
    var child := if ins.Jmp? then ins.target else if ins.Exit? then EXIT else fallthrough;
    :- builder.AddChild(here, child);
    WithEdgeValid(before, here, child);
    ConnectStraight(insts, k, before, builder.cfg);
    return Done;
  }

  lemma InsertedIsConnected(insts: seq<LabeledInstruction>, cfg: Cfg, next: Cfg)
    requires Inserted(insts, |insts|, cfg) && next.Valid()
    requires next.neighbours.Keys == cfg.neighbours.Keys && next.instructions == cfg.instructions
    requires forall x, y :: next.Edge(x, y) ==> x == ENTRY
    ensures Connected(insts, 0, next)
  {
    assert forall i, l :: IsJumpOf(insts, i, l) ==> i >= 0;
    assert LabelsApart(insts) && JumpsApart(insts, 0);
    assert Nodes(insts, 0, next) by {
      forall l
        ensures IsInstructionLabel(insts, l) <==> IsLabelBelow(insts, |insts|, l)
      {
      }
    }
  }

  lemma TargetKnown(insts: seq<LabeledInstruction>, cfg: Cfg, k: int, l: Label)
    requires cfg.Valid() && InstructionEdges(insts, |insts|, cfg) && JumpNodes(insts, |insts|, cfg)
    requires Defined(insts, k) && l in Targets(insts, k)
    ensures l in cfg.neighbours && l != ENTRY
  {
    var from := insts[k].lab;
    if Splits(insts, k) {
      assert JumpNode(cfg, TakenLabel(insts, k), insts[k].ins.cond.value, insts[k].ins.target);
      assert JumpNode(cfg, NotTakenLabel(insts, k), Reverse(insts[k].ins.cond.value), Fallthrough(insts, k));
      from := if l == insts[k].ins.target then TakenLabel(insts, k) else NotTakenLabel(insts, k);
    }
    assert cfg.Edge(from, l) && cfg.HasParent(l, from);
  }

  /** A connected list was accepted: every edge leads to a node. */
  lemma ConnectedIsAccepted(insts: seq<LabeledInstruction>, cfg: Cfg, k: int, l: Label)
    requires PlainLabels(insts) && Connected(insts, |insts|, cfg) && Defined(insts, k) && l in Targets(insts, k)
    ensures l == EXIT || IsInstructionLabel(insts, l)
  {
    TargetKnown(insts, cfg, k, l);
    PlainTargets(insts, |insts|, k, cfg, l);
  }

  method ConnectAll(builder: Builder, insts: seq<LabeledInstruction>, mustHaveExit: bool) returns (st: Status)
    requires PlainLabels(insts) && Connected(insts, 0, builder.cfg)
    modifies builder
    ensures builder.cfg.Valid()
    ensures st.Failed? ==> exists k :: 0 <= k < |insts| && !Accepted(insts, k, mustHaveExit)
    ensures st.Done? ==> Connected(insts, |insts|, builder.cfg)
    ensures st.Done? && insts != [] ==> Accepted(insts, |insts| - 1, mustHaveExit)
    ensures st.Done? ==> builder.cfg.neighbours[ENTRY].children == old(builder.cfg).neighbours[ENTRY].children
  {
    for k := 0 to |insts|
      invariant Connected(insts, k, builder.cfg)
      invariant builder.cfg.neighbours[ENTRY].children == old(builder.cfg).neighbours[ENTRY].children
      invariant k > 0 ==> Accepted(insts, k - 1, mustHaveExit)
    {
      st := ConnectInstruction(builder, insts, k, mustHaveExit);
      if st.Failed? {
        return;
      }
    }
    return Done;
  }

  /** instruction_seq_to_cfg without the inlining of local calls. */
  method FirstPass(insts: seq<LabeledInstruction>, mustHaveExit: bool) returns (builder: Builder, st: Status)
    requires PlainLabels(insts)
    ensures fresh(builder) && builder.cfg.Valid()
    ensures st.Done? ==> GraphOf(insts, builder.cfg)
    ensures st.Done? <==> Acceptable(insts, mustHaveExit)
  {
    builder := new Builder();
    st := InsertInstructions(builder, insts);
    if st.Failed? {
      return;
    }
    if insts == [] {
      st := Failed(EmptySequence);
      return;
    }
    ghost var before := builder.cfg;
    st := builder.AddChild(ENTRY, insts[0].lab);
    if st.Failed? {
      return;
    }
    assert IsInstructionLabel(insts, insts[0].lab) || insts[0].lab == EXIT;
    WithEdgeValid(before, ENTRY, insts[0].lab);
    OnlyChild(builder.cfg, ENTRY, insts[0].lab);
    InsertedIsConnected(insts, before, builder.cfg);
    st := ConnectAll(builder, insts, mustHaveExit);
    if st.Done? {
      forall k, l | Defined(insts, k) && l in Targets(insts, k)
        ensures l == EXIT || IsInstructionLabel(insts, l)
      {
        ConnectedIsAccepted(insts, builder.cfg, k, l);
      }
    }
  }
}
