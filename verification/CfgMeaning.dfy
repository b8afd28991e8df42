/** An instruction list and its graph have the same runs. */
module CfgMeaning {
  import opened AsmSyntax
  import opened ControlFlowGraph
  import opened InstructionSeqToCfg

  /** A run of the list: a chain of locations, each with the state on arrival. */
  datatype Trace<S> = Begin(state: S) | Next(before: Trace<S>, loc: Label, state: S) {
    function At(insts: seq<LabeledInstruction>): Label
      requires insts != []
    {
      if Begin? then insts[0].lab else loc
    }
  }

  /** Instruction i takes s to t and control to l. */
  ghost predicate StepOf<S(!new)>(
    m: Machine<S>, insts: seq<LabeledInstruction>, i: int, s: S, l: Label, t: S)
    requires Defined(insts, i)
  {
    match insts[i].ins
    case Jmp(Some(c), target) => s == t && l == if m.test(c, s) then target else Fallthrough(insts, i)
    case Jmp(None, target) => s == t && l == target
    case Exit(frame) => NodeStep(m)(Exit(frame), s, t) && l == EXIT
    case ins => NodeStep(m)(ins, s, t) && l == Fallthrough(insts, i)
  }

  ghost predicate Is(insts: seq<LabeledInstruction>, i: int, l: Label) {
    Defined(insts, i) && insts[i].lab == l
  }

  ghost predicate ListRun<S(!new)>(
    m: Machine<S>, insts: seq<LabeledInstruction>, init: S -> bool, tr: Trace<S>)
    requires insts != []
  {
    match tr
    case Begin(s) => init(s)
    case Next(tr0, l, t) =>
      && ListRun(m, insts, init, tr0)
      && exists i :: Is(insts, i, tr0.At(insts)) && StepOf(m, insts, i, tr0.state, l, t)
  }

  ghost predicate SplitsAt(insts: seq<LabeledInstruction>, l: Label) {
    exists i :: Is(insts, i, l) && Splits(insts, i)
  }

  /** The run of the graph that goes with a run of the list: a conditional jump passes
      through the node of the branch it takes. */
  ghost function Embed<S>(insts: seq<LabeledInstruction>, tr: Trace<S>): Run<S>
    requires insts != []
  {
    match tr
    case Begin(s) => Then(AtEntry(s), insts[0].lab, s)
    case Next(tr0, l, t) =>
      var r0 := Embed(insts, tr0);
      var here := tr0.At(insts);
      Then(if SplitsAt(insts, here) then Then(r0, Label.MakeJump(here, l), t) else r0, l, t)
  }

  ghost predicate IsJump(insts: seq<LabeledInstruction>, l: Label) {
    IsJumpBelow(insts, |insts|, l)
  }

  /** The run of the list that goes with a run of the graph. */
  ghost function Project<S>(insts: seq<LabeledInstruction>, r: Run<S>): Trace<S> {
    match r
    case AtEntry(s) => Begin(s)
    case Enter(_, _, s) => Begin(s)
    case Then(r0, l, s) =>
      if !r0.Then? then Begin(s)
      else Next(Project(insts, if IsJump(insts, r0.At()) then r0.before else r0), l, s)
  }

  lemma InstructionIsNoJump(insts: seq<LabeledInstruction>, i: int)
    requires JumpsApart(insts, |insts|) && Defined(insts, i)
    ensures !IsJump(insts, insts[i].lab)
  {
    assert IsInstructionLabel(insts, insts[i].lab);
  }

  /** Jump nodes are never the target of a list instruction. */
  lemma JumpIsNotPlain(insts: seq<LabeledInstruction>, i: int, l: Label)
    requires PlainLabels(insts) && JumpsApart(insts, |insts|) && IsJumpOf(insts, i, l)
    ensures l != InstructionLabel(l.from)
  {
    assert IsInstructionLabel(insts, insts[i].lab) by {
      assert Defined(insts, i);
    }
  }

  lemma EdgeFromInstruction(insts: seq<LabeledInstruction>, cfg: Cfg, i: int, j: int, l: Label)
    requires PlainLabels(insts) && JumpsApart(insts, |insts|) && InstructionEdges(insts, |insts|, cfg)
    requires IsJumpOf(insts, i, l) && Defined(insts, j) && cfg.Edge(insts[j].lab, l)
    ensures i == j
  {
    JumpIsNotPlain(insts, i, l);
    assert l in Successors(insts, j);
    assert IsJumpOf(insts, j, l);
  }

  lemma NoEdgeFromJump(insts: seq<LabeledInstruction>, cfg: Cfg, i: int, j: int, x: Label, l: Label)
    requires PlainLabels(insts) && JumpsApart(insts, |insts|) && JumpNodes(insts, |insts|, cfg)
    requires IsJumpOf(insts, i, l) && IsJumpOf(insts, j, x)
    ensures !cfg.Edge(x, l)
  {
    JumpIsNotPlain(insts, i, l);
  }

  /** Only its own instruction leads to a jump node. */
  lemma EdgeIntoJump(insts: seq<LabeledInstruction>, cfg: Cfg, i: int, x: Label, l: Label)
    requires PlainLabels(insts) && JumpsApart(insts, |insts|) && Nodes(insts, |insts|, cfg)
    requires InstructionEdges(insts, |insts|, cfg) && JumpNodes(insts, |insts|, cfg)
    requires forall y :: !cfg.Edge(EXIT, y)
    requires IsJumpOf(insts, i, l) && cfg.Edge(x, l) && x != ENTRY
    ensures x == insts[i].lab
  {
    assert x in cfg.neighbours;
    if IsInstructionLabel(insts, x) {
      var j :| Defined(insts, j) && insts[j].lab == x;
      EdgeFromInstruction(insts, cfg, i, j, l);
    } else {
      var j :| j < |insts| && IsJumpOf(insts, j, x);
      NoEdgeFromJump(insts, cfg, i, j, x, l);
    }
  }

  /** The branch a conditional jump takes is the one whose node lets it through. */
  lemma BranchTaken<S(!new)>(m: Machine<S>, insts: seq<LabeledInstruction>, cfg: Cfg, i: int, s: S, l: Label)
    requires Complementary(m) && InstructionEdges(insts, |insts|, cfg) && JumpNodes(insts, |insts|, cfg)
    requires Splits(insts, i) && StepOf(m, insts, i, s, l, s)
    ensures var j := Label.MakeJump(insts[i].lab, l);
            && cfg.Edge(insts[i].lab, j) && cfg.Edge(j, l)
            && j in cfg.instructions && NodeStep(m)(cfg.instructions[j].cmd, s, s)
  {
    var c := insts[i].ins.cond.value;
    assert Defined(insts, i);
    assert JumpNode(cfg, TakenLabel(insts, i), c, insts[i].ins.target);
    assert JumpNode(cfg, NotTakenLabel(insts, i), Reverse(c), Fallthrough(insts, i));
    assert Label.MakeJump(insts[i].lab, l) in Successors(insts, i);
  }

  /** Every run of the list is a run of the graph. */
  lemma {:induction false} ListRunEmbeds<S(!new)>(
    m: Machine<S>, insts: seq<LabeledInstruction>, cfg: Cfg, init: S -> bool, tr: Trace<S>)
    requires Complementary(m) && GraphOf(insts, cfg) && ListRun(m, insts, init, tr)
    ensures CfgRun(cfg, NodeStep(m), init, Embed(insts, tr))
    ensures Embed(insts, tr).At() == tr.At(insts) && Embed(insts, tr).state == tr.state
  {
    match tr
    case Begin(s) =>
      assert insts[0].lab in cfg.neighbours[ENTRY].children;
      assert cfg.Edge(ENTRY, insts[0].lab);
    case Next(tr0, l, t) =>
      ListRunEmbeds(m, insts, cfg, init, tr0);
      var here, s := tr0.At(insts), tr0.state;
      var i :| Is(insts, i, here) && StepOf(m, insts, i, s, l, t);
      assert here in cfg.instructions && cfg.instructions[here].cmd == insts[i].ins;
      if Splits(insts, i) {
        BranchTaken(m, insts, cfg, i, s, l);
        assert SplitsAt(insts, here);
      } else {
        assert l in Successors(insts, i);
        assert cfg.Edge(here, l);
        assert !SplitsAt(insts, here);
      }
  }

  /** Every run of the graph that stands at an instruction or the exit is the embedding
      of a run of the list. */
  lemma {:induction false} CfgRunProjects<S(!new)>(
    m: Machine<S>, insts: seq<LabeledInstruction>, cfg: Cfg, init: S -> bool, r: Run<S>)
    requires Complementary(m) && PlainLabels(insts) && GraphOf(insts, cfg) && CfgRun(cfg, NodeStep(m), init, r)
    requires r.At() != ENTRY && !IsJump(insts, r.At())
    ensures var tr := Project(insts, r);
            ListRun(m, insts, init, tr) && Embed(insts, tr) == r && tr.At(insts) == r.At() && tr.state == r.state
    decreases r, 1
  {
    var r0, l, s := r.before, r.node, r.state;
    if r0.AtEntry? {
      assert cfg.Edge(ENTRY, l) && l in cfg.neighbours[ENTRY].children;
    } else if IsJump(insts, r0.At()) {
      ThroughJump(m, insts, cfg, init, r);
    } else {
      CfgRunProjects(m, insts, cfg, init, r0);
      StraightOn(m, insts, cfg, r0.At(), r0.state, l, s);
      var tr0 := Project(insts, r0);
      assert exists i :: Is(insts, i, tr0.At(insts)) && StepOf(m, insts, i, tr0.state, l, s);
    }
  }

  /** An edge between two instructions is a step of the list. */
  lemma StraightOn<S(!new)>(
    m: Machine<S>, insts: seq<LabeledInstruction>, cfg: Cfg, x: Label, s: S, l: Label, t: S)
    requires GraphOf(insts, cfg) && cfg.Edge(x, l) && x in cfg.instructions
    requires NodeStep(m)(cfg.instructions[x].cmd, s, t)
    requires x != ENTRY && !IsJump(insts, x) && !IsJump(insts, l)
    ensures !SplitsAt(insts, x)
    ensures exists i :: Is(insts, i, x) && StepOf(m, insts, i, s, l, t)
  {
    assert x in cfg.neighbours && IsInstructionLabel(insts, x);
    var i :| Defined(insts, i) && insts[i].lab == x;
    assert l in Successors(insts, i);
    if Splits(insts, i) {
      assert IsJumpOf(insts, i, l);
      assert false;
    }
    assert Is(insts, i, x);
  }

  /** A run comes to a jump node from the instruction it belongs to. */
  lemma JumpHasSource<S(!new)>(
    m: Machine<S>, insts: seq<LabeledInstruction>, cfg: Cfg, init: S -> bool, r: Run<S>) returns (i: int)
    requires PlainLabels(insts) && GraphOf(insts, cfg) && CfgRun(cfg, NodeStep(m), init, r)
    requires r.Then? && IsJump(insts, r.At())
    ensures IsJumpOf(insts, i, r.At()) && r.before.At() == insts[i].lab
    ensures r.before.At() != ENTRY && !IsJump(insts, r.before.At())
  {
    i :| i < |insts| && IsJumpOf(insts, i, r.At());
    assert r.before.At() != ENTRY by {
      JumpIsNotPlain(insts, i, r.At());
      assert cfg.Edge(r.before.At(), r.At()) ==> r.At() in cfg.neighbours[r.before.At()].children;
    }
    EdgeIntoJump(insts, cfg, i, r.before.At(), r.At());
    InstructionIsNoJump(insts, i);
  }

  lemma {:induction false} ThroughJump<S(!new)>(
    m: Machine<S>, insts: seq<LabeledInstruction>, cfg: Cfg, init: S -> bool, r: Run<S>)
    requires Complementary(m) && PlainLabels(insts) && GraphOf(insts, cfg) && CfgRun(cfg, NodeStep(m), init, r)
    requires r.Then? && r.before.Then? && IsJump(insts, r.before.At())
    ensures var tr := Project(insts, r);
            ListRun(m, insts, init, tr) && Embed(insts, tr) == r && tr.At(insts) == r.At() && tr.state == r.state
    decreases r, 0
  {
    var r0, l, s := r.before, r.node, r.state;
    var jump, r1 := r0.At(), r0.before;
    var i := JumpHasSource(m, insts, cfg, init, r0);
    CfgRunProjects(m, insts, cfg, init, r1);
    JumpDecides(m, insts, cfg, i, jump, r1.state, l);
    var tr0 := Project(insts, r1);
    assert Is(insts, i, tr0.At(insts)) && StepOf(m, insts, i, tr0.state, l, s);
    assert SplitsAt(insts, tr0.At(insts));
  }

  /** A jump node that lets a state through leads where the list would go. */
  lemma JumpDecides<S(!new)>(
    m: Machine<S>, insts: seq<LabeledInstruction>, cfg: Cfg, i: int, jump: Label, s: S, l: Label)
    requires Complementary(m) && JumpNodes(insts, |insts|, cfg) && IsJumpOf(insts, i, jump) && cfg.Edge(jump, l)
    requires jump in cfg.instructions && NodeStep(m)(cfg.instructions[jump].cmd, s, s)
    ensures StepOf(m, insts, i, s, l, s) && jump == Label.MakeJump(insts[i].lab, l)
  {
    var c := insts[i].ins.cond.value;
    assert JumpNode(cfg, TakenLabel(insts, i), c, insts[i].ins.target);
    assert JumpNode(cfg, NotTakenLabel(insts, i), Reverse(c), Fallthrough(insts, i));
  }

  /** Embedding loses nothing: the run of the list can be read back. */
  lemma {:induction false} ProjectEmbeds<S(!new)>(
    m: Machine<S>, insts: seq<LabeledInstruction>, init: S -> bool, tr: Trace<S>)
    requires insts != [] && LabelsApart(insts) && JumpsApart(insts, |insts|) && ListRun(m, insts, init, tr)
    ensures Project(insts, Embed(insts, tr)) == tr
  {
    if tr.Next? {
      ProjectEmbeds(m, insts, init, tr.before);
      assert Embed(insts, tr.before).At() == tr.before.At(insts);
      var here := tr.before.At(insts);
      var i :| Is(insts, i, here) && StepOf(m, insts, i, tr.before.state, tr.loc, tr.state);
      InstructionIsNoJump(insts, i);
      if SplitsAt(insts, here) {
        assert Splits(insts, i);
        assert IsJumpOf(insts, i, Label.MakeJump(here, tr.loc));
      }
    }
  }

  // ----- determinism -----

  /** A state may enter a node: jump nodes ask for their condition. */
  ghost predicate Open<S>(m: Machine<S>, insts: seq<LabeledInstruction>, cfg: Cfg, l: Label, s: S) {
    IsJump(insts, l) ==>
      l in cfg.instructions && cfg.instructions[l].cmd.Assume? && m.test(cfg.instructions[l].cmd.assumed, s)
  }

  ghost predicate OnlyOpenSuccessor<S>(
    m: Machine<S>, insts: seq<LabeledInstruction>, cfg: Cfg, l: Label, s: S, next: Label)
  {
    && cfg.Edge(l, next) && Open(m, insts, cfg, next, s)
    && forall y :: cfg.Edge(l, y) && Open(m, insts, cfg, y, s) ==> y == next
  }

  /** In front of every node but the exit, every state finds exactly one way on. */
  lemma ExactlyOneOpenSuccessor<S(!new)>(m: Machine<S>, insts: seq<LabeledInstruction>, cfg: Cfg, l: Label, s: S)
    returns (next: Label)
    requires Complementary(m) && PlainLabels(insts) && GraphOf(insts, cfg) && l in cfg.neighbours && l != EXIT
    ensures OnlyOpenSuccessor(m, insts, cfg, l, s, next)
  {
    if l == ENTRY {
      next := insts[0].lab;
      assert forall y :: cfg.Edge(ENTRY, y) <==> y in cfg.neighbours[ENTRY].children;
      PlainIsOpen(m, insts, cfg, next, s);
    } else if IsJump(insts, l) {
      var i :| i < |insts| && IsJumpOf(insts, i, l);
      next := if l == TakenLabel(insts, i) then insts[i].ins.target else Fallthrough(insts, i);
      PlainIsOpen(m, insts, cfg, next, s);
    } else {
      var i :| Defined(insts, i) && insts[i].lab == l;
      if Splits(insts, i) {
        next := OneBranchOpen(m, insts, cfg, i, s);
      } else {
        next :=
          if insts[i].ins.Jmp? then insts[i].ins.target
          else if insts[i].ins.Exit? then EXIT
          else Fallthrough(insts, i);
        PlainIsOpen(m, insts, cfg, next, s);
      }
    }
  }

  lemma PlainIsOpen<S>(m: Machine<S>, insts: seq<LabeledInstruction>, cfg: Cfg, l: Label, s: S)
    requires PlainLabels(insts) && JumpsApart(insts, |insts|) && l == InstructionLabel(l.from)
    ensures Open(m, insts, cfg, l, s)
  {
    if IsJump(insts, l) {
      var i :| i < |insts| && IsJumpOf(insts, i, l);
      JumpIsNotPlain(insts, i, l);
    }
  }

  lemma OneBranchOpen<S(!new)>(m: Machine<S>, insts: seq<LabeledInstruction>, cfg: Cfg, i: int, s: S)
    returns (next: Label)
    requires Complementary(m) && GraphOf(insts, cfg) && Splits(insts, i)
    ensures OnlyOpenSuccessor(m, insts, cfg, insts[i].lab, s, next)
  {
    var c := insts[i].ins.cond.value;
    var taken, other := TakenLabel(insts, i), NotTakenLabel(insts, i);
    assert JumpNode(cfg, taken, c, insts[i].ins.target) && JumpNode(cfg, other, Reverse(c), Fallthrough(insts, i));
    assert IsJumpOf(insts, i, taken) && IsJumpOf(insts, i, other);
    next := if m.test(c, s) then taken else other;
    assert Defined(insts, i);
  }
}
