/** Executions of an instruction list with local calls, and the runs of its graph. */
module ListCalls {
  import opened AsmSyntax
  import opened ControlFlowGraph
  import opened InstructionSeqToCfg
  import opened CfgMeaning
  import opened LabelTexts
  import opened CalleeWalk
  import opened InlinedFrame
  import opened CallLayout
  import opened CallMeaning

  /** An execution of the list: a chain of spots, each with the state on arrival. */
  datatype Execution<S> = First(state: S) | Later(before: Execution<S>, spot: Spot, state: S) {
    function At(insts: seq<LabeledInstruction>): Spot
      requires insts != []
    {
      if First? then Spot([], insts[0].lab) else spot
    }

    function Length(): nat {
      if First? then 0 else before.Length() + 1
    }
  }

  /** Behind a call stands the next instruction of the list. */
  ghost predicate ReturnsTo(insts: seq<LabeledInstruction>, c: Label, l: Label) {
    exists i :: Is(insts, i, c) && l == Fallthrough(insts, i)
  }

  ghost predicate ListArrives(insts: seq<LabeledInstruction>, stack: seq<Label>, y: Label, t: Spot) {
    if y == EXIT && stack != [] then
      t.stack == stack[..|stack| - 1] && ReturnsTo(insts, stack[|stack| - 1], t.at)
    else t == Spot(stack, y)
  }

  /** Instruction i, which is no local call, takes s to t and control to y. */
  ghost predicate StepInFrame<S(!new)>(
    m: Machine<S>, insts: seq<LabeledInstruction>, i: int, stack: seq<Label>, s: S, y: Label, t: S)
    requires Defined(insts, i)
  {
    if insts[i].ins.Exit? && stack != [] then NodeStep(m)(Exit(FrameOf(stack)), s, t) && y == EXIT
    else StepOf(m, insts, i, s, y, t)
  }

  ghost predicate Goes<S(!new)>(
    m: Machine<S>, insts: seq<LabeledInstruction>, i: int, here: Spot, s: S, y: Label, there: Spot, t: S)
    requires Defined(insts, i)
  {
    StepInFrame(m, insts, i, here.stack, s, y, t) && ListArrives(insts, here.stack, y, there)
  }

  ghost predicate ExecutionStep<S(!new)>(
    m: Machine<S>, insts: seq<LabeledInstruction>, i: int, here: Spot, s: S, there: Spot, t: S)
    requires Defined(insts, i)
  {
    if insts[i].ins.CallLocal? then
      && there == here.Enter(insts[i].ins.target)
      && NodeStep(m)(CallLocal(insts[i].ins.target, LabelText(NodeOf(here))), s, t)
    else exists y :: Goes(m, insts, i, here, s, y, there, t)
  }

  ghost predicate IsExecution<S(!new)>(
    m: Machine<S>, insts: seq<LabeledInstruction>, init: S -> bool, e: Execution<S>)
    requires insts != []
  {
    match e
    case First(s) => init(s)
    case Later(e0, there, t) =>
      && IsExecution(m, insts, init, e0)
      && exists i :: Is(insts, i, e0.At(insts).at) && ExecutionStep(m, insts, i, e0.At(insts), e0.state, there, t)
  }

  ghost predicate StackListed(insts: seq<LabeledInstruction>, stack: seq<Label>) {
    forall k :: 0 <= k < |stack| ==> CalledBelow(insts, |insts|, stack[k])
  }

  lemma {:induction false} ExecutionStack<S(!new)>(
    m: Machine<S>, insts: seq<LabeledInstruction>, init: S -> bool, e: Execution<S>)
    requires insts != [] && IsExecution(m, insts, init, e)
    ensures StackListed(insts, e.At(insts).stack)
  {
    if e.Later? {
      ExecutionStack(m, insts, init, e.before);
      var here := e.before.At(insts);
      var i :| Is(insts, i, here.at) && ExecutionStep(m, insts, i, here, e.before.state, e.spot, e.state);
      if insts[i].ins.CallLocal? {
        assert IsCallAt(insts, i);
      }
    }
  }

  // ----- the list and its graph -----

  lemma ReturnIsSuccessor(insts: seq<LabeledInstruction>, base: Cfg, c: Label, l: Label)
    requires GraphOf(insts, base) && CalledBelow(insts, |insts|, c)
    ensures ReturnsTo(insts, c, l) <==> OnlySuccessor(base, c, l)
  {
    var i :| i < |insts| && IsCallAt(insts, i) && insts[i].lab == c;
    assert Defined(insts, i);
    assert forall y :: base.Edge(c, y) <==> y in Successors(insts, i);
    if ReturnsTo(insts, c, l) {
      var j :| Is(insts, j, c) && l == Fallthrough(insts, j);
      assert i == j;
    } else if OnlySuccessor(base, c, l) {
      assert base.Edge(c, l);
      assert Is(insts, i, c);
    }
  }

  lemma ListArrivesIff(insts: seq<LabeledInstruction>, base: Cfg, stack: seq<Label>, y: Label, t: Spot)
    requires GraphOf(insts, base) && StackListed(insts, stack)
    ensures ListArrives(insts, stack, y, t) <==> Arrives(base, stack, y, t)
  {
    if y == EXIT && stack != [] {
      ReturnIsSuccessor(insts, base, stack[|stack| - 1], t.at);
    }
  }

  /** A conditional jump as two moves of the graph, through the node of the branch it takes. */
  lemma BranchMoves<S(!new)>(
    m: Machine<S>, insts: seq<LabeledInstruction>, base: Cfg, i: int, here: Spot, s: S, y: Label, there: Spot, t: S)
    requires Complementary(m) && GraphOf(insts, base) && StackListed(insts, here.stack)
    requires Is(insts, i, here.at) && Splits(insts, i) && Goes(m, insts, i, here, s, y, there, t)
    ensures var j := Spot(here.stack, Label.MakeJump(here.at, y));
            && Moves(base, here, j) && Moves(base, j, there) && s == t
            && j.at in base.instructions && NodeStep(m)(CommandAt(base, j), s, s)
  {
    assert Defined(insts, i) && base.instructions[here.at].cmd == insts[i].ins;
    ListArrivesIff(insts, base, here.stack, y, there);
    BranchTaken(m, insts, base, i, s, y);
    var j := Spot(here.stack, Label.MakeJump(here.at, y));
    assert IsJumpOf(insts, i, j.at);
    JumpIsNoCall(insts, base, j.at);
    assert Arrives(base, here.stack, j.at, j);
  }

  /** An instruction that is no call, as a move of the graph, with the jump node it passes. */
  lemma StepMoves<S(!new)>(
    m: Machine<S>, insts: seq<LabeledInstruction>, base: Cfg, i: int, here: Spot, s: S, y: Label, there: Spot, t: S)
    requires Complementary(m) && GraphOf(insts, base) && StackListed(insts, here.stack)
    requires Is(insts, i, here.at) && !insts[i].ins.CallLocal? && Goes(m, insts, i, here, s, y, there, t)
    ensures here.at in base.instructions && NodeStep(m)(CommandAt(base, here), s, t)
    ensures !Splits(insts, i) ==> Moves(base, here, there)
  {
    assert Defined(insts, i) && base.instructions[here.at].cmd == insts[i].ins;
    if !Splits(insts, i) {
      ListArrivesIff(insts, base, here.stack, y, there);
      assert y in Successors(insts, i);
      assert base.Edge(here.at, y);
    }
  }

  function Moved<S>(r: StackRun<S>): nat {
    match r
    case Start(_) => 0
    case Go(r0, _, _) => Moved(r0) + 1
  }

  /** Every execution of the list is a run over its graph. */
  lemma {:induction false} ExecutionIsStackRun<S(!new)>(
    m: Machine<S>, insts: seq<LabeledInstruction>, base: Cfg, init: S -> bool, e: Execution<S>)
    returns (r: StackRun<S>)
    requires Complementary(m) && GraphOf(insts, base) && IsExecution(m, insts, init, e)
    ensures IsStackRun(base, NodeStep(m), init, r) && r.At() == e.At(insts) && r.state == e.state
    ensures Moved(r) > e.Length()
  {
    match e
    case First(s) =>
      var t := Spot([], insts[0].lab);
      assert base.Edge(ENTRY, insts[0].lab);
      assert Arrives(base, [], insts[0].lab, t);
      r := Go(Start(s), t, s);
    case Later(e0, there, t) =>
      var r0 := ExecutionIsStackRun(m, insts, base, init, e0);
      ExecutionStack(m, insts, init, e0);
      var here := e0.At(insts);
      var i :| Is(insts, i, here.at) && ExecutionStep(m, insts, i, here, e0.state, there, t);
      assert base.instructions[here.at].cmd == insts[i].ins;
      if insts[i].ins.CallLocal? {
        r := Go(r0, there, t);
      } else {
        var y :| Goes(m, insts, i, here, e0.state, y, there, t);
        StepMoves(m, insts, base, i, here, e0.state, y, there, t);
        if Splits(insts, i) {
          BranchMoves(m, insts, base, i, here, e0.state, y, there, t);
        }
        r := Go(if Splits(insts, i) then Go(r0, Spot(here.stack, Label.MakeJump(here.at, y)), t) else r0, there, t);
      }
  }

  // ----- no other runs -----

  ghost predicate TargetsListed(insts: seq<LabeledInstruction>) {
    forall k :: IsCallAt(insts, k) ==> IsInstructionLabel(insts, insts[k].ins.target)
  }

  lemma {:induction false} RunStack<S(!new)>(
    insts: seq<LabeledInstruction>, base: Cfg, step: (Instruction, S, S) -> bool, init: S -> bool, r: StackRun<S>)
    requires GraphOf(insts, base) && IsStackRun(base, step, init, r)
    ensures StackListed(insts, r.At().stack)
  {
    if r.Go? {
      RunStack(insts, base, step, init, r.before);
      CallIsListed(insts, base, r.before.At().at);
    }
  }

  /** A move along an edge of the graph, a call, or a return. */
  lemma MoveInto(insts: seq<LabeledInstruction>, base: Cfg, s: Spot, t: Spot)
    requires GraphOf(insts, base) && TargetsListed(insts) && StackListed(insts, s.stack) && Moves(base, s, t)
    ensures
      || IsInstructionLabel(insts, t.at)
      || (exists i :: Defined(insts, i) && t.at == Fallthrough(insts, i))
      || (!Calls(base, s.at) && base.Edge(s.at, t.at) && t.stack == s.stack)
    ensures t.at != ENTRY
  {
    if Calls(base, s.at) {
      CallIsListed(insts, base, s.at);
      var i :| i < |insts| && IsCallAt(insts, i) && insts[i].lab == s.at;
      assert Defined(insts, i) && base.instructions[s.at].cmd == insts[i].ins;
    } else {
      var y :| base.Edge(s.at, y) && Arrives(base, s.stack, y, t);
      if y == EXIT && s.stack != [] {
        ReturnIsSuccessor(insts, base, s.stack[|s.stack| - 1], t.at);
        assert base.Edge(s.stack[|s.stack| - 1], t.at);
      }
    }
  }

  lemma PlainIsNoJump(insts: seq<LabeledInstruction>, l: Label)
    requires PlainLabels(insts) && JumpsApart(insts, |insts|)
    requires IsInstructionLabel(insts, l) || exists i :: Defined(insts, i) && l == Fallthrough(insts, i)
    ensures !IsJump(insts, l)
  {
    forall i | i < |insts| && IsJumpOf(insts, i, l) ensures l != InstructionLabel(l.from) {
      JumpIsNotPlain(insts, i, l);
    }
  }

  lemma EntryLeadsToFirst(insts: seq<LabeledInstruction>, base: Cfg, y: Label)
    requires GraphOf(insts, base) && base.Edge(ENTRY, y)
    ensures y == insts[0].lab
  {
    assert y in base.neighbours[ENTRY].children;
  }

  /** A jump node is entered from its instruction, in the same frame. */
  lemma JumpOrigin(insts: seq<LabeledInstruction>, base: Cfg, s: Spot, t: Spot) returns (i: int)
    requires PlainLabels(insts) && GraphOf(insts, base) && TargetsListed(insts) && StackListed(insts, s.stack)
    requires Moves(base, s, t) && IsJump(insts, t.at)
    ensures IsJumpOf(insts, i, t.at) && s == Spot(t.stack, insts[i].lab)
  {
    MoveInto(insts, base, s, t);
    if IsInstructionLabel(insts, t.at) || exists k :: Defined(insts, k) && t.at == Fallthrough(insts, k) {
      PlainIsNoJump(insts, t.at);
    }
    i :| i < |insts| && IsJumpOf(insts, i, t.at);
    if s.at == ENTRY {
      EntryLeadsToFirst(insts, base, t.at);
      JumpIsNotPlain(insts, i, t.at);
    }
    EdgeIntoJump(insts, base, i, s.at, t.at);
  }

  /** Through a jump node, as a step of the list. */
  lemma JumpStep<S(!new)>(
    m: Machine<S>, insts: seq<LabeledInstruction>, base: Cfg, i: int, here: Spot, j: Spot, there: Spot, s: S)
    requires Complementary(m) && GraphOf(insts, base) && StackListed(insts, here.stack)
    requires IsJumpOf(insts, i, j.at) && here == Spot(j.stack, insts[i].lab) && Moves(base, j, there)
    requires j.at in base.instructions && NodeStep(m)(CommandAt(base, j), s, s)
    ensures ExecutionStep(m, insts, i, here, s, there, s)
  {
    JumpIsNoCall(insts, base, j.at);
    var y :| base.Edge(j.at, y) && Arrives(base, j.stack, y, there);
    assert base.instructions[j.at].cmd.Assume? by {
      assert j.at == TakenLabel(insts, i) || j.at == NotTakenLabel(insts, i);
    }
    JumpDecides(m, insts, base, i, j.at, s, y);
    ListArrivesIff(insts, base, here.stack, y, there);
    assert Goes(m, insts, i, here, s, y, there, s);
  }

  /** Between two instructions, as a step of the list. */
  lemma StraightStep<S(!new)>(
    m: Machine<S>, insts: seq<LabeledInstruction>, base: Cfg, i: int, here: Spot, there: Spot, s: S, t: S)
    requires GraphOf(insts, base) && StackListed(insts, here.stack)
    requires Is(insts, i, here.at) && Moves(base, here, there) && !IsJump(insts, there.at)
    requires here.at in base.instructions && NodeStep(m)(CommandAt(base, here), s, t)
    ensures ExecutionStep(m, insts, i, here, s, there, t)
  {
    assert Defined(insts, i) && base.instructions[here.at].cmd == insts[i].ins;
    if !insts[i].ins.CallLocal? {
      var y :| base.Edge(here.at, y) && Arrives(base, here.stack, y, there);
      assert y in Successors(insts, i);
      assert Splits(insts, i) ==> IsJumpOf(insts, i, y);
      assert !Splits(insts, i);
      ListArrivesIff(insts, base, here.stack, y, there);
      assert Goes(m, insts, i, here, s, y, there, t);
    }
  }

  /** Every run over the graph that stands at an instruction or the exit is an execution of
      the list. */
  lemma {:induction false} StackRunIsExecution<S(!new)>(
    m: Machine<S>, insts: seq<LabeledInstruction>, base: Cfg, init: S -> bool, r: StackRun<S>)
    returns (e: Execution<S>)
    requires Complementary(m) && PlainLabels(insts) && GraphOf(insts, base) && TargetsListed(insts)
    requires IsStackRun(base, NodeStep(m), init, r) && r.Go? && !IsJump(insts, r.At().at)
    ensures IsExecution(m, insts, init, e) && e.At(insts) == r.At() && e.state == r.state
    decreases r, 1
  {
    var r0 := r.before;
    if r0.Start? {
      e := StartIsFirst(m, insts, base, init, r);
    } else if IsJump(insts, r0.At().at) {
      e := ThroughJumpNode(m, insts, base, init, r);
    } else {
      var e0 := StackRunIsExecution(m, insts, base, init, r0);
      var i := AtInstruction(insts, base, NodeStep(m), init, r);
      RunStack(insts, base, NodeStep(m), init, r0);
      StraightStep(m, insts, base, i, r0.At(), r.spot, r0.state, r.state);
      e := Later(e0, r.spot, r.state);
    }
  }

  lemma {:induction false} ThroughJumpNode<S(!new)>(
    m: Machine<S>, insts: seq<LabeledInstruction>, base: Cfg, init: S -> bool, r: StackRun<S>)
    returns (e: Execution<S>)
    requires Complementary(m) && PlainLabels(insts) && GraphOf(insts, base) && TargetsListed(insts)
    requires IsStackRun(base, NodeStep(m), init, r) && r.Go? && r.before.Go? && IsJump(insts, r.before.At().at)
    ensures IsExecution(m, insts, init, e) && e.At(insts) == r.At() && e.state == r.state
    decreases r, 0
  {
    var r0, r1 := r.before, r.before.before;
    RunStack(insts, base, NodeStep(m), init, r1);
    var i := JumpOrigin(insts, base, r1.At(), r0.At());
    InstructionIsNoJump(insts, i);
    assert Defined(insts, i);
    var e1 := StackRunIsExecution(m, insts, base, init, r1);
    JumpStateStays(m, insts, base, i, r1, r0, r);
    JumpStep(m, insts, base, i, r1.At(), r0.At(), r.spot, r.state);
    e := Later(e1, r.spot, r.state);
    assert Is(insts, i, e1.At(insts).at);
  }

  /** Neither a conditional jump nor the node of its branch changes the state. */
  lemma JumpStateStays<S(!new)>(
    m: Machine<S>, insts: seq<LabeledInstruction>, base: Cfg, i: int, r1: StackRun<S>, r0: StackRun<S>, r: StackRun<S>)
    requires GraphOf(insts, base) && IsJumpOf(insts, i, r0.At().at) && r1.At().at == insts[i].lab
    requires r1.At().at in base.instructions && NodeStep(m)(CommandAt(base, r1.At()), r1.state, r0.state)
    requires r0.At().at in base.instructions && NodeStep(m)(CommandAt(base, r0.At()), r0.state, r.state)
    ensures r1.state == r0.state == r.state
  {
    assert Defined(insts, i) && base.instructions[r1.At().at].cmd == insts[i].ins;
    assert r0.At().at == TakenLabel(insts, i) || r0.At().at == NotTakenLabel(insts, i);
  }

  lemma AtInstruction<S(!new)>(
    insts: seq<LabeledInstruction>, base: Cfg, step: (Instruction, S, S) -> bool, init: S -> bool, r: StackRun<S>)
    returns (i: int)
    requires GraphOf(insts, base) && TargetsListed(insts) && IsStackRun(base, step, init, r)
    requires r.Go? && r.before.Go? && !IsJump(insts, r.before.At().at)
    ensures Is(insts, i, r.before.At().at)
  {
    var here := r.before.At();
    RunStack(insts, base, step, init, r.before.before);
    MoveInto(insts, base, r.before.before.At(), here);
    assert here.at in base.neighbours && here.at != EXIT;
    i :| Defined(insts, i) && insts[i].lab == here.at;
  }

  lemma StartIsFirst<S(!new)>(
    m: Machine<S>, insts: seq<LabeledInstruction>, base: Cfg, init: S -> bool, r: StackRun<S>)
    returns (e: Execution<S>)
    requires GraphOf(insts, base) && IsStackRun(base, NodeStep(m), init, r) && r.Go? && r.before.Start?
    ensures IsExecution(m, insts, init, e) && e.At(insts) == r.At() && e.state == r.state
  {
    var y :| base.Edge(ENTRY, y) && Arrives(base, [], y, r.spot);
    EntryLeadsToFirst(insts, base, y);
    e := First(r.state);
  }
}
