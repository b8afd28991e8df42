/** Runs of a program with local calls, which keep a stack of calls, and runs of the graph in which
    the calls are inlined. */
module CallMeaning {
  import opened AsmSyntax
  import opened ControlFlowGraph
  import opened LabelTexts
  import opened CalleeWalk
  import opened InlinedFrame
  import opened CallLayout

  // ----- the stack of calls -----

  /** Where control is: a label of the translated list, and the calls that led there. */
  datatype Spot = Spot(stack: seq<Label>, at: Label) {
    function Caller(): Spot
      requires stack != []
    {
      Spot(stack[..|stack| - 1], stack[|stack| - 1])
    }

    function Enter(target: Label): Spot {
      Spot(stack + [at], target)
    }
  }

  /** The frame of the graph that belongs to a stack. */
  function FrameOf(stack: seq<Label>): string {
    if stack == [] then ""
    else LabelText(Clone(stack[|stack| - 1], FrameOf(stack[..|stack| - 1])))
  }

  function NodeOf(s: Spot): Label {
    Clone(s.at, FrameOf(s.stack))
  }

  lemma EnterFrame(s: Spot, target: Label)
    ensures FrameOf(s.Enter(target).stack) == LabelText(NodeOf(s)) && s.Enter(target).Caller() == s
  {
    assert (s.stack + [s.at])[..|s.stack|] == s.stack;
  }

  lemma CallerFrame(s: Spot)
    requires s.stack != []
    ensures FrameOf(s.stack) == LabelText(NodeOf(s.Caller())) != ""
  {
    TextNotEmpty(NodeOf(s.Caller()));
  }

  /** Control goes to y; leaving a function means to go on behind its call. */
  ghost predicate Arrives(base: Cfg, stack: seq<Label>, y: Label, t: Spot) {
    if y == EXIT && stack != [] then
      t.stack == stack[..|stack| - 1] && OnlySuccessor(base, stack[|stack| - 1], t.at)
    else t == Spot(stack, y)
  }

  ghost predicate Moves(base: Cfg, s: Spot, t: Spot) {
    if Calls(base, s.at) then t == s.Enter(base.instructions[s.at].cmd.target)
    else exists y :: base.Edge(s.at, y) && Arrives(base, s.stack, y, t)
  }

  /** The instruction that is executed there. */
  function CommandAt(base: Cfg, s: Spot): Instruction
    requires s.at in base.instructions
  {
    var cmd := base.instructions[s.at].cmd;
    if cmd.CallLocal? then CallLocal(cmd.target, LabelText(NodeOf(s)))
    else if s.stack == [] then cmd
    else InFrame(cmd, FrameOf(s.stack))
  }

  // ----- the frames on the stack -----

  ghost predicate InFunction(base: Cfg, entry: Label, l: Label) {
    exists order :: IsWalk(base, entry, order) && l in order
  }

  /** The call of the innermost frame is inlined and returns behind the call. */
  ghost predicate FrameStands(base: Cfg, g: Cfg, c: Spot, next: Label, depth: nat) {
    && Calls(base, c.at) && OnlySuccessor(base, c.at, next) && (c.stack != [] ==> next != EXIT)
    && Inlined(base, g, NodeOf(c), base.instructions[c.at].cmd.target, NodeOf(Spot(c.stack, next)), depth)
  }

  ghost predicate CallStands(base: Cfg, g: Cfg, c: Spot) {
    exists next, depth :: FrameStands(base, g, c, next, depth)
  }

  /** The graph has all the frames of the stack. */
  ghost predicate Stands(base: Cfg, g: Cfg, main: set<Label>, s: Spot)
    decreases |s.stack|
  {
    if s.stack == [] then s.at in main
    else
      var c := s.Caller();
      && Stands(base, g, main, c) && CallStands(base, g, c)
      && InFunction(base, base.instructions[c.at].cmd.target, s.at)
  }

  ghost predicate MainClosed(base: Cfg, main: set<Label>) {
    main <= base.neighbours.Keys && forall x, y :: x in main && base.Edge(x, y) ==> y in main
  }

  /** The node of a function is where its frame says. */
  lemma NodeInFrame(base: Cfg, g: Cfg, c: Spot, next: Label, depth: nat, l: Label)
    requires FrameStands(base, g, c, next, depth) && InFunction(base, base.instructions[c.at].cmd.target, l)
    ensures InlinedNode(base, g, LabelText(NodeOf(c)), NodeOf(Spot(c.stack, next)), depth, l)
  {
    var entry := base.instructions[c.at].cmd.target;
    var order :| IsWalk(base, entry, order) && l in order;
    var inlined :| IsWalk(base, entry, inlined) && forall b :: b in inlined ==>
      InlinedNode(base, g, LabelText(NodeOf(c)), NodeOf(Spot(c.stack, next)), depth, b);
    WalkUnique(base, entry, order, inlined);
  }

  lemma MainNode(base: Cfg, l: Label)
    requires IsBase(base) && l in base.neighbours
    ensures NodeOf(Spot([], l)) == l
  {
  }

  lemma StandingMainCall(base: Cfg, g: Cfg, main: set<Label>, s: Spot)
    requires IsBase(base) && MainClosed(base, main) && ProgramInlined(base, g, main)
    requires s.stack == [] && s.at in main && Calls(base, s.at)
    ensures CallStands(base, g, s)
  {
    assert InlinedAt(base, g, s.at);
    var next :| OnlySuccessor(base, s.at, next)
      && Inlined(base, g, s.at, base.instructions[s.at].cmd.target, next, FramesLeft(s.at));
    assert base.Edge(s.at, next) && next in main;
    MainNode(base, s.at);
    MainNode(base, next);
    assert FrameStands(base, g, s, next, FramesLeft(s.at));
  }

  lemma StandingInnerCall(base: Cfg, g: Cfg, s: Spot, next: Label, depth: nat)
    requires s.stack != [] && FrameStands(base, g, s.Caller(), next, depth) && Calls(base, s.at)
    requires InFunction(base, base.instructions[s.Caller().at].cmd.target, s.at)
    ensures CallStands(base, g, s)
  {
    CallerFrame(s);
    NodeInFrame(base, g, s.Caller(), next, depth, s.at);
    var behind :| OnlySuccessor(base, s.at, behind) && behind != EXIT
      && Inlined(base, g, NodeOf(s), base.instructions[s.at].cmd.target, Clone(behind, FrameOf(s.stack)), depth - 1);
    assert FrameStands(base, g, s, behind, depth - 1);
  }

  /** A call anywhere on the way is inlined. */
  lemma StandingCall(base: Cfg, g: Cfg, main: set<Label>, s: Spot)
    requires IsBase(base) && MainClosed(base, main) && ProgramInlined(base, g, main)
    requires Stands(base, g, main, s) && Calls(base, s.at)
    ensures CallStands(base, g, s)
  {
    if s.stack == [] {
      StandingMainCall(base, g, main, s);
    } else {
      var next: Label, depth: nat :| FrameStands(base, g, s.Caller(), next, depth);
      StandingInnerCall(base, g, s, next, depth);
    }
  }

  lemma FunctionGoesOn(base: Cfg, entry: Label, l: Label, y: Label)
    requires InFunction(base, entry, l) && base.Edge(l, y) && y != EXIT
    ensures InFunction(base, entry, y)
  {
    var order :| IsWalk(base, entry, order) && l in order;
    assert !Ahead(base, order, y);
  }

  lemma FunctionBegins(base: Cfg, g: Cfg, c: Spot)
    requires CallStands(base, g, c)
    ensures Calls(base, c.at)
    ensures InFunction(base, base.instructions[c.at].cmd.target, base.instructions[c.at].cmd.target)
  {
    var next: Label, depth: nat :| FrameStands(base, g, c, next, depth);
    var entry := base.instructions[c.at].cmd.target;
    var order :| IsWalk(base, entry, order) && forall b :: b in order ==>
      InlinedNode(base, g, LabelText(NodeOf(c)), NodeOf(Spot(c.stack, next)), depth, b);
    assert order[0] in order;
  }

  /** Every move keeps the frames of the stack. */
  lemma StandsAfter(base: Cfg, g: Cfg, main: set<Label>, s: Spot, t: Spot)
    requires IsBase(base) && MainClosed(base, main) && ProgramInlined(base, g, main)
    requires Stands(base, g, main, s) && Moves(base, s, t)
    ensures Stands(base, g, main, t)
  {
    if Calls(base, s.at) {
      StandingCall(base, g, main, s);
      FunctionBegins(base, g, s);
      EnterFrame(s, t.at);
    } else {
      var y :| base.Edge(s.at, y) && Arrives(base, s.stack, y, t);
      if y != EXIT || s.stack == [] {
        if s.stack != [] {
          FunctionGoesOn(base, base.instructions[s.Caller().at].cmd.target, s.at, y);
        }
      } else {
        StandsBehind(base, g, main, s.Caller(), t);
      }
    }
  }

  lemma StandsBehind(base: Cfg, g: Cfg, main: set<Label>, c: Spot, t: Spot)
    requires MainClosed(base, main) && Stands(base, g, main, c) && CallStands(base, g, c)
    requires t.stack == c.stack && OnlySuccessor(base, c.at, t.at)
    ensures Stands(base, g, main, t)
  {
    var next: Label, depth: nat :| FrameStands(base, g, c, next, depth);
    assert base.Edge(c.at, next) && next == t.at;
    if c.stack != [] {
      FunctionGoesOn(base, base.instructions[c.Caller().at].cmd.target, c.at, next);
    }
  }

  // ----- the nodes of the graph -----

  /** The edges out of a node are the moves of the program there. */
  ghost predicate EdgesAreMoves(base: Cfg, g: Cfg, s: Spot) {
    forall y :: g.Edge(NodeOf(s), y) <==> exists t :: Moves(base, s, t) && y == NodeOf(t)
  }

  ghost predicate CommandIs(base: Cfg, g: Cfg, s: Spot) {
    && s.at in base.instructions && NodeOf(s) in g.instructions
    && g.instructions[NodeOf(s)].cmd == CommandAt(base, s)
  }

  lemma EdgesOfCall(base: Cfg, g: Cfg, main: set<Label>, s: Spot)
    requires IsBase(base) && MainClosed(base, main) && ProgramInlined(base, g, main)
    requires Stands(base, g, main, s) && Calls(base, s.at)
    ensures EdgesAreMoves(base, g, s) && CommandIs(base, g, s)
  {
    StandingCall(base, g, main, s);
    var next: Label, depth: nat :| FrameStands(base, g, s, next, depth);
    var target := base.instructions[s.at].cmd.target;
    EnterFrame(s, target);
    assert OnlySuccessor(g, NodeOf(s), NodeOf(s.Enter(target)));
  }

  lemma EdgesInMain(base: Cfg, g: Cfg, main: set<Label>, s: Spot)
    requires IsBase(base) && MainClosed(base, main) && ProgramInlined(base, g, main)
    requires s.stack == [] && s.at in main && !Calls(base, s.at)
    ensures EdgesAreMoves(base, g, s) && CommandIs(base, g, s)
  {
    assert SameNode(base, g, s.at);
    MainNode(base, s.at);
    forall y ensures g.Edge(NodeOf(s), y) <==> exists t :: Moves(base, s, t) && y == NodeOf(t) {
      if base.Edge(s.at, y) {
        MainNode(base, y);
        assert Moves(base, s, Spot([], y));
      }
      forall t | Moves(base, s, t) ensures base.Edge(s.at, NodeOf(t)) {
        assert t.at in main;
        MainNode(base, t.at);
      }
    }
  }

  /** Where an edge of a function arrives is where its copy lands. */
  lemma ArrivalIsLanding(base: Cfg, g: Cfg, s: Spot, next: Label, depth: nat, x: Label)
    requires s.stack != [] && FrameStands(base, g, s.Caller(), next, depth)
    ensures var t := if x == EXIT then Spot(s.Caller().stack, next) else Spot(s.stack, x);
            && Arrives(base, s.stack, x, t)
            && NodeOf(t) == Landing(x, FrameOf(s.stack), NodeOf(Spot(s.Caller().stack, next)))
    ensures forall t :: Arrives(base, s.stack, x, t) ==>
              NodeOf(t) == Landing(x, FrameOf(s.stack), NodeOf(Spot(s.Caller().stack, next)))
  {
    var c := s.Caller();
    assert base.Edge(c.at, next);
    forall t | Arrives(base, s.stack, x, t)
      ensures t == if x == EXIT then Spot(c.stack, next) else Spot(s.stack, x)
    {
    }
  }

  lemma EdgesInFunction(base: Cfg, g: Cfg, main: set<Label>, s: Spot)
    requires Stands(base, g, main, s) && s.stack != [] && !Calls(base, s.at)
    ensures EdgesAreMoves(base, g, s) && CommandIs(base, g, s)
  {
    var c := s.Caller();
    CallerFrame(s);
    var next: Label, depth: nat :| FrameStands(base, g, c, next, depth);
    NodeInFrame(base, g, c, next, depth, s.at);
    var exitTo := NodeOf(Spot(c.stack, next));
    assert IsCopy(base, g, FrameOf(s.stack), exitTo, s.at);
    forall y ensures g.Edge(NodeOf(s), y) <==> exists t :: Moves(base, s, t) && y == NodeOf(t) {
      if g.Edge(NodeOf(s), y) {
        var x :| base.Edge(s.at, x) && y == Landing(x, FrameOf(s.stack), exitTo);
        ArrivalIsLanding(base, g, s, next, depth, x);
        assert Moves(base, s, if x == EXIT then Spot(c.stack, next) else Spot(s.stack, x));
      }
      if t :| Moves(base, s, t) && y == NodeOf(t) {
        var x :| base.Edge(s.at, x) && Arrives(base, s.stack, x, t);
        ArrivalIsLanding(base, g, s, next, depth, x);
      }
    }
  }

  /** The graph around every spot that a program can come to: its instruction is that of the
      program, and its edges are exactly the moves of the program. */
  lemma GraphAtSpot(base: Cfg, g: Cfg, main: set<Label>, s: Spot)
    requires IsBase(base) && MainClosed(base, main) && ProgramInlined(base, g, main) && Stands(base, g, main, s)
    ensures EdgesAreMoves(base, g, s) && CommandIs(base, g, s)
  {
    if Calls(base, s.at) {
      EdgesOfCall(base, g, main, s);
    } else if s.stack == [] {
      EdgesInMain(base, g, main, s);
    } else {
      EdgesInFunction(base, g, main, s);
    }
  }

  // ----- runs -----

  /** A run of the program: a chain of spots, each with the state on arrival. */
  datatype StackRun<S> = Start(state: S) | Go(before: StackRun<S>, spot: Spot, state: S) {
    function At(): Spot {
      if Start? then Spot([], ENTRY) else spot
    }
  }

  ghost predicate IsStackRun<S>(base: Cfg, step: (Instruction, S, S) -> bool, init: S -> bool, r: StackRun<S>) {
    match r
    case Start(s) => init(s)
    case Go(r0, spot, s) =>
      && IsStackRun(base, step, init, r0) && Moves(base, r0.At(), spot)
      && r0.At().at in base.instructions && step(CommandAt(base, r0.At()), r0.state, s)
  }

  /** The run of the graph that goes with it. */
  function Flatten<S>(r: StackRun<S>): Run<S> {
    match r
    case Start(s) => AtEntry(s)
    case Go(r0, spot, s) => Then(Flatten(r0), NodeOf(spot), s)
  }

  ghost predicate InlinedFaithfully(base: Cfg, g: Cfg, main: set<Label>) {
    IsBase(base) && MainClosed(base, main) && ENTRY in main && ProgramInlined(base, g, main)
  }

  lemma FlattenAt<S>(base: Cfg, r: StackRun<S>)
    requires IsBase(base)
    ensures Flatten(r).At() == NodeOf(r.At()) && Flatten(r).state == r.state
  {
    MainNode(base, ENTRY);
  }

  /** Every run of the program is a run of the graph, in which its frames stand. */
  lemma {:induction false} StackRunFlattens<S(!new)>(
    base: Cfg, g: Cfg, main: set<Label>, step: (Instruction, S, S) -> bool, init: S -> bool, r: StackRun<S>)
    requires InlinedFaithfully(base, g, main) && IsStackRun(base, step, init, r)
    ensures CfgRun(g, step, init, Flatten(r)) && Stands(base, g, main, r.At())
  {
    if r.Go? {
      StackRunFlattens(base, g, main, step, init, r.before);
      var s, t := r.before.At(), r.spot;
      FlattenAt(base, r.before);
      GraphAtSpot(base, g, main, s);
      StandsAfter(base, g, main, s, t);
      assert g.Edge(NodeOf(s), NodeOf(t));
    }
  }

  /** And the graph has no other runs. */
  lemma {:induction false} CfgRunUnflattens<S(!new)>(
    base: Cfg, g: Cfg, main: set<Label>, step: (Instruction, S, S) -> bool, init: S -> bool, q: Run<S>)
    returns (r: StackRun<S>)
    requires InlinedFaithfully(base, g, main) && CfgRun(g, step, init, q)
    ensures IsStackRun(base, step, init, r) && Flatten(r) == q
  {
    match q
    case AtEntry(s) =>
      r := Start(s);
    case Then(q0, l, s) =>
      var r0 := CfgRunUnflattens(base, g, main, step, init, q0);
      StackRunFlattens(base, g, main, step, init, r0);
      FlattenAt(base, r0);
      GraphAtSpot(base, g, main, r0.At());
      var t :| Moves(base, r0.At(), t) && l == NodeOf(t);
      r := Go(r0, t, s);
  }
}
