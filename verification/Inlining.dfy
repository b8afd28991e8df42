/** Local calls are inlined by cloning the callee into a new stack frame (add_cfg_nodes in
    src/asm_cfg.cpp): the methods, which always end, against the frames of InlinedFrame and the
    programs of CallLayout. */
module Inlining {
  import opened AsmSyntax
  import opened ControlFlowGraph
  import opened AsmCfg
  import opened LabelTexts
  import opened CalleeWalk
  import opened InlinedFrame
  import opened CallLayout
  import opened InstructionSeqToCfg

  // ----- inlining -----

  ghost predicate Shallow(cfg: Cfg) {
    forall l :: l in cfg.neighbours ==>
      l.CallStackDepth() <= MAX_CALL_STACK_FRAMES && CountDelimiters(l.special) == 0
  }

  ghost function Sites(cfg: Cfg): set<(int, int)> {
    set l | l in cfg.neighbours :: (l.from, l.to)
  }

  /** The sites without a clone in the frame. */
  ghost function SitesLeft(sites: set<(int, int)>, cfg: Cfg, prefix: string): set<(int, int)> {
    set site | site in sites && Label(prefix, site.0, site.1, "") !in cfg.neighbours
  }

  lemma SiteUsed(sites: set<(int, int)>, g: Cfg, h: Cfg, prefix: string, macro: Label)
    requires Sites(g) <= sites && macro in g.neighbours && Clone(macro, prefix) !in g.neighbours
    requires h.neighbours.Keys == g.neighbours.Keys + {Clone(macro, prefix)}
    ensures Sites(h) <= sites && SitesLeft(sites, h, prefix) < SitesLeft(sites, g, prefix)
  {
    var site := (macro.from, macro.to);
    assert site in Sites(g);
    forall l | l in h.neighbours ensures (l.from, l.to) in sites {
      assert l in g.neighbours ==> (l.from, l.to) in Sites(g);
    }
    assert site in SitesLeft(sites, g, prefix) && site !in SitesLeft(sites, h, prefix);
  }

  /** Inlines a call and the calls inside the callee. Nothing outside the frame changes but the
      caller and the edges into the return; and if the call is well placed, the frame is the
      callee, with the calls inside it inlined in turn. */
  method AddCfgNodes(
    builder: Builder, caller: Label, entry: Label, ghost base: Cfg, ghost body: set<Label>)
    returns (st: Status, ghost exitTo: Label)
    requires builder.cfg.Valid() && Shallow(builder.cfg)
    requires caller.CallStackDepth() < MAX_CALL_STACK_FRAMES && CountDelimiters(caller.special) == 0
    modifies builder
    ensures builder.cfg.Valid()
    ensures st.Done? ==> Shallow(builder.cfg) && OnlySuccessor(old(builder.cfg), caller, exitTo)
    ensures st.Done? ==> Framed(old(builder.cfg), builder.cfg, caller, exitTo, LabelText(caller))
    ensures st.Done? && WellPlaced(base, old(builder.cfg), body, caller, entry, exitTo) ==>
              Inlined(base, builder.cfg, caller, entry, exitTo, FramesLeft(caller))
    ensures st.Done? && LeafPlaced(base, old(builder.cfg), body, caller, entry, exitTo) ==>
              IsCopied(base, builder.cfg, caller, entry, exitTo)
    ensures forall e :: Placed(base, old(builder.cfg), body, caller, entry, e) ==>
              (st.Done? <==> CallFits(base, entry, FramesLeft(caller)))
    decreases MAX_CALL_STACK_FRAMES - caller.CallStackDepth(), 4
  {
    ghost var start := builder.cfg;
    if caller !in builder.cfg.neighbours || |builder.cfg.neighbours[caller].children| != 1 {
      NotOneChild(start, caller);
      return Failed(NotSingleChild), EXIT;
    }
    var returnTo :| returnTo in builder.cfg.neighbours[caller].children;
    exitTo := returnTo;
    OneChild(start, caller, returnTo);
    ChildrenKnown(start, caller);
    st := ReplaceCall(builder, caller, entry, returnTo, base, body);
    forall e | Placed(base, start, body, caller, entry, e) ensures e == exitTo {
      OneReturn(start, caller, e, exitTo);
    }
  }

  lemma OneReturn(g: Cfg, caller: Label, a: Label, b: Label)
    requires OnlySuccessor(g, caller, a) && OnlySuccessor(g, caller, b)
    ensures a == b
  {
    assert g.Edge(caller, a);
  }

  method ReplaceCall(
    builder: Builder, caller: Label, entry: Label, exitTo: Label, ghost base: Cfg, ghost body: set<Label>)
    returns (st: Status)
    requires builder.cfg.Valid() && Shallow(builder.cfg)
    requires caller.CallStackDepth() < MAX_CALL_STACK_FRAMES && CountDelimiters(caller.special) == 0
    requires caller in builder.cfg.neighbours && OnlySuccessor(builder.cfg, caller, exitTo)
    requires exitTo in builder.cfg.neighbours
    modifies builder
    ensures builder.cfg.Valid()
    ensures st.Done? ==> Shallow(builder.cfg)
    ensures st.Done? ==> Framed(old(builder.cfg), builder.cfg, caller, exitTo, LabelText(caller))
    ensures st.Done? && WellPlaced(base, old(builder.cfg), body, caller, entry, exitTo) ==>
              Inlined(base, builder.cfg, caller, entry, exitTo, FramesLeft(caller))
    ensures st.Done? && LeafPlaced(base, old(builder.cfg), body, caller, entry, exitTo) ==>
              IsCopied(base, builder.cfg, caller, entry, exitTo)
    ensures Placed(base, old(builder.cfg), body, caller, entry, exitTo) ==>
              (st.Done? <==> CallFits(base, entry, FramesLeft(caller)))
    decreases MAX_CALL_STACK_FRAMES - caller.CallStackDepth(), 3
  {
    ghost var start := builder.cfg;
    var seen;
    ghost var order;
    seen, st, order := CloneFrame(builder, caller, entry, exitTo, base, body);
    if st.Failed? {
      return;
    }
    if LeafPlaced(base, start, body, caller, entry, exitTo) {
      LeavesArePlain(base, builder.cfg, body, caller, entry, exitTo, order, seen);
    }
    if Placed(base, start, body, caller, entry, exitTo) {
      FitsByWalk(base, entry, order, FramesLeft(caller));
    }
    st := InlineNested(builder, seen, caller, entry, start, base, body, exitTo, order);
  }

  lemma NotOneChild(g: Cfg, l: Label)
    requires l in g.neighbours ==> |g.neighbours[l].children| != 1
    ensures l in g.neighbours ==> forall e :: !OnlySuccessor(g, l, e)
  {
    if l in g.neighbours {
      forall e | OnlySuccessor(g, l, e) ensures g.neighbours[l].children == {e} {
        assert forall y :: y in g.neighbours[l].children <==> g.Edge(l, y);
      }
    }
  }

  ghost predicate PlainClone(g: Cfg, l: Label) {
    l in g.instructions && !g.instructions[l].cmd.CallLocal?
  }

  lemma LeavesArePlain(
    base: Cfg, g: Cfg, body: set<Label>, caller: Label, entry: Label, exitTo: Label, order: seq<Label>,
    seen: set<Label>)
    requires FrameCopied(base, g, caller, entry, exitTo, order) && WalkState(base, entry, order, {}, seen)
    requires (forall l :: l in order ==> l in body) && forall l :: l in body ==> !Calls(base, l)
    ensures forall l :: l in seen ==> PlainClone(g, Clone(l, LabelText(caller)))
  {
    forall l | l in seen ensures PlainClone(g, Clone(l, LabelText(caller))) {
      SeenIsWalked(base, entry, order, seen, l);
    }
  }

  /** Exactly what the frame of a call is: the clones of the body of the callee, and of its edges
      those whose source is walked no later than their target. So the frame has the edges of the
      callee if and only if the walk follows them. The calls inside still lead to the next
      instruction. It fails exactly if the walk finds again what it did not record. */
  method CloneFrame(
    builder: Builder, caller: Label, entry: Label, exitTo: Label, ghost base: Cfg, ghost body: set<Label>)
    returns (seen: set<Label>, st: Status, ghost order: seq<Label>)
    requires builder.cfg.Valid() && Shallow(builder.cfg)
    requires caller.CallStackDepth() < MAX_CALL_STACK_FRAMES && CountDelimiters(caller.special) == 0
    requires caller in builder.cfg.neighbours && OnlySuccessor(builder.cfg, caller, exitTo)
    requires exitTo in builder.cfg.neighbours
    modifies builder
    ensures builder.cfg.Valid()
    ensures st.Done? ==>
              Shallow(builder.cfg) && Framed(old(builder.cfg), builder.cfg, caller, exitTo, LabelText(caller))
    ensures st.Done? ==> forall l :: l in seen ==> Clone(l, LabelText(caller)) !in old(builder.cfg).neighbours
    ensures st.Done? && WellPlaced(base, old(builder.cfg), body, caller, entry, exitTo) ==>
              && NestedState(base, old(builder.cfg), builder.cfg, body, caller, entry, exitTo, order, {})
              && WalkState(base, entry, order, {}, seen)
    ensures st.Done? && Fits(base, old(builder.cfg), body, caller, entry, exitTo, LabelText(caller)) ==>
              && FrameCopied(base, builder.cfg, caller, entry, exitTo, order)
              && WalkState(base, entry, order, {}, seen) && (forall l :: l in order ==> l in body)
              && KeepsCall(old(builder.cfg), builder.cfg, caller)
    ensures Fits(base, old(builder.cfg), body, caller, entry, exitTo, LabelText(caller)) ==>
              (st.Failed? <==> WalkFails(base, entry))
  {
    ghost var start := builder.cfg;
    var prefix := LabelText(caller);
    TextDepth(caller);
    var call := builder.cfg.instructions[caller];
    if call.cmd.CallLocal? {
      SetCommand(builder, caller, CallLocal(call.cmd.target, prefix));
    }
    ghost var named := builder.cfg;
    ghost var fits := Fits(base, start, body, caller, entry, exitTo, prefix);
    if fits {
      NamedFits(base, start, named, body, caller, entry, exitTo, prefix);
    }
    LeadsOn(start, caller, exitTo);
    seen, st, order := CloneAll(builder, caller, entry, prefix, exitTo, base, body);
    if st.Failed? {
      return;
    }
    ghost var mid := builder.cfg;
    WithoutEdgeValid(mid, caller, exitTo);
    st := builder.RemoveChild(caller, exitTo);
    NamedFramed(start, named, mid, builder.cfg, caller, exitTo, prefix);
    if fits {
      FrameIsCopied(base, start, named, mid, builder.cfg, body, caller, entry, exitTo, order);
      if WellPlaced(base, start, body, caller, entry, exitTo) {
        NestedBegins(base, start, named, mid, builder.cfg, body, caller, entry, exitTo, order);
      }
    }
  }

  /** A call remembers the frame it leads to. */
  ghost predicate KeepsCall(g: Cfg, h: Cfg, caller: Label) {
    && caller in g.instructions && caller in h.instructions
    && (g.instructions[caller].cmd.CallLocal? ==>
          h.instructions[caller].cmd == CallLocal(g.instructions[caller].cmd.target, LabelText(caller)))
  }

  lemma LeadsOn(g: Cfg, caller: Label, exitTo: Label)
    requires g.Valid() && OnlySuccessor(g, caller, exitTo)
    ensures caller != EXIT && exitTo != ENTRY
  {
    assert g.Edge(caller, exitTo);
  }

  lemma FrameIsCopied(
    base: Cfg, start: Cfg, named: Cfg, mid: Cfg, g: Cfg, body: set<Label>, caller: Label, entry: Label,
    exitTo: Label, order: seq<Label>)
    requires start.Valid() && Fits(base, start, body, caller, entry, exitTo, LabelText(caller))
    requires OnlyCommand(start, named, caller) && caller in start.neighbours && exitTo in start.neighbours
    requires OnlySuccessor(start, caller, exitTo) && g.instructions == mid.instructions
    requires IsWalk(base, entry, order) && forall l :: l in order ==> l in body
    requires ClonedNodes(base, named, mid, LabelText(caller), order)
    requires ClonedEdges(base, named, mid, caller, entry, LabelText(caller), exitTo, order)
    requires forall x, y :: g.Edge(x, y) <==> mid.Edge(x, y) && !(x == caller && y == exitTo)
    ensures FrameCopied(base, g, caller, entry, exitTo, order)
  {
    var prefix := LabelText(caller);
    assert forall y :: named.Edge(caller, y) <==> start.Edge(caller, y);
    assert Copied(base, named, mid, caller, entry, prefix, exitTo, order);
    CopiedExactly(base, named, mid, g, caller, entry, prefix, exitTo, order);
  }

  lemma OneChild(g: Cfg, l: Label, child: Label)
    requires l in g.neighbours && child in g.neighbours[l].children && |g.neighbours[l].children| == 1
    ensures OnlySuccessor(g, l, child)
  {
    var rest := g.neighbours[l].children - {child};
    assert |rest| == 0;
    forall y ensures g.Edge(l, y) <==> y == child {
      assert y != child && y in g.neighbours[l].children ==> y in rest;
    }
  }

  ghost predicate OnlyCommand(g: Cfg, h: Cfg, l: Label) {
    && h.neighbours == g.neighbours && h.instructions.Keys == g.instructions.Keys
    && (forall x :: x in g.instructions && x != l ==> h.instructions[x] == g.instructions[x])
    && (l in g.instructions && h.instructions[l] != g.instructions[l] ==> h.instructions[l].cmd.CallLocal?)
  }

  lemma NamedFits(
    base: Cfg, g: Cfg, h: Cfg, body: set<Label>, caller: Label, entry: Label, exitTo: Label, prefix: string)
    requires Fits(base, g, body, caller, entry, exitTo, prefix) && OnlyCommand(g, h, caller)
    ensures Fits(base, h, body, caller, entry, exitTo, prefix)
  {
    forall l | l in body ensures SameNode(base, h, l) && SameParents(base, h, l) {
      assert SameNode(base, g, l) && SameParents(base, g, l);
    }
  }

  lemma NamedFramed(
    start: Cfg, named: Cfg, mid: Cfg, g: Cfg, caller: Label, exitTo: Label, prefix: string)
    requires start.Valid() && named.Valid() && OnlyCommand(start, named, caller)
    requires Framed(named, mid, caller, exitTo, prefix)
    requires g.instructions == mid.instructions && g.neighbours.Keys == mid.neighbours.Keys
    requires forall x, y :: g.Edge(x, y) <==> mid.Edge(x, y) && !(x == caller && y == exitTo)
    ensures Framed(start, g, caller, exitTo, prefix)
  {
    forall l | l in start.neighbours && Outside(l, caller, prefix)
      ensures SameNode(start, g, l) && (l != exitTo ==> SameParents(start, g, l))
    {
      assert SameNode(named, mid, l);
    }
  }

  /** The frame is cloned, and some of its calls are inlined. */
  ghost predicate NestedState(
    base: Cfg, start: Cfg, g: Cfg, body: set<Label>, caller: Label, entry: Label, exitTo: Label, order: seq<Label>,
    finished: set<Label>)
  {
    && WellPlaced(base, start, body, caller, entry, exitTo) && Untouched(base, g, body)
    && IsWalk(base, entry, order) && Topological(base, order)
    && (forall l :: l in order ==> l in body && Clone(l, LabelText(caller)) in g.neighbours)
    && caller in g.instructions && g.instructions[caller].cmd == CallLocal(entry, LabelText(caller))
    && OnlySuccessor(g, caller, Clone(entry, LabelText(caller)))
    && FrameState(base, start, g, LabelText(caller), exitTo, FramesLeft(caller), order, finished)
  }

  lemma NestedBegins(
    base: Cfg, start: Cfg, named: Cfg, mid: Cfg, g: Cfg, body: set<Label>, caller: Label, entry: Label,
    exitTo: Label, order: seq<Label>)
    requires start.Valid() && named.Valid() && mid.Valid() && g.Valid()
    requires WellPlaced(base, start, body, caller, entry, exitTo) && OnlyCommand(start, named, caller)
    requires OnlySuccessor(start, caller, exitTo) && exitTo in start.neighbours
    requires named.instructions[caller].cmd == CallLocal(entry, LabelText(caller))
    requires IsWalk(base, entry, order) && forall l :: l in order ==> l in body
    requires ClonedNodes(base, named, mid, LabelText(caller), order)
    requires ClonedEdges(base, named, mid, caller, entry, LabelText(caller), exitTo, order)
    requires Framed(start, g, caller, exitTo, LabelText(caller))
    requires g.instructions == mid.instructions && g.neighbours.Keys == mid.neighbours.Keys
    requires forall x, y :: g.Edge(x, y) <==> mid.Edge(x, y) && !(x == caller && y == exitTo)
    ensures NestedState(base, start, g, body, caller, entry, exitTo, order, {})
  {
    var prefix := LabelText(caller);
    NamedFits(base, start, named, body, caller, entry, exitTo, prefix);
    assert forall y :: named.Edge(caller, y) <==> start.Edge(caller, y);
    assert Copied(base, named, mid, caller, entry, prefix, exitTo, order);
    FrameBegins(base, named, mid, g, caller, entry, prefix, exitTo, FramesLeft(caller), order);
    SameStart(base, start, named, g, prefix, exitTo, FramesLeft(caller), order);
    CallerLeadsInside(base, named, mid, g, caller, entry, prefix, exitTo, order);
    UntouchedFramed(base, start, g, body, caller, exitTo, prefix);
    ClonesKnown(base, named, mid, prefix, order);
  }

  lemma SameStart(
    base: Cfg, start: Cfg, named: Cfg, g: Cfg, prefix: string, exitTo: Label, depth: nat, order: seq<Label>)
    requires FrameState(base, named, g, prefix, exitTo, depth, order, {}) && named.neighbours == start.neighbours
    ensures FrameState(base, start, g, prefix, exitTo, depth, order, {})
  {
  }

  lemma ClonesKnown(base: Cfg, start: Cfg, g: Cfg, prefix: string, order: seq<Label>)
    requires ClonedNodes(base, start, g, prefix, order)
    ensures forall l :: l in order ==> Clone(l, prefix) in g.neighbours
  {
    forall l | l in order ensures IsClone(prefix, order, Clone(l, prefix)) {
    }
  }

  method SetCommand(builder: Builder, l: Label, cmd: Instruction)
    requires builder.cfg.Valid() && l in builder.cfg.instructions && cmd.CallLocal?
    modifies builder
    ensures builder.cfg.Valid() && OnlyCommand(old(builder.cfg), builder.cfg, l)
    ensures builder.cfg.instructions[l].cmd == cmd
  {
    ghost var before := builder.cfg;
    builder.cfg := builder.cfg.(instructions :=
      builder.cfg.instructions[l := GuardedInstruction(cmd, builder.cfg.instructions[l].preconditions)]);
    assert forall a, b ::
        builder.cfg.Edge(a, b) == before.Edge(a, b) && builder.cfg.HasParent(a, b) == before.HasParent(a, b);
  }

  /** The calls of a frame that has just been cloned, one after the other. Only recorded labels
      are looked at. */
  method InlineNested(
    builder: Builder, seen: set<Label>, caller: Label, entry: Label, ghost start: Cfg, ghost base: Cfg,
    ghost body: set<Label>, ghost exitTo: Label, ghost order: seq<Label>)
    returns (st: Status)
    requires builder.cfg.Valid() && Shallow(builder.cfg) && start.Valid()
    requires caller.CallStackDepth() < MAX_CALL_STACK_FRAMES && CountDelimiters(caller.special) == 0
    requires Framed(start, builder.cfg, caller, exitTo, LabelText(caller))
    requires forall l :: l in seen ==> Clone(l, LabelText(caller)) !in start.neighbours
    modifies builder
    ensures builder.cfg.Valid()
    ensures st.Done? ==> Shallow(builder.cfg) && Framed(start, builder.cfg, caller, exitTo, LabelText(caller))
    ensures st.Done? && NestedState(base, start, old(builder.cfg), body, caller, entry, exitTo, order, {})
            && WalkState(base, entry, order, {}, seen) ==>
              Inlined(base, builder.cfg, caller, entry, exitTo, FramesLeft(caller))
    ensures NestedState(base, start, old(builder.cfg), body, caller, entry, exitTo, order, {})
            && WalkState(base, entry, order, {}, seen) ==>
              (st.Done? <==> forall b :: b in order ==> FrameFits(base, b, FramesLeft(caller)))
    ensures (forall l :: l in seen ==> PlainClone(old(builder.cfg), Clone(l, LabelText(caller)))) ==>
              st.Done? && builder.cfg == old(builder.cfg)
    decreases MAX_CALL_STACK_FRAMES - caller.CallStackDepth(), 2
  {
    ghost var fits := NestedState(base, start, builder.cfg, body, caller, entry, exitTo, order, {})
      && WalkState(base, entry, order, {}, seen);
    st := NestedLoop(builder, seen, caller, entry, start, base, body, exitTo, order, fits);
    if st.Done? && fits {
      NestedEnds(base, start, builder.cfg, body, caller, entry, exitTo, order, seen);
      CallsAreSeen(base, start, builder.cfg, body, caller, entry, exitTo, order, seen);
    }
  }

  lemma CallsAreSeen(
    base: Cfg, start: Cfg, g: Cfg, body: set<Label>, caller: Label, entry: Label, exitTo: Label, order: seq<Label>,
    seen: set<Label>)
    requires NestedState(base, start, g, body, caller, entry, exitTo, order, seen)
    requires WalkState(base, entry, order, {}, seen)
    ensures forall b :: b in order && Calls(base, b) ==> b in seen
  {
    forall b | b in order && Calls(base, b) ensures b in seen {
      var k :| 0 <= k < |order| && order[k] == b;
      var next :| OnlySuccessor(base, b, next) && next != EXIT && next != b;
      SingleIsSeen(base, entry, order, seen, k, next);
    }
  }

  method NestedLoop(
    builder: Builder, seen: set<Label>, caller: Label, entry: Label, ghost start: Cfg, ghost base: Cfg,
    ghost body: set<Label>, ghost exitTo: Label, ghost order: seq<Label>, ghost fits: bool)
    returns (st: Status)
    requires builder.cfg.Valid() && Shallow(builder.cfg) && start.Valid()
    requires caller.CallStackDepth() < MAX_CALL_STACK_FRAMES && CountDelimiters(caller.special) == 0
    requires Framed(start, builder.cfg, caller, exitTo, LabelText(caller))
    requires forall l :: l in seen ==> Clone(l, LabelText(caller)) !in start.neighbours
    requires fits ==> NestedState(base, start, builder.cfg, body, caller, entry, exitTo, order, {})
    requires fits ==> WalkState(base, entry, order, {}, seen)
    modifies builder
    ensures builder.cfg.Valid()
    ensures st.Done? ==> Shallow(builder.cfg) && Framed(start, builder.cfg, caller, exitTo, LabelText(caller))
    ensures st.Done? && fits ==> NestedState(base, start, builder.cfg, body, caller, entry, exitTo, order, seen)
    ensures st.Done? && fits ==> forall b :: b in seen ==> FrameFits(base, b, FramesLeft(caller))
    ensures st.Failed? && fits ==> exists b :: b in order && !FrameFits(base, b, FramesLeft(caller))
    ensures (forall l :: l in seen ==> PlainClone(old(builder.cfg), Clone(l, LabelText(caller)))) ==>
              st.Done? && builder.cfg == old(builder.cfg)
    decreases MAX_CALL_STACK_FRAMES - caller.CallStackDepth(), 1
  {
    var rest := seen;
    ghost var finished: set<Label> := {};
    while rest != {}
      invariant builder.cfg.Valid() && Shallow(builder.cfg) && rest <= seen && finished == seen - rest
      invariant Framed(start, builder.cfg, caller, exitTo, LabelText(caller))
      invariant fits ==> NestedState(base, start, builder.cfg, body, caller, entry, exitTo, order, finished)
      invariant fits ==> forall b :: b in finished ==> FrameFits(base, b, FramesLeft(caller))
      invariant (forall l :: l in seen ==> PlainClone(old(builder.cfg), Clone(l, LabelText(caller)))) ==>
                  builder.cfg == old(builder.cfg)
      decreases |rest|
    {
      var macro :| macro in rest;
      st := InlineIfCall(builder, macro, caller, entry, start, base, body, exitTo, order, finished, seen, fits);
      if st.Failed? {
        return;
      }
      rest, finished := rest - {macro}, finished + {macro};
    }
    assert finished == seen;
    return Done;
  }

  method InlineIfCall(
    builder: Builder, macro: Label, caller: Label, entry: Label, ghost start: Cfg, ghost base: Cfg,
    ghost body: set<Label>, ghost exitTo: Label, ghost order: seq<Label>, ghost finished: set<Label>,
    ghost seen: set<Label>, ghost fits: bool)
    returns (st: Status)
    requires builder.cfg.Valid() && Shallow(builder.cfg) && start.Valid()
    requires caller.CallStackDepth() < MAX_CALL_STACK_FRAMES && CountDelimiters(caller.special) == 0
    requires Framed(start, builder.cfg, caller, exitTo, LabelText(caller))
    requires Clone(macro, LabelText(caller)) !in start.neighbours && macro in seen && macro !in finished
    requires fits ==> NestedState(base, start, builder.cfg, body, caller, entry, exitTo, order, finished)
    requires fits ==> WalkState(base, entry, order, {}, seen)
    modifies builder
    ensures builder.cfg.Valid()
    ensures st.Done? ==> Shallow(builder.cfg) && Framed(start, builder.cfg, caller, exitTo, LabelText(caller))
    ensures st.Done? && fits ==>
              NestedState(base, start, builder.cfg, body, caller, entry, exitTo, order, finished + {macro})
    ensures fits ==> macro in order && (st.Done? <==> FrameFits(base, macro, FramesLeft(caller)))
    ensures PlainClone(old(builder.cfg), Clone(macro, LabelText(caller))) ==>
              st.Done? && builder.cfg == old(builder.cfg)
    decreases MAX_CALL_STACK_FRAMES - caller.CallStackDepth(), 0
  {
    var prefix := LabelText(caller);
    TextDepth(caller);
    ghost var before := builder.cfg;
    var node := Clone(macro, prefix);
    if fits {
      CloneIsCall(base, start, before, body, caller, entry, exitTo, order, finished, seen, macro);
    }
    if node !in builder.cfg.instructions {
      return Failed(UnknownLabel);
    }
    var cmd := builder.cfg.instructions[node].cmd;
    if cmd.CallLocal? {
      if CountDelimiters(prefix) + 2 >= MAX_CALL_STACK_FRAMES {
        return Failed(TooManyFrames);
      }
      ghost var innerExit;
      st, innerExit := AddCfgNodes(builder, node, cmd.target, base, body);
      if st.Failed? {
        return;
      }
      InnerFramed(start, before, builder.cfg, caller, exitTo, node, innerExit);
      if fits {
        NestedCall(
          base, start, before, builder.cfg, body, caller, entry, exitTo, order, finished, seen, macro, innerExit);
      }
    } else if fits {
      NestedOther(base, start, before, body, caller, entry, exitTo, order, finished, seen, macro);
    }
    return Done;
  }

  /** A clone that was not looked at calls what its original calls, and can be inlined exactly if
      the original fits. */
  lemma CloneIsCall(
    base: Cfg, start: Cfg, g: Cfg, body: set<Label>, caller: Label, entry: Label, exitTo: Label, order: seq<Label>,
    finished: set<Label>, seen: set<Label>, macro: Label)
    requires g.Valid() && NestedState(base, start, g, body, caller, entry, exitTo, order, finished)
    requires CountDelimiters(caller.special) == 0 && caller.CallStackDepth() < MAX_CALL_STACK_FRAMES
    requires WalkState(base, entry, order, {}, seen) && macro in seen && macro !in finished
    ensures var node := Clone(macro, LabelText(caller));
            && macro in order && node in g.instructions && (g.instructions[node].cmd.CallLocal? <==> Calls(base, macro))
            && FramesLeft(node) == FramesLeft(caller) - 1
    ensures var node := Clone(macro, LabelText(caller));
            Calls(base, macro) ==>
              exists e :: Placed(base, g, body, node, g.instructions[node].cmd.target, e)
                          && g.instructions[node].cmd.target == base.instructions[macro].cmd.target
  {
    var prefix := LabelText(caller);
    var node := Clone(macro, prefix);
    SeenIsWalked(base, entry, order, seen, macro);
    FrameInFrame(caller, macro);
    assert NodeState(base, g, prefix, exitTo, FramesLeft(caller), finished, macro);
    if Calls(base, macro) {
      var next :| OnlySuccessor(base, macro, next) && next != EXIT && next != macro;
      CopyHasOne(base, g, prefix, exitTo, macro, next);
      var e := Clone(next, prefix);
      var again := NestedWellPlaced(base, start, g, body, caller, entry, exitTo, order, finished, macro, e);
      assert Placed(base, g, body, node, g.instructions[node].cmd.target, e);
    }
  }

  lemma CopyHasOne(base: Cfg, g: Cfg, prefix: string, exitTo: Label, b: Label, next: Label)
    requires IsCopy(base, g, prefix, exitTo, b) && OnlySuccessor(base, b, next) && next != EXIT
    ensures OnlySuccessor(g, Clone(b, prefix), Clone(next, prefix))
  {
    assert base.Edge(b, next) && Landing(next, prefix, exitTo) == Clone(next, prefix);
  }

  lemma InnerFramed(
    start: Cfg, g: Cfg, h: Cfg, caller: Label, exitTo: Label, node: Label, innerExit: Label)
    requires start.Valid() && Framed(start, g, caller, exitTo, LabelText(caller))
    requires node !in start.neighbours && node.stackFramePrefix == LabelText(caller)
    requires OnlySuccessor(g, node, innerExit) && Framed(g, h, node, innerExit, LabelText(node))
    ensures Framed(start, h, caller, exitTo, LabelText(caller))
  {
    TextNotEmpty(caller);
    assert g.Edge(node, innerExit) && !start.Edge(node, innerExit);
    FramedInside(g, h, node, innerExit, caller, exitTo, LabelText(caller));
    FramedTwice(start, g, h, caller, exitTo, LabelText(caller));
  }

  lemma SeenIsWalked(base: Cfg, entry: Label, order: seq<Label>, seen: set<Label>, macro: Label)
    requires IsWalk(base, entry, order) && WalkState(base, entry, order, {}, seen) && macro in seen
    ensures macro in order
  {
    assert order[0] in order;
  }

  lemma NestedOther(
    base: Cfg, start: Cfg, g: Cfg, body: set<Label>, caller: Label, entry: Label, exitTo: Label, order: seq<Label>,
    finished: set<Label>, seen: set<Label>, macro: Label)
    requires NestedState(base, start, g, body, caller, entry, exitTo, order, finished)
    requires WalkState(base, entry, order, {}, seen) && macro in seen && macro !in finished
    requires var node := Clone(macro, LabelText(caller));
             node in g.instructions && !g.instructions[node].cmd.CallLocal?
    ensures NestedState(base, start, g, body, caller, entry, exitTo, order, finished + {macro})
  {
    SeenIsWalked(base, entry, order, seen, macro);
    assert NodeState(base, g, LabelText(caller), exitTo, FramesLeft(caller), finished, macro);
    NoCallInlined(base, start, g, LabelText(caller), exitTo, FramesLeft(caller), order, finished, macro);
  }

  lemma FrameInFrame(caller: Label, b: Label)
    requires CountDelimiters(caller.special) == 0 && caller.CallStackDepth() < MAX_CALL_STACK_FRAMES
    ensures var node := Clone(b, LabelText(caller));
            && FramesLeft(caller) > 0 && FramesLeft(node) == FramesLeft(caller) - 1
            && Outside(caller, node, LabelText(node))
  {
    TextDepth(caller);
    var node := Clone(b, LabelText(caller));
    TextInside(node);
    if caller.stackFramePrefix != "" {
      TextInside(caller);
    }
  }

  /** A call inside the frame is well placed in turn. */
  lemma NestedWellPlaced(
    base: Cfg, start: Cfg, g: Cfg, body: set<Label>, caller: Label, entry: Label, exitTo: Label, order: seq<Label>,
    finished: set<Label>, macro: Label, innerExit: Label)
    returns (next: Label)
    requires NestedState(base, start, g, body, caller, entry, exitTo, order, finished)
    requires macro in order && macro !in finished
    requires var node := Clone(macro, LabelText(caller));
             && node in g.instructions && g.instructions[node].cmd.CallLocal? && OnlySuccessor(g, node, innerExit)
    ensures var node := Clone(macro, LabelText(caller));
            && Calls(base, macro) && base.instructions[macro].cmd.target == g.instructions[node].cmd.target
            && OnlySuccessor(base, macro, next) && next != EXIT && innerExit == Clone(next, LabelText(caller))
            && WellPlaced(base, g, body, node, base.instructions[macro].cmd.target, innerExit)
  {
    var prefix := LabelText(caller);
    var node := Clone(macro, prefix);
    assert NodeState(base, g, prefix, exitTo, FramesLeft(caller), finished, macro);
    next :| OnlySuccessor(base, macro, next) && next != EXIT && next != macro;
    assert base.Edge(macro, next) && Landing(next, prefix, exitTo) == Clone(next, prefix);
    assert g.Edge(node, Clone(next, prefix));
    NextFrameFits(base, start, g, body, prefix, exitTo, FramesLeft(caller), order, finished, macro, next);
  }

  /** Afterwards the call inside the frame is finished, too. */
  lemma NestedFinished(
    base: Cfg, start: Cfg, g: Cfg, h: Cfg, body: set<Label>, caller: Label, entry: Label, exitTo: Label,
    order: seq<Label>, finished: set<Label>, seen: set<Label>, macro: Label, innerExit: Label)
    requires g.Valid() && NestedState(base, start, g, body, caller, entry, exitTo, order, finished)
    requires CountDelimiters(caller.special) == 0 && caller.CallStackDepth() < MAX_CALL_STACK_FRAMES
    requires WalkState(base, entry, order, {}, seen) && macro in seen && macro !in finished
    requires var node := Clone(macro, LabelText(caller));
             && node in g.instructions && g.instructions[node].cmd.CallLocal? && OnlySuccessor(g, node, innerExit)
             && Framed(g, h, node, innerExit, LabelText(node))
             && (WellPlaced(base, g, body, node, g.instructions[node].cmd.target, innerExit) ==>
                   Inlined(base, h, node, g.instructions[node].cmd.target, innerExit, FramesLeft(node)))
    ensures FrameState(base, start, h, LabelText(caller), exitTo, FramesLeft(caller), order, finished + {macro})
    ensures Clone(macro, LabelText(caller)) !in body && innerExit !in body
  {
    var prefix := LabelText(caller);
    var node := Clone(macro, prefix);
    SeenIsWalked(base, entry, order, seen, macro);
    var next := NestedWellPlaced(base, start, g, body, caller, entry, exitTo, order, finished, macro, innerExit);
    FrameInFrame(caller, macro);
    CallInlined(base, start, g, h, prefix, exitTo, FramesLeft(caller), order, finished, macro, next);
  }

  lemma NestedCall(
    base: Cfg, start: Cfg, g: Cfg, h: Cfg, body: set<Label>, caller: Label, entry: Label, exitTo: Label,
    order: seq<Label>, finished: set<Label>, seen: set<Label>, macro: Label, innerExit: Label)
    requires g.Valid() && NestedState(base, start, g, body, caller, entry, exitTo, order, finished)
    requires CountDelimiters(caller.special) == 0 && caller.CallStackDepth() < MAX_CALL_STACK_FRAMES
    requires WalkState(base, entry, order, {}, seen) && macro in seen && macro !in finished
    requires var node := Clone(macro, LabelText(caller));
             && node in g.instructions && g.instructions[node].cmd.CallLocal? && OnlySuccessor(g, node, innerExit)
             && Framed(g, h, node, innerExit, LabelText(node))
             && (WellPlaced(base, g, body, node, g.instructions[node].cmd.target, innerExit) ==>
                   Inlined(base, h, node, g.instructions[node].cmd.target, innerExit, FramesLeft(node)))
    ensures NestedState(base, start, h, body, caller, entry, exitTo, order, finished + {macro})
  {
    var node := Clone(macro, LabelText(caller));
    NestedFinished(base, start, g, h, body, caller, entry, exitTo, order, finished, seen, macro, innerExit);
    FrameInFrame(caller, macro);
    NestedRest(base, start, g, h, body, caller, entry, exitTo, order, finished, node, innerExit);
  }

  /** The rest of the state, which a call inside the frame does not touch. */
  lemma NestedRest(
    base: Cfg, start: Cfg, g: Cfg, h: Cfg, body: set<Label>, caller: Label, entry: Label, exitTo: Label,
    order: seq<Label>, finished: set<Label>, node: Label, innerExit: Label)
    requires g.Valid() && NestedState(base, start, g, body, caller, entry, exitTo, order, finished)
    requires Framed(g, h, node, innerExit, LabelText(node)) && Outside(caller, node, LabelText(node))
    requires node !in body && innerExit !in body && node.stackFramePrefix != ""
    ensures Untouched(base, h, body) && (forall l :: l in order ==> Clone(l, LabelText(caller)) in h.neighbours)
    ensures caller in h.instructions && h.instructions[caller].cmd == CallLocal(entry, LabelText(caller))
    ensures OnlySuccessor(h, caller, Clone(entry, LabelText(caller)))
  {
    TextNotEmpty(node);
    UntouchedFramed(base, g, h, body, node, innerExit, LabelText(node));
    assert SameNode(g, h, caller);
  }

  lemma NestedEnds(
    base: Cfg, start: Cfg, g: Cfg, body: set<Label>, caller: Label, entry: Label, exitTo: Label, order: seq<Label>,
    seen: set<Label>)
    requires NestedState(base, start, g, body, caller, entry, exitTo, order, seen)
    requires WalkState(base, entry, order, {}, seen)
    ensures Inlined(base, g, caller, entry, exitTo, FramesLeft(caller))
  {
    forall b | b in order ensures InlinedNode(base, g, LabelText(caller), exitTo, FramesLeft(caller), b) {
      assert NodeState(base, g, LabelText(caller), exitTo, FramesLeft(caller), seen, b);
      if Calls(base, b) {
        var k :| 0 <= k < |order| && order[k] == b;
        var next :| OnlySuccessor(base, b, next) && next != EXIT && next != b;
        SingleIsSeen(base, entry, order, seen, k, next);
      }
    }
  }

  /** The walk over the callee. Each round clones a node at a site of its own, or fails. If the
      body is as it was translated, the nodes are cloned in the order of the walk, and the edges
      are those whose source is walked no later than their target. */
  method CloneAll(
    builder: Builder, caller: Label, entry: Label, prefix: string, exitTo: Label,
    ghost base: Cfg, ghost body: set<Label>)
    returns (seen: set<Label>, st: Status, ghost order: seq<Label>)
    requires builder.cfg.Valid() && Shallow(builder.cfg)
    requires caller in builder.cfg.neighbours && exitTo in builder.cfg.neighbours
    requires prefix != "" && CountDelimiters(prefix) + 2 <= MAX_CALL_STACK_FRAMES
    modifies builder
    ensures builder.cfg.Valid()
    ensures st.Done? ==> Shallow(builder.cfg) && Framed(old(builder.cfg), builder.cfg, caller, exitTo, prefix)
    ensures st.Done? ==> forall l :: l in seen ==> Clone(l, prefix) !in old(builder.cfg).neighbours
    ensures st.Done? && Fits(base, old(builder.cfg), body, caller, entry, exitTo, prefix) ==>
              && IsWalk(base, entry, order) && (forall l :: l in order ==> l in body)
              && WalkState(base, entry, order, {}, seen)
              && ClonedNodes(base, old(builder.cfg), builder.cfg, prefix, order)
              && ClonedEdges(base, old(builder.cfg), builder.cfg, caller, entry, prefix, exitTo, order)
    ensures Fits(base, old(builder.cfg), body, caller, entry, exitTo, prefix) && caller != EXIT && exitTo != ENTRY ==>
              (st.Failed? <==> WalkFails(base, entry))
  {
    ghost var start := builder.cfg;
    FramedAlways(start, caller, exitTo, prefix);
    if Fits(base, start, body, caller, entry, exitTo, prefix) {
      CloneBegins(base, start, body, caller, entry, prefix, exitTo);
    }
    ghost var fits := Fits(base, start, body, caller, entry, exitTo, prefix);
    seen, st, order := CloneLoop(builder, caller, entry, prefix, exitTo, base, body, fits);
    if st.Done? && Fits(base, start, body, caller, entry, exitTo, prefix) {
      WalkEnds(base, entry, order, seen);
      FailsByWalk(base, entry, order);
    }
  }

  method CloneLoop(
    builder: Builder, caller: Label, entry: Label, prefix: string, exitTo: Label,
    ghost base: Cfg, ghost body: set<Label>, ghost fits: bool)
    returns (seen: set<Label>, st: Status, ghost order: seq<Label>)
    requires builder.cfg.Valid() && Shallow(builder.cfg)
    requires caller in builder.cfg.neighbours && exitTo in builder.cfg.neighbours
    requires prefix != "" && CountDelimiters(prefix) + 2 <= MAX_CALL_STACK_FRAMES
    requires Framed(builder.cfg, builder.cfg, caller, exitTo, prefix)
    requires fits ==>
               && Fits(base, builder.cfg, body, caller, entry, exitTo, prefix)
               && CloneState(base, builder.cfg, builder.cfg, body, caller, entry, prefix, exitTo, [], {entry}, {entry})
    modifies builder
    ensures builder.cfg.Valid()
    ensures st.Done? ==> Shallow(builder.cfg) && Framed(old(builder.cfg), builder.cfg, caller, exitTo, prefix)
    ensures st.Done? ==> forall l :: l in seen ==> Clone(l, prefix) !in old(builder.cfg).neighbours
    ensures st.Done? && fits ==>
              CloneState(base, old(builder.cfg), builder.cfg, body, caller, entry, prefix, exitTo, order, {}, seen)
    ensures st.Failed? && caller != EXIT && exitTo != ENTRY && fits ==>
              IsWalkPrefix(base, entry, order) && Rediscovers(base, entry, order)
  {
    var work := {entry};
    seen := {entry};
    var first := true;
    order := [];
    ghost var start := builder.cfg;
    ghost var sites := Sites(start);
    while work != {}
      invariant builder.cfg.Valid() && Shallow(builder.cfg) && Framed(start, builder.cfg, caller, exitTo, prefix)
      invariant Sites(builder.cfg) <= sites
      invariant first <==> order == []
      invariant forall l :: l in seen && !(first && l == entry) ==> Clone(l, prefix) !in start.neighbours
      invariant first ==> work == {entry}
      invariant fits ==>
                  CloneState(base, start, builder.cfg, body, caller, entry, prefix, exitTo, order, work, seen)
      decreases SitesLeft(sites, builder.cfg, prefix)
    {
      var macro, found;
      macro, found, st := CloneLeast(
        builder, caller, work, prefix, exitTo, first, seen, base, body, start, entry, order, fits, sites);
      if st.Failed? {
        return;
      }
      first := false;
      work := work - {macro} + found;
      // the walk records the node it stands on, not the successors it found
      seen := if found != {} then seen + {macro} else seen;
      order := order + [macro];
    }
    return seen, Done, order;
  }

  /** One round, which uses up a site. */
  method CloneLeast(
    builder: Builder, caller: Label, work: set<Label>, prefix: string, exitTo: Label, first: bool, seen: set<Label>,
    ghost base: Cfg, ghost body: set<Label>, ghost start: Cfg, ghost entry: Label, ghost order: seq<Label>,
    ghost fits: bool, ghost sites: set<(int, int)>)
    returns (macro: Label, found: set<Label>, st: Status)
    requires builder.cfg.Valid() && Shallow(builder.cfg) && Framed(start, builder.cfg, caller, exitTo, prefix)
    requires prefix != "" && CountDelimiters(prefix) + 2 <= MAX_CALL_STACK_FRAMES
    requires work != {} && (first <==> order == []) && Sites(builder.cfg) <= sites
    requires caller in builder.cfg.neighbours && exitTo in builder.cfg.neighbours
    requires fits ==>
               && Fits(base, start, body, caller, entry, exitTo, prefix)
               && CloneState(base, start, builder.cfg, body, caller, entry, prefix, exitTo, order, work, seen)
    modifies builder
    ensures builder.cfg.Valid() && macro in work
    ensures st.Done? ==>
              && Shallow(builder.cfg) && Framed(start, builder.cfg, caller, exitTo, prefix)
              && Clone(macro, prefix) !in start.neighbours && Sites(builder.cfg) <= sites
              && SitesLeft(sites, builder.cfg, prefix) < SitesLeft(sites, old(builder.cfg), prefix)
              && old(builder.cfg).neighbours.Keys <= builder.cfg.neighbours.Keys
    ensures st.Done? && fits ==>
              CloneState(base, start, builder.cfg, body, caller, entry, prefix, exitTo, order + [macro],
                work - {macro} + found, if found != {} then seen + {macro} else seen)
    ensures st.Failed? && caller != EXIT && exitTo != ENTRY && fits ==>
              IsWalkPrefix(base, entry, order) && Rediscovers(base, entry, order)
  {
    HasLeast(work);
    macro :| IsLeast(work, macro);
    ghost var before := builder.cfg;
    found, st := CloneOne(
      builder, caller, macro, prefix, exitTo, first, seen, base, body, start, entry, order, work, fits);
    if st.Done? {
      SiteUsed(sites, before, builder.cfg, prefix, macro);
    }
  }

  /** A node that cannot be cloned is one that was cloned before. */
  lemma NotClonable(
    base: Cfg, start: Cfg, g: Cfg, body: set<Label>, caller: Label, entry: Label, prefix: string, exitTo: Label,
    order: seq<Label>, work: set<Label>, seen: set<Label>, macro: Label)
    requires Fits(base, start, body, caller, entry, exitTo, prefix)
    requires CloneState(base, start, g, body, caller, entry, prefix, exitTo, order, work, seen)
    requires IsLeast(work, macro) && !Clonable(g, caller, exitTo, prefix, macro)
    requires caller in g.neighbours && caller != EXIT && exitTo in g.neighbours && exitTo != ENTRY
    ensures IsWalkPrefix(base, entry, order) && Rediscovers(base, entry, order)
  {
    assert SameNode(base, g, macro);
    var node := Clone(macro, prefix);
    assert node in g.neighbours && node !in start.neighbours;
    var k :| 0 <= k < |order| && node == Clone(order[k], prefix);
    assert order[k] in order && order[k] == macro;
  }

  /** One round: a node of the callee is cloned and its successors are looked at. */
  method CloneOne(
    builder: Builder, caller: Label, macro: Label, prefix: string, exitTo: Label, first: bool, seen: set<Label>,
    ghost base: Cfg, ghost body: set<Label>, ghost start: Cfg, ghost entry: Label, ghost order: seq<Label>,
    ghost work: set<Label>, ghost fits: bool)
    returns (found: set<Label>, st: Status)
    requires builder.cfg.Valid() && Shallow(builder.cfg) && Framed(start, builder.cfg, caller, exitTo, prefix)
    requires prefix != "" && CountDelimiters(prefix) + 2 <= MAX_CALL_STACK_FRAMES
    requires IsLeast(work, macro) && (first <==> order == [])
    requires caller in builder.cfg.neighbours && exitTo in builder.cfg.neighbours
    requires fits ==>
               && Fits(base, start, body, caller, entry, exitTo, prefix)
               && CloneState(base, start, builder.cfg, body, caller, entry, prefix, exitTo, order, work, seen)
    modifies builder
    ensures builder.cfg.Valid()
    ensures st.Done? ==>
              && Shallow(builder.cfg) && Framed(start, builder.cfg, caller, exitTo, prefix)
              && macro in old(builder.cfg).neighbours && Clone(macro, prefix) !in old(builder.cfg).neighbours
              && Clone(macro, prefix) !in start.neighbours
              && builder.cfg.neighbours.Keys == old(builder.cfg).neighbours.Keys + {Clone(macro, prefix)}
    ensures st.Done? && fits ==>
              CloneState(base, start, builder.cfg, body, caller, entry, prefix, exitTo, order + [macro],
                work - {macro} + found, if found != {} then seen + {macro} else seen)
    ensures st.Failed? && caller != EXIT && exitTo != ENTRY && fits ==>
              IsWalkPrefix(base, entry, order) && Rediscovers(base, entry, order)
  {
    ghost var before, mid := builder.cfg, builder.cfg;
    found, st, mid := CloneAndWalk(builder, caller, macro, prefix, exitTo, first, seen);
    if st.Failed? {
      if fits && caller != EXIT && exitTo != ENTRY {
        NotClonable(base, start, before, body, caller, entry, prefix, exitTo, order, work, seen, macro);
      }
      return;
    }
    RoundFramed(start, before, mid, builder.cfg, caller, macro, prefix, first, exitTo);
    if fits {
      Round(
        base, start, before, mid, builder.cfg, body, caller, entry, prefix, exitTo, order, work, seen, macro, found);
    }
  }

  /** Nothing keeps a node from being cloned but a clone that is there already. */
  ghost predicate Clonable(g: Cfg, caller: Label, exitTo: Label, prefix: string, macro: Label) {
    && caller in g.neighbours && caller != EXIT && exitTo in g.neighbours && exitTo != ENTRY
    && macro in g.neighbours && macro.stackFramePrefix != prefix && Clone(macro, prefix) !in g.neighbours
  }

  method CloneAndWalk(
    builder: Builder, caller: Label, macro: Label, prefix: string, exitTo: Label, first: bool, seen: set<Label>)
    returns (found: set<Label>, st: Status, ghost mid: Cfg)
    requires builder.cfg.Valid() && Shallow(builder.cfg)
    requires prefix != "" && CountDelimiters(prefix) + 2 <= MAX_CALL_STACK_FRAMES
    modifies builder
    ensures builder.cfg.Valid()
    ensures st.Done? ==>
              && Shallow(builder.cfg) && prefix != macro.stackFramePrefix && macro in old(builder.cfg).neighbours
              && NodeCloned(old(builder.cfg), mid, caller, macro, prefix, first)
              && ExitLinked(mid, builder.cfg, macro, prefix, exitTo) && Found(mid, macro, seen, found)
    ensures Clonable(old(builder.cfg), caller, exitTo, prefix, macro) ==> st.Done?
  {
    found, mid := {}, builder.cfg;
    if prefix == macro.stackFramePrefix {
      return found, Failed(IllegalRecursion), mid;
    }
    if macro !in builder.cfg.instructions {
      return found, Failed(UnknownLabel), mid;
    }
    st := CloneNode(builder, caller, macro, prefix, first);
    if st.Failed? {
      return;
    }
    mid := builder.cfg;
    found, st := WalkSuccessors(builder, macro, prefix, exitTo, seen);
  }

  ghost predicate CloneState(
    base: Cfg, start: Cfg, g: Cfg, body: set<Label>, caller: Label, entry: Label, prefix: string, exitTo: Label,
    order: seq<Label>, work: set<Label>, seen: set<Label>)
  {
    && Untouched(base, g, body) && work <= body && (forall l :: l in order ==> l in body)
    && WalkState(base, entry, order, work, seen)
    && ClonedNodes(base, start, g, prefix, order)
    && ClonedEdges(base, start, g, caller, entry, prefix, exitTo, order)
  }

  lemma CloneBegins(
    base: Cfg, start: Cfg, body: set<Label>, caller: Label, entry: Label, prefix: string, exitTo: Label)
    requires Fits(base, start, body, caller, entry, exitTo, prefix)
    ensures CloneState(base, start, start, body, caller, entry, prefix, exitTo, [], {entry}, {entry})
  {
    NothingCloned(base, start, caller, entry, prefix, exitTo);
  }

  lemma RoundFramed(
    start: Cfg, before: Cfg, mid: Cfg, after: Cfg, caller: Label, macro: Label, prefix: string, first: bool,
    exitTo: Label)
    requires before.Valid() && Framed(start, before, caller, exitTo, prefix)
    requires NodeCloned(before, mid, caller, macro, prefix, first) && ExitLinked(mid, after, macro, prefix, exitTo)
    ensures Framed(start, after, caller, exitTo, prefix) && Framed(before, after, caller, exitTo, prefix)
  {
    NodeClonedFramed(before, mid, caller, macro, prefix, first, exitTo);
    ExitLinkedFramed(mid, after, caller, macro, prefix, exitTo);
    FramedTwice(before, mid, after, caller, exitTo, prefix);
    FramedTwice(start, before, after, caller, exitTo, prefix);
  }

  lemma FoundInBase(base: Cfg, before: Cfg, mid: Cfg, body: set<Label>, caller: Label, macro: Label, prefix: string,
                    first: bool, seen: set<Label>, found: set<Label>)
    requires Untouched(base, before, body) && macro in body && caller != macro && macro.stackFramePrefix != prefix
    requires NodeCloned(before, mid, caller, macro, prefix, first) && Found(mid, macro, seen, found)
    requires macro in base.neighbours
    ensures Found(base, macro, seen, found)
  {
    assert SameNode(base, before, macro);
    forall y ensures mid.Edge(macro, y) <==> base.Edge(macro, y) {
      assert mid.Edge(macro, y) <==> before.Edge(macro, y);
    }
    SameChildren(base, mid, macro);
  }

  lemma NotYetCloned(base: Cfg, start: Cfg, g: Cfg, prefix: string, order: seq<Label>, macro: Label)
    requires ClonedNodes(base, start, g, prefix, order) && Clone(macro, prefix) !in g.neighbours
    ensures macro !in order
  {
    forall i | 0 <= i < |order| ensures order[i] != macro {
      assert IsClone(prefix, order, Clone(order[i], prefix));
    }
  }

  lemma RoundWalk(
    base: Cfg, before: Cfg, mid: Cfg, body: set<Label>, caller: Label, entry: Label, prefix: string,
    order: seq<Label>, work: set<Label>, seen: set<Label>, macro: Label, found: set<Label>)
    requires ClosedBody(base, body) && Untouched(base, before, body) && work <= body && caller !in body
    requires forall l :: l in order ==> l in body
    requires WalkState(base, entry, order, work, seen) && IsLeast(work, macro) && macro !in order
    requires macro.stackFramePrefix != prefix
    requires NodeCloned(before, mid, caller, macro, prefix, order == []) && Found(mid, macro, seen, found)
    ensures WalkState(base, entry, order + [macro], work - {macro} + found,
              if found != {} then seen + {macro} else seen)
    ensures work - {macro} + found <= body && forall l :: l in order + [macro] ==> l in body
  {
    FoundInBase(base, before, mid, body, caller, macro, prefix, order == [], seen, found);
    FoundInBody(base, body, macro, seen, found);
    WalkStep(base, entry, order, work, seen, macro, found);
  }

  lemma FoundInBody(base: Cfg, body: set<Label>, macro: Label, seen: set<Label>, found: set<Label>)
    requires ClosedBody(base, body) && macro in body && Found(base, macro, seen, found)
    ensures found <= body
  {
    assert forall l :: l in found ==> base.Edge(macro, l);
  }

  /** One round keeps all of this. */
  lemma Round(
    base: Cfg, start: Cfg, before: Cfg, mid: Cfg, after: Cfg, body: set<Label>, caller: Label, entry: Label,
    prefix: string, exitTo: Label, order: seq<Label>, work: set<Label>, seen: set<Label>, macro: Label,
    found: set<Label>)
    requires before.Valid() && Fits(base, start, body, caller, entry, exitTo, prefix)
    requires CloneState(base, start, before, body, caller, entry, prefix, exitTo, order, work, seen)
    requires IsLeast(work, macro) && macro.stackFramePrefix != prefix
    requires NodeCloned(before, mid, caller, macro, prefix, order == [])
    requires ExitLinked(mid, after, macro, prefix, exitTo) && Found(mid, macro, seen, found)
    requires Framed(before, after, caller, exitTo, prefix)
    ensures CloneState(base, start, after, body, caller, entry, prefix, exitTo, order + [macro],
              work - {macro} + found, if found != {} then seen + {macro} else seen)
  {
    NotYetCloned(base, start, before, prefix, order, macro);
    RoundWalk(base, before, mid, body, caller, entry, prefix, order, work, seen, macro, found);
    RoundNodes(base, start, before, mid, after, body, caller, prefix, exitTo, order, macro, order == []);
    RoundEdges(base, start, before, mid, after, body, caller, entry, prefix, exitTo, order, macro);
    UntouchedFramed(base, before, after, body, caller, exitTo, prefix);
  }

  /** The successors of the node just cloned: the exit becomes the return of the call, and
      others are found unless recorded. Finding one records the node itself. */
  method WalkSuccessors(builder: Builder, macro: Label, prefix: string, exitTo: Label, seen: set<Label>)
    returns (found: set<Label>, st: Status)
    requires builder.cfg.Valid() && macro in builder.cfg.neighbours && prefix != macro.stackFramePrefix && prefix != ""
    modifies builder
    ensures builder.cfg.Valid()
    ensures (&& Clone(macro, prefix) in old(builder.cfg).neighbours
             && exitTo in old(builder.cfg).neighbours && exitTo != ENTRY) ==> st.Done?
    ensures st.Done? ==> ExitLinked(old(builder.cfg), builder.cfg, macro, prefix, exitTo)
    ensures st.Done? ==> Found(old(builder.cfg), macro, seen, found)
  {
    ghost var start := builder.cfg;
    found, st := {}, Done;
    var children := builder.cfg.neighbours[macro].children;
    var rest := children;
    while rest != {}
      invariant builder.cfg.Valid() && rest <= children && st.Done?
      invariant builder.cfg.neighbours.Keys == start.neighbours.Keys && builder.cfg.instructions == start.instructions
      invariant forall x, y :: builder.cfg.Edge(x, y) <==>
                  start.Edge(x, y) || (x == Clone(macro, prefix) && y == exitTo && EXIT in children - rest)
      invariant FoundAmong(children - rest, macro, seen, found)
      invariant forall l, m :: l in rest && m in children - rest ==> LabelLeq(m, l)
      decreases rest
    {
      HasLeast(rest);
      var next :| IsLeast(rest, next);
      LookAtNext(children - rest, next, macro, seen, found);
      assert children - (rest - {next}) == children - rest + {next};
      rest := rest - {next};
      if next == EXIT {
        ghost var before := builder.cfg;
        st := builder.AddChild(Clone(macro, prefix), exitTo);
        if st.Failed? {
          return;
        }
        WithEdgeValid(before, Clone(macro, prefix), exitTo);
      } else if next !in seen && !(found != {} && next == macro) {
        found := found + {next};
      }
    }
    assert forall y :: start.Edge(macro, y) <==> y in children;
  }

  /** One node, with the edges from the caller and from predecessors already cloned. */
  method CloneNode(builder: Builder, caller: Label, macro: Label, prefix: string, first: bool) returns (st: Status)
    requires builder.cfg.Valid() && Shallow(builder.cfg) && macro in builder.cfg.neighbours
    requires prefix != "" && CountDelimiters(prefix) + 2 <= MAX_CALL_STACK_FRAMES
    modifies builder
    ensures builder.cfg.Valid()
    ensures st.Done? ==> NodeCloned(old(builder.cfg), builder.cfg, caller, macro, prefix, first) && Shallow(builder.cfg)
    ensures (&& Clone(macro, prefix) !in old(builder.cfg).neighbours
             && caller in old(builder.cfg).neighbours && caller != EXIT) ==> st.Done?
  {
    ghost var start := builder.cfg;
    var node := Clone(macro, prefix);
    :- builder.Insert(node, InFrame(builder.cfg.instructions[macro].cmd, prefix));
    WithNodeValid(start, node, InFrame(start.instructions[macro].cmd, prefix));
    assert node.CallStackDepth() <= MAX_CALL_STACK_FRAMES;
    if first {
      ghost var before := builder.cfg;
      :- builder.AddChild(caller, node);
      WithEdgeValid(before, caller, node);
    }
    ghost var mid := builder.cfg;
    LinkParents(builder, macro, prefix);
    assert forall p :: mid.Edge(p, macro) <==> start.Edge(p, macro);
    return Done;
  }

  /** Edges from the predecessors that are cloned. */
  method LinkParents(builder: Builder, macro: Label, prefix: string)
    requires builder.cfg.Valid() && macro in builder.cfg.neighbours && prefix != ""
    requires Clone(macro, prefix) in builder.cfg.neighbours
    modifies builder
    ensures builder.cfg.Valid() && builder.cfg.neighbours.Keys == old(builder.cfg).neighbours.Keys
    ensures builder.cfg.instructions == old(builder.cfg).instructions
    ensures forall x, y :: builder.cfg.Edge(x, y) <==>
              old(builder.cfg).Edge(x, y)
              || (y == Clone(macro, prefix) && ClonedParent(old(builder.cfg), macro, prefix, x))
  {
    ghost var start := builder.cfg;
    var node, parents := Clone(macro, prefix), builder.cfg.neighbours[macro].parents;
    var rest := parents;
    while rest != {}
      invariant builder.cfg.Valid() && rest <= parents
      invariant builder.cfg.neighbours.Keys == start.neighbours.Keys && builder.cfg.instructions == start.instructions
      invariant forall x, y :: builder.cfg.Edge(x, y) <==>
                  start.Edge(x, y)
                  || (y == node && x in start.neighbours && exists p :: p in parents - rest && x == Clone(p, prefix))
      decreases rest
    {
      var prev :| prev in rest;
      ghost var before := builder.cfg;
      rest := rest - {prev};
      if Clone(prev, prefix) in builder.cfg.neighbours {
        var st := builder.AddChild(Clone(prev, prefix), node);
        WithEdgeValid(before, Clone(prev, prefix), node);
      }
    }
    assert forall p :: p in parents <==> start.HasParent(macro, p);
  }

  /** The second pass: every local call of the list, in order. If the program is well laid out,
      every call of the main program leads into its frame. If callers come first, the pass fails
      exactly if a call does not fit. */
  method InlineCalls(
    builder: Builder, insts: seq<LabeledInstruction>, ghost main: set<Label>, ghost body: set<Label>,
    ghost bodies: seq<set<Label>>)
    returns (st: Status)
    requires PlainLabels(insts) && GraphOf(insts, builder.cfg) && Shallow(builder.cfg) && |bodies| == |insts|
    modifies builder
    ensures builder.cfg.Valid()
    ensures st.Done? ==> Shallow(builder.cfg) && Reached(insts, old(builder.cfg), bodies, |insts|, builder.cfg)
    ensures st.Failed? ==> FailsSomewhere(insts, old(builder.cfg), bodies)
    ensures (forall k :: 0 <= k < |insts| ==> !insts[k].ins.CallLocal?) ==>
              st.Done? && builder.cfg == old(builder.cfg)
    ensures st.Done? && NoCounters(old(builder.cfg)) ==> NoCounters(builder.cfg)
    ensures st.Done? && WellLaidOut(insts, old(builder.cfg), main, body) && OneBody(insts, body, bodies) ==>
              ProgramInlined(old(builder.cfg), builder.cfg, main)
    ensures CallersFirst(insts, old(builder.cfg), bodies) ==> (st.Done? <==> AllCallsFit(insts, old(builder.cfg)))
  {
    ghost var base := builder.cfg;
    st := InlineAll(builder, insts, bodies);
    if st.Done? && forall k :: 0 <= k < |insts| ==> !insts[k].ins.CallLocal? {
      NoCallsReached(insts, base, bodies, |insts|, builder.cfg);
    }
    if st.Done? && WellLaidOut(insts, base, main, body) && OneBody(insts, body, bodies) {
      GraphIsBase(insts, base);
      ReachedIsInlined(insts, base, main, body, bodies, |insts|, builder.cfg);
      AllInlined(insts, base, builder.cfg, main, body);
    }
    if CallersFirst(insts, base, bodies) {
      GraphIsBase(insts, base);
      if st.Done? {
        ReachedFits(insts, base, bodies, |insts|, builder.cfg);
      } else {
        FailureFits(insts, base, bodies);
      }
    }
  }

  method InlineAll(builder: Builder, insts: seq<LabeledInstruction>, ghost bodies: seq<set<Label>>)
    returns (st: Status)
    requires PlainLabels(insts) && builder.cfg.Valid() && Shallow(builder.cfg) && |bodies| == |insts|
    modifies builder
    ensures builder.cfg.Valid()
    ensures st.Done? ==> Shallow(builder.cfg) && Reached(insts, old(builder.cfg), bodies, |insts|, builder.cfg)
    ensures st.Failed? ==> FailsSomewhere(insts, old(builder.cfg), bodies)
    ensures st.Done? && NoCounters(old(builder.cfg)) ==> NoCounters(builder.cfg)
  {
    for k := 0 to |insts|
      invariant builder.cfg.Valid() && Shallow(builder.cfg)
      invariant Reached(insts, old(builder.cfg), bodies, k, builder.cfg)
      invariant NoCounters(old(builder.cfg)) ==> NoCounters(builder.cfg)
    {
      st := InlineAt(builder, insts, k, old(builder.cfg), bodies);
      if st.Failed? {
        return;
      }
    }
    return Done;
  }

  method InlineAt(
    builder: Builder, insts: seq<LabeledInstruction>, k: nat, ghost base: Cfg, ghost bodies: seq<set<Label>>)
    returns (st: Status)
    requires k < |insts| == |bodies| && PlainLabels(insts) && builder.cfg.Valid() && Shallow(builder.cfg)
    requires Reached(insts, base, bodies, k, builder.cfg)
    modifies builder
    ensures builder.cfg.Valid()
    ensures st.Done? ==> Shallow(builder.cfg) && Reached(insts, base, bodies, k + 1, builder.cfg)
    ensures st.Done? ==> NoCounters(old(builder.cfg)) ==> NoCounters(builder.cfg)
    ensures st.Failed? ==> FailsSomewhere(insts, base, bodies)
  {
    if !insts[k].ins.CallLocal? {
      return Done;
    }
    ghost var before, exitTo := builder.cfg, EXIT;
    st, exitTo := AddCfgNodes(builder, insts[k].lab, insts[k].ins.target, base, bodies[k]);
    assert st.Done? ==> CallDone(insts, base, bodies[k], k, before, builder.cfg, exitTo);
    assert st.Failed? ==> FailsAt(insts, base, bodies, k, before);
  }
}
