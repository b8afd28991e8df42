/** What inlining a local call adds to the graph (add_cfg_nodes in src/asm_cfg.cpp): a copy of the
    body of the callee whose labels carry the text of the call. */
module InlinedFrame {
  import opened AsmSyntax
  import opened ControlFlowGraph
  import opened LabelTexts
  import opened CalleeWalk

  function Clone(l: Label, prefix: string): Label {
    Label(prefix, l.from, l.to, "")
  }

  /** The instruction of a cloned node remembers its frame. */
  function InFrame(cmd: Instruction, prefix: string): Instruction {
    if cmd.Exit? then Exit(prefix) else cmd
  }

  /** Where an edge of the callee leads in the copy: the exit is the return of the call. */
  function Landing(l: Label, prefix: string, exitTo: Label): Label {
    if l == EXIT then exitTo else Clone(l, prefix)
  }

  // ----- what is not touched -----

  predicate Outside(l: Label, caller: Label, prefix: string) {
    l != caller && !Under(l.stackFramePrefix, prefix)
  }

  ghost predicate SameNode(g: Cfg, h: Cfg, l: Label) {
    && l in h.neighbours && l in h.instructions && l in g.instructions && h.instructions[l] == g.instructions[l]
    && forall y :: h.Edge(l, y) <==> g.Edge(l, y)
  }

  ghost predicate SameParents(g: Cfg, h: Cfg, l: Label) {
    forall x :: h.Edge(x, l) <==> g.Edge(x, l)
  }

  ghost predicate NoCounters(g: Cfg) {
    && (forall l :: l in g.instructions ==> !g.instructions[l].cmd.IncrementLoopCounter?)
    && forall l :: l in g.neighbours ==> l.special == ""
  }

  /** Everything outside the frame is as it was, but for the caller's edges and the edges
      into the return; no new edge leads elsewhere, and no new node counts. */
  ghost predicate Framed(g: Cfg, h: Cfg, caller: Label, exitTo: Label, prefix: string) {
    && g.neighbours.Keys <= h.neighbours.Keys
    && (forall l :: l in h.neighbours && l !in g.neighbours ==> Under(l.stackFramePrefix, prefix))
    && (forall l :: l in g.neighbours && Outside(l, caller, prefix) ==>
          SameNode(g, h, l) && (l != exitTo ==> SameParents(g, h, l)))
    && (forall x, y :: h.Edge(x, y) && !g.Edge(x, y) ==> y == exitTo || Under(y.stackFramePrefix, prefix))
    && (NoCounters(g) ==> NoCounters(h))
  }

  lemma FramedAlways(g: Cfg, caller: Label, exitTo: Label, prefix: string)
    requires g.Valid()
    ensures Framed(g, g, caller, exitTo, prefix)
  {
  }

  lemma FramedTwice(g: Cfg, h: Cfg, k: Cfg, caller: Label, exitTo: Label, prefix: string)
    requires Framed(g, h, caller, exitTo, prefix) && Framed(h, k, caller, exitTo, prefix)
    ensures Framed(g, k, caller, exitTo, prefix)
  {
    forall l | l in g.neighbours && Outside(l, caller, prefix)
      ensures SameNode(g, k, l) && (l != exitTo ==> SameParents(g, k, l))
    {
      assert SameNode(g, h, l) && SameNode(h, k, l);
    }
  }

  /** A frame inside the frame. */
  lemma FramedInside(g: Cfg, h: Cfg, inner: Label, innerExit: Label, caller: Label, exitTo: Label, prefix: string)
    requires Framed(g, h, inner, innerExit, LabelText(inner)) && inner.stackFramePrefix == prefix != ""
    requires innerExit == exitTo || Under(innerExit.stackFramePrefix, prefix)
    ensures Framed(g, h, caller, exitTo, prefix)
  {
    TextInside(inner);
    forall s | Under(s, LabelText(inner)) ensures Under(s, prefix) {
      UnderTransitive(s, LabelText(inner), prefix);
    }
  }

  // ----- one node -----

  ghost predicate ClonedParent(g: Cfg, macro: Label, prefix: string, x: Label) {
    && (x in g.neighbours || x == Clone(macro, prefix))
    && exists p :: g.Edge(p, macro) && x == Clone(p, prefix)
  }

  ghost predicate NewParent(g: Cfg, caller: Label, macro: Label, prefix: string, first: bool, x: Label) {
    (first && x == caller) || ClonedParent(g, macro, prefix, x)
  }

  /** A node is cloned, with edges from its cloned predecessors. */
  ghost predicate NodeCloned(g: Cfg, h: Cfg, caller: Label, macro: Label, prefix: string, first: bool) {
    var node := Clone(macro, prefix);
    && node !in g.neighbours && macro in g.instructions && h.Valid()
    && h.neighbours.Keys == g.neighbours.Keys + {node}
    && h.instructions == g.instructions[node := GuardedInstruction(InFrame(g.instructions[macro].cmd, prefix), [])]
    && forall x, y :: h.Edge(x, y) <==>
         g.Edge(x, y) || (y == node && NewParent(g, caller, macro, prefix, first, x))
  }

  /** Its way out is linked to the return. */
  ghost predicate ExitLinked(g: Cfg, h: Cfg, macro: Label, prefix: string, exitTo: Label) {
    && h.Valid() && h.neighbours.Keys == g.neighbours.Keys && h.instructions == g.instructions
    && forall x, y :: h.Edge(x, y) <==>
         g.Edge(x, y) || (x == Clone(macro, prefix) && y == exitTo && g.Edge(macro, EXIT))
  }

  lemma NodeClonedFramed(
    g: Cfg, h: Cfg, caller: Label, macro: Label, prefix: string, first: bool, exitTo: Label)
    requires g.Valid() && NodeCloned(g, h, caller, macro, prefix, first)
    ensures Framed(g, h, caller, exitTo, prefix)
  {
    forall x | ClonedParent(g, macro, prefix, x) ensures Under(x.stackFramePrefix, prefix) {
    }
  }

  lemma ExitLinkedFramed(g: Cfg, h: Cfg, caller: Label, macro: Label, prefix: string, exitTo: Label)
    requires g.Valid() && ExitLinked(g, h, macro, prefix, exitTo)
    ensures Framed(g, h, caller, exitTo, prefix)
  {
  }

  // ----- the body -----

  /** The labels of the translated list, before any call is inlined. */
  ghost predicate IsBase(g: Cfg) {
    && g.Valid() && (forall l :: l in g.neighbours ==> l.stackFramePrefix == "" && l.special == "")
    && forall l :: Calls(g, l) ==> l == InstructionLabel(l.from)
  }

  ghost predicate Calls(g: Cfg, l: Label) {
    l in g.instructions && g.instructions[l].cmd.CallLocal?
  }

  /** Control that is in the body stays there until it leaves, and so do its own calls. */
  ghost predicate ClosedBody(base: Cfg, body: set<Label>) {
    && body <= base.neighbours.Keys - {EXIT}
    && (forall x, y :: x in body && base.Edge(x, y) && y != EXIT ==> y in body)
    && (forall x :: x in body && Calls(base, x) ==> base.instructions[x].cmd.target in body)
  }

  ghost predicate Untouched(base: Cfg, g: Cfg, body: set<Label>) {
    forall l :: l in body ==> SameNode(base, g, l) && SameParents(base, g, l)
  }

  /** The body is still as translated, the call is not part of it, and its frame is new. */
  ghost predicate Fits(
    base: Cfg, g: Cfg, body: set<Label>, caller: Label, entry: Label, exitTo: Label, prefix: string)
  {
    && IsBase(base) && ClosedBody(base, body) && entry in body && Untouched(base, g, body)
    && caller !in body && exitTo !in body && prefix != ""
    && forall l :: l in g.neighbours ==> !Under(l.stackFramePrefix, prefix)
  }

  lemma UntouchedFramed(
    base: Cfg, g: Cfg, h: Cfg, body: set<Label>, caller: Label, exitTo: Label, prefix: string)
    requires IsBase(base) && g.Valid() && ClosedBody(base, body) && Untouched(base, g, body)
    requires Framed(g, h, caller, exitTo, prefix) && caller !in body && exitTo !in body && prefix != ""
    ensures Untouched(base, h, body)
  {
    forall l | l in body ensures SameNode(base, h, l) && SameParents(base, h, l) {
      assert SameNode(base, g, l) && SameParents(base, g, l);
      assert l in base.neighbours && Outside(l, caller, prefix);
      assert SameNode(g, h, l) && SameParents(g, h, l);
    }
  }

  // ----- the copy so far -----

  /** An edge of the callee is copied if its source was walked no later than its target. */
  ghost predicate CopiedEdge(base: Cfg, prefix: string, done: seq<Label>, x: Label, y: Label) {
    exists i, j :: 0 <= i <= j < |done| && base.Edge(done[i], done[j])
                   && x == Clone(done[i], prefix) && y == Clone(done[j], prefix)
  }

  ghost predicate ReturnEdge(base: Cfg, prefix: string, exitTo: Label, done: seq<Label>, x: Label, y: Label) {
    y == exitTo && exists i :: 0 <= i < |done| && base.Edge(done[i], EXIT) && x == Clone(done[i], prefix)
  }

  ghost predicate CallEdge(caller: Label, entry: Label, prefix: string, done: seq<Label>, x: Label, y: Label) {
    done != [] && x == caller && y == Clone(entry, prefix)
  }

  ghost predicate IsClone(prefix: string, done: seq<Label>, l: Label) {
    exists i :: 0 <= i < |done| && l == Clone(done[i], prefix)
  }

  ghost predicate ClonedNodes(base: Cfg, g: Cfg, h: Cfg, prefix: string, done: seq<Label>) {
    && (forall l :: l in h.neighbours <==> l in g.neighbours || IsClone(prefix, done, l))
    && (forall l :: l in g.instructions ==> l in h.instructions && h.instructions[l] == g.instructions[l])
    && forall i :: 0 <= i < |done| ==>
         && done[i] in base.instructions && Clone(done[i], prefix) in h.instructions
         && h.instructions[Clone(done[i], prefix)].cmd == InFrame(base.instructions[done[i]].cmd, prefix)
  }

  ghost predicate ClonedEdges(
    base: Cfg, g: Cfg, h: Cfg, caller: Label, entry: Label, prefix: string, exitTo: Label, done: seq<Label>)
  {
    forall x, y :: h.Edge(x, y) <==>
      || g.Edge(x, y) || CallEdge(caller, entry, prefix, done, x, y)
      || CopiedEdge(base, prefix, done, x, y) || ReturnEdge(base, prefix, exitTo, done, x, y)
  }

  lemma NothingCloned(
    base: Cfg, g: Cfg, caller: Label, entry: Label, prefix: string, exitTo: Label)
    ensures ClonedNodes(base, g, g, prefix, []) && ClonedEdges(base, g, g, caller, entry, prefix, exitTo, [])
  {
  }

  /** Which clones the predecessors have. */
  lemma ParentsCloned(
    base: Cfg, g: Cfg, h: Cfg, body: set<Label>, prefix: string, done: seq<Label>, macro: Label, x: Label)
    requires IsBase(base) && Untouched(base, h, body) && macro in body
    requires forall l :: l in done ==> l in base.neighbours
    requires ClonedNodes(base, g, h, prefix, done) && prefix != "" && macro in base.neighbours
    requires forall l :: l in g.neighbours ==> !Under(l.stackFramePrefix, prefix)
    ensures ClonedParent(h, macro, prefix, x) <==>
              exists i :: 0 <= i < |done + [macro]| && base.Edge((done + [macro])[i], macro)
                          && x == Clone((done + [macro])[i], prefix)
  {
    var next := done + [macro];
    assert SameParents(base, h, macro);
    if ClonedParent(h, macro, prefix, x) {
      var p :| h.Edge(p, macro) && x == Clone(p, prefix);
      assert base.Edge(p, macro) && p in base.neighbours;
      if x == Clone(macro, prefix) {
        assert next[|done|] == p;
      } else {
        assert IsClone(prefix, done, x);
        var i :| 0 <= i < |done| && x == Clone(done[i], prefix);
        assert done[i] in done && next[i] == p;
      }
    } else if i :| 0 <= i < |next| && base.Edge(next[i], macro) && x == Clone(next[i], prefix) {
      assert h.Edge(next[i], macro);
      assert i < |done| ==> IsClone(prefix, done, x);
    }
  }

  lemma CopiedGrows(base: Cfg, prefix: string, done: seq<Label>, macro: Label, x: Label, y: Label)
    ensures CopiedEdge(base, prefix, done + [macro], x, y) <==>
            || CopiedEdge(base, prefix, done, x, y)
            || (y == Clone(macro, prefix)
                && exists i :: 0 <= i < |done + [macro]| && base.Edge((done + [macro])[i], macro)
                               && x == Clone((done + [macro])[i], prefix))
  {
    var next := done + [macro];
    if CopiedEdge(base, prefix, next, x, y) {
      var i, j :| 0 <= i <= j < |next| && base.Edge(next[i], next[j])
                  && x == Clone(next[i], prefix) && y == Clone(next[j], prefix);
      if j < |done| {
        assert next[i] == done[i] && next[j] == done[j];
      }
    }
    if CopiedEdge(base, prefix, done, x, y) {
      var i, j :| 0 <= i <= j < |done| && base.Edge(done[i], done[j])
                  && x == Clone(done[i], prefix) && y == Clone(done[j], prefix);
      assert next[i] == done[i] && next[j] == done[j];
    }
    assert next[|done|] == macro;
  }

  lemma ReturnsGrow(
    base: Cfg, prefix: string, exitTo: Label, done: seq<Label>, macro: Label, x: Label, y: Label)
    ensures ReturnEdge(base, prefix, exitTo, done + [macro], x, y) <==>
            || ReturnEdge(base, prefix, exitTo, done, x, y)
            || (y == exitTo && base.Edge(macro, EXIT) && x == Clone(macro, prefix))
  {
    var next := done + [macro];
    if i :| 0 <= i < |done| && base.Edge(done[i], EXIT) && x == Clone(done[i], prefix) {
      assert next[i] == done[i];
    }
    assert next[|done|] == macro;
  }

  lemma RoundNodes(
    base: Cfg, g: Cfg, h: Cfg, mid: Cfg, next: Cfg, body: set<Label>, caller: Label, prefix: string, exitTo: Label,
    done: seq<Label>, macro: Label, first: bool)
    requires Untouched(base, h, body) && macro in body
    requires h.Valid() && ClonedNodes(base, g, h, prefix, done)
    requires NodeCloned(h, mid, caller, macro, prefix, first) && ExitLinked(mid, next, macro, prefix, exitTo)
    ensures ClonedNodes(base, g, next, prefix, done + [macro])
  {
    var all, node := done + [macro], Clone(macro, prefix);
    assert SameNode(base, h, macro);
    forall l ensures IsClone(prefix, all, l) <==> IsClone(prefix, done, l) || l == node {
      if i :| 0 <= i < |done| && l == Clone(done[i], prefix) {
        assert all[i] == done[i];
      }
      assert all[|done|] == macro;
    }
    forall i | 0 <= i < |all|
      ensures all[i] in base.instructions && Clone(all[i], prefix) in next.instructions
      ensures next.instructions[Clone(all[i], prefix)].cmd == InFrame(base.instructions[all[i]].cmd, prefix)
    {
      if i < |done| {
        assert Clone(done[i], prefix) in h.instructions;
      }
    }
  }

  lemma RoundEdges(
    base: Cfg, g: Cfg, h: Cfg, mid: Cfg, next: Cfg, body: set<Label>, caller: Label, entry: Label, prefix: string,
    exitTo: Label, done: seq<Label>, macro: Label)
    requires Fits(base, g, body, caller, entry, exitTo, prefix) && Untouched(base, h, body)
    requires macro in body && (forall l :: l in done ==> l in body) && (done == [] ==> macro == entry)
    requires ClonedNodes(base, g, h, prefix, done) && ClonedEdges(base, g, h, caller, entry, prefix, exitTo, done)
    requires NodeCloned(h, mid, caller, macro, prefix, done == []) && ExitLinked(mid, next, macro, prefix, exitTo)
    ensures ClonedEdges(base, g, next, caller, entry, prefix, exitTo, done + [macro])
  {
    assert mid.Edge(macro, EXIT) <==> base.Edge(macro, EXIT) by {
      assert SameNode(base, h, macro);
    }
    forall x, y
      ensures next.Edge(x, y) <==>
        || g.Edge(x, y) || CallEdge(caller, entry, prefix, done + [macro], x, y)
        || CopiedEdge(base, prefix, done + [macro], x, y) || ReturnEdge(base, prefix, exitTo, done + [macro], x, y)
    {
      ParentsCloned(base, g, h, body, prefix, done, macro, x);
      CopiedGrows(base, prefix, done, macro, x, y);
      ReturnsGrow(base, prefix, exitTo, done, macro, x, y);
    }
  }

  // ----- the finished frame -----

  /** The edges of a node are those of the callee. */
  ghost predicate SameWays(base: Cfg, g: Cfg, prefix: string, exitTo: Label, b: Label) {
    forall y :: g.Edge(Clone(b, prefix), y) <==> exists x :: base.Edge(b, x) && y == Landing(x, prefix, exitTo)
  }

  ghost predicate IsCopy(base: Cfg, g: Cfg, prefix: string, exitTo: Label, b: Label) {
    && b in base.instructions && Clone(b, prefix) in g.instructions
    && g.instructions[Clone(b, prefix)].cmd == InFrame(base.instructions[b].cmd, prefix)
    && SameWays(base, g, prefix, exitTo, b)
  }

  /** A frame that has just been cloned. */
  ghost predicate Copied(
    base: Cfg, g: Cfg, h: Cfg, caller: Label, entry: Label, prefix: string, exitTo: Label, order: seq<Label>)
  {
    && IsBase(base) && IsWalk(base, entry, order) && entry != EXIT && caller in g.neighbours && exitTo in g.neighbours
    && (forall l :: l in g.neighbours ==> !Under(l.stackFramePrefix, prefix))
    && (forall l :: l in order ==> l in base.neighbours)
    && ClonedNodes(base, g, h, prefix, order)
    && ClonedEdges(base, g, h, caller, entry, prefix, exitTo, order)
  }

  lemma CloneOfOne(base: Cfg, prefix: string, order: seq<Label>, i: nat, k: nat)
    requires IsBase(base) && (forall l :: l in order ==> l in base.neighbours) && i < |order| && k < |order|
    requires Clone(order[i], prefix) == Clone(order[k], prefix)
    ensures order[i] == order[k]
  {
    assert order[i] in order && order[k] in order;
  }

  /** Exactly which edges of the body are copied: those whose source is walked no later than
      their target. */
  lemma EdgeIsCopiedIff(
    base: Cfg, g: Cfg, h: Cfg, caller: Label, entry: Label, prefix: string, exitTo: Label, order: seq<Label>, i: nat,
    j: nat)
    requires Copied(base, g, h, caller, entry, prefix, exitTo, order)
    requires i < |order| && j < |order| && base.Edge(order[i], order[j])
    ensures h.Edge(Clone(order[i], prefix), Clone(order[j], prefix)) <==> i <= j
  {
    var x, y := Clone(order[i], prefix), Clone(order[j], prefix);
    assert x !in g.neighbours && x != caller && y != exitTo;
    if CopiedEdge(base, prefix, order, x, y) {
      var k, m :| 0 <= k <= m < |order| && x == Clone(order[k], prefix) && y == Clone(order[m], prefix);
      CloneOfOne(base, prefix, order, i, k);
      CloneOfOne(base, prefix, order, j, m);
      assert i == k && j == m by {
        WalkedApart(base, entry, order, i, k);
        WalkedApart(base, entry, order, j, m);
      }
    }
  }

  lemma CopyLeads(
    base: Cfg, g: Cfg, h: Cfg, caller: Label, entry: Label, prefix: string, exitTo: Label, order: seq<Label>, i: nat,
    y: Label) returns (x: Label)
    requires Copied(base, g, h, caller, entry, prefix, exitTo, order)
    requires i < |order| && h.Edge(Clone(order[i], prefix), y)
    ensures base.Edge(order[i], x) && y == Landing(x, prefix, exitTo)
  {
    var node := Clone(order[i], prefix);
    assert node !in g.neighbours && node != caller;
    if CopiedEdge(base, prefix, order, node, y) {
      var k, j :| 0 <= k <= j < |order| && base.Edge(order[k], order[j])
                  && node == Clone(order[k], prefix) && y == Clone(order[j], prefix);
      CloneOfOne(base, prefix, order, i, k);
      WalkAvoidsExit(base, entry, order, j);
      x := order[j];
    } else {
      var k :| 0 <= k < |order| && base.Edge(order[k], EXIT) && node == Clone(order[k], prefix);
      CloneOfOne(base, prefix, order, i, k);
      x := EXIT;
    }
  }

  /** The copy is faithful if and only if the walk follows the edges. */
  lemma CopiesAllIff(
    base: Cfg, g: Cfg, h: Cfg, caller: Label, entry: Label, prefix: string, exitTo: Label, order: seq<Label>)
    requires Copied(base, g, h, caller, entry, prefix, exitTo, order)
    ensures (forall b :: b in order ==> SameWays(base, h, prefix, exitTo, b)) <==> Topological(base, order)
  {
    if Topological(base, order) {
      forall b | b in order ensures SameWays(base, h, prefix, exitTo, b) {
        var i :| 0 <= i < |order| && order[i] == b;
        CopyHasWays(base, g, h, caller, entry, prefix, exitTo, order, i);
      }
    } else {
      var i, j :| 0 <= i < |order| && 0 <= j < |order| && base.Edge(order[i], order[j]) && j < i;
      EdgeIsCopiedIff(base, g, h, caller, entry, prefix, exitTo, order, i, j);
      WalkAvoidsExit(base, entry, order, j);
      assert Clone(order[j], prefix) == Landing(order[j], prefix, exitTo);
      assert order[i] in order && !SameWays(base, h, prefix, exitTo, order[i]);
    }
  }

  /** The call leads into its frame and the frame has the nodes of the callee. Of the edges between
      them it has those whose source is walked no later than their target; all edges of the callee
      if and only if the walk follows them. */
  ghost predicate FrameCopied(
    base: Cfg, g: Cfg, caller: Label, entry: Label, exitTo: Label, order: seq<Label>)
  {
    var prefix := LabelText(caller);
    && IsWalk(base, entry, order) && OnlySuccessor(g, caller, Clone(entry, prefix))
    && NodesCopied(base, g, prefix, order) && EdgesCopied(base, g, exitTo, prefix, order)
    && ((forall b :: b in order ==> SameWays(base, g, prefix, exitTo, b)) <==> Topological(base, order))
  }

  ghost predicate NodesCopied(base: Cfg, g: Cfg, prefix: string, order: seq<Label>) {
    forall l :: l in order ==>
      && l in base.instructions && Clone(l, prefix) in g.instructions
      && g.instructions[Clone(l, prefix)].cmd == InFrame(base.instructions[l].cmd, prefix)
  }

  ghost predicate EdgesCopied(base: Cfg, g: Cfg, exitTo: Label, prefix: string, order: seq<Label>) {
    && (forall i, j :: 0 <= i < |order| && 0 <= j < |order| && base.Edge(order[i], order[j]) ==>
          (g.Edge(Clone(order[i], prefix), Clone(order[j], prefix)) <==> i <= j))
    && (forall i, y :: 0 <= i < |order| && g.Edge(Clone(order[i], prefix), y) ==>
          exists x :: base.Edge(order[i], x) && y == Landing(x, prefix, exitTo))
  }

  lemma EdgesCopiedExactly(
    base: Cfg, start: Cfg, mid: Cfg, g: Cfg, caller: Label, entry: Label, prefix: string, exitTo: Label,
    order: seq<Label>)
    requires Copied(base, start, mid, caller, entry, prefix, exitTo, order)
    requires forall b, y :: g.Edge(Clone(b, prefix), y) <==> mid.Edge(Clone(b, prefix), y)
    ensures EdgesCopied(base, g, exitTo, prefix, order)
  {
    forall i, j | 0 <= i < |order| && 0 <= j < |order| && base.Edge(order[i], order[j])
      ensures g.Edge(Clone(order[i], prefix), Clone(order[j], prefix)) <==> i <= j
    {
      EdgeIsCopiedIff(base, start, mid, caller, entry, prefix, exitTo, order, i, j);
    }
    forall i, y | 0 <= i < |order| && g.Edge(Clone(order[i], prefix), y)
      ensures exists x :: base.Edge(order[i], x) && y == Landing(x, prefix, exitTo)
    {
      var x := CopyLeads(base, start, mid, caller, entry, prefix, exitTo, order, i, y);
    }
  }

  lemma CopiedExactly(
    base: Cfg, start: Cfg, mid: Cfg, g: Cfg, caller: Label, entry: Label, prefix: string, exitTo: Label,
    order: seq<Label>)
    requires Copied(base, start, mid, caller, entry, prefix, exitTo, order) && prefix == LabelText(caller)
    requires OnlySuccessor(start, caller, exitTo) && g.instructions == mid.instructions
    requires forall x, y :: g.Edge(x, y) <==> mid.Edge(x, y) && !(x == caller && y == exitTo)
    ensures FrameCopied(base, g, caller, entry, exitTo, order)
  {
    CallerLeadsInside(base, start, mid, g, caller, entry, prefix, exitTo, order);
    assert forall b, y :: g.Edge(Clone(b, prefix), y) <==> mid.Edge(Clone(b, prefix), y);
    EdgesCopiedExactly(base, start, mid, g, caller, entry, prefix, exitTo, order);
    CopiesAllIff(base, start, mid, caller, entry, prefix, exitTo, order);
    assert forall b :: SameWays(base, g, prefix, exitTo, b) <==> SameWays(base, mid, prefix, exitTo, b);
  }

  lemma CopyHasWays(
    base: Cfg, g: Cfg, h: Cfg, caller: Label, entry: Label, prefix: string, exitTo: Label, order: seq<Label>, i: nat)
    requires Copied(base, g, h, caller, entry, prefix, exitTo, order) && Topological(base, order) && i < |order|
    ensures SameWays(base, h, prefix, exitTo, order[i])
  {
    var node := Clone(order[i], prefix);
    forall y
      ensures h.Edge(node, y) <==> exists x :: base.Edge(order[i], x) && y == Landing(x, prefix, exitTo)
    {
      if h.Edge(node, y) {
        var x := CopyLeads(base, g, h, caller, entry, prefix, exitTo, order, i, y);
      }
      if x :| base.Edge(order[i], x) && y == Landing(x, prefix, exitTo) {
        if x == EXIT {
          assert ReturnEdge(base, prefix, exitTo, order, node, y);
        } else {
          assert !Ahead(base, order, x);
          var j :| 0 <= j < |order| && order[j] == x;
          EdgeIsCopiedIff(base, g, h, caller, entry, prefix, exitTo, order, i, j);
        }
      }
    }
  }

  /** A call leads into its frame, and the frame is a copy of the body of the callee in which
      the calls lead into their frames in turn. */
  ghost predicate Inlined(base: Cfg, g: Cfg, caller: Label, entry: Label, exitTo: Label, depth: nat)
    decreases depth, 1
  {
    && caller in g.instructions && g.instructions[caller].cmd == CallLocal(entry, LabelText(caller))
    && OnlySuccessor(g, caller, Clone(entry, LabelText(caller)))
    && exists order :: IsWalk(base, entry, order)
         && forall b :: b in order ==> InlinedNode(base, g, LabelText(caller), exitTo, depth, b)
  }

  ghost predicate InlinedNode(base: Cfg, g: Cfg, prefix: string, exitTo: Label, depth: nat, b: Label)
    decreases depth, 0
  {
    if Calls(base, b) then
      && depth > 0
      && exists next :: OnlySuccessor(base, b, next) && next != EXIT
           && Inlined(base, g, Clone(b, prefix), base.instructions[b].cmd.target, Clone(next, prefix), depth - 1)
    else IsCopy(base, g, prefix, exitTo, b)
  }

  /** The caller and everything inside its frame is as it was. */
  ghost predicate SameFrame(g: Cfg, h: Cfg, caller: Label) {
    forall l :: l in g.neighbours && (l == caller || Under(l.stackFramePrefix, LabelText(caller))) ==> SameNode(g, h, l)
  }

  lemma {:induction false} InlinedStays(
    base: Cfg, g: Cfg, h: Cfg, caller: Label, entry: Label, exitTo: Label, depth: nat)
    requires g.Valid() && Inlined(base, g, caller, entry, exitTo, depth) && SameFrame(g, h, caller)
    ensures Inlined(base, h, caller, entry, exitTo, depth)
    decreases depth, 1
  {
    var prefix := LabelText(caller);
    assert SameNode(g, h, caller);
    var order :| IsWalk(base, entry, order)
      && forall b :: b in order ==> InlinedNode(base, g, prefix, exitTo, depth, b);
    forall b | b in order ensures InlinedNode(base, h, prefix, exitTo, depth, b) {
      NodeStays(base, g, h, caller, exitTo, depth, b);
    }
  }

  lemma {:induction false} NodeStays(
    base: Cfg, g: Cfg, h: Cfg, caller: Label, exitTo: Label, depth: nat, b: Label)
    requires g.Valid() && InlinedNode(base, g, LabelText(caller), exitTo, depth, b) && SameFrame(g, h, caller)
    ensures InlinedNode(base, h, LabelText(caller), exitTo, depth, b)
    decreases depth, 0
  {
    var prefix := LabelText(caller);
    var node := Clone(b, prefix);
    if Calls(base, b) {
      var next :| OnlySuccessor(base, b, next) && next != EXIT
        && Inlined(base, g, node, base.instructions[b].cmd.target, Clone(next, prefix), depth - 1);
      TextNotEmpty(caller);
      TextInside(node);
      forall l | l in g.neighbours && (l == node || Under(l.stackFramePrefix, LabelText(node)))
        ensures SameNode(g, h, l)
      {
        if l != node {
          UnderTransitive(l.stackFramePrefix, LabelText(node), prefix);
        }
      }
      InlinedStays(base, g, h, node, base.instructions[b].cmd.target, Clone(next, prefix), depth - 1);
    } else {
      assert SameNode(g, h, node);
    }
  }

  // ----- the calls inside the frame -----

  /** The frames of the calls that have been inlined. */
  ghost predicate InFinished(base: Cfg, prefix: string, finished: set<Label>, l: Label) {
    exists b :: b in finished && Calls(base, b) && Under(l.stackFramePrefix, LabelText(Clone(b, prefix)))
  }

  ghost predicate NodeState(
    base: Cfg, g: Cfg, prefix: string, exitTo: Label, depth: nat, finished: set<Label>, b: Label)
  {
    if Calls(base, b) && b in finished then InlinedNode(base, g, prefix, exitTo, depth, b)
    else IsCopy(base, g, prefix, exitTo, b)
  }

  /** The frame while its calls are being inlined. */
  ghost predicate FrameState(
    base: Cfg, start: Cfg, g: Cfg, prefix: string, exitTo: Label, depth: nat, order: seq<Label>, finished: set<Label>)
  {
    && (forall b :: b in order ==> NodeState(base, g, prefix, exitTo, depth, finished, b))
    && forall l :: l in g.neighbours && l !in start.neighbours && l.stackFramePrefix != prefix ==>
         InFinished(base, prefix, finished, l)
  }

  /** Every call of the body returns into the body, to another instruction. */
  ghost predicate CallsReturn(base: Cfg, body: set<Label>) {
    forall l :: l in body && Calls(base, l) ==>
      exists next :: OnlySuccessor(base, l, next) && next != EXIT && next != l
  }

  /** The function that begins at `entry`, and those called from the body, are walked along
      their edges. */
  ghost predicate Smooth(base: Cfg, body: set<Label>, entry: Label) {
    && (forall order :: IsWalk(base, entry, order) ==> Topological(base, order))
    && forall l, order :: l in body && Calls(base, l) && IsWalk(base, base.instructions[l].cmd.target, order) ==>
         Topological(base, order)
  }

  lemma TextOfCall(base: Cfg, b: Label, prefix: string)
    requires IsBase(base) && Calls(base, b) && prefix != ""
    ensures LabelText(Clone(b, prefix)) == FrameText(prefix, b.from)
  {
    TextOfInstruction(Clone(b, prefix));
  }

  lemma FramesOfCallsApart(base: Cfg, a: Label, b: Label, prefix: string, s: string)
    requires IsBase(base) && Calls(base, a) && Calls(base, b) && prefix != ""
    requires Under(s, LabelText(Clone(a, prefix))) && Under(s, LabelText(Clone(b, prefix)))
    ensures a == b
  {
    TextOfCall(base, a, prefix);
    TextOfCall(base, b, prefix);
    CallsApart(s, prefix, a.from, b.from);
  }

  /** The frame of the next call is new. */
  lemma NextFrameFits(
    base: Cfg, start: Cfg, g: Cfg, body: set<Label>, prefix: string, exitTo: Label, depth: nat, order: seq<Label>,
    finished: set<Label>, b: Label, next: Label)
    requires IsBase(base) && ClosedBody(base, body) && Untouched(base, g, body) && prefix != ""
    requires forall l :: l in start.neighbours ==> !Under(l.stackFramePrefix, prefix)
    requires FrameState(base, start, g, prefix, exitTo, depth, order, finished)
    requires b in body && Calls(base, b) && b !in finished
    ensures Fits(base, g, body, Clone(b, prefix), base.instructions[b].cmd.target, Clone(next, prefix),
              LabelText(Clone(b, prefix)))
  {
    var node := Clone(b, prefix);
    TextInside(node);
    forall l | l in g.neighbours ensures !Under(l.stackFramePrefix, LabelText(node)) {
      if Under(l.stackFramePrefix, LabelText(node)) {
        UnderTransitive(l.stackFramePrefix, LabelText(node), prefix);
        assert InFinished(base, prefix, finished, l);
        var a :| a in finished && Calls(base, a) && Under(l.stackFramePrefix, LabelText(Clone(a, prefix)));
        FramesOfCallsApart(base, a, b, prefix, l.stackFramePrefix);
      }
    }
  }

  lemma OtherFrameSame(base: Cfg, g: Cfg, h: Cfg, prefix: string, b: Label, a: Label, innerExit: Label)
    requires IsBase(base) && g.Valid() && prefix != "" && a != b && Calls(base, b) && Calls(base, a)
    requires Framed(g, h, Clone(b, prefix), innerExit, LabelText(Clone(b, prefix)))
    ensures SameFrame(g, h, Clone(a, prefix))
  {
    var node, other := Clone(b, prefix), Clone(a, prefix);
    TextInside(node);
    TextInside(other);
    forall l | l in g.neighbours && (l == other || Under(l.stackFramePrefix, LabelText(other)))
      ensures SameNode(g, h, l)
    {
      if l != other && Under(l.stackFramePrefix, LabelText(node)) {
        FramesOfCallsApart(base, a, b, prefix, l.stackFramePrefix);
      }
      assert Outside(l, node, LabelText(node));
    }
  }

  lemma CopyStays(base: Cfg, g: Cfg, h: Cfg, prefix: string, exitTo: Label, a: Label)
    requires IsCopy(base, g, prefix, exitTo, a) && SameNode(g, h, Clone(a, prefix))
    ensures IsCopy(base, h, prefix, exitTo, a)
  {
  }

  lemma InlinedCallStays(base: Cfg, g: Cfg, h: Cfg, prefix: string, exitTo: Label, depth: nat, a: Label)
    requires g.Valid() && Calls(base, a) && InlinedNode(base, g, prefix, exitTo, depth, a)
    requires SameFrame(g, h, Clone(a, prefix))
    ensures InlinedNode(base, h, prefix, exitTo, depth, a)
  {
    var node, target := Clone(a, prefix), base.instructions[a].cmd.target;
    var next :| OnlySuccessor(base, a, next) && next != EXIT
      && Inlined(base, g, node, target, Clone(next, prefix), depth - 1);
    InlinedStays(base, g, h, node, target, Clone(next, prefix), depth - 1);
  }

  /** Inlining one call leaves the other nodes of the frame and their frames alone. */
  lemma OtherNodeStays(
    base: Cfg, g: Cfg, h: Cfg, prefix: string, exitTo: Label, depth: nat, finished: set<Label>, b: Label, a: Label,
    innerExit: Label)
    requires IsBase(base) && g.Valid() && prefix != "" && a != b && Calls(base, b)
    requires a in base.neighbours && Clone(a, prefix) in g.neighbours
    requires Framed(g, h, Clone(b, prefix), innerExit, LabelText(Clone(b, prefix)))
    requires NodeState(base, g, prefix, exitTo, depth, finished, a)
    ensures NodeState(base, h, prefix, exitTo, depth, finished + {b}, a)
  {
    var node, other := Clone(b, prefix), Clone(a, prefix);
    if Calls(base, a) && a in finished {
      OtherFrameSame(base, g, h, prefix, b, a, innerExit);
      InlinedCallStays(base, g, h, prefix, exitTo, depth, a);
    } else {
      TextInside(node);
      assert Outside(other, node, LabelText(node));
      CopyStays(base, g, h, prefix, exitTo, a);
    }
  }

  lemma CallInlined(
    base: Cfg, start: Cfg, g: Cfg, h: Cfg, prefix: string, exitTo: Label, depth: nat, order: seq<Label>,
    finished: set<Label>, b: Label, next: Label)
    requires IsBase(base) && g.Valid() && prefix != "" && depth > 0
    requires forall l :: l in order ==> l in base.neighbours && Clone(l, prefix) in g.neighbours
    requires FrameState(base, start, g, prefix, exitTo, depth, order, finished)
    requires Calls(base, b) && OnlySuccessor(base, b, next) && next != EXIT
    requires Framed(g, h, Clone(b, prefix), Clone(next, prefix), LabelText(Clone(b, prefix)))
    requires Inlined(base, h, Clone(b, prefix), base.instructions[b].cmd.target, Clone(next, prefix), depth - 1)
    ensures FrameState(base, start, h, prefix, exitTo, depth, order, finished + {b})
  {
    forall a | a in order ensures NodeState(base, h, prefix, exitTo, depth, finished + {b}, a) {
      if a != b {
        OtherNodeStays(base, g, h, prefix, exitTo, depth, finished, b, a, Clone(next, prefix));
      }
    }
    forall l | l in h.neighbours && l !in start.neighbours && l.stackFramePrefix != prefix
      ensures InFinished(base, prefix, finished + {b}, l)
    {
      if l in g.neighbours {
        assert InFinished(base, prefix, finished, l);
      }
    }
  }

  lemma NoCallInlined(
    base: Cfg, start: Cfg, g: Cfg, prefix: string, exitTo: Label, depth: nat, order: seq<Label>,
    finished: set<Label>, b: Label)
    requires FrameState(base, start, g, prefix, exitTo, depth, order, finished) && !Calls(base, b)
    ensures FrameState(base, start, g, prefix, exitTo, depth, order, finished + {b})
  {
    forall a | a in order ensures NodeState(base, g, prefix, exitTo, depth, finished + {b}, a) {
      assert NodeState(base, g, prefix, exitTo, depth, finished, a);
    }
    forall l | l in g.neighbours && l !in start.neighbours && l.stackFramePrefix != prefix
      ensures InFinished(base, prefix, finished + {b}, l)
    {
      assert InFinished(base, prefix, finished, l);
    }
  }

  /** The frame right after the clone, when the caller no longer leads to the return. */
  lemma FrameBegins(
    base: Cfg, start: Cfg, mid: Cfg, g: Cfg, caller: Label, entry: Label, prefix: string, exitTo: Label, depth: nat,
    order: seq<Label>)
    requires Copied(base, start, mid, caller, entry, prefix, exitTo, order) && Topological(base, order)
    requires g.instructions == mid.instructions && g.neighbours.Keys == mid.neighbours.Keys
    requires forall x, y :: g.Edge(x, y) <==> mid.Edge(x, y) && !(x == caller && y == exitTo)
    ensures FrameState(base, start, g, prefix, exitTo, depth, order, {})
  {
    forall b | b in order ensures NodeState(base, g, prefix, exitTo, depth, {}, b) {
      var i :| 0 <= i < |order| && order[i] == b;
      CopyHasWays(base, start, mid, caller, entry, prefix, exitTo, order, i);
      assert Clone(b, prefix) != caller;
      assert SameWays(base, g, prefix, exitTo, b);
    }
  }

  /** The caller leads into its frame and nowhere else. */
  lemma CallerLeadsInside(
    base: Cfg, start: Cfg, mid: Cfg, g: Cfg, caller: Label, entry: Label, prefix: string, exitTo: Label,
    order: seq<Label>)
    requires Copied(base, start, mid, caller, entry, prefix, exitTo, order) && OnlySuccessor(start, caller, exitTo)
    requires forall x, y :: g.Edge(x, y) <==> mid.Edge(x, y) && !(x == caller && y == exitTo)
    ensures OnlySuccessor(g, caller, Clone(entry, prefix))
  {
    forall y ensures g.Edge(caller, y) <==> y == Clone(entry, prefix) {
      assert !CopiedEdge(base, prefix, order, caller, y) && !ReturnEdge(base, prefix, exitTo, order, caller, y);
    }
  }

  /** What the frame of a call must be for the copy to be the callee. */
  ghost predicate WellPlaced(
    base: Cfg, g: Cfg, body: set<Label>, caller: Label, entry: Label, exitTo: Label)
  {
    && Fits(base, g, body, caller, entry, exitTo, LabelText(caller))
    && CallsReturn(base, body) && Smooth(base, body, entry)
    && caller in g.instructions && g.instructions[caller].cmd.CallLocal?
    && g.instructions[caller].cmd.target == entry
  }

  function FramesLeft(l: Label): nat {
    if l.CallStackDepth() <= MAX_CALL_STACK_FRAMES then MAX_CALL_STACK_FRAMES - l.CallStackDepth() else 0
  }

  /** A call of a function that calls nothing itself. */
  ghost predicate LeafPlaced(
    base: Cfg, g: Cfg, body: set<Label>, caller: Label, entry: Label, exitTo: Label)
  {
    && Fits(base, g, body, caller, entry, exitTo, LabelText(caller))
    && caller in g.instructions && g.instructions[caller].cmd.CallLocal? && g.instructions[caller].cmd.target == entry
    && OnlySuccessor(g, caller, exitTo)
    && forall l :: l in body ==> !Calls(base, l)
  }

  ghost predicate IsCopied(base: Cfg, g: Cfg, caller: Label, entry: Label, exitTo: Label) {
    && caller in g.instructions && g.instructions[caller].cmd == CallLocal(entry, LabelText(caller))
    && exists order :: FrameCopied(base, g, caller, entry, exitTo, order)
  }

  // ----- when a call can be inlined -----

  /** The function that begins at `entry` can be inlined into the frames that are left: its walk
      finds nothing again that it did not record, and its calls find a frame each. */
  ghost predicate CallFits(base: Cfg, entry: Label, frames: nat)
    decreases frames, 1
  {
    && !WalkFails(base, entry)
    && forall order :: IsWalk(base, entry, order) ==> forall b :: b in order ==> FrameFits(base, b, frames)
  }

  ghost predicate FrameFits(base: Cfg, b: Label, frames: nat)
    decreases frames, 0
  {
    Calls(base, b) ==> frames > 1 && CallFits(base, base.instructions[b].cmd.target, frames - 1)
  }

  /** The frame and its calls are decided by the list alone. */
  ghost predicate Placed(base: Cfg, g: Cfg, body: set<Label>, caller: Label, entry: Label, exitTo: Label) {
    && (WellPlaced(base, g, body, caller, entry, exitTo) || LeafPlaced(base, g, body, caller, entry, exitTo))
    && OnlySuccessor(g, caller, exitTo)
  }

  lemma FitsByWalk(base: Cfg, entry: Label, order: seq<Label>, frames: nat)
    requires IsWalk(base, entry, order) && !WalkFails(base, entry)
    ensures CallFits(base, entry, frames) <==> forall b :: b in order ==> FrameFits(base, b, frames)
  {
    forall other | IsWalk(base, entry, other) ensures other == order {
      WalkUnique(base, entry, other, order);
    }
  }
}
