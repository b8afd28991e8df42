/** Programs with local calls: which layouts of a list are inlined faithfully, and the state of
    the graph while the calls of the list are inlined one after the other (the second pass of
    instruction_seq_to_cfg in src/asm_cfg.cpp). */
module CallLayout {
  import opened AsmSyntax
  import opened ControlFlowGraph
  import opened InstructionSeqToCfg
  import opened LabelTexts
  import opened CalleeWalk
  import opened InlinedFrame

  predicate IsCallAt(insts: seq<LabeledInstruction>, k: int) {
    0 <= k < |insts| && insts[k].ins.CallLocal?
  }

  /** The main program keeps to `main` and the functions to `body`; the calls of the main program
      come before those of the functions; a call outside the functions does not return into
      them; and every function is walked along its edges. */
  ghost predicate WellLaidOut(insts: seq<LabeledInstruction>, base: Cfg, main: set<Label>, body: set<Label>) {
    && ClosedBody(base, body) && CallsReturn(base, body)
    && ENTRY in main && main <= base.neighbours.Keys
    && (forall x, y :: x in main && base.Edge(x, y) ==> y in main)
    && (forall k :: IsCallAt(insts, k) && insts[k].lab in main ==>
          insts[k].ins.target in body && Smooth(base, body, insts[k].ins.target))
    && (forall i, j ::
          IsCallAt(insts, i) && IsCallAt(insts, j) && insts[i].lab in main && insts[j].lab in body ==> i < j)
    && (forall k, next ::
          IsCallAt(insts, k) && insts[k].lab !in body && base.Edge(insts[k].lab, next) ==> next !in body)
  }

  lemma {:induction false} WalkInBody(base: Cfg, body: set<Label>, entry: Label, order: seq<Label>, k: nat)
    requires ClosedBody(base, body) && entry in body && IsWalkPrefix(base, entry, order) && k < |order|
    ensures order[k] in body
    decreases k
  {
    if k > 0 {
      assert IsNext(base, order[..k], order[k]);
      var p :| p in order[..k] && base.Edge(p, order[k]);
      var i :| 0 <= i < k && order[i] == p;
      WalkInBody(base, body, entry, order, i);
    }
  }

  /** Functions in which no edge leads to a smaller label, that is, without jumps back, are walked
      along their edges. */
  lemma ForwardIsSmooth(base: Cfg, body: set<Label>, entry: Label)
    requires ClosedBody(base, body) && entry in body
    requires forall x, y :: x in body && y in body && base.Edge(x, y) ==> LabelLeq(x, y)
    ensures Smooth(base, body, entry)
  {
    forall start, order | start in body && IsWalk(base, start, order) ensures Topological(base, order) {
      forall l | l in order ensures l in body {
        var k :| 0 <= k < |order| && order[k] == l;
        WalkInBody(base, body, start, order, k);
      }
      ForwardIsTopological(base, start, order);
    }
  }

  /** Jump nodes call nothing, so a call is an instruction of the list. */
  lemma JumpIsNoCall(insts: seq<LabeledInstruction>, base: Cfg, l: Label)
    requires GraphOf(insts, base)
    ensures IsJumpBelow(insts, |insts|, l) ==> !Calls(base, l)
  {
  }

  lemma CallIsListed(insts: seq<LabeledInstruction>, base: Cfg, l: Label)
    requires GraphOf(insts, base)
    ensures Calls(base, l) <==> CalledBelow(insts, |insts|, l)
  {
    JumpIsNoCall(insts, base, l);
    forall i | IsCallAt(insts, i) ensures Calls(base, insts[i].lab) {
      assert Defined(insts, i);
    }
    if Calls(base, l) {
      var i :| Defined(insts, i) && insts[i].lab == l;
      assert IsCallAt(insts, i);
    }
  }

  lemma GraphIsBase(insts: seq<LabeledInstruction>, base: Cfg)
    requires PlainLabels(insts) && GraphOf(insts, base)
    ensures IsBase(base)
  {
    forall l | l in base.neighbours ensures l.stackFramePrefix == "" && l.special == "" {
      if IsJumpBelow(insts, |insts|, l) {
        var i :| i < |insts| && IsJumpOf(insts, i, l);
      }
    }
    forall l | Calls(base, l) ensures l == InstructionLabel(l.from) {
      CallIsListed(insts, base, l);
    }
  }

  ghost predicate CalledBelow(insts: seq<LabeledInstruction>, k: int, l: Label) {
    exists i :: i < k && IsCallAt(insts, i) && insts[i].lab == l
  }

  /** Inside the frame of one of the first k calls. */
  ghost predicate FramedBelow(insts: seq<LabeledInstruction>, k: int, l: Label) {
    exists i :: i < k && IsCallAt(insts, i) && Under(l.stackFramePrefix, LabelText(insts[i].lab))
  }

  ghost predicate InlinedAt(base: Cfg, g: Cfg, l: Label) {
    && Calls(base, l)
    && exists next :: OnlySuccessor(base, l, next)
                      && Inlined(base, g, l, base.instructions[l].cmd.target, next, FramesLeft(l))
  }

  ghost predicate LabelsSoFar(insts: seq<LabeledInstruction>, base: Cfg, g: Cfg, k: int) {
    && (forall l :: l in base.neighbours && !CalledBelow(insts, k, l) ==> SameNode(base, g, l))
    && (forall l :: l in g.neighbours ==> l in base.neighbours || FramedBelow(insts, k, l))
  }

  ghost predicate NoneCalled(insts: seq<LabeledInstruction>, body: set<Label>, k: int) {
    forall i :: i < k && IsCallAt(insts, i) ==> insts[i].lab !in body
  }

  /** The first k calls are inlined. */
  ghost predicate InlinedBelow(
    insts: seq<LabeledInstruction>, base: Cfg, g: Cfg, main: set<Label>, body: set<Label>, k: int)
  {
    && LabelsSoFar(insts, base, g, k)
    && (forall i :: i < k && IsCallAt(insts, i) && insts[i].lab in main ==> InlinedAt(base, g, insts[i].lab))
    && (NoneCalled(insts, body, k) ==> Untouched(base, g, body))
  }

  // ----- one call after the other -----

  /** Call k is inlined: the frame is all that is new, and it is the callee if the call is well
      placed. The frame of a function that calls nothing is known in any case. */
  ghost predicate CallDone(
    insts: seq<LabeledInstruction>, base: Cfg, body: set<Label>, k: int, g: Cfg, h: Cfg, exitTo: Label)
    requires 0 <= k < |insts|
  {
    var c := insts[k];
    && c.ins.CallLocal? && g.Valid() && OnlySuccessor(g, c.lab, exitTo)
    && Framed(g, h, c.lab, exitTo, LabelText(c.lab))
    && (WellPlaced(base, g, body, c.lab, c.ins.target, exitTo) ==>
          Inlined(base, h, c.lab, c.ins.target, exitTo, FramesLeft(c.lab)))
    && (LeafPlaced(base, g, body, c.lab, c.ins.target, exitTo) ==>
          IsCopied(base, h, c.lab, c.ins.target, exitTo))
    && (Placed(base, g, body, c.lab, c.ins.target, exitTo) ==> CallFits(base, c.ins.target, FramesLeft(c.lab)))
  }

  /** Call k fails, and if the frame is decided by the list, then because it does not fit. */
  ghost predicate CallFails(insts: seq<LabeledInstruction>, base: Cfg, body: set<Label>, k: nat, g: Cfg)
    requires k < |insts|
  {
    && insts[k].ins.CallLocal? && g.Valid()
    && forall e :: Placed(base, g, body, insts[k].lab, insts[k].ins.target, e) ==>
         !CallFits(base, insts[k].ins.target, FramesLeft(insts[k].lab))
  }

  /** The graph after the first k instructions of the second pass; each call has a body. */
  ghost predicate Reached(insts: seq<LabeledInstruction>, base: Cfg, bodies: seq<set<Label>>, k: nat, g: Cfg)
    requires k <= |insts| == |bodies|
    decreases k, 0
  {
    if k == 0 then g == base
    else if insts[k - 1].ins.CallLocal? then ReachedByCall(insts, base, bodies, k - 1, g)
    else Reached(insts, base, bodies, k - 1, g)
  }

  ghost predicate ReachedByCall(insts: seq<LabeledInstruction>, base: Cfg, bodies: seq<set<Label>>, k: nat, g: Cfg)
    requires k < |insts| == |bodies|
    decreases k, 1
  {
    exists before, exitTo ::
      CallDone(insts, base, bodies[k], k, before, g, exitTo) && Reached(insts, base, bodies, k, before)
  }

  ghost predicate FailsAt(insts: seq<LabeledInstruction>, base: Cfg, bodies: seq<set<Label>>, k: nat, g: Cfg) {
    k < |insts| == |bodies| && Reached(insts, base, bodies, k, g) && CallFails(insts, base, bodies[k], k, g)
  }

  /** Without local calls nothing happens. */
  lemma {:induction false} NoCallsReached(
    insts: seq<LabeledInstruction>, base: Cfg, bodies: seq<set<Label>>, k: nat, g: Cfg)
    requires k <= |insts| == |bodies| && Reached(insts, base, bodies, k, g)
    requires forall j :: 0 <= j < |insts| ==> !insts[j].ins.CallLocal?
    ensures g == base
  {
    if k > 0 {
      NoCallsReached(insts, base, bodies, k - 1, g);
    }
  }

  ghost predicate FailsSomewhere(insts: seq<LabeledInstruction>, base: Cfg, bodies: seq<set<Label>>) {
    exists k, g :: FailsAt(insts, base, bodies, k, g)
  }

  /** The calls outside the functions have one body in common. */
  ghost predicate OneBody(insts: seq<LabeledInstruction>, body: set<Label>, bodies: seq<set<Label>>) {
    |bodies| == |insts| && forall k :: IsCallAt(insts, k) && insts[k].lab !in body ==> bodies[k] == body
  }

  lemma {:induction false} ReachedIsInlined(
    insts: seq<LabeledInstruction>, base: Cfg, main: set<Label>, body: set<Label>, bodies: seq<set<Label>>, k: nat,
    g: Cfg)
    requires PlainLabels(insts) && GraphOf(insts, base) && IsBase(base) && WellLaidOut(insts, base, main, body)
    requires OneBody(insts, body, bodies) && k <= |insts| && Reached(insts, base, bodies, k, g)
    ensures InlinedBelow(insts, base, g, main, body, k)
  {
    if k == 0 {
      NoneInlined(insts, base, main, body);
    } else if insts[k - 1].ins.CallLocal? {
      var before, exitTo :|
        CallDone(insts, base, bodies[k - 1], k - 1, before, g, exitTo) && Reached(insts, base, bodies, k - 1, before);
      ReachedIsInlined(insts, base, main, body, bodies, k - 1, before);
      assert IsCallAt(insts, k - 1);
      InlineNext(insts, base, before, g, main, body, k - 1, exitTo);
    } else {
      ReachedIsInlined(insts, base, main, body, bodies, k - 1, g);
      NoCallNext(insts, base, g, main, body, k - 1);
    }
  }

  lemma NoneInlined(insts: seq<LabeledInstruction>, base: Cfg, main: set<Label>, body: set<Label>)
    requires IsBase(base) && ClosedBody(base, body)
    ensures InlinedBelow(insts, base, base, main, body, 0)
  {
  }

  lemma TextOfListCall(insts: seq<LabeledInstruction>, k: int)
    requires PlainLabels(insts) && LabelsApart(insts) && IsCallAt(insts, k)
    ensures LabelText(insts[k].lab) == FrameText("", insts[k].lab.from) != ""
  {
    assert Defined(insts, k);
    TextOfInstruction(insts[k].lab);
    TextNotEmpty(insts[k].lab);
  }

  lemma ListFramesApart(insts: seq<LabeledInstruction>, i: int, j: int, s: string)
    requires PlainLabels(insts) && LabelsApart(insts) && IsCallAt(insts, i) && IsCallAt(insts, j)
    requires Under(s, LabelText(insts[i].lab)) && Under(s, LabelText(insts[j].lab))
    ensures i == j
  {
    TextOfListCall(insts, i);
    TextOfListCall(insts, j);
    CallsApart(s, "", insts[i].lab.from, insts[j].lab.from);
    assert Defined(insts, i) && Defined(insts, j);
  }

  lemma NotCalledYet(insts: seq<LabeledInstruction>, k: int)
    requires LabelsApart(insts) && IsCallAt(insts, k)
    ensures !CalledBelow(insts, k, insts[k].lab)
  {
    assert Defined(insts, k);
    assert forall i :: IsCallAt(insts, i) ==> Defined(insts, i);
  }

  /** A call of the main program is well placed when its turn comes. */
  lemma MainCallWellPlaced(
    insts: seq<LabeledInstruction>, base: Cfg, g: Cfg, main: set<Label>, body: set<Label>, k: int, exitTo: Label)
    requires PlainLabels(insts) && GraphOf(insts, base) && IsBase(base) && WellLaidOut(insts, base, main, body)
    requires InlinedBelow(insts, base, g, main, body, k)
    requires IsCallAt(insts, k) && insts[k].lab in main && OnlySuccessor(g, insts[k].lab, exitTo)
    ensures WellPlaced(base, g, body, insts[k].lab, insts[k].ins.target, exitTo)
    ensures OnlySuccessor(base, insts[k].lab, exitTo)
  {
    var c := insts[k].lab;
    assert Defined(insts, k);
    NotCalledYet(insts, k);
    assert SameNode(base, g, c);
    assert base.Edge(c, exitTo);
    TextOfListCall(insts, k);
    forall l | l in g.neighbours ensures !Under(l.stackFramePrefix, LabelText(c)) {
      if FramedBelow(insts, k, l) && Under(l.stackFramePrefix, LabelText(c)) {
        var i :| i < k && IsCallAt(insts, i) && Under(l.stackFramePrefix, LabelText(insts[i].lab));
        ListFramesApart(insts, i, k, l.stackFramePrefix);
      }
    }
  }

  lemma OtherCallStays(
    insts: seq<LabeledInstruction>, base: Cfg, g: Cfg, h: Cfg, k: int, exitTo: Label, i: int)
    requires PlainLabels(insts) && LabelsApart(insts) && g.Valid()
    requires IsCallAt(insts, k) && IsCallAt(insts, i) && i != k && InlinedAt(base, g, insts[i].lab)
    requires Framed(g, h, insts[k].lab, exitTo, LabelText(insts[k].lab))
    ensures InlinedAt(base, h, insts[i].lab)
  {
    var a, c := insts[i].lab, insts[k].lab;
    assert Defined(insts, i) && Defined(insts, k);
    TextOfListCall(insts, i);
    TextOfListCall(insts, k);
    forall l | l in g.neighbours && (l == a || Under(l.stackFramePrefix, LabelText(a))) ensures SameNode(g, h, l) {
      if l != a && Under(l.stackFramePrefix, LabelText(c)) {
        ListFramesApart(insts, i, k, l.stackFramePrefix);
      }
      assert Outside(l, c, LabelText(c));
    }
    var next :| OnlySuccessor(base, a, next)
      && Inlined(base, g, a, base.instructions[a].cmd.target, next, FramesLeft(a));
    InlinedStays(base, g, h, a, base.instructions[a].cmd.target, next, FramesLeft(a));
  }

  lemma NodeAfterCall(
    insts: seq<LabeledInstruction>, base: Cfg, g: Cfg, h: Cfg, k: int, exitTo: Label, l: Label)
    requires PlainLabels(insts) && LabelsApart(insts) && IsBase(base) && g.Valid()
    requires IsCallAt(insts, k) && LabelsSoFar(insts, base, g, k)
    requires Framed(g, h, insts[k].lab, exitTo, LabelText(insts[k].lab))
    requires l in base.neighbours && !CalledBelow(insts, k + 1, l)
    ensures SameNode(base, h, l)
  {
    var c := insts[k].lab;
    TextOfListCall(insts, k);
    assert l != c && !CalledBelow(insts, k, l);
    assert SameNode(base, g, l);
    assert Outside(l, c, LabelText(c)) && SameNode(g, h, l);
  }

  lemma FramedNext(insts: seq<LabeledInstruction>, k: int, l: Label)
    requires IsCallAt(insts, k)
    requires FramedBelow(insts, k, l) || Under(l.stackFramePrefix, LabelText(insts[k].lab))
    ensures FramedBelow(insts, k + 1, l)
  {
  }

  lemma LabelsAfterCall(
    insts: seq<LabeledInstruction>, base: Cfg, g: Cfg, h: Cfg, k: int, exitTo: Label)
    requires PlainLabels(insts) && LabelsApart(insts) && IsBase(base) && g.Valid()
    requires IsCallAt(insts, k) && LabelsSoFar(insts, base, g, k)
    requires Framed(g, h, insts[k].lab, exitTo, LabelText(insts[k].lab))
    ensures LabelsSoFar(insts, base, h, k + 1)
  {
    forall l | l in base.neighbours && !CalledBelow(insts, k + 1, l) ensures SameNode(base, h, l) {
      NodeAfterCall(insts, base, g, h, k, exitTo, l);
    }
    forall l | l in h.neighbours && l !in base.neighbours ensures FramedBelow(insts, k + 1, l) {
      FramedNext(insts, k, l);
    }
  }

  lemma BodyAfterCall(
    insts: seq<LabeledInstruction>, base: Cfg, g: Cfg, h: Cfg, main: set<Label>, body: set<Label>, k: int,
    exitTo: Label)
    requires PlainLabels(insts) && GraphOf(insts, base) && IsBase(base) && WellLaidOut(insts, base, main, body)
    requires g.Valid() && IsCallAt(insts, k) && LabelsSoFar(insts, base, g, k)
    requires Untouched(base, g, body) && insts[k].lab !in body && OnlySuccessor(g, insts[k].lab, exitTo)
    requires Framed(g, h, insts[k].lab, exitTo, LabelText(insts[k].lab))
    ensures Untouched(base, h, body)
  {
    var c := insts[k].lab;
    assert Defined(insts, k);
    NotCalledYet(insts, k);
    assert SameNode(base, g, c) && g.Edge(c, exitTo);
    TextOfListCall(insts, k);
    UntouchedFramed(base, g, h, body, c, exitTo, LabelText(c));
  }

  /** One more call. */
  lemma InlineNext(
    insts: seq<LabeledInstruction>, base: Cfg, g: Cfg, h: Cfg, main: set<Label>, body: set<Label>, k: int,
    exitTo: Label)
    requires PlainLabels(insts) && GraphOf(insts, base) && IsBase(base) && WellLaidOut(insts, base, main, body)
    requires g.Valid() && InlinedBelow(insts, base, g, main, body, k) && IsCallAt(insts, k)
    requires OnlySuccessor(g, insts[k].lab, exitTo) && Framed(g, h, insts[k].lab, exitTo, LabelText(insts[k].lab))
    requires WellPlaced(base, g, body, insts[k].lab, insts[k].ins.target, exitTo) ==>
               Inlined(base, h, insts[k].lab, insts[k].ins.target, exitTo, FramesLeft(insts[k].lab))
    ensures InlinedBelow(insts, base, h, main, body, k + 1)
  {
    assert Defined(insts, k);
    LabelsAfterCall(insts, base, g, h, k, exitTo);
    forall i | i < k + 1 && IsCallAt(insts, i) && insts[i].lab in main ensures InlinedAt(base, h, insts[i].lab) {
      if i < k {
        OtherCallStays(insts, base, g, h, k, exitTo, i);
      } else {
        MainCallWellPlaced(insts, base, g, main, body, k, exitTo);
      }
    }
    if NoneCalled(insts, body, k + 1) {
      BodyAfterCall(insts, base, g, h, main, body, k, exitTo);
    }
  }

  lemma NoCallNext(
    insts: seq<LabeledInstruction>, base: Cfg, g: Cfg, main: set<Label>, body: set<Label>, k: int)
    requires InlinedBelow(insts, base, g, main, body, k) && !IsCallAt(insts, k)
    ensures InlinedBelow(insts, base, g, main, body, k + 1)
  {
    forall l ensures CalledBelow(insts, k + 1, l) <==> CalledBelow(insts, k, l) {
    }
    forall l | FramedBelow(insts, k, l) ensures FramedBelow(insts, k + 1, l) {
      var i :| i < k && IsCallAt(insts, i) && Under(l.stackFramePrefix, LabelText(insts[i].lab));
    }
    assert NoneCalled(insts, body, k + 1) ==> NoneCalled(insts, body, k);
  }

  /** In the main program every call leads into its frame, and nothing else is changed. */
  ghost predicate ProgramInlined(base: Cfg, g: Cfg, main: set<Label>) {
    forall l :: l in main ==> if Calls(base, l) then InlinedAt(base, g, l) else SameNode(base, g, l)
  }

  lemma AllInlined(insts: seq<LabeledInstruction>, base: Cfg, g: Cfg, main: set<Label>, body: set<Label>)
    requires GraphOf(insts, base) && WellLaidOut(insts, base, main, body)
    requires InlinedBelow(insts, base, g, main, body, |insts|)
    ensures ProgramInlined(base, g, main)
  {
    forall l | l in main ensures if Calls(base, l) then InlinedAt(base, g, l) else SameNode(base, g, l) {
      CallIsListed(insts, base, l);
    }
  }

  // ----- when the second pass succeeds -----

  /** The function of call k is still as translated when its turn comes: no call of the function
      comes before call k, and no call up to k returns into the function. */
  ghost predicate FunctionWaits(insts: seq<LabeledInstruction>, base: Cfg, body: set<Label>, k: nat)
    requires k < |insts|
  {
    && insts[k].ins.CallLocal? && ClosedBody(base, body) && insts[k].ins.target in body
    && (|| (CallsReturn(base, body) && Smooth(base, body, insts[k].ins.target))
        || forall l :: l in body ==> !Calls(base, l))
    && forall i, next :: i <= k && IsCallAt(insts, i) && base.Edge(insts[i].lab, next) ==>
         insts[i].lab !in body && next !in body
  }

  /** Callers come before what they call. */
  ghost predicate CallersFirst(insts: seq<LabeledInstruction>, base: Cfg, bodies: seq<set<Label>>) {
    && |bodies| == |insts|
    && forall k :: IsCallAt(insts, k) ==>
         FunctionWaits(insts, base, bodies[k], k) && exists next :: OnlySuccessor(base, insts[k].lab, next)
  }

  /** Every call of the list can be inlined. */
  ghost predicate AllCallsFit(insts: seq<LabeledInstruction>, base: Cfg) {
    forall k :: IsCallAt(insts, k) ==> CallFits(base, insts[k].ins.target, FramesLeft(insts[k].lab))
  }

  /** What call k finds: the calls before it have their frames, and the functions of all others are
      as they were. */
  ghost predicate WaitingFor(
    insts: seq<LabeledInstruction>, base: Cfg, bodies: seq<set<Label>>, k: nat, g: Cfg)
    requires |bodies| == |insts|
  {
    && LabelsSoFar(insts, base, g, k)
    && forall j :: k <= j < |insts| && IsCallAt(insts, j) ==> Untouched(base, g, bodies[j])
  }

  /** The successor of a call is still the one of the list when its turn comes. */
  lemma CallGoesOn(insts: seq<LabeledInstruction>, base: Cfg, g: Cfg, k: nat, next: Label)
    requires LabelsApart(insts) && GraphOf(insts, base) && IsCallAt(insts, k) && LabelsSoFar(insts, base, g, k)
    ensures SameNode(base, g, insts[k].lab)
    ensures OnlySuccessor(g, insts[k].lab, next) <==> OnlySuccessor(base, insts[k].lab, next)
  {
    assert Defined(insts, k);
    NotCalledYet(insts, k);
    assert SameNode(base, g, insts[k].lab);
  }

  lemma FrameIsNew(insts: seq<LabeledInstruction>, base: Cfg, g: Cfg, k: nat, l: Label)
    requires PlainLabels(insts) && LabelsApart(insts) && IsBase(base) && IsCallAt(insts, k)
    requires LabelsSoFar(insts, base, g, k) && l in g.neighbours
    ensures !Under(l.stackFramePrefix, LabelText(insts[k].lab))
  {
    TextOfListCall(insts, k);
    if FramedBelow(insts, k, l) && Under(l.stackFramePrefix, LabelText(insts[k].lab)) {
      var i :| i < k && IsCallAt(insts, i) && Under(l.stackFramePrefix, LabelText(insts[i].lab));
      ListFramesApart(insts, i, k, l.stackFramePrefix);
    }
  }

  /** Its turn has come. */
  lemma CallIsPlaced(
    insts: seq<LabeledInstruction>, base: Cfg, bodies: seq<set<Label>>, k: nat, g: Cfg, next: Label)
    requires PlainLabels(insts) && GraphOf(insts, base) && IsBase(base) && CallersFirst(insts, base, bodies)
    requires IsCallAt(insts, k) && WaitingFor(insts, base, bodies, k, g) && OnlySuccessor(base, insts[k].lab, next)
    ensures Placed(base, g, bodies[k], insts[k].lab, insts[k].ins.target, next)
  {
    var c := insts[k];
    assert FunctionWaits(insts, base, bodies[k], k) && base.Edge(c.lab, next) && Defined(insts, k);
    CallGoesOn(insts, base, g, k, next);
    TextOfListCall(insts, k);
    forall l | l in g.neighbours ensures !Under(l.stackFramePrefix, LabelText(c.lab)) {
      FrameIsNew(insts, base, g, k, l);
    }
    assert Fits(base, g, bodies[k], c.lab, c.ins.target, next, LabelText(c.lab));
  }

  /** One call more. */
  lemma WaitingStep(
    insts: seq<LabeledInstruction>, base: Cfg, bodies: seq<set<Label>>, k: nat, g: Cfg, h: Cfg, exitTo: Label)
    requires PlainLabels(insts) && GraphOf(insts, base) && IsBase(base) && CallersFirst(insts, base, bodies)
    requires g.Valid() && IsCallAt(insts, k) && WaitingFor(insts, base, bodies, k, g)
    requires OnlySuccessor(g, insts[k].lab, exitTo) && Framed(g, h, insts[k].lab, exitTo, LabelText(insts[k].lab))
    ensures WaitingFor(insts, base, bodies, k + 1, h)
  {
    var c := insts[k].lab;
    LabelsAfterCall(insts, base, g, h, k, exitTo);
    CallGoesOn(insts, base, g, k, exitTo);
    TextOfListCall(insts, k);
    assert base.Edge(c, exitTo);
    forall j | k + 1 <= j < |insts| && IsCallAt(insts, j) ensures Untouched(base, h, bodies[j]) {
      assert FunctionWaits(insts, base, bodies[j], j);
      UntouchedFramed(base, g, h, bodies[j], c, exitTo, LabelText(c));
    }
  }

  lemma WaitingBegins(insts: seq<LabeledInstruction>, base: Cfg, bodies: seq<set<Label>>)
    requires IsBase(base) && CallersFirst(insts, base, bodies)
    ensures WaitingFor(insts, base, bodies, 0, base)
  {
    forall j | 0 <= j < |insts| && IsCallAt(insts, j) ensures Untouched(base, base, bodies[j]) {
      assert FunctionWaits(insts, base, bodies[j], j);
    }
  }

  lemma WaitingOn(insts: seq<LabeledInstruction>, base: Cfg, bodies: seq<set<Label>>, k: nat, g: Cfg)
    requires |bodies| == |insts| && WaitingFor(insts, base, bodies, k, g) && !IsCallAt(insts, k)
    ensures WaitingFor(insts, base, bodies, k + 1, g)
  {
    forall l ensures CalledBelow(insts, k + 1, l) <==> CalledBelow(insts, k, l) {
    }
    forall l | FramedBelow(insts, k, l) ensures FramedBelow(insts, k + 1, l) {
      var i :| i < k && IsCallAt(insts, i) && Under(l.stackFramePrefix, LabelText(insts[i].lab));
    }
  }

  /** What was inlined did fit. */
  lemma {:induction false} ReachedFits(
    insts: seq<LabeledInstruction>, base: Cfg, bodies: seq<set<Label>>, k: nat, g: Cfg)
    requires PlainLabels(insts) && GraphOf(insts, base) && IsBase(base) && CallersFirst(insts, base, bodies)
    requires k <= |insts| && Reached(insts, base, bodies, k, g)
    ensures WaitingFor(insts, base, bodies, k, g)
    ensures forall j :: j < k && IsCallAt(insts, j) ==>
              CallFits(base, insts[j].ins.target, FramesLeft(insts[j].lab))
  {
    if k == 0 {
      WaitingBegins(insts, base, bodies);
    } else if insts[k - 1].ins.CallLocal? {
      var before, exitTo :|
        CallDone(insts, base, bodies[k - 1], k - 1, before, g, exitTo) && Reached(insts, base, bodies, k - 1, before);
      ReachedFits(insts, base, bodies, k - 1, before);
      assert IsCallAt(insts, k - 1);
      CallGoesOn(insts, base, before, k - 1, exitTo);
      CallIsPlaced(insts, base, bodies, k - 1, before, exitTo);
      WaitingStep(insts, base, bodies, k - 1, before, g, exitTo);
    } else {
      ReachedFits(insts, base, bodies, k - 1, g);
      WaitingOn(insts, base, bodies, k - 1, g);
    }
  }

  /** What fails does not fit. */
  lemma FailureFits(insts: seq<LabeledInstruction>, base: Cfg, bodies: seq<set<Label>>)
    requires PlainLabels(insts) && GraphOf(insts, base) && IsBase(base) && CallersFirst(insts, base, bodies)
    requires FailsSomewhere(insts, base, bodies)
    ensures !AllCallsFit(insts, base)
  {
    var k: nat, g :| FailsAt(insts, base, bodies, k, g);
    ReachedFits(insts, base, bodies, k, g);
    assert IsCallAt(insts, k);
    var next :| OnlySuccessor(base, insts[k].lab, next);
    CallIsPlaced(insts, base, bodies, k, g, next);
  }

  /** The labels from the function of call k on. */
  function FromTarget(insts: seq<LabeledInstruction>, base: Cfg, k: nat): set<Label>
    requires k < |insts|
  {
    set l | l in base.neighbours && insts[k].ins.CallLocal? && l != EXIT && LabelLeq(insts[k].ins.target, l)
  }

  /** No jump leads back, and every call returns to a label before the functions that are called from
      there on. */
  ghost predicate FrontToBack(insts: seq<LabeledInstruction>, base: Cfg) {
    && (forall x, y :: base.Edge(x, y) && y != EXIT ==> LabelLeq(x, y))
    && (forall k :: IsCallAt(insts, k) ==>
          && insts[k].ins.target in base.neighbours && insts[k].ins.target != EXIT
          && exists next :: OnlySuccessor(base, insts[k].lab, next) && next != EXIT && next != insts[k].lab)
    && (forall i, k, next :: i <= k && IsCallAt(insts, i) && IsCallAt(insts, k) && base.Edge(insts[i].lab, next) ==>
          LabelLeq(next, insts[k].ins.target) && next != insts[k].ins.target)
  }

  lemma BodyFromTarget(insts: seq<LabeledInstruction>, base: Cfg, k: nat)
    requires GraphOf(insts, base) && IsBase(base) && FrontToBack(insts, base) && IsCallAt(insts, k)
    ensures ClosedBody(base, FromTarget(insts, base, k)) && CallsReturn(base, FromTarget(insts, base, k))
  {
    var target := insts[k].ins.target;
    forall x, y | x in FromTarget(insts, base, k) && base.Edge(x, y) && y != EXIT
      ensures y in FromTarget(insts, base, k)
    {
      LabelTransitive(target, x, y);
      ChildrenKnown(base, x);
    }
    forall x | x in FromTarget(insts, base, k) && Calls(base, x)
      ensures base.instructions[x].cmd.target in FromTarget(insts, base, k)
      ensures exists next :: OnlySuccessor(base, x, next) && next != EXIT && next != x
    {
      CallIsListed(insts, base, x);
      var i :| IsCallAt(insts, i) && insts[i].lab == x;
      assert Defined(insts, i);
      var next :| OnlySuccessor(base, x, next) && next != EXIT && next != x;
      assert base.Edge(x, next);
      LabelTransitive(target, x, next);
      LabelTransitive(target, next, insts[i].ins.target);
    }
  }

  /** So callers come first when nothing leads back. */
  lemma FrontToBackIsCallersFirst(insts: seq<LabeledInstruction>, base: Cfg)
    requires GraphOf(insts, base) && IsBase(base) && FrontToBack(insts, base)
    ensures CallersFirst(insts, base, seq(|insts|, k requires 0 <= k < |insts| => FromTarget(insts, base, k)))
  {
    var bodies := seq(|insts|, k requires 0 <= k < |insts| => FromTarget(insts, base, k));
    forall k | IsCallAt(insts, k)
      ensures FunctionWaits(insts, base, bodies[k], k) && exists next :: OnlySuccessor(base, insts[k].lab, next)
    {
      var body, target := FromTarget(insts, base, k), insts[k].ins.target;
      LabelTotal(target, target);
      BodyFromTarget(insts, base, k);
      ForwardIsSmooth(base, body, target);
      forall i, next | i <= k && IsCallAt(insts, i) && base.Edge(insts[i].lab, next)
        ensures insts[i].lab !in body && next !in body
      {
        LabelTotal(next, target);
        assert next !in body && next != EXIT;
      }
    }
  }
}
