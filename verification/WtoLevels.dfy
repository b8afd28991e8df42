/** The numbers and stacks of the builder of weak topological orders (src/crab/wto.cpp), within one
    cycle that is being built: a depth-first search that finds the cycles inside. */
module WtoLevels {
  import opened AsmSyntax
  import opened ControlFlowGraph
  import opened LoopCounters

  /** wto_vertex_data_t::dfn: zero, a number, or infinite. */
  datatype Mark = New | Number(n: nat) | Infinite

  /** A partition is the one of the whole order, or that of the cycle with a head. */
  type Key = Option<Label>

  datatype Task =
    | PushSuccessors(vertex: Label, partition: Key)
    | StartVisit(vertex: Label, partition: Key)
    | ContinueVisit(vertex: Label, partition: Key)

  /** _vertex_data and _num. */
  datatype Vertices = Vertices(marks: map<Label, Mark>, heads: map<Label, nat>, num: nat) {
    predicate IsNew(l: Label) {
      l in marks && marks[l].New?
    }

    predicate IsNumbered(l: Label) {
      l in marks && marks[l].Number?
    }

    predicate IsDone(l: Label) {
      l in marks && marks[l].Infinite?
    }

    function Dfn(l: Label): nat {
      if IsNumbered(l) then marks[l].n else 0
    }

    /** head_dfn, where zero means that there is none yet. */
    function Head(l: Label): nat {
      if l in heads then heads[l] else 0
    }
  }

  /** What the builder is busy with inside one cycle, or outside all: the labels that may be
      visited, the part of the stack and of the tasks that belongs to it, and where the visits
      begin. */
  datatype Level = Level(scope: set<Label>, stack: seq<Label>, work: seq<Task>, roots: set<Label>, key: Key) {
    /** Visited, and its successors not all yet. */
    predicate Open(l: Label) {
      StartVisit(l, key) in work
    }
  }

  // ----- the state of a level -----

  ghost predicate MarksOk(cfg: Cfg, l: Level, vs: Vertices) {
    && (forall x :: x in l.scope ==>
          x in cfg.neighbours && x in vs.marks && (vs.IsNumbered(x) <==> x in l.stack))
    && (forall x :: x in l.stack ==> x in l.scope)
    && (l.key.Some? ==> l.key.value !in l.scope)
  }

  ghost predicate Sorted(l: Level, vs: Vertices) {
    && (forall i, j :: 0 <= i < j < |l.stack| ==> vs.Dfn(l.stack[i]) < vs.Dfn(l.stack[j]))
    && (forall x :: x in l.stack ==> 0 < vs.Dfn(x) <= vs.num)
  }

  ghost predicate HeadsOk(l: Level, vs: Vertices) {
    && (forall x :: x in l.scope && vs.IsNew(x) ==> vs.Head(x) == 0)
    && (forall x :: x in l.stack ==> (l.Open(x) <==> vs.Head(x) == 0))
  }

  /** The innermost visit below a task. */
  ghost predicate OwnedBy(work: seq<Task>, j: nat, v: Label) {
    exists i :: 0 <= i < j && i < |work| && work[i].StartVisit? && work[i].vertex == v
                && forall k :: i < k < j && k < |work| ==> !work[k].StartVisit?
  }

  ghost predicate Unowned(work: seq<Task>, j: nat) {
    forall k :: 0 <= k < j && k < |work| ==> !work[k].StartVisit?
  }

  ghost predicate HasOwner(cfg: Cfg, l: Level, j: nat)
    requires j < |l.work|
  {
    || (Unowned(l.work, j) && l.work[j].vertex in l.roots)
    || exists p :: OwnedBy(l.work, j, p) && cfg.Edge(p, l.work[j].vertex)
  }

  /** The tasks are visits to go on with, innermost on top, and above each the successors that
      are still to be visited. */
  ghost predicate WorkOk(cfg: Cfg, l: Level, vs: Vertices) {
    && (forall j :: 0 <= j < |l.work| ==> l.work[j].partition == l.key && !l.work[j].ContinueVisit?)
    && (forall j :: 0 <= j < |l.work| && l.work[j].StartVisit? ==> l.work[j].vertex in l.stack)
    && (forall j :: 0 <= j < |l.work| && l.work[j].PushSuccessors? ==> l.work[j].vertex in l.scope)
    && (forall j {:trigger HasOwner(cfg, l, j)} ::
          0 <= j < |l.work| && l.work[j].PushSuccessors? ==> HasOwner(cfg, l, j))
    && StartsSorted(l, vs)
  }

  ghost predicate StartsSorted(l: Level, vs: Vertices) {
    forall i, j :: 0 <= i < j < |l.work| && l.work[i].StartVisit? && l.work[j].StartVisit? ==>
      vs.Dfn(l.work[i].vertex) < vs.Dfn(l.work[j].vertex)
  }

  ghost predicate PushedAbove(work: seq<Task>, i: int, x: Label) {
    exists j :: i < j < |work| && 0 <= j && work[j].PushSuccessors? && work[j].vertex == x
  }

  /** Every successor of an open label is visited, or will be before the label is left. */
  ghost predicate Pending(cfg: Cfg, l: Level, vs: Vertices) {
    && (forall i, x {:trigger PushedAbove(l.work, i, x)} ::
          0 <= i < |l.work| && l.work[i].StartVisit? && cfg.Edge(l.work[i].vertex, x) && x in l.scope
          && vs.IsNew(x) ==>
            PushedAbove(l.work, i, x))
    && (forall x {:trigger PushedAbove(l.work, -1, x)} ::
          x in l.roots && vs.IsNew(x) ==> x in l.scope && PushedAbove(l.work, -1, x))
  }

  ghost predicate Closed(l: Level, x: Label) {
    x in l.stack && !l.Open(x)
  }

  /** What a label that was left has seen. */
  ghost predicate ClosedOk(cfg: Cfg, l: Level, vs: Vertices) {
    forall w, x :: Closed(l, w) && x in l.scope && cfg.Edge(w, x) ==>
      !vs.IsNew(x) && (x in l.stack ==> vs.Head(w) <= vs.Dfn(x))
  }

  /** The label below it on the stack from which it was found; no open label stands between. */
  ghost predicate IsParent(cfg: Cfg, l: Level, vs: Vertices, j: int, i: int)
    requires 0 <= j < i < |l.stack|
  {
    && cfg.Edge(l.stack[j], l.stack[i])
    && (forall g :: j < g < i ==> Closed(l, l.stack[g]))
    && (Closed(l, l.stack[j]) ==> Closed(l, l.stack[i]) && vs.Head(l.stack[j]) <= vs.Head(l.stack[i]))
  }

  ghost predicate HasParent(cfg: Cfg, l: Level, vs: Vertices, i: int)
    requires 0 < i < |l.stack|
  {
    exists j :: 0 <= j < i && IsParent(cfg, l, vs, j, i)
  }

  ghost predicate Parents(cfg: Cfg, l: Level, vs: Vertices) {
    forall i :: 0 < i < |l.stack| ==> HasParent(cfg, l, vs, i)
  }

  /** A way along the stack. */
  ghost predicate IsWay(cfg: Cfg, stack: seq<Label>, p: seq<Label>, x: Label, y: Label) {
    && p != [] && p[0] == x && p[|p| - 1] == y
    && (forall i :: 0 <= i < |p| ==> p[i] in stack)
    && (forall i :: 0 <= i < |p| - 1 ==> cfg.Edge(p[i], p[i + 1]))
  }

  /** The head of a label that was left: a label further down, and a way there. */
  ghost predicate LeadsDown(cfg: Cfg, l: Level, vs: Vertices, w: Label) {
    exists y, p :: y in l.stack && IsWay(cfg, l.stack, p, w, y)
                   && vs.Head(w) == vs.Dfn(y) && vs.Dfn(y) < vs.Dfn(w)
  }

  ghost predicate HeadsLead(cfg: Cfg, l: Level, vs: Vertices) {
    forall w {:trigger LeadsDown(cfg, l, vs, w)} :: Closed(l, w) ==> LeadsDown(cfg, l, vs, w)
  }

  /** Nothing leads out of the level but to what is done. */
  ghost predicate Confined(cfg: Cfg, l: Level, vs: Vertices) {
    forall u, x :: u in l.scope && cfg.Edge(u, x) ==> x in l.scope || vs.IsDone(x)
  }

  /** The search begins at a label by which the level is entered. */
  ghost predicate Rooted(cfg: Cfg, l: Level) {
    && (forall x {:trigger EntersAt(cfg, x, l.scope)} :: x in l.roots ==> EntersAt(cfg, x, l.scope))
    && (l.stack != [] ==> l.stack[0] in l.roots)
  }

  ghost predicate StackOk(cfg: Cfg, l: Level, vs: Vertices) {
    && MarksOk(cfg, l, vs) && Sorted(l, vs) && HeadsOk(l, vs) && ClosedOk(cfg, l, vs)
    && Parents(cfg, l, vs) && HeadsLead(cfg, l, vs) && Confined(cfg, l, vs)
  }

  ghost predicate LevelOk(cfg: Cfg, l: Level, vs: Vertices) {
    StackOk(cfg, l, vs) && WorkOk(cfg, l, vs) && Pending(cfg, l, vs) && Rooted(cfg, l)
  }

  // ----- facts -----

  lemma DfnDistinct(l: Level, vs: Vertices, i: nat, j: nat)
    requires Sorted(l, vs) && i < |l.stack| && j < |l.stack|
    ensures vs.Dfn(l.stack[i]) < vs.Dfn(l.stack[j]) <==> i < j
    ensures l.stack[i] == l.stack[j] ==> i == j
  {
  }

  lemma FirstIsLeast(l: Level, vs: Vertices)
    requires Sorted(l, vs) && l.stack != []
    ensures forall y :: y in l.stack ==> vs.Dfn(l.stack[0]) <= vs.Dfn(y)
  {
  }

  /** Without open labels there is nothing on the stack. */
  lemma ClosedIsEmpty(cfg: Cfg, l: Level, vs: Vertices)
    requires Sorted(l, vs) && HeadsLead(cfg, l, vs) && forall x :: x in l.stack ==> !l.Open(x)
    ensures l.stack == []
  {
    assert l.stack == [] || (Closed(l, l.stack[0]) && LeadsDown(cfg, l, vs, l.stack[0]));
    if l.stack != [] {
      FirstIsLeast(l, vs);
    }
  }

  /** The stack does not care for tasks other than visits. */
  lemma SameOpen(cfg: Cfg, l: Level, m: Level, vs: Vertices)
    requires StackOk(cfg, l, vs) && m.scope == l.scope && m.stack == l.stack && m.key == l.key
    requires forall x :: x in l.stack ==> (m.Open(x) <==> l.Open(x))
    ensures StackOk(cfg, m, vs)
  {
    assert forall x :: Closed(m, x) <==> Closed(l, x);
    forall i | 0 < i < |m.stack| ensures HasParent(cfg, m, vs, i) {
      assert HasParent(cfg, l, vs, i);
      var j :| 0 <= j < i && IsParent(cfg, l, vs, j, i);
      assert IsParent(cfg, m, vs, j, i);
    }
    forall w | Closed(m, w) ensures LeadsDown(cfg, m, vs, w) {
      assert LeadsDown(cfg, l, vs, w);
    }
  }

  /** The owner of a task depends on what is below it. */
  lemma OwnerBelow(cfg: Cfg, l: Level, m: Level, j: nat)
    requires j < |l.work| && j < |m.work| && l.work[..j] == m.work[..j] && l.work[j].vertex == m.work[j].vertex
    requires l.roots == m.roots && HasOwner(cfg, l, j)
    ensures HasOwner(cfg, m, j)
  {
    assert forall k :: 0 <= k < j ==> l.work[k] == l.work[..j][k] == m.work[k];
    if !(Unowned(l.work, j) && l.work[j].vertex in l.roots) {
      var p :| OwnedBy(l.work, j, p) && cfg.Edge(p, l.work[j].vertex);
      assert OwnedBy(m.work, j, p);
    }
  }

  lemma OpenBelow(l: Level, n: nat, x: Label)
    requires n < |l.work| && l.work[n] != StartVisit(x, l.key)
    requires forall k :: n < k < |l.work| ==> !l.work[k].StartVisit?
    ensures l.(work := l.work[..n]).Open(x) <==> l.Open(x)
  {
    if l.Open(x) {
      var i :| 0 <= i < |l.work| && l.work[i] == StartVisit(x, l.key);
      assert l.work[..n][i] == StartVisit(x, l.key);
    }
  }

  /** The tasks below the top one. */
  lemma WorkBelow(cfg: Cfg, l: Level, vs: Vertices)
    requires WorkOk(cfg, l, vs) && l.work != []
    ensures var m := l.(work := l.work[..|l.work| - 1]);
            forall j :: 0 <= j < |m.work| && m.work[j].PushSuccessors? ==>
              m.work[j].vertex in m.scope && HasOwner(cfg, m, j)
  {
    var n := |l.work| - 1;
    var m := l.(work := l.work[..n]);
    forall j | 0 <= j < n && m.work[j].PushSuccessors? ensures m.work[j].vertex in m.scope && HasOwner(cfg, m, j) {
      assert m.work[j] == l.work[j];
      OwnerBelow(cfg, l, m, j);
    }
  }

  lemma PushedBelow(work: seq<Task>, i: int, x: Label)
    requires work != [] && -1 <= i && PushedAbove(work, i, x)
    requires work[|work| - 1].PushSuccessors? ==> work[|work| - 1].vertex != x
    ensures PushedAbove(work[..|work| - 1], i, x)
  {
    var j :| i < j < |work| && 0 <= j && work[j].PushSuccessors? && work[j].vertex == x;
    assert work[..|work| - 1][j] == work[j];
  }

  // ----- a successor that was visited meanwhile -----

  lemma DropPush(cfg: Cfg, l: Level, vs: Vertices)
    requires LevelOk(cfg, l, vs) && l.work != []
    requires l.work[|l.work| - 1].PushSuccessors? && !vs.IsNew(l.work[|l.work| - 1].vertex)
    ensures LevelOk(cfg, l.(work := l.work[..|l.work| - 1]), vs)
  {
    var n := |l.work| - 1;
    var m := l.(work := l.work[..n]);
    forall x ensures m.Open(x) <==> l.Open(x) {
      OpenBelow(l, n, x);
    }
    SameOpen(cfg, l, m, vs);
    WorkBelow(cfg, l, vs);
    PendingBelow(cfg, l, m, vs, vs);
  }

  /** What is pending stays so when the top task is gone, unless it was just that. */
  lemma PendingBelow(cfg: Cfg, l: Level, m: Level, vs: Vertices, us: Vertices)
    requires Pending(cfg, l, vs) && l.work != [] && m.work == l.work[..|l.work| - 1]
    requires m.scope == l.scope && m.roots == l.roots && forall x :: us.IsNew(x) ==> vs.IsNew(x)
    requires l.work[|l.work| - 1].PushSuccessors? ==> !us.IsNew(l.work[|l.work| - 1].vertex)
    ensures Pending(cfg, m, us)
  {
    forall i, x |
      0 <= i < |m.work| && m.work[i].StartVisit? && cfg.Edge(m.work[i].vertex, x) && x in m.scope && us.IsNew(x)
      ensures PushedAbove(m.work, i, x)
    {
      assert m.work[i] == l.work[i] && PushedAbove(l.work, i, x);
      PushedBelow(l.work, i, x);
    }
    forall x | x in m.roots && us.IsNew(x) ensures x in m.scope && PushedAbove(m.work, -1, x) {
      assert PushedAbove(l.work, -1, x);
      PushedBelow(l.work, -1, x);
    }
  }

  // ----- a new label -----

  function Visited(vs: Vertices, w: Label): Vertices {
    Vertices(vs.marks[w := Number(vs.num + 1)], vs.heads, vs.num + 1)
  }

  /** The tasks for the successors that are still new. */
  ghost predicate PushesOf(cfg: Cfg, vs: Vertices, w: Label, key: Key, pushes: seq<Task>) {
    && (forall t :: t in pushes ==>
          t.PushSuccessors? && t.partition == key && cfg.Edge(w, t.vertex) && vs.IsNew(t.vertex))
    && (forall x :: cfg.Edge(w, x) && vs.IsNew(x) ==> PushSuccessors(x, key) in pushes)
  }

  function AfterPush(l: Level, w: Label, pushes: seq<Task>): Level
    requires l.work != []
  {
    l.(stack := l.stack + [w], work := l.work[..|l.work| - 1] + ([StartVisit(w, l.key)] + pushes))
  }

  lemma VisitedSame(vs: Vertices, w: Label, x: Label)
    requires vs.IsNew(w) && x != w
    ensures Visited(vs, w).Dfn(x) == vs.Dfn(x) && (Visited(vs, w).IsNew(x) <==> vs.IsNew(x))
    ensures Visited(vs, w).IsNumbered(x) <==> vs.IsNumbered(x)
    ensures Visited(vs, w).IsDone(x) <==> vs.IsDone(x)
  {
  }

  lemma OpenAfterPush(l: Level, w: Label, pushes: seq<Task>, x: Label)
    requires l.work != [] && l.work[|l.work| - 1].PushSuccessors?
    requires forall t :: t in pushes ==> t.PushSuccessors?
    ensures AfterPush(l, w, pushes).Open(x) <==> l.Open(x) || x == w
  {
    var n := |l.work| - 1;
    var m := AfterPush(l, w, pushes);
    if l.Open(x) {
      var i :| 0 <= i < |l.work| && l.work[i] == StartVisit(x, l.key);
      assert m.work[i] == l.work[i];
    }
    assert m.work[n] == StartVisit(w, l.key);
  }

  /** The owner of the top task is the innermost open label. */
  lemma OwnerIsInnermost(l: Level, vs: Vertices, j: nat, g: nat)
    requires Sorted(l, vs) && StartsSorted(l, vs) && l.work != [] && l.work[|l.work| - 1].PushSuccessors?
    requires j < |l.stack| && OwnedBy(l.work, |l.work| - 1, l.stack[j]) && g < |l.stack|
    ensures l.Open(l.stack[g]) ==> g <= j
  {
    var n, p := |l.work| - 1, l.stack[j];
    var i :| 0 <= i < n && l.work[i].StartVisit? && l.work[i].vertex == p
             && forall k :: i < k < n ==> !l.work[k].StartVisit?;
    if l.Open(l.stack[g]) {
      var k :| 0 <= k < |l.work| && l.work[k] == StartVisit(l.stack[g], l.key);
      assert k <= i;
      DfnDistinct(l, vs, j, g);
    }
  }

  lemma NoOwnerNoStack(cfg: Cfg, l: Level, vs: Vertices)
    requires StackOk(cfg, l, vs) && WorkOk(cfg, l, vs) && l.work != [] && Unowned(l.work, |l.work| - 1)
    requires l.work[|l.work| - 1].PushSuccessors?
    ensures l.stack == []
  {
    forall x | x in l.stack ensures !l.Open(x) {
      assert forall k :: 0 <= k < |l.work| ==> !l.work[k].StartVisit?;
    }
    ClosedIsEmpty(cfg, l, vs);
  }

  lemma ParentOfNew(cfg: Cfg, l: Level, vs: Vertices, pushes: seq<Task>)
    requires LevelOk(cfg, l, vs) && l.work != [] && l.work[|l.work| - 1].PushSuccessors? && l.stack != []
    requires vs.IsNew(l.work[|l.work| - 1].vertex) && forall t :: t in pushes ==> t.PushSuccessors?
    ensures var w := l.work[|l.work| - 1].vertex;
            HasParent(cfg, AfterPush(l, w, pushes), Visited(vs, w), |l.stack|)
  {
    var n := |l.work| - 1;
    var w := l.work[n].vertex;
    var m := AfterPush(l, w, pushes);
    assert HasOwner(cfg, l, n);
    if Unowned(l.work, n) {
      NoOwnerNoStack(cfg, l, vs);
    } else {
      var p :| OwnedBy(l.work, n, p) && cfg.Edge(p, w);
      var j := OwnerOnStack(cfg, l, vs, p);
      ParentIsOwner(cfg, l, m, vs, w, j, pushes);
    }
  }

  lemma OwnerOnStack(cfg: Cfg, l: Level, vs: Vertices, p: Label) returns (j: nat)
    requires WorkOk(cfg, l, vs) && l.work != [] && OwnedBy(l.work, |l.work| - 1, p)
    ensures j < |l.stack| && l.stack[j] == p && l.Open(p)
  {
    var i :| 0 <= i < |l.work| - 1 && l.work[i].StartVisit? && l.work[i].vertex == p;
    assert l.work[i] == StartVisit(p, l.key);
    j :| 0 <= j < |l.stack| && l.stack[j] == p;
  }

  lemma ParentIsOwner(cfg: Cfg, l: Level, m: Level, vs: Vertices, w: Label, j: nat, pushes: seq<Task>)
    requires Sorted(l, vs) && StartsSorted(l, vs) && l.work != [] && l.work[|l.work| - 1].PushSuccessors?
    requires j < |l.stack| && OwnedBy(l.work, |l.work| - 1, l.stack[j]) && l.Open(l.stack[j]) && cfg.Edge(l.stack[j], w)
    requires (forall t :: t in pushes ==> t.PushSuccessors?) && m == AfterPush(l, w, pushes) && w !in l.stack
    ensures HasParent(cfg, m, Visited(vs, w), |l.stack|)
  {
    forall x ensures m.Open(x) <==> l.Open(x) || x == w {
      OpenAfterPush(l, w, pushes, x);
    }
    forall g | j < g < |l.stack| ensures Closed(m, m.stack[g]) {
      OwnerIsInnermost(l, vs, j, g);
    }
    assert IsParent(cfg, m, Visited(vs, w), j, |l.stack|);
  }

  lemma ParentStays(cfg: Cfg, l: Level, m: Level, vs: Vertices, us: Vertices, i: nat)
    requires 0 < i < |l.stack| && i < |m.stack| && HasParent(cfg, l, vs, i)
    requires forall k :: 0 <= k <= i ==>
               && m.stack[k] == l.stack[k] && us.Head(l.stack[k]) == vs.Head(l.stack[k])
               && (Closed(m, l.stack[k]) <==> Closed(l, l.stack[k]))
    ensures HasParent(cfg, m, us, i)
  {
    var j :| 0 <= j < i && IsParent(cfg, l, vs, j, i);
    assert IsParent(cfg, m, us, j, i);
  }

  lemma LeadsAfterPush(cfg: Cfg, l: Level, m: Level, vs: Vertices, us: Vertices, x: Label)
    requires LeadsDown(cfg, l, vs, x) && (forall y :: y in l.stack ==> y in m.stack && us.Dfn(y) == vs.Dfn(y))
    requires x in l.stack && us.Head(x) == vs.Head(x)
    ensures LeadsDown(cfg, m, us, x)
  {
    var y, p :| y in l.stack && IsWay(cfg, l.stack, p, x, y) && vs.Head(x) == vs.Dfn(y) && vs.Dfn(y) < vs.Dfn(x);
    assert IsWay(cfg, m.stack, p, x, y);
  }

  /** The same level with one more open label on the stack. */
  ghost predicate Grows(l: Level, m: Level, vs: Vertices, us: Vertices, w: Label) {
    && m.scope == l.scope && m.key == l.key && m.stack == l.stack + [w] && us == Visited(vs, w)
    && vs.IsNew(w) && w in l.scope && w !in l.stack
    && forall x :: m.Open(x) <==> l.Open(x) || x == w
  }

  lemma PlainGrows(cfg: Cfg, l: Level, m: Level, vs: Vertices, us: Vertices, w: Label)
    requires Grows(l, m, vs, us, w) && w in cfg.neighbours
    requires MarksOk(cfg, l, vs) && Sorted(l, vs) && HeadsOk(l, vs) && Confined(cfg, l, vs)
    ensures MarksOk(cfg, m, us) && Sorted(m, us) && HeadsOk(m, us) && Confined(cfg, m, us)
  {
    assert forall x :: x != w ==> us.Dfn(x) == vs.Dfn(x) && (us.IsNew(x) <==> vs.IsNew(x));
  }

  lemma ClosedGrows(cfg: Cfg, l: Level, m: Level, vs: Vertices, us: Vertices, w: Label)
    requires Grows(l, m, vs, us, w) && ClosedOk(cfg, l, vs)
    ensures ClosedOk(cfg, m, us)
  {
    assert forall x :: x != w ==> us.Dfn(x) == vs.Dfn(x) && (us.IsNew(x) <==> vs.IsNew(x));
    assert forall x :: Closed(m, x) ==> Closed(l, x);
  }

  lemma LeadsGrow(cfg: Cfg, l: Level, m: Level, vs: Vertices, us: Vertices, w: Label)
    requires Grows(l, m, vs, us, w) && HeadsLead(cfg, l, vs)
    ensures HeadsLead(cfg, m, us)
  {
    assert forall x :: x in l.stack ==> us.Dfn(x) == vs.Dfn(x);
    forall x | Closed(m, x) ensures LeadsDown(cfg, m, us, x) {
      assert Closed(l, x);
      LeadsAfterPush(cfg, l, m, vs, us, x);
    }
  }

  lemma ParentsGrow(cfg: Cfg, l: Level, m: Level, vs: Vertices, us: Vertices, w: Label)
    requires Grows(l, m, vs, us, w) && Parents(cfg, l, vs)
    requires l.stack != [] ==> HasParent(cfg, m, us, |l.stack|)
    ensures Parents(cfg, m, us)
  {
    forall i | 0 < i < |m.stack| ensures HasParent(cfg, m, us, i) {
      if i < |l.stack| {
        assert HasParent(cfg, l, vs, i);
        ParentStays(cfg, l, m, vs, us, i);
      }
    }
  }

  lemma PushGrows(cfg: Cfg, l: Level, vs: Vertices, pushes: seq<Task>)
    requires LevelOk(cfg, l, vs) && l.work != [] && l.work[|l.work| - 1].PushSuccessors?
    requires vs.IsNew(l.work[|l.work| - 1].vertex) && forall t :: t in pushes ==> t.PushSuccessors?
    ensures var w := l.work[|l.work| - 1].vertex;
            Grows(l, AfterPush(l, w, pushes), vs, Visited(vs, w), w)
  {
    var w := l.work[|l.work| - 1].vertex;
    var m := AfterPush(l, w, pushes);
    forall x ensures m.Open(x) <==> l.Open(x) || x == w {
      OpenAfterPush(l, w, pushes, x);
    }
  }

  lemma StackAfterPush(cfg: Cfg, l: Level, vs: Vertices, pushes: seq<Task>)
    requires LevelOk(cfg, l, vs) && l.work != [] && l.work[|l.work| - 1].PushSuccessors?
    requires vs.IsNew(l.work[|l.work| - 1].vertex) && forall t :: t in pushes ==> t.PushSuccessors?
    ensures var w := l.work[|l.work| - 1].vertex;
            StackOk(cfg, AfterPush(l, w, pushes), Visited(vs, w))
  {
    var w := l.work[|l.work| - 1].vertex;
    var m, us := AfterPush(l, w, pushes), Visited(vs, w);
    PushGrows(cfg, l, vs, pushes);
    PlainGrows(cfg, l, m, vs, us, w);
    ClosedGrows(cfg, l, m, vs, us, w);
    LeadsGrow(cfg, l, m, vs, us, w);
    if l.stack != [] {
      ParentOfNew(cfg, l, vs, pushes);
    }
    ParentsGrow(cfg, l, m, vs, us, w);
  }

  lemma OwnersAfterPush(cfg: Cfg, l: Level, vs: Vertices, pushes: seq<Task>, j: nat)
    requires WorkOk(cfg, l, vs) && l.work != [] && l.work[|l.work| - 1].PushSuccessors?
    requires var w := l.work[|l.work| - 1].vertex;
             PushesOf(cfg, Visited(vs, w), w, l.key, pushes)
             && j < |AfterPush(l, w, pushes).work| && AfterPush(l, w, pushes).work[j].PushSuccessors?
    ensures var w := l.work[|l.work| - 1].vertex;
            HasOwner(cfg, AfterPush(l, w, pushes), j)
  {
    var n := |l.work| - 1;
    var w := l.work[n].vertex;
    var m := AfterPush(l, w, pushes);
    if j < n {
      assert m.work[j] == l.work[j] && m.work[..j] == l.work[..j];
      OwnerBelow(cfg, l, m, j);
    } else {
      assert m.work[n] == StartVisit(w, l.key) && m.work[j] == pushes[j - n - 1];
      forall k | n < k < j ensures !m.work[k].StartVisit? {
        assert m.work[k] == pushes[k - n - 1];
      }
      assert OwnedBy(m.work, j, w);
    }
  }

  /** The tasks after a push: those below, the visit, the successors. */
  ghost predicate WorkGrows(l: Level, m: Level, n: nat, w: Label, pushes: seq<Task>) {
    && n + 1 == |l.work| && |m.work| == n + 1 + |pushes| && m.key == l.key && m.roots == l.roots && m.scope == l.scope
    && (forall j :: 0 <= j < n ==> m.work[j] == l.work[j]) && m.work[n] == StartVisit(w, l.key)
    && (forall j :: n < j < |m.work| ==> m.work[j] == pushes[j - n - 1] && m.work[j].PushSuccessors?)
    && l.work[n] == PushSuccessors(w, l.key)
  }

  lemma PushWorkGrows(cfg: Cfg, l: Level, us: Vertices, w: Label, pushes: seq<Task>)
    requires l.work != [] && l.work[|l.work| - 1] == PushSuccessors(w, l.key)
    requires PushesOf(cfg, us, w, l.key, pushes)
    ensures WorkGrows(l, AfterPush(l, w, pushes), |l.work| - 1, w, pushes)
  {
    var n, m := |l.work| - 1, AfterPush(l, w, pushes);
    forall j | n < j < |m.work| ensures m.work[j] == pushes[j - n - 1] && m.work[j].PushSuccessors? {
      assert pushes[j - n - 1] in pushes;
    }
  }

  lemma StartsAfterPush(l: Level, m: Level, vs: Vertices, us: Vertices, n: nat, w: Label, pushes: seq<Task>)
    requires WorkGrows(l, m, n, w, pushes) && StartsSorted(l, vs) && Sorted(l, vs) && us == Visited(vs, w)
    requires forall j :: 0 <= j < n && l.work[j].StartVisit? ==> l.work[j].vertex in l.stack && l.work[j].vertex != w
    ensures StartsSorted(m, us)
  {
    forall j | 0 <= j < n && l.work[j].StartVisit?
      ensures us.Dfn(l.work[j].vertex) == vs.Dfn(l.work[j].vertex) <= vs.num
    {
    }
  }

  lemma WorkAfterPush(cfg: Cfg, l: Level, vs: Vertices, w: Label, pushes: seq<Task>)
    requires WorkOk(cfg, l, vs) && Sorted(l, vs) && vs.IsNew(w) && w !in l.stack
    requires l.work != [] && l.work[|l.work| - 1] == PushSuccessors(w, l.key)
    requires PushesOf(cfg, Visited(vs, w), w, l.key, pushes)
    requires forall t :: t in pushes ==> t.vertex in l.scope
    ensures WorkOk(cfg, AfterPush(l, w, pushes), Visited(vs, w))
  {
    var n, m, us := |l.work| - 1, AfterPush(l, w, pushes), Visited(vs, w);
    PushWorkGrows(cfg, l, us, w, pushes);
    forall j | 0 <= j < |m.work| && m.work[j].PushSuccessors?
      ensures m.work[j].vertex in m.scope && HasOwner(cfg, m, j)
    {
      OwnersAfterPush(cfg, l, vs, pushes, j);
    }
    forall j | 0 <= j < |m.work| ensures m.work[j].partition == m.key && !m.work[j].ContinueVisit? {
      assert j > n ==> pushes[j - n - 1] in pushes;
    }
    StartsAfterPush(l, m, vs, us, n, w, pushes);
  }

  lemma PushedStill(l: Level, m: Level, n: nat, w: Label, pushes: seq<Task>, i: int, x: Label)
    requires WorkGrows(l, m, n, w, pushes) && -1 <= i && x != w && PushedAbove(l.work, i, x)
    ensures PushedAbove(m.work, i, x)
  {
    var j :| i < j < |l.work| && 0 <= j && l.work[j].PushSuccessors? && l.work[j].vertex == x;
    assert m.work[j] == l.work[j];
  }

  lemma PushedNow(l: Level, m: Level, n: nat, w: Label, pushes: seq<Task>, x: Label)
    requires WorkGrows(l, m, n, w, pushes) && PushSuccessors(x, l.key) in pushes
    ensures PushedAbove(m.work, n, x)
  {
    var k :| 0 <= k < |pushes| && pushes[k] == PushSuccessors(x, l.key);
    assert m.work[n + 1 + k] == pushes[k];
  }

  lemma PendingAfterPush(cfg: Cfg, l: Level, vs: Vertices, w: Label, pushes: seq<Task>)
    requires Pending(cfg, l, vs) && vs.IsNew(w)
    requires l.work != [] && l.work[|l.work| - 1] == PushSuccessors(w, l.key)
    requires PushesOf(cfg, Visited(vs, w), w, l.key, pushes)
    ensures Pending(cfg, AfterPush(l, w, pushes), Visited(vs, w))
  {
    var n, m, us := |l.work| - 1, AfterPush(l, w, pushes), Visited(vs, w);
    PushWorkGrows(cfg, l, us, w, pushes);
    forall i, x |
      0 <= i < |m.work| && m.work[i].StartVisit? && cfg.Edge(m.work[i].vertex, x) && x in m.scope && us.IsNew(x)
      ensures PushedAbove(m.work, i, x)
    {
      VisitedSame(vs, w, x);
      if i < n {
        PushedStill(l, m, n, w, pushes, i, x);
      } else {
        PushedNow(l, m, n, w, pushes, x);
      }
    }
    forall x | x in m.roots && us.IsNew(x) ensures x in m.scope && PushedAbove(m.work, -1, x) {
      VisitedSame(vs, w, x);
      PushedStill(l, m, n, w, pushes, -1, x);
    }
  }

  /** The first label on the stack was not found from another. */
  lemma RootedAfterPush(cfg: Cfg, l: Level, vs: Vertices, w: Label, pushes: seq<Task>)
    requires Rooted(cfg, l) && WorkOk(cfg, l, vs) && l.work != []
    requires l.work[|l.work| - 1] == PushSuccessors(w, l.key)
    ensures Rooted(cfg, AfterPush(l, w, pushes))
  {
    var n := |l.work| - 1;
    assert HasOwner(cfg, l, n);
    if l.stack == [] {
      assert Unowned(l.work, n);
    }
  }

  /** A label is visited for the first time. */
  lemma PushNew(cfg: Cfg, l: Level, vs: Vertices, pushes: seq<Task>)
    requires LevelOk(cfg, l, vs) && l.work != [] && l.work[|l.work| - 1].PushSuccessors?
    requires vs.IsNew(l.work[|l.work| - 1].vertex)
    requires var w := l.work[|l.work| - 1].vertex; PushesOf(cfg, Visited(vs, w), w, l.key, pushes)
    ensures var w := l.work[|l.work| - 1].vertex;
            LevelOk(cfg, AfterPush(l, w, pushes), Visited(vs, w))
  {
    var w := l.work[|l.work| - 1].vertex;
    StackAfterPush(cfg, l, vs, pushes);
    WorkAfterPush(cfg, l, vs, w, pushes);
    PendingAfterPush(cfg, l, vs, w, pushes);
    RootedAfterPush(cfg, l, vs, w, pushes);
  }

  // ----- leaving a label -----

  /** The number that a successor contributes. */
  function Low(vs: Vertices, x: Label): nat {
    if vs.Head(x) != 0 then vs.Head(x) else vs.Dfn(x)
  }

  /** What the look at the successors of a label finds: the least number, and whether one is not
      greater than its own. */
  ghost predicate IsLow(cfg: Cfg, vs: Vertices, v: Label, h: nat, loop: bool) {
    && 0 < h <= vs.Dfn(v)
    && (forall x :: cfg.Edge(v, x) && vs.IsNumbered(x) ==> h <= Low(vs, x))
    && (h < vs.Dfn(v) ==> exists x :: LowSuccessor(cfg, vs, v, x) && Low(vs, x) == h)
    && (loop <==> exists x :: LowSuccessor(cfg, vs, v, x) && Low(vs, x) <= vs.Dfn(v))
  }

  ghost predicate LowSuccessor(cfg: Cfg, vs: Vertices, v: Label, x: Label) {
    cfg.Edge(v, x) && vs.IsNumbered(x)
  }

  ghost predicate TopIs(l: Level, v: Label) {
    l.work != [] && l.work[|l.work| - 1] == StartVisit(v, l.key)
  }

  lemma TopIsInnermost(l: Level, vs: Vertices, v: Label, i: nat, g: nat)
    requires Sorted(l, vs) && StartsSorted(l, vs) && TopIs(l, v)
    requires i < |l.stack| && l.stack[i] == v && g < |l.stack|
    ensures l.Open(v) && (l.Open(l.stack[g]) ==> g <= i)
  {
    var n := |l.work| - 1;
    if l.Open(l.stack[g]) {
      var k :| 0 <= k < |l.work| && l.work[k] == StartVisit(l.stack[g], l.key);
      assert k < n ==> vs.Dfn(l.work[k].vertex) < vs.Dfn(l.work[n].vertex);
      DfnDistinct(l, vs, i, g);
    }
  }

  /** All successors of the top label are on the stack or done. */
  lemma SuccessorsKnown(cfg: Cfg, l: Level, vs: Vertices, v: Label, x: Label)
    requires MarksOk(cfg, l, vs) && Pending(cfg, l, vs) && Confined(cfg, l, vs)
    requires TopIs(l, v) && v in l.stack && cfg.Edge(v, x)
    ensures x in l.stack || vs.IsDone(x)
  {
    var n := |l.work| - 1;
    assert !PushedAbove(l.work, n, x);
    if x in l.scope {
      assert !vs.IsNew(x);
    }
  }

  lemma LowIsBelow(cfg: Cfg, l: Level, vs: Vertices, x: Label)
    requires HeadsOk(l, vs) && HeadsLead(cfg, l, vs) && Sorted(l, vs) && x in l.stack
    ensures 0 < Low(vs, x) <= vs.Dfn(x)
  {
    if !l.Open(x) {
      assert Closed(l, x) && LeadsDown(cfg, l, vs, x);
    }
  }

  lemma OpenAfterTop(l: Level, vs: Vertices, v: Label, x: Label)
    requires StartsSorted(l, vs) && TopIs(l, v)
    ensures l.(work := l.work[..|l.work| - 1]).Open(x) <==> l.Open(x) && x != v
  {
    var n := |l.work| - 1;
    var m := l.(work := l.work[..n]);
    if l.Open(x) && x != v {
      var i :| 0 <= i < |l.work| && l.work[i] == StartVisit(x, l.key);
      assert m.work[i] == StartVisit(x, l.key);
    }
    if m.Open(x) {
      var i :| 0 <= i < n && m.work[i] == StartVisit(x, l.key);
      assert l.work[i] == StartVisit(x, l.key);
    }
  }

  /** The tasks when the top visit is over. */
  lemma WorkAfterTop(cfg: Cfg, l: Level, m: Level, vs: Vertices, us: Vertices, v: Label)
    requires WorkOk(cfg, l, vs) && Pending(cfg, l, vs) && TopIs(l, v) && m.work == l.work[..|l.work| - 1]
    requires m.scope == l.scope && m.key == l.key && m.roots == l.roots
    requires forall x :: us.IsNew(x) ==> vs.IsNew(x)
    requires forall j :: 0 <= j < |m.work| && m.work[j].StartVisit? ==>
               m.work[j].vertex in m.stack && us.Dfn(m.work[j].vertex) == vs.Dfn(m.work[j].vertex)
    ensures WorkOk(cfg, m, us) && Pending(cfg, m, us)
  {
    WorkBelow(cfg, l, vs);
    forall j | 0 <= j < |m.work| && m.work[j].PushSuccessors? ensures HasOwner(cfg, m, j) {
      assert m.work[..j] == l.work[..j];
      OwnerBelow(cfg, l, m, j);
    }
    PendingBelow(cfg, l, m, vs, us);
  }

  // ----- a label that leads further down -----

  function Left(vs: Vertices, v: Label, h: nat): Vertices {
    vs.(heads := vs.heads[v := h])
  }

  ghost predicate Leaves(l: Level, m: Level, vs: Vertices, us: Vertices, v: Label, h: nat) {
    && m.scope == l.scope && m.stack == l.stack && m.key == l.key && m.roots == l.roots && us == Left(vs, v, h)
    && v in l.stack && l.Open(v) && 0 < h < vs.Dfn(v)
    && forall x :: m.Open(x) <==> l.Open(x) && x != v
  }

  lemma PlainLeaves(cfg: Cfg, l: Level, m: Level, vs: Vertices, us: Vertices, v: Label, h: nat)
    requires Leaves(l, m, vs, us, v, h)
    requires MarksOk(cfg, l, vs) && Sorted(l, vs) && HeadsOk(l, vs) && Confined(cfg, l, vs)
    ensures MarksOk(cfg, m, us) && Sorted(m, us) && HeadsOk(m, us) && Confined(cfg, m, us)
  {
    assert forall x :: us.Dfn(x) == vs.Dfn(x) && (us.IsNew(x) <==> vs.IsNew(x)) && (us.IsDone(x) <==> vs.IsDone(x));
    assert forall x :: us.IsNumbered(x) <==> vs.IsNumbered(x);
    assert forall x :: x != v ==> us.Head(x) == vs.Head(x);
  }

  lemma ClosedLeaves(cfg: Cfg, l: Level, m: Level, vs: Vertices, us: Vertices, v: Label, h: nat)
    requires Leaves(l, m, vs, us, v, h) && ClosedOk(cfg, l, vs)
    requires forall x :: cfg.Edge(v, x) && x in l.scope ==> !vs.IsNew(x) && (x in l.stack ==> h <= vs.Dfn(x))
    ensures ClosedOk(cfg, m, us)
  {
    assert forall x :: us.Dfn(x) == vs.Dfn(x) && (us.IsNew(x) <==> vs.IsNew(x));
    assert forall x :: x != v ==> us.Head(x) == vs.Head(x) && (Closed(m, x) <==> Closed(l, x));
  }

  lemma ParentLeaves(cfg: Cfg, l: Level, m: Level, vs: Vertices, us: Vertices, v: Label, h: nat, i: nat)
    requires Leaves(l, m, vs, us, v, h) && 0 < i < |l.stack| && HasParent(cfg, l, vs, i)
    requires forall k ::
               0 <= k < |l.stack| && cfg.Edge(v, l.stack[k]) && Closed(l, l.stack[k]) ==> h <= vs.Head(l.stack[k])
    requires forall k, g :: 0 <= k < |l.stack| && l.stack[k] == v && k < g < |l.stack| ==> Closed(l, l.stack[g])
    ensures HasParent(cfg, m, us, i)
  {
    assert forall x :: x != v ==> us.Head(x) == vs.Head(x) && (Closed(m, x) <==> Closed(l, x));
    var j :| 0 <= j < i && IsParent(cfg, l, vs, j, i);
    assert IsParent(cfg, m, us, j, i);
  }

  lemma WayFrom(cfg: Cfg, stack: seq<Label>, p: seq<Label>, v: Label, x: Label, y: Label)
    requires IsWay(cfg, stack, p, x, y) && v in stack && cfg.Edge(v, x)
    ensures IsWay(cfg, stack, [v] + p, v, y)
  {
    var q := [v] + p;
    forall i | 0 <= i < |q| - 1 ensures cfg.Edge(q[i], q[i + 1]) {
      assert i > 0 ==> q[i] == p[i - 1] && q[i + 1] == p[i];
    }
  }

  lemma LeadsFromTop(cfg: Cfg, l: Level, vs: Vertices, v: Label, h: nat, x: Label) returns (y: Label, p: seq<Label>)
    requires HeadsOk(l, vs) && HeadsLead(cfg, l, vs) && v in l.stack && x in l.stack
    requires cfg.Edge(v, x) && Low(vs, x) == h
    ensures y in l.stack && IsWay(cfg, l.stack, p, v, y) && h == vs.Dfn(y)
  {
    if vs.Head(x) == 0 {
      y, p := x, [v, x];
    } else {
      assert Closed(l, x) && LeadsDown(cfg, l, vs, x);
      var q;
      y, q :| y in l.stack && IsWay(cfg, l.stack, q, x, y) && vs.Head(x) == vs.Dfn(y);
      WayFrom(cfg, l.stack, q, v, x, y);
      p := [v] + q;
    }
  }

  lemma LeadLeaves(cfg: Cfg, l: Level, m: Level, vs: Vertices, us: Vertices, v: Label, h: nat)
    requires Leaves(l, m, vs, us, v, h) && HeadsOk(l, vs) && HeadsLead(cfg, l, vs)
    requires exists x :: x in l.stack && cfg.Edge(v, x) && Low(vs, x) == h
    ensures HeadsLead(cfg, m, us)
  {
    assert forall x :: us.Dfn(x) == vs.Dfn(x);
    var x :| x in l.stack && cfg.Edge(v, x) && Low(vs, x) == h;
    var y, p := LeadsFromTop(cfg, l, vs, v, h, x);
    assert IsWay(cfg, m.stack, p, v, y) && us.Head(v) == us.Dfn(y);
    forall w | Closed(m, w) ensures LeadsDown(cfg, m, us, w) {
      if w != v {
        assert Closed(l, w);
        LeadsAfterPush(cfg, l, m, vs, us, w);
      }
    }
  }

  function AfterTop(l: Level): Level
    requires l.work != []
  {
    l.(work := l.work[..|l.work| - 1])
  }

  lemma TopLeaves(l: Level, vs: Vertices, v: Label, h: nat)
    requires StartsSorted(l, vs) && TopIs(l, v) && v in l.stack && 0 < h < vs.Dfn(v)
    ensures Leaves(l, AfterTop(l), vs, Left(vs, v, h), v, h)
  {
    forall x ensures AfterTop(l).Open(x) <==> l.Open(x) && x != v {
      OpenAfterTop(l, vs, v, x);
    }
  }

  /** Closed labels above the top visit, and the numbers around it. */
  lemma AboveTop(cfg: Cfg, l: Level, vs: Vertices, v: Label, i: nat)
    requires LevelOk(cfg, l, vs) && TopIs(l, v) && i < |l.stack| && l.stack[i] == v
    ensures l.Open(v) && forall g :: i < g < |l.stack| ==> Closed(l, l.stack[g])
    ensures forall x :: cfg.Edge(v, x) ==> x in l.stack || vs.IsDone(x)
    ensures forall x :: x in l.stack ==> 0 < Low(vs, x) <= vs.Dfn(x)
  {
    forall g: nat | g < |l.stack| ensures l.Open(l.stack[g]) ==> g <= i {
      TopIsInnermost(l, vs, v, i, g);
    }
    forall x | cfg.Edge(v, x) ensures x in l.stack || vs.IsDone(x) {
      SuccessorsKnown(cfg, l, vs, v, x);
    }
    forall x | x in l.stack ensures 0 < Low(vs, x) <= vs.Dfn(x) {
      LowIsBelow(cfg, l, vs, x);
    }
  }

  /** A label that leads further down stays on the stack. */
  lemma LeaveTop(cfg: Cfg, l: Level, vs: Vertices, v: Label, h: nat, loop: bool)
    requires LevelOk(cfg, l, vs) && TopIs(l, v) && v in l.stack && IsLow(cfg, vs, v, h, loop) && h < vs.Dfn(v)
    ensures LevelOk(cfg, AfterTop(l), Left(vs, v, h))
  {
    var m, us := AfterTop(l), Left(vs, v, h);
    var i :| 0 <= i < |l.stack| && l.stack[i] == v;
    AboveTop(cfg, l, vs, v, i);
    TopLeaves(l, vs, v, h);
    LeaveStack(cfg, l, m, vs, us, v, h, i);
    LeaveWork(cfg, l, vs, v, h);
  }

  lemma LeaveWork(cfg: Cfg, l: Level, vs: Vertices, v: Label, h: nat)
    requires WorkOk(cfg, l, vs) && Pending(cfg, l, vs) && TopIs(l, v)
    ensures WorkOk(cfg, AfterTop(l), Left(vs, v, h)) && Pending(cfg, AfterTop(l), Left(vs, v, h))
  {
    var m, us := AfterTop(l), Left(vs, v, h);
    forall j | 0 <= j < |m.work| && m.work[j].StartVisit?
      ensures m.work[j].vertex in m.stack && us.Dfn(m.work[j].vertex) == vs.Dfn(m.work[j].vertex)
    {
      assert m.work[j] == l.work[j];
    }
    WorkAfterTop(cfg, l, m, vs, us, v);
  }

  lemma LeaveStack(cfg: Cfg, l: Level, m: Level, vs: Vertices, us: Vertices, v: Label, h: nat, i: nat)
    requires Leaves(l, m, vs, us, v, h) && StackOk(cfg, l, vs) && i < |l.stack| && l.stack[i] == v
    requires forall g :: i < g < |l.stack| ==> Closed(l, l.stack[g])
    requires forall x :: cfg.Edge(v, x) ==> x in l.stack || vs.IsDone(x)
    requires forall x :: x in l.stack ==> 0 < Low(vs, x) <= vs.Dfn(x)
    requires forall x :: cfg.Edge(v, x) && vs.IsNumbered(x) ==> h <= Low(vs, x)
    requires exists x :: LowSuccessor(cfg, vs, v, x) && Low(vs, x) == h
    ensures StackOk(cfg, m, us)
  {
    PlainLeaves(cfg, l, m, vs, us, v, h);
    ClosedLeaves(cfg, l, m, vs, us, v, h);
    forall k | 0 <= k < |l.stack| && cfg.Edge(v, l.stack[k]) && Closed(l, l.stack[k]) ensures h <= vs.Head(l.stack[k]) {
      assert vs.IsNumbered(l.stack[k]) && h <= Low(vs, l.stack[k]);
    }
    forall k: nat | k < |l.stack| && l.stack[k] == v ensures k == i {
      DfnDistinct(l, vs, k, i);
    }
    forall k | 0 < k < |m.stack| ensures HasParent(cfg, m, us, k) {
      assert HasParent(cfg, l, vs, k);
      ParentLeaves(cfg, l, m, vs, us, v, h, k);
    }
    var x :| LowSuccessor(cfg, vs, v, x) && Low(vs, x) == h;
    assert x in l.stack;
    LeadLeaves(cfg, l, m, vs, us, v, h);
  }

  // ----- a label from which nothing leads further down -----

  /** From a position of the stack on. */
  function From(l: Level, i: nat): set<Label>
    requires i <= |l.stack|
  {
    set k | i <= k < |l.stack| :: l.stack[k]
  }

  function Finished(vs: Vertices, done: set<Label>): Vertices {
    vs.(marks := map x | x in vs.marks :: if x in done then Infinite else vs.marks[x])
  }

  lemma {:induction false} HeadsAbove(cfg: Cfg, l: Level, vs: Vertices, v: Label, i: nat, k: nat)
    requires Parents(cfg, l, vs) && i < k < |l.stack| && l.stack[i] == v && l.Open(v)
    requires forall g :: i < g < |l.stack| ==> Closed(l, l.stack[g])
    requires forall g :: i < g < |l.stack| && cfg.Edge(v, l.stack[g]) ==> vs.Dfn(v) <= vs.Head(l.stack[g])
    ensures vs.Dfn(v) <= vs.Head(l.stack[k])
    decreases k
  {
    assert HasParent(cfg, l, vs, k);
    var j :| 0 <= j < k && IsParent(cfg, l, vs, j, k);
    assert i <= j;
    if i < j {
      HeadsAbove(cfg, l, vs, v, i, j);
    }
  }

  /** Nothing leads out of the upper part of the stack but to what is done. */
  ghost predicate Sealed(cfg: Cfg, l: Level, vs: Vertices, i: nat)
    requires i <= |l.stack|
  {
    forall u, x :: u in From(l, i) && cfg.Edge(u, x) ==> x in From(l, i) || vs.IsDone(x)
  }

  lemma InFrom(l: Level, vs: Vertices, i: nat, x: Label)
    requires Sorted(l, vs) && i < |l.stack| && x in l.stack
    ensures x in From(l, i) <==> vs.Dfn(l.stack[i]) <= vs.Dfn(x)
  {
    var k :| 0 <= k < |l.stack| && l.stack[k] == x;
    DfnDistinct(l, vs, i, k);
    if x in From(l, i) {
      var g :| i <= g < |l.stack| && l.stack[g] == x;
      DfnDistinct(l, vs, g, k);
    }
  }

  lemma TopIsSealed(cfg: Cfg, l: Level, vs: Vertices, v: Label, i: nat, loop: bool)
    requires LevelOk(cfg, l, vs) && TopIs(l, v) && i < |l.stack| && l.stack[i] == v
    requires IsLow(cfg, vs, v, vs.Dfn(v), loop)
    ensures Sealed(cfg, l, vs, i)
  {
    AboveTop(cfg, l, vs, v, i);
    forall g | i < g < |l.stack| && cfg.Edge(v, l.stack[g]) ensures vs.Dfn(v) <= vs.Head(l.stack[g]) {
      assert Closed(l, l.stack[g]) && vs.IsNumbered(l.stack[g]);
      assert vs.Dfn(v) <= Low(vs, l.stack[g]);
    }
    forall u, x | u in From(l, i) && cfg.Edge(u, x) ensures x in From(l, i) || vs.IsDone(x) {
      var k :| i <= k < |l.stack| && l.stack[k] == u;
      if k > i {
        HeadsAbove(cfg, l, vs, v, i, k);
      }
      SealedEdge(cfg, l, vs, v, i, k, x);
    }
  }

  lemma SealedEdge(cfg: Cfg, l: Level, vs: Vertices, v: Label, i: nat, k: nat, x: Label)
    requires StackOk(cfg, l, vs) && i <= k < |l.stack| && l.stack[i] == v && cfg.Edge(l.stack[k], x)
    requires k > i ==> Closed(l, l.stack[k]) && vs.Dfn(v) <= vs.Head(l.stack[k])
    requires k == i ==> x in l.stack || vs.IsDone(x)
    requires forall y :: y in l.stack ==> Low(vs, y) <= vs.Dfn(y)
    requires forall y :: cfg.Edge(v, y) && vs.IsNumbered(y) ==> vs.Dfn(v) <= Low(vs, y)
    ensures x in From(l, i) || vs.IsDone(x)
  {
    var u := l.stack[k];
    if x in l.stack {
      InFrom(l, vs, i, x);
      assert vs.Dfn(v) <= vs.Dfn(x);
    } else {
      assert x in l.scope || vs.IsDone(x);
    }
  }

  /** The level without the upper part of the stack, which is done. */
  ghost predicate Pops(l: Level, m: Level, vs: Vertices, us: Vertices, i: nat) {
    && i < |l.stack| && m.scope == l.scope && m.key == l.key && m.roots == l.roots
    && m.stack == l.stack[..i] && us == Finished(vs, From(l, i))
    && forall x :: x in m.stack ==> (m.Open(x) <==> l.Open(x))
  }

  lemma LowerPart(l: Level, vs: Vertices, i: nat, x: Label)
    requires Sorted(l, vs) && i < |l.stack|
    ensures x in l.stack[..i] <==> x in l.stack && x !in From(l, i)
    ensures x in l.stack[..i] ==> vs.Dfn(x) < vs.Dfn(l.stack[i])
  {
    if x in l.stack[..i] {
      var k :| 0 <= k < i && l.stack[..i][k] == x;
      assert l.stack[k] == x;
      DfnDistinct(l, vs, k, i);
      InFrom(l, vs, i, x);
    }
    if x in l.stack {
      var k :| 0 <= k < |l.stack| && l.stack[k] == x;
      if k < i {
        assert l.stack[..i][k] == x;
      }
    }
  }

  lemma FinishedSame(vs: Vertices, done: set<Label>, x: Label)
    requires x !in done
    ensures var us := Finished(vs, done);
            && us.Dfn(x) == vs.Dfn(x) && (us.IsNew(x) <==> vs.IsNew(x)) && (us.IsDone(x) <==> vs.IsDone(x))
            && (us.IsNumbered(x) <==> vs.IsNumbered(x)) && us.Head(x) == vs.Head(x)
  {
  }

  lemma PlainPops(cfg: Cfg, l: Level, m: Level, vs: Vertices, us: Vertices, i: nat)
    requires Pops(l, m, vs, us, i)
    requires MarksOk(cfg, l, vs) && Sorted(l, vs) && HeadsOk(l, vs) && Confined(cfg, l, vs)
    ensures MarksOk(cfg, m, us) && Sorted(m, us) && HeadsOk(m, us) && Confined(cfg, m, us)
  {
    forall x ensures x in m.stack <==> x in l.stack && x !in From(l, i) {
      LowerPart(l, vs, i, x);
    }
    forall x | x !in From(l, i)
      ensures us.Dfn(x) == vs.Dfn(x) && (us.IsNew(x) <==> vs.IsNew(x)) && (us.IsNumbered(x) <==> vs.IsNumbered(x))
    {
      FinishedSame(vs, From(l, i), x);
    }
    assert forall x :: x in From(l, i) ==> !us.IsNew(x) && !us.IsNumbered(x);
    assert forall x :: vs.IsDone(x) ==> us.IsDone(x);
    assert us.heads == vs.heads && us.num == vs.num;
  }

  lemma ClosedPops(cfg: Cfg, l: Level, m: Level, vs: Vertices, us: Vertices, i: nat)
    requires Pops(l, m, vs, us, i) && Sorted(l, vs) && ClosedOk(cfg, l, vs)
    ensures ClosedOk(cfg, m, us)
  {
    forall x ensures x in m.stack <==> x in l.stack && x !in From(l, i) {
      LowerPart(l, vs, i, x);
    }
    forall w, x | Closed(m, w) && x in m.scope && cfg.Edge(w, x)
      ensures !us.IsNew(x) && (x in m.stack ==> us.Head(w) <= us.Dfn(x))
    {
      assert Closed(l, w);
    }
  }

  lemma ParentsPop(cfg: Cfg, l: Level, m: Level, vs: Vertices, us: Vertices, i: nat)
    requires Pops(l, m, vs, us, i) && Parents(cfg, l, vs)
    ensures Parents(cfg, m, us)
  {
    forall k | 0 < k < |m.stack| ensures HasParent(cfg, m, us, k) {
      assert HasParent(cfg, l, vs, k);
      forall g | 0 <= g <= k ensures m.stack[g] == l.stack[g] && m.stack[g] in m.stack {
      }
      ParentStays(cfg, l, m, vs, us, k);
    }
  }

  /** A way that comes to the sealed part stays in it. */
  lemma {:induction false} WayIsSealed(
    cfg: Cfg, l: Level, vs: Vertices, i: nat, p: seq<Label>, x: Label, y: Label, a: nat, b: nat)
    requires MarksOk(cfg, l, vs) && i < |l.stack| && Sealed(cfg, l, vs, i) && IsWay(cfg, l.stack, p, x, y)
    requires a <= b < |p| && p[a] in From(l, i)
    ensures p[b] in From(l, i)
  {
    if a < b {
      WayIsSealed(cfg, l, vs, i, p, x, y, a, b - 1);
      assert cfg.Edge(p[b - 1], p[b - 1 + 1]) && p[b] in l.stack;
      assert vs.IsNumbered(p[b]);
    }
  }

  lemma LeadPops(cfg: Cfg, l: Level, m: Level, vs: Vertices, us: Vertices, i: nat, w: Label)
    requires Pops(l, m, vs, us, i) && MarksOk(cfg, l, vs) && Sorted(l, vs) && Sealed(cfg, l, vs, i)
    requires LeadsDown(cfg, l, vs, w) && w in m.stack
    ensures LeadsDown(cfg, m, us, w)
  {
    var y, p :| y in l.stack && IsWay(cfg, l.stack, p, w, y) && vs.Head(w) == vs.Dfn(y) && vs.Dfn(y) < vs.Dfn(w);
    forall x ensures x in m.stack <==> x in l.stack && x !in From(l, i) {
      LowerPart(l, vs, i, x);
    }
    LowerPart(l, vs, i, w);
    InFrom(l, vs, i, y);
    WayPops(cfg, l, m, vs, i, p, w, y);
    FinishedSame(vs, From(l, i), y);
    FinishedSame(vs, From(l, i), w);
  }

  lemma WayPops(cfg: Cfg, l: Level, m: Level, vs: Vertices, i: nat, p: seq<Label>, x: Label, y: Label)
    requires MarksOk(cfg, l, vs) && i < |l.stack| && Sealed(cfg, l, vs, i)
    requires IsWay(cfg, l.stack, p, x, y) && y !in From(l, i)
    requires forall z :: z in m.stack <==> z in l.stack && z !in From(l, i)
    ensures IsWay(cfg, m.stack, p, x, y)
  {
    forall k: nat | k < |p| ensures p[k] in m.stack {
      if p[k] in From(l, i) {
        WayIsSealed(cfg, l, vs, i, p, x, y, k, |p| - 1);
      }
    }
  }

  lemma StackPops(cfg: Cfg, l: Level, m: Level, vs: Vertices, us: Vertices, i: nat)
    requires Pops(l, m, vs, us, i) && StackOk(cfg, l, vs) && Sealed(cfg, l, vs, i)
    ensures StackOk(cfg, m, us)
  {
    PlainPops(cfg, l, m, vs, us, i);
    ClosedPops(cfg, l, m, vs, us, i);
    ParentsPop(cfg, l, m, vs, us, i);
    forall x ensures x in m.stack ==> x in l.stack {
      LowerPart(l, vs, i, x);
    }
    forall w | Closed(m, w) ensures LeadsDown(cfg, m, us, w) {
      assert Closed(l, w);
      LeadPops(cfg, l, m, vs, us, i, w);
    }
  }

  function AfterPop(l: Level, i: nat): Level
    requires l.work != [] && i <= |l.stack|
  {
    l.(stack := l.stack[..i], work := l.work[..|l.work| - 1])
  }

  /** A label from which nothing leads further down is done, with all above it. */
  lemma PopTop(cfg: Cfg, l: Level, vs: Vertices, v: Label, i: nat, loop: bool)
    requires LevelOk(cfg, l, vs) && TopIs(l, v) && i < |l.stack| && l.stack[i] == v
    requires IsLow(cfg, vs, v, vs.Dfn(v), loop)
    ensures Sealed(cfg, l, vs, i) && LevelOk(cfg, AfterPop(l, i), Finished(vs, From(l, i)))
  {
    var m, us := AfterPop(l, i), Finished(vs, From(l, i));
    TopIsSealed(cfg, l, vs, v, i, loop);
    PopsTop(l, vs, v, i);
    StackPops(cfg, l, m, vs, us, i);
    forall j | 0 <= j < |m.work| && m.work[j].StartVisit?
      ensures m.work[j].vertex in m.stack && us.Dfn(m.work[j].vertex) == vs.Dfn(m.work[j].vertex)
    {
      assert m.work[j] == l.work[j];
      InFrom(l, vs, i, l.work[j].vertex);
      LowerPart(l, vs, i, l.work[j].vertex);
    }
    WorkAfterTop(cfg, l, m, vs, us, v);
  }

  lemma PopsTop(l: Level, vs: Vertices, v: Label, i: nat)
    requires Sorted(l, vs) && StartsSorted(l, vs) && TopIs(l, v) && i < |l.stack| && l.stack[i] == v
    ensures Pops(l, AfterPop(l, i), vs, Finished(vs, From(l, i)), i)
  {
    var m := AfterPop(l, i);
    forall x | x in m.stack ensures m.Open(x) <==> l.Open(x) {
      LowerPart(l, vs, i, x);
      OpenAfterTop(l, vs, v, x);
      assert m.Open(x) <==> AfterTop(l).Open(x);
    }
  }

  lemma HeadAtMost(l: Level, vs: Vertices, i: nat, y: Label)
    requires Sorted(l, vs) && i + 1 < |l.stack| && y in l.stack && vs.Dfn(y) < vs.Dfn(l.stack[i + 1])
    ensures vs.Dfn(y) <= vs.Dfn(l.stack[i])
  {
    var k :| 0 <= k < |l.stack| && l.stack[k] == y;
    DfnDistinct(l, vs, k, i + 1);
    DfnDistinct(l, vs, i, k);
  }

  /** The label right above the top visit is a successor that leads down at least to it. */
  lemma FirstAbove(cfg: Cfg, l: Level, vs: Vertices, v: Label, i: nat)
    requires Sorted(l, vs) && Parents(cfg, l, vs) && HeadsLead(cfg, l, vs)
    requires i + 1 < |l.stack| && l.stack[i] == v && l.Open(v) && Closed(l, l.stack[i + 1])
    ensures cfg.Edge(v, l.stack[i + 1]) && vs.Head(l.stack[i + 1]) <= vs.Dfn(v)
  {
    var c := l.stack[i + 1];
    assert HasParent(cfg, l, vs, i + 1) && LeadsDown(cfg, l, vs, c);
    var j :| 0 <= j < i + 1 && IsParent(cfg, l, vs, j, i + 1);
    assert j == i;
    var y :| y in l.stack && vs.Head(c) == vs.Dfn(y) && vs.Dfn(y) < vs.Dfn(c);
    HeadAtMost(l, vs, i, y);
  }

  /** Without a loop there is nothing above it. */
  lemma TopAlone(cfg: Cfg, l: Level, vs: Vertices, v: Label, i: nat)
    requires LevelOk(cfg, l, vs) && TopIs(l, v) && i < |l.stack| && l.stack[i] == v
    requires IsLow(cfg, vs, v, vs.Dfn(v), false)
    ensures i + 1 == |l.stack|
  {
    AboveTop(cfg, l, vs, v, i);
    if i + 1 < |l.stack| {
      FirstAbove(cfg, l, vs, v, i);
      assert LowSuccessor(cfg, vs, v, l.stack[i + 1]);
    }
  }

  // ----- a cycle -----

  /** What is known of a cycle when it is found: it is a loop around its head, it is entered there,
      and nothing leads out of it but to what is done. */
  ghost predicate CycleFound(cfg: Cfg, vs: Vertices, v: Label, inner: set<Label>) {
    && v !in inner && IsLoop(cfg, v, inner + {v}) && EntersAt(cfg, v, inner + {v})
    && forall u, x :: u in inner + {v} && cfg.Edge(u, x) ==> x in inner + {v} || vs.IsDone(x)
  }

  lemma OneStep(cfg: Cfg, a: Label, b: Label, within: set<Label>)
    requires cfg.Edge(a, b) && a in within && b in within && within <= cfg.neighbours.Keys
    ensures LeadsWithin(cfg, a, b, within)
  {
    var w := [a, b];
    assert IsWalk(cfg, w) && Inside(w, within);
  }

  lemma LeadsOnWithin(cfg: Cfg, a: Label, b: Label, c: Label, within: set<Label>)
    requires LeadsWithin(cfg, a, b, within) && LeadsWithin(cfg, b, c, within)
    ensures LeadsWithin(cfg, a, c, within)
  {
    var v :| IsWalk(cfg, v) && |v| > 1 && v[0] == a && v[|v| - 1] == b && Inside(v, within);
    var w :| IsWalk(cfg, w) && |w| > 1 && w[0] == b && w[|w| - 1] == c && Inside(w, within);
    var q := v + w[1..];
    forall i | 0 <= i < |q| - 1 ensures cfg.Edge(q[i], q[i + 1]) {
      if i < |v| - 1 {
        assert cfg.Edge(v[i], v[i + 1]);
      } else {
        assert cfg.Edge(w[i - |v| + 1], w[i - |v| + 1 + 1]);
      }
    }
    assert IsWalk(cfg, q) && Inside(q, within);
  }

  lemma FromIsKnown(cfg: Cfg, l: Level, vs: Vertices, i: nat)
    requires MarksOk(cfg, l, vs) && i <= |l.stack|
    ensures From(l, i) <= cfg.neighbours.Keys && From(l, i) <= l.scope
  {
    assert forall x :: x in From(l, i) ==> x in l.stack;
  }

  /** Every label above was found from the head, along labels above it. */
  lemma {:induction false} CycleReached(cfg: Cfg, l: Level, vs: Vertices, v: Label, i: nat, k: nat)
    requires Parents(cfg, l, vs) && i < k < |l.stack| && l.stack[i] == v && l.Open(v)
    requires From(l, i) <= cfg.neighbours.Keys
    ensures LeadsWithin(cfg, v, l.stack[k], From(l, i))
    decreases k
  {
    assert HasParent(cfg, l, vs, k);
    var j :| 0 <= j < k && IsParent(cfg, l, vs, j, k);
    assert i <= j;
    OneStep(cfg, l.stack[j], l.stack[k], From(l, i));
    if i < j {
      CycleReached(cfg, l, vs, v, i, j);
      LeadsOnWithin(cfg, v, l.stack[j], l.stack[k], From(l, i));
    }
  }

  /** And it leads back: each leads further down, and not below the head. */
  lemma {:induction false} CycleReturns(cfg: Cfg, l: Level, vs: Vertices, v: Label, i: nat, k: nat)
    requires MarksOk(cfg, l, vs) && Sorted(l, vs) && HeadsLead(cfg, l, vs) && i < k < |l.stack| && l.stack[i] == v
    requires (forall g :: i < g < |l.stack| ==> Closed(l, l.stack[g]) && vs.Dfn(v) <= vs.Head(l.stack[g]))
    requires Sealed(cfg, l, vs, i) && From(l, i) <= cfg.neighbours.Keys
    ensures LeadsWithin(cfg, l.stack[k], v, From(l, i))
    decreases k
  {
    var x := l.stack[k];
    var g := LeadsToLower(cfg, l, vs, v, i, k);
    if i < g {
      CycleReturns(cfg, l, vs, v, i, g);
      LeadsOnWithin(cfg, x, l.stack[g], v, From(l, i));
    }
  }

  lemma LeadsToLower(cfg: Cfg, l: Level, vs: Vertices, v: Label, i: nat, k: nat) returns (g: nat)
    requires MarksOk(cfg, l, vs) && Sorted(l, vs) && HeadsLead(cfg, l, vs) && i < k < |l.stack| && l.stack[i] == v
    requires Closed(l, l.stack[k]) && vs.Dfn(v) <= vs.Head(l.stack[k])
    requires Sealed(cfg, l, vs, i) && From(l, i) <= cfg.neighbours.Keys
    ensures i <= g < k && LeadsWithin(cfg, l.stack[k], l.stack[g], From(l, i))
  {
    var x := l.stack[k];
    assert LeadsDown(cfg, l, vs, x);
    var y, p :| y in l.stack && IsWay(cfg, l.stack, p, x, y) && vs.Head(x) == vs.Dfn(y) && vs.Dfn(y) < vs.Dfn(x);
    g :| 0 <= g < |l.stack| && l.stack[g] == y;
    DfnDistinct(l, vs, g, k);
    DfnDistinct(l, vs, g, i);
    WayStaysAbove(cfg, l, vs, i, p, x, y);
    WayLeads(cfg, l.stack, p, x, y, From(l, i));
  }

  lemma WayLeads(cfg: Cfg, stack: seq<Label>, p: seq<Label>, x: Label, y: Label, within: set<Label>)
    requires IsWay(cfg, stack, p, x, y) && x != y && Inside(p, within) && within <= cfg.neighbours.Keys
    ensures LeadsWithin(cfg, x, y, within)
  {
    assert IsWalk(cfg, p);
  }

  lemma WayStaysAbove(cfg: Cfg, l: Level, vs: Vertices, i: nat, p: seq<Label>, x: Label, y: Label)
    requires MarksOk(cfg, l, vs) && i < |l.stack| && Sealed(cfg, l, vs, i) && IsWay(cfg, l.stack, p, x, y)
    requires x in From(l, i)
    ensures Inside(p, From(l, i))
  {
    forall k: nat | k < |p| ensures p[k] in From(l, i) {
      WayIsSealed(cfg, l, vs, i, p, x, y, 0, k);
    }
  }

  lemma FromSplits(l: Level, i: nat)
    requires i < |l.stack|
    ensures From(l, i) == From(l, i + 1) + {l.stack[i]}
  {
  }

  lemma NotAboveItself(l: Level, vs: Vertices, i: nat)
    requires Sorted(l, vs) && i < |l.stack|
    ensures l.stack[i] !in From(l, i + 1)
  {
    forall k: nat | i + 1 <= k < |l.stack| ensures l.stack[k] != l.stack[i] {
      DfnDistinct(l, vs, i, k);
    }
  }

  /** Nothing above the top label leads below it. */
  lemma NoneLeadsBelow(cfg: Cfg, l: Level, vs: Vertices, v: Label, i: nat, loop: bool)
    requires LevelOk(cfg, l, vs) && TopIs(l, v) && i < |l.stack| && l.stack[i] == v
    requires IsLow(cfg, vs, v, vs.Dfn(v), loop)
    ensures forall g :: i < g < |l.stack| ==> Closed(l, l.stack[g]) && vs.Dfn(v) <= vs.Head(l.stack[g])
  {
    AboveTop(cfg, l, vs, v, i);
    forall g | i < g < |l.stack| && cfg.Edge(v, l.stack[g]) ensures vs.Dfn(v) <= vs.Head(l.stack[g]) {
      assert Closed(l, l.stack[g]) && vs.IsNumbered(l.stack[g]);
      assert vs.Dfn(v) <= Low(vs, l.stack[g]);
    }
    forall g: nat | i < g < |l.stack| ensures vs.Dfn(v) <= vs.Head(l.stack[g]) {
      HeadsAbove(cfg, l, vs, v, i, g);
    }
  }

  lemma AboveIsLoop(cfg: Cfg, l: Level, vs: Vertices, v: Label, i: nat)
    requires MarksOk(cfg, l, vs) && Sorted(l, vs) && HeadsLead(cfg, l, vs) && Parents(cfg, l, vs)
    requires i < |l.stack| && l.stack[i] == v && l.Open(v) && Sealed(cfg, l, vs, i)
    requires (forall g :: i < g < |l.stack| ==> Closed(l, l.stack[g]) && vs.Dfn(v) <= vs.Head(l.stack[g]))
    ensures forall x :: x in From(l, i) && x != v ==>
              LeadsWithin(cfg, v, x, From(l, i)) && LeadsWithin(cfg, x, v, From(l, i))
  {
    FromIsKnown(cfg, l, vs, i);
    forall x | x in From(l, i) && x != v
      ensures LeadsWithin(cfg, v, x, From(l, i)) && LeadsWithin(cfg, x, v, From(l, i))
    {
      var k :| i <= k < |l.stack| && l.stack[k] == x;
      CycleReached(cfg, l, vs, v, i, k);
      CycleReturns(cfg, l, vs, v, i, k);
    }
  }

  /** The labels above a label to which something leads back are a loop around it. */
  lemma CycleIsLoop(cfg: Cfg, l: Level, vs: Vertices, v: Label, i: nat)
    requires LevelOk(cfg, l, vs) && TopIs(l, v) && i < |l.stack| && l.stack[i] == v
    requires IsLow(cfg, vs, v, vs.Dfn(v), true)
    ensures IsLoop(cfg, v, From(l, i))
  {
    var loop := From(l, i);
    AboveTop(cfg, l, vs, v, i);
    TopIsSealed(cfg, l, vs, v, i, true);
    NoneLeadsBelow(cfg, l, vs, v, i, true);
    AboveIsLoop(cfg, l, vs, v, i);
    FromIsKnown(cfg, l, vs, i);
    var x :| LowSuccessor(cfg, vs, v, x) && Low(vs, x) <= vs.Dfn(v);
    assert v in loop && x in loop;
    LoopCloses(cfg, v, x, loop);
  }

  lemma LoopCloses(cfg: Cfg, v: Label, x: Label, loop: set<Label>)
    requires cfg.Edge(v, x) && v in loop && x in loop && loop <= cfg.neighbours.Keys
    requires x != v ==> LeadsWithin(cfg, x, v, loop)
    ensures LeadsWithin(cfg, v, v, loop)
  {
    OneStep(cfg, v, x, loop);
    if x != v {
      LeadsOnWithin(cfg, v, x, v, loop);
    }
  }

  /** Some way from the entry comes to a label of the stack along labels below it. */
  lemma {:induction false} ComesAlong(cfg: Cfg, l: Level, vs: Vertices, k: nat) returns (w: seq<Label>)
    requires Rooted(cfg, l) && MarksOk(cfg, l, vs) && Parents(cfg, l, vs) && k < |l.stack|
    ensures ReachedBy(cfg, w, l.stack[k])
    ensures forall n :: 0 <= n < |w| - 1 && w[n] in l.scope ==> exists g :: 0 <= g < k && l.stack[g] == w[n]
    decreases k
  {
    if k == 0 {
      assert EntersAt(cfg, l.stack[0], l.scope);
      w :| ReachedBy(cfg, w, l.stack[0]) && Avoids(w[..|w| - 1], l.scope);
      assert forall n :: 0 <= n < |w| - 1 ==> w[..|w| - 1][n] == w[n];
    } else {
      assert HasParent(cfg, l, vs, k);
      var j :| 0 <= j < k && IsParent(cfg, l, vs, j, k);
      var u := ComesAlong(cfg, l, vs, j);
      w := u + [l.stack[k]];
      assert l.stack[k] in l.stack;
      forall n | 0 <= n < |w| - 1 ensures cfg.Edge(w[n], w[n + 1]) {
        assert n < |u| - 1 ==> w[n] == u[n] && w[n + 1] == u[n + 1];
      }
      assert w[|u| - 1] == l.stack[j];
    }
  }

  lemma BelowIsApart(l: Level, vs: Vertices, i: nat)
    requires Sorted(l, vs) && i < |l.stack|
    ensures forall g :: 0 <= g < i ==> l.stack[g] !in From(l, i)
  {
    forall g: nat, k: nat | g < i <= k < |l.stack| ensures l.stack[g] != l.stack[k] {
      DfnDistinct(l, vs, g, k);
    }
  }

  /** So a cycle is entered at its head. */
  lemma CycleIsEntered(cfg: Cfg, l: Level, vs: Vertices, i: nat)
    requires Rooted(cfg, l) && MarksOk(cfg, l, vs) && Parents(cfg, l, vs) && Sorted(l, vs) && i < |l.stack|
    ensures EntersAt(cfg, l.stack[i], From(l, i))
  {
    FromIsKnown(cfg, l, vs, i);
    var w := ComesAlong(cfg, l, vs, i);
    BelowIsApart(l, vs, i);
    forall n: nat | n < |w| - 1 ensures w[n] !in From(l, i) {
      assert w[n] in l.scope ==> exists g :: 0 <= g < i && l.stack[g] == w[n];
    }
    assert forall n :: 0 <= n < |w| - 1 ==> w[..|w| - 1][n] == w[n];
  }

  /** The labels above a label to which something leads back are a cycle with it. */
  lemma CycleIsFound(cfg: Cfg, l: Level, vs: Vertices, v: Label, i: nat)
    requires LevelOk(cfg, l, vs) && TopIs(l, v) && i < |l.stack| && l.stack[i] == v
    requires IsLow(cfg, vs, v, vs.Dfn(v), true)
    ensures CycleFound(cfg, vs, v, From(l, i + 1))
  {
    TopIsSealed(cfg, l, vs, v, i, true);
    NotAboveItself(l, vs, i);
    FromSplits(l, i);
    CycleIsLoop(cfg, l, vs, v, i);
    CycleIsEntered(cfg, l, vs, i);
  }

  /** The vertices when the search inside the cycle begins. */
  ghost predicate Restarts(vs: Vertices, us: Vertices, v: Label, inner: set<Label>) {
    && us.marks == (map x | x in vs.marks :: if x in inner then New else if x == v then Infinite else vs.marks[x])
    && us.num == vs.num
    && (forall x :: x in inner ==> us.Head(x) == 0) && (forall x :: x !in inner + {v} ==> us.Head(x) == vs.Head(x))
  }

  function InnerLevel(cfg: Cfg, v: Label, inner: set<Label>, pushes: seq<Task>): Level {
    Level(inner, [], pushes, (set x | x in inner && v in cfg.neighbours && x in cfg.neighbours[v].children), Some(v))
  }

  /** The successors of the head are entered from it. */
  lemma InnerRooted(cfg: Cfg, v: Label, inner: set<Label>, pushes: seq<Task>)
    requires EntersAt(cfg, v, inner + {v}) && v !in inner && inner <= cfg.neighbours.Keys
    ensures Rooted(cfg, InnerLevel(cfg, v, inner, pushes))
  {
    var u :| ReachedBy(cfg, u, v) && Avoids(u[..|u| - 1], inner + {v});
    forall x | x in InnerLevel(cfg, v, inner, pushes).roots ensures EntersAt(cfg, x, inner) {
      var w := u + [x];
      forall n | 0 <= n < |w| - 1 ensures cfg.Edge(w[n], w[n + 1]) && w[n] !in inner {
        assert n < |u| - 1 ==> w[n] == u[n] == u[..|u| - 1][n] && w[n + 1] == u[n + 1];
      }
      assert w[..|w| - 1] == u && ReachedBy(cfg, w, x);
    }
  }

  lemma InnerWorkBegins(cfg: Cfg, vs: Vertices, us: Vertices, v: Label, inner: set<Label>, pushes: seq<Task>)
    requires Restarts(vs, us, v, inner) && v in vs.marks && (forall x :: x in inner ==> x in vs.marks)
    requires PushesOf(cfg, us, v, Some(v), pushes)
    requires forall x :: cfg.Edge(v, x) ==> x in inner + {v} || vs.IsDone(x)
    ensures var l := InnerLevel(cfg, v, inner, pushes); WorkOk(cfg, l, us) && Pending(cfg, l, us)
  {
    var l := InnerLevel(cfg, v, inner, pushes);
    forall x | cfg.Edge(v, x) && us.IsNew(x) ensures x in inner {
    }
    forall j | 0 <= j < |l.work| ensures l.work[j].PushSuccessors? && l.work[j].partition == l.key {
      assert l.work[j] in pushes;
    }
    forall j | 0 <= j < |l.work| ensures l.work[j].vertex in l.scope && HasOwner(cfg, l, j) {
      assert l.work[j] in pushes && Unowned(l.work, j);
    }
    forall x | x in l.roots && us.IsNew(x) ensures PushedAbove(l.work, -1, x) {
      assert PushSuccessors(x, Some(v)) in pushes;
      var k :| 0 <= k < |pushes| && pushes[k] == PushSuccessors(x, Some(v));
      assert l.work[k] == pushes[k];
    }
  }

  lemma InnerStackBegins(cfg: Cfg, vs: Vertices, us: Vertices, v: Label, inner: set<Label>, pushes: seq<Task>)
    requires CycleFound(cfg, vs, v, inner) && Restarts(vs, us, v, inner) && v in vs.marks
    requires (forall x :: x in inner ==> x in cfg.neighbours && x in vs.marks)
    requires PushesOf(cfg, us, v, Some(v), pushes)
    ensures StackOk(cfg, InnerLevel(cfg, v, inner, pushes), us)
  {
  }

  lemma InnerBegins(cfg: Cfg, vs: Vertices, us: Vertices, v: Label, inner: set<Label>, pushes: seq<Task>)
    requires CycleFound(cfg, vs, v, inner) && Restarts(vs, us, v, inner) && v in vs.marks
    requires (forall x :: x in inner ==> x in cfg.neighbours && x in vs.marks)
    requires PushesOf(cfg, us, v, Some(v), pushes)
    requires forall x :: cfg.Edge(v, x) ==> x in inner + {v} || vs.IsDone(x)
    ensures LevelOk(cfg, InnerLevel(cfg, v, inner, pushes), us)
  {
    InnerRooted(cfg, v, inner, pushes);
    InnerWorkBegins(cfg, vs, us, v, inner, pushes);
    InnerStackBegins(cfg, vs, us, v, inner, pushes);
  }

  /** A level does not care for the numbers of what is done. */
  lemma LevelStays(cfg: Cfg, l: Level, vs: Vertices, us: Vertices)
    requires LevelOk(cfg, l, vs) && us.marks == vs.marks && vs.num <= us.num
    requires forall x :: x in l.stack || vs.IsNew(x) ==> us.Head(x) == vs.Head(x)
    ensures LevelOk(cfg, l, us)
  {
    assert forall x :: us.Dfn(x) == vs.Dfn(x) && (us.IsNew(x) <==> vs.IsNew(x)) && (us.IsDone(x) <==> vs.IsDone(x));
    forall i | 0 < i < |l.stack| ensures HasParent(cfg, l, us, i) {
      assert HasParent(cfg, l, vs, i);
      ParentStays(cfg, l, l, vs, us, i);
    }
    forall w | Closed(l, w) ensures LeadsDown(cfg, l, us, w) {
      LeadsAfterPush(cfg, l, l, vs, us, w);
    }
    forall i, x |
      0 <= i < |l.work| && l.work[i].StartVisit? && cfg.Edge(l.work[i].vertex, x) && x in l.scope && us.IsNew(x)
      ensures PushedAbove(l.work, i, x)
    {
      assert vs.IsNew(x);
    }
    forall x | x in l.roots && us.IsNew(x) ensures x in l.scope && PushedAbove(l.work, -1, x) {
      assert vs.IsNew(x);
      var outside := -1;
      assert PushedAbove(l.work, outside, x);
    }
  }

  /** When no task is left the level is empty, and its roots are done. */
  lemma LevelEnds(cfg: Cfg, l: Level, vs: Vertices)
    requires LevelOk(cfg, l, vs) && l.work == []
    ensures l.stack == [] && forall x :: x in l.roots ==> !vs.IsNew(x)
    ensures forall x :: x in l.scope ==> vs.IsNew(x) || vs.IsDone(x)
  {
    ClosedIsEmpty(cfg, l, vs);
    forall x | x in l.roots ensures !vs.IsNew(x) {
      assert !PushedAbove(l.work, -1, x);
    }
  }

  /** Everything in a cycle is done when the search inside is over. */
  lemma CycleIsDone(cfg: Cfg, v: Label, loop: set<Label>, us: Vertices, x: Label)
    requires LeadsWithin(cfg, v, x, loop) && us.IsDone(v)
    requires forall u, y :: u in loop && us.IsDone(u) && cfg.Edge(u, y) && y in loop ==> us.IsDone(y)
    ensures us.IsDone(x)
  {
    var w :| IsWalk(cfg, w) && |w| > 1 && w[0] == v && w[|w| - 1] == x && Inside(w, loop);
    WalkIsDone(cfg, loop, us, w, |w| - 1);
  }

  lemma {:induction false} WalkIsDone(cfg: Cfg, loop: set<Label>, us: Vertices, w: seq<Label>, k: nat)
    requires IsWalk(cfg, w) && Inside(w, loop) && us.IsDone(w[0]) && k < |w|
    requires forall u, y :: u in loop && us.IsDone(u) && cfg.Edge(u, y) && y in loop ==> us.IsDone(y)
    ensures us.IsDone(w[k])
  {
    if k > 0 {
      WalkIsDone(cfg, loop, us, w, k - 1);
      assert cfg.Edge(w[k - 1], w[k - 1 + 1]);
    }
  }
}
