/** The construction of weak topological orders (wto_builder_t in src/crab/wto.cpp). */
module WtoBuilder {
  import opened AsmSyntax
  import opened ControlFlowGraph
  import opened LoopCounters
  import opened Wto
  import opened WtoLevels
  import opened WtoParts

  // ----- the state -----

  ghost predicate IsReached(cfg: Cfg, l: Label) {
    exists w :: ReachedBy(cfg, w, l)
  }

  /** The level that is being worked on, on top of those that wait. */
  ghost predicate Shape(
    cfg: Cfg, vs: Vertices, stack: seq<Label>, tasks: seq<Task>, parts: map<Key, seq<Component>>, o: Outer, l: Level)
  {
    && vs.marks.Keys == cfg.neighbours.Keys
    && stack == StackBelow(o) + l.stack && tasks == TasksBelow(o) + l.work
    && l.scope == ScopeOf(o, cfg.neighbours.Keys) && l.key == KeyOf(o) && l.roots == RootsOf(cfg, o)
    && l.key in parts
  }

  /** Only what the entry leads to is visited. */
  ghost predicate ReachedOk(cfg: Cfg, vs: Vertices, tasks: seq<Task>) {
    && (forall x :: x in vs.marks && !vs.IsNew(x) ==> IsReached(cfg, x))
    && (forall t :: t in tasks ==> IsReached(cfg, t.vertex))
  }

  /** Everything the builder knows, and how its stacks are to be read. */
  datatype State = State(
    vs: Vertices, stack: seq<Label>, tasks: seq<Task>, parts: map<Key, seq<Component>>, outer: Outer, level: Level)

  ghost predicate StateOk(cfg: Cfg, s: State) {
    match s
    case State(vs, stack, tasks, parts, o, l) =>
      && cfg.Valid() && Shape(cfg, vs, stack, tasks, parts, o, l) && ReachedOk(cfg, vs, tasks)
      && LevelOk(cfg, l, vs) && PartOk(cfg, parts[l.key], l.scope, vs, {})
      && OuterOk(cfg, o, vs, parts, cfg.neighbours.Keys)
  }

  lemma SuccessorReached(cfg: Cfg, x: Label, y: Label)
    requires cfg.Valid() && IsReached(cfg, x) && cfg.Edge(x, y)
    ensures IsReached(cfg, y)
  {
    var w :| ReachedBy(cfg, w, x);
    var q := w + [y];
    ChildrenKnown(cfg, x);
    forall i | 0 <= i < |q| - 1 ensures cfg.Edge(q[i], q[i + 1]) {
      assert i < |w| - 1 ==> q[i] == w[i] && q[i + 1] == w[i + 1];
    }
    assert ReachedBy(cfg, q, y);
  }

  lemma EntryReached(cfg: Cfg)
    requires cfg.Valid()
    ensures IsReached(cfg, ENTRY)
  {
    assert ReachedBy(cfg, [ENTRY], ENTRY);
  }

  /** The top task belongs to the level, unless it ends the cycle. */
  lemma TopTask(cfg: Cfg, l: Level, vs: Vertices, o: Outer, tasks: seq<Task>)
    requires tasks == TasksBelow(o) + l.work && tasks != [] && WorkOk(cfg, l, vs)
    ensures var t := tasks[|tasks| - 1];
            if t.ContinueVisit? then
              && l.work == [] && o.Suspended? && t == ContinueVisit(o.head, o.level.key)
              && tasks[..|tasks| - 1] == TasksBelow(o.outer) + o.level.work
            else
              && l.work != [] && l.work[|l.work| - 1] == t && t.partition == l.key
              && tasks[..|tasks| - 1] == TasksBelow(o) + l.work[..|l.work| - 1]
  {
    if l.work != [] {
      assert tasks[|tasks| - 1] == l.work[|l.work| - 1];
    } else {
      assert o.Suspended?;
      assert tasks[|tasks| - 1] == ContinueVisit(o.head, o.level.key);
    }
  }

  /** What surrounds the level. */
  ghost predicate AroundOk(cfg: Cfg, vs: Vertices, parts: map<Key, seq<Component>>, o: Outer, l: Level) {
    && l.key in parts && l.scope == ScopeOf(o, cfg.neighbours.Keys) && l.key == KeyOf(o)
    && PartOk(cfg, parts[l.key], l.scope, vs, {}) && OuterOk(cfg, o, vs, parts, cfg.neighbours.Keys)
  }

  /** Nothing is done meanwhile, and only labels of a level have changed. */
  ghost predicate Confines(vs: Vertices, us: Vertices, scope: set<Label>) {
    && us.marks.Keys == vs.marks.Keys && vs.num <= us.num
    && (forall x :: x !in scope ==> us.Head(x) == vs.Head(x) && (x in vs.marks ==> us.marks[x] == vs.marks[x]))
    && (forall x :: us.IsDone(x) <==> vs.IsDone(x))
  }

  lemma AroundStays(
    cfg: Cfg, vs: Vertices, us: Vertices, parts: map<Key, seq<Component>>, o: Outer, l: Level, m: Level)
    requires AroundOk(cfg, vs, parts, o, l) && m.key == l.key && m.scope == l.scope && Confines(vs, us, l.scope)
    ensures AroundOk(cfg, us, parts, o, m)
  {
    assert OnlyInside(vs, us, parts, parts, l.scope, l.key);
    OuterStays(cfg, o, vs, us, parts, parts, cfg.neighbours.Keys);
  }

  lemma VisitedConfines(vs: Vertices, v: Label, scope: set<Label>)
    requires vs.IsNew(v) && v in scope
    ensures Confines(vs, Visited(vs, v), scope)
  {
  }

  lemma LeftConfines(vs: Vertices, v: Label, h: nat, scope: set<Label>)
    requires v in scope
    ensures Confines(vs, Left(vs, v, h), scope)
  {
  }

  // ----- the steps -----

  lemma Dropped(
    cfg: Cfg, vs: Vertices, stack: seq<Label>, tasks: seq<Task>, parts: map<Key, seq<Component>>, o: Outer, l: Level,
    t: Task)
    requires StateOk(cfg, State(vs, stack, tasks + [t], parts, o, l)) && t.PushSuccessors? && !vs.IsNew(t.vertex)
    ensures l.work != [] && StateOk(cfg, State(vs, stack, tasks, parts, o, AfterTop(l)))
  {
    TopTask(cfg, l, vs, o, tasks + [t]);
    assert (tasks + [t])[..|tasks|] == tasks;
    DropPush(cfg, l, vs);
    assert forall x :: x in tasks ==> x in tasks + [t];
  }

  lemma PushedReached(cfg: Cfg, vs: Vertices, us: Vertices, tasks: seq<Task>, t: Task, pushes: seq<Task>)
    requires cfg.Valid() && ReachedOk(cfg, vs, tasks + [t]) && us == Visited(vs, t.vertex) && vs.IsNew(t.vertex)
    requires PushesOf(cfg, us, t.vertex, t.partition, pushes)
    ensures ReachedOk(cfg, us, tasks + [StartVisit(t.vertex, t.partition)] + pushes)
  {
    assert t in tasks + [t];
    forall x | x in tasks + [StartVisit(t.vertex, t.partition)] + pushes ensures IsReached(cfg, x.vertex) {
      if x in pushes {
        SuccessorReached(cfg, t.vertex, x.vertex);
      } else if x in tasks {
        assert x in tasks + [t];
      }
    }
    forall x | x in us.marks && !us.IsNew(x) ensures IsReached(cfg, x) {
      assert x != t.vertex ==> (us.IsNew(x) <==> vs.IsNew(x));
    }
  }

  lemma ShapePushed(
    cfg: Cfg, vs: Vertices, stack: seq<Label>, tasks: seq<Task>, parts: map<Key, seq<Component>>, o: Outer, l: Level,
    v: Label, pushes: seq<Task>)
    requires Shape(cfg, vs, stack, tasks + [PushSuccessors(v, l.key)], parts, o, l) && v in vs.marks && l.work != []
    requires tasks == TasksBelow(o) + l.work[..|l.work| - 1]
    ensures Shape(cfg, Visited(vs, v), stack + [v], tasks + [StartVisit(v, l.key)] + pushes, parts, o,
              AfterPush(l, v, pushes))
  {
    var m := AfterPush(l, v, pushes);
    assert TasksBelow(o) + m.work == tasks + ([StartVisit(v, l.key)] + pushes);
    assert stack + [v] == StackBelow(o) + m.stack;
  }

  lemma Pushed(
    cfg: Cfg, vs: Vertices, stack: seq<Label>, tasks: seq<Task>, parts: map<Key, seq<Component>>, o: Outer, l: Level,
    t: Task, pushes: seq<Task>)
    requires StateOk(cfg, State(vs, stack, tasks + [t], parts, o, l)) && t.PushSuccessors? && vs.IsNew(t.vertex)
    requires PushesOf(cfg, Visited(vs, t.vertex), t.vertex, t.partition, pushes)
    ensures l.work != []
    ensures StateOk(cfg, State(Visited(vs, t.vertex), stack + [t.vertex],
              tasks + [StartVisit(t.vertex, t.partition)] + pushes, parts, o, AfterPush(l, t.vertex, pushes)))
  {
    var v, us := t.vertex, Visited(vs, t.vertex);
    TopTask(cfg, l, vs, o, tasks + [t]);
    assert (tasks + [t])[..|tasks|] == tasks;
    assert v in l.scope;
    ShapePushed(cfg, vs, stack, tasks, parts, o, l, v, pushes);
    PushNew(cfg, l, vs, pushes);
    PushedReached(cfg, vs, us, tasks, t, pushes);
    VisitedConfines(vs, v, l.scope);
    AroundStays(cfg, vs, us, parts, o, l, AfterPush(l, v, pushes));
  }

  lemma LeftTop(
    cfg: Cfg, vs: Vertices, stack: seq<Label>, tasks: seq<Task>, parts: map<Key, seq<Component>>, o: Outer, l: Level,
    t: Task, h: nat, loop: bool)
    requires StateOk(cfg, State(vs, stack, tasks + [t], parts, o, l)) && t.StartVisit?
    requires IsLow(cfg, vs, t.vertex, h, loop) && h < vs.Dfn(t.vertex)
    ensures l.work != [] && StateOk(cfg, State(Left(vs, t.vertex, h), stack, tasks, parts, o, AfterTop(l)))
  {
    var v, us := t.vertex, Left(vs, t.vertex, h);
    TopTask(cfg, l, vs, o, tasks + [t]);
    assert (tasks + [t])[..|tasks|] == tasks;
    LeaveTop(cfg, l, vs, v, h, loop);
    LeftReached(cfg, vs, us, tasks, t, h);
    LeftConfines(vs, v, h, l.scope);
    AroundStays(cfg, vs, us, parts, o, l, AfterTop(l));
  }

  lemma LeftReached(cfg: Cfg, vs: Vertices, us: Vertices, tasks: seq<Task>, t: Task, h: nat)
    requires ReachedOk(cfg, vs, tasks + [t]) && us == Left(vs, t.vertex, h)
    ensures ReachedOk(cfg, us, tasks)
  {
    assert forall x :: x in tasks ==> x in tasks + [t];
    assert forall x :: us.IsNew(x) <==> vs.IsNew(x);
  }

  lemma VertexVertices(l: Level, vs: Vertices, us: Vertices, v: Label, i: nat)
    requires i + 1 == |l.stack| && l.stack[i] == v && v in vs.marks
    requires us == Vertices(vs.marks[v := Infinite], vs.heads[v := vs.Dfn(v)], vs.num)
    ensures From(l, i) == {v} && us.marks == Finished(vs, From(l, i)).marks
    ensures forall x :: x != v ==> us.Head(x) == vs.Head(x) && (us.IsNew(x) <==> vs.IsNew(x))
    ensures forall x :: us.IsDone(x) <==> vs.IsDone(x) || x == v
  {
    assert From(l, i) == {v};
  }

  lemma VertexLeadsToDone(cfg: Cfg, l: Level, vs: Vertices, v: Label, i: nat)
    requires i + 1 == |l.stack| && l.stack[i] == v && l.Open(v) && HeadsOk(l, vs) && Sealed(cfg, l, vs, i)
    requires vs.IsNumbered(v) && IsLow(cfg, vs, v, vs.Dfn(v), false)
    ensures forall x :: cfg.Edge(v, x) ==> vs.IsDone(x)
  {
    assert From(l, i) == {v};
    assert v in From(l, i);
    assert !LowSuccessor(cfg, vs, v, v);
  }

  lemma ReachedStays(cfg: Cfg, vs: Vertices, us: Vertices, tasks: seq<Task>, t: Task, now: seq<Task>)
    requires cfg.Valid() && ReachedOk(cfg, vs, tasks + [t]) && us.marks.Keys == vs.marks.Keys
    requires forall x :: vs.IsNew(x) ==> us.IsNew(x)
    requires forall s :: s in now ==> s in tasks || s.vertex == t.vertex || cfg.Edge(t.vertex, s.vertex)
    ensures ReachedOk(cfg, us, now)
  {
    assert t in tasks + [t];
    forall s | s in now ensures IsReached(cfg, s.vertex) {
      if s in tasks {
        assert s in tasks + [t];
      } else if s.vertex != t.vertex {
        SuccessorReached(cfg, t.vertex, s.vertex);
      }
    }
  }

  /** The level when its top label is done. */
  lemma VertexPopped(cfg: Cfg, vs: Vertices, us: Vertices, l: Level, v: Label, i: nat)
    requires LevelOk(cfg, l, vs) && TopIs(l, v) && i < |l.stack| && l.stack[i] == v
    requires IsLow(cfg, vs, v, vs.Dfn(v), false)
    requires us == Vertices(vs.marks[v := Infinite], vs.heads[v := vs.Dfn(v)], vs.num)
    ensures i + 1 == |l.stack| && Sealed(cfg, l, vs, i) && LevelOk(cfg, AfterPop(l, i), us)
    ensures us.marks.Keys == vs.marks.Keys && forall x :: vs.IsNew(x) ==> us.IsNew(x)
  {
    TopAlone(cfg, l, vs, v, i);
    PopTop(cfg, l, vs, v, i, false);
    assert vs.IsNumbered(v);
    VertexVertices(l, vs, us, v, i);
    VertexLevel(cfg, l, vs, us, v, i);
  }

  /** A vertex that is no loop comes in front of its partition. */
  lemma VertexDone(
    cfg: Cfg, vs: Vertices, us: Vertices, stack: seq<Label>, tasks: seq<Task>, parts: map<Key, seq<Component>>,
    o: Outer, l: Level, t: Task, i: nat)
    requires StateOk(cfg, State(vs, stack, tasks + [t], parts, o, l)) && t.StartVisit?
    requires i < |l.stack| && l.stack[i] == t.vertex && IsLow(cfg, vs, t.vertex, vs.Dfn(t.vertex), false)
    requires us == Vertices(vs.marks[t.vertex := Infinite], vs.heads[t.vertex := vs.Dfn(t.vertex)], vs.num)
    ensures l.work != [] && stack != [] && stack[|stack| - 1] == t.vertex && t.partition == l.key && l.key in parts
    ensures var qs := parts[l.key := [Vertex(t.vertex)] + parts[l.key]];
            && Shape(cfg, us, stack[..|stack| - 1], tasks, qs, o, AfterPop(l, i)) && ReachedOk(cfg, us, tasks)
            && LevelOk(cfg, AfterPop(l, i), us) && AroundOk(cfg, us, qs, o, AfterPop(l, i))
  {
    var v := t.vertex;
    TopTask(cfg, l, vs, o, tasks + [t]);
    assert (tasks + [t])[..|tasks|] == tasks;
    VertexPopped(cfg, vs, us, l, v, i);
    ReachedStays(cfg, vs, us, tasks, t, tasks);
    AroundVertex(cfg, vs, us, parts, o, l, v, i);
    ShapeVertex(cfg, vs, us, stack, tasks, parts, o, l, t, i, parts[l.key := [Vertex(v)] + parts[l.key]]);
  }

  lemma Assemble(
    cfg: Cfg, vs: Vertices, stack: seq<Label>, tasks: seq<Task>, parts: map<Key, seq<Component>>, o: Outer, l: Level)
    requires cfg.Valid() && Shape(cfg, vs, stack, tasks, parts, o, l) && ReachedOk(cfg, vs, tasks)
    requires LevelOk(cfg, l, vs) && AroundOk(cfg, vs, parts, o, l)
    ensures StateOk(cfg, State(vs, stack, tasks, parts, o, l))
  {
  }

  lemma ShapeVertex(
    cfg: Cfg, vs: Vertices, us: Vertices, stack: seq<Label>, tasks: seq<Task>, parts: map<Key, seq<Component>>,
    o: Outer, l: Level, t: Task, i: nat, qs: map<Key, seq<Component>>)
    requires Shape(cfg, vs, stack, tasks + [t], parts, o, l) && l.work != [] && parts.Keys <= qs.Keys
    requires tasks == TasksBelow(o) + l.work[..|l.work| - 1] && i + 1 == |l.stack|
    requires us.marks.Keys == vs.marks.Keys
    ensures stack != [] && stack[|stack| - 1] == l.stack[i]
    ensures Shape(cfg, us, stack[..|stack| - 1], tasks, qs, o, AfterPop(l, i))
  {
    assert stack[..|stack| - 1] == StackBelow(o) + l.stack[..i];
  }

  lemma VertexLevel(cfg: Cfg, l: Level, vs: Vertices, us: Vertices, v: Label, i: nat)
    requires l.work != [] && i + 1 == |l.stack| && l.stack[i] == v
    requires Sorted(l, vs) && LevelOk(cfg, AfterPop(l, i), Finished(vs, From(l, i)))
    requires us.marks == Finished(vs, From(l, i)).marks && us.num == vs.num
    requires forall x :: x != v ==> us.Head(x) == vs.Head(x)
    ensures LevelOk(cfg, AfterPop(l, i), us)
  {
    forall x | x in AfterPop(l, i).stack || Finished(vs, From(l, i)).IsNew(x) ensures x != v {
      LowerPart(l, vs, i, x);
      assert v in From(l, i);
    }
    LevelStays(cfg, AfterPop(l, i), Finished(vs, From(l, i)), us);
  }

  lemma AroundVertex(
    cfg: Cfg, vs: Vertices, us: Vertices, parts: map<Key, seq<Component>>, o: Outer, l: Level, v: Label, i: nat)
    requires AroundOk(cfg, vs, parts, o, l) && LevelOk(cfg, l, vs) && TopIs(l, v) && i + 1 == |l.stack|
    requires l.stack[i] == v && Sealed(cfg, l, vs, i) && IsLow(cfg, vs, v, vs.Dfn(v), false)
    requires us == Vertices(vs.marks[v := Infinite], vs.heads[v := vs.Dfn(v)], vs.num)
    ensures AroundOk(cfg, us, parts[l.key := [Vertex(v)] + parts[l.key]], o, AfterPop(l, i))
  {
    var cs := parts[l.key];
    var qs := parts[l.key := [Vertex(v)] + cs];
    AboveTop(cfg, l, vs, v, i);
    assert vs.IsNumbered(v) && v in l.scope;
    VertexLeadsToDone(cfg, l, vs, v, i);
    PutVertex(cfg, cs, l.scope, vs, v);
    VertexVertices(l, vs, us, v, i);
    PartAside(cfg, [Vertex(v)] + cs, l.scope, Finished(vs, {v}), us, {});
    assert OnlyInside(vs, us, parts, qs, l.scope, l.key);
    OuterStays(cfg, o, vs, us, parts, qs, cfg.neighbours.Keys);
  }

  lemma CycleMarks(l: Level, vs: Vertices, us: Vertices, v: Label, i: nat)
    requires i < |l.stack| && l.stack[i] == v && Sorted(l, vs) && Restarts(vs, us, v, From(l, i + 1)) && v in vs.marks
    requires forall x :: x in l.stack ==> vs.IsNumbered(x)
    ensures From(l, i) == From(l, i + 1) + {v} && v !in From(l, i + 1)
    ensures Finished(us, From(l, i)).marks == Finished(vs, From(l, i)).marks
    ensures forall x :: x !in From(l, i) ==> (us.IsDone(x) <==> vs.IsDone(x)) && us.Head(x) == vs.Head(x)
    ensures forall x :: vs.IsDone(x) ==> us.IsDone(x)
    ensures us.IsDone(v) && forall x :: x in From(l, i + 1) ==> us.IsNew(x)
  {
    FromSplits(l, i);
    NotAboveItself(l, vs, i);
  }

  /** What a cycle at the top of the stack is. */
  lemma TopCycle(cfg: Cfg, vs: Vertices, us: Vertices, l: Level, v: Label, i: nat)
    requires LevelOk(cfg, l, vs) && TopIs(l, v) && i < |l.stack| && l.stack[i] == v
    requires IsLow(cfg, vs, v, vs.Dfn(v), true) && Restarts(vs, us, v, From(l, i + 1))
    ensures v in l.scope && v in vs.marks && !vs.IsNew(v) && From(l, i + 1) <= l.scope && v !in From(l, i + 1)
    ensures From(l, i) == From(l, i + 1) + {v} && (forall x :: x in From(l, i) ==> !vs.IsDone(x))
    ensures us.IsDone(v) && (forall x :: x !in From(l, i) ==> (us.IsDone(x) <==> vs.IsDone(x)))
    ensures forall x :: x in From(l, i + 1) ==> us.IsNew(x)
    ensures LevelOk(cfg, AfterPop(l, i), Finished(us, From(l, i)))
    ensures CycleFound(cfg, vs, v, From(l, i + 1)) && CycleFound(cfg, us, v, From(l, i + 1))
  {
    assert forall x :: x in l.stack ==> vs.IsNumbered(x) && x in l.scope;
    assert v in l.stack;
    CycleMarks(l, vs, us, v, i);
    PopTop(cfg, l, vs, v, i, true);
    WaitingLevel(cfg, l, vs, us, v, i);
    CycleIsFound(cfg, l, vs, v, i);
    FoundStays(cfg, vs, us, v, From(l, i + 1));
    assert forall x :: x in From(l, i) ==> x in l.stack;
  }

  lemma FoundStays(cfg: Cfg, vs: Vertices, us: Vertices, v: Label, inner: set<Label>)
    requires CycleFound(cfg, vs, v, inner) && forall x :: vs.IsDone(x) ==> us.IsDone(x)
    ensures CycleFound(cfg, us, v, inner)
  {
  }

  /** The level that waits for the cycle. */
  lemma CycleWaits(
    cfg: Cfg, vs: Vertices, us: Vertices, parts: map<Key, seq<Component>>, qs: map<Key, seq<Component>>, o: Outer,
    l: Level, v: Label, i: nat)
    requires AroundOk(cfg, vs, parts, o, l) && l.work != [] && i < |l.stack| && l.roots == RootsOf(cfg, o)
    requires v in l.scope && From(l, i + 1) <= l.scope && v !in From(l, i + 1) && l.key != Some(v)
    requires From(l, i) == From(l, i + 1) + {v} && (forall x :: x in From(l, i) ==> !vs.IsDone(x))
    requires us.IsDone(v) && (forall x :: x !in From(l, i) ==> (us.IsDone(x) <==> vs.IsDone(x)))
    requires LevelOk(cfg, AfterPop(l, i), Finished(us, From(l, i))) && CycleFound(cfg, us, v, From(l, i + 1))
    requires qs == parts[Some(v) := []]
    ensures WaitOk(cfg, o, AfterPop(l, i), v, From(l, i + 1), us, qs, cfg.neighbours.Keys)
  {
    PartAside(cfg, parts[l.key], l.scope, vs, us, From(l, i));
  }

  lemma WaitingLevel(cfg: Cfg, l: Level, vs: Vertices, us: Vertices, v: Label, i: nat)
    requires l.work != [] && i < |l.stack| && l.stack[i] == v && Sorted(l, vs)
    requires LevelOk(cfg, AfterPop(l, i), Finished(vs, From(l, i)))
    requires Finished(us, From(l, i)).marks == Finished(vs, From(l, i)).marks && us.num == vs.num
    requires forall x :: x !in From(l, i) ==> us.Head(x) == vs.Head(x)
    ensures LevelOk(cfg, AfterPop(l, i), Finished(us, From(l, i)))
  {
    var d, m := From(l, i), AfterPop(l, i);
    forall x | x in m.stack || Finished(vs, d).IsNew(x) ensures x !in d {
      LowerPart(l, vs, i, x);
    }
    LevelStays(cfg, m, Finished(vs, d), Finished(us, d));
  }

  lemma CycleAround(
    cfg: Cfg, vs: Vertices, us: Vertices, parts: map<Key, seq<Component>>, qs: map<Key, seq<Component>>, o: Outer,
    l: Level, v: Label, inner: set<Label>)
    requires AroundOk(cfg, vs, parts, o, l) && v in l.scope && inner <= l.scope && v in vs.marks
    requires Restarts(vs, us, v, inner) && qs == parts[Some(v) := []]
    ensures OuterOk(cfg, o, us, qs, cfg.neighbours.Keys)
  {
    assert OnlyInside(vs, us, parts, qs, l.scope, l.key);
    OuterStays(cfg, o, vs, us, parts, qs, cfg.neighbours.Keys);
  }

  lemma InnerAround(
    cfg: Cfg, us: Vertices, qs: map<Key, seq<Component>>, o: Outer, waiting: Level, v: Label, inner: set<Label>,
    pushes: seq<Task>)
    requires WaitOk(cfg, o, waiting, v, inner, us, qs, cfg.neighbours.Keys)
    requires OuterOk(cfg, o, us, qs, cfg.neighbours.Keys)
    requires Some(v) in qs && qs[Some(v)] == [] && forall x :: x in inner ==> !us.IsDone(x)
    ensures AroundOk(cfg, us, qs, Suspended(o, waiting, v, inner), InnerLevel(cfg, v, inner, pushes))
  {
    EmptyPart(cfg, inner, us);
  }

  lemma EmptyPart(cfg: Cfg, inner: set<Label>, us: Vertices)
    requires forall x :: x in inner ==> !us.IsDone(x)
    ensures PartOk(cfg, [], inner, us, {})
  {
  }

  /** What surrounds the search inside the cycle. */
  lemma CycleSurrounded(
    cfg: Cfg, vs: Vertices, us: Vertices, parts: map<Key, seq<Component>>, o: Outer, l: Level, v: Label, i: nat,
    pushes: seq<Task>)
    requires AroundOk(cfg, vs, parts, o, l) && LevelOk(cfg, l, vs) && TopIs(l, v)
    requires i < |l.stack| && l.stack[i] == v && l.roots == RootsOf(cfg, o)
    requires IsLow(cfg, vs, v, vs.Dfn(v), true) && Restarts(vs, us, v, From(l, i + 1))
    ensures var inner := From(l, i + 1);
            AroundOk(cfg, us, parts[Some(v) := []], Suspended(o, AfterPop(l, i), v, inner),
              InnerLevel(cfg, v, inner, pushes))
  {
    var inner, qs := From(l, i + 1), parts[Some(v) := []];
    TopCycle(cfg, vs, us, l, v, i);
    CycleWaits(cfg, vs, us, parts, qs, o, l, v, i);
    CycleAround(cfg, vs, us, parts, qs, o, l, v, inner);
    InnerAround(cfg, us, qs, o, AfterPop(l, i), v, inner, pushes);
  }

  /** And the search itself. */
  lemma CycleSearched(
    cfg: Cfg, vs: Vertices, us: Vertices, l: Level, v: Label, i: nat, pushes: seq<Task>)
    requires LevelOk(cfg, l, vs) && TopIs(l, v) && i < |l.stack| && l.stack[i] == v
    requires IsLow(cfg, vs, v, vs.Dfn(v), true) && Restarts(vs, us, v, From(l, i + 1))
    requires PushesOf(cfg, us, v, Some(v), pushes)
    ensures LevelOk(cfg, InnerLevel(cfg, v, From(l, i + 1), pushes), us) && v in vs.marks && !vs.IsNew(v)
  {
    TopCycle(cfg, vs, us, l, v, i);
    CycleInner(cfg, vs, us, l, v, i, pushes);
  }

  lemma CycleInner(cfg: Cfg, vs: Vertices, us: Vertices, l: Level, v: Label, i: nat, pushes: seq<Task>)
    requires MarksOk(cfg, l, vs) && i < |l.stack| && l.stack[i] == v && v in vs.marks
    requires CycleFound(cfg, vs, v, From(l, i + 1)) && Restarts(vs, us, v, From(l, i + 1))
    requires PushesOf(cfg, us, v, Some(v), pushes)
    ensures LevelOk(cfg, InnerLevel(cfg, v, From(l, i + 1), pushes), us)
  {
    forall x | x in From(l, i + 1) ensures x in cfg.neighbours && x in vs.marks {
      assert x in l.stack;
    }
    InnerBegins(cfg, vs, us, v, From(l, i + 1), pushes);
  }

  lemma ShapeCycle(
    cfg: Cfg, vs: Vertices, us: Vertices, stack: seq<Label>, tasks: seq<Task>, parts: map<Key, seq<Component>>,
    o: Outer, l: Level, t: Task, i: nat, pushes: seq<Task>)
    requires Shape(cfg, vs, stack, tasks + [t], parts, o, l) && l.work != [] && t.partition == l.key
    requires tasks == TasksBelow(o) + l.work[..|l.work| - 1] && i < |l.stack| && l.stack[i] == t.vertex
    requires us.marks.Keys == vs.marks.Keys
    ensures var inner := From(l, i + 1);
            Shape(cfg, us, StackBelow(o) + l.stack[..i], tasks + [ContinueVisit(t.vertex, t.partition)] + pushes,
              parts[Some(t.vertex) := []], Suspended(o, AfterPop(l, i), t.vertex, inner),
              InnerLevel(cfg, t.vertex, inner, pushes))
  {
    var inner := From(l, i + 1);
    assert TasksBelow(Suspended(o, AfterPop(l, i), t.vertex, inner)) == tasks + [ContinueVisit(t.vertex, t.partition)];
  }

  lemma CycleReachedOk(
    cfg: Cfg, vs: Vertices, us: Vertices, tasks: seq<Task>, t: Task, inner: set<Label>, pushes: seq<Task>)
    requires cfg.Valid() && ReachedOk(cfg, vs, tasks + [t]) && Restarts(vs, us, t.vertex, inner)
    requires t.vertex in vs.marks && !vs.IsNew(t.vertex) && PushesOf(cfg, us, t.vertex, Some(t.vertex), pushes)
    ensures ReachedOk(cfg, us, tasks + [ContinueVisit(t.vertex, t.partition)] + pushes)
  {
    ReachedStays(cfg, vs, us, tasks, t, tasks + [ContinueVisit(t.vertex, t.partition)] + pushes);
  }

  /** A cycle is taken off the stack, and the search goes on inside it. */
  lemma CycleStarted(
    cfg: Cfg, vs: Vertices, us: Vertices, stack: seq<Label>, tasks: seq<Task>, parts: map<Key, seq<Component>>,
    o: Outer, l: Level, t: Task, i: nat, pushes: seq<Task>)
    requires StateOk(cfg, State(vs, stack, tasks + [t], parts, o, l)) && t.StartVisit?
    requires i < |l.stack| && l.stack[i] == t.vertex && IsLow(cfg, vs, t.vertex, vs.Dfn(t.vertex), true)
    requires Restarts(vs, us, t.vertex, From(l, i + 1)) && PushesOf(cfg, us, t.vertex, Some(t.vertex), pushes)
    ensures l.work != [] && t.partition == l.key
    ensures var v, inner := t.vertex, From(l, i + 1);
            && LevelOk(cfg, InnerLevel(cfg, v, inner, pushes), us)
            && AroundOk(cfg, us, parts[Some(v) := []], Suspended(o, AfterPop(l, i), v, inner),
                        InnerLevel(cfg, v, inner, pushes))
  {
    TopTask(cfg, l, vs, o, tasks + [t]);
    CycleSearched(cfg, vs, us, l, t.vertex, i, pushes);
    CycleSurrounded(cfg, vs, us, parts, o, l, t.vertex, i, pushes);
  }

  lemma CycleShaped(
    cfg: Cfg, vs: Vertices, us: Vertices, stack: seq<Label>, tasks: seq<Task>, parts: map<Key, seq<Component>>,
    o: Outer, l: Level, t: Task, i: nat, pushes: seq<Task>)
    requires cfg.Valid() && Shape(cfg, vs, stack, tasks + [t], parts, o, l) && ReachedOk(cfg, vs, tasks + [t])
    requires MarksOk(cfg, l, vs) && WorkOk(cfg, l, vs) && t.StartVisit? && i < |l.stack| && l.stack[i] == t.vertex
    requires Restarts(vs, us, t.vertex, From(l, i + 1)) && PushesOf(cfg, us, t.vertex, Some(t.vertex), pushes)
    ensures l.work != []
    ensures var v, inner := t.vertex, From(l, i + 1);
            var now := tasks + [ContinueVisit(v, t.partition)] + pushes;
            && ReachedOk(cfg, us, now)
            && Shape(cfg, us, StackBelow(o) + l.stack[..i], now, parts[Some(v) := []],
                     Suspended(o, AfterPop(l, i), v, inner), InnerLevel(cfg, v, inner, pushes))
  {
    TopTask(cfg, l, vs, o, tasks + [t]);
    assert (tasks + [t])[..|tasks|] == tasks;
    assert vs.IsNumbered(t.vertex);
    CycleReachedOk(cfg, vs, us, tasks, t, From(l, i + 1), pushes);
    ShapeCycle(cfg, vs, us, stack, tasks, parts, o, l, t, i, pushes);
  }

  /** The cycle is complete: everything in it is done. */
  lemma InnerIsDone(cfg: Cfg, vs: Vertices, l: Level, h: Label, inner: set<Label>, body: seq<Component>)
    requires LevelOk(cfg, l, vs) && l.work == [] && l.scope == inner && vs.IsDone(h)
    requires CycleFound(cfg, vs, h, inner) && PartOk(cfg, body, inner, vs, {})
    requires forall x :: x in inner && cfg.Edge(h, x) ==> x in l.roots
    ensures l.stack == [] && forall x :: x in inner ==> vs.IsDone(x)
  {
    LevelEnds(cfg, l, vs);
    forall u, y | u in inner + {h} && vs.IsDone(u) && cfg.Edge(u, y) && y in inner + {h} ensures vs.IsDone(y) {
      assert u in inner ==> u in AllLabels(body);
    }
    forall x | x in inner ensures vs.IsDone(x) {
      CycleIsDone(cfg, h, inner + {h}, vs, x);
    }
  }

  /** A complete cycle comes in front of its partition, and the level that waited goes on. */
  lemma CycleEnded(
    cfg: Cfg, vs: Vertices, stack: seq<Label>, tasks: seq<Task>, parts: map<Key, seq<Component>>, o: Outer, l: Level,
    t: Task)
    requires StateOk(cfg, State(vs, stack, tasks + [t], parts, o, l)) && t.ContinueVisit?
    ensures o.Suspended? && t.partition in parts && Some(t.vertex) in parts
    ensures var qs := parts[t.partition := [Cycle([Vertex(t.vertex)] + parts[Some(t.vertex)])] + parts[t.partition]];
            && Shape(cfg, vs, stack, tasks, qs, o.outer, o.level) && ReachedOk(cfg, vs, tasks)
            && LevelOk(cfg, o.level, vs) && AroundOk(cfg, vs, qs, o.outer, o.level)
  {
    TopTask(cfg, l, vs, o, tasks + [t]);
    assert (tasks + [t])[..|tasks|] == tasks;
    EndedLevel(cfg, vs, parts, o, l);
    EndedAround(cfg, vs, parts, o, l);
    ReachedStays(cfg, vs, vs, tasks, t, tasks);
    assert stack == StackBelow(o.outer) + o.level.stack;
  }

  lemma EndedLevel(cfg: Cfg, vs: Vertices, parts: map<Key, seq<Component>>, o: Outer, l: Level)
    requires o.Suspended? && AroundOk(cfg, vs, parts, o, l) && LevelOk(cfg, l, vs) && l.work == []
    requires l.roots == RootsOf(cfg, o)
    ensures l.stack == [] && (forall x :: x in o.inner + {o.head} ==> vs.IsDone(x)) && LevelOk(cfg, o.level, vs)
  {
    InnerIsDone(cfg, vs, l, o.head, o.inner, parts[l.key]);
    assert Finished(vs, o.inner + {o.head}) == vs;
  }

  lemma EndedAround(cfg: Cfg, vs: Vertices, parts: map<Key, seq<Component>>, o: Outer, l: Level)
    requires cfg.Valid() && o.Suspended? && AroundOk(cfg, vs, parts, o, l)
    requires forall x :: x in o.inner + {o.head} ==> vs.IsDone(x)
    ensures Some(o.head) in parts && o.level.key in parts
    ensures AroundOk(cfg, vs,
              parts[o.level.key := [Cycle([Vertex(o.head)] + parts[Some(o.head)])] + parts[o.level.key]],
              o.outer, o.level)
  {
    var m, body := o.level, parts[Some(o.head)];
    var qs := parts[m.key := [Cycle([Vertex(o.head)] + body)] + parts[m.key]];
    assert m.scope <= cfg.neighbours.Keys;
    PutCycle(cfg, parts[m.key], m.scope, vs, o.head, o.inner, body);
    assert OnlyInside(vs, vs, parts, qs, m.scope, m.key);
    OuterStays(cfg, o.outer, vs, vs, parts, qs, cfg.neighbours.Keys);
  }

  /** When nothing is left to do, the partition is the order. */
  lemma BuiltIsValid(cfg: Cfg, vs: Vertices, stack: seq<Label>, parts: map<Key, seq<Component>>, o: Outer, l: Level)
    requires StateOk(cfg, State(vs, stack, [], parts, o, l))
    ensures None in parts && ValidWto(cfg, parts[None]) && Genuine(cfg, parts[None])
    ensures forall x :: x in AllLabels(parts[None]) <==> IsReached(cfg, x)
  {
    assert o.Outermost? && l.work == [];
    LevelEnds(cfg, l, vs);
    var cs := parts[None];
    assert ENTRY in l.roots && vs.IsDone(ENTRY) && ENTRY in AllLabels(cs);
    forall u, x | u in AllLabels(cs) && cfg.Edge(u, x) ensures x in AllLabels(cs) {
      ChildrenKnown(cfg, u);
    }
    forall x | IsReached(cfg, x) ensures x in AllLabels(cs) {
      var w :| ReachedBy(cfg, w, x);
      WalkStaysIn(cfg, w, AllLabels(cs), |w| - 1);
    }
  }

  lemma {:induction false} WalkStaysIn(cfg: Cfg, w: seq<Label>, within: set<Label>, k: nat)
    requires IsWalk(cfg, w) && k < |w| && w[0] in within
    requires forall u, x :: u in within && cfg.Edge(u, x) ==> x in within
    ensures w[k] in within
  {
    if k > 0 {
      WalkStaysIn(cfg, w, within, k - 1);
      assert cfg.Edge(w[k - 1], w[k - 1 + 1]);
    }
  }

  // ----- the steps, whatever the levels are -----

  /** The stacks can be read as levels. */
  ghost predicate Readable(
    cfg: Cfg, vs: Vertices, stack: seq<Label>, tasks: seq<Task>, parts: map<Key, seq<Component>>)
  {
    exists o, l :: StateOk(cfg, State(vs, stack, tasks, parts, o, l))
  }

  lemma StepDropped(
    cfg: Cfg, vs: Vertices, stack: seq<Label>, tasks: seq<Task>, parts: map<Key, seq<Component>>, t: Task)
    requires Readable(cfg, vs, stack, tasks + [t], parts) && t.PushSuccessors? && !vs.IsNew(t.vertex)
    ensures Readable(cfg, vs, stack, tasks, parts)
  {
    var o, l :| StateOk(cfg, State(vs, stack, tasks + [t], parts, o, l));
    Dropped(cfg, vs, stack, tasks, parts, o, l, t);
  }

  lemma StepPushed(
    cfg: Cfg, vs: Vertices, stack: seq<Label>, tasks: seq<Task>, parts: map<Key, seq<Component>>, t: Task,
    pushes: seq<Task>)
    requires Readable(cfg, vs, stack, tasks + [t], parts) && t.PushSuccessors? && vs.IsNew(t.vertex)
    requires PushesOf(cfg, Visited(vs, t.vertex), t.vertex, t.partition, pushes)
    ensures Readable(cfg, Visited(vs, t.vertex), stack + [t.vertex],
              tasks + [StartVisit(t.vertex, t.partition)] + pushes, parts)
  {
    var o, l :| StateOk(cfg, State(vs, stack, tasks + [t], parts, o, l));
    Pushed(cfg, vs, stack, tasks, parts, o, l, t, pushes);
  }

  lemma StepLeft(
    cfg: Cfg, vs: Vertices, stack: seq<Label>, tasks: seq<Task>, parts: map<Key, seq<Component>>, t: Task, h: nat,
    loop: bool)
    requires Readable(cfg, vs, stack, tasks + [t], parts) && t.StartVisit?
    requires IsLow(cfg, vs, t.vertex, h, loop) && h < vs.Dfn(t.vertex)
    ensures Readable(cfg, Left(vs, t.vertex, h), stack, tasks, parts)
  {
    var o, l :| StateOk(cfg, State(vs, stack, tasks + [t], parts, o, l));
    LeftTop(cfg, vs, stack, tasks, parts, o, l, t, h, loop);
  }

  lemma TopLabel(cfg: Cfg, vs: Vertices, l: Level, o: Outer, tasks: seq<Task>, t: Task) returns (i: nat)
    requires LevelOk(cfg, l, vs) && tasks + [t] == TasksBelow(o) + l.work && t.StartVisit?
    ensures i < |l.stack| && l.stack[i] == t.vertex && TopIs(l, t.vertex)
  {
    TopTask(cfg, l, vs, o, tasks + [t]);
    i :| 0 <= i < |l.stack| && l.stack[i] == t.vertex;
  }

  lemma StepVertex(
    cfg: Cfg, vs: Vertices, us: Vertices, stack: seq<Label>, tasks: seq<Task>, parts: map<Key, seq<Component>>, t: Task)
    requires Readable(cfg, vs, stack, tasks + [t], parts) && t.StartVisit?
    requires IsLow(cfg, vs, t.vertex, vs.Dfn(t.vertex), false)
    requires us == Vertices(vs.marks[t.vertex := Infinite], vs.heads[t.vertex := vs.Dfn(t.vertex)], vs.num)
    ensures stack != [] && t.partition in parts
    ensures Readable(cfg, us, stack[..|stack| - 1], tasks,
              parts[t.partition := [Vertex(t.vertex)] + parts[t.partition]])
  {
    var o, l :| StateOk(cfg, State(vs, stack, tasks + [t], parts, o, l));
    var i := TopLabel(cfg, vs, l, o, tasks, t);
    VertexDone(cfg, vs, us, stack, tasks, parts, o, l, t, i);
    Assemble(cfg, us, stack[..|stack| - 1], tasks, parts[l.key := [Vertex(t.vertex)] + parts[l.key]], o,
      AfterPop(l, i));
  }

  /** Where the cycle of the top label begins on the stack. */
  ghost predicate IsTopCycle(cfg: Cfg, vs: Vertices, stack: seq<Label>, v: Label, k: nat) {
    && k < |stack| && stack[k] == v && v in vs.marks
    && (forall g :: k < g < |stack| ==> stack[g] != v && stack[g] in vs.marks)
  }

  /** The labels above a position of the stack. */
  function Above(stack: seq<Label>, k: nat): set<Label> {
    set g | k < g < |stack| :: stack[g]
  }

  lemma CycleOnStack(
    cfg: Cfg, vs: Vertices, stack: seq<Label>, tasks: seq<Task>, t: Task, o: Outer, l: Level) returns (i: nat)
    requires LevelOk(cfg, l, vs) && t.StartVisit?
    requires stack == StackBelow(o) + l.stack && tasks + [t] == TasksBelow(o) + l.work
    ensures i < |l.stack| && l.stack[i] == t.vertex && TopIs(l, t.vertex)
    ensures var k := |StackBelow(o)| + i;
            && IsTopCycle(cfg, vs, stack, t.vertex, k) && Above(stack, k) == From(l, i + 1)
            && stack[..k] == StackBelow(o) + l.stack[..i]
  {
    i := TopLabel(cfg, vs, l, o, tasks, t);
    OnStack(cfg, vs, stack, StackBelow(o), l, i);
  }

  lemma OnStack(cfg: Cfg, vs: Vertices, stack: seq<Label>, below: seq<Label>, l: Level, i: nat)
    requires stack == below + l.stack && i < |l.stack| && Sorted(l, vs) && MarksOk(cfg, l, vs)
    ensures var k := |below| + i;
            && IsTopCycle(cfg, vs, stack, l.stack[i], k) && Above(stack, k) == From(l, i + 1)
            && stack[..k] == below + l.stack[..i]
  {
    var k := |below| + i;
    forall g: nat | k < g < |stack|
      ensures stack[g] == l.stack[g - |below|] && stack[g] != l.stack[i] && stack[g] in vs.marks
    {
      DfnDistinct(l, vs, i, g - |below|);
      assert l.stack[g - |below|] in l.stack;
    }
    SameAbove(stack, below, l, i);
    assert l.stack[i] in l.stack;
  }

  lemma SameAbove(stack: seq<Label>, below: seq<Label>, l: Level, i: nat)
    requires stack == below + l.stack && i < |l.stack|
    ensures Above(stack, |below| + i) == From(l, i + 1) && stack[..|below| + i] == below + l.stack[..i]
  {
    var k := |below| + i;
    forall x ensures x in Above(stack, k) <==> x in From(l, i + 1) {
      if x in Above(stack, k) {
        var g :| k < g < |stack| && stack[g] == x;
        assert l.stack[g - |below|] == x;
      }
      if x in From(l, i + 1) {
        var g :| i + 1 <= g < |l.stack| && l.stack[g] == x;
        assert stack[g + |below|] == x;
      }
    }
  }

  lemma OnStackAt(cfg: Cfg, vs: Vertices, stack: seq<Label>, below: seq<Label>, l: Level, i: nat, k: nat)
    requires stack == below + l.stack && i < |l.stack| && Sorted(l, vs) && MarksOk(cfg, l, vs)
    requires IsTopCycle(cfg, vs, stack, l.stack[i], k)
    ensures Above(stack, k) == From(l, i + 1) && stack[..k] == below + l.stack[..i]
  {
    OnStack(cfg, vs, stack, below, l, i);
    var g := |below| + i;
    assert stack[k] == stack[g];
  }

  lemma StepCycle(
    cfg: Cfg, vs: Vertices, us: Vertices, stack: seq<Label>, tasks: seq<Task>, parts: map<Key, seq<Component>>, t: Task,
    k: nat, pushes: seq<Task>)
    requires Readable(cfg, vs, stack, tasks + [t], parts) && t.StartVisit?
    requires IsLow(cfg, vs, t.vertex, vs.Dfn(t.vertex), true) && IsTopCycle(cfg, vs, stack, t.vertex, k)
    requires Restarts(vs, us, t.vertex, Above(stack, k)) && PushesOf(cfg, us, t.vertex, Some(t.vertex), pushes)
    ensures Readable(cfg, us, stack[..k], tasks + [ContinueVisit(t.vertex, t.partition)] + pushes,
              parts[Some(t.vertex) := []])
  {
    var o, l :| StateOk(cfg, State(vs, stack, tasks + [t], parts, o, l));
    var i := TopLabel(cfg, vs, l, o, tasks, t);
    OnStackAt(cfg, vs, stack, StackBelow(o), l, i, k);
    CycleBuilt(cfg, vs, us, stack, tasks, parts, o, l, t, i, Above(stack, k), pushes);
  }

  lemma CycleBuilt(
    cfg: Cfg, vs: Vertices, us: Vertices, stack: seq<Label>, tasks: seq<Task>, parts: map<Key, seq<Component>>,
    o: Outer, l: Level, t: Task, i: nat, inner: set<Label>, pushes: seq<Task>)
    requires StateOk(cfg, State(vs, stack, tasks + [t], parts, o, l)) && t.StartVisit?
    requires i < |l.stack| && l.stack[i] == t.vertex && IsLow(cfg, vs, t.vertex, vs.Dfn(t.vertex), true)
    requires inner == From(l, i + 1) && Restarts(vs, us, t.vertex, inner)
    requires PushesOf(cfg, us, t.vertex, Some(t.vertex), pushes)
    ensures Readable(cfg, us, StackBelow(o) + l.stack[..i], tasks + [ContinueVisit(t.vertex, t.partition)] + pushes,
              parts[Some(t.vertex) := []])
  {
    CycleStarted(cfg, vs, us, stack, tasks, parts, o, l, t, i, pushes);
    CycleShaped(cfg, vs, us, stack, tasks, parts, o, l, t, i, pushes);
    Assemble(cfg, us, StackBelow(o) + l.stack[..i], tasks + [ContinueVisit(t.vertex, t.partition)] + pushes,
      parts[Some(t.vertex) := []], Suspended(o, AfterPop(l, i), t.vertex, inner),
      InnerLevel(cfg, t.vertex, inner, pushes));
  }

  lemma StepEnded(
    cfg: Cfg, vs: Vertices, stack: seq<Label>, tasks: seq<Task>, parts: map<Key, seq<Component>>, t: Task)
    requires Readable(cfg, vs, stack, tasks + [t], parts) && t.ContinueVisit?
    ensures t.partition in parts && Some(t.vertex) in parts
    ensures Readable(cfg, vs, stack, tasks,
              parts[t.partition := [Cycle([Vertex(t.vertex)] + parts[Some(t.vertex)])] + parts[t.partition]])
  {
    var o, l :| StateOk(cfg, State(vs, stack, tasks + [t], parts, o, l));
    CycleEnded(cfg, vs, stack, tasks, parts, o, l, t);
    Assemble(cfg, vs, stack, tasks,
      parts[t.partition := [Cycle([Vertex(t.vertex)] + parts[Some(t.vertex)])] + parts[t.partition]], o.outer, o.level);
  }

  // ----- the builder -----

  /** What the search has not finished, and what it has not begun. */
  function NotDone(vs: Vertices): set<Label> {
    set x | x in vs.marks && !vs.marks[x].Infinite?
  }

  function NotBegun(vs: Vertices): set<Label> {
    set x | x in vs.marks && vs.marks[x].New?
  }

  /** The number of a successor as it is looked at; nothing compares with what is done. */
  function MinDfn(vs: Vertices, x: Label): Option<nat> {
    if vs.IsDone(x) then None else Some(Low(vs, x))
  }

  /** What is known of the label that is left. */
  lemma LeftLabel(
    cfg: Cfg, vs: Vertices, stack: seq<Label>, tasks: seq<Task>, parts: map<Key, seq<Component>>, t: Task)
    returns (k: nat)
    requires Readable(cfg, vs, stack, tasks + [t], parts) && t.StartVisit?
    ensures IsTopCycle(cfg, vs, stack, t.vertex, k) && Known(cfg, vs, t.vertex)
    ensures vs.IsNumbered(t.vertex) && 0 < vs.Dfn(t.vertex)
    ensures forall x :: cfg.Edge(t.vertex, x) ==> !vs.IsNew(x) && (vs.IsNumbered(x) ==> 0 < Low(vs, x))
  {
    var o, l :| StateOk(cfg, State(vs, stack, tasks + [t], parts, o, l));
    var i := CycleOnStack(cfg, vs, stack, tasks, t, o, l);
    k := |StackBelow(o)| + i;
    LeftFacts(cfg, vs, l, t.vertex, i);
    TaskKnown(cfg, State(vs, stack, tasks + [t], parts, o, l), t);
  }

  lemma HeadIsApart(cfg: Cfg, vs: Vertices, stack: seq<Label>, v: Label, k: nat)
    requires IsTopCycle(cfg, vs, stack, v, k)
    ensures v !in Above(stack, k)
  {
  }

  /** Nothing of the cycle is done. */
  lemma CycleUnfinished(
    cfg: Cfg, vs: Vertices, stack: seq<Label>, tasks: seq<Task>, parts: map<Key, seq<Component>>, t: Task, k: nat)
    requires Readable(cfg, vs, stack, tasks + [t], parts) && t.StartVisit? && IsTopCycle(cfg, vs, stack, t.vertex, k)
    ensures vs.IsNumbered(t.vertex) && t.vertex !in Above(stack, k)
    ensures forall x :: x in Above(stack, k) ==> !vs.IsDone(x)
  {
    var o, l :| StateOk(cfg, State(vs, stack, tasks + [t], parts, o, l));
    var i := CycleOnStack(cfg, vs, stack, tasks, t, o, l);
    HeadIsApart(cfg, vs, stack, t.vertex, k);
    AboveIsNumbered(cfg, vs, l, i);
  }

  lemma AboveIsNumbered(cfg: Cfg, vs: Vertices, l: Level, i: nat)
    requires MarksOk(cfg, l, vs) && i < |l.stack|
    ensures vs.IsNumbered(l.stack[i]) && forall x :: x in From(l, i + 1) ==> vs.IsNumbered(x)
  {
    assert forall x :: x in From(l, i + 1) ==> x in l.stack;
  }

  lemma LeftFacts(cfg: Cfg, vs: Vertices, l: Level, v: Label, i: nat)
    requires LevelOk(cfg, l, vs) && TopIs(l, v) && i < |l.stack| && l.stack[i] == v
    ensures vs.IsNumbered(v) && 0 < vs.Dfn(v)
    ensures forall x :: cfg.Edge(v, x) ==> !vs.IsNew(x) && (vs.IsNumbered(x) ==> 0 < Low(vs, x))
  {
    AboveTop(cfg, l, vs, v, i);
    assert v in l.stack;
    forall x | cfg.Edge(v, x) ensures !vs.IsNew(x) && (vs.IsNumbered(x) ==> 0 < Low(vs, x)) {
      assert x in l.stack || vs.IsDone(x);
    }
  }

  /** The label and its successors are labels of the graph. */
  ghost predicate Known(cfg: Cfg, vs: Vertices, v: Label) {
    v in vs.marks && v in cfg.neighbours && cfg.neighbours[v].children <= vs.marks.Keys
  }

  lemma TaskKnown(cfg: Cfg, s: State, t: Task)
    requires StateOk(cfg, s) && s.tasks != [] && t == s.tasks[|s.tasks| - 1]
    ensures Known(cfg, s.vs, t.vertex)
  {
    var w :| ReachedBy(cfg, w, t.vertex);
    ChildrenKnown(cfg, t.vertex);
  }

  lemma TopKnown(
    cfg: Cfg, vs: Vertices, stack: seq<Label>, tasks: seq<Task>, parts: map<Key, seq<Component>>, t: Task)
    requires Readable(cfg, vs, stack, tasks + [t], parts)
    ensures Known(cfg, vs, t.vertex)
  {
    var o, l :| StateOk(cfg, State(vs, stack, tasks + [t], parts, o, l));
    TaskKnown(cfg, State(vs, stack, tasks + [t], parts, o, l), t);
  }

  lemma VisitedFewer(vs: Vertices, v: Label)
    requires vs.IsNew(v)
    ensures |NotDone(Visited(vs, v))| == |NotDone(vs)| && |NotBegun(Visited(vs, v))| < |NotBegun(vs)|
  {
    assert NotDone(Visited(vs, v)) == NotDone(vs);
    assert v in NotBegun(vs) && v !in NotBegun(Visited(vs, v));
    FewerIsLess(NotBegun(Visited(vs, v)), NotBegun(vs));
  }

  lemma FewerIsLess(a: set<Label>, b: set<Label>)
    requires a < b
    ensures |a| < |b|
  {
    assert b == a + (b - a) && b - a != {};
  }

  lemma BeginsWell(cfg: Cfg, vs: Vertices, tasks: seq<Task>, l: Level)
    requires cfg.Valid() && IsReached(cfg, ENTRY) && tasks == [PushSuccessors(ENTRY, None)]
    requires vs == Vertices(map x | x in cfg.neighbours :: New, map x | x in cfg.neighbours :: 0, 0)
    requires l == Level(cfg.neighbours.Keys, [], tasks, {ENTRY}, None)
    ensures StateOk(cfg, State(vs, [], tasks, map[None := []], Outermost, l))
  {
    LevelBegins(cfg, vs, tasks, l);
    EmptyPart(cfg, l.scope, vs);
    Assemble(cfg, vs, [], tasks, map[None := []], Outermost, l);
  }

  lemma LevelBegins(cfg: Cfg, vs: Vertices, tasks: seq<Task>, l: Level)
    requires cfg.Valid() && tasks == [PushSuccessors(ENTRY, None)]
    requires vs == Vertices(map x | x in cfg.neighbours :: New, map x | x in cfg.neighbours :: 0, 0)
    requires l == Level(cfg.neighbours.Keys, [], tasks, {ENTRY}, None)
    ensures LevelOk(cfg, l, vs)
  {
    forall u, x | cfg.Edge(u, x) ensures x in l.scope {
      ChildrenKnown(cfg, u);
    }
    assert Unowned(l.work, 0) && HasOwner(cfg, l, 0);
    assert l.work[0].PushSuccessors? && l.work[0].vertex == ENTRY && PushedAbove(l.work, -1, ENTRY);
    assert ReachedBy(cfg, [ENTRY], ENTRY) && [ENTRY][..0] == [];
    assert EntersAt(cfg, ENTRY, l.scope);
  }

  /** The labels above the head go back to the beginning, from the top of the stack on. */
  ghost predicate PoppedTo(vs: Vertices, us: Vertices, v: Label, stack: seq<Label>, g: nat) {
    Restarts(vs, us, v, Above(stack, g))
  }

  lemma PopOne(vs: Vertices, us: Vertices, v: Label, stack: seq<Label>, k: nat, g: nat)
    requires k < g < |stack| && v in vs.marks && (forall i :: k < i < |stack| ==> stack[i] != v && stack[i] in vs.marks)
    requires PoppedTo(vs, us, v, stack, g)
    ensures PoppedTo(vs, Vertices(us.marks[stack[g] := New], us.heads[stack[g] := 0], us.num), v, stack, g - 1)
  {
    assert Above(stack, g - 1) == Above(stack, g) + {stack[g]};
  }

  lemma PopNone(vs: Vertices, us: Vertices, v: Label, stack: seq<Label>)
    requires stack != [] && us == Vertices(vs.marks[v := Infinite], vs.heads, vs.num) && v in vs.marks
    ensures PoppedTo(vs, us, v, stack, |stack| - 1)
  {
    assert Above(stack, |stack| - 1) == {};
  }

  /** wto_builder_t */
  class WtoBuilder {
    const cfg: Cfg
    var data: Vertices
    var stack: seq<Label>
    var tasks: seq<Task>
    var partitions: map<Key, seq<Component>>

    ghost predicate Ready()
      reads this
    {
      Readable(cfg, data, stack, tasks, partitions)
    }

    /** The state, when a task was taken from the top and is not done. */
    ghost predicate Taken(t: Task)
      reads this
    {
      Readable(cfg, data, stack, tasks + [t], partitions)
    }

    /** What the search has not finished, and what it has not begun. */
    function Unfinished(): nat
      reads this
    {
      |NotDone(data)|
    }

    function Unbegun(): nat
      reads this
    {
      |NotBegun(data)|
    }

    constructor (cfg: Cfg)
      requires cfg.Valid()
      ensures Ready() && this.cfg == cfg
    {
      this.cfg := cfg;
      data := Vertices(map l | l in cfg.neighbours :: New, map l | l in cfg.neighbours :: 0, 0);
      stack := [];
      tasks := [PushSuccessors(ENTRY, None)];
      partitions := map[None := []];
      new;
      EntryReached(cfg);
      BeginsWell(cfg, data, tasks, Level(cfg.neighbours.Keys, [], tasks, {ENTRY}, None));
    }

    /** A task for every successor that was not visited. */
    method Schedule(vertex: Label, partition: Key) returns (ghost pushes: seq<Task>)
      requires vertex in cfg.neighbours && cfg.neighbours[vertex].children <= data.marks.Keys
      modifies this`tasks
      ensures tasks == old(tasks) + pushes && PushesOf(cfg, data, vertex, partition, pushes)
    {
      pushes := [];
      var children := cfg.neighbours[vertex].children;
      var rest := children;
      while rest != {}
        invariant rest <= children && tasks == old(tasks) + pushes
        invariant forall t :: t in pushes ==>
                    && t.PushSuccessors? && t.partition == partition && cfg.Edge(vertex, t.vertex)
                    && data.IsNew(t.vertex)
        invariant forall x :: x in children - rest && data.IsNew(x) ==> PushSuccessors(x, partition) in pushes
        decreases rest
      {
        var succ :| succ in rest;
        rest := rest - {succ};
        if data.marks[succ].New? {
          tasks := tasks + [PushSuccessors(succ, partition)];
          pushes := pushes + [PushSuccessors(succ, partition)];
        }
      }
    }

    /** push_successors */
    method VisitNew(t: Task)
      requires Taken(t) && t.PushSuccessors?
      modifies this
      ensures Ready()
      ensures Unfinished() == old(Unfinished())
      ensures Unbegun() < old(Unbegun()) || (Unbegun() == old(Unbegun()) && tasks == old(tasks))
    {
      TopKnown(cfg, data, stack, tasks, partitions, t);
      if data.marks[t.vertex].New? {
        Push(t);
      } else {
        StepDropped(cfg, data, stack, tasks, partitions, t);
      }
    }

    method Push(t: Task)
      requires Taken(t) && t.PushSuccessors? && data.IsNew(t.vertex) && Known(cfg, data, t.vertex)
      modifies this
      ensures Ready() && Unfinished() == old(Unfinished()) && Unbegun() < old(Unbegun())
    {
      ghost var pushes := Enter(t);
      StepPushed(cfg, old(data), old(stack), old(tasks), partitions, t, pushes);
      VisitedFewer(old(data), t.vertex);
    }

    method Enter(t: Task) returns (ghost pushes: seq<Task>)
      requires data.IsNew(t.vertex) && Known(cfg, data, t.vertex)
      modifies this`data, this`stack, this`tasks
      ensures data == Visited(old(data), t.vertex) && stack == old(stack) + [t.vertex]
      ensures tasks == old(tasks) + [StartVisit(t.vertex, t.partition)] + pushes
      ensures PushesOf(cfg, data, t.vertex, t.partition, pushes)
    {
      data := Visited(data, t.vertex);
      stack := stack + [t.vertex];
      tasks := tasks + [StartVisit(t.vertex, t.partition)];
      pushes := Schedule(t.vertex, t.partition);
    }

    /** The least number among the successors of a label, and whether it is in a loop. */
    method LookAtSuccessors(v: Label) returns (head: nat, loop: bool)
      requires v in cfg.neighbours && data.IsNumbered(v) && 0 < data.Dfn(v)
      requires forall x :: cfg.Edge(v, x) ==> x in data.marks && !data.IsNew(x)
      requires forall x :: cfg.Edge(v, x) && data.IsNumbered(x) ==> 0 < Low(data, x)
      ensures IsLow(cfg, data, v, head, loop)
    {
      head, loop := data.Dfn(v), false;
      var children := cfg.neighbours[v].children;
      var rest := children;
      while rest != {}
        invariant rest <= children && 0 < head <= data.Dfn(v)
        invariant forall x :: x in children - rest && data.IsNumbered(x) ==> head <= Low(data, x)
        invariant head < data.Dfn(v) ==> exists x :: LowSuccessor(cfg, data, v, x) && Low(data, x) == head
        invariant head < data.Dfn(v) ==> loop
        invariant loop ==> exists x :: LowSuccessor(cfg, data, v, x) && Low(data, x) <= data.Dfn(v)
        invariant !loop ==> forall x :: x in children - rest && data.IsNumbered(x) ==> data.Dfn(v) < Low(data, x)
        decreases rest
      {
        var succ :| succ in rest;
        rest := rest - {succ};
        var min := MinDfn(data, succ);
        assert cfg.Edge(v, succ);
        if min.Some? && min.value <= head {
          assert LowSuccessor(cfg, data, v, succ);
          head, loop := min.value, true;
        }
      }
    }

    /** The labels of a cycle are taken off the stack and are new again, but for its head. */
    method TakeCycle(v: Label, ghost k: nat)
      requires IsTopCycle(cfg, data, stack, v, k)
      modifies this`data, this`stack
      ensures stack == old(stack)[..k] && Restarts(old(data), data, v, Above(old(stack), k))
    {
      data := Vertices(data.marks[v := Infinite], data.heads, data.num);
      PopNone(old(data), data, v, stack);
      var element := stack[|stack| - 1];
      stack := stack[..|stack| - 1];
      while element != v
        invariant k <= |stack| < |old(stack)| && stack == old(stack)[..|stack|] && element == old(stack)[|stack|]
        invariant PoppedTo(old(data), data, v, old(stack), |stack|)
        decreases |stack|
      {
        PopOne(old(data), data, v, old(stack), k, |stack|);
        data := Vertices(data.marks[element := New], data.heads[element := 0], data.num);
        element := stack[|stack| - 1];
        stack := stack[..|stack| - 1];
      }
    }

    /** start_visit: a label is left, and with it perhaps a cycle or a vertex is complete. */
    method Leave(t: Task)
      requires Taken(t) && t.StartVisit?
      modifies this
      ensures Ready()
      ensures Unfinished() < old(Unfinished())
              || (Unfinished() == old(Unfinished()) && Unbegun() == old(Unbegun()) && tasks == old(tasks))
    {
      ghost var k := LeftLabel(cfg, data, stack, tasks, partitions, t);
      var head, loop := LookAtSuccessors(t.vertex);
      Decide(t, head, loop, k);
    }

    method Decide(t: Task, head: nat, loop: bool, ghost k: nat)
      requires Taken(t) && t.StartVisit? && Known(cfg, data, t.vertex) && data.IsNumbered(t.vertex)
      requires IsTopCycle(cfg, data, stack, t.vertex, k) && IsLow(cfg, data, t.vertex, head, loop)
      modifies this
      ensures Ready()
      ensures Unfinished() < old(Unfinished())
              || (Unfinished() == old(Unfinished()) && Unbegun() == old(Unbegun()) && tasks == old(tasks))
    {
      if head != data.Dfn(t.vertex) {
        Stay(t, head, loop);
      } else if loop {
        BeginCycle(t, head, k);
      } else {
        PutInFront(t, head);
      }
    }

    /** The label leads further down, and stays on the stack. */
    method Stay(t: Task, head: nat, ghost loop: bool)
      requires Taken(t) && t.StartVisit? && IsLow(cfg, data, t.vertex, head, loop) && head < data.Dfn(t.vertex)
      modifies this`data
      ensures Ready() && Unfinished() == old(Unfinished()) && Unbegun() == old(Unbegun())
    {
      StepLeft(cfg, data, stack, tasks, partitions, t, head, loop);
      data := Left(data, t.vertex, head);
    }

    /** The search begins again inside a cycle. */
    method Restart(t: Task, head: nat, ghost k: nat) returns (ghost pushes: seq<Task>)
      requires IsTopCycle(cfg, data, stack, t.vertex, k) && Known(cfg, data, t.vertex)
      modifies this
      ensures Restarts(old(data), data, t.vertex, Above(old(stack), k)) && stack == old(stack)[..k]
      ensures tasks == old(tasks) + [ContinueVisit(t.vertex, t.partition)] + pushes
      ensures partitions == old(partitions)[Some(t.vertex) := []]
      ensures PushesOf(cfg, data, t.vertex, Some(t.vertex), pushes)
    {
      var v := t.vertex;
      TakeCycle(v, k);
      data := Vertices(data.marks, data.heads[v := head], data.num);
      tasks := tasks + [ContinueVisit(v, t.partition)];
      partitions := partitions[Some(v) := []];
      HeadIsApart(cfg, old(data), old(stack), v, k);
      pushes := Schedule(v, Some(v));
    }

    method BeginCycle(t: Task, head: nat, ghost k: nat)
      requires Taken(t) && t.StartVisit? && Known(cfg, data, t.vertex)
      requires IsTopCycle(cfg, data, stack, t.vertex, k) && head == data.Dfn(t.vertex)
      requires IsLow(cfg, data, t.vertex, head, true)
      modifies this
      ensures Ready() && Unfinished() < old(Unfinished())
    {
      CycleUnfinished(cfg, data, stack, tasks, partitions, t, k);
      ghost var pushes := Restart(t, head, k);
      StepCycle(cfg, old(data), data, old(stack), old(tasks), old(partitions), t, k, pushes);
      CycleFewer(old(data), data, t.vertex, Above(old(stack), k));
    }

    method PutInFront(t: Task, head: nat)
      requires Taken(t) && t.StartVisit? && data.IsNumbered(t.vertex)
      requires head == data.Dfn(t.vertex) && IsLow(cfg, data, t.vertex, head, false)
      modifies this
      ensures Ready() && Unfinished() < old(Unfinished())
    {
      ghost var after := Vertices(data.marks[t.vertex := Infinite], data.heads[t.vertex := head], data.num);
      StepVertex(cfg, data, after, stack, tasks, partitions, t);
      VertexFewer(data, after, t.vertex);
      PutVertex(t, head);
    }

    /** The vertex is done, and comes in front of its partition. */
    method PutVertex(t: Task, head: nat)
      requires stack != [] && t.partition in partitions
      modifies this`data, this`stack, this`partitions
      ensures data == Vertices(old(data).marks[t.vertex := Infinite], old(data).heads[t.vertex := head], old(data).num)
      ensures stack == old(stack)[..|old(stack)| - 1]
      ensures partitions == old(partitions)[t.partition := [Vertex(t.vertex)] + old(partitions)[t.partition]]
    {
      data := Vertices(data.marks[t.vertex := Infinite], data.heads, data.num);
      stack := stack[..|stack| - 1];
      partitions := partitions[t.partition := [Vertex(t.vertex)] + partitions[t.partition]];
      data := Vertices(data.marks, data.heads[t.vertex := head], data.num);
    }

    /** continue_visit: a cycle is complete. */
    method EndCycle(t: Task)
      requires Taken(t) && t.ContinueVisit?
      modifies this`partitions
      ensures Ready()
    {
      StepEnded(cfg, data, stack, tasks, partitions, t);
      var components := [Vertex(t.vertex)] + partitions[Some(t.vertex)];
      partitions := partitions[t.partition := [Cycle(components)] + partitions[t.partition]];
    }

    /** The loop over the tasks: it ends, and the result is a weak topological order of exactly the
        labels that the entry leads to, all of whose cycles are loops. */
    method Build() returns (order: seq<Component>)
      requires Ready()
      modifies this
      ensures IsOrder(cfg, order)
    {
      while tasks != []
        invariant Ready()
        decreases Unfinished(), Unbegun(), |tasks|
      {
        var t := Take();
        Handle(t);
      }
      order := TheOrder();
    }

    method Handle(t: Task)
      requires Taken(t)
      modifies this
      ensures Ready()
      ensures || Unfinished() < old(Unfinished())
              || (Unfinished() == old(Unfinished()) && Unbegun() < old(Unbegun()))
              || (Unfinished() == old(Unfinished()) && Unbegun() == old(Unbegun()) && tasks == old(tasks))
    {
      match t {
        case PushSuccessors(_, _) => VisitNew(t);
        case StartVisit(_, _) => Leave(t);
        case ContinueVisit(_, _) => EndCycle(t);
      }
    }

    method Take() returns (t: Task)
      requires Ready() && tasks != []
      modifies this`tasks
      ensures Taken(t) && old(tasks) == tasks + [t]
    {
      SplitLast(tasks);
      t := tasks[|tasks| - 1];
      tasks := tasks[..|tasks| - 1];
    }

    /** What is left in the partition of the whole graph. */
    method TheOrder() returns (order: seq<Component>)
      requires Ready() && tasks == []
      ensures IsOrder(cfg, order)
    {
      ghost var o, l :| StateOk(cfg, State(data, stack, [], partitions, o, l));
      BuiltIsValid(cfg, data, stack, partitions, o, l);
      order := partitions[None];
    }
  }

  lemma SplitLast<T>(s: seq<T>)
    requires s != []
    ensures s == s[..|s| - 1] + [s[|s| - 1]]
  {
  }

  lemma CycleFewer(vs: Vertices, us: Vertices, v: Label, inner: set<Label>)
    requires us.marks == (map x | x in vs.marks :: if x in inner then New else if x == v then Infinite else vs.marks[x])
    requires v in vs.marks && !vs.IsDone(v) && v !in inner && forall x :: x in inner && x in vs.marks ==> !vs.IsDone(x)
    ensures |NotDone(us)| < |NotDone(vs)|
  {
    assert v in NotDone(vs) && v !in NotDone(us);
    FewerIsLess(NotDone(us), NotDone(vs));
  }

  lemma VertexFewer(vs: Vertices, us: Vertices, v: Label)
    requires us.marks == vs.marks[v := Infinite] && v in vs.marks && !vs.IsDone(v)
    ensures |NotDone(us)| < |NotDone(vs)|
  {
    assert v in NotDone(vs) && v !in NotDone(us);
    FewerIsLess(NotDone(us), NotDone(vs));
  }

  /** A weak topological order of what the entry leads to, whose cycles are loops. */
  ghost predicate IsOrder(cfg: Cfg, order: seq<Component>) {
    && ValidWto(cfg, order) && Genuine(cfg, order)
    && forall l :: l in AllLabels(order) <==> IsReached(cfg, l)
  }

  /** wto_t::wto_t */
  method OrderOf(cfg: Cfg) returns (order: seq<Component>)
    requires cfg.Valid()
    ensures IsOrder(cfg, order)
  {
    var builder := new WtoBuilder(cfg);
    order := builder.Build();
  }
}
