/** The partitions of the builder of weak topological orders (src/crab/wto.cpp): what a partition is
    while it grows, and the levels that wait for the cycle that is being built. */
module WtoParts {
  import opened AsmSyntax
  import opened ControlFlowGraph
  import opened LoopCounters
  import opened Wto
  import opened WtoLevels

  // ----- a partition -----

  /** A part of an order, whose labels are those that are done but for `apart`, and which
      only leads to itself. */
  ghost predicate PartOk(cfg: Cfg, cs: seq<Component>, scope: set<Label>, vs: Vertices, apart: set<Label>) {
    && WellFormedSequence(cfg, cs) && Genuine(cfg, cs) && ENTRY !in Heads(cs)
    && (forall x :: x in AllLabels(cs) <==> x in scope && vs.IsDone(x) && x !in apart)
    && (forall u, x :: u in AllLabels(cs) && x in scope && cfg.Edge(u, x) ==> x in AllLabels(cs))
  }

  lemma GenuineVertex(cfg: Cfg, v: Label, cs: seq<Component>)
    requires Genuine(cfg, cs)
    ensures Genuine(cfg, [Vertex(v)] + cs)
  {
    var all := [Vertex(v)] + cs;
    forall i | 0 <= i < |all| && all[i].Cycle?
      ensures GenuineCycle(cfg, all[i].components) && Genuine(cfg, all[i].components)
    {
      assert all[i] == cs[i - 1];
    }
  }

  /** A label that leads only to what is done comes in front. */
  lemma PutVertex(cfg: Cfg, cs: seq<Component>, scope: set<Label>, vs: Vertices, v: Label)
    requires PartOk(cfg, cs, scope, vs, {}) && v in scope && v in vs.marks && !vs.IsDone(v)
    requires forall x :: cfg.Edge(v, x) ==> vs.IsDone(x)
    ensures PartOk(cfg, [Vertex(v)] + cs, scope, Finished(vs, {v}), {})
  {
    var all, us := [Vertex(v)] + cs, Finished(vs, {v});
    assert all[1..] == cs;
    GenuineVertex(cfg, v, cs);
    assert forall x :: us.IsDone(x) <==> vs.IsDone(x) || x == v;
  }

  lemma PartAside(cfg: Cfg, cs: seq<Component>, scope: set<Label>, vs: Vertices, us: Vertices, apart: set<Label>)
    requires PartOk(cfg, cs, scope, vs, {}) && forall x :: x in apart ==> !vs.IsDone(x)
    requires forall x :: x in scope && x !in apart ==> (us.IsDone(x) <==> vs.IsDone(x))
    ensures PartOk(cfg, cs, scope, us, apart)
  {
  }

  lemma CycleIsGenuine(cfg: Cfg, vs: Vertices, v: Label, inner: set<Label>, body: seq<Component>)
    requires CycleFound(cfg, vs, v, inner) && AllLabels(body) == inner
    ensures GenuineCycle(cfg, [Vertex(v)] + body)
  {
    var c := [Vertex(v)] + body;
    CycleLabels(c);
    assert c[1..] == body && AllLabels(c) == inner + {v};
  }

  lemma CycleInFront(cfg: Cfg, c: seq<Component>, cs: seq<Component>)
    requires GenuineCycle(cfg, c) && Genuine(cfg, c) && Genuine(cfg, cs)
    ensures Genuine(cfg, [Cycle(c)] + cs)
  {
    var all := [Cycle(c)] + cs;
    forall i | 0 <= i < |all| && all[i].Cycle?
      ensures GenuineCycle(cfg, all[i].components) && Genuine(cfg, all[i].components)
    {
      assert i > 0 ==> all[i] == cs[i - 1];
    }
  }

  /** The entry heads no cycle, since nothing leads to it. */
  lemma HeadIsNotEntry(cfg: Cfg, v: Label, loop: set<Label>)
    requires cfg.Valid() && IsLoop(cfg, v, loop) && v in loop
    ensures v != ENTRY
  {
    assert LeadsWithin(cfg, v, v, loop);
    var w :| IsWalk(cfg, w) && |w| > 1 && w[0] == v && w[|w| - 1] == v && Inside(w, loop);
    assert cfg.Edge(w[|w| - 2], w[|w| - 2 + 1]);
  }

  /** A finished cycle comes in front. */
  lemma PutCycle(
    cfg: Cfg, cs: seq<Component>, scope: set<Label>, vs: Vertices, v: Label, inner: set<Label>, body: seq<Component>)
    requires cfg.Valid() && PartOk(cfg, cs, scope, vs, inner + {v}) && PartOk(cfg, body, inner, vs, {})
    requires CycleFound(cfg, vs, v, inner) && v in scope && inner <= scope && scope <= cfg.neighbours.Keys
    requires forall x :: x in inner + {v} ==> vs.IsDone(x)
    ensures PartOk(cfg, [Cycle([Vertex(v)] + body)] + cs, scope, vs, {})
  {
    var c := [Vertex(v)] + body;
    var all := [Cycle(c)] + cs;
    assert AllLabels(body) == inner;
    assert c[1..] == body && all[1..] == cs;
    CycleLabels(c);
    CycleIsGenuine(cfg, vs, v, inner, body);
    GenuineVertex(cfg, v, body);
    CycleInFront(cfg, c, cs);
    HeadIsNotEntry(cfg, v, inner + {v});
    assert Heads(c) == Heads(body);
    assert NoEdge(cfg, AllLabels(cs), Labels(all[0]));
  }

  // ----- the levels that wait -----

  /** What waits while a cycle is built: the level in which it was found, without it. */
  datatype Outer = Outermost | Suspended(outer: Outer, level: Level, head: Label, inner: set<Label>)

  function StackBelow(o: Outer): seq<Label> {
    match o
    case Outermost => []
    case Suspended(o0, l, _, _) => StackBelow(o0) + l.stack
  }

  function TasksBelow(o: Outer): seq<Task> {
    match o
    case Outermost => []
    case Suspended(o0, l, h, _) => TasksBelow(o0) + l.work + [ContinueVisit(h, l.key)]
  }

  function KeyOf(o: Outer): Key {
    match o
    case Outermost => None
    case Suspended(_, _, h, _) => Some(h)
  }

  function ScopeOf(o: Outer, all: set<Label>): set<Label> {
    match o
    case Outermost => all
    case Suspended(_, _, _, inner) => inner
  }

  function RootsOf(cfg: Cfg, o: Outer): set<Label> {
    match o
    case Outermost => {ENTRY}
    case Suspended(_, _, h, inner) =>
      set x | x in inner && h in cfg.neighbours && x in cfg.neighbours[h].children
  }

  ghost predicate WaitOk(
    cfg: Cfg, o: Outer, l: Level, h: Label, inner: set<Label>, vs: Vertices, parts: map<Key, seq<Component>>,
    all: set<Label>)
  {
    && h in l.scope && inner <= l.scope && h !in inner && vs.IsDone(h)
    && l.scope == ScopeOf(o, all) && l.key == KeyOf(o) && l.roots == RootsOf(cfg, o)
    && LevelOk(cfg, l, Finished(vs, inner + {h})) && CycleFound(cfg, vs, h, inner)
    && l.key in parts && PartOk(cfg, parts[l.key], l.scope, vs, inner + {h})
  }

  ghost predicate OuterOk(
    cfg: Cfg, o: Outer, vs: Vertices, parts: map<Key, seq<Component>>, all: set<Label>)
  {
    match o
    case Outermost => true
    case Suspended(o0, l, h, inner) => WaitOk(cfg, o0, l, h, inner, vs, parts, all) && OuterOk(cfg, o0, vs, parts, all)
  }

  /** Only labels of a set, and partitions of cycles with these heads, have changed. */
  ghost predicate OnlyInside(
    vs: Vertices, us: Vertices, parts: map<Key, seq<Component>>, qs: map<Key, seq<Component>>, inner: set<Label>,
    key: Key)
  {
    && us.marks.Keys == vs.marks.Keys && vs.num <= us.num
    && (forall x :: x !in inner ==> us.Head(x) == vs.Head(x) && (x in vs.marks ==> us.marks[x] == vs.marks[x]))
    && (forall k :: k in parts && k != key && !(k.Some? && k.value in inner) ==> k in qs && qs[k] == parts[k])
  }

  lemma WaitStays(
    cfg: Cfg, o: Outer, l: Level, h: Label, inner: set<Label>, vs: Vertices, us: Vertices,
    parts: map<Key, seq<Component>>, qs: map<Key, seq<Component>>, all: set<Label>)
    requires WaitOk(cfg, o, l, h, inner, vs, parts, all) && OnlyInside(vs, us, parts, qs, inner, Some(h))
    ensures WaitOk(cfg, o, l, h, inner, us, qs, all)
  {
    var d := inner + {h};
    assert Finished(us, d).marks == Finished(vs, d).marks;
    assert forall x :: x in l.stack ==> Finished(vs, d).IsNumbered(x) && x !in d;
    LevelStays(cfg, l, Finished(vs, d), Finished(us, d));
    assert forall x :: x !in inner ==> (us.IsDone(x) <==> vs.IsDone(x));
    assert l.key.Some? ==> l.key.value !in l.scope;
  }

  lemma {:induction false} OuterStays(
    cfg: Cfg, o: Outer, vs: Vertices, us: Vertices, parts: map<Key, seq<Component>>, qs: map<Key, seq<Component>>,
    all: set<Label>)
    requires OuterOk(cfg, o, vs, parts, all) && OnlyInside(vs, us, parts, qs, ScopeOf(o, all), KeyOf(o))
    ensures OuterOk(cfg, o, us, qs, all)
  {
    match o
    case Outermost =>
    case Suspended(o0, l, h, inner) =>
      WaitStays(cfg, o0, l, h, inner, vs, us, parts, qs, all);
      assert OnlyInside(vs, us, parts, qs, ScopeOf(o0, all), KeyOf(o0));
      OuterStays(cfg, o0, vs, us, parts, qs, all);
  }
}
