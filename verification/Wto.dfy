/** Weak topological orders (src/crab/wto.hpp, src/crab/wto.cpp). */
module Wto {
  import opened AsmSyntax
  import opened ControlFlowGraph
  import opened LoopCounters

  /** A component is a vertex, or a cycle whose first component is the vertex of its head. */
  datatype Component = Vertex(vertex: Label) | Cycle(components: seq<Component>)

  /** The labels of a component, nested ones included. */
  function Labels(c: Component): set<Label>
    decreases c, 0
  {
    match c
    case Vertex(l) => {l}
    case Cycle(cs) => AllLabels(cs)
  }

  function AllLabels(cs: seq<Component>): set<Label>
    decreases cs, 1
  {
    if cs == [] then {} else Labels(cs[0]) + AllLabels(cs[1..])
  }

  lemma CycleLabels(cs: seq<Component>)
    requires cs != [] && cs[0].Vertex?
    ensures Labels(Cycle(cs)) == AllLabels(cs) == {cs[0].vertex} + AllLabels(cs[1..])
  {
  }

  /** is_component_member */
  function IsComponentMember(l: Label, c: Component): (r: bool)
    ensures r <==> l in Labels(c)
    decreases c, 0
  {
    match c
    case Vertex(v) => v == l
    case Cycle(cs) => IsMemberOfAny(l, cs)
  }

  function IsMemberOfAny(l: Label, cs: seq<Component>): (r: bool)
    ensures r <==> l in AllLabels(cs)
    decreases cs, 1
  {
    cs != [] && (IsComponentMember(l, cs[0]) || IsMemberOfAny(l, cs[1..]))
  }

  /** A cycle starts with the vertex of its head, every label occurs once, and every
      edge that does not go forward leads to the head of a cycle containing its source. */
  ghost predicate WellFormed(cfg: Cfg, c: Component)
    decreases c, 0
  {
    match c
    case Vertex(l) => !cfg.Edge(l, l)
    case Cycle(cs) =>
      && cs != [] && cs[0].Vertex?
      && cs[0].vertex !in AllLabels(cs[1..])
      && WellFormedSequence(cfg, cs[1..])
  }

  ghost predicate WellFormedSequence(cfg: Cfg, cs: seq<Component>)
    decreases cs, 1
  {
    cs == [] ||
    (&& WellFormed(cfg, cs[0])
     && WellFormedSequence(cfg, cs[1..])
     && Labels(cs[0]) !! AllLabels(cs[1..])
     && NoEdge(cfg, AllLabels(cs[1..]), Labels(cs[0])))
  }

  ghost predicate NoEdge(cfg: Cfg, from: set<Label>, to: set<Label>) {
    forall u, v {:trigger cfg.Edge(u, v)} :: u in from && v in to ==> !cfg.Edge(u, v)
  }

  /** The heads of all cycles, nested ones included. */
  function Heads(cs: seq<Component>): set<Label>
    decreases cs
  {
    if cs == [] then {}
    else
      (match cs[0]
       case Vertex(_) => {}
       case Cycle(inner) => (if inner != [] && inner[0].Vertex? then {inner[0].vertex} else {}) + Heads(inner))
      + Heads(cs[1..])
  }

  /** for_each_loop_head visits the cycles of the top level only. */
  function TopLevelHeads(cs: seq<Component>): (heads: seq<Label>)
    decreases cs
  {
    if cs == [] then []
    else
      (match cs[0]
       case Vertex(_) => []
       case Cycle(inner) => if inner != [] && inner[0].Vertex? then [inner[0].vertex] else [])
      + TopLevelHeads(cs[1..])
  }

  /** The order of a whole graph: it contains the entry, which heads no cycle, and is
      closed under the edges of the graph. */
  ghost predicate ValidWto(cfg: Cfg, cs: seq<Component>) {
    && WellFormedSequence(cfg, cs)
    && AllLabels(cs) <= cfg.neighbours.Keys
    && ENTRY in AllLabels(cs)
    && ENTRY !in Heads(cs)
    && forall u, v {:trigger cfg.Edge(u, v)} :: u in AllLabels(cs) && cfg.Edge(u, v) ==> v in AllLabels(cs)
  }

  /** Each cycle of the order, nested ones included, really is one: it is a loop around its head,
      and it is entered at its head. */
  ghost predicate Genuine(cfg: Cfg, cs: seq<Component>)
    decreases cs
  {
    forall i :: 0 <= i < |cs| && cs[i].Cycle? ==>
      GenuineCycle(cfg, cs[i].components) && Genuine(cfg, cs[i].components)
  }

  ghost predicate GenuineCycle(cfg: Cfg, cs: seq<Component>) {
    && cs != [] && cs[0].Vertex?
    && IsLoop(cfg, cs[0].vertex, AllLabels(cs)) && EntersAt(cfg, cs[0].vertex, AllLabels(cs))
  }

  /** So some closed walk stays inside. */
  lemma HasClosedWalk(cfg: Cfg, cs: seq<Component>) returns (w: seq<Label>)
    requires GenuineCycle(cfg, cs)
    ensures IsCycle(cfg, w) && Inside(w, AllLabels(cs))
  {
    CycleLabels(cs);
    assert LeadsWithin(cfg, cs[0].vertex, cs[0].vertex, AllLabels(cs));
    w :| IsWalk(cfg, w) && |w| > 1 && w[0] == w[|w| - 1] == cs[0].vertex && Inside(w, AllLabels(cs));
  }

  /** wto_t::nesting: the heads of the cycles around a label, innermost first. The head
      of a cycle is nested in the cycles strictly around its own. */
  function Nesting(cs: seq<Component>, l: Label, around: seq<Label>): (heads: seq<Label>)
    decreases cs
  {
    if cs == [] then []
    else if IsComponentMember(l, cs[0]) then
      match cs[0]
      case Vertex(_) => around
      case Cycle(inner) =>
        if inner != [] && inner[0] == Vertex(l) then around
        else if inner != [] && inner[0].Vertex? then Nesting(inner, l, [inner[0].vertex] + around)
        else Nesting(inner, l, around)
    else Nesting(cs[1..], l, around)
  }

  /** wto_nesting_t::operator> */
  function StrictlyNestedIn(a: seq<Label>, b: seq<Label>): bool {
    |b| < |a| && a[|a| - |b|..] == b
  }

  /** One of the cycles has the head h and the label in it, below its head. */
  ghost predicate IsAround(cs: seq<Component>, h: Label, l: Label)
    decreases cs
  {
    exists i :: 0 <= i < |cs| && cs[i].Cycle? && IsInside(cs[i].components, l)
                && (h == cs[i].components[0].vertex || IsAround(cs[i].components, h, l))
  }

  predicate IsInside(cs: seq<Component>, l: Label) {
    cs != [] && cs[0].Vertex? && l in AllLabels(cs) && l != cs[0].vertex
  }

  lemma AroundFirst(cs: seq<Component>, h: Label, l: Label)
    requires cs != []
    ensures IsAround(cs, h, l) <==>
            || IsAround(cs[1..], h, l)
            || (cs[0].Cycle? && IsInside(cs[0].components, l)
                && (h == cs[0].components[0].vertex || IsAround(cs[0].components, h, l)))
  {
    if i :| 0 <= i < |cs| && cs[i].Cycle? && IsInside(cs[i].components, l)
            && (h == cs[i].components[0].vertex || IsAround(cs[i].components, h, l)) {
      assert i > 0 ==> cs[1..][i - 1] == cs[i];
    }
    if IsAround(cs[1..], h, l) {
      var i :| 0 <= i < |cs[1..]| && cs[1..][i].Cycle? && IsInside(cs[1..][i].components, l)
               && (h == cs[1..][i].components[0].vertex || IsAround(cs[1..][i].components, h, l));
      assert cs[i + 1] == cs[1..][i];
    }
  }

  lemma {:induction false} AroundIsKnown(cs: seq<Component>, h: Label, l: Label)
    requires IsAround(cs, h, l)
    ensures h in AllLabels(cs) && l in AllLabels(cs)
    decreases cs
  {
    AroundFirst(cs, h, l);
    if IsAround(cs[1..], h, l) {
      AroundIsKnown(cs[1..], h, l);
    } else if h != cs[0].components[0].vertex {
      AroundIsKnown(cs[0].components, h, l);
    } else {
      CycleLabels(cs[0].components);
    }
  }

  /** The nesting of a label consists of the heads around it. */
  lemma {:induction false} NestingIsAround(cfg: Cfg, cs: seq<Component>, l: Label, around: seq<Label>, h: Label)
    requires WellFormedSequence(cfg, cs) && l in AllLabels(cs)
    ensures h in Nesting(cs, l, around) <==> h in around || IsAround(cs, h, l)
    decreases cs
  {
    AroundFirst(cs, h, l);
    if l !in Labels(cs[0]) {
      NestingIsAround(cfg, cs[1..], l, around, h);
    } else {
      if IsAround(cs[1..], h, l) {
        AroundIsKnown(cs[1..], h, l);
      }
      if cs[0].Cycle? {
        var inner := cs[0].components;
        CycleLabels(inner);
        AroundFirst(inner, h, l);
        if l != inner[0].vertex {
          NestingIsAround(cfg, inner[1..], l, [inner[0].vertex] + around, h);
        }
      }
    }
  }

  predicate EndsWith(a: seq<Label>, b: seq<Label>) {
    |b| <= |a| && a[|a| - |b|..] == b
  }

  lemma EndsFurther(a: seq<Label>, h: Label, around: seq<Label>)
    requires EndsWith(a, [h] + around)
    ensures EndsWith(a, around) && |a| > |around| && a[|a| - |around| - 1] == h
  {
    var more := [h] + around;
    assert a[|a| - |more|..] == more;
    assert a[|a| - |around|..] == a[|a| - |more|..][1..] == around;
  }

  /** The list of heads ends with those around the sequence; in front of them stands one inside it,
      if any is around the label there. */
  ghost predicate Continues(cs: seq<Component>, l: Label, around: seq<Label>, a: seq<Label>) {
    && EndsWith(a, around)
    && (|a| > |around| ==> IsAround(cs, a[|a| - |around| - 1], l))
    && (|a| == |around| ==> forall h :: !IsAround(cs, h, l))
  }

  lemma NestingInside(cfg: Cfg, cs: seq<Component>, l: Label, around: seq<Label>)
    requires WellFormedSequence(cfg, cs) && cs != [] && cs[0].Cycle? && l in Labels(cs[0])
    requires cs[0].components != [] && cs[0].components[0].Vertex? && l != cs[0].components[0].vertex
    ensures var inner := cs[0].components;
            Nesting(cs, l, around) == Nesting(inner[1..], l, [inner[0].vertex] + around)
  {
    CycleLabels(cs[0].components);
  }

  lemma {:induction false} NestingEnds(cfg: Cfg, cs: seq<Component>, l: Label, around: seq<Label>)
    requires WellFormedSequence(cfg, cs) && l in AllLabels(cs)
    ensures Continues(cs, l, around, Nesting(cs, l, around))
    decreases cs
  {
    var a := Nesting(cs, l, around);
    if l !in Labels(cs[0]) {
      NestingEnds(cfg, cs[1..], l, around);
      forall h ensures IsAround(cs, h, l) <==> IsAround(cs[1..], h, l) {
        AroundFirst(cs, h, l);
      }
    } else {
      forall h ensures !IsAround(cs[1..], h, l) {
        if IsAround(cs[1..], h, l) {
          AroundIsKnown(cs[1..], h, l);
        }
      }
      forall h ensures IsAround(cs, h, l) <==> AroundIn(cs[0], h, l) {
        AroundInOne(cfg, cs, l, h);
      }
      if cs[0].Cycle? && l != cs[0].components[0].vertex {
        var inner := cs[0].components;
        CycleLabels(inner);
        NestingInside(cfg, cs, l, around);
        NestingEnds(cfg, inner[1..], l, [inner[0].vertex] + around);
        EndsFurther(a, inner[0].vertex, around);
      }
    }
  }

  ghost predicate AroundIn(c: Component, h: Label, l: Label) {
    && c.Cycle? && c.components != [] && c.components[0].Vertex? && l != c.components[0].vertex
    && (h == c.components[0].vertex || IsAround(c.components[1..], h, l))
  }

  lemma HeadNotAround(cs: seq<Component>)
    requires cs != [] && cs[0].Vertex? && cs[0].vertex !in AllLabels(cs[1..])
    ensures forall l :: !IsAround(cs[1..], cs[0].vertex, l)
  {
    forall l ensures !IsAround(cs[1..], cs[0].vertex, l) {
      if IsAround(cs[1..], cs[0].vertex, l) {
        AroundIsKnown(cs[1..], cs[0].vertex, l);
      }
    }
  }

  /** What is around labels of one component. */
  lemma AroundInOne(cfg: Cfg, cs: seq<Component>, l: Label, h: Label)
    requires cs != [] && WellFormedSequence(cfg, cs) && l in Labels(cs[0])
    ensures IsAround(cs, h, l) <==> AroundIn(cs[0], h, l)
  {
    AroundFirst(cs, h, l);
    if IsAround(cs[1..], h, l) {
      AroundIsKnown(cs[1..], h, l);
    }
    if cs[0].Cycle? {
      CycleLabels(cs[0].components);
      AroundFirst(cs[0].components, h, l);
    }
  }

  ghost predicate DeepAs(cs: seq<Component>, a: Label, b: Label) {
    forall h :: IsAround(cs, h, b) ==> IsAround(cs, h, a)
  }

  lemma EndsAgree(a: seq<Label>, b: seq<Label>, k: nat)
    requires k < |b|
    ensures EndsWith(a, b) ==> a[|a| - k - 1] == b[|b| - k - 1]
  {
    assert EndsWith(a, b) ==> b[|b| - k - 1] == a[|a| - |b|..][|b| - k - 1];
  }

  lemma InnerCompare(cfg: Cfg, cs: seq<Component>, a: Label, b: Label)
    requires cs != [] && WellFormedSequence(cfg, cs) && WellFormed(cfg, cs[0]) && cs[0].Cycle?
    requires a in Labels(cs[0]) && b in Labels(cs[0])
    requires a != cs[0].components[0].vertex && b != cs[0].components[0].vertex
    ensures DeepAs(cs, a, b) <==> DeepAs(cs[0].components[1..], a, b)
  {
    var body := cs[0].components[1..];
    HeadNotAround(cs[0].components);
    forall h
      ensures IsAround(cs, h, a) <==> h == cs[0].components[0].vertex || IsAround(body, h, a)
      ensures IsAround(cs, h, b) <==> h == cs[0].components[0].vertex || IsAround(body, h, b)
    {
      AroundInOne(cfg, cs, a, h);
      AroundInOne(cfg, cs, b, h);
    }
  }

  /** Labels that are in no common cycle. */
  lemma ApartCompare(cfg: Cfg, cs: seq<Component>, a: Label, b: Label, around: seq<Label>)
    requires WellFormedSequence(cfg, cs) && a in AllLabels(cs) && b in AllLabels(cs)
    requires forall h :: !(IsAround(cs, h, a) && IsAround(cs, h, b))
    ensures EndsWith(Nesting(cs, a, around), Nesting(cs, b, around)) <==> DeepAs(cs, a, b)
  {
    NestingEnds(cfg, cs, a, around);
    NestingEnds(cfg, cs, b, around);
    TopsCompare(cs, a, b, Nesting(cs, a, around), Nesting(cs, b, around), around);
  }

  lemma TopsCompare(cs: seq<Component>, a: Label, b: Label, na: seq<Label>, nb: seq<Label>, around: seq<Label>)
    requires Continues(cs, a, around, na) && Continues(cs, b, around, nb)
    requires forall h :: !(IsAround(cs, h, a) && IsAround(cs, h, b))
    ensures EndsWith(na, nb) <==> DeepAs(cs, a, b)
  {
    if |nb| > |around| {
      EndsAgree(na, nb, |around|);
    } else {
      assert nb == around;
    }
  }

  lemma NothingAroundBoth(cfg: Cfg, cs: seq<Component>, a: Label, b: Label)
    requires cs != [] && WellFormedSequence(cfg, cs) && a in AllLabels(cs) && b in AllLabels(cs)
    requires (a in Labels(cs[0])) != (b in Labels(cs[0]))
    ensures forall h :: !(IsAround(cs, h, a) && IsAround(cs, h, b))
  {
    forall h ensures !(IsAround(cs, h, a) && IsAround(cs, h, b)) {
      AroundApart(cfg, cs, a, b, h);
    }
  }

  lemma AroundApart(cfg: Cfg, cs: seq<Component>, a: Label, b: Label, h: Label)
    requires cs != [] && WellFormedSequence(cfg, cs) && a in AllLabels(cs) && b in AllLabels(cs)
    requires (a in Labels(cs[0])) != (b in Labels(cs[0]))
    ensures !(IsAround(cs, h, a) && IsAround(cs, h, b))
  {
    var first, other := if a in Labels(cs[0]) then a else b, if a in Labels(cs[0]) then b else a;
    AroundInOne(cfg, cs, first, h);
    AroundFirst(cs, h, other);
    if IsAround(cs[1..], h, other) {
      AroundIsKnown(cs[1..], h, other);
    }
    if IsAround(cs, h, first) {
      CycleLabels(cs[0].components);
      if h != cs[0].components[0].vertex {
        AroundIsKnown(cs[0].components[1..], h, first);
      }
    }
  }

  /** One nesting ends with the other exactly if the heads around one label are around the other. */
  lemma {:induction false} NestingCompare(cfg: Cfg, cs: seq<Component>, a: Label, b: Label, around: seq<Label>)
    requires WellFormedSequence(cfg, cs) && a in AllLabels(cs) && b in AllLabels(cs)
    ensures EndsWith(Nesting(cs, a, around), Nesting(cs, b, around)) <==> DeepAs(cs, a, b)
    decreases cs
  {
    if (a in Labels(cs[0])) != (b in Labels(cs[0])) {
      NothingAroundBoth(cfg, cs, a, b);
      ApartCompare(cfg, cs, a, b, around);
    } else if a !in Labels(cs[0]) {
      NestingCompare(cfg, cs[1..], a, b, around);
      forall h ensures IsAround(cs, h, a) == IsAround(cs[1..], h, a) && IsAround(cs, h, b) == IsAround(cs[1..], h, b) {
        AroundFirst(cs, h, a);
        AroundFirst(cs, h, b);
      }
    } else if cs[0].Cycle? && a != cs[0].components[0].vertex && b != cs[0].components[0].vertex {
      var inner := cs[0].components;
      CycleLabels(inner);
      NestingInside(cfg, cs, a, around);
      NestingInside(cfg, cs, b, around);
      NestingCompare(cfg, inner[1..], a, b, [inner[0].vertex] + around);
      InnerCompare(cfg, cs, a, b);
    } else {
      forall h ensures !(IsAround(cs, h, a) && IsAround(cs, h, b)) {
        AroundInOne(cfg, cs, a, h);
        AroundInOne(cfg, cs, b, h);
      }
      ApartCompare(cfg, cs, a, b, around);
    }
  }

  /** So a label is strictly nested deeper than another exactly if all heads around the other are
      around it, and one more. */
  lemma NestedIff(cfg: Cfg, cs: seq<Component>, a: Label, b: Label)
    requires WellFormedSequence(cfg, cs) && a in AllLabels(cs) && b in AllLabels(cs)
    ensures StrictlyNestedIn(Nesting(cs, a, []), Nesting(cs, b, [])) <==> DeepAs(cs, a, b) && !DeepAs(cs, b, a)
  {
    NestingCompare(cfg, cs, a, b, []);
    NestingCompare(cfg, cs, b, a, []);
  }
}
