/** The control-flow graph read by the analyzer (src/crab/cfg.hpp). */
module ControlFlowGraph {
  import opened AsmSyntax

  datatype Adjacent = Adjacent(parents: set<Label>, children: set<Label>)

  const NO_NEIGHBOURS: Adjacent := Adjacent({}, {})

  datatype Cfg = Cfg(neighbours: map<Label, Adjacent>, instructions: map<Label, GuardedInstruction>) {

    /** Parents and children are exact inverses, every label carries an instruction,
        nothing enters the entry and nothing leaves the exit. */
    ghost predicate Valid() {
      && neighbours.Keys == instructions.Keys
      && ENTRY in neighbours && EXIT in neighbours
      && (forall a, b :: Edge(a, b) <==> HasParent(b, a))
      && (forall a :: !Edge(a, ENTRY))
      && (forall b :: !Edge(EXIT, b))
    }

    ghost predicate Edge(a: Label, b: Label) {
      a in neighbours && b in neighbours[a].children
    }

    ghost predicate HasParent(b: Label, a: Label) {
      b in neighbours && a in neighbours[b].parents
    }
  }

  lemma ChildrenKnown(cfg: Cfg, l: Label)
    requires cfg.Valid() && l in cfg.neighbours
    ensures cfg.neighbours[l].children <= cfg.neighbours.Keys - {ENTRY}
    ensures cfg.neighbours[l].parents <= cfg.neighbours.Keys
  {
    forall n | n in cfg.neighbours[l].children
      ensures n in cfg.neighbours.Keys - {ENTRY}
    {
      assert cfg.Edge(l, n) <==> cfg.HasParent(n, l);
    }
    forall n | n in cfg.neighbours[l].parents
      ensures n in cfg.neighbours.Keys
    {
      assert cfg.Edge(n, l) <==> cfg.HasParent(l, n);
    }
  }

  /** A run is a chain of visits, each a label with the state in front of its
      instruction. It begins at the entry of the program or, when only a part of the
      graph is looked at, where an edge from `via` enters that part. */
  datatype Run<S> =
    | AtEntry(state: S)
    | Enter(via: Label, node: Label, state: S)
    | Then(before: Run<S>, node: Label, state: S)
  {
    function At(): Label {
      if AtEntry? then ENTRY else node
    }
  }

  /** A run of the whole graph: from the entry, along edges, executing each instruction. */
  ghost predicate CfgRun<S>(cfg: Cfg, step: (Instruction, S, S) -> bool, init: S -> bool, r: Run<S>) {
    match r
    case AtEntry(s) => init(s)
    case Enter(_, _, _) => false
    case Then(r0, l, s) =>
      && CfgRun(cfg, step, init, r0)
      && cfg.Edge(r0.At(), l)
      && r0.At() in cfg.instructions
      && step(cfg.instructions[r0.At()].cmd, r0.state, s)
  }
}
