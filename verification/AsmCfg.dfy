/** The graph builder (src/asm_cfg.cpp). */
module AsmCfg {
  import opened AsmSyntax
  import opened ControlFlowGraph

  datatype CfgError =
    | SameLabel | LabelExists | UnknownLabel | NotSingleChild | FailedAssert
    | EmptySequence | FallthroughInLast | UndefinedTarget | IllegalRecursion | TooManyFrames

  /** The outcome of a builder step; a failure stands for an exception. */
  datatype Status = Done | Failed(error: CfgError) {
    predicate IsFailure() {
      Failed?
    }

    function PropagateFailure(): Status
      requires IsFailure()
    {
      this
    }
  }

  // ----- the graph after one step -----

  function WithNode(cfg: Cfg, l: Label, cmd: Instruction): Cfg {
    Cfg(cfg.neighbours[l := NO_NEIGHBOURS], cfg.instructions[l := GuardedInstruction(cmd, [])])
  }

  function WithEdge(cfg: Cfg, a: Label, b: Label): Cfg
    requires a in cfg.neighbours && b in cfg.neighbours
  {
    var n := cfg.neighbours[a := Adjacent(cfg.neighbours[a].parents, cfg.neighbours[a].children + {b})];
    cfg.(neighbours := n[b := Adjacent(n[b].parents + {a}, n[b].children)])
  }

  function WithoutEdge(cfg: Cfg, a: Label, b: Label): Cfg
    requires a in cfg.neighbours && b in cfg.neighbours
  {
    var n := cfg.neighbours[a := Adjacent(cfg.neighbours[a].parents, cfg.neighbours[a].children - {b})];
    cfg.(neighbours := n[b := Adjacent(n[b].parents - {a}, n[b].children)])
  }

  /** The parents' side of an edge alone. */
  function EraseParent(cfg: Cfg, l: Label, parent: Label): Cfg
    requires l in cfg.neighbours
  {
    cfg.(neighbours := cfg.neighbours[l := Adjacent(cfg.neighbours[l].parents - {parent}, cfg.neighbours[l].children)])
  }

  lemma WithNodeValid(cfg: Cfg, l: Label, cmd: Instruction)
    requires cfg.Valid() && l !in cfg.neighbours
    ensures var g := WithNode(cfg, l, cmd);
            g.Valid() && forall x, y :: g.Edge(x, y) <==> cfg.Edge(x, y)
  {
    var g := WithNode(cfg, l, cmd);
    forall x, y
      ensures g.Edge(x, y) <==> cfg.Edge(x, y)
      ensures g.HasParent(y, x) <==> cfg.HasParent(y, x)
    {
    }
  }

  lemma WithEdgeValid(cfg: Cfg, a: Label, b: Label)
    requires cfg.Valid() && a in cfg.neighbours && b in cfg.neighbours && b != ENTRY && a != EXIT
    ensures var g := WithEdge(cfg, a, b);
            g.Valid() && forall x, y :: g.Edge(x, y) <==> cfg.Edge(x, y) || (x == a && y == b)
  {
    var g := WithEdge(cfg, a, b);
    forall x, y
      ensures g.Edge(x, y) <==> cfg.Edge(x, y) || (x == a && y == b)
      ensures g.HasParent(y, x) <==> cfg.HasParent(y, x) || (x == a && y == b)
    {
    }
  }

  lemma WithoutEdgeValid(cfg: Cfg, a: Label, b: Label)
    requires cfg.Valid() && a in cfg.neighbours && b in cfg.neighbours
    ensures var g := WithoutEdge(cfg, a, b);
            g.Valid() && forall x, y :: g.Edge(x, y) <==> cfg.Edge(x, y) && !(x == a && y == b)
  {
    var g := WithoutEdge(cfg, a, b);
    forall x, y
      ensures g.Edge(x, y) <==> cfg.Edge(x, y) && !(x == a && y == b)
      ensures g.HasParent(y, x) <==> cfg.HasParent(y, x) && !(x == a && y == b)
    {
    }
  }

  /** The edges after a splice: out of prev only to the new node, from there to where
      prev led, and all others as before. */
  ghost predicate SplicedEdge(cfg: Cfg, prev: Label, node: Label, x: Label, y: Label)
    requires prev in cfg.neighbours
  {
    if x == node then cfg.Edge(prev, y)
    else if x == prev then y == node && cfg.neighbours[prev].children != {}
    else cfg.Edge(x, y)
  }

  // ----- the builder -----

  class Builder {
    var cfg: Cfg

    constructor ()
      ensures cfg.Valid() && cfg.neighbours == map[ENTRY := NO_NEIGHBOURS, EXIT := NO_NEIGHBOURS]
      ensures cfg.instructions ==
              map[ENTRY := GuardedInstruction(Undefined(0), []), EXIT := GuardedInstruction(Undefined(0), [])]
    {
      cfg := Cfg(map[ENTRY := NO_NEIGHBOURS, EXIT := NO_NEIGHBOURS],
                 map[ENTRY := GuardedInstruction(Undefined(0), []), EXIT := GuardedInstruction(Undefined(0), [])]);
    }

    method Insert(l: Label, cmd: Instruction) returns (st: Status)
      requires cfg.Valid()
      modifies this
      ensures st.Done? <==> l !in old(cfg).neighbours
      ensures cfg.Valid() && cfg == if st.Done? then WithNode(old(cfg), l, cmd) else old(cfg)
    {
      if l in cfg.neighbours {
        return Failed(LabelExists);
      }
      WithNodeValid(cfg, l, cmd);
      cfg := WithNode(cfg, l, cmd);
      return Done;
    }

    method AddChild(a: Label, b: Label) returns (st: Status)
      requires cfg.Valid()
      modifies this
      ensures st.Done? <==> a in old(cfg).neighbours && b in old(cfg).neighbours && b != ENTRY && a != EXIT
      ensures cfg.Valid() && cfg == if st.Done? then WithEdge(old(cfg), a, b) else old(cfg)
    {
      if b == ENTRY || a == EXIT {
        return Failed(FailedAssert);
      }
      if a !in cfg.neighbours || b !in cfg.neighbours {
        return Failed(UnknownLabel);
      }
      WithEdgeValid(cfg, a, b);
      cfg := WithEdge(cfg, a, b);
      return Done;
    }

    method RemoveChild(a: Label, b: Label) returns (st: Status)
      requires cfg.Valid()
      modifies this
      ensures st.Done? <==> a in old(cfg).neighbours && b in old(cfg).neighbours
      ensures cfg.Valid() && cfg == if st.Done? then WithoutEdge(old(cfg), a, b) else old(cfg)
    {
      if a !in cfg.neighbours || b !in cfg.neighbours {
        return Failed(UnknownLabel);
      }
      WithoutEdgeValid(cfg, a, b);
      cfg := WithoutEdge(cfg, a, b);
      return Done;
    }

    method InsertJump(from: Label, to: Label, cmd: Instruction) returns (st: Status)
      requires cfg.Valid()
      modifies this
      ensures cfg.Valid()
      ensures var j := Label.MakeJump(from, to);
              st.Done? <==> j !in old(cfg).neighbours && from in WithNode(old(cfg), j, cmd).neighbours
                            && to in WithNode(old(cfg), j, cmd).neighbours && to != ENTRY && from != EXIT
      ensures var j := Label.MakeJump(from, to);
              st.Done? && from in old(cfg).neighbours && to in old(cfg).neighbours ==>
                cfg == WithEdge(WithEdge(WithNode(old(cfg), j, cmd), from, j), j, to)
    {
      var j := Label.MakeJump(from, to);
      :- Insert(j, cmd);
      :- AddChild(from, j);
      :- AddChild(j, to);
      return Done;
    }

    /** Every edge out of prev is removed, one child after the other. */
    method Detach(prev: Label) returns (children: set<Label>)
      requires cfg.Valid() && prev in cfg.neighbours
      modifies this
      ensures children == old(cfg).neighbours[prev].children
      ensures cfg.Valid() && cfg.neighbours.Keys == old(cfg).neighbours.Keys
      ensures cfg.instructions == old(cfg).instructions
      ensures forall x, y :: cfg.Edge(x, y) <==> old(cfg).Edge(x, y) && x != prev
    {
      ghost var before := cfg;
      children := cfg.neighbours[prev].children;
      ChildrenKnown(cfg, prev);
      cfg := cfg.(neighbours := cfg.neighbours[prev := Adjacent(cfg.neighbours[prev].parents, {})]);
      var rest := children;
      while rest != {}
        invariant rest <= children
        invariant cfg.neighbours.Keys == before.neighbours.Keys && cfg.instructions == before.instructions
        invariant forall x, y :: cfg.Edge(x, y) <==> before.Edge(x, y) && x != prev
        invariant forall x, y :: cfg.HasParent(y, x) <==> before.HasParent(y, x) && !(x == prev && y in children - rest)
        decreases rest
      {
        var next :| next in rest;
        cfg := EraseParent(cfg, next, prev);
        rest := rest - {next};
      }
      assert forall y :: before.HasParent(y, prev) <==> before.Edge(prev, y);
    }

    method InsertAfter(prev: Label, node: Label, cmd: Instruction) returns (st: Status)
      requires cfg.Valid()
      modifies this
      ensures st.Done? <==> prev != node && prev in old(cfg).neighbours && node !in old(cfg).neighbours
      ensures st.Done? ==>
                && cfg.Valid() && cfg.neighbours.Keys == old(cfg).neighbours.Keys + {node}
                && cfg.instructions == old(cfg).instructions[node := GuardedInstruction(cmd, [])]
                && forall x, y :: cfg.Edge(x, y) <==> SplicedEdge(old(cfg), prev, node, x, y)
    {
      if prev == node {
        return Failed(SameLabel);
      }
      if prev !in cfg.neighbours {
        return Failed(UnknownLabel);
      }
      ghost var before := cfg;
      ChildrenKnown(cfg, prev);
      var children := Detach(prev);
      ghost var detached := cfg;
      :- Insert(node, cmd);
      WithNodeValid(detached, node, cmd);
      var rest := children;
      while rest != {}
        invariant rest <= children
        invariant cfg.Valid() && cfg.neighbours.Keys == before.neighbours.Keys + {node}
        invariant cfg.instructions == before.instructions[node := GuardedInstruction(cmd, [])]
        invariant forall x, y :: cfg.Edge(x, y) <==>
                    if x == prev then y == node && rest != children
                    else if x == node then y in children - rest
                    else before.Edge(x, y)
        decreases rest
      {
        var next :| next in rest;
        assert before.Edge(prev, next);
        WithEdgeValid(cfg, prev, node);
        st := AddChild(prev, node);
        WithEdgeValid(cfg, node, next);
        st := AddChild(node, next);
        rest := rest - {next};
      }
      return Done;
    }
  }
}
