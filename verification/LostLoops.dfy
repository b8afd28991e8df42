/** Loops in local functions: no function with a loop is walked along its edges, and what a copy of
    it lacks. */
module LostLoops {
  import opened AsmSyntax
  import opened ControlFlowGraph
  import opened CalleeWalk
  import opened InlinedFrame
  import opened PrepareCfg

  // ----- loops and walks -----

  lemma {:induction false} PathStays(g: Cfg, entry: Label, order: seq<Label>, p: Path)
    requires IsWalk(g, entry, order) && IsPath(g, p) && p.First() in order && p.at != EXIT
    requires forall y :: !g.Edge(EXIT, y)
    ensures p.at in order
  {
    if p.Step? {
      PathStays(g, entry, order, p.before);
      assert !Ahead(g, order, p.at);
    }
  }

  lemma {:induction false} PathAscends(g: Cfg, entry: Label, order: seq<Label>, p: Path, i: nat, j: nat)
    requires IsWalk(g, entry, order) && Topological(g, order) && IsPath(g, p) && (forall y :: !g.Edge(EXIT, y))
    requires i < |order| && j < |order| && p.First() == order[i] && p.at == order[j]
    requires entry != EXIT
    ensures i <= j
  {
    if p.From? {
      WalkedApart(g, entry, order, i, j);
    } else {
      PathStays(g, entry, order, p.before);
      var k :| 0 <= k < |order| && order[k] == p.before.at;
      PathAscends(g, entry, order, p.before, i, k);
    }
  }

  /** Whatever the layout: a function with a loop through two labels is not walked along its
      edges, so that an edge of the function is missing in every copy of it. */
  lemma LoopIsNotTopological(g: Cfg, entry: Label, order: seq<Label>, there: Path, back: Path)
    requires g.Valid() && IsWalk(g, entry, order) && entry != EXIT
    requires IsPath(g, there) && IsPath(g, back) && there.First() in order
    requires back.First() == there.at && back.at == there.First() && there.at != there.First()
    ensures !Topological(g, order)
  {
    assert there.at != EXIT by {
      if there.at == EXIT {
        StuckAtExit(g, back);
      }
    }
    PathStays(g, entry, order, there);
    var i :| 0 <= i < |order| && order[i] == there.First();
    var j :| 0 <= j < |order| && order[j] == there.at;
    if Topological(g, order) {
      PathAscends(g, entry, order, there, i, j);
      PathAscends(g, entry, order, back, j, i);
    }
  }

  lemma {:induction false} StuckAtExit(g: Cfg, p: Path)
    requires g.Valid() && IsPath(g, p) && p.First() == EXIT
    ensures p.at == EXIT
  {
    if p.Step? {
      StuckAtExit(g, p.before);
    }
  }

  /** A function walked along its edges, without jumps of a label to itself, rediscovers nothing,
      so that its frame is always built. */
  lemma TopologicalNeverRediscovers(g: Cfg, entry: Label, order: seq<Label>)
    requires Topological(g, order) && forall l :: l in order ==> !g.Edge(l, l)
    ensures !Rediscovers(g, entry, order)
  {
  }

  /** A label whose only successor was walked before is a dead end in the frame. */
  lemma DeadEnd(
    base: Cfg, g: Cfg, exitTo: Label, prefix: string, order: seq<Label>, i: nat, j: nat)
    requires EdgesCopied(base, g, exitTo, prefix, order) && j < i < |order| && order[j] != EXIT
    requires base.Edge(order[i], order[j]) && forall x :: base.Edge(order[i], x) ==> x == order[j]
    ensures forall y :: !g.Edge(Clone(order[i], prefix), y)
  {
    assert !g.Edge(Clone(order[i], prefix), Clone(order[j], prefix));
  }
}
