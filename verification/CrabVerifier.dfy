/** The verdict (src/crab_verifier.cpp). */
module CrabVerifier {
  import opened AsmSyntax
  import opened ControlFlowGraph
  import opened AbstractDomain
  import opened AnalysisTable
  import opened FwdAnalyzer

  /** At every label the analysis reaches, no assertion raises a warning. */
  ghost predicate NoWarnings<A, S>(p: Problem<A, S>, inv: Table<A>)
    requires inv.Keys <= p.cfg.instructions.Keys
  {
    forall l, q :: l in inv && !p.d.isBottom(inv[l].pre) && q in p.cfg.instructions[l].preconditions ==>
                     p.d.check(inv[l].pre, q) == []
  }

  /** Invariants::verified */
  method Verified<A, S>(p: Problem<A, S>, inv: Table<A>) returns (verified: bool)
    requires inv.Keys <= p.cfg.instructions.Keys
    ensures verified <==> NoWarnings(p, inv)
  {
    var rest := inv.Keys;
    while rest != {}
      invariant rest <= inv.Keys
      invariant forall l, q :: l in inv && l !in rest && !p.d.isBottom(inv[l].pre)
                               && q in p.cfg.instructions[l].preconditions ==>
                                 p.d.check(inv[l].pre, q) == []
      decreases rest
    {
      var l :| l in rest;
      if !p.d.isBottom(inv[l].pre) {
        var assertions := p.cfg.instructions[l].preconditions;
        for k := 0 to |assertions|
          invariant forall j :: 0 <= j < k ==> p.d.check(inv[l].pre, assertions[j]) == []
        {
          if p.d.check(inv[l].pre, assertions[k]) != [] {
            assert assertions[k] in assertions;
            return false;
          }
        }
      }
      rest := rest - {l};
    }
    return true;
  }

  /** The messages at one label, in the order of its assertions. */
  function WarningsAt<A>(d: Domain<A>, pre: A, assertions: seq<Assertion>): seq<string> {
    if assertions == [] then []
    else d.check(pre, assertions[0]) + WarningsAt(d, pre, assertions[1..])
  }

  lemma {:induction false} WarningsAtEmpty<A>(d: Domain<A>, pre: A, assertions: seq<Assertion>)
    ensures WarningsAt(d, pre, assertions) == [] <==> forall q :: q in assertions ==> d.check(pre, q) == []
  {
    if assertions != [] {
      WarningsAtEmpty(d, pre, assertions[1..]);
      assert forall q :: q in assertions <==> q == assertions[0] || q in assertions[1..];
    }
  }

  function Warnings<A, S>(p: Problem<A, S>, inv: Table<A>, l: Label): seq<string>
    requires l in inv && l in p.cfg.instructions
  {
    if p.d.isBottom(inv[l].pre) then [] else WarningsAt(p.d, inv[l].pre, p.cfg.instructions[l].preconditions)
  }

  /** An assumption that no state passes, at a label that is reached. */
  predicate DeadEnd<A, S>(p: Problem<A, S>, inv: Table<A>, l: Label)
    requires l in inv && l in p.cfg.instructions
  {
    !p.d.isBottom(inv[l].pre) && p.cfg.instructions[l].cmd.Assume? && p.d.isBottom(inv[l].post)
  }

  /** Invariants::check_assertions: all messages, label by label, and the assumptions behind
      which nothing is reached. No message is what verified calls verified. */
  method CheckAssertions<A, S>(p: Problem<A, S>, inv: Table<A>)
    returns (warnings: map<Label, seq<string>>, unreachable: set<Label>)
    requires inv.Keys <= p.cfg.instructions.Keys
    ensures forall l :: l in warnings <==> l in inv && Warnings(p, inv, l) != []
    ensures forall l :: l in warnings ==> warnings[l] == Warnings(p, inv, l)
    ensures forall l :: l in unreachable <==> l in inv && DeadEnd(p, inv, l)
    ensures warnings == map[] <==> NoWarnings(p, inv)
  {
    warnings, unreachable := map[], {};
    var rest := inv.Keys;
    while rest != {}
      invariant rest <= inv.Keys
      invariant forall l :: l in warnings <==> l in inv && l !in rest && Warnings(p, inv, l) != []
      invariant forall l :: l in warnings ==> warnings[l] == Warnings(p, inv, l)
      invariant forall l :: l in unreachable <==> l in inv && l !in rest && DeadEnd(p, inv, l)
      decreases rest
    {
      var l :| l in rest;
      rest := rest - {l};
      if !p.d.isBottom(inv[l].pre) {
        var messages := Messages(p.d, inv[l].pre, p.cfg.instructions[l].preconditions);
        if messages != [] {
          warnings := warnings[l := messages];
        }
        if p.cfg.instructions[l].cmd.Assume? && p.d.isBottom(inv[l].post) {
          unreachable := unreachable + {l};
        }
      }
    }
    NoMessages(p, inv);
    assert warnings == map[] <==> forall l :: l in inv ==> l !in warnings;
  }

  /** The inner loop of check_assertions. */
  method Messages<A>(d: Domain<A>, pre: A, assertions: seq<Assertion>) returns (messages: seq<string>)
    ensures messages == WarningsAt(d, pre, assertions)
  {
    messages := [];
    for k := 0 to |assertions|
      invariant messages + WarningsAt(d, pre, assertions[k..]) == WarningsAt(d, pre, assertions)
    {
      assert assertions[k..][1..] == assertions[k + 1..];
      messages := messages + d.check(pre, assertions[k]);
    }
  }

  lemma NoMessages<A, S>(p: Problem<A, S>, inv: Table<A>)
    requires inv.Keys <= p.cfg.instructions.Keys
    ensures NoWarnings(p, inv) <==> forall l :: l in inv ==> Warnings(p, inv, l) == []
  {
    forall l | l in inv
      ensures Warnings(p, inv, l) == [] <==>
                (!p.d.isBottom(inv[l].pre) ==>
                   forall q :: q in p.cfg.instructions[l].preconditions ==> p.d.check(inv[l].pre, q) == [])
    {
      WarningsAtEmpty(p.d, inv[l].pre, p.cfg.instructions[l].preconditions);
    }
  }

  /** What is reported as unreachable is: no run gets past such an assumption. */
  lemma ReportedCodeIsDead<A(!new), S(!new)>(p: Problem<A, S>, e: A, inv: Table<A>, r: Run<S>, t: S)
    requires p.cfg.Valid() && inv.Keys == p.cfg.neighbours.Keys && SoundLattice(p.d, p.m)
    requires forall r' :: ProgramRun(p, e, r') ==> Covered(p, inv, r')
    requires ProgramRun(p, e, r) && r.At() in inv && r.At() in p.cfg.instructions && DeadEnd(p, inv, r.At())
    ensures !Executes(p, r.At(), r.state, t)
  {
    assert Covered(p, inv, r);
  }

  /** Any run of the program, whether or not its assertions hold on the way. */
  ghost predicate UnfilteredRun<A, S>(p: Problem<A, S>, e: A, r: Run<S>) {
    CfgRun(p.cfg, p.m.step, s => p.m.gamma(e, s), r)
  }

  /** Verdict soundness, by the first violation: as long as no assertion failed earlier
      in the run, assuming the assertions removed nothing from it. */
  lemma {:induction false} VerdictSound<A(!new), S(!new)>(p: Problem<A, S>, e: A, inv: Table<A>, r: Run<S>)
    requires p.cfg.Valid() && inv.Keys == p.cfg.neighbours.Keys
    requires SoundLattice(p.d, p.m) && SoundTransformer(p.d, p.m)
    requires forall r' :: ProgramRun(p, e, r') ==> Covered(p, inv, r')
    requires NoWarnings(p, inv)
    requires UnfilteredRun(p, e, r)
    ensures ProgramRun(p, e, r) && AssertionsHold(p, r.At(), r.state)
  {
    if r.Then? {
      VerdictSound(p, e, inv, r.before);
    }
    assert Covered(p, inv, r);
    var pre := inv[r.At()].pre;
    assert !p.d.isBottom(pre);
    forall q | q in p.cfg.instructions[r.At()].preconditions
      ensures p.m.holds(q, r.state)
    {
      assert p.d.check(pre, q) == [];
    }
  }

  /** analyze followed by verified. The verdict is exactly that the table has no warning, and a
      program that passes violates no assertion at any label of any run, for any widening and
      with or without assume_assertions. */
  method AnalyzeAndVerify<A(!new), S(!new)>(
    p: Problem<A, S>, entryInv: A, checkForTermination: bool, limit: Option<nat>, ghost rank: A -> nat)
    returns (verified: bool, ok: bool, ghost inv: Table<A>)
    requires p.cfg.Valid() && Wto.ValidWto(p.cfg, p.wto)
    requires SoundLattice(p.d, p.m) && SoundTransformer(p.d, p.m)
    requires limit.None? ==> RankedWidening(p.d, rank)
    ensures (limit.None? ==> ok) && (verified ==> ok)
    ensures ok ==> IsAnalysis(p, EntryInvariant(p, entryInv, checkForTermination), inv)
    ensures ok ==> (verified <==> NoWarnings(p, inv))
    ensures verified ==> IsSafe(p, EntryInvariant(p, entryInv, checkForTermination))
  {
    var table;
    table, ok := RunForwardAnalyzer(p, entryInv, checkForTermination, limit, rank);
    inv := table;
    if !ok {
      return false, ok, inv;
    }
    verified := Verified(p, table);
    if verified {
      VerdictIsSafe(p, EntryInvariant(p, entryInv, checkForTermination), table);
    }
  }

  /** No run violates an assertion. */
  ghost predicate IsSafe<A, S(!new)>(p: Problem<A, S>, e: A) {
    forall r :: UnfilteredRun(p, e, r) ==> r.At() in p.cfg.instructions && AssertionsHold(p, r.At(), r.state)
  }

  lemma VerdictIsSafe<A(!new), S(!new)>(p: Problem<A, S>, e: A, inv: Table<A>)
    requires p.cfg.Valid() && SoundLattice(p.d, p.m) && SoundTransformer(p.d, p.m)
    requires IsAnalysis(p, e, inv) && NoWarnings(p, inv)
    ensures IsSafe(p, e)
  {
    forall r | UnfilteredRun(p, e, r)
      ensures r.At() in p.cfg.instructions && AssertionsHold(p, r.At(), r.state)
    {
      VerdictSound(p, e, inv, r);
    }
  }
}
