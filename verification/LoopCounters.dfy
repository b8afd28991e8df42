/** Loop counters (prepare_cfg in src/asm_cfg.cpp): when they bound every run. */
module LoopCounters {
  import opened AsmSyntax
  import opened ControlFlowGraph

  // ----- walks -----

  ghost predicate IsWalk(cfg: Cfg, w: seq<Label>) {
    && w != []
    && (forall i :: 0 <= i < |w| ==> w[i] in cfg.neighbours)
    && (forall i :: 0 <= i < |w| - 1 ==> cfg.Edge(w[i], w[i + 1]))
  }

  ghost predicate Inside(w: seq<Label>, within: set<Label>) {
    forall i :: 0 <= i < |w| ==> w[i] in within
  }

  ghost predicate IsCycle(cfg: Cfg, w: seq<Label>) {
    IsWalk(cfg, w) && |w| > 1 && w[0] == w[|w| - 1]
  }

  /** A walk of at least one step that does not leave a set. */
  ghost predicate LeadsWithin(cfg: Cfg, a: Label, b: Label, within: set<Label>) {
    exists w :: IsWalk(cfg, w) && |w| > 1 && w[0] == a && w[|w| - 1] == b && Inside(w, within)
  }

  /** A walk from the entry ends at the label. */
  ghost predicate ReachedBy(cfg: Cfg, w: seq<Label>, l: Label) {
    IsWalk(cfg, w) && w[0] == ENTRY && w[|w| - 1] == l
  }

  ghost predicate AllReachable(cfg: Cfg, labels: set<Label>) {
    forall l :: l in labels ==> exists w :: ReachedBy(cfg, w, l)
  }

  function Count(w: seq<Label>, l: Label): nat {
    if w == [] then 0 else (if w[0] == l then 1 else 0) + Count(w[1..], l)
  }

  /** The number of visits to counter nodes. */
  function Hits(w: seq<Label>, counters: set<Label>): nat {
    if w == [] then 0 else (if w[0] in counters then 1 else 0) + Hits(w[1..], counters)
  }

  ghost predicate Respects(w: seq<Label>, counters: set<Label>, k: nat) {
    forall c :: c in counters ==> Count(w, c) <= k
  }

  ghost predicate Avoids(w: seq<Label>, counters: set<Label>) {
    forall i :: 0 <= i < |w| ==> w[i] !in counters
  }

  /** Around in a loop, back and forth: each label is reached from the head inside the loop, and
      leads back to the head inside it. */
  ghost predicate IsLoop(cfg: Cfg, head: Label, loop: set<Label>) {
    && (forall l {:trigger LeadsWithin(cfg, head, l, loop)} :: l in loop ==> LeadsWithin(cfg, head, l, loop))
    && (forall l {:trigger LeadsWithin(cfg, l, head, loop)} :: l in loop ==> LeadsWithin(cfg, l, head, loop))
  }

  /** Some way from the entry meets the loop at its head first. */
  ghost predicate EntersAt(cfg: Cfg, head: Label, loop: set<Label>) {
    exists w :: ReachedBy(cfg, w, head) && Avoids(w[..|w| - 1], loop)
  }

  /** No label recurs without a counter in between. */
  ghost predicate Progresses(w: seq<Label>, counters: set<Label>) {
    forall i, j :: 0 <= i < j < |w| && Avoids(w[i..j + 1], counters) ==> w[i] != w[j]
  }

  /** The longest walk with the given number of visits to counters: before each of them,
      and after the last, a round of all other nodes. */
  function Bound(others: nat, hits: nat): nat {
    if hits == 0 then others else others + 1 + Bound(others, hits - 1)
  }

  lemma {:induction false} BoundIs(others: nat, hits: nat)
    ensures Bound(others, hits) == (hits + 1) * (others + 1) - 1
  {
    if hits > 0 {
      BoundIs(others, hits - 1);
    }
  }

  lemma {:induction false} BoundMonotone(others: nat, h: nat, h': nat)
    requires h <= h'
    ensures Bound(others, h) <= Bound(others, h')
    decreases h'
  {
    if h < h' {
      BoundMonotone(others, h, h' - 1);
    }
  }

  ghost function Others(cfg: Cfg, counters: set<Label>): nat {
    |cfg.neighbours.Keys - counters|
  }

  /** The visits that a limit of k for each counter allows. */
  ghost function Allowance(counters: set<Label>, k: nat): nat {
    |counters| * k
  }

  lemma {:induction false} HitsSplit(w: seq<Label>, counters: set<Label>, c: Label)
    requires c in counters
    ensures Hits(w, counters) == Hits(w, counters - {c}) + Count(w, c)
  {
    if w != [] {
      HitsSplit(w[1..], counters, c);
    }
  }

  lemma {:induction false} HitsNone(w: seq<Label>)
    ensures Hits(w, {}) == 0
  {
    if w != [] {
      HitsNone(w[1..]);
    }
  }

  lemma {:induction false} HitsBounded(w: seq<Label>, counters: set<Label>, k: nat)
    requires Respects(w, counters, k)
    ensures Hits(w, counters) <= Allowance(counters, k)
    decreases counters
  {
    if counters == {} {
      HitsNone(w);
    } else {
      var c :| c in counters;
      HitsSplit(w, counters, c);
      HitsBounded(w, counters - {c}, k);
      assert |counters| * k == |counters - {c}| * k + k by {
        assert |counters| == |counters - {c}| + 1;
      }
    }
  }

  lemma {:induction false} DistinctFits(w: seq<Label>, nodes: set<Label>)
    requires forall i :: 0 <= i < |w| ==> w[i] in nodes
    requires forall i, j :: 0 <= i < j < |w| ==> w[i] != w[j]
    ensures |w| <= |nodes|
  {
    if w != [] {
      DistinctFits(w[1..], nodes - {w[0]});
    }
  }

  lemma {:induction false} FirstHit(w: seq<Label>, counters: set<Label>) returns (k: nat)
    ensures k <= |w| && Avoids(w[..k], counters)
    ensures k < |w| ==> w[k] in counters && Hits(w, counters) == 1 + Hits(w[k + 1..], counters)
  {
    if w == [] {
      k := 0;
    } else if w[0] in counters {
      k := 0;
    } else {
      var k' := FirstHit(w[1..], counters);
      k := k' + 1;
      assert w[..k] == [w[0]] + w[1..][..k'];
      if k < |w| {
        assert w[1..][k' + 1..] == w[k + 1..];
      }
    }
  }

  lemma ProgressesWithin(w: seq<Label>, counters: set<Label>, a: nat, b: nat)
    requires a <= b <= |w| && Progresses(w, counters)
    ensures Progresses(w[a..b], counters)
  {
    var v := w[a..b];
    forall i, j | 0 <= i < j < |v| && Avoids(v[i..j + 1], counters)
      ensures v[i] != v[j]
    {
      var x := w[a + i..a + j + 1];
      assert forall k :: 0 <= k < |x| ==> x[k] == v[i..j + 1][k];
      assert Avoids(x, counters);
    }
  }

  lemma FreeStretchFits(nodes: set<Label>, counters: set<Label>, w: seq<Label>)
    requires Progresses(w, counters) && Avoids(w, counters)
    requires forall i :: 0 <= i < |w| ==> w[i] in nodes
    ensures |w| <= |nodes - counters|
  {
    forall i, j | 0 <= i < j < |w|
      ensures w[i] != w[j]
    {
      assert Avoids(w[i..j + 1], counters);
    }
    DistinctFits(w, nodes - counters);
  }

  lemma PartsProgress(w: seq<Label>, counters: set<Label>, k: nat)
    requires k <= |w| && Progresses(w, counters)
    ensures Progresses(w[..k], counters) && (k < |w| ==> Progresses(w[k + 1..], counters))
  {
    assert w[0..k] == w[..k];
    ProgressesWithin(w, counters, 0, k);
    if k < |w| {
      assert w[k + 1..|w|] == w[k + 1..];
      ProgressesWithin(w, counters, k + 1, |w|);
    }
  }

  /** A walk that progresses is no longer than its visits to counters allow. */
  lemma {:induction false} ProgressBounds(nodes: set<Label>, counters: set<Label>, others: nat, w: seq<Label>)
    requires others == |nodes - counters| && Progresses(w, counters)
    requires forall i :: 0 <= i < |w| ==> w[i] in nodes
    ensures |w| <= Bound(others, Hits(w, counters))
    decreases |w|
  {
    var k := FirstHit(w, counters);
    PartsProgress(w, counters, k);
    FreeStretchFits(nodes, counters, w[..k]);
    if k < |w| {
      var rest := w[k + 1..];
      ProgressBounds(nodes, counters, others, rest);
      assert Bound(others, Hits(w, counters)) == others + 1 + Bound(others, Hits(rest, counters));
    } else {
      assert w[..k] == w;
      BoundMonotone(others, 0, Hits(w, counters));
    }
  }

  // ----- exactly when all walks are bounded -----

  /** A walk from the entry that closes a loop through no counter. */
  ghost predicate FreeLasso(cfg: Cfg, counters: set<Label>, k: nat, w: seq<Label>, i: nat) {
    && IsWalk(cfg, w) && w[0] == ENTRY && Respects(w, counters, k)
    && i + 1 < |w| && w[i] == w[|w| - 1] && Avoids(w[i..], counters)
  }

  ghost predicate NoFreeLasso(cfg: Cfg, counters: set<Label>, k: nat) {
    forall w, i :: !FreeLasso(cfg, counters, k, w, i)
  }

  ghost predicate AllBounded(cfg: Cfg, counters: set<Label>, k: nat, bound: nat) {
    forall w :: IsWalk(cfg, w) && w[0] == ENTRY && Respects(w, counters, k) ==> |w| <= bound
  }

  lemma {:induction false} CountConcat(a: seq<Label>, b: seq<Label>, l: Label)
    ensures Count(a + b, l) == Count(a, l) + Count(b, l)
  {
    if a == [] {
      assert a + b == b;
    } else {
      CountConcat(a[1..], b, l);
      assert (a + b)[1..] == a[1..] + b;
    }
  }

  lemma {:induction false} CountAvoided(w: seq<Label>, counters: set<Label>, l: Label)
    requires Avoids(w, counters) && l in counters
    ensures Count(w, l) == 0
  {
    if w != [] {
      assert w[0] !in counters;
      assert forall i :: 0 <= i < |w[1..]| ==> w[1..][i] == w[i + 1];
      CountAvoided(w[1..], counters, l);
    }
  }

  lemma PrefixRespects(w: seq<Label>, n: nat, counters: set<Label>, k: nat)
    requires n <= |w| && Respects(w, counters, k)
    ensures Respects(w[..n], counters, k)
  {
    forall c | c in counters
      ensures Count(w[..n], c) <= k
    {
      CountConcat(w[..n], w[n..], c);
      assert w[..n] + w[n..] == w;
    }
  }

  /** Without a free lasso, every walk from the entry that keeps the counters progresses. */
  lemma NoLassoProgresses(cfg: Cfg, counters: set<Label>, k: nat, w: seq<Label>)
    requires NoFreeLasso(cfg, counters, k)
    requires IsWalk(cfg, w) && w[0] == ENTRY && Respects(w, counters, k)
    ensures Progresses(w, counters)
  {
    forall i, j | 0 <= i < j < |w| && Avoids(w[i..j + 1], counters)
      ensures w[i] != w[j]
    {
      var v := w[..j + 1];
      PrefixRespects(w, j + 1, counters, k);
      assert v[i..] == w[i..j + 1];
      assert IsWalk(cfg, v);
      assert !FreeLasso(cfg, counters, k, v, i);
    }
  }

  /** A free lasso can be walked again and again. */
  lemma {:induction false} Pump(cfg: Cfg, counters: set<Label>, k: nat, w: seq<Label>, i: nat, n: nat)
    returns (long: seq<Label>)
    requires FreeLasso(cfg, counters, k, w, i)
    ensures IsWalk(cfg, long) && long[0] == ENTRY && Respects(long, counters, k)
    ensures long[|long| - 1] == w[i] && |long| >= n
  {
    if n == 0 {
      long := w;
    } else {
      var shorter := Pump(cfg, counters, k, w, i, n - 1);
      var round := w[i + 1..];
      long := shorter + round;
      forall c | c in counters
        ensures Count(long, c) <= k
      {
        CountConcat(shorter, round, c);
        assert forall j :: 0 <= j < |round| ==> round[j] == w[i..][j + 1];
        CountAvoided(round, counters, c);
      }
      forall j | 0 <= j < |long| - 1
        ensures cfg.Edge(long[j], long[j + 1])
      {
        if j == |shorter| - 1 {
          assert cfg.Edge(w[i], w[i + 1]);
        } else if j >= |shorter| {
          assert long[j] == w[i + 1 + j - |shorter|];
        }
      }
    }
  }

  lemma BoundedWithoutLasso(cfg: Cfg, counters: set<Label>, k: nat, w: seq<Label>)
    requires NoFreeLasso(cfg, counters, k)
    requires IsWalk(cfg, w) && w[0] == ENTRY && Respects(w, counters, k)
    ensures |w| <= Bound(Others(cfg, counters), Allowance(counters, k))
  {
    NoLassoProgresses(cfg, counters, k, w);
    ProgressBounds(cfg.neighbours.Keys, counters, Others(cfg, counters), w);
    HitsBounded(w, counters, k);
    BoundMonotone(Others(cfg, counters), Hits(w, counters), Allowance(counters, k));
  }

  lemma UnboundedWithLasso(cfg: Cfg, counters: set<Label>, k: nat, bound: nat)
    requires !NoFreeLasso(cfg, counters, k)
    ensures !AllBounded(cfg, counters, k, bound)
  {
    var w, i :| FreeLasso(cfg, counters, k, w, i);
    var long := Pump(cfg, counters, k, w, i, bound + 1);
  }

  /** Counters bound the walks of a graph if and only if no loop avoids them; the bound
      is then explicit. */
  lemma BoundedIffNoFreeLasso(cfg: Cfg, counters: set<Label>, k: nat)
    ensures (exists bound: nat :: AllBounded(cfg, counters, k, bound)) <==> NoFreeLasso(cfg, counters, k)
    ensures NoFreeLasso(cfg, counters, k) ==>
              AllBounded(cfg, counters, k, Bound(Others(cfg, counters), Allowance(counters, k)))
  {
    if NoFreeLasso(cfg, counters, k) {
      forall w | IsWalk(cfg, w) && w[0] == ENTRY && Respects(w, counters, k)
        ensures |w| <= Bound(Others(cfg, counters), Allowance(counters, k))
      {
        BoundedWithoutLasso(cfg, counters, k, w);
      }
      assert AllBounded(cfg, counters, k, Bound(Others(cfg, counters), Allowance(counters, k)));
    } else {
      forall bound: nat
        ensures !AllBounded(cfg, counters, k, bound)
      {
        UnboundedWithLasso(cfg, counters, k, bound);
      }
    }
  }

  // ----- counters along a run -----

  function Walk<S>(r: Run<S>): seq<Label> {
    match r
    case AtEntry(_) => [ENTRY]
    case Enter(_, l, _) => [l]
    case Then(r0, l, _) => Walk(r0) + [l]
  }

  /** The machine counts: an increment adds one to its own counter, nothing else touches
      a counter, and the loop assertion compares it with the limit. */
  ghost predicate Counts<S(!new)>(
    step: (Instruction, S, S) -> bool, holds: (Assertion, S) -> bool, counter: (S, Label) -> int)
  {
    && (forall name, s, t :: step(IncrementLoopCounter(name), s, t) ==> counter(t, name) == counter(s, name) + 1)
    && (forall i, s, t, l :: step(i, s, t) && i != IncrementLoopCounter(l) ==> counter(t, l) == counter(s, l))
    && (forall name, s :: holds(BoundedLoopCount(name), s) ==> counter(s, name) <= LOOP_LIMIT)
  }

  /** Each counter node increments a counter of its own and asserts its limit; no other
      node increments. */
  ghost predicate Instrumented(cfg: Cfg, counters: set<Label>) {
    && counters <= cfg.instructions.Keys
    && (forall c :: c in counters ==>
          && cfg.instructions[c].cmd.IncrementLoopCounter?
          && BoundedLoopCount(cfg.instructions[c].cmd.name) in cfg.instructions[c].preconditions)
    && (forall l :: l in cfg.instructions && cfg.instructions[l].cmd.IncrementLoopCounter? ==> l in counters)
    && (forall c, d :: c in counters && d in counters && cfg.instructions[c].cmd == cfg.instructions[d].cmd ==> c == d)
  }

  ghost predicate HoldsThroughout<S>(cfg: Cfg, holds: (Assertion, S) -> bool, r: Run<S>) {
    && r.At() in cfg.instructions
    && (forall q :: q in cfg.instructions[r.At()].preconditions ==> holds(q, r.state))
    && (r.Then? ==> HoldsThroughout(cfg, holds, r.before))
  }

  lemma {:induction false} WalkOfRun<S>(cfg: Cfg, step: (Instruction, S, S) -> bool, init: S -> bool, r: Run<S>)
    requires cfg.Valid() && CfgRun(cfg, step, init, r)
    ensures var w := Walk(r); IsWalk(cfg, w) && w[0] == ENTRY && w[|w| - 1] == r.At()
  {
    if r.Then? {
      WalkOfRun(cfg, step, init, r.before);
      assert cfg.HasParent(r.node, r.before.At()) by {
        assert cfg.Edge(r.before.At(), r.node);
      }
    }
  }

  /** The value of a counter is the number of earlier visits to its node. */
  lemma {:induction false} CounterCounts<S(!new)>(
    cfg: Cfg, counters: set<Label>, step: (Instruction, S, S) -> bool, holds: (Assertion, S) -> bool,
    counter: (S, Label) -> int, init: S -> bool, r: Run<S>, c: Label)
    requires Counts(step, holds, counter) && Instrumented(cfg, counters) && c in counters
    requires CfgRun(cfg, step, init, r)
    requires forall s :: init(s) ==> counter(s, cfg.instructions[c].cmd.name) == 0
    ensures counter(r.state, cfg.instructions[c].cmd.name) == Count(Walk(r), c) - (if r.At() == c then 1 else 0)
  {
    match r
    case AtEntry(_) =>
    case Then(r0, l, s) =>
      CounterCounts(cfg, counters, step, holds, counter, init, r0, c);
      CountConcat(Walk(r0), [l], c);
      var name, cmd := cfg.instructions[c].cmd.name, cfg.instructions[r0.At()].cmd;
      if r0.At() != c {
        assert cmd != IncrementLoopCounter(name);
      }
  }

  /** If all loop assertions hold along a run, no counter node is visited more often than
      the limit allows. */
  lemma {:induction false} RunRespects<S(!new)>(
    cfg: Cfg, counters: set<Label>, step: (Instruction, S, S) -> bool, holds: (Assertion, S) -> bool,
    counter: (S, Label) -> int, init: S -> bool, r: Run<S>, c: Label)
    requires Counts(step, holds, counter) && Instrumented(cfg, counters) && c in counters
    requires CfgRun(cfg, step, init, r) && HoldsThroughout(cfg, holds, r)
    requires forall s :: init(s) ==> counter(s, cfg.instructions[c].cmd.name) == 0
    ensures Count(Walk(r), c) <= LOOP_LIMIT + 1
  {
    CounterCounts(cfg, counters, step, holds, counter, init, r, c);
    if r.Then? {
      RunRespects(cfg, counters, step, holds, counter, init, r.before, c);
      CountConcat(Walk(r.before), [r.node], c);
    }
  }

  /** A run whose assertions hold is shorter than an explicit bound, provided no loop
      avoids the counters. */
  lemma RunBounded<S(!new)>(
    cfg: Cfg, counters: set<Label>, step: (Instruction, S, S) -> bool, holds: (Assertion, S) -> bool,
    counter: (S, Label) -> int, init: S -> bool, r: Run<S>)
    requires cfg.Valid() && Counts(step, holds, counter) && Instrumented(cfg, counters)
    requires CfgRun(cfg, step, init, r) && HoldsThroughout(cfg, holds, r)
    requires forall s, c :: init(s) && c in counters ==> counter(s, cfg.instructions[c].cmd.name) == 0
    requires NoFreeLasso(cfg, counters, LOOP_LIMIT + 1)
    ensures |Walk(r)| <= Bound(Others(cfg, counters), Allowance(counters, LOOP_LIMIT + 1))
  {
    var w, k := Walk(r), LOOP_LIMIT + 1;
    WalkOfRun(cfg, step, init, r);
    forall c | c in counters
      ensures Count(w, c) <= k
    {
      RunRespects(cfg, counters, step, holds, counter, init, r, c);
    }
    BoundedWithoutLasso(cfg, counters, k, w);
  }
}
