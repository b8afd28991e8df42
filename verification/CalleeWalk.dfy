/** The order in which the body of a local function is walked (the two sets of add_cfg_nodes in
    src/asm_cfg.cpp): always the least label among the successors of what has been walked. */
module CalleeWalk {
  import opened AsmSyntax
  import opened ControlFlowGraph

  // ----- the order of labels -----

  predicate TextLeq(a: string, b: string) {
    a == "" || (b != "" && (a[0] < b[0] || (a[0] == b[0] && TextLeq(a[1..], b[1..]))))
  }

  /** operator<=> of label_t: its fields one after the other. */
  predicate LabelLeq(a: Label, b: Label) {
    if a.stackFramePrefix != b.stackFramePrefix then TextLeq(a.stackFramePrefix, b.stackFramePrefix)
    else if a.from != b.from then a.from < b.from
    else if a.to != b.to then a.to < b.to
    else TextLeq(a.special, b.special)
  }

  lemma {:induction false} TextTotal(a: string, b: string)
    ensures TextLeq(a, b) || TextLeq(b, a)
    ensures TextLeq(a, b) && TextLeq(b, a) ==> a == b
  {
    if a != "" && b != "" {
      TextTotal(a[1..], b[1..]);
      assert a == [a[0]] + a[1..] && b == [b[0]] + b[1..];
    }
  }

  lemma {:induction false} TextTransitive(a: string, b: string, c: string)
    requires TextLeq(a, b) && TextLeq(b, c)
    ensures TextLeq(a, c)
  {
    if a != "" && a[0] == b[0] && b[0] == c[0] {
      TextTransitive(a[1..], b[1..], c[1..]);
    }
  }

  lemma LabelTotal(a: Label, b: Label)
    ensures LabelLeq(a, b) || LabelLeq(b, a)
    ensures LabelLeq(a, b) && LabelLeq(b, a) ==> a == b
  {
    TextTotal(a.stackFramePrefix, b.stackFramePrefix);
    TextTotal(a.special, b.special);
  }

  lemma LabelTransitive(a: Label, b: Label, c: Label)
    requires LabelLeq(a, b) && LabelLeq(b, c)
    ensures LabelLeq(a, c)
  {
    if a.stackFramePrefix != b.stackFramePrefix && b.stackFramePrefix != c.stackFramePrefix {
      TextTransitive(a.stackFramePrefix, b.stackFramePrefix, c.stackFramePrefix);
      TextTotal(a.stackFramePrefix, b.stackFramePrefix);
    } else if a.stackFramePrefix == b.stackFramePrefix == c.stackFramePrefix
      && a.from == b.from == c.from && a.to == b.to == c.to
    {
      TextTransitive(a.special, b.special, c.special);
    }
  }

  predicate IsLeast(work: set<Label>, l: Label) {
    l in work && forall x :: x in work ==> LabelLeq(l, x)
  }

  /** The first element of an ordered set. */
  lemma {:induction false} HasLeast(work: set<Label>)
    requires work != {}
    ensures exists l :: IsLeast(work, l)
  {
    var x :| x in work;
    if work == {x} {
      LabelTotal(x, x);
      assert IsLeast(work, x);
    } else {
      var rest := work - {x};
      HasLeast(rest);
      var y :| IsLeast(rest, y);
      LabelTotal(x, y);
      LabelTotal(x, x);
      if LabelLeq(y, x) {
        assert IsLeast(work, y);
      } else {
        forall z | z in rest ensures LabelLeq(x, z) {
          LabelTransitive(x, y, z);
        }
        assert IsLeast(work, x);
      }
    }
  }

  // ----- the walk -----

  /** A successor of what has been walked that has not been walked itself. */
  ghost predicate Ahead(g: Cfg, done: seq<Label>, l: Label) {
    l != EXIT && l !in done && exists p :: p in done && g.Edge(p, l)
  }

  ghost predicate IsNext(g: Cfg, done: seq<Label>, l: Label) {
    Ahead(g, done, l) && forall x :: Ahead(g, done, x) ==> LabelLeq(l, x)
  }

  ghost predicate IsWalkPrefix(g: Cfg, entry: Label, done: seq<Label>) {
    && (done != [] ==> done[0] == entry)
    && forall k {:trigger IsNext(g, done[..k], done[k])} :: 0 < k < |done| ==> IsNext(g, done[..k], done[k])
  }

  /** The whole body of the function that begins at `entry`, in the order of the walk. */
  ghost predicate IsWalk(g: Cfg, entry: Label, order: seq<Label>) {
    order != [] && IsWalkPrefix(g, entry, order) && forall l :: !Ahead(g, order, l)
  }

  lemma WalkGrows(g: Cfg, entry: Label, done: seq<Label>, l: Label)
    requires IsWalkPrefix(g, entry, done) && (if done == [] then l == entry else IsNext(g, done, l))
    ensures IsWalkPrefix(g, entry, done + [l])
  {
    var next := done + [l];
    forall k | 0 < k < |next| ensures IsNext(g, next[..k], next[k]) {
      assert next[..k] == done[..k];
      if k == |done| {
        assert done[..k] == done;
      }
    }
  }

  lemma WalkedOnce(g: Cfg, entry: Label, done: seq<Label>, i: nat, j: nat)
    requires IsWalkPrefix(g, entry, done) && i < j < |done|
    ensures done[i] != done[j]
  {
    assert IsNext(g, done[..j], done[j]);
    assert done[i] in done[..j];
  }

  lemma WalkedApart(g: Cfg, entry: Label, done: seq<Label>, i: nat, j: nat)
    requires IsWalkPrefix(g, entry, done) && i < |done| && j < |done|
    ensures done[i] == done[j] ==> i == j
  {
    if i < j {
      WalkedOnce(g, entry, done, i, j);
    } else if j < i {
      WalkedOnce(g, entry, done, j, i);
    }
  }

  lemma WalkAvoidsExit(g: Cfg, entry: Label, done: seq<Label>, k: nat)
    requires IsWalkPrefix(g, entry, done) && entry != EXIT && k < |done|
    ensures done[k] != EXIT
  {
    assert k > 0 ==> IsNext(g, done[..k], done[k]);
  }

  // ----- walks along the edges -----

  /** No edge leads back to what was walked earlier. */
  ghost predicate Topological(g: Cfg, order: seq<Label>) {
    forall i, j :: 0 <= i < |order| && 0 <= j < |order| && g.Edge(order[i], order[j]) ==> i <= j
  }

  /** Edges lead from smaller to larger labels, or from a label to itself. */
  ghost predicate Forward(g: Cfg, order: seq<Label>) {
    forall x, y :: x in order && y in order && g.Edge(x, y) ==> LabelLeq(x, y)
  }

  lemma {:induction false} ForwardAscends(g: Cfg, entry: Label, order: seq<Label>, i: nat, j: nat)
    requires IsWalkPrefix(g, entry, order) && Forward(g, order) && i <= j < |order|
    ensures LabelLeq(order[i], order[j])
  {
    if i == j {
      LabelTotal(order[i], order[i]);
    } else {
      ForwardAscends(g, entry, order, i, j - 1);
      NextIsLarger(g, entry, order, j);
      LabelTransitive(order[i], order[j - 1], order[j]);
    }
  }

  lemma AheadBefore(g: Cfg, before: seq<Label>, x: Label, y: Label)
    requires Ahead(g, before + [x], y) && !g.Edge(x, y)
    ensures Ahead(g, before, y)
  {
    var p :| p in before + [x] && g.Edge(p, y);
    assert p in before;
  }

  lemma NextIsLarger(g: Cfg, entry: Label, order: seq<Label>, j: nat)
    requires IsWalkPrefix(g, entry, order) && Forward(g, order) && 0 < j < |order|
    ensures LabelLeq(order[j - 1], order[j])
  {
    var x, y, before := order[j - 1], order[j], order[..j - 1];
    assert IsNext(g, order[..j], y);
    assert order[..j] == before + [x];
    if !g.Edge(x, y) {
      AheadBefore(g, before, x, y);
      assert j > 1;
      assert IsNext(g, before, x);
    }
  }

  /** Without jumps to smaller labels the walk follows the edges. */
  lemma ForwardIsTopological(g: Cfg, entry: Label, order: seq<Label>)
    requires IsWalk(g, entry, order) && Forward(g, order)
    ensures Topological(g, order)
  {
    forall i, j | 0 <= i < |order| && 0 <= j < |order| && g.Edge(order[i], order[j])
      ensures i <= j
    {
      if j < i {
        ForwardAscends(g, entry, order, j, i);
        LabelTotal(order[i], order[j]);
        WalkedOnce(g, entry, order, j, i);
      }
    }
  }

  // ----- the two sets of the walk -----

  ghost predicate OnlySuccessor(g: Cfg, l: Label, next: Label) {
    forall y :: g.Edge(l, y) <==> y == next
  }

  ghost predicate WorkIsAhead(g: Cfg, entry: Label, done: seq<Label>, work: set<Label>) {
    forall l :: l !in done ==> (l in work <==> if done == [] then l == entry else Ahead(g, done, l))
  }

  /** Has a successor that was not walked yet when it was. */
  ghost predicate GoesOn(g: Cfg, entry: Label, done: seq<Label>, k: nat)
    requires k < |done|
  {
    exists y :: g.Edge(done[k], y) && y != EXIT && y != entry && y !in done[..k + 1]
  }

  ghost predicate GoersSeen(g: Cfg, entry: Label, done: seq<Label>, seen: set<Label>) {
    forall k :: 0 <= k < |done| && GoesOn(g, entry, done, k) ==> done[k] in seen
  }

  /** None of its successors that were not walked yet comes before itself. */
  ghost predicate ComesFirst(g: Cfg, entry: Label, done: seq<Label>, k: nat)
    requires k < |done|
  {
    forall y :: g.Edge(done[k], y) && y != EXIT && y != entry && y !in done[..k + 1] ==> LabelLeq(done[k], y)
  }

  /** An edge leads back to a label that was not recorded, or a label to itself before it is. */
  ghost predicate LeadsBack(g: Cfg, entry: Label, done: seq<Label>, i: nat, j: nat)
    requires i < |done| && j < |done|
  {
    && j <= i && g.Edge(done[i], done[j]) && done[j] != entry
    && if i == j then ComesFirst(g, entry, done, i) else !GoesOn(g, entry, done, j)
  }

  ghost predicate Rediscovers(g: Cfg, entry: Label, done: seq<Label>) {
    exists i, j :: 0 <= i < |done| && 0 <= j < |done| && LeadsBack(g, entry, done, i, j)
  }

  /** Until something is found again, nothing else is recorded. */
  ghost predicate OnlyGoersSeen(g: Cfg, entry: Label, done: seq<Label>, seen: set<Label>) {
    !Rediscovers(g, entry, done) ==>
      forall k :: 0 <= k < |done| && done[k] in seen && done[k] != entry ==> GoesOn(g, entry, done, k)
  }

  /** `work` holds what is ahead, and something already walked exactly after a rediscovery; `seen`
      holds only what was walked, and every label that had a successor ahead. */
  ghost predicate WalkState(g: Cfg, entry: Label, done: seq<Label>, work: set<Label>, seen: set<Label>) {
    && IsWalkPrefix(g, entry, done) && WorkIsAhead(g, entry, done, work)
    && (forall l :: l in seen ==> l in done || l == entry) && entry in seen
    && GoersSeen(g, entry, done, seen) && OnlyGoersSeen(g, entry, done, seen)
    && (Rediscovers(g, entry, done) <==> exists l :: l in work && l in done)
  }

  /** The successors among some that are put to the others. A label finds itself if it is the
      first of them, since it is recorded behind the first. */
  ghost predicate FoundAmong(looked: set<Label>, macro: Label, seen: set<Label>, found: set<Label>) {
    var others := looked - {EXIT} - seen;
    && others - {macro} <= found <= others
    && (macro in found <==> macro in others && forall y :: y in others ==> LabelLeq(macro, y))
  }

  ghost predicate Found(g: Cfg, macro: Label, seen: set<Label>, found: set<Label>) {
    macro in g.neighbours && FoundAmong(g.neighbours[macro].children, macro, seen, found)
  }

  /** The successors are looked at in ascending order. */
  lemma LookAtNext(looked: set<Label>, next: Label, macro: Label, seen: set<Label>, found: set<Label>)
    requires FoundAmong(looked, macro, seen, found)
    requires next !in looked && forall m :: m in looked ==> LabelLeq(m, next)
    ensures FoundAmong(looked + {next}, macro, seen,
              if next == EXIT || next in seen || (found != {} && next == macro) then found else found + {next})
  {
    LabelTotal(macro, macro);
    if next == macro && found != {} {
      var y :| y in found;
      LabelTotal(y, macro);
    }
  }

  lemma WorkStep(
    g: Cfg, entry: Label, done: seq<Label>, work: set<Label>, seen: set<Label>, macro: Label, found: set<Label>)
    requires WorkIsAhead(g, entry, done, work) && macro in work && macro !in done && (done != [] ==> done[0] == entry)
    requires forall l :: l in seen ==> l in done || l == entry
    requires Found(g, macro, seen, found)
    ensures WorkIsAhead(g, entry, done + [macro], work - {macro} + found)
  {
    var next := done + [macro];
    forall l | l !in next
      ensures l in work - {macro} + found <==> Ahead(g, next, l)
    {
      assert macro in next;
      assert done != [] ==> done[0] in next;
      assert Ahead(g, next, l) <==> l != EXIT && ((exists p :: p in done && g.Edge(p, l)) || g.Edge(macro, l));
    }
  }

  lemma GoesOnStays(g: Cfg, entry: Label, done: seq<Label>, macro: Label, k: nat)
    requires k < |done|
    ensures GoesOn(g, entry, done + [macro], k) <==> GoesOn(g, entry, done, k)
  {
    assert (done + [macro])[..k + 1] == done[..k + 1];
  }

  lemma GoersStep(g: Cfg, entry: Label, done: seq<Label>, seen: set<Label>, macro: Label, found: set<Label>)
    requires GoersSeen(g, entry, done, seen) && Found(g, macro, seen, found)
    requires forall l :: l in seen ==> l in done || l == entry
    ensures GoersSeen(g, entry, done + [macro], if found != {} then seen + {macro} else seen)
  {
    var next := done + [macro];
    var recorded := if found != {} then seen + {macro} else seen;
    forall k | 0 <= k < |next| && GoesOn(g, entry, next, k) ensures next[k] in recorded {
      if k < |done| {
        GoesOnStays(g, entry, done, macro, k);
      } else {
        var y :| g.Edge(next[k], y) && y != EXIT && y != entry && y !in next[..k + 1];
        assert next[..k + 1] == next && y in found;
      }
    }
  }

  lemma RediscoversStill(g: Cfg, entry: Label, done: seq<Label>, macro: Label)
    requires Rediscovers(g, entry, done)
    ensures Rediscovers(g, entry, done + [macro])
  {
    var i, j :| 0 <= i < |done| && 0 <= j < |done| && LeadsBack(g, entry, done, i, j);
    GoesOnStays(g, entry, done, macro, j);
    assert (done + [macro])[..i + 1] == done[..i + 1];
    assert LeadsBack(g, entry, done + [macro], i, j);
  }

  lemma FoundBehind(
    g: Cfg, entry: Label, done: seq<Label>, seen: set<Label>, macro: Label, found: set<Label>, l: Label)
    requires GoersSeen(g, entry, done, seen) && entry in seen && Found(g, macro, seen, found)
    requires forall x :: x in seen ==> x in done || x == entry
    requires l in found && l in done + [macro]
    ensures Rediscovers(g, entry, done + [macro])
  {
    var next := done + [macro];
    var j :| 0 <= j < |next| && next[j] == l;
    if j < |done| {
      GoesOnStays(g, entry, done, macro, j);
    }
    assert next[|done|] == macro && next[..|done| + 1] == next;
    assert LeadsBack(g, entry, next, |done|, j);
  }

  /** What the new label leads back to is found, unless something was found again before. */
  lemma BehindIsFound(
    g: Cfg, entry: Label, done: seq<Label>, seen: set<Label>, macro: Label, found: set<Label>)
    requires IsWalkPrefix(g, entry, done) && OnlyGoersSeen(g, entry, done, seen) && macro !in done
    requires (forall x :: x in seen ==> x in done || x == entry) && entry in seen && Found(g, macro, seen, found)
    requires !Rediscovers(g, entry, done) && Rediscovers(g, entry, done + [macro]) && (macro == entry || macro != EXIT)
    ensures exists l :: l in found && l in done + [macro]
  {
    var next := done + [macro];
    var i, j :| 0 <= i < |next| && 0 <= j < |next| && LeadsBack(g, entry, next, i, j);
    NewPair(g, entry, done, macro, i, j);
    assert next[i] == macro && next[..i + 1] == next;
    if i == j {
      if macro !in found {
        LabelTotal(macro, macro);
        var y :| y in g.neighbours[macro].children - {EXIT} - seen && !LabelLeq(macro, y);
        assert y in found && y in next;
      }
    } else {
      GoesOnStays(g, entry, done, macro, j);
      AtNoExit(g, entry, done, j);
      assert done[j] !in seen && done[j] in found && done[j] in next;
    }
  }

  lemma AtNoExit(g: Cfg, entry: Label, done: seq<Label>, k: nat)
    requires IsWalkPrefix(g, entry, done) && k < |done| && done[k] != entry
    ensures done[k] != EXIT
  {
    assert k > 0 && IsNext(g, done[..k], done[k]);
  }

  lemma NewPair(g: Cfg, entry: Label, done: seq<Label>, macro: Label, i: nat, j: nat)
    requires !Rediscovers(g, entry, done) && i < |done + [macro]| && j < |done + [macro]|
    requires LeadsBack(g, entry, done + [macro], i, j)
    ensures i == |done|
  {
    if i < |done| {
      GoesOnStays(g, entry, done, macro, j);
      assert (done + [macro])[..i + 1] == done[..i + 1];
      assert LeadsBack(g, entry, done, i, j);
    }
  }

  lemma RecordStep(
    g: Cfg, entry: Label, done: seq<Label>, seen: set<Label>, macro: Label, found: set<Label>)
    requires GoersSeen(g, entry, done, seen) && OnlyGoersSeen(g, entry, done, seen) && entry in seen && macro !in done
    requires (forall x :: x in seen ==> x in done || x == entry) && Found(g, macro, seen, found)
    ensures OnlyGoersSeen(g, entry, done + [macro], if found != {} then seen + {macro} else seen)
  {
    var next := done + [macro];
    var recorded := if found != {} then seen + {macro} else seen;
    if !Rediscovers(g, entry, next) {
      if Rediscovers(g, entry, done) {
        RediscoversStill(g, entry, done, macro);
      }
      forall k | 0 <= k < |next| && next[k] in recorded && next[k] != entry ensures GoesOn(g, entry, next, k) {
        if k < |done| {
          GoesOnStays(g, entry, done, macro, k);
        } else {
          NewGoesOn(g, entry, done, seen, macro, found);
        }
      }
    }
  }

  lemma NewGoesOn(
    g: Cfg, entry: Label, done: seq<Label>, seen: set<Label>, macro: Label, found: set<Label>)
    requires GoersSeen(g, entry, done, seen) && entry in seen && Found(g, macro, seen, found) && found != {}
    requires (forall x :: x in seen ==> x in done || x == entry) && !Rediscovers(g, entry, done + [macro])
    ensures GoesOn(g, entry, done + [macro], |done|)
  {
    var next := done + [macro];
    var y :| y in found;
    if y in next {
      FoundBehind(g, entry, done, seen, macro, found, y);
    }
    assert next[..|done| + 1] == next && g.Edge(next[|done|], y);
  }

  lemma WalkStep(
    g: Cfg, entry: Label, done: seq<Label>, work: set<Label>, seen: set<Label>, macro: Label, found: set<Label>)
    requires WalkState(g, entry, done, work, seen) && IsLeast(work, macro) && macro !in done
    requires Found(g, macro, seen, found)
    ensures WalkState(
      g, entry, done + [macro], work - {macro} + found, if found != {} then seen + {macro} else seen)
  {
    WalkGrows(g, entry, done, macro);
    WorkStep(g, entry, done, work, seen, macro, found);
    GoersStep(g, entry, done, seen, macro, found);
    RecordStep(g, entry, done, seen, macro, found);
    RediscoveryStep(g, entry, done, work, seen, macro, found);
  }

  lemma RediscoveryStep(
    g: Cfg, entry: Label, done: seq<Label>, work: set<Label>, seen: set<Label>, macro: Label, found: set<Label>)
    requires WalkState(g, entry, done, work, seen) && macro in work && macro !in done && Found(g, macro, seen, found)
    ensures Rediscovers(g, entry, done + [macro]) <==> exists l :: l in work - {macro} + found && l in done + [macro]
  {
    forall l | l in work - {macro} + found && l in done + [macro] ensures Rediscovers(g, entry, done + [macro]) {
      if l in found {
        FoundBehind(g, entry, done, seen, macro, found, l);
      } else {
        RediscoversStill(g, entry, done, macro);
      }
    }
    if Rediscovers(g, entry, done) {
      var l :| l in work && l in done;
      assert l in work - {macro} + found && l in done + [macro];
    } else if Rediscovers(g, entry, done + [macro]) {
      BehindIsFound(g, entry, done, seen, macro, found);
      var l :| l in found && l in done + [macro];
      assert l in work - {macro} + found;
    }
  }

  lemma WalkEnds(g: Cfg, entry: Label, done: seq<Label>, seen: set<Label>)
    requires WalkState(g, entry, done, {}, seen)
    ensures IsWalk(g, entry, done) && !Rediscovers(g, entry, done)
  {
    assert done == [] ==> entry !in done;
  }

  /** On a walk along the edges, every label with one successor is recorded. */
  lemma SingleIsSeen(g: Cfg, entry: Label, order: seq<Label>, seen: set<Label>, k: nat, next: Label)
    requires WalkState(g, entry, order, {}, seen) && Topological(g, order)
    requires k < |order| && OnlySuccessor(g, order[k], next) && next != EXIT && next != order[k]
    ensures order[k] in seen
  {
    assert g.Edge(order[k], next);
    NotBehind(g, order, k, next);
    assert GoesOn(g, entry, order, k);
  }

  lemma NotBehind(g: Cfg, order: seq<Label>, k: nat, next: Label)
    requires Topological(g, order) && k < |order| && g.Edge(order[k], next) && next != order[k]
    ensures next !in order[..k + 1]
  {
    assert forall i :: 0 <= i < k + 1 ==> order[..k + 1][i] == order[i] != next;
  }

  lemma NextIsOne(g: Cfg, done: seq<Label>, a: Label, b: Label)
    requires IsNext(g, done, a) && IsNext(g, done, b)
    ensures a == b
  {
    LabelTotal(a, b);
  }

  lemma OneLonger(a: seq<Label>, b: seq<Label>, n: nat)
    requires n < |a| && n < |b| && a[..n] == b[..n] && a[n] == b[n]
    ensures a[..n + 1] == b[..n + 1]
  {
    assert a[..n + 1] == a[..n] + [a[n]] && b[..n + 1] == b[..n] + [b[n]];
  }

  /** A walk does not end early, and goes on as every other. */
  lemma NextAgrees(g: Cfg, entry: Label, done: seq<Label>, order: seq<Label>, n: nat)
    requires IsWalkPrefix(g, entry, done) && IsWalk(g, entry, order)
    requires 0 < n < |done| && n <= |order| && done[..n] == order[..n]
    ensures n < |order| && done[n] == order[n]
  {
    var before := order[..n];
    assert IsNext(g, before, done[n]);
    assert n == |order| ==> before == order;
    if n < |order| {
      NextIsOne(g, before, done[n], order[n]);
    }
  }

  /** Two walks of the same function, one of them perhaps not finished. */
  lemma {:induction false} PrefixOfWalk(g: Cfg, entry: Label, done: seq<Label>, order: seq<Label>, n: nat)
    requires IsWalkPrefix(g, entry, done) && IsWalk(g, entry, order) && n <= |done|
    ensures n <= |order| && done[..n] == order[..n]
  {
    if n > 1 {
      PrefixOfWalk(g, entry, done, order, n - 1);
      NextAgrees(g, entry, done, order, n - 1);
      OneLonger(done, order, n - 1);
    }
  }

  /** The walk has one outcome. */
  lemma WalkUnique(g: Cfg, entry: Label, a: seq<Label>, b: seq<Label>)
    requires IsWalk(g, entry, a) && IsWalk(g, entry, b)
    ensures a == b
  {
    PrefixOfWalk(g, entry, a, b, |a|);
    PrefixOfWalk(g, entry, b, a, |b|);
    assert a[..|a|] == a && b[..|b|] == b;
  }

  lemma {:induction false} RediscoversAtAll(g: Cfg, entry: Label, order: seq<Label>, n: nat)
    requires n <= |order| && Rediscovers(g, entry, order[..n])
    ensures Rediscovers(g, entry, order)
    decreases |order| - n
  {
    if n < |order| {
      RediscoversStill(g, entry, order[..n], order[n]);
      assert order[..n] + [order[n]] == order[..n + 1];
      RediscoversAtAll(g, entry, order, n + 1);
    } else {
      assert order[..n] == order;
    }
  }

  /** The walk over a function finds again what it did not record. */
  ghost predicate WalkFails(g: Cfg, entry: Label) {
    exists done :: IsWalkPrefix(g, entry, done) && Rediscovers(g, entry, done)
  }

  /** What is found again by a part of the walk is found again by the walk. */
  lemma FailsByWalk(g: Cfg, entry: Label, order: seq<Label>)
    requires IsWalk(g, entry, order)
    ensures WalkFails(g, entry) <==> Rediscovers(g, entry, order)
  {
    forall done | IsWalkPrefix(g, entry, done) && Rediscovers(g, entry, done) ensures Rediscovers(g, entry, order) {
      PrefixOfWalk(g, entry, done, order, |done|);
      assert done[..|done|] == done;
      RediscoversAtAll(g, entry, order, |done|);
    }
  }
}
