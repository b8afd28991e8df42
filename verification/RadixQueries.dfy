/** Prefix queries and traversals of a radix tree (external/radix_tree/radix_tree.hpp). */
module RadixQueries {
  import opened AsmSyntax
  import opened RadixHeap
  import opened RadixPaths
  import opened RadixIterator
  import opened RadixTree

  /** The key under a leaf: it->first. */
  function KeyOf<V>(h: Heap<V>, n: Ref): Key
    requires n in h && h[n].value.Some?
  {
    h[n].value.value.0
  }

  // ----- traversal -----

  /** No stored key is smaller than that of the leaf; without a leaf nothing is stored. */
  ghost predicate IsFirst<V>(h: Heap<V>, paths: Paths, leaf: Option<Ref>)
    requires paths.Keys == h.Keys
  {
    match leaf
    case None => forall m :: m in h ==> !h[m].isLeaf
    case Some(a) => Leaf(h, a) && forall m :: m in h && h[m].isLeaf && m != a ==> Less(paths[a], paths[m])
  }

  /** begin */
  method Begin<V>(t: RadixTree<V>) returns (leaf: Option<Ref>)
    requires t.Valid()
    ensures IsFirst(t.heap, t.paths, leaf)
  {
    if t.root.None? {
      return None;
    }
    var root := t.root.value;
    if t.size == 0 {
      LeavesAreStored(t.heap, t.paths, t.model);
      return None;
    }
    SomethingStored(t.heap, t.paths, t.model, root);
    var first := Descend(t.heap, t.paths, root, root);
    assert forall m :: m in t.heap && t.heap[m].isLeaf ==> Below(t.heap, t.paths, root, m);
    return Some(first);
  }

  lemma LeavesAreStored<V>(h: Heap<V>, paths: Paths, model: map<Key, V>)
    requires paths.Keys == h.Keys && Stores(h, paths, model)
    ensures forall m :: m in h && h[m].isLeaf ==> paths[m] in model
  {
    forall m | m in h && h[m].isLeaf
      ensures paths[m] in model
    {
      assert EntryOk(h, paths, model, m);
    }
  }

  lemma SomethingStored<V>(h: Heap<V>, paths: Paths, model: map<Key, V>, root: Ref)
    requires Linked(h, paths, root) && Stores(h, paths, model) && |model| != 0
    ensures h[root].children != map[]
  {
    var k :| k in model;
    assert HasLeaf(h, paths, k);
    var m :| m in h && Leaf(h, m) && paths[m] == k;
    var j := Descent(h, paths, root, root, m);
  }

  ghost predicate Ascending(keys: seq<Key>) {
    forall i, j :: 0 <= i < j < |keys| ==> Less(keys[i], keys[j])
  }

  /** How far an iteration is: the keys passed, and the leaf it stands at. */
  ghost predicate Passed<V>(model: map<Key, V>, keys: seq<Key>, at: Option<Key>) {
    && Ascending(keys)
    && (forall i :: 0 <= i < |keys| ==> keys[i] in model && (at.Some? ==> Less(keys[i], at.value)))
    && (forall k :: k in model ==> k in keys || (at.Some? && (k == at.value || Less(at.value, k))))
    && (at.Some? ==> at.value in model)
  }

  ghost function At(paths: Paths, leaf: Option<Ref>): Option<Key>
    requires leaf.Some? ==> leaf.value in paths
  {
    if leaf.None? then None else Some(paths[leaf.value])
  }

  lemma StartsAtFirst<V>(h: Heap<V>, paths: Paths, model: map<Key, V>, leaf: Option<Ref>)
    requires paths.Keys == h.Keys && Stores(h, paths, model) && IsFirst(h, paths, leaf)
    ensures Passed(model, [], At(paths, leaf))
  {
    if leaf.Some? {
      assert EntryOk(h, paths, model, leaf.value);
    }
    forall k | k in model
      ensures leaf.Some? && (k == paths[leaf.value] || Less(paths[leaf.value], k))
    {
      assert HasLeaf(h, paths, k);
      var m :| m in h && Leaf(h, m) && paths[m] == k;
    }
  }

  /** One step of an iteration that began with the entries `was`, of which those not yet
      passed are still stored. */
  lemma MovesOn<V>(
    h: Heap<V>, paths: Paths, model: map<Key, V>, was: map<Key, V>, keys: seq<Key>, leaf: Ref, next: Option<Ref>)
    requires paths.Keys == h.Keys && Stores(h, paths, model) && model.Keys <= was.Keys
    requires forall k :: k in was && k !in keys ==> k in model
    requires Leaf(h, leaf) && FirstAfter(h, paths, leaf, next) && Passed(was, keys, Some(paths[leaf]))
    ensures Passed(was, keys + [paths[leaf]], At(paths, next))
  {
    var k0, keys' := paths[leaf], keys + [paths[leaf]];
    if next.Some? {
      assert EntryOk(h, paths, model, next.value);
    }
    forall i | 0 <= i < |keys'|
      ensures keys'[i] in was && (next.Some? ==> Less(keys'[i], paths[next.value]))
    {
      if next.Some? && i < |keys| {
        LessTransitive(keys[i], k0, paths[next.value]);
      }
    }
    forall k | k in was && k !in keys'
      ensures next.Some? && (k == paths[next.value] || Less(paths[next.value], k))
    {
      assert k0 == keys'[|keys|];
      assert forall i :: 0 <= i < |keys| ==> keys[i] == keys'[i];
      assert Less(k0, k);
      assert HasLeaf(h, paths, k);
      var m :| m in h && Leaf(h, m) && paths[m] == k;
      assert After(h, paths, leaf, m);
    }
  }

  lemma AllPassed<V>(model: map<Key, V>, keys: seq<Key>)
    requires Passed(model, keys, None)
    ensures |keys| == |model|
  {
    forall i, j | 0 <= i < j < |keys|
      ensures keys[i] != keys[j]
    {
      LessIrreflexive(keys[i]);
    }
    NoRepeats(keys);
    assert (set k | k in keys) == model.Keys;
  }

  lemma {:induction false} NoRepeats(keys: seq<Key>)
    requires forall i, j :: 0 <= i < j < |keys| ==> keys[i] != keys[j]
    ensures |set k | k in keys| == |keys|
  {
    if keys != [] {
      var n := |keys| - 1;
      NoRepeats(keys[..n]);
      assert (set k | k in keys) == (set k | k in keys[..n]) + {keys[n]};
    }
  }

  /** begin and then ++ until end: every key once, in ascending order. */
  method Enumerate<V>(t: RadixTree<V>) returns (keys: seq<Key>)
    requires t.Valid()
    ensures Ascending(keys) && (forall k :: k in keys <==> k in t.model) && |keys| == |t.model|
  {
    keys := [];
    var it := Begin(t);
    StartsAtFirst(t.heap, t.paths, t.model, it);
    while it.Some?
      invariant t.Valid()
      invariant it.Some? ==> t.root.Some? && Leaf(t.heap, it.value)
      invariant Passed(t.model, keys, At(t.paths, it))
      decreases |t.model| - |keys|
    {
      assert EntryOk(t.heap, t.paths, t.model, it.value);
      var next := Increment(t.heap, t.paths, t.root.value, it.value);
      MovesOn(t.heap, t.paths, t.model, t.model, keys, it.value, next);
      FewerPassed(t.model, keys, t.paths[it.value]);
      keys := keys + [KeyOf(t.heap, it.value)];
      it := next;
    }
    AllPassed(t.model, keys);
  }

  lemma FewerPassed<V>(model: map<Key, V>, keys: seq<Key>, at: Key)
    requires Passed(model, keys, Some(at))
    ensures |keys| < |model|
  {
    forall i, j | 0 <= i < j < |keys|
      ensures keys[i] != keys[j]
    {
      LessIrreflexive(keys[i]);
    }
    NoRepeats(keys);
    LessIrreflexive(at);
    var passed := set k | k in keys;
    assert passed <= model.Keys - {at};
    SetSizes(passed, model.Keys - {at});
    assert |model.Keys| == |model|;
  }

  lemma {:induction false} SetSizes(a: set<Key>, b: set<Key>)
    requires a <= b
    ensures |a| <= |b|
  {
    if a != {} {
      var x :| x in a;
      SetSizes(a - {x}, b - {x});
    }
  }

  /** What is left once the listed keys have been tried. */
  ghost function Kept<V>(was: map<Key, V>, keys: seq<Key>, pred: Key -> bool): map<Key, V> {
    map k | k in was && !(k in keys && pred(k)) :: was[k]
  }

  lemma RemoveStep<V>(
    h: Heap<V>, paths: Paths, was: map<Key, V>, keys: seq<Key>, pred: Key -> bool, leaf: Ref, next: Option<Ref>)
    requires paths.Keys == h.Keys && Stores(h, paths, Kept(was, keys, pred))
    requires Leaf(h, leaf) && FirstAfter(h, paths, leaf, next) && Passed(was, keys, Some(paths[leaf]))
    ensures Passed(was, keys + [paths[leaf]], At(paths, next)) && |keys| < |was|
    ensures next.Some? ==> Leaf(h, next.value) && paths[next.value] != paths[leaf]
    ensures var model, key := Kept(was, keys, pred), paths[leaf];
            Kept(was, keys + [key], pred) == if pred(key) then model - {key} else model
  {
    MovesOn(h, paths, Kept(was, keys, pred), was, keys, leaf, next);
    FewerPassed(was, keys, paths[leaf]);
    LessIrreflexive(paths[leaf]);
  }

  /** remove_if: an iteration that erases behind itself. */
  method RemoveIf<V>(t: RadixTree<V>, pred: Key -> bool)
    requires t.Valid()
    modifies t
    ensures t.Valid() && t.model == map k | k in old(t.model) && !pred(k) :: old(t.model)[k]
  {
    ghost var was, keys := t.model, [];
    var it := Begin(t);
    StartsAtFirst(t.heap, t.paths, t.model, it);
    while it.Some?
      invariant t.Valid()
      invariant it.Some? ==> t.root.Some? && Leaf(t.heap, it.value)
      invariant Passed(was, keys, At(t.paths, it))
      invariant t.model == Kept(was, keys, pred)
      decreases |was| - |keys|
    {
      assert EntryOk(t.heap, t.paths, t.model, it.value);
      var next := Increment(t.heap, t.paths, t.root.value, it.value);
      RemoveStep(t.heap, t.paths, was, keys, pred, it.value, next);
      keys := keys + [t.paths[it.value]];
      var key := KeyOf(t.heap, it.value);
      if pred(key) {
        ghost var h, paths := t.heap, t.paths;
        var erased := t.Erase(key);
        assert next.Some? ==> LeafKept(h, paths, t.heap, t.paths, next.value);
      }
      it := next;
    }
  }

  // ----- prefix queries -----

  /** The leaves are listed in ascending order. */
  ghost predicate Sorted(paths: Paths, leaves: seq<Ref>)
    requires forall i :: 0 <= i < |leaves| ==> leaves[i] in paths
  {
    forall i, j :: 0 <= i < j < |leaves| ==> Less(paths[leaves[i]], paths[leaves[j]])
  }

  /** Exactly the leaves below a node, in ascending order. */
  ghost predicate ListsBelow<V>(h: Heap<V>, paths: Paths, n: Ref, leaves: seq<Ref>)
    requires paths.Keys == h.Keys
  {
    && (forall i :: 0 <= i < |leaves| ==> Below(h, paths, n, leaves[i]))
    && (forall m :: m in h && Below(h, paths, n, m) ==> m in leaves)
    && Sorted(paths, leaves)
  }

  /** The leaves below those children of a node that have been visited. */
  ghost predicate ListsChildren<V>(h: Heap<V>, paths: Paths, n: Ref, done: set<Key>, leaves: seq<Ref>)
    requires paths.Keys == h.Keys && n in h
  {
    && done <= h[n].children.Keys
    && (forall i :: 0 <= i < |leaves| ==> BelowSome(h, paths, n, done, leaves[i]))
    && (forall m :: m in h && BelowSome(h, paths, n, done, m) ==> m in leaves)
    && Sorted(paths, leaves)
  }

  ghost predicate BelowSome<V>(h: Heap<V>, paths: Paths, n: Ref, done: set<Key>, m: Ref)
    requires paths.Keys == h.Keys && n in h && done <= h[n].children.Keys
  {
    m in h && exists k :: k in done && Below(h, paths, h[n].children[k], m)
  }

  lemma OneMoreChild<V>(
    h: Heap<V>, paths: Paths, root: Ref, n: Ref, done: set<Key>, k: Key, leaves: seq<Ref>, more: seq<Ref>)
    requires Linked(h, paths, root) && Inner(h, n) && ListsChildren(h, paths, n, done, leaves)
    requires k in h[n].children && (forall j :: j in done ==> Less(j, k))
    requires ListsBelow(h, paths, h[n].children[k], more)
    ensures ListsChildren(h, paths, n, done + {k}, leaves + more)
  {
    var all := leaves + more;
    forall i | 0 <= i < |all|
      ensures BelowSome(h, paths, n, done + {k}, all[i])
    {
      if i < |leaves| {
        assert BelowSome(h, paths, n, done, leaves[i]);
      } else {
        assert k in done + {k} && Below(h, paths, h[n].children[k], all[i]);
      }
    }
    forall m | m in h && BelowSome(h, paths, n, done + {k}, m)
      ensures m in all
    {
      var j :| j in done + {k} && Below(h, paths, h[n].children[j], m);
      if j != k {
        assert BelowSome(h, paths, n, done, m);
      }
    }
    forall i, j | 0 <= i < j < |all|
      ensures Less(paths[all[i]], paths[all[j]])
    {
      if i < |leaves| <= j {
        var x :| x in done && Below(h, paths, h[n].children[x], leaves[i]);
        SiblingsApart(h, paths, root, n, x, k, all[i], all[j]);
      } else if j < |leaves| {
        assert all[i] == leaves[i] && all[j] == leaves[j];
      } else {
        assert all[i] == more[i - |leaves|] && all[j] == more[j - |leaves|];
      }
    }
  }

  lemma AllChildren<V>(h: Heap<V>, paths: Paths, root: Ref, n: Ref, leaves: seq<Ref>)
    requires Linked(h, paths, root) && Inner(h, n) && ListsChildren(h, paths, n, h[n].children.Keys, leaves)
    ensures ListsBelow(h, paths, n, leaves)
  {
    forall i | 0 <= i < |leaves|
      ensures Below(h, paths, n, leaves[i])
    {
      assert BelowSome(h, paths, n, h[n].children.Keys, leaves[i]);
      var k :| k in h[n].children.Keys && Below(h, paths, h[n].children[k], leaves[i]);
      ChildBelow(h, paths, root, n, k, leaves[i]);
    }
    forall m | m in h && Below(h, paths, n, m)
      ensures m in leaves
    {
      var k := BelowChild(h, paths, root, n, m);
      assert BelowSome(h, paths, n, h[n].children.Keys, m);
    }
  }

  lemma LeafHasParent<V>(h: Heap<V>, paths: Paths, root: Ref, m: Ref)
    requires Linked(h, paths, root) && Leaf(h, m)
    ensures h[m].parent.Some? && Inner(h, h[m].parent.value) && paths[h[m].parent.value] == paths[m]
  {
    assert NodeOk(h, paths, root, m);
  }

  lemma ChildIsSmaller<V>(h: Heap<V>, paths: Paths, root: Ref, n: Ref, k: Key)
    requires Linked(h, paths, root) && Inner(h, n) && k in h[n].children
    ensures var c := h[n].children[k];
            c in h && if h[c].isLeaf then Longer(h, paths, c) == Longer(h, paths, n)
                      else Longer(h, paths, c) < Longer(h, paths, n)
  {
    var c := h[n].children[k];
    assert NodeOk(h, paths, root, n) && NodeOk(h, paths, root, c);
    if h[c].isLeaf {
      assert paths[c] == paths[n];
    } else {
      assert c in Longer(h, paths, n) && c !in Longer(h, paths, c);
      assert Longer(h, paths, c) <= Longer(h, paths, n);
    }
  }

  /** greedy_match(node, vec): all leaves below a node. */
  method GreedyMatch<V>(h: Heap<V>, ghost paths: Paths, ghost root: Ref, node: Ref) returns (leaves: seq<Ref>)
    requires Linked(h, paths, root) && node in h
    ensures ListsBelow(h, paths, node, leaves)
    decreases Longer(h, paths, node), if h[node].isLeaf then 0 else 1
  {
    if h[node].isLeaf {
      return [node];
    }
    leaves := [];
    var rest := h[node].children.Keys;
    ghost var done: set<Key> := {};
    while rest != {}
      invariant done + rest == h[node].children.Keys
      invariant forall j, k :: j in done && k in rest ==> Less(j, k)
      invariant ListsChildren(h, paths, node, done, leaves)
      decreases rest
    {
      var k := First(rest);
      ChildIsSmaller(h, paths, root, node, k);
      var more := GreedyMatch(h, paths, root, h[node].children[k]);
      OneMoreChild(h, paths, root, node, done, k, leaves, more);
      leaves, rest, done := leaves + more, rest - {k}, done + {k};
    }
    assert done == h[node].children.Keys;
    AllChildren(h, paths, root, node, leaves);
  }

  /** The leaves listed are exactly the entries whose keys extend the query, in ascending
      order. */
  ghost predicate Matches<V>(h: Heap<V>, model: map<Key, V>, query: Key, leaves: seq<Ref>) {
    && (forall i :: 0 <= i < |leaves| ==> EntryAt(h, model, leaves[i]) && query <= KeyOf(h, leaves[i]))
    && (forall k :: k in model && query <= k ==> exists i :: 0 <= i < |leaves| && KeyOf(h, leaves[i]) == k)
    && (forall i, j :: 0 <= i < j < |leaves| ==> Less(KeyOf(h, leaves[i]), KeyOf(h, leaves[j])))
  }

  /** The node holds an entry of the map. */
  ghost predicate EntryAt<V>(h: Heap<V>, model: map<Key, V>, n: Ref) {
    n in h && h[n].isLeaf && h[n].value.Some? && KeyOf(h, n) in model && h[n].value.value.1 == model[KeyOf(h, n)]
  }

  lemma BelowMatches<V>(
    h: Heap<V>, paths: Paths, model: map<Key, V>, query: Key, n: Ref, leaves: seq<Ref>)
    requires paths.Keys == h.Keys && Stores(h, paths, model) && Inner(h, n) && ListsBelow(h, paths, n, leaves)
    requires forall m :: m in h && h[m].isLeaf ==> (query <= paths[m] <==> paths[n] <= paths[m])
    ensures Matches(h, model, query, leaves)
  {
    forall i | 0 <= i < |leaves|
      ensures EntryAt(h, model, leaves[i]) && KeyOf(h, leaves[i]) == paths[leaves[i]]
    {
      assert Below(h, paths, n, leaves[i]);
      assert EntryOk(h, paths, model, leaves[i]);
    }
    forall k | k in model && query <= k
      ensures exists i :: 0 <= i < |leaves| && KeyOf(h, leaves[i]) == k
    {
      assert HasLeaf(h, paths, k);
      var m :| m in h && Leaf(h, m) && paths[m] == k;
      assert Below(h, paths, n, m);
      var i :| 0 <= i < |leaves| && leaves[i] == m;
      assert KeyOf(h, leaves[i]) == k;
    }
  }

  lemma NothingMatches<V>(h: Heap<V>, paths: Paths, model: map<Key, V>, query: Key)
    requires paths.Keys == h.Keys && Stores(h, paths, model)
    requires forall m :: m in h && h[m].isLeaf ==> !(query <= paths[m])
    ensures Matches(h, model, query, [])
  {
    StoredLeaves(h, paths, model);
  }

  /** prefix_match: exactly the entries whose keys extend the query. */
  method PrefixMatch<V>(t: RadixTree<V>, query: Key) returns (leaves: seq<Ref>)
    requires t.Valid()
    ensures Matches(t.heap, t.model, query, leaves)
  {
    if t.root.None? {
      return [];
    }
    var h, root := t.heap, t.root.value;
    var node := t.FindNode(query, root, 0);
    if h[node].isLeaf {
      LeafHasParent(h, t.paths, root, node);
      node := h[node].parent.value;
    }
    ExtensionsBelowFound(h, t.paths, root, query, node);
    var len := |query| - h[node].depth;
    if SubKey(query, h[node].depth, len) != SubKey(h[node].key, 0, len) {
      NothingMatches(h, t.paths, t.model, query);
      return [];
    }
    leaves := GreedyMatch(h, t.paths, root, node);
    BelowMatches(h, t.paths, t.model, query, node, leaves);
  }

  /** The node at which the search for a prefix starts to collect. */
  ghost predicate Collects<V>(h: Heap<V>, paths: Paths, root: Ref, query: Key, n: Ref)
    requires paths.Keys == h.Keys
  {
    Inner(h, n) && (paths[n] == query || Located(h, paths, root, query, n))
  }

  lemma ExtensionsBelowFound<V>(h: Heap<V>, paths: Paths, root: Ref, query: Key, n: Ref)
    requires Linked(h, paths, root) && Collects(h, paths, root, query, n)
    ensures 0 <= h[n].depth <= |query|
    ensures forall m :: m in h && h[m].isLeaf ==> (query <= paths[m] <==> query <= paths[n] && paths[n] <= paths[m])
    ensures var len := |query| - h[n].depth;
            SubKey(query, h[n].depth, len) == SubKey(h[n].key, 0, len) <==> query <= paths[n]
  {
    assert NodeOk(h, paths, root, n);
    forall m | m in h && h[m].isLeaf
      ensures query <= paths[m] <==> query <= paths[n] && paths[n] <= paths[m]
    {
      if paths[n] != query {
        ExtensionsBelow(h, paths, root, query, n, m);
      }
    }
    PrefixOfNode(h, paths, root, query, n);
  }

  lemma PrefixOfNode<V>(h: Heap<V>, paths: Paths, root: Ref, query: Key, n: Ref)
    requires Linked(h, paths, root) && Collects(h, paths, root, query, n)
    ensures 0 <= h[n].depth <= |query|
    ensures var len := |query| - h[n].depth;
            SubKey(query, h[n].depth, len) == SubKey(h[n].key, 0, len) <==> query <= paths[n]
  {
    assert NodeOk(h, paths, root, n);
    if n != root {
      var p := h[n].parent.value;
      var d := |paths[p]|;
      assert paths[n] == paths[p] + h[n].key && d <= |query| && query[..d] == paths[p];
      assert query == query[..d] + query[d..];
      if |query| <= |paths[n]| {
        assert paths[n][..|query|] == paths[p] + h[n].key[..|query| - d];
      }
    }
  }

  // ----- longest match -----

  /** No stored prefix of the query reaches below n. */
  ghost predicate NoLonger<V>(h: Heap<V>, paths: Paths, query: Key, n: Ref)
    requires paths.Keys == h.Keys && n in h
  {
    forall m :: m in h && h[m].isLeaf && paths[m] <= query ==> |paths[m]| <= |paths[n]|
  }

  /** The node from which longest_match starts to climb. */
  lemma SearchEnd<V>(h: Heap<V>, paths: Paths, root: Ref, query: Key, n: Ref)
    requires Linked(h, paths, root) && Located(h, paths, root, query, n) && Inner(h, n)
    ensures StopsAt(h, paths, query, n) ==> NoLonger(h, paths, query, n)
    ensures !StopsAt(h, paths, query, n) ==>
              n != root && h[n].parent.Some? && Inner(h, h[n].parent.value)
              && paths[h[n].parent.value] <= query && NoLonger(h, paths, query, h[n].parent.value)
  {
    assert NodeOk(h, paths, root, n);
    forall m | m in h && h[m].isLeaf && paths[m] <= query
      ensures StopsAt(h, paths, query, n) ==> |paths[m]| <= |paths[n]|
      ensures !StopsAt(h, paths, query, n) ==> |paths[m]| <= |paths[h[n].parent.value]|
    {
      if StopsAt(h, paths, query, n) {
        if |paths[m]| > |paths[n]| {
          var k := NextSymbol(h, paths, root, n, m);
        }
      } else if |paths[m]| > |paths[h[n].parent.value]| {
        ChildLeadsOn(h, paths, root, n, m);
      }
    }
  }

  /** A leaf that extends the parent's path with the node's first symbol lies below the node. */
  lemma ChildLeadsOn<V>(h: Heap<V>, paths: Paths, root: Ref, n: Ref, m: Ref)
    requires Linked(h, paths, root) && Inner(h, n) && n != root && Leaf(h, m) && NodeOk(h, paths, root, n)
    requires var p := h[n].parent.value;
             paths[p] <= paths[m] && |paths[p]| < |paths[m]| && paths[m][|paths[p]|] == h[n].key[0]
    ensures paths[n] <= paths[m]
  {
    var p := h[n].parent.value;
    assert NodeOk(h, paths, root, p);
    var k := NextSymbol(h, paths, root, p, m);
  }

  lemma Climb<V>(h: Heap<V>, paths: Paths, root: Ref, query: Key, n: Ref)
    requires Linked(h, paths, root) && Inner(h, n) && paths[n] <= query && NoLonger(h, paths, query, n)
    requires [] !in h[n].children && NodeOk(h, paths, root, n)
    ensures n == root ==> forall m :: m in h && h[m].isLeaf ==> !(paths[m] <= query)
    ensures n != root ==> NoLonger(h, paths, query, h[n].parent.value)
  {
    forall m | m in h && h[m].isLeaf && paths[m] <= query
      ensures n != root && |paths[m]| <= |paths[h[n].parent.value]|
    {
      PrefixesCompare(paths[m], paths[n], query);
      if paths[m] == paths[n] {
        LeafAt(h, paths, root, n, m);
      }
      assert |paths[m]| < |paths[n]|;
      var p := h[n].parent.value;
      if |paths[m]| > |paths[p]| {
        PrefixesCompare(paths[p], paths[m], query);
        ChildLeadsOn(h, paths, root, n, m);
      }
    }
  }

  /** longest_match: the entry of the longest stored prefix of the query, if there is one. */
  method LongestMatch<V>(t: RadixTree<V>, query: Key) returns (leaf: Option<Ref>)
    requires t.Valid()
    ensures leaf.None? ==> forall k :: k in t.model ==> !(k <= query)
    ensures leaf.Some? ==>
              Leaf(t.heap, leaf.value) && t.heap[leaf.value].value.Some? &&
              var key := KeyOf(t.heap, leaf.value);
              && key in t.model && t.heap[leaf.value].value == Some((key, t.model[key])) && key <= query
              && forall k :: k in t.model && k <= query ==> |k| <= |key|
  {
    if t.root.None? {
      return None;
    }
    var h := t.heap;
    var root := t.root.value;
    var found := t.FindNode(query, root, 0);
    if h[found].isLeaf {
      assert EntryOk(h, t.paths, t.model, found);
      return Some(found);
    }
    SearchEnd(h, t.paths, root, query, found);
    FullKeyMatches(h, t.paths, root, query, found);
    var node := Some(found);
    if SubKey(query, h[found].depth, |h[found].key|) != h[found].key {
      node := h[found].parent;
    }
    while node.Some?
      invariant node.Some? ==>
                  Inner(h, node.value) && t.paths[node.value] <= query && NoLonger(h, t.paths, query, node.value)
      invariant node.None? ==> forall m :: m in h && h[m].isLeaf ==> !(t.paths[m] <= query)
      decreases if node.None? then 0 else |t.paths[node.value]| + 1
    {
      var n := node.value;
      assert NodeOk(h, t.paths, root, n);
      assert [] in h[n].children ==> NodeOk(h, t.paths, root, h[n].children[[]]);
      if [] in h[n].children && h[h[n].children[[]]].isLeaf {
        leaf := Some(h[n].children[[]]);
        assert NodeOk(h, t.paths, root, leaf.value) && t.paths[n] + [] == t.paths[n];
        assert EntryOk(h, t.paths, t.model, leaf.value);
        StoredLeaves(h, t.paths, t.model);
        return;
      }
      Climb(h, t.paths, root, query, n);
      node := h[n].parent;
    }
    StoredLeaves(h, t.paths, t.model);
    return None;
  }

  lemma StoredLeaves<V>(h: Heap<V>, paths: Paths, model: map<Key, V>)
    requires paths.Keys == h.Keys && Stores(h, paths, model)
    ensures forall k :: k in model ==> exists m :: m in h && h[m].isLeaf && paths[m] == k
  {
    forall k | k in model
      ensures exists m :: m in h && h[m].isLeaf && paths[m] == k
    {
      assert HasLeaf(h, paths, k);
    }
  }
}
