/** Iteration over a radix tree (external/radix_tree/radix_tree_it.hpp): from leaf to leaf in
    ascending order of the keys. */
module RadixIterator {
  import opened AsmSyntax
  import opened RadixHeap
  import opened RadixPaths

  // ----- the order of keys -----

  /** std::less on keys: lexicographic order. */
  predicate Less(a: Key, b: Key) {
    b != [] && (a == [] || a[0] < b[0] || (a[0] == b[0] && Less(a[1..], b[1..])))
  }

  /** At symbol i the two keys part, and a goes the smaller way. */
  ghost predicate Parts(a: Key, b: Key, i: nat) {
    i < |a| && i < |b| && a[..i] == b[..i] && a[i] < b[i]
  }

  lemma {:induction false} LessParts(a: Key, b: Key, i: nat)
    requires Parts(a, b, i)
    ensures Less(a, b)
  {
    if i > 0 {
      assert a[0] == a[..i][0] && b[0] == b[..i][0];
      assert a[1..][..i - 1] == a[..i][1..] && b[1..][..i - 1] == b[..i][1..];
      LessParts(a[1..], b[1..], i - 1);
    }
  }

  lemma {:induction false} LessPrefix(a: Key, b: Key)
    requires a < b
    ensures Less(a, b)
  {
    if a != [] {
      assert a[1..] < b[1..];
      LessPrefix(a[1..], b[1..]);
    }
  }

  /** A smaller key either parts from the larger one or is a prefix of it. */
  lemma {:induction false} LessMeans(a: Key, b: Key) returns (i: nat)
    requires Less(a, b)
    ensures Parts(a, b, i) || a < b
  {
    i := 0;
    if a != [] && a[0] == b[0] {
      var j := LessMeans(a[1..], b[1..]);
      if Parts(a[1..], b[1..], j) {
        i := j + 1;
        assert a[..i] == [a[0]] + a[1..][..j] && b[..i] == [b[0]] + b[1..][..j];
      } else {
        assert a == [a[0]] + a[1..] && b == [b[0]] + b[1..];
      }
    }
  }

  lemma {:induction false} LessTotal(a: Key, b: Key)
    ensures Less(a, b) || Less(b, a) || a == b
  {
    if a != [] && b != [] && a[0] == b[0] {
      LessTotal(a[1..], b[1..]);
      assert a == [a[0]] + a[1..] && b == [b[0]] + b[1..];
    }
  }

  lemma {:induction false} LessTransitive(a: Key, b: Key, c: Key)
    requires Less(a, b) && Less(b, c)
    ensures Less(a, c)
  {
    if a != [] && a[0] == b[0] == c[0] {
      LessTransitive(a[1..], b[1..], c[1..]);
    }
  }

  lemma {:induction false} LessIrreflexive(a: Key)
    ensures !Less(a, a)
  {
    if a != [] {
      LessIrreflexive(a[1..]);
    }
  }

  predicate IsLeast(k: Key, keys: set<Key>) {
    k in keys && forall j :: j in keys && j != k ==> Less(k, j)
  }

  lemma {:induction false} LeastExists(keys: set<Key>) returns (k: Key)
    requires keys != {}
    ensures IsLeast(k, keys)
  {
    k :| k in keys;
    var rest := keys - {k};
    if rest != {} {
      var m := LeastExists(rest);
      LessTotal(k, m);
      if Less(m, k) {
        k := m;
        assert forall j :: j in keys ==> j in rest || Less(m, j);
      } else {
        forall j | j in rest
          ensures Less(k, j)
        {
          if j != m {
            LessTransitive(k, m, j);
          }
        }
        assert forall j :: j in keys ==> j in rest || j == k;
      }
    } else {
      assert forall j :: j in keys ==> j in rest || j == k;
    }
  }

  /** The first key of a std::map. */
  method First(keys: set<Key>) returns (k: Key)
    requires keys != {}
    ensures IsLeast(k, keys)
  {
    ghost var w := LeastExists(keys);
    k :| IsLeast(k, keys);
  }

  // ----- leaves below a node, and leaves after it -----

  ghost predicate Below<V>(h: Heap<V>, paths: Paths, n: Ref, m: Ref)
    requires paths.Keys == h.Keys
  {
    n in h && Leaf(h, m) && (if h[n].isLeaf then m == n else paths[n] <= paths[m])
  }

  /** A leaf below an inner node lies below one of its children. */
  lemma BelowChild<V>(h: Heap<V>, paths: Paths, root: Ref, n: Ref, m: Ref) returns (k: Key)
    requires Linked(h, paths, root) && Inner(h, n) && Below(h, paths, n, m)
    ensures k in h[n].children && Below(h, paths, h[n].children[k], m)
  {
    k := Descent(h, paths, root, n, m);
    assert NodeOk(h, paths, root, n) && NodeOk(h, paths, root, h[n].children[k]);
  }

  /** A leaf below a child lies below the node. */
  lemma ChildBelow<V>(h: Heap<V>, paths: Paths, root: Ref, n: Ref, k: Key, m: Ref)
    requires Linked(h, paths, root) && Inner(h, n) && k in h[n].children
    requires Below(h, paths, h[n].children[k], m)
    ensures Below(h, paths, n, m)
  {
    assert NodeOk(h, paths, root, n) && NodeOk(h, paths, root, h[n].children[k]);
  }

  lemma BelowStartsWith<V>(h: Heap<V>, paths: Paths, root: Ref, n: Ref, k: Key, m: Ref)
    requires Linked(h, paths, root) && Inner(h, n) && k in h[n].children
    requires Below(h, paths, h[n].children[k], m)
    ensures paths[n] <= paths[m] && (k == [] ==> paths[m] == paths[n])
    ensures k != [] ==> |paths[n]| < |paths[m]| && paths[m][|paths[n]|] == k[0]
  {
    var c := h[n].children[k];
    assert NodeOk(h, paths, root, n) && NodeOk(h, paths, root, c);
    assert paths[c] == paths[n] + k;
    if k != [] {
      assert paths[c][|paths[n]|] == k[0];
    }
  }

  /** Below a smaller child all keys are smaller. */
  lemma SiblingsApart<V>(h: Heap<V>, paths: Paths, root: Ref, n: Ref, j: Key, k: Key, a: Ref, b: Ref)
    requires Linked(h, paths, root) && Inner(h, n) && j in h[n].children && k in h[n].children && Less(j, k)
    requires Below(h, paths, h[n].children[j], a) && Below(h, paths, h[n].children[k], b)
    ensures Less(paths[a], paths[b])
  {
    BelowStartsWith(h, paths, root, n, j, a);
    BelowStartsWith(h, paths, root, n, k, b);
    assert NodeOk(h, paths, root, n);
    LessIrreflexive(k);
    if j == [] {
      LessPrefix(paths[a], paths[b]);
    } else {
      LessParts(paths[a], paths[b], |paths[n]|);
    }
  }

  /** The leaf m comes after everything below n. */
  ghost predicate After<V>(h: Heap<V>, paths: Paths, n: Ref, m: Ref)
    requires paths.Keys == h.Keys
  {
    n in h && Leaf(h, m) &&
    if h[n].isLeaf then Less(paths[n], paths[m]) else exists i: nat :: Parts(paths[n], paths[m], i)
  }

  /** What comes after a child: what lies below a larger sibling, or comes after the parent. */
  lemma AfterChild<V>(h: Heap<V>, paths: Paths, root: Ref, n: Ref, k: Key, m: Ref) returns (j: Key)
    requires Linked(h, paths, root) && Inner(h, n) && k in h[n].children
    requires After(h, paths, h[n].children[k], m)
    ensures After(h, paths, n, m)
            || (j in h[n].children && Less(k, j) && Below(h, paths, h[n].children[j], m))
  {
    var c := h[n].children[k];
    assert NodeOk(h, paths, root, n) && NodeOk(h, paths, root, c);
    assert paths[c] == paths[n] + k;
    j := k;
    var i: nat;
    if h[c].isLeaf {
      i := LessMeans(paths[c], paths[m]);
    } else {
      i :| Parts(paths[c], paths[m], i);
    }
    if i < |paths[n]| && Parts(paths[c], paths[m], i) {
      assert paths[n][..i] == paths[c][..i];
      assert Parts(paths[n], paths[m], i);
    } else {
      assert paths[n] <= paths[m];
      j := BelowChild(h, paths, root, n, m);
      BelowStartsWith(h, paths, root, n, j, m);
      if k != [] {
        assert paths[c][|paths[n]|] == k[0];
        if i > |paths[n]| {
          assert false;
        }
      }
    }
  }

  /** The other way round. */
  lemma AfterParent<V>(h: Heap<V>, paths: Paths, root: Ref, n: Ref, k: Key, m: Ref)
    requires Linked(h, paths, root) && Inner(h, n) && k in h[n].children && After(h, paths, n, m)
    ensures After(h, paths, h[n].children[k], m)
  {
    var c := h[n].children[k];
    assert NodeOk(h, paths, root, n) && NodeOk(h, paths, root, c);
    var i: nat :| Parts(paths[n], paths[m], i);
    assert paths[c][..i] == paths[n][..i];
    assert Parts(paths[c], paths[m], i);
    LessParts(paths[c], paths[m], i);
  }

  lemma AfterSibling<V>(h: Heap<V>, paths: Paths, root: Ref, n: Ref, k: Key, j: Key, m: Ref)
    requires Linked(h, paths, root) && Inner(h, n) && k in h[n].children && j in h[n].children && Less(k, j)
    requires Below(h, paths, h[n].children[j], m)
    ensures After(h, paths, h[n].children[k], m)
  {
    var c := h[n].children[k];
    assert NodeOk(h, paths, root, n) && NodeOk(h, paths, root, c);
    BelowStartsWith(h, paths, root, n, j, m);
    LessIrreflexive(j);
    if k == [] {
      LessPrefix(paths[c], paths[m]);
    } else {
      assert paths[c][|paths[n]|] == k[0] && paths[c][..|paths[n]|] == paths[n];
      assert Parts(paths[c], paths[m], |paths[n]|);
    }
  }

  /** Everything below n is smaller than everything after it. */
  lemma BelowAfter<V>(h: Heap<V>, paths: Paths, n: Ref, a: Ref, m: Ref)
    requires paths.Keys == h.Keys && Below(h, paths, n, a) && After(h, paths, n, m)
    ensures Less(paths[a], paths[m])
  {
    if !h[n].isLeaf {
      var i: nat :| Parts(paths[n], paths[m], i);
      assert paths[a][..i] == paths[n][..i];
      LessParts(paths[a], paths[m], i);
    }
  }

  // ----- descend and increment -----

  /** No leaf below n is smaller. */
  ghost predicate FirstBelow<V>(h: Heap<V>, paths: Paths, n: Ref, leaf: Ref)
    requires paths.Keys == h.Keys
  {
    && Below(h, paths, n, leaf)
    && forall m :: m in h && Below(h, paths, n, m) && m != leaf ==> Less(paths[leaf], paths[m])
  }

  /** descend, and radix_tree::begin(node): the first leaf below a node. */
  method Descend<V>(h: Heap<V>, ghost paths: Paths, ghost root: Ref, node: Ref) returns (leaf: Ref)
    requires Linked(h, paths, root) && Shaped(h, root) && node in h
    requires node == root ==> h[node].children != map[]
    ensures FirstBelow(h, paths, node, leaf)
    decreases Longer(h, paths, node), if h[node].isLeaf then 0 else 1
  {
    if h[node].isLeaf {
      return node;
    }
    assert NodeOk(h, paths, root, node) && Compressed(h, root, node);
    var k := First(h[node].children.Keys);
    var child := h[node].children[k];
    assert NodeOk(h, paths, root, child);
    assert Longer(h, paths, child) <= Longer(h, paths, node);
    if !h[child].isLeaf {
      assert child in Longer(h, paths, node) && child !in Longer(h, paths, child);
    }
    leaf := Descend(h, paths, root, child);
    ChildBelow(h, paths, root, node, k, leaf);
    forall m | m in h && Below(h, paths, node, m) && m != leaf
      ensures Less(paths[leaf], paths[m])
    {
      var j := BelowChild(h, paths, root, node, m);
      if j != k {
        SiblingsApart(h, paths, root, node, k, j, leaf, m);
      }
    }
  }

  /** The first leaf after a node. */
  ghost predicate FirstAfter<V>(h: Heap<V>, paths: Paths, n: Ref, leaf: Option<Ref>)
    requires paths.Keys == h.Keys
  {
    match leaf
    case None => forall m :: m in h ==> !After(h, paths, n, m)
    case Some(a) =>
      && a in h && After(h, paths, n, a)
      && forall m :: m in h && After(h, paths, n, m) && m != a ==> Less(paths[a], paths[m])
  }

  lemma NothingAfterRoot<V>(h: Heap<V>, paths: Paths, root: Ref)
    requires Linked(h, paths, root)
    ensures FirstAfter(h, paths, root, None)
  {
  }

  lemma LastChild<V>(h: Heap<V>, paths: Paths, root: Ref, n: Ref, k: Key, leaf: Option<Ref>)
    requires Linked(h, paths, root) && Inner(h, n) && k in h[n].children
    requires forall j :: j in h[n].children ==> !Less(k, j)
    requires FirstAfter(h, paths, n, leaf)
    ensures FirstAfter(h, paths, h[n].children[k], leaf)
  {
    var c := h[n].children[k];
    forall m | m in h && After(h, paths, c, m)
      ensures After(h, paths, n, m)
    {
      var j := AfterChild(h, paths, root, n, k, m);
    }
    if leaf.Some? {
      assert NodeOk(h, paths, root, n);
      AfterParent(h, paths, root, n, k, leaf.value);
    }
  }

  lemma NextChild<V>(h: Heap<V>, paths: Paths, root: Ref, n: Ref, k: Key, j: Key, leaf: Ref)
    requires Linked(h, paths, root) && Inner(h, n) && k in h[n].children
    requires IsLeast(j, set x | x in h[n].children && Less(k, x))
    requires FirstBelow(h, paths, h[n].children[j], leaf)
    ensures FirstAfter(h, paths, h[n].children[k], Some(leaf))
  {
    var c := h[n].children[k];
    AfterSibling(h, paths, root, n, k, j, leaf);
    forall m | m in h && After(h, paths, c, m) && m != leaf
      ensures Less(paths[leaf], paths[m])
    {
      var i := AfterChild(h, paths, root, n, k, m);
      if After(h, paths, n, m) {
        AfterParent(h, paths, root, n, j, m);
        BelowAfter(h, paths, h[n].children[j], leaf, m);
      } else if i != j {
        SiblingsApart(h, paths, root, n, j, i, leaf, m);
      }
    }
  }

  /** increment: on to the next sibling, or up until there is one. */
  method Increment<V>(h: Heap<V>, ghost paths: Paths, ghost root: Ref, node: Ref) returns (leaf: Option<Ref>)
    requires Linked(h, paths, root) && Shaped(h, root) && node in h
    ensures FirstAfter(h, paths, node, leaf)
    decreases |paths[node]|, if h[node].isLeaf then 1 else 0
  {
    assert NodeOk(h, paths, root, node);
    if h[node].parent.None? {
      NothingAfterRoot(h, paths, root);
      return None;
    }
    var parent := h[node].parent.value;
    assert node != root;
    assert NodeOk(h, paths, root, parent);
    var later := set k | k in h[parent].children && Less(h[node].key, k);
    if later == {} {
      assert forall k :: k in h[parent].children ==> k in later || !Less(h[node].key, k);
      leaf := Increment(h, paths, root, parent);
      LastChild(h, paths, root, parent, h[node].key, leaf);
    } else {
      var k := First(later);
      assert NodeOk(h, paths, root, h[parent].children[k]);
      var first := Descend(h, paths, root, h[parent].children[k]);
      NextChild(h, paths, root, parent, h[node].key, k, first);
      leaf := Some(first);
    }
  }
}
