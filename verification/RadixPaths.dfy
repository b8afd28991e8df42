/** What the links of a radix tree say about paths: nodes are where their path puts them. */
module RadixPaths {
  import opened RadixHeap

  /** Two prefixes of the same key are comparable. */
  lemma PrefixesCompare(a: Key, b: Key, k: Key)
    requires a <= k && b <= k && |a| <= |b|
    ensures a <= b
  {
  }

  lemma SameAfterPrefix(a: Key, j: Key, k: Key, m: Key)
    requires a + j <= m && a + k <= m && j != [] && k != []
    ensures j[0] == k[0]
  {
    assert j[0] == (a + j)[|a|] == m[|a|];
    assert k[0] == (a + k)[|a|] == m[|a|];
  }

  ghost function Rank<V>(h: Heap<V>, paths: Paths, n: Ref, m: Ref): nat
    requires paths.Keys == h.Keys && n in h && m in h
  {
    2 * |paths[n]| + 2 * |paths[m]| + (if h[m].isLeaf then 1 else 0)
  }

  /** A node whose path extends that of an inner node lies below it: some child leads on. */
  lemma {:induction false} Descent<V>(h: Heap<V>, paths: Paths, root: Ref, n: Ref, m: Ref)
    returns (k: Key)
    requires Linked(h, paths, root) && Inner(h, n) && m in h && m != n && paths[n] <= paths[m]
    ensures k in h[n].children && paths[n] + k <= paths[m]
    ensures k == [] ==> h[n].children[k] == m
    decreases Rank(h, paths, n, m), 1
  {
    assert NodeOk(h, paths, root, n) && NodeOk(h, paths, root, m);
    assert m != root;
    var p := h[m].parent.value;
    assert NodeOk(h, paths, root, p);
    if |paths[n]| <= |paths[p]| {
      PrefixesCompare(paths[n], paths[p], paths[m]);
      if n == p {
        k := h[m].key;
      } else {
        k := Descent(h, paths, root, n, p);
        assert paths[p] <= paths[m];
      }
    } else {
      PrefixesCompare(paths[p], paths[n], paths[m]);
      var j := Descent(h, paths, root, p, n);
      assert NodeOk(h, paths, root, h[p].children[j]);
      assert j != [] && h[m].key != [];
      SameAfterPrefix(paths[p], j, h[m].key, paths[m]);
      assert j == h[m].key;
      UniqueInner(h, paths, root, n, m);
      k := [];
    }
  }

  /** Inner nodes are determined by their paths. */
  lemma {:induction false} UniqueInner<V>(h: Heap<V>, paths: Paths, root: Ref, n: Ref, m: Ref)
    requires Linked(h, paths, root) && Inner(h, n) && Inner(h, m) && paths[n] == paths[m]
    ensures n == m
    decreases Rank(h, paths, n, m), 0
  {
    assert NodeOk(h, paths, root, n) && NodeOk(h, paths, root, m);
    if n != root && m != root {
      var q, p := h[n].parent.value, h[m].parent.value;
      if |paths[q]| <= |paths[p]| {
        ParentsAgree(h, paths, root, n, m);
      } else {
        ParentsAgree(h, paths, root, m, n);
      }
    }
  }

  lemma {:induction false} ParentsAgree<V>(h: Heap<V>, paths: Paths, root: Ref, n: Ref, m: Ref)
    requires Linked(h, paths, root) && Inner(h, n) && Inner(h, m) && paths[n] == paths[m] && n != root && m != root
    requires NodeOk(h, paths, root, n) && NodeOk(h, paths, root, m)
    requires |paths[h[n].parent.value]| <= |paths[h[m].parent.value]|
    ensures n == m
    decreases 4 * |paths[n]|, 0, 0
  {
    var q, p := h[n].parent.value, h[m].parent.value;
    PrefixesCompare(paths[q], paths[p], paths[n]);
    if q != p {
      var k := Descent(h, paths, root, q, p);
      assert NodeOk(h, paths, root, q) && NodeOk(h, paths, root, h[q].children[k]);
      assert k != [];
      assert paths[p] <= paths[n];
      SameAfterPrefix(paths[q], k, h[n].key, paths[n]);
      assert false;
    }
    assert paths[q] + h[n].key == paths[q] + h[m].key;
    assert h[n].key == (paths[q] + h[n].key)[|paths[q]|..] == (paths[q] + h[m].key)[|paths[q]|..] == h[m].key;
  }

  /** Leaves are determined by their paths. */
  lemma UniqueLeaf<V>(h: Heap<V>, paths: Paths, root: Ref, n: Ref, m: Ref)
    requires Linked(h, paths, root) && Leaf(h, n) && Leaf(h, m) && paths[n] == paths[m]
    ensures n == m
  {
    assert NodeOk(h, paths, root, n) && NodeOk(h, paths, root, m);
    var p, q := h[n].parent.value, h[m].parent.value;
    assert paths[p] + [] == paths[p] && paths[q] + [] == paths[q];
    UniqueInner(h, paths, root, p, q);
  }

  // ----- where a search ends -----

  /** The outcome of find_node: the leaf of the key itself; or the inner node where the
      key stops without a child to go on; or the child whose key it leaves halfway. */
  ghost predicate Located<V>(h: Heap<V>, paths: Paths, root: Ref, key: Key, n: Ref)
    requires paths.Keys == h.Keys
  {
    && n in h
    && (h[n].isLeaf ==> paths[n] == key)
    && (!h[n].isLeaf ==> StopsAt(h, paths, key, n) || LeavesInside(h, paths, root, key, n))
  }

  ghost predicate StopsAt<V>(h: Heap<V>, paths: Paths, key: Key, n: Ref)
    requires paths.Keys == h.Keys && n in h
  {
    && paths[n] <= key
    && (|key| == |paths[n]| ==> [] !in h[n].children)
    && (|key| > |paths[n]| ==> forall k :: k in h[n].children && k != [] ==> k[0] != key[|paths[n]|])
  }

  ghost predicate LeavesInside<V>(h: Heap<V>, paths: Paths, root: Ref, key: Key, n: Ref)
    requires paths.Keys == h.Keys && n in h
  {
    h[n].parent.Some? &&
    var p := h[n].parent.value;
    && n != root && p in h && paths[p] <= key && !(paths[n] <= key)
    && |key| > |paths[p]| && h[n].key != [] && h[n].key[0] == key[|paths[p]|]
  }

  /** Below an inner node, the child that leads to m is the one with the next symbol. */
  lemma NextSymbol<V>(h: Heap<V>, paths: Paths, root: Ref, n: Ref, m: Ref)
    returns (k: Key)
    requires Linked(h, paths, root) && Inner(h, n) && m in h && paths[n] <= paths[m] && |paths[n]| < |paths[m]|
    ensures k in h[n].children && paths[n] + k <= paths[m] && k != [] && k[0] == paths[m][|paths[n]|]
  {
    assert NodeOk(h, paths, root, n) && NodeOk(h, paths, root, m);
    k := Descent(h, paths, root, n, m);
    assert k[0] == (paths[n] + k)[|paths[n]|];
  }

  /** A leaf directly at an inner node's path is its child. */
  lemma LeafAt<V>(h: Heap<V>, paths: Paths, root: Ref, n: Ref, m: Ref)
    requires Linked(h, paths, root) && Inner(h, n) && Leaf(h, m) && paths[n] == paths[m]
    ensures [] in h[n].children && h[n].children[[]] == m
  {
    var k := Descent(h, paths, root, n, m);
    assert k == [];
  }

  /** A search that ends at an inner node has shown that the key is not stored. */
  lemma LocatedMeansAbsent<V>(h: Heap<V>, paths: Paths, root: Ref, key: Key, n: Ref, m: Ref)
    requires Linked(h, paths, root) && Located(h, paths, root, key, n) && Inner(h, n) && Leaf(h, m)
    ensures paths[m] != key
  {
    if paths[m] == key {
      if StopsAt(h, paths, key, n) {
        if |paths[n]| == |key| {
          LeafAt(h, paths, root, n, m);
        } else {
          var k := NextSymbol(h, paths, root, n, m);
        }
      } else {
        var p := h[n].parent.value;
        assert NodeOk(h, paths, root, n) && NodeOk(h, paths, root, p);
        var k := NextSymbol(h, paths, root, p, m);
      }
    }
  }

  /** Below whom a search for a prefix has to look: all stored extensions of the query lie
      below the node found, and if the query is longer than its path, there are none. */
  lemma ExtensionsBelow<V>(h: Heap<V>, paths: Paths, root: Ref, query: Key, n: Ref, m: Ref)
    requires Linked(h, paths, root) && Located(h, paths, root, query, n) && Inner(h, n) && Leaf(h, m)
    ensures query <= paths[m] <==> query <= paths[n] && paths[n] <= paths[m]
  {
    if query <= paths[m] {
      if StopsAt(h, paths, query, n) {
        if |paths[n]| < |query| {
          var k := NextSymbol(h, paths, root, n, m);
        }
      } else {
        var p := h[n].parent.value;
        assert NodeOk(h, paths, root, n) && NodeOk(h, paths, root, p);
        var k := NextSymbol(h, paths, root, p, m);
        assert k == h[n].key;
        if |query| <= |paths[n]| {
          PrefixesCompare(query, paths[n], paths[m]);
        }
      }
    }
  }

  // ----- the shape is determined by the keys -----

  /** Two stored keys part at p. */
  ghost predicate Branches<V>(h: Heap<V>, paths: Paths, p: Key, a: Ref, b: Ref)
    requires paths.Keys == h.Keys
  {
    && Leaf(h, a) && Leaf(h, b) && p <= paths[a] && p <= paths[b]
    && |p| < |paths[a]| && |p| < |paths[b]| && paths[a][|p|] != paths[b][|p|]
  }

  ghost function Longer<V>(h: Heap<V>, paths: Paths, n: Ref): set<Ref>
    requires paths.Keys == h.Keys && n in h
  {
    set x | x in h && |paths[x]| > |paths[n]|
  }

  /** Every inner node but the root has a leaf below it. */
  lemma {:induction false} LeafBelow<V>(h: Heap<V>, paths: Paths, root: Ref, n: Ref) returns (m: Ref)
    requires Linked(h, paths, root) && Shaped(h, root) && n in h && n != root
    ensures Leaf(h, m) && paths[n] <= paths[m]
    decreases Longer(h, paths, n)
  {
    assert NodeOk(h, paths, root, n);
    if h[n].isLeaf {
      m := n;
    } else {
      assert Compressed(h, root, n);
      var k :| k in h[n].children;
      var c := h[n].children[k];
      assert NodeOk(h, paths, root, c);
      if c in Longer(h, paths, n) {
        assert c !in Longer(h, paths, c);
        assert Longer(h, paths, c) <= Longer(h, paths, n);
        m := LeafBelow(h, paths, root, c);
      } else {
        m := c;
      }
    }
  }

  /** An inner node but the root stands where a stored key ends or two of them part. */
  lemma InnerNodeIsNeeded<V>(h: Heap<V>, paths: Paths, root: Ref, n: Ref)
    returns (a: Ref, b: Ref)
    requires Linked(h, paths, root) && Shaped(h, root) && Inner(h, n) && n != root
    ensures (Leaf(h, a) && paths[a] == paths[n]) || Branches(h, paths, paths[n], a, b)
  {
    assert NodeOk(h, paths, root, n) && Compressed(h, root, n);
    if [] in h[n].children {
      a, b := h[n].children[[]], n;
      assert NodeOk(h, paths, root, a) && paths[n] + [] == paths[n];
    } else {
      var j, k := TwoKeys(h[n].children);
      a := BranchLeaf(h, paths, root, n, j);
      b := BranchLeaf(h, paths, root, n, k);
    }
  }

  lemma TwoKeys<V>(m: map<Key, V>) returns (j: Key, k: Key)
    requires |m| >= 2
    ensures j in m && k in m && j != k
  {
    j :| j in m;
    assert m.Keys != {j} by {
      assert |m.Keys| == |m|;
    }
    k :| k in m && k != j;
  }

  lemma BranchLeaf<V>(h: Heap<V>, paths: Paths, root: Ref, n: Ref, k: Key) returns (m: Ref)
    requires Linked(h, paths, root) && Shaped(h, root) && Inner(h, n) && k in h[n].children && k != []
    ensures Leaf(h, m) && paths[n] <= paths[m] && |paths[n]| < |paths[m]| && paths[m][|paths[n]|] == k[0]
  {
    assert NodeOk(h, paths, root, n);
    var c := h[n].children[k];
    assert NodeOk(h, paths, root, c);
    m := LeafBelow(h, paths, root, c);
    assert paths[c][|paths[n]|] == k[0];
  }

  /** Where a stored key ends, there is an inner node. */
  lemma KeyHasInnerNode<V>(h: Heap<V>, paths: Paths, root: Ref, m: Ref) returns (n: Ref)
    requires Linked(h, paths, root) && Leaf(h, m)
    ensures Inner(h, n) && paths[n] == paths[m] && (paths[m] != [] ==> n != root)
  {
    assert NodeOk(h, paths, root, m);
    n := h[m].parent.value;
    assert paths[n] + [] == paths[n];
  }

  /** Where two stored keys part, there is an inner node. */
  lemma {:induction false} BranchHasInnerNode<V>(
    h: Heap<V>, paths: Paths, root: Ref, p: Key, a: Ref, b: Ref, from: Ref) returns (n: Ref)
    requires Linked(h, paths, root) && Branches(h, paths, p, a, b) && Inner(h, from) && paths[from] <= p
    ensures Inner(h, n) && paths[n] == p
    decreases |p| - |paths[from]|
  {
    if paths[from] == p {
      n := from;
    } else {
      assert NodeOk(h, paths, root, from);
      var j := NextSymbol(h, paths, root, from, a);
      var k := NextSymbol(h, paths, root, from, b);
      assert j == k;
      var c := h[from].children[k];
      assert NodeOk(h, paths, root, c);
      assert |paths[c]| <= |p|;
      PrefixesCompare(paths[c], p, paths[a]);
      n := BranchHasInnerNode(h, paths, root, p, a, b, c);
    }
  }

  /** The same keys are stored. */
  ghost predicate SameKeys<V>(h: Heap<V>, paths: Paths, h': Heap<V>, paths': Paths)
    requires paths.Keys == h.Keys && paths'.Keys == h'.Keys
  {
    && (forall m :: m in h && h[m].isLeaf ==> exists m' :: m' in h' && Leaf(h', m') && paths'[m'] == paths[m])
    && (forall m' :: m' in h' && h'[m'].isLeaf ==> exists m :: m in h && Leaf(h, m) && paths[m] == paths'[m'])
  }

  lemma SameLeaf<V>(h: Heap<V>, paths: Paths, h': Heap<V>, paths': Paths, m: Ref) returns (m': Ref)
    requires paths.Keys == h.Keys && paths'.Keys == h'.Keys && SameKeys(h, paths, h', paths') && Leaf(h, m)
    ensures Leaf(h', m') && paths'[m'] == paths[m]
  {
    m' :| m' in h' && Leaf(h', m') && paths'[m'] == paths[m];
  }

  /** Trees with the same keys have inner nodes at the same places. */
  lemma SamePlaces<V>(
    h: Heap<V>, paths: Paths, root: Ref, h': Heap<V>, paths': Paths, root': Ref, n: Ref)
    returns (n': Ref)
    requires Linked(h, paths, root) && Shaped(h, root) && Linked(h', paths', root')
    requires SameKeys(h, paths, h', paths') && Inner(h, n)
    ensures Inner(h', n') && paths'[n'] == paths[n]
  {
    if n == root {
      n' := root';
      return;
    }
    var a, b := InnerNodeIsNeeded(h, paths, root, n);
    var a' := SameLeaf(h, paths, h', paths', a);
    if paths[a] == paths[n] {
      n' := KeyHasInnerNode(h', paths', root', a');
    } else {
      var b' := SameLeaf(h, paths, h', paths', b);
      n' := BranchHasInnerNode(h', paths', root', paths[n], a', b', root');
    }
  }

  /** History independence: at the same place, trees with the same keys have the same
      children, so the whole tree is determined by the keys it stores. */
  lemma SameChildren<V>(
    h: Heap<V>, paths: Paths, root: Ref, h': Heap<V>, paths': Paths, root': Ref, n: Ref, n': Ref)
    requires Linked(h, paths, root) && Shaped(h, root) && Linked(h', paths', root') && Shaped(h', root')
    requires SameKeys(h, paths, h', paths') && Inner(h, n) && Inner(h', n') && paths[n] == paths'[n']
    ensures h[n].children.Keys == h'[n'].children.Keys
  {
    forall k | k in h[n].children
      ensures k in h'[n'].children
    {
      ChildCarriesOver(h, paths, root, h', paths', root', n, n', k);
    }
    forall k | k in h'[n'].children
      ensures k in h[n].children
    {
      ChildCarriesOver(h', paths', root', h, paths, root, n', n, k);
    }
  }

  /** The tree as a shape, without addresses: where the inner nodes stand, and under which
      keys their children hang. */
  ghost function Shape<V>(h: Heap<V>, paths: Paths): set<(Key, set<Key>)>
    requires paths.Keys == h.Keys
  {
    set n | n in h && !h[n].isLeaf :: (paths[n], h[n].children.Keys)
  }

  lemma ShapeCarriesOver<V>(
    h: Heap<V>, paths: Paths, root: Ref, h': Heap<V>, paths': Paths, root': Ref)
    requires Linked(h, paths, root) && Shaped(h, root) && Linked(h', paths', root') && Shaped(h', root')
    requires SameKeys(h, paths, h', paths')
    ensures Shape(h, paths) <= Shape(h', paths')
  {
    forall n | n in h && !h[n].isLeaf
      ensures (paths[n], h[n].children.Keys) in Shape(h', paths')
    {
      var n' := SamePlaces(h, paths, root, h', paths', root', n);
      SameChildren(h, paths, root, h', paths', root', n, n');
    }
  }

  lemma ChildCarriesOver<V>(
    h: Heap<V>, paths: Paths, root: Ref, h': Heap<V>, paths': Paths, root': Ref,
    n: Ref, n': Ref, k: Key)
    requires Linked(h, paths, root) && Shaped(h, root) && Linked(h', paths', root') && Shaped(h', root')
    requires SameKeys(h, paths, h', paths') && Inner(h, n) && Inner(h', n') && paths[n] == paths'[n']
    requires k in h[n].children
    ensures k in h'[n'].children
  {
    assert NodeOk(h, paths, root, n);
    if k == [] {
      LeafCarriesOver(h, paths, root, h', paths', root', n, n');
    } else {
      InnerCarriesOver(h, paths, root, h', paths', root', n, n', k);
    }
  }

  lemma LeafCarriesOver<V>(
    h: Heap<V>, paths: Paths, root: Ref, h': Heap<V>, paths': Paths, root': Ref, n: Ref, n': Ref)
    requires Linked(h, paths, root) && Linked(h', paths', root') && SameKeys(h, paths, h', paths')
    requires Inner(h, n) && Inner(h', n') && paths[n] == paths'[n'] && [] in h[n].children
    ensures [] in h'[n'].children
  {
    assert NodeOk(h, paths, root, n);
    var c := h[n].children[[]];
    assert NodeOk(h, paths, root, c);
    assert paths[n] + [] == paths[n];
    var m' := SameLeaf(h, paths, h', paths', c);
    LeafAt(h', paths', root', n', m');
  }

  /** The child that the first symbol of k leads to, seen from either tree. */
  lemma InnerCarriesOver<V>(
    h: Heap<V>, paths: Paths, root: Ref, h': Heap<V>, paths': Paths, root': Ref,
    n: Ref, n': Ref, k: Key)
    requires Linked(h, paths, root) && Shaped(h, root) && Linked(h', paths', root') && Shaped(h', root')
    requires SameKeys(h, paths, h', paths') && Inner(h, n) && Inner(h', n') && paths[n] == paths'[n']
    requires k in h[n].children && k != []
    ensures k in h'[n'].children
  {
    var c := InnerChild(h, paths, root, n, k);
    var c' := SamePlaces(h, paths, root, h', paths', root', c);
    var k' := NextSymbol(h', paths', root', n', c');
    var d' := InnerChild(h', paths', root', n', k');
    var d := SamePlaces(h', paths', root', h, paths, root, d');
    var j := NextSymbol(h, paths, root, n, d);
    assert NodeOk(h, paths, root, n);
    assert j == k;
    SameExtension(paths[n], k, k');
  }

  lemma SameExtension(p: Key, j: Key, k: Key)
    requires p + j <= p + k && p + k <= p + j
    ensures j == k
  {
    assert p + j == p + k;
    assert j == (p + j)[|p|..] && k == (p + k)[|p|..];
  }

  lemma InnerChild<V>(h: Heap<V>, paths: Paths, root: Ref, n: Ref, k: Key) returns (c: Ref)
    requires Linked(h, paths, root) && Inner(h, n) && k in h[n].children && k != []
    ensures c == h[n].children[k] && Inner(h, c) && paths[c] == paths[n] + k && paths[c][|paths[n]|] == k[0]
  {
    c := h[n].children[k];
    assert NodeOk(h, paths, root, n) && NodeOk(h, paths, root, c);
  }
}
