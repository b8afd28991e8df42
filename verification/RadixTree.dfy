/** The radix tree (external/radix_tree/radix_tree.hpp) behaves as a finite map. */
module RadixTree {
  import opened AsmSyntax
  import opened RadixHeap
  import opened RadixPaths

  /** The leaves hold exactly the entries of the map. */
  ghost predicate Stores<V>(h: Heap<V>, paths: Paths, model: map<Key, V>)
    requires paths.Keys == h.Keys
  {
    && (forall n {:trigger EntryOk(h, paths, model, n)} :: n in h && h[n].isLeaf ==> EntryOk(h, paths, model, n))
    && (forall k {:trigger HasLeaf(h, paths, k)} :: k in model ==> HasLeaf(h, paths, k))
  }

  ghost predicate EntryOk<V>(h: Heap<V>, paths: Paths, model: map<Key, V>, n: Ref)
    requires paths.Keys == h.Keys && n in h
  {
    paths[n] in model && h[n].value == Some((paths[n], model[paths[n]]))
  }

  ghost predicate HasLeaf<V>(h: Heap<V>, paths: Paths, k: Key)
    requires paths.Keys == h.Keys
  {
    exists n :: n in h && Leaf(h, n) && paths[n] == k
  }

  /** Leaves stay what and where they are, apart from that of one key. */
  ghost predicate KeepsLeaves<V>(h: Heap<V>, paths: Paths, g: Heap<V>, q: Paths, but: Option<Key>)
    requires paths.Keys == h.Keys && q.Keys == g.Keys
  {
    forall n {:trigger LeafKept(h, paths, g, q, n)} ::
      n in h && h[n].isLeaf && but != Some(paths[n]) ==> LeafKept(h, paths, g, q, n)
  }

  ghost predicate LeafKept<V>(h: Heap<V>, paths: Paths, g: Heap<V>, q: Paths, n: Ref)
    requires paths.Keys == h.Keys && q.Keys == g.Keys && n in h
  {
    n in g && g[n].isLeaf && q[n] == paths[n]
  }

  lemma KeepsThrough<V>(
    h: Heap<V>, paths: Paths, g: Heap<V>, q: Paths, f: Heap<V>, r: Paths, but: Option<Key>)
    requires paths.Keys == h.Keys && q.Keys == g.Keys && r.Keys == f.Keys
    requires KeepsLeaves(h, paths, g, q, but) && KeepsLeaves(g, q, f, r, None)
    ensures KeepsLeaves(h, paths, f, r, but)
  {
    forall n | n in h && h[n].isLeaf && but != Some(paths[n])
      ensures LeafKept(h, paths, f, r, n)
    {
      assert LeafKept(h, paths, g, q, n);
      assert LeafKept(g, q, f, r, n);
    }
  }

  // ----- entries and shape through the rearrangements -----

  /** Leaves and their entries are as before. */
  lemma StoresFrame<V>(h: Heap<V>, paths: Paths, g: Heap<V>, q: Paths, model: map<Key, V>)
    requires paths.Keys == h.Keys && q.Keys == g.Keys && Stores(h, paths, model)
    requires forall n :: n in h && h[n].isLeaf ==>
               n in g && g[n].isLeaf && g[n].value == h[n].value && q[n] == paths[n]
    requires forall n :: n in g && g[n].isLeaf ==> n in h && h[n].isLeaf
    ensures Stores(g, q, model)
  {
    forall n | n in g && g[n].isLeaf
      ensures EntryOk(g, q, model, n)
    {
      assert EntryOk(h, paths, model, n);
    }
    forall k | k in model
      ensures HasLeaf(g, q, k)
    {
      assert HasLeaf(h, paths, k);
      var n :| n in h && Leaf(h, n) && paths[n] == k;
      assert n in g && Leaf(g, n) && q[n] == k;
    }
  }

  lemma AddLeafStores<V>(h: Heap<V>, paths: Paths, model: map<Key, V>, p: Ref, n: Ref, d: int, kv: (Key, V))
    requires paths.Keys == h.Keys && Stores(h, paths, model) && Inner(h, p) && n !in h
    requires kv.0 == paths[p] && kv.0 !in model
    ensures Stores(AddLeaf(h, p, n, d, kv), paths[n := paths[p]], model[kv.0 := kv.1])
  {
    var g, q, model' := AddLeaf(h, p, n, d, kv), paths[n := paths[p]], model[kv.0 := kv.1];
    assert q.Keys == g.Keys;
    forall x | x in g && g[x].isLeaf
      ensures EntryOk(g, q, model', x)
    {
      if x != n {
        assert EntryOk(h, paths, model, x);
      }
    }
    forall k | k in model'
      ensures HasLeaf(g, q, k)
    {
      if k == kv.0 {
        assert n in g && Leaf(g, n) && q[n] == k;
      } else {
        assert HasLeaf(h, paths, k);
        var x :| x in h && Leaf(h, x) && paths[x] == k;
        assert x in g && Leaf(g, x) && q[x] == k;
      }
    }
  }

  ghost predicate ShapedBut<V>(h: Heap<V>, root: Ref, x: Ref) {
    forall n {:trigger Compressed(h, root, n)} :: n in h && n != x ==> Compressed(h, root, n)
  }

  lemma MapSizes<V>(m: map<Key, V>, k: Key, v: V)
    ensures k !in m ==> |m[k := v]| == |m| + 1
    ensures k in m ==> |m - {k}| == |m| - 1
    ensures k in m ==> |m[k := v]| == |m|
  {
    assert m[k := v].Keys == m.Keys + {k};
    assert (m - {k}).Keys == m.Keys - {k};
    assert |m| == |m.Keys| && |m[k := v]| == |m[k := v].Keys| && |m - {k}| == |(m - {k}).Keys|;
  }

  lemma AddLeafShaped<V>(h: Heap<V>, root: Ref, p: Ref, n: Ref, d: int, kv: (Key, V))
    requires ShapedBut(h, root, p) && p in h && n !in h
    ensures Shaped(AddLeaf(h, p, n, d, kv), root)
  {
    var g := AddLeaf(h, p, n, d, kv);
    forall x | x in g
      ensures Compressed(g, root, x)
    {
      if x != n && x != p {
        assert Compressed(h, root, x);
      }
    }
  }

  lemma AddInnerShaped<V>(h: Heap<V>, root: Ref, p: Ref, n: Ref, k: Key, d: int, v: Option<(Key, V)>)
    requires ShapedBut(h, root, p) && p in h && n !in h && k !in h[p].children
    requires p == root || h[p].children != map[]
    ensures ShapedBut(AddInner(h, p, n, k, d, v), root, n)
  {
    var g := AddInner(h, p, n, k, d, v);
    MapSizes(h[p].children, k, n);
    forall x | x in g && x != n
      ensures Compressed(g, root, x)
    {
      if x != p {
        assert Compressed(h, root, x);
      } else if p != root {
        assert |h[p].children| >= 1;
      }
    }
  }

  lemma SplitShaped<V>(h: Heap<V>, root: Ref, n: Ref, a: Ref, count: nat)
    requires Shaped(h, root) && n in h && h[n].parent.Some? && h[n].parent.value in h && a !in h
    requires n != h[n].parent.value && 0 < count < |h[n].key| && h[n].key in h[h[n].parent.value].children
    requires h[n].key[..count] !in h[h[n].parent.value].children
    ensures ShapedBut(Split(h, n, a, count), root, a)
  {
    var g, p, k := Split(h, n, a, count), h[n].parent.value, h[n].key;
    MapSizes(h[p].children, k, a);
    MapSizes(h[p].children - {k}, k[..count], a);
    forall x | x in g && x != a
      ensures Compressed(g, root, x)
    {
      assert Compressed(h, root, x);
      if x == n {
        assert g[n].children == h[n].children;
      }
    }
  }

  /** radix_tree. The nodes live in a store of their own, `heap`; `new` adds an entry,
      `delete` removes one, and a link is the address of an entry. */
  class RadixTree<V> {
    var root: Option<Ref>
    var size: nat
    var heap: Heap<V>
    var nextRef: Ref
    ghost var paths: Paths
    ghost var model: map<Key, V>

    ghost predicate Consistent()
      reads this
    {
      && Addressed()
      && match root
         case None => heap == map[] && paths == map[] && model == map[]
         case Some(r) => Linked(heap, paths, r) && Shaped(heap, r) && Stores(heap, paths, model)
    }

    ghost predicate Valid()
      reads this
    {
      Consistent() && size == |model|
    }

    constructor ()
      ensures Valid() && model == map[]
    {
      root, size, heap, nextRef, paths, model := None, 0, map[], 0, map[], map[];
    }

    method Clear()
      requires Valid()
      modifies this
      ensures Valid() && model == map[] && root == None
    {
      root, size, heap, paths, model := None, 0, map[], map[], map[];
    }

    /** new radix_tree_node */
    method NewNode(value: Option<(Key, V)>) returns (n: Ref)
      requires forall x :: x in heap ==> x < nextRef
      modifies this`heap, this`nextRef
      ensures n !in old(heap) && heap == old(heap)[n := Cell(map[], None, value, 0, false, [])]
      ensures forall x :: x in heap ==> x < nextRef
    {
      n := nextRef;
      nextRef := nextRef + 1;
      heap := heap[n := Cell(map[], None, value, 0, false, [])];
    }

    /** find_node: the walk down, child by child. */
    method FindNode(key: Key, node: Ref, depth: nat) returns (found: Ref)
      requires Consistent() && root.Some? && Inner(heap, node) && paths[node] <= key && depth == |paths[node]|
      ensures Located(heap, paths, root.value, key, found)
      decreases |key| - depth
    {
      assert NodeOk(heap, paths, root.value, node);
      var children := heap[node].children;
      if children == map[] {
        return node;
      }
      var lenKey := |key| - depth;
      var rest := children.Keys;
      while rest != {}
        invariant rest <= children.Keys
        invariant lenKey == 0 ==> [] !in children.Keys - rest
        invariant lenKey > 0 ==> forall k :: k in children.Keys - rest && k != [] ==> k[0] != key[depth]
        decreases rest
      {
        var k :| k in rest;
        rest := rest - {k};
        var child := children[k];
        assert NodeOk(heap, paths, root.value, child);
        if lenKey == 0 {
          if heap[child].isLeaf {
            assert paths[node] + [] == paths[node];
            return child;
          }
          continue;
        }
        if !heap[child].isLeaf && key[depth] == k[0] {
          if depth + |k| <= |key| && key[depth..depth + |k|] == k {
            assert paths[child] <= key by {
              assert key[..depth] + key[depth..depth + |k|] == key[..depth + |k|];
            }
            found := FindNode(key, child, depth + |k|);
            return;
          }
          return child;
        }
      }
      return node;
    }

    /** find: the leaf of a key, or none. */
    method Find(key: Key) returns (n: Option<Ref>)
      requires Valid()
      ensures n.Some? <==> key in model
      ensures n.Some? ==> Leaf(heap, n.value) && heap[n.value].value == Some((key, model[key]))
    {
      if root.None? {
        return None;
      }
      var node := FindNode(key, root.value, 0);
      if !heap[node].isLeaf {
        AbsentKey(heap, paths, model, root.value, key, node);
        return None;
      }
      assert EntryOk(heap, paths, model, node);
      return Some(node);
    }

    // ----- the bare link operations -----

    ghost predicate Addressed()
      reads this
    {
      forall n :: n in heap ==> n < nextRef
    }

    method LinkLeaf(parent: Ref, key: Key, v: V, depth: int) returns (leaf: Ref)
      requires Addressed() && parent in heap
      modifies this`heap, this`nextRef
      ensures Addressed() && leaf !in old(heap) && heap == AddLeaf(old(heap), parent, leaf, depth, (key, v))
    {
      leaf := NewNode(Some((key, v)));
      heap := heap[leaf := heap[leaf].(depth := depth, parent := Some(parent), key := [], isLeaf := true)];
      heap := heap[parent := heap[parent].(children := heap[parent].children[[] := leaf])];
    }

    method LinkInner(parent: Ref, key: Key, value: Option<(Key, V)>, depth: int) returns (inner: Ref)
      requires Addressed() && parent in heap
      modifies this`heap, this`nextRef
      ensures Addressed() && inner !in old(heap) && heap == AddInner(old(heap), parent, inner, key, depth, value)
    {
      inner := NewNode(value);
      heap := heap[parent := heap[parent].(children := heap[parent].children[key := inner])];
      heap := heap[inner := heap[inner].(depth := depth, parent := Some(parent), key := key)];
    }

    /** The first part of prepend: a new node takes over the first symbols of a key. */
    method CutNode(node: Ref, count: nat) returns (a: Ref)
      requires Addressed() && node in heap && heap[node].parent.Some? && heap[node].parent.value in heap
      requires node != heap[node].parent.value && count <= |heap[node].key|
      modifies this`heap, this`nextRef
      ensures Addressed() && a !in old(heap) && heap == Split(old(heap), node, a, count)
    {
      var key, parent := heap[node].key, heap[node].parent.value;
      a := NewNode(None);
      heap := heap[parent := heap[parent].(children := (heap[parent].children - {key})[key[..count] := a])];
      heap := heap[a := heap[a].(parent := Some(parent), key := key[..count], depth := heap[node].depth,
                                 children := map[key[count..] := node])];
      heap := heap[node := heap[node].(depth := heap[node].depth + count, parent := Some(a), key := key[count..])];
    }

    method Unlink(n: Ref)
      requires Addressed() && n in heap && heap[n].parent.Some? && heap[n].parent.value in heap
      modifies this`heap
      ensures Addressed() && heap == Remove(old(heap), n)
    {
      var parent := heap[n].parent.value;
      heap := heap[parent := heap[parent].(children := heap[parent].children - {heap[n].key})];
      heap := heap - {n};
    }

    /** The last part of erase: an only child takes the place of its parent. */
    method MergeWithChild(g: Ref, u: Ref)
      requires Addressed() && g in heap && u in heap && g != u
      requires heap[g].parent.Some? && heap[g].parent.value in heap
      requires heap[g].parent.value != g && heap[g].parent.value != u
      modifies this`heap
      ensures Addressed() && heap == Merge(old(heap), g, u)
    {
      var parent, key := heap[g].parent.value, heap[g].key;
      var joined := key + heap[u].key;
      heap := heap[u := heap[u].(depth := heap[g].depth, key := joined, parent := Some(parent))];
      heap := heap[parent := heap[parent].(children := (heap[parent].children - {key})[joined := u])];
      heap := heap - {g};
    }

    // ----- insertion -----

    /** The new nodes of a key below a node whose path it extends and none of whose
        children it meets. */
    method Hang(parent: Ref, key: Key, v: V, value: Option<(Key, V)>) returns (leaf: Ref)
      requires Addressed() && root.Some? && Linked(heap, paths, root.value) && ShapedBut(heap, root.value, parent)
      requires Stores(heap, paths, model) && key !in model
      requires Inner(heap, parent) && StopsAt(heap, paths, key, parent)
      requires parent == root.value || heap[parent].children != map[]
      modifies this`heap, this`nextRef, this`paths, this`model
      ensures Consistent() && model == old(model)[key := v]
      ensures Leaf(heap, leaf) && heap[leaf].value == Some((key, v))
    {
      ghost var h, q := heap, paths;
      assert NodeOk(h, q, root.value, parent);
      var depth := heap[parent].depth + |heap[parent].key|;
      assert depth == |paths[parent]|;
      if |key| - depth == 0 {
        leaf := LinkLeaf(parent, key, v, depth);
        LeafAdded(h, q, model, root.value, parent, leaf, (key, v));
        paths := q[leaf := key];
      } else {
        var inner := LinkInner(parent, key[depth..], value, depth);
        leaf := LinkLeaf(inner, key, v, |key|);
        InnerAndLeafAdded(h, q, model, root.value, parent, inner, leaf, key[depth..], value, (key, v));
        paths := q[inner := key][leaf := key];
      }
      model := model[key := v];
    }

    /** append: the key goes on below the node where the search stopped. */
    method Append(parent: Ref, key: Key, v: V) returns (leaf: Ref)
      requires Consistent() && root.Some? && Inner(heap, parent) && key !in model
      requires StopsAt(heap, paths, key, parent)
      modifies this`heap, this`nextRef, this`paths, this`model
      ensures Consistent() && model == old(model)[key := v]
      ensures Leaf(heap, leaf) && heap[leaf].value == Some((key, v))
    {
      assert Compressed(heap, root.value, parent);
      leaf := Hang(parent, key, v, Some((key, v)));
    }

    /** prepend: the key leaves that of the node after `count` symbols, so a new node takes
        those, and both go on below it. */
    method Prepend(node: Ref, key: Key, v: V) returns (leaf: Ref)
      requires Consistent() && root.Some? && Inner(heap, node) && key !in model
      requires LeavesInside(heap, paths, root.value, key, node)
      modifies this`heap, this`nextRef, this`paths, this`model
      ensures Consistent() && model == old(model)[key := v]
      ensures Leaf(heap, leaf) && heap[leaf].value == Some((key, v))
    {
      ghost var h, q, r := heap, paths, root.value;
      assert NodeOk(h, q, r, node) && NodeOk(h, q, r, h[node].parent.value);
      var count := CommonSymbols(heap[node].key, key, heap[node].depth);
      CutIsProper(h, q, r, key, node, count);
      var a := CutNode(node, count);
      NodeCut(h, q, model, r, node, a, count, key);
      paths := paths[a := key[..h[node].depth + count]];
      leaf := Hang(a, key, v, None);
    }

    /** insert: reports the leaf of the key and whether it is new. */
    method Insert(key: Key, v: V) returns (leaf: Ref, inserted: bool)
      requires Valid()
      modifies this
      ensures Valid() && inserted == (key !in old(model))
      ensures model == if inserted then old(model)[key := v] else old(model)
      ensures Leaf(heap, leaf) && heap[leaf].value == Some((key, model[key]))
    {
      if root.None? {
        var r := NewNode(None);
        heap := heap[r := heap[r].(key := [])];
        root, paths := Some(r), map[r := []];
        EmptyTree(heap, paths, r);
      }
      var node := FindNode(key, root.value, 0);
      if heap[node].isLeaf {
        assert EntryOk(heap, paths, model, node);
        return node, false;
      }
      AbsentKey(heap, paths, model, root.value, key, node);
      MapSizes(model, key, v);
      size := size + 1;
      inserted := true;
      FullKeyMatches(heap, paths, root.value, key, node);
      if node == root.value || SubKey(key, heap[node].depth, |heap[node].key|) == heap[node].key {
        leaf := Append(node, key, v);
      } else {
        leaf := Prepend(node, key, v);
      }
    }

    /** operator[]: the entry of a key, made with a default value if there is none. */
    method Index(key: Key, default: V) returns (leaf: Ref)
      requires Valid()
      modifies this
      ensures Valid() && model == if key in old(model) then old(model) else old(model)[key := default]
      ensures Leaf(heap, leaf) && heap[leaf].value == Some((key, model[key]))
    {
      var it := Find(key);
      if it.Some? {
        return it.value;
      }
      var inserted;
      leaf, inserted := Insert(key, default);
    }

    // ----- removal -----

    /** erase: the leaf, then a node left without children, then a node left with one. */
    method Erase(key: Key) returns (erased: bool)
      requires Valid()
      modifies this
      ensures Valid() && erased == (key in old(model)) && model == old(model) - {key}
      ensures root == old(root) && KeepsLeaves(old(heap), old(paths), heap, paths, Some(key))
    {
      if root.None? {
        return false;
      }
      var child := FindNode(key, root.value, 0);
      if !heap[child].isLeaf {
        AbsentKey(heap, paths, model, root.value, key, child);
        assert model - {key} == model;
        return false;
      }
      assert EntryOk(heap, paths, model, child) && NodeOk(heap, paths, root.value, child);
      var parent := heap[child].parent.value;
      LeafRemoved(heap, paths, model, root.value, child);
      MapSizes(model, key, model[key]);
      Unlink(child);
      paths, model := paths - {child}, model - {key};
      size := size - 1;
      ghost var h, q := heap, paths;
      Tidy(parent);
      KeepsThrough(old(heap), old(paths), h, q, heap, paths, Some(key));
      return true;
    }

    /** What erase does once the leaf is gone. */
    method Tidy(parent: Ref)
      requires Addressed() && root.Some? && Linked(heap, paths, root.value) && Stores(heap, paths, model)
      requires ShapedBut(heap, root.value, parent) && Inner(heap, parent) && [] !in heap[parent].children
      modifies this`heap, this`paths
      ensures Consistent() && KeepsLeaves(old(heap), old(paths), heap, paths, None)
    {
      if parent == root.value {
        RootMayBeShort(heap, root.value);
        return;
      }
      if |heap[parent].children| > 1 {
        EnoughChildren(heap, root.value, parent);
        return;
      }
      var grandparent := parent;
      if heap[parent].children == map[] {
        assert NodeOk(heap, paths, root.value, parent);
        grandparent := heap[parent].parent.value;
        InnerRemoved(heap, paths, model, root.value, parent);
        Unlink(parent);
        paths := paths - {parent};
      }
      ghost var h, q := heap, paths;
      TidyUp(grandparent);
      KeepsThrough(old(heap), old(paths), h, q, heap, paths, None);
    }

    /** The last part of erase: a node left with one inner child gives way to it. */
    method TidyUp(grandparent: Ref)
      requires Addressed() && root.Some? && Linked(heap, paths, root.value) && Stores(heap, paths, model)
      requires ShapedBut(heap, root.value, grandparent) && Inner(heap, grandparent)
      requires |heap[grandparent].children| != 1 ==> Compressed(heap, root.value, grandparent)
      modifies this`heap, this`paths
      ensures Consistent() && KeepsLeaves(old(heap), old(paths), heap, paths, None)
    {
      ghost var r := root.value;
      if grandparent == root.value {
        RootMayBeShort(heap, r);
        return;
      }
      if |heap[grandparent].children| == 1 {
        assert NodeOk(heap, paths, r, grandparent);
        var k :| k in heap[grandparent].children;
        var uncle := heap[grandparent].children[k];
        OnlyChild(heap[grandparent].children, k);
        assert NodeOk(heap, paths, r, uncle);
        if heap[uncle].isLeaf {
          EnoughChildren(heap, r, grandparent);
          return;
        }
        ChildMerged(heap, paths, model, r, grandparent, uncle);
        MergeWithChild(grandparent, uncle);
        paths := paths - {grandparent};
      } else {
        EnoughChildren(heap, r, grandparent);
      }
    }
  }

  /** History independence: whatever inserts and erases led to them, two trees that have a
      root and store the same keys have the same shape. */
  lemma SameKeysSameShape<V>(t: RadixTree<V>, u: RadixTree<V>)
    requires t.Valid() && u.Valid() && t.root.Some? && u.root.Some? && t.model.Keys == u.model.Keys
    ensures Shape(t.heap, t.paths) == Shape(u.heap, u.paths)
  {
    LeavesCarryOver(t.heap, t.paths, t.model, u.heap, u.paths, u.model);
    LeavesCarryOver(u.heap, u.paths, u.model, t.heap, t.paths, t.model);
    ShapeCarriesOver(t.heap, t.paths, t.root.value, u.heap, u.paths, u.root.value);
    ShapeCarriesOver(u.heap, u.paths, u.root.value, t.heap, t.paths, t.root.value);
  }

  lemma LeavesCarryOver<V>(
    h: Heap<V>, paths: Paths, model: map<Key, V>, h': Heap<V>, paths': Paths, model': map<Key, V>)
    requires paths.Keys == h.Keys && paths'.Keys == h'.Keys && model.Keys == model'.Keys
    requires Stores(h, paths, model) && Stores(h', paths', model')
    ensures forall m :: m in h && h[m].isLeaf ==> exists m' :: m' in h' && Leaf(h', m') && paths'[m'] == paths[m]
  {
    forall m | m in h && h[m].isLeaf
      ensures exists m' :: m' in h' && Leaf(h', m') && paths'[m'] == paths[m]
    {
      assert EntryOk(h, paths, model, m);
      assert HasLeaf(h', paths', paths[m]);
    }
  }

  lemma RootMayBeShort<V>(h: Heap<V>, root: Ref)
    requires ShapedBut(h, root, root)
    ensures Shaped(h, root)
  {
    forall n | n in h
      ensures Compressed(h, root, n)
    {
    }
  }

  lemma EnoughChildren<V>(h: Heap<V>, root: Ref, n: Ref)
    requires ShapedBut(h, root, n) && Compressed(h, root, n)
    ensures Shaped(h, root)
  {
    forall x | x in h
      ensures Compressed(h, root, x)
    {
    }
  }

  lemma OnlyChild(m: map<Key, Ref>, k: Key)
    requires |m| == 1 && k in m
    ensures m == map[k := m[k]]
  {
    assert |m.Keys - {k}| == 0;
    assert m.Keys == {k};
  }

  /** Without a leaf, its key is no longer stored, and its parent may be short of children. */
  lemma LeafRemoved<V>(h: Heap<V>, paths: Paths, model: map<Key, V>, root: Ref, n: Ref)
    requires Linked(h, paths, root) && Shaped(h, root) && Stores(h, paths, model) && Leaf(h, n)
    requires NodeOk(h, paths, root, n)
    ensures var g, p := Remove(h, n), h[n].parent.value;
            && Linked(g, paths - {n}, root) && Stores(g, paths - {n}, model - {paths[n]})
            && ShapedBut(g, root, p) && Inner(g, p) && [] !in g[p].children
            && KeepsLeaves(h, paths, g, paths - {n}, Some(paths[n]))
  {
    var g, q, p := Remove(h, n), paths - {n}, h[n].parent.value;
    RemoveLinked(h, paths, root, n);
    forall x | x in g && g[x].isLeaf
      ensures EntryOk(g, q, model - {paths[n]}, x)
    {
      assert EntryOk(h, paths, model, x);
      if paths[x] == paths[n] {
        UniqueLeaf(h, paths, root, x, n);
      }
    }
    forall k | k in model - {paths[n]}
      ensures HasLeaf(g, q, k)
    {
      assert HasLeaf(h, paths, k);
      var x :| x in h && Leaf(h, x) && paths[x] == k;
      assert x in g && Leaf(g, x) && q[x] == k;
    }
    forall x | x in g && x != p
      ensures Compressed(g, root, x)
    {
      assert Compressed(h, root, x);
    }
  }

  /** Without an inner node that has no children, its parent may be short of children, but
      has at least one. */
  lemma InnerRemoved<V>(h: Heap<V>, paths: Paths, model: map<Key, V>, root: Ref, n: Ref)
    requires Linked(h, paths, root) && ShapedBut(h, root, n) && Stores(h, paths, model)
    requires Inner(h, n) && n != root && h[n].children == map[] && NodeOk(h, paths, root, n)
    ensures var g, p := Remove(h, n), h[n].parent.value;
            && Linked(g, paths - {n}, root) && Stores(g, paths - {n}, model)
            && ShapedBut(g, root, p) && Inner(g, p)
            && (|g[p].children| != 1 ==> Compressed(g, root, p))
            && KeepsLeaves(h, paths, g, paths - {n}, None)
  {
    var g, p := Remove(h, n), h[n].parent.value;
    RemoveLinked(h, paths, root, n);
    StoresFrame(h, paths, g, paths - {n}, model);
    forall x | x in g && x != p
      ensures Compressed(g, root, x)
    {
      assert Compressed(h, root, x);
    }
    assert Compressed(h, root, p);
    MapSizes(h[p].children, h[n].key, n);
    assert [] in h[p].children ==> [] in g[p].children;
  }

  /** An only child takes over; nobody is short of children any more. */
  lemma ChildMerged<V>(h: Heap<V>, paths: Paths, model: map<Key, V>, root: Ref, g: Ref, u: Ref)
    requires Linked(h, paths, root) && ShapedBut(h, root, g) && Stores(h, paths, model)
    requires Inner(h, g) && g != root && Inner(h, u) && NodeOk(h, paths, root, g) && NodeOk(h, paths, root, u)
    requires u != root && h[g].children == map[h[u].key := u]
    ensures h[g].parent.value in h && h[g].parent.value != g && h[g].parent.value != u && g != u
    ensures Linked(Merge(h, g, u), paths - {g}, root) && Stores(Merge(h, g, u), paths - {g}, model)
    ensures Shaped(Merge(h, g, u), root) && KeepsLeaves(h, paths, Merge(h, g, u), paths - {g}, None)
  {
    var p, h' := h[g].parent.value, Merge(h, g, u);
    assert h[u].key in h[g].children;
    assert NodeOk(h, paths, root, p);
    MergeLinked(h, paths, root, g, u);
    StoresFrame(h, paths, h', paths - {g}, model);
    MergeShaped(h, paths, root, g, u);
  }

  lemma MergeShaped<V>(h: Heap<V>, paths: Paths, root: Ref, g: Ref, u: Ref)
    requires ShapedBut(h, root, g) && Mergeable(h, paths, root, g, u)
    requires h[g].parent.value != g && h[g].parent.value != u && g != u
    ensures Shaped(Merge(h, g, u), root)
  {
    var p, k, h' := h[g].parent.value, h[g].key + h[u].key, Merge(h, g, u);
    assert k[0] == h[g].key[0] && k != h[g].key;
    assert k !in h[p].children;
    MapSizes(h[p].children, h[g].key, u);
    MapSizes(h[p].children - {h[g].key}, k, u);
    forall x | x in h'
      ensures Compressed(h', root, x)
    {
      assert Compressed(h, root, x);
    }
  }

  /** radix_substr on a sequence: as many of the symbols as there are. */
  function SubKey(key: Key, begin: int, num: int): Key
    requires 0 <= begin <= |key| && 0 <= num
  {
    if begin + num <= |key| then key[begin..begin + num] else key[begin..]
  }

  /** The length of the common beginning of a and b[from..]. */
  method CommonSymbols(a: Key, b: Key, from: nat) returns (count: nat)
    requires from <= |b|
    ensures count <= |a| && from + count <= |b| && a[..count] == b[from..from + count]
    ensures count < |a| && from + count < |b| ==> a[count] != b[from + count]
  {
    count := 0;
    while count < |a| && from + count < |b|
      invariant count <= |a| && from + count <= |b| && a[..count] == b[from..from + count]
    {
      if a[count] != b[from + count] {
        break;
      }
      count := count + 1;
    }
  }

  lemma EmptyTree<V>(h: Heap<V>, paths: Paths, r: Ref)
    requires h == map[r := Cell(map[], None, None, 0, false, [])] && paths == map[r := []]
    ensures Linked(h, paths, r) && Shaped(h, r) && Stores(h, paths, map[])
  {
    forall n | n in h
      ensures NodeOk(h, paths, r, n) && Compressed(h, r, n)
    {
    }
  }

  /** A search that ends at an inner node either stopped there or left its key halfway,
      and comparing the whole key of the node tells which. */
  lemma FullKeyMatches<V>(h: Heap<V>, paths: Paths, root: Ref, key: Key, n: Ref)
    requires Linked(h, paths, root) && Located(h, paths, root, key, n) && Inner(h, n)
    ensures 0 <= h[n].depth <= |key|
    ensures n == root || SubKey(key, h[n].depth, |h[n].key|) == h[n].key <==> StopsAt(h, paths, key, n)
    ensures !StopsAt(h, paths, key, n) ==> LeavesInside(h, paths, root, key, n)
  {
    assert NodeOk(h, paths, root, n);
    if n != root {
      var p := h[n].parent.value;
      assert paths[n] == paths[p] + h[n].key;
      if paths[n] <= key {
        assert key[|paths[p]|..|paths[n]|] == paths[n][|paths[p]|..] == h[n].key;
      } else {
        assert |paths[n]| <= |key| ==> key[..|paths[n]|] == key[..|paths[p]|] + key[|paths[p]|..|paths[n]|];
      }
    }
  }

  /** The cut lies strictly inside the key of the node. */
  lemma CutIsProper<V>(h: Heap<V>, paths: Paths, root: Ref, key: Key, n: Ref, count: nat)
    requires Linked(h, paths, root) && Inner(h, n) && LeavesInside(h, paths, root, key, n)
    requires NodeOk(h, paths, root, n)
    requires count <= |h[n].key| && h[n].depth + count <= |key| && 0 <= h[n].depth
    requires h[n].key[..count] == key[h[n].depth..h[n].depth + count]
    requires count < |h[n].key| && h[n].depth + count < |key| ==> h[n].key[count] != key[h[n].depth + count]
    ensures 0 < count < |h[n].key| && paths[h[n].parent.value] + h[n].key[..count] == key[..h[n].depth + count]
  {
    var p := h[n].parent.value;
    assert key[..h[n].depth] == paths[p];
    assert key[..h[n].depth + count] == key[..h[n].depth] + key[h[n].depth..h[n].depth + count];
    assert h[n].key[..|h[n].key|] == h[n].key;
  }

  /** The tree after the cut: only the new node is short of children. */
  lemma NodeCut<V>(
    h: Heap<V>, paths: Paths, model: map<Key, V>, root: Ref, n: Ref, a: Ref, count: nat, key: Key)
    requires Linked(h, paths, root) && Shaped(h, root) && Stores(h, paths, model)
    requires Inner(h, n) && n != root && a !in h
    requires NodeOk(h, paths, root, n) && NodeOk(h, paths, root, h[n].parent.value)
    requires 0 < count < |h[n].key| && 0 <= h[n].depth && h[n].depth + count <= |key|
    requires paths[h[n].parent.value] + h[n].key[..count] == key[..h[n].depth + count]
    requires h[n].depth + count < |key| ==> h[n].key[count] != key[h[n].depth + count]
    ensures var g, q := Split(h, n, a, count), paths[a := key[..h[n].depth + count]];
            && Linked(g, q, root) && ShapedBut(g, root, a) && Stores(g, q, model)
            && Inner(g, a) && g[a].children != map[]
            && StopsAt(g, q, key, a)
  {
    var g, q := Split(h, n, a, count), paths[a := key[..h[n].depth + count]];
    SplitLinked(h, paths, root, n, a, count);
    SplitShaped(h, root, n, a, count);
    StoresFrame(h, paths, g, q, model);
    StopsAtCut(h, n, a, count, key, q);
  }

  /** The key goes on from the new node another way than the old one, if at all. */
  lemma StopsAtCut<V>(h: Heap<V>, n: Ref, a: Ref, count: nat, key: Key, q: Paths)
    requires n in h && h[n].parent.Some? && h[n].parent.value in h && a !in h && n != h[n].parent.value
    requires 0 < count < |h[n].key| && 0 <= h[n].depth && h[n].depth + count <= |key|
    requires h[n].depth + count < |key| ==> h[n].key[count] != key[h[n].depth + count]
    requires q.Keys == Split(h, n, a, count).Keys && q[a] == key[..h[n].depth + count]
    ensures var g := Split(h, n, a, count);
            Inner(g, a) && g[a].children != map[] && StopsAt(g, q, key, a)
  {
    var g, k := Split(h, n, a, count), h[n].key[count..];
    assert g[a].children == map[k := n] && k in g[a].children && k[0] == h[n].key[count];
  }

  lemma AbsentKey<V>(h: Heap<V>, paths: Paths, model: map<Key, V>, root: Ref, key: Key, n: Ref)
    requires Linked(h, paths, root) && Stores(h, paths, model) && Located(h, paths, root, key, n) && Inner(h, n)
    ensures key !in model
  {
    if key in model {
      assert HasLeaf(h, paths, key);
      var m :| m in h && Leaf(h, m) && paths[m] == key;
      LocatedMeansAbsent(h, paths, root, key, n, m);
    }
  }

  /** A leaf below a node that may be short of children. */
  lemma LeafAdded<V>(
    h: Heap<V>, paths: Paths, model: map<Key, V>, root: Ref, p: Ref, leaf: Ref, kv: (Key, V))
    requires Linked(h, paths, root) && ShapedBut(h, root, p) && Stores(h, paths, model)
    requires Inner(h, p) && leaf !in h && [] !in h[p].children && kv.0 == paths[p] && kv.0 !in model
    ensures var g, q := AddLeaf(h, p, leaf, |kv.0|, kv), paths[leaf := kv.0];
            Linked(g, q, root) && Shaped(g, root) && Stores(g, q, model[kv.0 := kv.1])
  {
    AddLeafLinked(h, paths, root, p, leaf, kv);
    AddLeafStores(h, paths, model, p, leaf, |paths[p]|, kv);
    AddLeafShaped(h, root, p, leaf, |paths[p]|, kv);
  }

  /** An inner node and, below it, a leaf. */
  lemma InnerAndLeafAdded<V>(
    h: Heap<V>, paths: Paths, model: map<Key, V>, root: Ref,
    p: Ref, inner: Ref, leaf: Ref, k: Key, v: Option<(Key, V)>, kv: (Key, V))
    requires Linked(h, paths, root) && ShapedBut(h, root, p) && Stores(h, paths, model)
    requires Inner(h, p) && inner !in h && leaf !in h && inner != leaf && k != []
    requires p == root || h[p].children != map[]
    requires forall j :: j in h[p].children && j != [] ==> j[0] != k[0]
    requires kv.0 == paths[p] + k && kv.0 !in model
    ensures var d := |paths[p]|;
            var g := AddLeaf(AddInner(h, p, inner, k, d, v), inner, leaf, |kv.0|, kv);
            var q := paths[inner := kv.0][leaf := kv.0];
            Linked(g, q, root) && Shaped(g, root) && Stores(g, q, model[kv.0 := kv.1])
  {
    var d := |paths[p]|;
    var g, q := AddInner(h, p, inner, k, d, v), paths[inner := kv.0];
    AddInnerLinked(h, paths, root, p, inner, k, v);
    AddInnerShaped(h, root, p, inner, k, d, v);
    StoresFrame(h, paths, g, q, model);
    LeafAdded(g, q, model, root, inner, leaf, kv);
  }
}
