/** The nodes of a radix tree as they lie in memory (external/radix_tree/radix_tree_node.hpp),
    the invariant that ties them together, and the six rearrangements every operation is
    made of. */
module RadixHeap {
  import opened AsmSyntax

  type Symbol = nat
  type Key = seq<Symbol>

  /** The address of a node. */
  type Ref = nat

  /** radix_tree_node: the fields of one node. */
  datatype Cell<V> = Cell(
    children: map<Key, Ref>, parent: Option<Ref>, value: Option<(Key, V)>, depth: int, isLeaf: bool, key: Key)

  /** All nodes of a tree by address. A node that was deleted has no entry. */
  type Heap<V> = map<Ref, Cell<V>>

  /** Where each node stands: the symbols on the way to it from the root. */
  type Paths = map<Ref, Key>

  ghost predicate Inner<V>(h: Heap<V>, n: Ref) {
    n in h && !h[n].isLeaf
  }

  ghost predicate Leaf<V>(h: Heap<V>, n: Ref) {
    n in h && h[n].isLeaf
  }

  // ----- the invariant -----

  ghost predicate RootOk<V>(h: Heap<V>, paths: Paths, root: Ref) {
    && paths.Keys == h.Keys && root in h && !h[root].isLeaf
    && h[root].parent == None && h[root].key == [] && h[root].depth == 0 && paths[root] == []
  }

  /** A node other than the root hangs under an inner node, which knows it by its key. */
  ghost predicate ParentOk<V>(h: Heap<V>, paths: Paths, n: Ref)
    requires paths.Keys == h.Keys && n in h
  {
    h[n].parent.Some? &&
    var p := h[n].parent.value;
    && p in h && !h[p].isLeaf
    && h[n].key in h[p].children && h[p].children[h[n].key] == n
    && paths[n] == paths[p] + h[n].key
    && h[n].depth == |paths[p]|
  }

  /** The children of a node lead back to it, and begin with different symbols. */
  ghost predicate ChildrenOk<V>(h: Heap<V>, root: Ref, n: Ref)
    requires n in h
  {
    && (forall k :: k in h[n].children ==>
          var c := h[n].children[k];
          c in h && c != root && h[c].parent == Some(n) && h[c].key == k)
    && (forall j, k :: j in h[n].children && k in h[n].children && j != [] && k != [] && j[0] == k[0] ==> j == k)
  }

  /** Leaves are exactly the nodes with the empty key, and carry their full key. */
  ghost predicate LeafOk<V>(h: Heap<V>, paths: Paths, root: Ref, n: Ref)
    requires paths.Keys == h.Keys && n in h
  {
    && (n != root ==> (h[n].isLeaf <==> h[n].key == []))
    && (h[n].isLeaf ==> h[n].children == map[] && h[n].value.Some? && h[n].value.value.0 == paths[n])
  }

  ghost predicate NodeOk<V>(h: Heap<V>, paths: Paths, root: Ref, n: Ref)
    requires paths.Keys == h.Keys && n in h
  {
    (n != root ==> ParentOk(h, paths, n)) && ChildrenOk(h, root, n) && LeafOk(h, paths, root, n)
  }

  ghost predicate Linked<V>(h: Heap<V>, paths: Paths, root: Ref) {
    RootOk(h, paths, root) && forall n {:trigger NodeOk(h, paths, root, n)} :: n in h ==> NodeOk(h, paths, root, n)
  }

  /** Path compression: an inner node other than the root ends a stored key or branches. */
  ghost predicate Compressed<V>(h: Heap<V>, root: Ref, n: Ref) {
    Inner(h, n) && n != root ==> [] in h[n].children || |h[n].children| >= 2
  }

  ghost predicate Shaped<V>(h: Heap<V>, root: Ref) {
    forall n {:trigger Compressed(h, root, n)} :: n in h ==> Compressed(h, root, n)
  }

  // ----- the rearrangements -----

  function LeafCell<V>(p: Ref, depth: int, kv: (Key, V)): Cell<V> {
    Cell(map[], Some(p), Some(kv), depth, true, [])
  }

  /** A leaf under p. */
  function AddLeaf<V>(h: Heap<V>, p: Ref, n: Ref, depth: int, kv: (Key, V)): Heap<V>
    requires p in h
  {
    h[p := h[p].(children := h[p].children[[] := n])][n := LeafCell(p, depth, kv)]
  }

  lemma AddLeafLinked<V>(h: Heap<V>, paths: Paths, root: Ref, p: Ref, n: Ref, kv: (Key, V))
    requires Linked(h, paths, root) && Inner(h, p) && n !in h && [] !in h[p].children && kv.0 == paths[p]
    ensures Linked(AddLeaf(h, p, n, |paths[p]|, kv), paths[n := paths[p]], root)
  {
    var g, q := AddLeaf(h, p, n, |paths[p]|, kv), paths[n := paths[p]];
    assert paths[p] + [] == paths[p];
    forall x | x in g
      ensures NodeOk(g, q, root, x)
    {
      if x != n {
        assert NodeOk(h, paths, root, x);
      }
    }
  }

  /** An inner node without children under p. */
  function AddInner<V>(h: Heap<V>, p: Ref, n: Ref, k: Key, depth: int, v: Option<(Key, V)>): Heap<V>
    requires p in h
  {
    h[p := h[p].(children := h[p].children[k := n])][n := Cell(map[], Some(p), v, depth, false, k)]
  }

  lemma AddInnerLinked<V>(
    h: Heap<V>, paths: Paths, root: Ref, p: Ref, n: Ref, k: Key, v: Option<(Key, V)>)
    requires Linked(h, paths, root) && Inner(h, p) && n !in h && k != []
    requires forall j :: j in h[p].children && j != [] ==> j[0] != k[0]
    ensures Linked(AddInner(h, p, n, k, |paths[p]|, v), paths[n := paths[p] + k], root)
  {
    var g, q := AddInner(h, p, n, k, |paths[p]|, v), paths[n := paths[p] + k];
    AddInnerParent(h, paths, root, p, n, k, v);
    forall x | x in g
      ensures NodeOk(g, q, root, x)
    {
      if x != n && x != p {
        assert NodeOk(h, paths, root, x);
        AddInnerOthers(h, paths, root, p, n, k, v, x);
      }
    }
  }

  lemma AddInnerOthers<V>(
    h: Heap<V>, paths: Paths, root: Ref, p: Ref, n: Ref, k: Key, v: Option<(Key, V)>, x: Ref)
    requires paths.Keys == h.Keys && p in h && !h[p].isLeaf && n !in h && k !in h[p].children
    requires x in h && x != p && NodeOk(h, paths, root, x)
    ensures var g, q := AddInner(h, p, n, k, |paths[p]|, v), paths[n := paths[p] + k];
            g.Keys == q.Keys && NodeOk(g, q, root, x)
  {
    NodeOkFrame(h, paths, AddInner(h, p, n, k, |paths[p]|, v), paths[n := paths[p] + k], root, x);
  }

  lemma AddInnerParent<V>(
    h: Heap<V>, paths: Paths, root: Ref, p: Ref, n: Ref, k: Key, v: Option<(Key, V)>)
    requires Linked(h, paths, root) && Inner(h, p) && n !in h && k != []
    requires forall j :: j in h[p].children && j != [] ==> j[0] != k[0]
    ensures var g, q := AddInner(h, p, n, k, |paths[p]|, v), paths[n := paths[p] + k];
            g.Keys == q.Keys && NodeOk(g, q, root, p) && NodeOk(g, q, root, n)
  {
    assert NodeOk(h, paths, root, p);
  }

  /** A new inner node takes the first symbols of n's key and n hangs below it. */
  function Split<V>(h: Heap<V>, n: Ref, a: Ref, count: nat): Heap<V>
    requires n in h && h[n].parent.Some? && h[n].parent.value in h && count <= |h[n].key|
  {
    var p, k := h[n].parent.value, h[n].key;
    h[p := h[p].(children := (h[p].children - {k})[k[..count] := a])]
     [a := Cell(map[k[count..] := n], Some(p), None, h[n].depth, false, k[..count])]
     [n := h[n].(parent := Some(a), depth := h[n].depth + count, key := k[count..])]
  }

  ghost predicate Splittable<V>(
    h: Heap<V>, paths: Paths, root: Ref, n: Ref, a: Ref, count: nat)
  {
    && paths.Keys == h.Keys && Inner(h, n) && n != root && root in h && a !in h
    && NodeOk(h, paths, root, n) && NodeOk(h, paths, root, h[n].parent.value) && 0 < count < |h[n].key|
  }

  /** The two nodes on either side of the cut. */
  lemma SplitEnds<V>(h: Heap<V>, paths: Paths, root: Ref, n: Ref, a: Ref, count: nat)
    requires Splittable(h, paths, root, n, a, count)
    ensures var g, q := Split(h, n, a, count), paths[a := paths[h[n].parent.value] + h[n].key[..count]];
            g.Keys == q.Keys && NodeOk(g, q, root, a) && NodeOk(g, q, root, n)
  {
    var p, k := h[n].parent.value, h[n].key;
    assert k[..count] + k[count..] == k;
    assert paths[p] + k[..count] + k[count..] == paths[n];
    var g, q := Split(h, n, a, count), paths[a := paths[p] + k[..count]];
    assert g.Keys == q.Keys;
    assert ParentOk(g, q, a);
    assert ChildrenOk(g, root, n) by {
      assert ChildrenOk(h, root, n);
    }
  }

  /** A node is fine if it, the entry for it in its parent, and the links of its children
      back to it did not change. */
  lemma NodeOkFrame<V>(h: Heap<V>, paths: Paths, g: Heap<V>, q: Paths, root: Ref, x: Ref)
    requires paths.Keys == h.Keys && q.Keys == g.Keys && x in h && NodeOk(h, paths, root, x)
    requires x in g && g[x] == h[x] && q[x] == paths[x]
    requires x != root ==>
               var p := h[x].parent.value;
               p in g && !g[p].isLeaf && h[x].key in g[p].children && g[p].children[h[x].key] == x && q[p] == paths[p]
    requires forall k :: k in h[x].children ==>
               var c := h[x].children[k];
               c in g && g[c].parent == Some(x) && g[c].key == k
    ensures NodeOk(g, q, root, x)
  {
  }

  lemma SplitParent<V>(h: Heap<V>, paths: Paths, root: Ref, n: Ref, a: Ref, count: nat)
    requires Splittable(h, paths, root, n, a, count)
    ensures var g, q := Split(h, n, a, count), paths[a := paths[h[n].parent.value] + h[n].key[..count]];
            g.Keys == q.Keys && NodeOk(g, q, root, h[n].parent.value)
  {
    var p, k := h[n].parent.value, h[n].key;
    var g, q := Split(h, n, a, count), paths[a := paths[p] + k[..count]];
    assert g.Keys == q.Keys && k[..count][0] == k[0];
    assert ChildrenOk(h, root, p);
    assert ChildrenOk(g, root, p);
  }

  lemma SplitOthers<V>(h: Heap<V>, paths: Paths, root: Ref, n: Ref, a: Ref, count: nat, x: Ref)
    requires Splittable(h, paths, root, n, a, count)
    requires x in h && x != n && x != h[n].parent.value && NodeOk(h, paths, root, x)
    ensures var g, q := Split(h, n, a, count), paths[a := paths[h[n].parent.value] + h[n].key[..count]];
            g.Keys == q.Keys && NodeOk(g, q, root, x)
  {
    var p, k := h[n].parent.value, h[n].key;
    var g, q := Split(h, n, a, count), paths[a := paths[p] + k[..count]];
    assert g.Keys == q.Keys;
    NodeOkFrame(h, paths, g, q, root, x);
  }

  lemma SplitLinked<V>(h: Heap<V>, paths: Paths, root: Ref, n: Ref, a: Ref, count: nat)
    requires Linked(h, paths, root) && Inner(h, n) && n != root && a !in h
    requires NodeOk(h, paths, root, n) && 0 < count < |h[n].key|
    ensures Linked(Split(h, n, a, count), paths[a := paths[h[n].parent.value] + h[n].key[..count]], root)
  {
    var g, q := Split(h, n, a, count), paths[a := paths[h[n].parent.value] + h[n].key[..count]];
    assert NodeOk(h, paths, root, h[n].parent.value);
    SplitEnds(h, paths, root, n, a, count);
    SplitParent(h, paths, root, n, a, count);
    forall x | x in g
      ensures NodeOk(g, q, root, x)
    {
      if x != a && x != n && x != h[n].parent.value {
        assert NodeOk(h, paths, root, x);
        SplitOthers(h, paths, root, n, a, count, x);
      }
    }
  }

  /** A node without children is taken out. */
  function Remove<V>(h: Heap<V>, n: Ref): Heap<V>
    requires n in h && h[n].parent.Some? && h[n].parent.value in h
  {
    var p := h[n].parent.value;
    h[p := h[p].(children := h[p].children - {h[n].key})] - {n}
  }

  lemma RemoveLinked<V>(h: Heap<V>, paths: Paths, root: Ref, n: Ref)
    requires Linked(h, paths, root) && n in h && n != root && h[n].children == map[]
    requires NodeOk(h, paths, root, n)
    ensures Linked(Remove(h, n), paths - {n}, root)
  {
    var g, q := Remove(h, n), paths - {n};
    forall x | x in g
      ensures NodeOk(g, q, root, x)
    {
      assert NodeOk(h, paths, root, x);
    }
  }

  /** An inner node with one inner child gives way to it. */
  function Merge<V>(h: Heap<V>, g: Ref, u: Ref): Heap<V>
    requires g in h && u in h && h[g].parent.Some? && h[g].parent.value in h
  {
    var p, k := h[g].parent.value, h[g].key + h[u].key;
    h[p := h[p].(children := (h[p].children - {h[g].key})[k := u])]
     [u := h[u].(parent := Some(p), depth := h[g].depth, key := k)]
    - {g}
  }

  ghost predicate Mergeable<V>(h: Heap<V>, paths: Paths, root: Ref, g: Ref, u: Ref) {
    && paths.Keys == h.Keys && Inner(h, g) && g != root && Inner(h, u) && u != root && root in h
    && NodeOk(h, paths, root, g) && NodeOk(h, paths, root, u) && NodeOk(h, paths, root, h[g].parent.value)
    && h[g].children == map[h[u].key := u]
  }

  lemma MergeChild<V>(h: Heap<V>, paths: Paths, root: Ref, g: Ref, u: Ref)
    requires Mergeable(h, paths, root, g, u)
    ensures var h', q := Merge(h, g, u), paths - {g};
            h'.Keys == q.Keys && u in h' && NodeOk(h', q, root, u)
  {
    var p, k := h[g].parent.value, h[g].key + h[u].key;
    var h', q := Merge(h, g, u), paths - {g};
    assert h'.Keys == q.Keys;
    assert h[u].key in h[g].children && h[u].parent == Some(g);
    assert paths[u] == paths[p] + k;
    assert ChildrenOk(h, root, u);
    assert ParentOk(h', q, u);
  }

  lemma MergeParent<V>(h: Heap<V>, paths: Paths, root: Ref, g: Ref, u: Ref)
    requires Mergeable(h, paths, root, g, u)
    ensures var h', q := Merge(h, g, u), paths - {g};
            h'.Keys == q.Keys && h[g].parent.value in h' && NodeOk(h', q, root, h[g].parent.value)
  {
    var p, k := h[g].parent.value, h[g].key + h[u].key;
    var h', q := Merge(h, g, u), paths - {g};
    assert h'.Keys == q.Keys;
    assert h[u].key in h[g].children && k[0] == h[g].key[0];
    assert ChildrenOk(h, root, p);
    assert ChildrenOk(h', root, p);
  }

  lemma MergeOthers<V>(h: Heap<V>, paths: Paths, root: Ref, g: Ref, u: Ref, x: Ref)
    requires Mergeable(h, paths, root, g, u)
    requires x in h && x != g && x != u && x != h[g].parent.value && NodeOk(h, paths, root, x)
    ensures var h', q := Merge(h, g, u), paths - {g};
            h'.Keys == q.Keys && NodeOk(h', q, root, x)
  {
    var h', q := Merge(h, g, u), paths - {g};
    assert h'.Keys == q.Keys;
    assert h[u].key in h[g].children;
    NodeOkFrame(h, paths, h', q, root, x);
  }

  lemma MergeLinked<V>(h: Heap<V>, paths: Paths, root: Ref, g: Ref, u: Ref)
    requires Linked(h, paths, root) && Inner(h, g) && g != root && Inner(h, u)
    requires NodeOk(h, paths, root, g) && NodeOk(h, paths, root, u) && u != root
    requires h[g].children == map[h[u].key := u]
    ensures Linked(Merge(h, g, u), paths - {g}, root)
  {
    var h', q := Merge(h, g, u), paths - {g};
    assert NodeOk(h, paths, root, h[g].parent.value);
    MergeChild(h, paths, root, g, u);
    MergeParent(h, paths, root, g, u);
    forall x | x in h'
      ensures NodeOk(h', q, root, x)
    {
      if x != u && x != h[g].parent.value {
        assert NodeOk(h, paths, root, x);
        MergeOthers(h, paths, root, g, u, x);
      }
    }
  }
}
