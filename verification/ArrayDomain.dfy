/** The index of stack cells by offset (src/crab/array_domain.cpp) and its search for the
    cells that overlap a range of bytes. */
module ArrayDomain {
  import opened AsmSyntax

  /** cell_t: the bytes from offset to offset + size - 1. */
  datatype Cell = Cell(offset: nat, size: nat)

  /** Cells by offset. This is what the radix tree of cell sets holds; iteration over it is
      in ascending order. */
  type Buckets = map<nat, set<Cell>>

  predicate HasByte(o: nat, size: nat, b: nat) {
    o <= b < o + size
  }

  /** A byte of the cell is one of those asked for. */
  ghost predicate SharesByte(c: Cell, o: nat, size: nat) {
    exists b :: HasByte(o, size, b) && HasByte(c.offset, c.size, b)
  }

  /** cell_t::overlap: the intervals meet. */
  predicate Overlaps(c: Cell, o: nat, size: nat): (meets: bool)
    ensures meets <==> SharesByte(c, o, size)
  {
    var first := if c.offset < o then o else c.offset;
    assert first < o + size && first < c.offset + c.size ==>
        HasByte(o, size, first) && HasByte(c.offset, c.size, first);
    c.size > 0 && size > 0 && c.offset < o + size && o < c.offset + c.size
  }

  ghost predicate Filed(buckets: Buckets) {
    forall k, c :: k in buckets && c in buckets[k] ==> c.offset == k
  }

  predicate InBucket(buckets: Buckets, k: nat, c: Cell) {
    k in buckets && c in buckets[k]
  }

  ghost predicate Stored(buckets: Buckets, c: Cell) {
    InBucket(buckets, c.offset, c)
  }

  /** Some cell at this offset overlaps. */
  ghost predicate Touches(buckets: Buckets, k: nat, o: nat, size: nat)
    requires k in buckets
  {
    exists c :: c in buckets[k] && SharesByte(c, o, size)
  }

  predicate Between(k: nat, a: nat, b: nat) {
    a < k < b || b < k < a
  }

  /** The scan gets to a cell if every offset on the way there has a cell that overlaps. */
  ghost predicate Reached(buckets: Buckets, o: nat, size: nat, c: Cell) {
    && Stored(buckets, c) && c != Cell(o, size) && SharesByte(c, o, size)
    && forall k :: k in buckets && Between(k, c.offset, o) ==> Touches(buckets, k, o, size)
  }

  ghost predicate Distinct<T>(s: seq<T>) {
    forall i, j :: 0 <= i < j < |s| ==> s[i] != s[j]
  }

  ghost predicate Ascending(ks: seq<nat>) {
    forall i, j :: 0 <= i < j < |ks| ==> ks[i] < ks[j]
  }

  /** The order of discovery: from the offset of the query downwards, then upwards, and at
      one offset by size. */
  predicate Precedes(o: nat, c: Cell, d: Cell) {
    if c.offset == d.offset then c.size < d.size
    else if c.offset <= o then d.offset > o || d.offset < c.offset
    else c.offset < d.offset
  }

  ghost predicate Sorted(o: nat, s: seq<Cell>) {
    forall i, j :: 0 <= i < j < |s| ==> Precedes(o, s[i], s[j])
  }

  lemma SortedIsDistinct(o: nat, s: seq<Cell>)
    requires Sorted(o, s)
    ensures Distinct(s)
  {
  }

  // ----- one bucket -----

  ghost predicate Counts(c: Cell, query: Cell, o: nat, size: nat) {
    c != query && SharesByte(c, o, size)
  }

  method Smallest(cells: set<Cell>) returns (x: Cell)
    requires cells != {}
    ensures x in cells && forall c :: c in cells ==> x.size <= c.size
  {
    ghost var smallest := SmallestExists(cells);
    x :| x in cells && forall c :: c in cells ==> x.size <= c.size;
  }

  lemma {:induction false} SmallestExists(cells: set<Cell>) returns (x: Cell)
    requires cells != {}
    ensures x in cells && forall c :: c in cells ==> x.size <= c.size
  {
    x :| x in cells;
    var rest := cells - {x};
    if rest != {} {
      var y := SmallestExists(rest);
      if y.size < x.size {
        x := y;
      }
    }
    assert forall c :: c in cells ==> c in rest || x.size <= c.size;
  }

  /** The loop over the cells of one offset, in the order of their size: the cells that
      overlap are added unless they are in the list already. The cell of the query is left
      out, and counts or not. */
  method ScanBucket(cells: set<Cell>, ghost k: nat, o: nat, size: nat, query: Cell, counts: bool, before: seq<Cell>)
    returns (out: seq<Cell>, touched: bool)
    requires Sorted(o, before) && forall c :: c in cells ==> c.offset == k
    requires forall c, d :: c in before && d in cells && Counts(d, query, o, size) ==> d in before || Precedes(o, c, d)
    ensures Sorted(o, out)
    ensures forall c :: c in out <==> c in before || (c in cells && Counts(c, query, o, size))
    ensures touched <==> exists c :: c in cells && (counts || c != query) && SharesByte(c, o, size)
  {
    out, touched := before, false;
    var rest := cells;
    while rest != {}
      invariant rest <= cells && Sorted(o, out)
      invariant forall c :: c in out <==> c in before || (c in cells - rest && Counts(c, query, o, size))
      invariant forall c, d :: c in cells - rest && d in rest ==> c.size < d.size
      invariant touched <==> exists c :: c in cells - rest && (counts || c != query) && SharesByte(c, o, size)
      decreases rest
    {
      var x := Smallest(rest);
      assert forall d :: d in rest && d.size == x.size ==> d == x;
      rest := rest - {x};
      if Overlaps(x, o, size) && (counts || x != query) {
        if x != query && x !in out {
          assert forall c :: c in out ==> Precedes(o, c, x);
          out := out + [x];
        }
        touched := true;
        assert x in cells - rest;
      }
    }
    assert cells - rest == cells;
  }

  // ----- the scans -----

  /** The offsets in ascending order, as an iteration over the tree gives them. */
  method Offsets(keys: set<nat>) returns (ks: seq<nat>)
    ensures Ascending(ks) && forall k :: k in ks <==> k in keys
  {
    ks := [];
    var rest := keys;
    while rest != {}
      invariant rest <= keys && Ascending(ks)
      invariant forall k :: k in ks <==> k in keys - rest
      invariant forall j, k :: j in ks && k in rest ==> j < k
      decreases rest
    {
      ghost var least := LeastExists(rest);
      var k :| k in rest && forall j :: j in rest ==> k <= j;
      assert forall j :: j in rest - {k} ==> k < j;
      assert forall i :: 0 <= i < |ks| ==> ks[i] in ks;
      ks, rest := ks + [k], rest - {k};
    }
  }

  lemma {:induction false} LeastExists(keys: set<nat>) returns (k: nat)
    requires keys != {}
    ensures k in keys && forall j :: j in keys ==> k <= j
  {
    k :| k in keys;
    var rest := keys - {k};
    if rest != {} {
      var m := LeastExists(rest);
      if m < k {
        k := m;
      }
    }
    assert forall j :: j in keys ==> j in rest || k <= j;
  }

  ghost predicate Lists(ks: seq<nat>, buckets: Buckets) {
    Ascending(ks) && forall k :: k in ks <==> k in buckets
  }

  /** From the offset of the query downwards, until nothing overlaps. */
  method ScanDown(buckets: Buckets, ks: seq<nat>, at: nat, o: nat, size: nat) returns (out: seq<Cell>)
    requires Filed(buckets) && Lists(ks, buckets) && at < |ks| && ks[at] == o && Cell(o, size) in buckets[o]
    ensures Sorted(o, out)
    ensures forall c :: c in out <==> Reached(buckets, o, size, c) && c.offset <= o
  {
    out := [];
    var i := at;
    while i >= 0
      invariant -1 <= i <= at && Sorted(o, out)
      invariant forall j :: i < j <= at ==> Touches(buckets, ks[j], o, size)
      invariant forall c :: c in out <==> FoundDown(buckets, ks, i, at, o, size, c)
    {
      var touched;
      assert ks[i] in ks;
      forall c | c in out
        ensures ks[i] < c.offset <= o
      {
        FoundAbove(buckets, ks, i, at, o, size, c);
      }
      out, touched := ScanBucket(buckets[ks[i]], ks[i], o, size, Cell(o, size), true, out);
      FoundOneMore(buckets, ks, i, at, o, size);
      if !touched {
        assert forall c :: c in out <==> FoundDown(buckets, ks, i - 1, at, o, size, c);
        NoneBelow(buckets, ks, i, at, o, size);
        return;
      }
      i := i - 1;
    }
    AllBelow(buckets, ks, at, o, size);
  }

  /** What the downward scan has found behind index i. */
  ghost predicate FoundDown(buckets: Buckets, ks: seq<nat>, i: int, at: nat, o: nat, size: nat, c: Cell)
    requires -1 <= i <= at < |ks|
  {
    c != Cell(o, size) && SharesByte(c, o, size) && exists j :: i < j <= at && InBucket(buckets, ks[j], c)
  }

  lemma FoundAbove(buckets: Buckets, ks: seq<nat>, i: nat, at: nat, o: nat, size: nat, c: Cell)
    requires Filed(buckets) && Lists(ks, buckets) && i <= at < |ks| && ks[at] == o
    requires FoundDown(buckets, ks, i, at, o, size, c)
    ensures ks[i] < c.offset <= o
  {
    var j :| i < j <= at && InBucket(buckets, ks[j], c);
    assert ks[i] < ks[j] && (j < at ==> ks[j] < ks[at]);
  }

  lemma FoundOneMore(buckets: Buckets, ks: seq<nat>, i: nat, at: nat, o: nat, size: nat)
    requires Filed(buckets) && Lists(ks, buckets) && i <= at < |ks|
    ensures forall c :: FoundDown(buckets, ks, i - 1, at, o, size, c) <==>
              FoundDown(buckets, ks, i, at, o, size, c)
              || (c != Cell(o, size) && SharesByte(c, o, size) && c in buckets[ks[i]])
  {
    assert ks[i] in ks;
  }

  lemma AllBelow(buckets: Buckets, ks: seq<nat>, at: nat, o: nat, size: nat)
    requires Filed(buckets) && Lists(ks, buckets) && at < |ks| && ks[at] == o
    requires forall j :: 0 <= j <= at ==> Touches(buckets, ks[j], o, size)
    ensures forall c :: FoundDown(buckets, ks, -1, at, o, size, c) <==> Reached(buckets, o, size, c) && c.offset <= o
  {
  }

  lemma NoneBelow(buckets: Buckets, ks: seq<nat>, i: nat, at: nat, o: nat, size: nat)
    requires Filed(buckets) && Lists(ks, buckets) && i <= at < |ks| && ks[at] == o && Cell(o, size) in buckets[o]
    requires forall j :: i < j <= at ==> Touches(buckets, ks[j], o, size)
    requires !Touches(buckets, ks[i], o, size)
    ensures forall c :: FoundDown(buckets, ks, i - 1, at, o, size, c) <==> Reached(buckets, o, size, c) && c.offset <= o
  {
  }

  /** What the upward scan has found before index i. */
  ghost predicate FoundUp(buckets: Buckets, ks: seq<nat>, at: nat, i: nat, o: nat, size: nat, c: Cell)
    requires at < i <= |ks|
  {
    c != Cell(o, size) && SharesByte(c, o, size) && exists j :: at < j < i && InBucket(buckets, ks[j], c)
  }

  lemma FoundOneMoreUp(buckets: Buckets, ks: seq<nat>, at: nat, i: nat, o: nat, size: nat)
    requires Filed(buckets) && Lists(ks, buckets) && at < i < |ks|
    ensures forall c :: FoundUp(buckets, ks, at, i + 1, o, size, c) <==>
              FoundUp(buckets, ks, at, i, o, size, c)
              || (c != Cell(o, size) && SharesByte(c, o, size) && c in buckets[ks[i]])
  {
    assert ks[i] in ks;
  }

  lemma NoneAbove(buckets: Buckets, ks: seq<nat>, at: nat, i: nat, o: nat, size: nat)
    requires Filed(buckets) && Lists(ks, buckets) && at < i <= |ks| && ks[at] == o
    requires forall j :: at < j < i ==> Touches(buckets, ks[j], o, size)
    requires i < |ks| ==> !Touches(buckets, ks[i], o, size)
    ensures forall c :: FoundUp(buckets, ks, at, i, o, size, c) <==> Reached(buckets, o, size, c) && c.offset > o
  {
  }

  /** From the offset after that of the query upwards, until nothing overlaps. */
  method ScanUp(buckets: Buckets, ks: seq<nat>, at: nat, o: nat, size: nat, before: seq<Cell>)
    returns (out: seq<Cell>, stop: nat)
    requires Filed(buckets) && Lists(ks, buckets) && at < |ks| && ks[at] == o
    requires Sorted(o, before) && forall c {:trigger c in before} :: c in before ==> c.offset <= o
    ensures Sorted(o, out) && at < stop <= |ks|
    ensures forall c :: c in out <==> c in before || (Reached(buckets, o, size, c) && c.offset > o)
    ensures forall j :: at < j < stop ==> Touches(buckets, ks[j], o, size)
  {
    out, stop := before, at + 1;
    while stop < |ks|
      invariant at < stop <= |ks| && UpTo(buckets, ks, at, stop, o, size, before, out)
      invariant forall j :: at < j < stop ==> Touches(buckets, ks[j], o, size)
    {
      var touched;
      out, touched := ScanNext(buckets, ks, at, stop, o, size, before, out);
      if !touched {
        ScanEnds(buckets, ks, at, stop, o, size, before, out);
        return;
      }
      stop := stop + 1;
    }
    NoneAbove(buckets, ks, at, stop, o, size);
  }

  /** The list in front of index `stop` of the upward scan. */
  ghost predicate UpTo(
    buckets: Buckets, ks: seq<nat>, at: nat, stop: nat, o: nat, size: nat, before: seq<Cell>, out: seq<Cell>)
    requires at < stop <= |ks|
  {
    && Sorted(o, out) && (forall c {:trigger c in out} :: c in out ==> c.offset <= ks[stop - 1])
    && forall c :: c in out <==> c in before || FoundUp(buckets, ks, at, stop, o, size, c)
  }

  lemma ScanEnds(
    buckets: Buckets, ks: seq<nat>, at: nat, stop: nat, o: nat, size: nat, before: seq<Cell>, out: seq<Cell>)
    requires Filed(buckets) && Lists(ks, buckets) && at < stop < |ks| && ks[at] == o
    requires forall j :: at < j < stop ==> Touches(buckets, ks[j], o, size)
    requires UpTo(buckets, ks, at, stop + 1, o, size, before, out) && !Touches(buckets, ks[stop], o, size)
    ensures forall c :: c in out <==> c in before || (Reached(buckets, o, size, c) && c.offset > o)
  {
    FoundOneMoreUp(buckets, ks, at, stop, o, size);
    NoneAbove(buckets, ks, at, stop, o, size);
  }

  /** One round of the upward scan. */
  method ScanNext(
    buckets: Buckets, ks: seq<nat>, at: nat, stop: nat, o: nat, size: nat, ghost before: seq<Cell>, found: seq<Cell>)
    returns (out: seq<Cell>, touched: bool)
    requires Filed(buckets) && Lists(ks, buckets) && at < stop < |ks| && ks[at] == o
    requires UpTo(buckets, ks, at, stop, o, size, before, found)
    ensures UpTo(buckets, ks, at, stop + 1, o, size, before, out)
    ensures touched <==> Touches(buckets, ks[stop], o, size)
  {
    assert ks[stop] in ks && ks[stop - 1] < ks[stop] && o < ks[stop];
    out, touched := ScanBucket(buckets[ks[stop]], ks[stop], o, size, Cell(o, size), true, found);
    FoundOneMoreUp(buckets, ks, at, stop, o, size);
  }

  /** Once more over what the upward scan has seen. Nothing is left to find. */
  method ScanRest(buckets: Buckets, ks: seq<nat>, at: nat, stop: nat, o: nat, size: nat, before: seq<Cell>)
    returns (out: seq<Cell>)
    requires Filed(buckets) && Lists(ks, buckets) && at < stop <= |ks| && ks[at] == o && Sorted(o, before)
    requires forall j :: at < j < stop ==> Touches(buckets, ks[j], o, size)
    requires forall c :: Reached(buckets, o, size, c) && c.offset > o ==> c in before
    ensures Sorted(o, out) && forall c :: c in out <==> c in before
  {
    out := before;
    var i := at + 1;
    while i != stop
      invariant at < i <= stop && Sorted(o, out) && forall c :: c in out <==> c in before
      decreases stop - i
    {
      assert ks[i] in ks;
      forall c | c in buckets[ks[i]] && SharesByte(c, o, size)
        ensures Reached(buckets, o, size, c) && c.offset > o
      {
      }
      var touched;
      out, touched := ScanBucket(buckets[ks[i]], ks[i], o, size, Cell(o, size), false, out);
      if !touched {
        break;
      }
      i := i + 1;
    }
  }

  /** std::lower_bound: the first offset that is not less. */
  method LowerBound(ks: seq<nat>, o: nat) returns (at: nat)
    requires Ascending(ks)
    ensures at <= |ks| && (forall i :: 0 <= i < at ==> ks[i] < o) && (at < |ks| ==> o <= ks[at])
  {
    at := 0;
    while at < |ks| && ks[at] < o
      invariant at <= |ks| && forall i :: 0 <= i < at ==> ks[i] < o
    {
      at := at + 1;
    }
  }

  // ----- the map -----

  /** operator[] of the tree: an empty set for an offset not seen before. */
  function Touched(buckets: Buckets, o: nat): Buckets {
    if o in buckets then buckets else buckets[o := {}]
  }

  /** offset_map_t */
  class OffsetMap {
    var buckets: Buckets

    ghost predicate Valid()
      reads this
    {
      Filed(buckets)
    }

    constructor ()
      ensures Valid() && buckets == map[]
    {
      buckets := map[];
    }

    method RemoveCell(c: Cell)
      requires Valid()
      modifies this
      ensures Valid() && buckets.Keys == old(buckets).Keys + {c.offset}
      ensures forall x :: Stored(buckets, x) <==> Stored(old(buckets), x) && x != c
    {
      buckets := Touched(buckets, c.offset);
      buckets := buckets[c.offset := buckets[c.offset] - {c}];
    }

    method InsertCell(c: Cell)
      requires Valid()
      modifies this
      ensures Valid() && buckets.Keys == old(buckets).Keys + {c.offset}
      ensures forall x :: Stored(buckets, x) <==> Stored(old(buckets), x) || x == c
    {
      buckets := Touched(buckets, c.offset);
      buckets := buckets[c.offset := buckets[c.offset] + {c}];
    }

    /** get_cell: looking leaves an empty set behind where there was none. */
    method GetCell(o: nat, size: nat) returns (c: Option<Cell>)
      requires Valid()
      modifies this
      ensures Valid() && buckets.Keys == old(buckets).Keys + {o}
      ensures forall x :: Stored(buckets, x) <==> Stored(old(buckets), x)
      ensures c == if Stored(old(buckets), Cell(o, size)) then Some(Cell(o, size)) else None
    {
      buckets := Touched(buckets, o);
      return if Cell(o, size) in buckets[o] then Some(Cell(o, size)) else None;
    }

    /** mk_cell: afterwards the cell is stored, and no other has come or gone. */
    method MkCell(o: nat, size: nat) returns (c: Cell)
      requires Valid()
      modifies this
      ensures Valid() && c == Cell(o, size) && buckets.Keys == old(buckets).Keys + {o}
      ensures forall x :: Stored(buckets, x) <==> Stored(old(buckets), x) || x == c
    {
      var found := GetCell(o, size);
      if found.Some? {
        return found.value;
      }
      c := Cell(o, size);
      InsertCell(c);
    }

    /** get_overlap_cells: exactly the cells the scan can get to, each once, in the order in
        which it gets to them. The cells stay as they are; what may stay behind is an empty
        set at the offset asked for. */
    method GetOverlapCells(o: nat, size: nat) returns (out: seq<Cell>)
      requires Valid()
      modifies this
      ensures Valid() && buckets.Keys == old(buckets).Keys + {o}
      ensures forall x :: Stored(buckets, x) <==> Stored(old(buckets), x)
      ensures Sorted(o, out) && Distinct(out) && forall c :: c in out <==> Reached(old(buckets), o, size, c)
    {
      var added := false;
      var found := GetCell(o, size);
      var query := Cell(o, size);
      if found.None? {
        InsertCell(query);
        added := true;
      }
      SameReach(old(buckets), buckets, o, size);
      var ks := Offsets(buckets.Keys);
      var at := LowerBound(ks, o);
      assert o in ks;
      var stop;
      out := ScanDown(buckets, ks, at, o, size);
      out, stop := ScanUp(buckets, ks, at, o, size, out);
      out := ScanRest(buckets, ks, at, stop, o, size, out);
      SortedIsDistinct(o, out);
      if added {
        RemoveCell(query);
      }
    }
  }

  /** The query cell itself makes no difference to what is reached. */
  lemma SameReach(buckets: Buckets, during: Buckets, o: nat, size: nat)
    requires Filed(buckets) && Filed(during) && during.Keys == buckets.Keys + {o}
    requires forall x :: Stored(during, x) <==> Stored(buckets, x) || x == Cell(o, size)
    ensures forall c :: Reached(during, o, size, c) <==> Reached(buckets, o, size, c)
  {
    forall c
      ensures Reached(during, o, size, c) <==> Reached(buckets, o, size, c)
    {
      forall k | k in buckets && Between(k, c.offset, o)
        ensures Touches(during, k, o, size) <==> Touches(buckets, k, o, size)
      {
        SameTouch(buckets, during, o, size, k);
      }
      assert forall k :: k in during && Between(k, c.offset, o) ==> k in buckets;
    }
  }

  lemma SameTouch(buckets: Buckets, during: Buckets, o: nat, size: nat, k: nat)
    requires Filed(buckets) && Filed(during) && k in buckets && k in during && k != o
    requires forall x :: Stored(during, x) <==> Stored(buckets, x) || x == Cell(o, size)
    ensures Touches(during, k, o, size) <==> Touches(buckets, k, o, size)
  {
    assert forall c :: c in buckets[k] ==> Stored(buckets, c);
    assert forall c :: c in during[k] ==> Stored(during, c);
  }

  // ----- the scan against brute force -----

  ghost predicate Positive(buckets: Buckets) {
    forall c :: Stored(buckets, c) ==> c.size > 0
  }

  /** Cells at different offsets have no byte in common. */
  ghost predicate Disjoint(buckets: Buckets) {
    forall c, d :: Stored(buckets, c) && Stored(buckets, d) && c.offset != d.offset ==>
      !SharesByte(c, d.offset, d.size)
  }

  /** An empty set lies on the way from the query to a cell that overlaps it. */
  ghost predicate EmptyOnTheWay(buckets: Buckets, o: nat, size: nat) {
    exists c, k :: Stored(buckets, c) && c != Cell(o, size) && SharesByte(c, o, size)
      && k in buckets && Between(k, c.offset, o) && buckets[k] == {}
  }

  /** Between the query and a cell that overlaps it, every cell overlaps it too. */
  lemma BetweenTouches(buckets: Buckets, o: nat, size: nat, c: Cell, k: nat, d: Cell)
    requires Filed(buckets) && Positive(buckets) && Disjoint(buckets)
    requires Stored(buckets, c) && SharesByte(c, o, size) && k in buckets && Between(k, c.offset, o) && d in buckets[k]
    ensures SharesByte(d, o, size)
  {
    assert Stored(buckets, d) && !Overlaps(c, d.offset, d.size) && !Overlaps(d, c.offset, c.size);
    assert Overlaps(c, o, size) && Overlaps(d, o, size);
  }

  /** The scan finds all overlapping cells if and only if no empty set is on its way. */
  lemma ScanCompleteIff(buckets: Buckets, o: nat, size: nat)
    requires Filed(buckets) && Positive(buckets) && Disjoint(buckets)
    ensures (forall c :: Stored(buckets, c) && c != Cell(o, size) && SharesByte(c, o, size) ==>
               Reached(buckets, o, size, c))
       <==> !EmptyOnTheWay(buckets, o, size)
  {
    if !EmptyOnTheWay(buckets, o, size) {
      forall c | Stored(buckets, c) && c != Cell(o, size) && SharesByte(c, o, size)
        ensures Reached(buckets, o, size, c)
      {
        forall k | k in buckets && Between(k, c.offset, o)
          ensures Touches(buckets, k, o, size)
        {
          assert buckets[k] != {};
          var d :| d in buckets[k];
          BetweenTouches(buckets, o, size, c, k, d);
        }
      }
    } else {
      var c, k :| Stored(buckets, c) && c != Cell(o, size) && SharesByte(c, o, size)
        && k in buckets && Between(k, c.offset, o) && buckets[k] == {};
      assert !Touches(buckets, k, o, size);
    }
  }

  /** With no empty sets, the scan is brute force. */
  lemma ScanIsBruteForce(buckets: Buckets, o: nat, size: nat)
    requires Filed(buckets) && Positive(buckets) && Disjoint(buckets)
    requires forall k :: k in buckets ==> buckets[k] != {}
    ensures forall c :: Reached(buckets, o, size, c) <==>
              Stored(buckets, c) && c != Cell(o, size) && SharesByte(c, o, size)
  {
    ScanCompleteIff(buckets, o, size);
  }

  /** A query that finds nothing can hide a cell from the next one: asking for two bytes at
      4 leaves an empty set there, and a search from 0 over 16 bytes then stops before 8. */
  method LookingHidesACell() returns (first: seq<Cell>, second: seq<Cell>)
    ensures Cell(8, 4) in first && Cell(8, 4) !in second
  {
    var m := new OffsetMap();
    var c := m.MkCell(8, 4);
    assert Stored(m.buckets, c) && m.buckets.Keys == {8};
    assert Overlaps(c, 0, 16) && Reached(m.buckets, 0, 16, c);
    first := m.GetOverlapCells(0, 16);
    var probe := m.GetOverlapCells(4, 2);
    assert 4 in m.buckets && Between(4, 8, 0);
    assert forall x :: x in m.buckets[4] ==> Stored(m.buckets, x);
    assert !Touches(m.buckets, 4, 0, 16);
    second := m.GetOverlapCells(0, 16);
  }
}
