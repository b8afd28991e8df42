/** The tree behind the index of stack cells (src/crab/array_domain.cpp): a radix tree whose
    keys are the bits of offsets is a map from offsets, in ascending order. */
module OffsetTree {
  import opened Bits
  import opened RadixHeap
  import opened OffsetKey
  import opened A = ArrayDomain
  import I = RadixIterator
  import T = RadixTree
  import Q = RadixQueries

  /** All bits of an offset. */
  function Word(x: nat, bitsize: nat): Key {
    Symbols(Offset(x, bitsize), bitsize)
  }

  predicate IsWord(k: Key, bitsize: nat) {
    |k| == bitsize && forall i :: 0 <= i < |k| ==> k[i] <= 1
  }

  /** The offset that bits stand for. */
  function IndexOf(k: Key): nat {
    if k == [] then 0 else 2 * IndexOf(k[..|k| - 1]) + k[|k| - 1]
  }

  lemma WordStep(x: nat, bitsize: nat)
    requires bitsize > 0
    ensures Word(x, bitsize) == Word(x / 2, bitsize - 1) + [x % 2]
  {
    forall i | 0 <= i < bitsize
      ensures Word(x, bitsize)[i] == (Word(x / 2, bitsize - 1) + [x % 2])[i]
    {
      assert Word(x, bitsize)[i] == Bit(x, i, bitsize);
      if i < bitsize - 1 {
        assert Bit(x, i, bitsize) == Bit(x / 2, i, bitsize - 1);
      }
    }
  }

  /** Offsets and words stand for each other. */
  lemma {:induction false} IndexOfWord(x: nat, bitsize: nat)
    requires x < Pow2(bitsize)
    ensures IsWord(Word(x, bitsize), bitsize) && IndexOf(Word(x, bitsize)) == x
  {
    if bitsize > 0 {
      IndexOfWord(x / 2, bitsize - 1);
      WordStep(x, bitsize);
      assert Word(x, bitsize)[..bitsize - 1] == Word(x / 2, bitsize - 1);
    }
  }

  lemma {:induction false} WordOfIndex(k: Key, bitsize: nat)
    requires IsWord(k, bitsize)
    ensures IndexOf(k) < Pow2(bitsize) && Word(IndexOf(k), bitsize) == k
    decreases bitsize
  {
    if bitsize > 0 {
      WordOfIndex(k[..bitsize - 1], bitsize - 1);
      WordStep(IndexOf(k), bitsize);
    }
  }

  ghost predicate AllWords(model: map<Key, set<A.Cell>>, bitsize: nat) {
    forall k :: k in model ==> IsWord(k, bitsize)
  }

  /** The sets by offset that a tree of sets by words holds. */
  ghost function BucketsOf(model: map<Key, set<A.Cell>>, bitsize: nat): Buckets
    requires AllWords(model, bitsize)
  {
    map x | x in (set k | k in model :: IndexOf(k)) :: model[WordIn(model, bitsize, x)]
  }

  ghost function WordIn(model: map<Key, set<A.Cell>>, bitsize: nat, x: nat): (k: Key)
    requires AllWords(model, bitsize) && x in (set k | k in model :: IndexOf(k))
    ensures k == Word(x, bitsize) && k in model
  {
    var k :| k in model && IndexOf(k) == x;
    WordOfIndex(k, bitsize);
    k
  }

  lemma InBuckets(model: map<Key, set<A.Cell>>, bitsize: nat, x: nat)
    requires AllWords(model, bitsize) && x < Pow2(bitsize)
    ensures x in BucketsOf(model, bitsize) <==> Word(x, bitsize) in model
    ensures x in BucketsOf(model, bitsize) ==> BucketsOf(model, bitsize)[x] == model[Word(x, bitsize)]
  {
    IndexOfWord(x, bitsize);
  }

  lemma BucketsFit(model: map<Key, set<A.Cell>>, bitsize: nat, x: nat)
    requires AllWords(model, bitsize) && x in BucketsOf(model, bitsize)
    ensures x < Pow2(bitsize)
  {
    WordOfIndex(WordIn(model, bitsize, x), bitsize);
  }

  /** An entry for a word is an entry for its offset. */
  lemma BucketsUpdate(model: map<Key, set<A.Cell>>, bitsize: nat, o: nat, cells: set<A.Cell>)
    requires AllWords(model, bitsize) && o < Pow2(bitsize)
    ensures var model' := model[Word(o, bitsize) := cells];
            AllWords(model', bitsize) && BucketsOf(model', bitsize) == BucketsOf(model, bitsize)[o := cells]
  {
    IndexOfWord(o, bitsize);
    var model' := model[Word(o, bitsize) := cells];
    assert AllWords(model', bitsize);
    var b, b' := BucketsOf(model, bitsize)[o := cells], BucketsOf(model', bitsize);
    forall x: nat
      ensures x in b <==> x in b'
      ensures x in b ==> b[x] == b'[x]
    {
      if x < Pow2(bitsize) {
        InBuckets(model, bitsize, x);
        InBuckets(model', bitsize, x);
        IndexOfWord(x, bitsize);
      } else {
        if x in b && x != o {
          BucketsFit(model, bitsize, x);
        }
        if x in b' {
          BucketsFit(model', bitsize, x);
        }
      }
    }
  }

  /** operator[] of the tree is what the map of buckets is taken to do. */
  method Touch(t: T.RadixTree<set<A.Cell>>, bitsize: nat, o: nat)
    requires t.Valid() && AllWords(t.model, bitsize) && o < Pow2(bitsize)
    modifies t
    ensures t.Valid() && AllWords(t.model, bitsize)
    ensures BucketsOf(t.model, bitsize) == Touched(BucketsOf(old(t.model), bitsize), o)
  {
    BucketsUpdate(t.model, bitsize, o, {});
    InBuckets(t.model, bitsize, o);
    var leaf := t.Index(Word(o, bitsize), {});
  }

  lemma IndexesAscend(j: Key, k: Key, bitsize: nat)
    requires IsWord(j, bitsize) && IsWord(k, bitsize) && I.Less(j, k)
    ensures IndexOf(j) < IndexOf(k)
  {
    WordOfIndex(j, bitsize);
    WordOfIndex(k, bitsize);
    UnsignedIsLexicographic(Offset(IndexOf(j), bitsize), Offset(IndexOf(k), bitsize), bitsize);
  }

  /** Iteration over the tree gives exactly the offsets of the buckets, in ascending order. */
  method OffsetsOf(t: T.RadixTree<set<A.Cell>>, bitsize: nat) returns (ks: seq<nat>)
    requires t.Valid() && AllWords(t.model, bitsize)
    ensures Lists(ks, BucketsOf(t.model, bitsize))
  {
    var keys := Q.Enumerate(t);
    ks := [];
    for i := 0 to |keys|
      invariant |ks| == i && forall j :: 0 <= j < i ==> ks[j] == IndexOf(keys[j])
    {
      ks := ks + [IndexOf(keys[i])];
    }
    OffsetsAreListed(t.model, bitsize, keys, ks);
  }

  lemma OffsetsAreListed(model: map<Key, set<A.Cell>>, bitsize: nat, keys: seq<Key>, ks: seq<nat>)
    requires AllWords(model, bitsize) && Q.Ascending(keys) && forall k :: k in keys <==> k in model
    requires |ks| == |keys| && forall j :: 0 <= j < |ks| ==> ks[j] == IndexOf(keys[j])
    ensures Lists(ks, BucketsOf(model, bitsize))
  {
    forall i, j | 0 <= i < j < |ks|
      ensures ks[i] < ks[j]
    {
      assert keys[i] in keys && keys[j] in keys;
      IndexesAscend(keys[i], keys[j], bitsize);
    }
    forall x
      ensures x in ks <==> x in BucketsOf(model, bitsize)
    {
      if x in ks {
        var i :| 0 <= i < |ks| && ks[i] == x;
        assert keys[i] in keys;
      }
      if x in BucketsOf(model, bitsize) {
        var k :| k in model && IndexOf(k) == x;
        assert k in keys;
        var i :| 0 <= i < |keys| && keys[i] == k;
        assert ks[i] == x;
      }
    }
  }
}
