/** Offsets as radix tree keys (src/crab/array_domain.cpp): a word of `bitsize` bits (64 in
    the source) read from its highest bit, of which a prefix counts. */
module OffsetKey {
  import opened Bits
  import opened RadixHeap
  import opened RadixIterator

  /** offset_t */
  datatype Offset = Offset(index: nat, prefixLength: nat)

  predicate InWord(o: Offset, bitsize: nat) {
    o.index < Pow2(bitsize) && o.prefixLength <= bitsize
  }

  /** operator[]: the n-th bit from the top. */
  function Bit(x: nat, n: nat, bitsize: nat): Symbol
    requires n < bitsize
  {
    if TestBit(x, bitsize - 1 - n) then 1 else 0
  }

  /** The key that an offset stands for. */
  function Symbols(o: Offset, bitsize: nat): Key
    requires o.prefixLength <= bitsize
  {
    seq(o.prefixLength, i requires 0 <= i < o.prefixLength => Bit(o.index, i, bitsize))
  }

  /** Bits beyond the prefix are zero, as in every key the tree makes. */
  ghost predicate Clean(o: Offset, bitsize: nat) {
    forall i :: o.prefixLength <= i < bitsize ==> Bit(o.index, i, bitsize) == 0
  }

  /** The mask of radix_substr before it is shifted: one bit at `length`, which is lost if
      that is all of the word, minus one, which then wraps around. */
  function Mask(length: nat, bitsize: nat): (r: nat)
    requires length <= bitsize
    ensures r == Pow2(length) - 1
  {
    if length == bitsize then Pow2(bitsize) - 1
    else PowersGrow(length, bitsize); Low(ShiftLeft(1, length), bitsize) - 1
  }

  lemma {:induction false} PowersGrow(a: nat, b: nat)
    requires a < b
    ensures Pow2(a) < Pow2(b) && Low(ShiftLeft(1, a), b) == Pow2(a)
  {
    if a + 1 < b {
      PowersGrow(a, b - 1);
    }
    ShiftLeftIsProduct(1, a);
    LowFits(Pow2(a), b);
  }

  /** radix_substr */
  function RadixSubstr(key: Offset, begin: nat, length: nat, bitsize: nat): (r: Offset)
    requires begin + length <= bitsize
    ensures InWord(r, bitsize)
  {
    var mask := Low(ShiftLeft(Mask(length, bitsize), bitsize - length - begin), bitsize);
    Offset(Low(ShiftLeft(And(key.index, mask), begin), bitsize), length)
  }

  /** radix_join */
  function RadixJoin(entry1: Offset, entry2: Offset, bitsize: nat): (r: Offset)
    requires InWord(entry1, bitsize) && InWord(entry2, bitsize)
    requires entry1.prefixLength + entry2.prefixLength <= bitsize
    ensures InWord(r, bitsize)
  {
    ShiftRightShrinks(entry2.index, entry1.prefixLength);
    OrStays(entry1.index, ShiftRight(entry2.index, entry1.prefixLength), bitsize);
    Offset(Or(entry1.index, ShiftRight(entry2.index, entry1.prefixLength)),
           entry1.prefixLength + entry2.prefixLength)
  }

  lemma {:induction false} ShiftRightShrinks(y: nat, s: nat)
    ensures 0 <= ShiftRight(y, s) <= y
  {
    if s > 0 {
      ShiftRightShrinks(y / 2, s - 1);
    }
  }

  /** Masking a window of x and shifting it up to the top of the word. */
  lemma SubstrBit(key: Offset, begin: nat, length: nat, bitsize: nat, i: nat)
    requires begin + length <= bitsize && i < bitsize
    ensures Bit(RadixSubstr(key, begin, length, bitsize).index, i, bitsize)
         == if i < length then Bit(key.index, begin + i, bitsize) else 0
  {
    var m, up, j := Mask(length, bitsize), bitsize - length - begin, bitsize - 1 - i;
    var mask := Low(ShiftLeft(m, up), bitsize);
    LowBit(ShiftLeft(And(key.index, mask), begin), bitsize, j);
    ShiftLeftBit(And(key.index, mask), begin, j);
    if j >= begin {
      BitByBit(key.index, mask, j - begin);
      LowBit(ShiftLeft(m, up), bitsize, j - begin);
      ShiftLeftBit(m, up, j - begin);
      if j - begin >= up {
        OnesBit(length, j - begin - up);
      }
    }
  }

  /** radix_substr is a slice of the key. */
  lemma SubstrIsSlice(key: Offset, begin: nat, length: nat, bitsize: nat)
    requires begin + length <= key.prefixLength <= bitsize
    ensures Symbols(RadixSubstr(key, begin, length, bitsize), bitsize) == Symbols(key, bitsize)[begin..begin + length]
    ensures Clean(RadixSubstr(key, begin, length, bitsize), bitsize)
  {
    forall i | 0 <= i < bitsize
      ensures Bit(RadixSubstr(key, begin, length, bitsize).index, i, bitsize)
           == if i < length then Bit(key.index, begin + i, bitsize) else 0
    {
      SubstrBit(key, begin, length, bitsize, i);
    }
  }

  lemma JoinBit(a: Offset, b: Offset, bitsize: nat, i: nat)
    requires InWord(a, bitsize) && InWord(b, bitsize) && a.prefixLength + b.prefixLength <= bitsize
    requires i < bitsize && Clean(a, bitsize)
    ensures Bit(RadixJoin(a, b, bitsize).index, i, bitsize)
         == if i < a.prefixLength then Bit(a.index, i, bitsize) else Bit(b.index, i - a.prefixLength, bitsize)
  {
    var j := bitsize - 1 - i;
    BitByBit(a.index, ShiftRight(b.index, a.prefixLength), j);
    ShiftRightBit(b.index, a.prefixLength, j);
    if i < a.prefixLength {
      LowFits(b.index, bitsize);
      LowBit(b.index, bitsize, j + a.prefixLength);
    } else {
      assert Bit(a.index, i, bitsize) == 0;
    }
  }

  /** radix_join is concatenation. */
  lemma JoinIsConcatenation(a: Offset, b: Offset, bitsize: nat)
    requires InWord(a, bitsize) && InWord(b, bitsize) && a.prefixLength + b.prefixLength <= bitsize
    requires Clean(a, bitsize)
    ensures Symbols(RadixJoin(a, b, bitsize), bitsize) == Symbols(a, bitsize) + Symbols(b, bitsize)
    ensures Clean(b, bitsize) ==> Clean(RadixJoin(a, b, bitsize), bitsize)
  {
    forall i | 0 <= i < bitsize
      ensures Bit(RadixJoin(a, b, bitsize).index, i, bitsize)
           == if i < a.prefixLength then Bit(a.index, i, bitsize) else Bit(b.index, i - a.prefixLength, bitsize)
    {
      JoinBit(a, b, bitsize, i);
    }
  }

  // ----- comparisons look at the index alone -----

  lemma {:induction false} LessByBits(x: nat, y: nat, n: nat) returns (j: nat)
    requires x < y < Pow2(n)
    ensures j < n && !TestBit(x, j) && TestBit(y, j)
    ensures forall k :: j < k < n ==> TestBit(x, k) == TestBit(y, k)
  {
    if x / 2 == y / 2 {
      j := 0;
      assert forall k :: 0 < k < n ==> TestBit(x, k) == TestBit(x / 2, k - 1) && TestBit(y, k) == TestBit(y / 2, k - 1);
    } else {
      var i := LessByBits(x / 2, y / 2, n - 1);
      j := i + 1;
      forall k | j < k < n
        ensures TestBit(x, k) == TestBit(y, k)
      {
        assert TestBit(x / 2, k - 1) == TestBit(y / 2, k - 1);
      }
    }
  }

  lemma LessAsSymbols(a: Offset, b: Offset, bitsize: nat)
    requires InWord(a, bitsize) && InWord(b, bitsize) && a.prefixLength == b.prefixLength
    requires Clean(a, bitsize) && Clean(b, bitsize) && a.index < b.index
    ensures Less(Symbols(a, bitsize), Symbols(b, bitsize))
  {
    var j := LessByBits(a.index, b.index, bitsize);
    var i := bitsize - 1 - j;
    assert Bit(b.index, i, bitsize) == 1;
    assert i < b.prefixLength;
    forall k | 0 <= k < i
      ensures Bit(a.index, k, bitsize) == Bit(b.index, k, bitsize)
    {
      assert j < bitsize - 1 - k;
    }
    LessParts(Symbols(a, bitsize), Symbols(b, bitsize), i);
  }

  /** Comparing the words as unsigned numbers is comparing the keys of the same length. */
  lemma UnsignedIsLexicographic(a: Offset, b: Offset, bitsize: nat)
    requires InWord(a, bitsize) && InWord(b, bitsize) && a.prefixLength == b.prefixLength
    requires Clean(a, bitsize) && Clean(b, bitsize)
    ensures a.index < b.index <==> Less(Symbols(a, bitsize), Symbols(b, bitsize))
    ensures a.index == b.index <==> Symbols(a, bitsize) == Symbols(b, bitsize)
  {
    var s, t := Symbols(a, bitsize), Symbols(b, bitsize);
    LessIrreflexive(s);
    if a.index < b.index {
      LessAsSymbols(a, b, bitsize);
    } else if b.index < a.index {
      LessAsSymbols(b, a, bitsize);
      if Less(s, t) {
        LessTransitive(s, t, s);
      }
    }
  }

  /** Among siblings, which begin with different bits, the words compare as the keys do
      although their lengths differ. */
  lemma SiblingsCompare(a: Offset, b: Offset, bitsize: nat)
    requires InWord(a, bitsize) && InWord(b, bitsize) && a.prefixLength > 0 && b.prefixLength > 0
    requires Bit(a.index, 0, bitsize) < Bit(b.index, 0, bitsize)
    ensures a.index < b.index && Less(Symbols(a, bitsize), Symbols(b, bitsize))
  {
    assert Symbols(a, bitsize)[0] < Symbols(b, bitsize)[0];
    if b.index < a.index {
      var j := LessByBits(b.index, a.index, bitsize);
      assert false;
    }
  }
}
