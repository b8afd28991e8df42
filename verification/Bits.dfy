/** Integers as two's complement bit patterns without end, as cpp_int has them
    (src/crab_utils/num_big.hpp). */
module Bits {
  function Pow2(n: nat): (r: nat)
    ensures r > 0
  {
    if n == 0 then 1 else 2 * Pow2(n - 1)
  }

  predicate TestBit(x: int, j: nat)
    decreases j
  {
    if j == 0 then x % 2 == 1 else TestBit(x / 2, j - 1)
  }

  function Abs(x: int): nat {
    if x < 0 then -x else x
  }

  function And(x: int, y: int): int
    decreases Abs(x)
  {
    if x == 0 then 0
    else if x == -1 then y
    else 2 * And(x / 2, y / 2) + (if x % 2 == 1 && y % 2 == 1 then 1 else 0)
  }

  function Or(x: int, y: int): int
    decreases Abs(x)
  {
    if x == 0 then y
    else if x == -1 then -1
    else 2 * Or(x / 2, y / 2) + (if x % 2 == 1 || y % 2 == 1 then 1 else 0)
  }

  function Xor(x: int, y: int): int
    decreases Abs(x)
  {
    if x == 0 then y
    else if x == -1 then -1 - y
    else 2 * Xor(x / 2, y / 2) + (if x % 2 != y % 2 then 1 else 0)
  }

  lemma {:induction false} ConstantBits(j: nat)
    ensures !TestBit(0, j) && TestBit(-1, j)
  {
    if j > 0 {
      ConstantBits(j - 1);
    }
  }

  lemma {:induction false} ComplementBit(x: int, j: nat)
    ensures TestBit(-1 - x, j) == !TestBit(x, j)
    decreases j
  {
    if j > 0 {
      ComplementBit(x / 2, j - 1);
      assert (-1 - x) / 2 == -1 - x / 2;
    }
  }

  /** The three operations work bit by bit. */
  lemma {:induction false} BitByBit(x: int, y: int, j: nat)
    ensures TestBit(And(x, y), j) == (TestBit(x, j) && TestBit(y, j))
    ensures TestBit(Or(x, y), j) == (TestBit(x, j) || TestBit(y, j))
    ensures TestBit(Xor(x, y), j) == (TestBit(x, j) != TestBit(y, j))
    decreases j
  {
    ConstantBits(j);
    ComplementBit(y, j);
    if x != 0 && x != -1 && j > 0 {
      BitByBit(x / 2, y / 2, j - 1);
      assert And(x, y) / 2 == And(x / 2, y / 2);
      assert Or(x, y) / 2 == Or(x / 2, y / 2);
      assert Xor(x, y) / 2 == Xor(x / 2, y / 2);
    }
  }

  /** x << s */
  function ShiftLeft(x: int, s: nat): int {
    if s == 0 then x else 2 * ShiftLeft(x, s - 1)
  }

  /** x >> s */
  function ShiftRight(x: int, s: nat): int
    decreases s
  {
    if s == 0 then x else ShiftRight(x / 2, s - 1)
  }

  /** The lowest n bits. */
  function Low(x: int, n: nat): (r: nat)
    ensures r < Pow2(n)
    decreases n
  {
    if n == 0 then 0 else x % 2 + 2 * Low(x / 2, n - 1)
  }

  lemma {:induction false} ShiftLeftBit(x: int, s: nat, j: nat)
    ensures TestBit(ShiftLeft(x, s), j) == (j >= s && TestBit(x, j - s))
  {
    if s > 0 {
      assert ShiftLeft(x, s) / 2 == ShiftLeft(x, s - 1);
      if j > 0 {
        ShiftLeftBit(x, s - 1, j - 1);
      }
    }
  }

  lemma {:induction false} ShiftRightBit(x: int, s: nat, j: nat)
    ensures TestBit(ShiftRight(x, s), j) == TestBit(x, j + s)
    decreases s
  {
    if s > 0 {
      ShiftRightBit(x / 2, s - 1, j);
    }
  }

  lemma {:induction false} LowBit(x: int, n: nat, j: nat)
    ensures TestBit(Low(x, n), j) == (j < n && TestBit(x, j))
    decreases n
  {
    ConstantBits(j);
    if n > 0 && j > 0 {
      LowBit(x / 2, n - 1, j - 1);
      assert Low(x, n) / 2 == Low(x / 2, n - 1);
    }
  }

  lemma {:induction false} LowFits(x: nat, n: nat)
    requires x < Pow2(n)
    ensures Low(x, n) == x
  {
    if n > 0 {
      LowFits(x / 2, n - 1);
    }
  }

  lemma {:induction false} OnesBit(n: nat, j: nat)
    ensures TestBit(Pow2(n) - 1, j) == (j < n)
  {
    ConstantBits(j);
    if n > 0 && j > 0 {
      OnesBit(n - 1, j - 1);
      assert (Pow2(n) - 1) / 2 == Pow2(n - 1) - 1;
    }
  }

  lemma {:induction false} ShiftLeftIsProduct(x: int, s: nat)
    ensures ShiftLeft(x, s) == x * Pow2(s)
  {
    if s > 0 {
      ShiftLeftIsProduct(x, s - 1);
      assert 2 * (x * Pow2(s - 1)) == x * (2 * Pow2(s - 1));
    }
  }

  /** A number is what is shifted out and what is left. */
  lemma {:induction false} ShiftParts(x: int, s: nat)
    ensures x == ShiftLeft(ShiftRight(x, s), s) + Low(x, s)
    decreases s
  {
    if s > 0 {
      ShiftParts(x / 2, s - 1);
    }
  }

  lemma {:induction false} OrStays(x: nat, y: nat, n: nat)
    requires x < Pow2(n) && y < Pow2(n)
    ensures 0 <= Xor(x, y) <= Or(x, y) < Pow2(n)
    decreases x
  {
    if x > 0 {
      OrStays(x / 2, y / 2, n - 1);
    } else {
      assert Xor(x, y) == Or(x, y);
    }
  }

  // ----- counting up through the low bits -----

  lemma {:induction false} LowSuccessor(x: int, n: nat)
    ensures Low(x + 1, n) == if Low(x, n) + 1 == Pow2(n) then 0 else Low(x, n) + 1
    decreases n
  {
    if n > 0 {
      if x % 2 == 0 {
        assert (x + 1) / 2 == x / 2;
      } else {
        assert (x + 1) / 2 == x / 2 + 1;
        LowSuccessor(x / 2, n - 1);
      }
    }
  }

  /** Less than a full turn further, the low bits have grown as much, or wrapped once. */
  lemma {:induction false} LowAdvance(x: int, d: nat, n: nat)
    requires d < Pow2(n)
    ensures Low(x + d, n) == if Low(x, n) + d < Pow2(n) then Low(x, n) + d else Low(x, n) + d - Pow2(n)
    decreases d
  {
    if d > 0 {
      LowAdvance(x, d - 1, n);
      LowSuccessor(x + d - 1, n);
    }
  }

  /** Masking with ones keeps the low bits. */
  lemma {:induction false} AndOnes(x: int, n: nat)
    ensures And(x, Pow2(n) - 1) == Low(x, n)
    decreases n
  {
    if n == 0 {
      AndZero(x);
    } else if x == 0 {
      LowFits(0, n);
    } else {
      AndOnes(x / 2, n - 1);
      HalfOfOnes(n);
      if x == -1 {
        assert x / 2 == -1 && x % 2 == 1;
      }
    }
  }

  lemma HalfOfOnes(n: nat)
    requires n > 0
    ensures (Pow2(n) - 1) / 2 == Pow2(n - 1) - 1 && (Pow2(n) - 1) % 2 == 1
  {
  }

  lemma {:induction false} AndZero(x: int)
    ensures And(x, 0) == 0
    decreases Abs(x)
  {
    if x != 0 && x != -1 {
      AndZero(x / 2);
    }
  }

  /** And with a non-negative number is non-negative and no larger. */
  lemma {:induction false} AndShrinks(x: int, y: int)
    ensures y >= 0 ==> 0 <= And(x, y) <= y
    ensures x >= 0 ==> 0 <= And(x, y) <= x
    decreases Abs(x)
  {
    if x != 0 && x != -1 {
      AndShrinks(x / 2, y / 2);
    }
  }

  /** number_t::fill_ones: all bits up to the highest one. */
  function FillOnes(n: nat): nat {
    if n == 0 then 0 else 2 * FillOnes(n / 2) + 1
  }

  /** It is the least number of ones in a row that reaches n. */
  lemma {:induction false} FillOnesIsLeast(n: nat) returns (k: nat)
    ensures FillOnes(n) == Pow2(k) - 1 && n < Pow2(k)
    ensures k > 0 ==> Pow2(k - 1) <= n
  {
    if n == 0 {
      k := 0;
    } else {
      var j := FillOnesIsLeast(n / 2);
      k := j + 1;
    }
  }

  lemma {:induction false} ShiftRightMonotone(x: int, y: int, s: nat)
    requires x <= y
    ensures ShiftRight(x, s) <= ShiftRight(y, s)
    decreases s
  {
    if s > 0 {
      ShiftRightMonotone(x / 2, y / 2, s - 1);
    }
  }

  // ----- masks with some low bits missing -----

  /** A mask and its complement share out the bits of a number. */
  lemma {:induction false} AndComplement(x: nat, r: nat, n: nat)
    requires x < Pow2(n) && r < Pow2(n)
    ensures And(x, Pow2(n) - 1 - r) == x - And(x, r)
    decreases n
  {
    if x > 0 {
      AndComplement(x / 2, r / 2, n - 1);
      HalfOfMask(n, r);
    }
  }

  lemma HalfOfMask(n: nat, r: nat)
    requires n > 0 && r < Pow2(n)
    ensures (Pow2(n) - 1 - r) / 2 == Pow2(n - 1) - 1 - r / 2 && (Pow2(n) - 1 - r) % 2 == 1 - r % 2
  {
  }

  /** A small mask takes no more than the low bits. */
  lemma {:induction false} AndWithinLow(x: nat, r: nat, k: nat)
    requires r < Pow2(k)
    ensures 0 <= And(x, r) <= Low(x, k)
    decreases k
  {
    if k == 0 {
      AndZero(x);
    } else if x > 0 {
      AndWithinLow(x / 2, r / 2, k - 1);
    }
  }

  /** Clearing the low bits does not fall below a number that has none. */
  lemma {:induction false} RoundsDownTo(a: nat, x: nat, k: nat)
    requires a <= x && Low(a, k) == 0
    ensures a <= x - Low(x, k)
    decreases k
  {
    if k > 0 {
      RoundsDownTo(a / 2, x / 2, k - 1);
    }
  }

  /** Of the low bits, if there are any, one can be masked on its own. */
  lemma {:induction false} SomeLowBit(a: nat, k: nat) returns (j: nat)
    requires Low(a, k) > 0
    ensures j < k && And(a, Pow2(j)) > 0
    decreases k
  {
    if a % 2 == 1 {
      j := 0;
      AndShrinks(a / 2, 0);
    } else {
      var i := SomeLowBit(a / 2, k - 1);
      j := i + 1;
    }
  }

  lemma {:induction false} PowersRise(a: nat, b: nat)
    requires a <= b
    ensures Pow2(a) <= Pow2(b)
  {
    if a < b {
      PowersRise(a, b - 1);
    }
  }

  lemma {:induction false} LowIsRemainder(x: nat, k: nat)
    ensures Low(x, k) == x % Pow2(k)
    decreases k
  {
    if k > 0 {
      LowIsRemainder(x / 2, k - 1);
      RemainderOfDouble(x, Pow2(k - 1));
    }
  }

  lemma RemainderOfDouble(x: nat, p: nat)
    requires p > 0
    ensures x % (2 * p) == x % 2 + 2 * (x / 2 % p)
  {
    var q, r := x / 2 / p, x / 2 % p;
    assert x / 2 == q * p + r;
    assert x == q * (2 * p) + (2 * r + x % 2);
    UniqueRemainder(x, 2 * p, q, 2 * r + x % 2);
  }

  lemma UniqueRemainder(x: nat, d: nat, q: nat, r: nat)
    requires x == q * d + r && r < d
    ensures x % d == r
  {
    var k, m := x / d, x % d;
    assert x == k * d + m;
    SameRemainder(d, q, r, k, m);
  }

  lemma SameRemainder(d: nat, q: nat, r: nat, k: nat, m: nat)
    requires q * d + r == k * d + m && r < d && m < d
    ensures r == m
  {
    if k > q {
      Further(q, k, d);
    } else if k < q {
      Further(k, q, d);
    }
  }

  lemma {:induction false} Further(q: nat, k: nat, d: nat)
    requires q < k
    ensures k * d >= q * d + d
  {
    OnceMore(k - 1, d);
    if q < k - 1 {
      Further(q, k - 1, d);
    }
  }

  lemma OnceMore(k: nat, d: nat)
    ensures (k + 1) * d == k * d + d
  {
  }
}
