/** Bit masks over natural numbers, with the operators of the source. */
module Bits {

  function Pow2(n: nat): (r: nat)
    ensures 0 < r
  {
    if n == 0 then 1 else 2 * Pow2(n - 1)
  }

  function Bit(s: nat, i: nat): bool {
    if i == 0 then s % 2 == 1 else Bit(s / 2, i - 1)
  }

  function And(a: nat, b: nat): nat {
    if a == 0 || b == 0 then 0 else 2 * And(a / 2, b / 2) + (if a % 2 == 1 && b % 2 == 1 then 1 else 0)
  }

  function Or(a: nat, b: nat): nat {
    if a == 0 then b else 2 * Or(a / 2, b / 2) + (if a % 2 == 1 || b % 2 == 1 then 1 else 0)
  }

  function Xor(a: nat, b: nat): nat {
    if a == 0 then b else 2 * Xor(a / 2, b / 2) + (if a % 2 != b % 2 then 1 else 0)
  }

  /** How many bits are set. */
  function Count(s: nat): nat {
    if s == 0 then 0 else Count(s / 2) + s % 2
  }

  lemma {:induction false} ZeroBit(i: nat)
    ensures !Bit(0, i)
  {
    if i != 0 {
      ZeroBit(i - 1);
    }
  }

  lemma {:induction false} Pow2Bit(i: nat, j: nat)
    ensures Bit(Pow2(i), j) <==> i == j
  {
    if i == 0 {
      if j != 0 {
        ZeroBit(j - 1);
      }
    } else if j != 0 {
      Pow2Bit(i - 1, j - 1);
    }
  }

  /** The membership test of the source: `((1 << i) & s) == 0` says that bit `i` is absent. */
  lemma {:induction false} AndPow2(i: nat, s: nat)
    ensures And(Pow2(i), s) == 0 <==> !Bit(s, i)
  {
    if s == 0 {
      ZeroBit(i);
    } else if i == 0 {
      assert And(0, s / 2) == 0;
    } else {
      AndPow2(i - 1, s / 2);
    }
  }

  lemma {:induction false} OrBit(a: nat, b: nat, i: nat)
    ensures Bit(Or(a, b), i) <==> Bit(a, i) || Bit(b, i)
  {
    if a == 0 {
      ZeroBit(i);
    } else if i != 0 {
      OrBit(a / 2, b / 2, i - 1);
    }
  }

  lemma {:induction false} XorBit(a: nat, b: nat, i: nat)
    ensures Bit(Xor(a, b), i) <==> Bit(a, i) != Bit(b, i)
  {
    if a == 0 {
      ZeroBit(i);
    } else if i != 0 {
      XorBit(a / 2, b / 2, i - 1);
    }
  }

  lemma {:induction false} XorPow2(s: nat, i: nat)
    requires Bit(s, i)
    ensures Xor(s, Pow2(i)) == s - Pow2(i)
    ensures Count(Xor(s, Pow2(i))) == Count(s) - 1
    ensures forall j: nat :: Bit(Xor(s, Pow2(i)), j) <==> Bit(s, j) && j != i
  {
    forall j: nat
      ensures Bit(Xor(s, Pow2(i)), j) <==> Bit(s, j) && j != i
    {
      XorBit(s, Pow2(i), j);
      Pow2Bit(i, j);
    }
    XorPow2Value(s, i);
  }

  lemma {:induction false} XorZero(s: nat)
    ensures Xor(s, 0) == s
  {
    if s != 0 {
      XorZero(s / 2);
    }
  }

  lemma {:induction false} XorPow2Value(s: nat, i: nat)
    requires Bit(s, i)
    ensures Xor(s, Pow2(i)) == s - Pow2(i)
    ensures Count(Xor(s, Pow2(i))) == Count(s) - 1
  {
    if s == 0 {
      ZeroBit(i);
    } else if i == 0 {
      XorZero(s / 2);
    } else {
      XorPow2Value(s / 2, i - 1);
      assert Pow2(i) / 2 == Pow2(i - 1);
      assert Xor(s, Pow2(i)) == 2 * Xor(s / 2, Pow2(i - 1)) + s % 2;
      assert Xor(s, Pow2(i)) / 2 == Xor(s / 2, Pow2(i - 1));
    }
  }

  lemma {:induction false} BitsBelow(s: nat, n: nat, i: nat)
    requires s < Pow2(n) && Bit(s, i)
    ensures i < n
  {
    if n == 0 {
      ZeroBit(i);
    } else if i != 0 {
      BitsBelow(s / 2, n - 1, i - 1);
    }
  }

  lemma {:induction false} CountBelow(s: nat, n: nat)
    requires s < Pow2(n)
    ensures Count(s) <= n
  {
    if s != 0 {
      CountBelow(s / 2, n - 1);
    }
  }

  /** A mask is determined by its bits. */
  lemma {:induction false} NoBits(s: nat)
    requires forall i: nat :: !Bit(s, i)
    ensures s == 0
  {
    if s != 0 {
      assert !Bit(s, 0);
      forall i: nat
        ensures !Bit(s / 2, i)
      {
        assert !Bit(s, i + 1);
      }
      NoBits(s / 2);
    }
  }

  function Full(n: nat): nat {
    Pow2(n) - 1
  }

  /** `(1 << n) - 1` holds every node. */
  lemma {:induction false} FullMask(n: nat)
    ensures Count(Full(n)) == n
    ensures forall i: nat :: Bit(Full(n), i) <==> i < n
  {
    if n == 0 {
      forall i: nat
        ensures !Bit(0, i)
      {
        ZeroBit(i);
      }
    } else {
      FullMask(n - 1);
      assert Full(n) / 2 == Full(n - 1);
      forall i: nat
        ensures Bit(Full(n), i) <==> i < n
      {
        if i != 0 {
          assert Bit(Full(n), i) == Bit(Full(n - 1), i - 1);
        }
      }
    }
  }

  lemma {:induction false} OrPow2(i: nat, j: nat, n: nat)
    requires i != j && i < n && j < n
    ensures Or(Pow2(i), Pow2(j)) == Pow2(i) + Pow2(j) < Pow2(n)
    ensures Count(Or(Pow2(i), Pow2(j))) == 2
    ensures forall k: nat :: Bit(Or(Pow2(i), Pow2(j)), k) <==> k == i || k == j
  {
    forall k: nat
      ensures Bit(Or(Pow2(i), Pow2(j)), k) <==> k == i || k == j
    {
      OrBit(Pow2(i), Pow2(j), k);
      Pow2Bit(i, k);
      Pow2Bit(j, k);
    }
    OrPow2Value(i, j, n);
  }

  lemma {:induction false} Pow2Count(i: nat)
    ensures Count(Pow2(i)) == 1
  {
    if i != 0 {
      Pow2Count(i - 1);
    }
  }

  lemma {:induction false} Pow2Grows(i: nat, n: nat)
    requires i < n
    ensures 2 * Pow2(i) <= Pow2(n)
    decreases n
  {
    if i < n - 1 {
      Pow2Grows(i, n - 1);
    }
  }

  lemma OrLowest(even: nat, half: nat)
    requires even == 2 * half
    ensures Or(1, even) == even + 1 == Or(even, 1)
    ensures Count(even + 1) == Count(half) + 1
  {
    OrZero(half);
    assert (even + 1) / 2 == half && even / 2 == half;
  }

  lemma OrOne(j: nat)
    requires j > 0
    ensures Or(Pow2(0), Pow2(j)) == Pow2(j) + 1 == Or(Pow2(j), Pow2(0)) && Count(Pow2(j) + 1) == 2
  {
    OrLowest(Pow2(j), Pow2(j - 1));
    Pow2Count(j - 1);
  }

  lemma {:induction false} OrPow2Value(i: nat, j: nat, n: nat)
    requires i != j && i < n && j < n
    ensures Or(Pow2(i), Pow2(j)) == Pow2(i) + Pow2(j) < Pow2(n)
    ensures Count(Or(Pow2(i), Pow2(j))) == 2
  {
    if i == 0 {
      OrOne(j);
      Pow2Grows(j, n);
    } else if j == 0 {
      OrOne(i);
      Pow2Grows(i, n);
    } else {
      OrPow2Value(i - 1, j - 1, n - 1);
    }
  }

  lemma {:induction false} OrZero(s: nat)
    ensures Or(s, 0) == s
  {
    if s != 0 {
      OrZero(s / 2);
    }
  }
}
