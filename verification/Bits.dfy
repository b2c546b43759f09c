/** Natural numbers as machine words: powers of two, and bitwise `or` and `and`. */
module Bits {
  import opened Bytes

  function Pow2(n: nat): (p: nat)
    ensures p >= 1
  {
    if n == 0 then 1 else 2 * Pow2(n - 1)
  }

  lemma {:induction false} Pow2Adds(a: nat, b: nat)
    ensures Pow2(a + b) == Pow2(a) * Pow2(b)
    decreases b
  {
    if b > 0 {
      Pow2Adds(a, b - 1);
    }
  }

  lemma {:induction false} Pow2Seven(n: nat)
    ensures Pow2(n + 7) == 128 * Pow2(n)
  {
    assert Pow2(n + 1) == 2 * Pow2(n) && Pow2(n + 2) == 4 * Pow2(n) && Pow2(n + 3) == 8 * Pow2(n);
    assert Pow2(n + 4) == 16 * Pow2(n) && Pow2(n + 5) == 32 * Pow2(n) && Pow2(n + 6) == 64 * Pow2(n);
  }

  lemma {:induction false} Pow2Monotone(a: nat, b: nat)
    requires a <= b
    ensures Pow2(a) <= Pow2(b)
  {
    if a < b {
      Pow2Monotone(a, b - 1);
    }
  }

  lemma {:induction false} PowZero()
    ensures Pow2(0) == 1
  {}

  lemma {:induction false} TopBit()
    ensures Pow2(64) == 2 * Pow2(63)
  {}

  /** Bit by bit, least significant first. */
  function BitOr(a: nat, b: nat): nat
    decreases a + b
  {
    if a == 0 then b
    else if b == 0 then a
    else (if a % 2 == 1 || b % 2 == 1 then 1 else 0) + 2 * BitOr(a / 2, b / 2)
  }

  function BitAnd(a: nat, b: nat): nat
    decreases a + b
  {
    if a == 0 || b == 0 then 0
    else (if a % 2 == 1 && b % 2 == 1 then 1 else 0) + 2 * BitAnd(a / 2, b / 2)
  }

  /** Setting bits above all that are set is adding them. */
  lemma {:induction false} OrAdds(a: nat, c: nat, k: nat)
    requires a < Pow2(k)
    ensures BitOr(a, c * Pow2(k)) == a + c * Pow2(k)
    decreases k
  {
    if k > 0 && a > 0 && c > 0 {
      var b := c * Pow2(k - 1);
      assert c * Pow2(k) == 2 * b;
      OrAdds(a / 2, c, k - 1);
      DivModUnique(2 * b, 2, b, 0);
      MulAtLeast(c, Pow2(k));
    }
  }

  lemma {:induction false} LowestBit(a: nat, p: nat)
    requires p > 0
    ensures a % (2 * p) == a % 2 + 2 * (a / 2 % p)
  {
    var q, r := a / 2 / p, a / 2 % p;
    assert a / 2 == p * q + r;
    assert p * q * 2 == (2 * p) * q;
    DivModUnique(a, 2 * p, q, a % 2 + 2 * r);
  }

  /** A mask of ones keeps a remainder. */
  lemma {:induction false} AndKeeps(a: nat, k: nat)
    ensures BitAnd(a, Pow2(k) - 1) == a % Pow2(k)
    decreases k
  {
    if k == 0 {
      DivModUnique(a, 1, a, 0);
    } else {
      AndKeeps(a / 2, k - 1);
      DivModUnique(Pow2(k) - 1, 2, Pow2(k - 1) - 1, 1);
      LowestBit(a, Pow2(k - 1));
    }
  }

  lemma {:induction false} BytePowers(n: nat)
    ensures Pow256(n) == Pow2(8 * n)
  {
    if n > 0 {
      BytePowers(n - 1);
      Pow2Seven(8 * (n - 1));
    }
  }
}
