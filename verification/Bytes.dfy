/** Bytes, and little-endian words as the machine lays them out. */
module Bytes {

  type byte = b: int | 0 <= b < 256

  function Pow256(n: nat): (p: nat)
    ensures p >= 1
  {
    if n == 0 then 1 else 256 * Pow256(n - 1)
  }

  /** The low `n` bytes of the two's complement of `x`, least significant first. */
  function LittleEndian(x: int, n: nat): (s: seq<byte>)
    ensures |s| == n
    decreases n
  {
    if n == 0 then [] else [x % 256] + LittleEndian(x / 256, n - 1)
  }

  /** Byte `k` is the one of weight 256^k. */
  lemma {:induction false} LittleEndianAt(x: int, n: nat, k: nat)
    requires k < n
    ensures LittleEndian(x, n)[k] == x / Pow256(k) % 256
    decreases k
  {
    hide Pow256;
    if k > 0 {
      LittleEndianAt(x / 256, n - 1, k - 1);
      NextPlace(x, k);
    } else {
      PowNothing();
    }
  }

  lemma {:induction false} PowNothing()
    ensures Pow256(0) == 1
  {}

  lemma {:induction false} NextPlace(x: int, k: nat)
    requires k > 0
    ensures x / Pow256(k) == x / 256 / Pow256(k - 1)
  {
    DivTwice(x, Pow256(k - 1));
  }

  lemma {:induction false} DivTwice(x: int, p: int)
    requires p > 0
    ensures x / (256 * p) == x / 256 / p
  {
    var q, y := x / 256 / p, x / 256;
    assert y == p * q + y % p && x == 256 * y + x % 256;
    var r := 256 * (y % p) + x % 256;
    assert x == 256 * p * q + r by {
      assert 256 * (p * q) == 256 * p * q;
    }
    DivModUnique(x, 256 * p, q, r);
  }

  function FromLittleEndian(s: seq<byte>): (x: nat)
    ensures x < Pow256(|s|)
  {
    if s == [] then 0 else s[0] + 256 * FromLittleEndian(s[1..])
  }

  lemma {:induction false} MulAtLeast(d: nat, k: nat)
    requires k >= 1
    ensures d * k >= d
  {
    assert d * k == d + d * (k - 1);
  }

  lemma {:induction false} MulMonotone(a: nat, b: nat, c: nat)
    requires a <= b
    ensures a * c <= b * c
  {}

  lemma {:induction false} DivModUnique(x: int, d: int, q: int, r: int)
    requires 0 <= r < d && x == d * q + r
    ensures x / d == q && x % d == r
  {
    var k := q - x / d;
    assert d * k == x % d - r;
    if k > 0 {
      MulAtLeast(d, k);
    }
  }

  lemma {:induction false} SmallMod(x: nat, n: nat)
    requires x < Pow256(n)
    ensures x % Pow256(n) == x
  {
    DivModUnique(x, Pow256(n), 0, x);
  }

  /** Reducing modulo 256^n peels off the lowest byte. */
  lemma {:induction false} ModPeel(x: int, n: nat)
    requires n > 0
    ensures x % Pow256(n) == x % 256 + 256 * ((x / 256) % Pow256(n - 1))
  {
    var p := Pow256(n - 1);
    var q := x / 256;
    var r := x % 256 + 256 * (q % p);
    assert q == p * (q / p) + q % p;
    assert x == Pow256(n) * (q / p) + r by {
      assert 256 * (p * (q / p)) == Pow256(n) * (q / p);
    }
    assert r < 256 * p;
    DivModUnique(x, Pow256(n), q / p, r);
  }

  /** Reading back a stored word gives the value modulo its width. */
  lemma {:induction false} WordRoundTrip(x: int, n: nat)
    ensures FromLittleEndian(LittleEndian(x, n)) == x % Pow256(n)
    decreases n
  {
    if n > 0 {
      WordRoundTrip(x / 256, n - 1);
      ModPeel(x, n);
      assert LittleEndian(x, n)[1..] == LittleEndian(x / 256, n - 1);
    }
  }

  /** Narrowing commutes with an earlier reduction to a wider width. */
  lemma {:induction false} NarrowAfterMod(x: int, wide: nat, n: nat)
    requires n <= wide
    ensures LittleEndian(x % Pow256(wide), n) == LittleEndian(x, n)
    decreases n
  {
    if n > 0 {
      var y := x % Pow256(wide);
      ModPeel(x, wide);
      DivModUnique(y, 256, (x / 256) % Pow256(wide - 1), x % 256);
      NarrowAfterMod(x / 256, wide - 1, n - 1);
    }
  }

  lemma {:induction false} NarrowIsPrefix(x: int, wide: nat, n: nat)
    requires n <= wide
    ensures LittleEndian(x, wide)[..n] == LittleEndian(x, n)
    decreases n
  {
    if n > 0 {
      NarrowIsPrefix(x / 256, wide - 1, n - 1);
      assert LittleEndian(x, wide)[..n] == [x % 256] + LittleEndian(x / 256, wide - 1)[..n - 1];
    }
  }

  lemma {:induction false} SameBytesSameResidue(x: int, y: int, n: nat)
    ensures LittleEndian(x, n) == LittleEndian(y, n) <==> x % Pow256(n) == y % Pow256(n)
  {
    WordRoundTrip(x, n);
    WordRoundTrip(y, n);
    if x % Pow256(n) == y % Pow256(n) {
      NarrowAfterMod(x, n, n);
      NarrowAfterMod(y, n, n);
    }
  }

  lemma {:induction false} PowerMonotone(a: nat, b: nat)
    requires a <= b
    ensures Pow256(a) <= Pow256(b)
  {
    if a < b {
      PowerMonotone(a, b - 1);
    }
  }
}
