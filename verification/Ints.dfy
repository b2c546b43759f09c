/** The inline integer scan (`intval`, `store_sized` in `jit.rs`): decimal arithmetic in a
    64-bit register. */
module Ints {
  import opened Containers
  import opened Bytes
  import opened Docs
  import opened Json
  import Scan

  /** Registers are 64 bits wide. */
  function Wrap(x: int): (r: nat)
    ensures r < Pow256(8)
  {
    x % Pow256(8)
  }

  lemma {:induction false} WrapStep(x: int, d: int)
    ensures Wrap(Wrap(10 * Wrap(x)) + d) == Wrap(10 * x + d)
  {
    var m := Pow256(8);
    var q, r := x / m, x % m;
    var p, s := (10 * r) / m, (10 * r) % m;
    var u, v := (s + d) / m, (s + d) % m;
    assert x == m * q + r && 10 * r == m * p + s && s + d == m * u + v;
    assert 10 * x + d == m * (10 * q + p + u) + v by {
      assert 10 * (m * q) == m * (10 * q);
    }
    DivModUnique(10 * x + d, m, 10 * q + p + u, v);
  }

  lemma {:induction false} WrapNegate(x: int)
    ensures Wrap(-(Wrap(x) as int)) == Wrap(-x)
  {
    var m := Pow256(8);
    var q, r := x / m, x % m;
    var p, s := (-r) / m, (-r) % m;
    assert x == m * q + r && -r == m * p + s;
    assert -x == m * (p - q) + s;
    DivModUnique(-x, m, p - q, s);
  }

  /** The value in the register is the token's, modulo 2^64. */
  method Intval(t: seq<byte>, cur0: nat, signed: bool, ghost at: nat, ghost tok: seq<byte>)
    returns (val: nat, cur: nat)
    requires Blank(t, cur0, at) && Here(t, at, tok) && Delimited(t, at + |tok|)
    requires Integer(tok, signed).Some?
    ensures val == Wrap(Integer(tok, signed).value)
    ensures cur == at + |tok|
  {
    hide Decimal, Pow256, Wrap, Here;
    IntegerOpens(t, at, tok, signed);
    cur := Scan.SkipWs(t, cur0, at);
    var b0 := t[cur];
    var neg := signed && b0 == MINUS;
    var isSign := neg || b0 == PLUS;
    cur := if isSign then cur + 1 else cur;
    ghost var ds := if isSign then tok[1..] else tok;
    DigitsInPlace(t, at, tok, isSign);
    val, cur := DigitLoop(t, cur, ds);
    if neg {
      WrapNegate(Decimal(ds));
      val := Wrap(-(val as int));
    }
  }

  lemma {:induction false} IntegerOpens(t: seq<byte>, at: nat, tok: seq<byte>, signed: bool)
    requires Here(t, at, tok) && Integer(tok, signed).Some?
    ensures tok != [] && at < |t| && t[at] == tok[0] && t[at] > 32
  {
    HereAt(t, at, tok, 0);
  }

  lemma {:induction false} DigitsInPlace(t: seq<byte>, at: nat, tok: seq<byte>, sign: bool)
    requires Here(t, at, tok) && tok != []
    ensures sign ==> Here(t, at + 1, tok[1..])
  {
    if sign {
      assert tok == [tok[0]] + tok[1..];
      HereSplit(t, at, [tok[0]], tok[1..]);
    }
  }

  method DigitLoop(t: seq<byte>, start: nat, ghost ds: seq<byte>) returns (acc: nat, c: nat)
    requires Digits(ds) && Here(t, start, ds) && Delimited(t, start + |ds|)
    ensures acc == Wrap(Decimal(ds)) && c == start + |ds|
  {
    hide Wrap, Pow256;
    c := start;
    acc := 0;
    WrapZero();
    while c < |t|
      invariant start <= c <= start + |ds| <= |t|
      invariant acc == Wrap(Decimal(ds[..c - start]))
      decreases |t| - c
    {
      var b := t[c];
      if c < start + |ds| {
        HereAt(t, start, ds, c - start);
      }
      if !IsDigit(b) {
        break;
      }
      ghost var k := c - start;
      assert ds[..k + 1] == ds[..k] + [b];
      DecimalStep(ds[..k], b);
      WrapStep(Decimal(ds[..k]), b - 48);
      acc := Wrap(Wrap(10 * acc) + (b - 48));
      c := c + 1;
    }
    assert ds[..c - start] == ds;
  }

  lemma {:induction false} WrapZero()
    ensures Wrap(0) == 0
  {
    DivModUnique(0, Pow256(8), 0, 0);
  }

  predicate IntSize(n: nat) { n == 1 || n == 2 || n == 4 || n == 8 }

  /** Both backends store the same bytes: narrowing the 64-bit register, and taking the
      low bytes of the 128-bit value, even when the value overflows the target. */
  lemma {:induction false} NarrowingAgrees(v: int, n: nat)
    requires IntSize(n)
    ensures LittleEndian(Wrap(v), n) == LittleEndian(v, n) == LittleEndian(v, 16)[..n]
  {
    NarrowAfterMod(v, 8, n);
    NarrowIsPrefix(v, 16, n);
  }
}
