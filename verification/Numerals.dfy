/** Decimal numerals from the numbers they spell: what an integer token means, whoever
    reads it. */
module Numerals {
  import opened Containers
  import opened Bytes
  import opened Docs
  import opened Json

  /** The decimal digits of a number, without leading zeros. */
  function DigitsOf(x: nat): (s: seq<byte>)
    ensures |s| >= 1 && forall k :: 0 <= k < |s| ==> 48 <= s[k] <= 57
  {
    (if x < 10 then [] else DigitsOf(x / 10)) + [48 + x % 10]
  }

  function Spelling(v: int): seq<byte> {
    if v < 0 then [45] + DigitsOf(-v) else DigitsOf(v)
  }

  function Padded(k: nat, x: nat): (s: seq<byte>)
    ensures |s| >= 1 && forall i :: 0 <= i < |s| ==> 48 <= s[i] <= 57
  {
    seq(k, _ => 48) + DigitsOf(x)
  }

  /** A token made of a sign, `-` if signed, or `+` or none, of `k` zeros, and of the digits
      of the number. */
  predicate SpellsBy(tok: seq<byte>, signed: bool, v: int, k: nat) {
    || (v >= 0 && (tok == Padded(k, v) || tok == [43] + Padded(k, v)))
    || (signed && v <= 0 && tok == [45] + Padded(k, -v))
  }

  ghost predicate Spells(tok: seq<byte>, signed: bool, v: int) {
    exists k: nat :: SpellsBy(tok, signed, v, k)
  }

  lemma {:induction false} DigitsStep(x: nat, d: nat)
    requires 0 < x && d < 10
    ensures DigitsOf(10 * x + d) == DigitsOf(x) + [48 + d]
  {
    assert (10 * x + d) / 10 == x && (10 * x + d) % 10 == d;
  }

  lemma {:induction false} DecimalOfDigits(x: nat)
    ensures Decimal(DigitsOf(x)) == x
  {
    hide Decimal;
    if x >= 10 {
      var q, d := x / 10, x % 10;
      assert x == 10 * q + d;
      DecimalOfDigits(q);
      DigitsStep(q, d);
      DecimalStep(DigitsOf(q), 48 + d);
    } else {
      DecimalNothing();
      DecimalStep([], 48 + x);
      assert DigitsOf(x) == [] + [48 + x];
    }
  }

  lemma {:induction false} DecimalNothing()
    ensures Decimal([]) == 0
  {}

  lemma {:induction false} DecimalOfPadded(k: nat, x: nat)
    ensures Decimal(Padded(k, x)) == x
  {
    if k == 0 {
      assert Padded(0, x) == DigitsOf(x);
      DecimalOfDigits(x);
    } else {
      DecimalOfPadded(k - 1, x);
      assert Padded(k, x) == [48] + Padded(k - 1, x);
      ZeroInFront(Padded(k - 1, x));
    }
  }

  lemma {:induction false} ZeroInFront(s: seq<byte>)
    requires forall k :: 0 <= k < |s| ==> 48 <= s[k] <= 57
    ensures Decimal([48] + s) == Decimal(s)
  {
    var t := [48] + s;
    if s == [] {
      assert t[..0] == [];
    } else {
      ZeroInFront(s[..|s| - 1]);
      assert t[..|s|] == [48] + s[..|s| - 1];
    }
  }

  /** Every run of digits is one number's, padded. */
  lemma {:induction false} DigitsPad(s: seq<byte>) returns (k: nat)
    requires s != [] && forall i :: 0 <= i < |s| ==> 48 <= s[i] <= 57
    ensures s == Padded(k, Decimal(s))
  {
    hide Decimal, DigitsOf;
    var n := |s| - 1;
    var d := s[n] - 48;
    assert s == s[..n] + [s[n]];
    DecimalStep(s[..n], s[n]);
    OneDigitOf(d);
    if n == 0 {
      DecimalNothing();
      assert s[..0] == [];
      k := 0;
    } else {
      k := DigitsPad(s[..n]);
      var x := Decimal(s[..n]);
      if x == 0 {
        OneDigitOf(0);
        k := k + 1;
      } else {
        DigitsStep(x, d);
      }
    }
  }

  lemma {:induction false} OneDigitOf(d: nat)
    requires d < 10
    ensures DigitsOf(d) == [48 + d]
  {}

  /** An integer token means the number it spells, and every other token means none. */
  lemma {:induction false} IntegerIsSpelled(tok: seq<byte>, signed: bool, v: int)
    ensures Integer(tok, signed) == Some(v) <==> Spells(tok, signed, v)
  {
    hide Decimal, Padded;
    if Integer(tok, signed) == Some(v) {
      if tok[0] == 43 || (signed && tok[0] == 45) {
        var k := DigitsPad(tok[1..]);
        assert tok == [tok[0]] + tok[1..];
        assert SpellsBy(tok, signed, v, k);
      } else {
        var k := DigitsPad(tok);
        assert SpellsBy(tok, signed, v, k);
      }
    }
    if Spells(tok, signed, v) {
      var k: nat :| SpellsBy(tok, signed, v, k);
      var ds := Padded(k, if v >= 0 then v else -v);
      DecimalOfPadded(k, if v >= 0 then v else -v);
      assert ([43] + ds)[1..] == ds && ([45] + ds)[1..] == ds;
    }
  }

  /** An unsigned type takes no minus. */
  lemma {:induction false} NoUnsignedMinus(tok: seq<byte>)
    requires tok != [] && tok[0] == 45
    ensures Integer(tok, false) == None
  {}

  lemma {:induction false} SpellingSpells(v: int)
    ensures Spells(Spelling(v), true, v) && (v >= 0 ==> Spells(Spelling(v), false, v))
  {
    var x := if v >= 0 then v else -v;
    assert Padded(0, x) == DigitsOf(x);
    assert SpellsBy(Spelling(v), true, v, 0) && (v >= 0 ==> SpellsBy(Spelling(v), false, v, 0));
  }
}
