/** Unicode scalar values and their encoding by section 3 of RFC 3629. */
module Utf8 {
  import opened Bytes

  type Scalar = s: int | 0 <= s < 0xD800 || 0xE000 <= s < 0x11_0000

  /** Membership in `Scalar`, for numbers read from memory. */
  predicate IsScalar(x: int) { 0 <= x < 0xD800 || 0xE000 <= x < 0x11_0000 }

  lemma {:induction false} ScalarFits(x: int)
    requires IsScalar(x)
    ensures x < Pow256(4)
  {
    assert Pow256(1) == 256 && Pow256(2) == 0x1_0000 && Pow256(3) == 0x100_0000;
  }

  const REPLACEMENT: Scalar := 0xFFFD

  function Encode(cp: Scalar): (s: seq<byte>)
    ensures 1 <= |s| <= 4
    ensures cp < 0x80 <==> s[0] < 0x80
    ensures cp < 0x80 ==> s == [cp]
    ensures cp >= 0x80 ==> forall k :: 0 <= k < |s| ==> s[k] >= 0x80
  {
    if cp < 0x80 then [cp]
    else if cp < 0x800 then [0xC0 + cp / 0x40, 0x80 + cp % 0x40]
    else if cp < 0x1_0000 then [0xE0 + cp / 0x40 / 0x40, 0x80 + cp / 0x40 % 0x40, 0x80 + cp % 0x40]
    else [0xF0 + cp / 0x40 / 0x40 / 0x40, 0x80 + cp / 0x40 / 0x40 % 0x40, 0x80 + cp / 0x40 % 0x40, 0x80 + cp % 0x40]
  }

  /** A scalar's bytes are as many as section 3 gives, each with the bits it says in front,
      and the other bits spell the scalar. */
  lemma {:induction false} EncodeBits(cp: Scalar)
    ensures var s := Encode(cp);
            && |s| == (if cp <= 0x7F then 1 else if cp <= 0x7FF then 2 else if cp <= 0xFFFF then 3 else 4)
            && (|s| == 1 ==> 0 <= s[0] < 0x80)
            && (|s| == 2 ==> 0xC0 <= s[0] < 0xE0) && (|s| == 3 ==> 0xE0 <= s[0] < 0xF0)
            && (|s| == 4 ==> 0xF0 <= s[0] < 0xF8) && (forall k :: 0 < k < |s| ==> 0x80 <= s[k] < 0xC0)
    ensures var s, t := Encode(cp), Encode(cp)[0] as int;
            cp == match |s|
                  case 1 => t
                  case 2 => (t - 0xC0) * 64 + (s[1] as int - 0x80)
                  case 3 => ((t - 0xE0) * 64 + (s[1] as int - 0x80)) * 64 + (s[2] as int - 0x80)
                  case _ => (((t - 0xF0) * 64 + (s[1] as int - 0x80)) * 64 + (s[2] as int - 0x80)) * 64
                            + (s[3] as int - 0x80)
  {
    var a, b := cp / 0x40, cp / 0x40 / 0x40;
    assert cp == a * 0x40 + cp % 0x40 && a == b * 0x40 + a % 0x40 && b == b / 0x40 * 0x40 + b % 0x40;
  }

  function EncodeAll(s: seq<Scalar>): seq<byte> {
    if s == [] then [] else Encode(s[0]) + EncodeAll(s[1..])
  }

  /** The first scalar of well-formed UTF-8, as `chars().next()` finds it;
      NUL when there is none. */
  function FirstScalar(s: seq<byte>): int {
    if |s| == 0 then 0
    else if s[0] < 0x80 then s[0]
    else if s[0] < 0xE0 && |s| >= 2 then (s[0] - 0xC0) * 0x40 + (s[1] - 0x80)
    else if s[0] < 0xF0 && |s| >= 3 then (s[0] - 0xE0) * 0x1000 + (s[1] - 0x80) * 0x40 + (s[2] - 0x80)
    else if |s| >= 4 then
      (s[0] - 0xF0) * 0x4_0000 + (s[1] - 0x80) * 0x1000 + (s[2] - 0x80) * 0x40 + (s[3] - 0x80)
    else REPLACEMENT
  }

  lemma {:induction false} FirstScalarInverts(s: seq<Scalar>)
    ensures FirstScalar(EncodeAll(s)) == if s == [] then 0 else s[0]
  {
    if s != [] {
      var e := Encode(s[0]);
      assert forall k :: 0 <= k < |e| ==> EncodeAll(s)[k] == e[k];
      FirstScalarOfPrefix(s[0], EncodeAll(s[1..]));
    }
  }

  lemma {:induction false} FirstScalarOfPrefix(cp: Scalar, rest: seq<byte>)
    ensures FirstScalar(Encode(cp) + rest) == cp
  {
    var e, a, b := Encode(cp), cp / 0x40, cp / 0x40 / 0x40;
    assert forall k :: 0 <= k < |e| ==> (e + rest)[k] == e[k];
    if 0x80 <= cp < 0x800 {
      assert e[0] < 0xE0 && a * 0x40 + cp % 0x40 == cp;
    } else if 0x800 <= cp < 0x1_0000 {
      assert 0xE0 <= e[0] < 0xF0 && b * 0x40 + a % 0x40 == a && a * 0x40 + cp % 0x40 == cp;
    } else if 0x1_0000 <= cp {
      assert b / 0x40 * 0x40 + b % 0x40 == b && b * 0x40 + a % 0x40 == a && a * 0x40 + cp % 0x40 == cp;
    }
  }

  lemma {:induction false} EncodeAllAppend(a: seq<Scalar>, b: seq<Scalar>)
    ensures EncodeAll(a + b) == EncodeAll(a) + EncodeAll(b)
  {
    hide Encode;
    if a == [] {
      assert a + b == b;
    } else {
      EncodeAllAppend(a[1..], b);
      assert (a + b)[1..] == a[1..] + b;
      Associates(Encode(a[0]), EncodeAll(a[1..]), EncodeAll(b));
    }
  }

  lemma {:induction false} Associates(x: seq<byte>, y: seq<byte>, z: seq<byte>)
    ensures x + (y + z) == (x + y) + z
  {}

  /** No two texts have the same encoding. */
  lemma {:induction false} EncodeAllInjective(a: seq<Scalar>, b: seq<Scalar>)
    requires EncodeAll(a) == EncodeAll(b)
    ensures a == b
  {
    hide Encode, FirstScalar;
    if a != [] && b != [] {
      FirstScalarInverts(a);
      FirstScalarInverts(b);
      var n := |Encode(a[0])|;
      assert EncodeAll(a)[n..] == EncodeAll(a[1..]) && EncodeAll(b)[n..] == EncodeAll(b[1..]);
      EncodeAllInjective(a[1..], b[1..]);
      assert a == [a[0]] + a[1..] && b == [b[0]] + b[1..];
    }
  }
}
