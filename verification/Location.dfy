/** Location expressions (`dwarf.rs`): SLEB128 operands and the addresses they give. */
module Location {
  import opened Containers
  import opened Bits
  import opened Bytes

  /** The value of a 64-bit register read as signed. */
  function Signed64(u: nat): int
    requires u < Pow2(64)
  {
    if u < Pow2(63) then u else u - Pow2(64)
  }

  predicate IsI64(v: int) { -(Pow2(63) as int) <= v < Pow2(63) }

  // ---- The encoding (section 7.6 of the DWARF version 5 standard) ---------------------

  function Sleb(v: int): (s: seq<byte>)
    ensures s != []
    decreases if v < 0 then -v else v
  {
    if -64 <= v < 64 then [v % 128] else [v % 128 + 128] + Sleb(v / 128)
  }

  /** How many bytes the first operand in `b` takes: up to the first without the high bit. */
  function Ends(b: seq<byte>): (r: Option<nat>)
    ensures r.Some? ==> 0 < r.value <= |b|
  {
    if b == [] then None
    else if b[0] < 128 then Some(1)
    else
      match Ends(b[1..])
      case None => None
      case Some(n) => Some(n + 1)
  }

  /** Seven bits a byte, least significant first. */
  function Low(s: seq<byte>): nat {
    if s == [] then 0
    else Low(s[..|s| - 1]) + (s[|s| - 1] % 128) * Pow2(7 * (|s| - 1))
  }

  /** The value encoded: negative if the last byte's sign bit is set. */
  function Value(s: seq<byte>): int
    requires s != []
  {
    Low(s) - if s[|s| - 1] % 128 >= 64 then Pow2(7 * |s|) else 0
  }

  lemma {:induction false} LowBound(s: seq<byte>)
    ensures Low(s) < Pow2(7 * |s|)
  {
    hide Pow2;
    if s == [] {
      PowZero();
    } else {
      var k := |s| - 1;
      LowBound(s[..k]);
      Pow2Seven(7 * k);
      MulMonotone(s[k] % 128, 127, Pow2(7 * k));
    }
  }

  lemma {:induction false} LowFront(b: byte, s: seq<byte>)
    ensures Low([b] + s) == b % 128 + 128 * Low(s)
    decreases s
  {
    hide Pow2;
    if s == [] {
      PowZero();
      assert [b] + s == [b] && [b][..0] == [];
    } else {
      var k := |s| - 1;
      assert ([b] + s)[..k + 1] == [b] + s[..k];
      LowFront(b, s[..k]);
      Pow2Seven(7 * k);
      Swap(s[k] % 128, Pow2(7 * k));
    }
  }

  lemma {:induction false} Swap(x: nat, p: nat)
    ensures x * (128 * p) == 128 * (x * p)
  {}

  /** Decoding what was encoded: the bytes end where they end, whatever follows, and mean
      the value. */
  lemma {:induction false} SlebMeans(v: int, rest: seq<byte>)
    ensures Ends(Sleb(v) + rest) == Some(|Sleb(v)|) && Value(Sleb(v)) == v
    decreases if v < 0 then -v else v
  {
    hide Pow2, Low;
    var s := Sleb(v);
    assert (s + rest)[0] == s[0];
    if -64 <= v < 64 {
      assert s == [v % 128] + [];
      LowFront(v % 128, []);
      LowNothing([]);
      PowZero();
      Pow2Seven(0);
    } else {
      var t := Sleb(v / 128);
      SlebMeans(v / 128, rest);
      assert (s + rest)[1..] == t + rest;
      LowFront(v % 128 + 128, t);
      Pow2Seven(7 * |t|);
      assert s[|s| - 1] == t[|t| - 1];
    }
  }

  lemma {:induction false} SlebLength(v: int, k: nat)
    requires k >= 1 && -(Pow2(7 * k - 1) as int) <= v < Pow2(7 * k - 1)
    ensures |Sleb(v)| <= k
    decreases k
  {
    assert Pow2(6) == 64 by { Pow2Adds(3, 3); assert Pow2(3) == 8; }
    if k > 1 && !(-64 <= v < 64) {
      Pow2Seven(7 * (k - 1) - 1);
      SlebLength(v / 128, k - 1);
    }
  }

  // ---- The decoder ------------------------------------------------------------------

  /** `<<` on a 64-bit register. */
  function Shl(x: nat, shift: nat): (r: nat)
    ensures r < Pow2(64)
  {
    (x * Pow2(shift)) % Pow2(64)
  }

  /** The next seven bits: below the register's width they do not overflow it, and the
      tenth byte's only keep their lowest. */
  lemma {:induction false} ShlAdds(low: nat, x: nat, k: nat)
    requires low < Pow2(7 * k) && x < 128 && k <= 9
    ensures low + Shl(x, 7 * k) < Pow2(64)
    ensures (low + Shl(x, 7 * k)) % Pow2(64) == (low + x * Pow2(7 * k)) % Pow2(64)
    ensures k < 9 ==> Shl(x, 7 * k) == x * Pow2(7 * k)
  {
    hide Pow2;
    var p, m := Pow2(7 * k), Pow2(64);
    TopBit();
    if k < 9 {
      Pow2Seven(7 * k);
      Pow2Monotone(7 * k + 7, 63);
      MulMonotone(x, 127, p);
      DivModUnique(x * p, m, 0, x * p);
    } else {
      Halves(x, p);
      MulMonotone(x % 2, 1, p);
      DivModUnique(x * p, m, x / 2, (x % 2) * p);
      DivModUnique(low + x * p, m, x / 2, low + (x % 2) * p);
      DivModUnique(low + (x % 2) * p, m, 0, low + (x % 2) * p);
    }
  }

  /** Or-ing them in is adding them, since nothing is set above. */
  lemma {:induction false} ShlOrs(low: nat, x: nat, k: nat)
    requires low < Pow2(7 * k) && x < 128 && k <= 9
    ensures BitOr(low, Shl(x, 7 * k)) == low + Shl(x, 7 * k)
  {
    hide Pow2, BitOr;
    ShlAdds(low, x, k);
    if k < 9 {
      OrAdds(low, x, 7 * k);
    } else {
      var p := Pow2(63);
      TopBit();
      Halves(x, p);
      MulMonotone(x % 2, 1, p);
      DivModUnique(x * p, Pow2(64), x / 2, (x % 2) * p);
      OrAdds(low, x % 2, 63);
    }
  }

  /** `-1 << shift`: ones from there up, which extend the sign. */
  lemma {:induction false} OnesAbove(low: nat, shift: nat)
    requires low < Pow2(shift) && shift < 64
    ensures Shl(Pow2(64) - 1, shift) == Pow2(64) - Pow2(shift)
    ensures BitOr(low, Shl(Pow2(64) - 1, shift)) == low + (Pow2(64) - Pow2(shift))
  {
    hide Pow2, BitOr;
    var m, p, c := Pow2(64), Pow2(shift), Pow2(64 - shift);
    Pow2Adds(shift, 64 - shift);
    Pow2Monotone(shift, 64);
    assert (m - 1) * p == m * (p - 1) + (m - p);
    DivModUnique((m - 1) * p, m, p - 1, m - p);
    assert (c - 1) * p == m - p;
    OrAdds(low, c - 1, shift);
  }

  lemma {:induction false} Halves(x: nat, p: nat)
    ensures x * p == (2 * p) * (x / 2) + (x % 2) * p
  {
    var q, r := x / 2, x % 2;
    assert x == 2 * q + r;
    assert (2 * q + r) * p == (2 * p) * q + r * p;
  }

  lemma {:induction false} LowStep(b: seq<byte>, i: nat)
    requires i < |b|
    ensures Low(b[..i + 1]) == Low(b[..i]) + (b[i] % 128) * Pow2(7 * i)
  {
    assert b[..i + 1][..i] == b[..i];
  }

  /** What the register holds after the last byte, with its sign extended while there is
      room for a sign. */
  function Register(low: nat, x: nat, k: nat): int {
    low + Shl(x, 7 * k) + if 7 * (k + 1) < 64 && x >= 64 then Pow2(64) - Pow2(7 * (k + 1)) else 0
  }

  lemma {:induction false} LastByte(b: seq<byte>, k: nat)
    requires k < |b| && k <= 9
    ensures Register(Low(b[..k]), b[k] % 128, k) == Value(b[..k + 1]) % Pow2(64)
  {
    hide Pow2, Low, Shl;
    var low, x, m := Low(b[..k]), b[k] % 128, Pow2(64);
    LowBound(b[..k]);
    LowBound(b[..k + 1]);
    LowStep(b, k);
    ShlAdds(low, x, k);
    var low', p := Low(b[..k + 1]), Pow2(7 * (k + 1));
    if k < 9 {
      Pow2Monotone(7 * (k + 1), 63);
      Pow2Seven(57);
      TopBit();
      DivModUnique(Value(b[..k + 1]), m, if x >= 64 then -1 else 0, low' + if x >= 64 then m - p else 0);
    } else {
      Pow2Adds(64, 6);
      DivModUnique(low + Shl(x, 7 * k), m, 0, low + Shl(x, 7 * k));
      if x >= 64 {
        DivModUnique(low' - p, m, low' / m - Pow2(6), low' % m);
      }
    }
  }

  /** `sleb128`: an operand of up to ten bytes is its value modulo 2^64. */
  method Sleb128(b: seq<byte>) returns (value: int, used: nat)
    requires Ends(b).Some? && Ends(b).value <= 10
    ensures used == Ends(b).value
    ensures value == Signed64(Value(b[..used]) % Pow2(64))
  {
    hide Pow2, Low, Shl, Value, BitOr;
    var result, shift, i := 0, 0, 0;
    LowNothing(b);
    while true
      invariant i < Ends(b).value && EndsFrom(b, i, Ends(b).value)
      invariant shift == 7 * i && i <= 9 && result == Low(b[..i])
      decreases |b| - i
    {
      var byte := b[i];
      LowBound(b[..i]);
      ShlAdds(Low(b[..i]), byte % 128, i);
      ShlOrs(Low(b[..i]), byte % 128, i);
      LowStep(b, i);
      LastByte(b, i);
      assert b[i..][0] == b[i] && b[i..][1..] == b[i + 1..];
      i := i + 1;
      result := BitOr(result, Shl(byte % 128, shift));
      shift := shift + 7;
      if byte < 128 {
        if shift < 64 && byte % 128 >= 64 {
          LowBound(b[..i]);
          OnesAbove(result, shift);
          result := BitOr(result, Shl(Pow2(64) - 1, shift));
        }
        return Signed64(result), i;
      }
    }
  }

  predicate EndsFrom(b: seq<byte>, i: nat, n: nat) {
    i <= n && i <= |b| && Ends(b[i..]) == Some(n - i)
  }

  lemma {:induction false} LowNothing(b: seq<byte>)
    ensures Low(b[..0]) == 0 && b[0..] == b
  {}

  lemma {:induction false} SignedBack(v: int)
    requires IsI64(v)
    ensures Signed64(v % Pow2(64)) == v
  {
    hide Pow2;
    TopBit();
    DivModUnique(v, Pow2(64), if v < 0 then -1 else 0, if v < 0 then v + Pow2(64) else v);
  }

  /** Decoding inverts encoding over all of `i64`, whatever bytes follow. */
  method DecodeEncoded(v: int, rest: seq<byte>) returns (value: int, used: nat)
    requires IsI64(v)
    ensures value == v && used == |Sleb(v)| <= 10
  {
    hide Pow2, Low, Value, Sleb, Ends, Signed64;
    EncodedFits(v);
    SlebMeans(v, rest);
    value, used := Sleb128(Sleb(v) + rest);
    assert (Sleb(v) + rest)[..used] == Sleb(v);
    SignedBack(v);
  }

  lemma {:induction false} EncodedFits(v: int)
    requires IsI64(v)
    ensures |Sleb(v)| <= 10
  {
    hide Pow2, Sleb;
    Pow2Monotone(63, 69);
    SlebLength(v, 10);
  }

  // ---- Addresses --------------------------------------------------------------------

  /** The operations that name the frame and stack pointers are the architecture's. */
  datatype Arch = Arch(bregFp: byte, bregSp: byte)

  datatype Regs = Regs(fp: nat, sp: nat, frameBase: nat)

  lemma {:induction false} Word64()
    ensures Pow2(64) == 0x1_0000_0000_0000_0000 && Pow2(63) == 0x8000_0000_0000_0000
  {
    hide Pow2;
    PowZero();
    Pow2Seven(0);
    Pow2Seven(7);
    Pow2Seven(14);
    Pow2Seven(21);
    Pow2Adds(28, 28);
    Pow2Seven(56);
    TopBit();
  }

  /** A base plus an operand, in 64-bit arithmetic. */
  function WrappingAdd(base: nat, offset: int): nat {
    (base + offset) % 0x1_0000_0000_0000_0000
  }

  lemma {:induction false} SignIsNoMatter(base: nat, v: int)
    ensures WrappingAdd(base, Signed64(v % Pow2(64))) == WrappingAdd(base, v)
  {
    Word64();
    var u, m := v % Pow2(64), 0x1_0000_0000_0000_0000;
    var w := Signed64(u);
    assert v == m * (v / m) + u;
    assert w == u || w == u - m;
    var q, r := (base + w) / m, (base + w) % m;
    assert base + w == m * q + r;
    DivModUnique(base + v, m, q + v / m + if w == u then 0 else 1, r);
  }

  /** `eval_addr`, one clause an operation: the frame base, the stack pointer itself, the
      frame pointer, the stack pointer, and no other. An operand that never ends would be
      read past its end. */
  method EvalAddr(a: Arch, bytes: seq<byte>, r: Regs) returns (addr: Option<nat>)
    requires bytes != [] && bytes[0] != 0x9c && bytes[0] in {0x91, a.bregFp, a.bregSp} ==>
               Ends(bytes[1..]).Some? && Ends(bytes[1..]).value <= 10
    ensures bytes == [] ==> addr == None
    ensures bytes != [] && bytes[0] == 0x9c ==> addr == Some(r.sp)
    ensures bytes != [] && bytes[0] == 0x91 ==> addr == AtOperand(r.frameBase, bytes[1..])
    ensures bytes != [] && bytes[0] !in {0x91, 0x9c} && bytes[0] == a.bregFp ==> addr == AtOperand(r.fp, bytes[1..])
    ensures bytes != [] && bytes[0] !in {0x91, 0x9c, a.bregFp} && bytes[0] == a.bregSp ==>
              addr == AtOperand(r.sp, bytes[1..])
    ensures bytes != [] && bytes[0] !in {0x91, 0x9c, a.bregFp, a.bregSp} ==> addr == None
  {
    hide Pow2, Value, Signed64, Ends;
    if bytes == [] {
      return None;
    }
    var op, rest := bytes[0], bytes[1..];
    var base;
    if op == 0x91 {
      base := r.frameBase;
    } else if op == 0x9c {
      return Some(r.sp);
    } else if op == a.bregFp {
      base := r.fp;
    } else if op == a.bregSp {
      base := r.sp;
    } else {
      return None;
    }
    var offset, used := Sleb128(rest);
    if |rest| != used {
      return None;
    }
    assert rest[..used] == rest;
    SignIsNoMatter(base, Value(rest));
    addr := Some(WrappingAdd(base, offset));
  }

  /** An address relative to a base: an operand, and nothing behind it. */
  function AtOperand(base: nat, rest: seq<byte>): Option<nat>
    requires Ends(rest).Some?
  {
    if Ends(rest).value < |rest| then None else Some((base + Value(rest)) % 0x1_0000_0000_0000_0000)
  }

  /** With an encoded operand: the register the operation names plus the operand, modulo
      2^64, exactly when nothing trails. */
  method EvalEncoded(a: Arch, op: byte, v: int, rest: seq<byte>, r: Regs) returns (addr: Option<nat>)
    requires -0x8000_0000_0000_0000 <= v < 0x8000_0000_0000_0000
    ensures op == 0x9c ==> addr == Some(r.sp)
    ensures op !in {0x91, 0x9c, a.bregFp, a.bregSp} ==> addr == None
    ensures op != 0x9c && op in {0x91, a.bregFp, a.bregSp} && rest != [] ==> addr == None
    ensures rest == [] && op == 0x91 ==> addr == Some((r.frameBase + v) % 0x1_0000_0000_0000_0000)
    ensures rest == [] && op !in {0x91, 0x9c} && op == a.bregFp ==> addr == Some((r.fp + v) % 0x1_0000_0000_0000_0000)
    ensures rest == [] && op !in {0x91, 0x9c, a.bregFp} && op == a.bregSp ==>
              addr == Some((r.sp + v) % 0x1_0000_0000_0000_0000)
  {
    hide Pow2, Low, Value, Sleb, Ends;
    Word64();
    var bytes := [op] + (Sleb(v) + rest);
    assert bytes[0] == op && bytes[1..] == Sleb(v) + rest;
    EncodedFits(v);
    SlebMeans(v, rest);
    addr := EvalAddr(a, bytes, r);
    if rest == [] {
      assert Sleb(v) + rest == Sleb(v);
    }
  }

  /** The examples of section 7.6 of the DWARF version 5 standard. */
  lemma {:induction false} SlebExamples()
    ensures Sleb(2) == [0x02] && Sleb(-2) == [0x7e]
    ensures Sleb(127) == [0xff, 0x00] && Sleb(-127) == [0x81, 0x7f]
    ensures Sleb(128) == [0x80, 0x01] && Sleb(-128) == [0x80, 0x7f]
    ensures Sleb(129) == [0x81, 0x01] && Sleb(-129) == [0xff, 0x7e]
  {
    assert Sleb(0) == [0] && Sleb(-1) == [0x7f] && Sleb(1) == [1];
  }
}
