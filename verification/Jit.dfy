/** The compiled parser (`jit.rs`): what the code emitted for each type does. It walks the
    input once and writes straight into memory; a block's parameters are a loop's
    variables. */
module Jit {
  import opened Containers
  import opened Bytes
  import opened Utf8
  import opened Docs
  import opened Json
  import opened Numerals
  import opened Plan
  import opened Memory
  import opened Frames
  import opened Layout
  import opened Values
  import opened Binding
  import opened Copy
  import opened Build
  import opened Ints
  import opened Interp
  import Scan
  import Unescape
  import Bits
  import Dispatch

  /** What every emitted block can see: the input up to its end pointer, and whatever
      memory lies past it. */
  datatype Pctx = Pctx(env: Cells, fl: Floats, t: seq<byte>, past: Dispatch.Load)

  /** The document to parse: after whitespace, in place, delimited, and of the type. */
  ghost predicate Due(p: Pctx, n: nat, ty: Ty, cur: nat, at: nat, d: Doc, v: Val) {
    && Blank(p.t, cur, at) && At(p.t, at, d) && Delimited(p.t, End(at, d))
    && 2 * |p.t| < Pow256(8)
    && Reads(p.env, p.fl, n, ty, d, v)
  }

  // ---- Strings ----------------------------------------------------------------------

  lemma {:induction false} PlainText(ps: List<Piece>)
    requires AllPlain(ps)
    ensures EncodeAll(Text(ps)) == Body(ps)
  {
    hide Encode;
    if ps.Cons? {
      PlainText(ps.tail);
      assert Text(ps)[1..] == Text(ps.tail);
    }
  }

  /** `build_str`: a copy when the body has no escapes, else the unescaping shim. Either
      way the buffer holds the text the body denotes. */
  method BuildStr(h: Heap, t: seq<byte>, sp: nat, sl: nat, esc: bool, ghost ps: List<Piece>)
    returns (q: Ptr, len: nat)
    requires h.Valid() && 2 * |t| < Pow256(8)
    requires Legal(ps) && sp + sl <= |t| && t[sp..sp + sl] == Body(ps) && (!esc ==> AllPlain(ps))
    modifies h
    ensures h.Valid() && TextBuilt(old(h.m), h.m, q, EncodeAll(Text(ps)))
    ensures len == |EncodeAll(Text(ps))|
  {
    hide Has, Wrote, TextBuilt, Pow256, EncodeAll, Text, Body, Legal, AllPlain;
    ghost var m0, b := h.m, h.next;
    if !esc {
      PlainText(ps);
      q := h.Alloc(sl, 1);
      len := sl;
      ghost var m1 := h.m;
      EmitCopy(h, q, t, sp, sl);
      TextMade(m0, m1, h.m, q, b, Body(ps));
    } else {
      var s := t[sp..sp + sl];
      assert s[0..|s|] == s;
      Unescape.UnescapeIsText(s, 0, ps);
      Unescape.UnescapeShrinks(ps);
      var out := Unescape.RtUnescape(s);
      q := AllocCopy(h, out);
      len := |out|;
    }
  }

  method ParseStr(p: Pctx, h: Heap, dst: Ptr, ty: Ty, cur0: nat, ghost at: nat, ghost d: Doc, ghost n: nat,
                  ghost v: Val)
    returns (cur: nat, ghost r: Rep)
    requires (ty.Str? || ty.StrRef?) && Ready(p.env, ty, h, dst) && Due(p, n, ty, cur0, at, d, v)
    modifies h
    ensures h.Valid() && cur == End(at, d) && Ran(p.env, ty, old(h.m), h.m, dst, v, r, {})
  {
    hide Has, Wrote, Built, Pow256, Fits, SoundCells, TextBuilt, EncodeAll, Text, Body, Legal, AllPlain, Delimited,
        Blank;
    var sp, sl, esc;
    sp, sl, cur, esc := Scan.Strspan(p.t, cur0, at, d.body);
    var q, len := BuildStr(h, p.t, sp, sl, esc, d.body);
    r := StoreStr(p.env, h, dst, ty, q, len, old(h.m), EncodeAll(Text(d.body)));
  }

  // ---- Scalars ----------------------------------------------------------------------

  method StoreNumber(h: Heap, dst: Ptr, ghost env: Cells, ghost ty: Ty, x: nat, n: nat, ghost v: int)
    returns (ghost r: Rep)
    requires h.Valid() && IntSize(n) && Fits(h.m, dst, n) && Width(ty) == n && x == Wrap(v)
    requires ty.Char? ==> IsScalar(v % Pow256(4))
    modifies h
    ensures h.Valid() && r == RNum(v % Pow256(n)) && Built(env, ty, old(h.m), h.m, dst, r, {})
    ensures Has(h.m, dst, Lits(LittleEndian(v, n)))
  {
    hide Has, Wrote, Built, LittleEndian, Pow256, Wrap;
    StoreSized(h, dst, x, n);
    NarrowingAgrees(v, n);
    NarrowAfterMod(v, n, n);
    NumBuilt(env, ty, old(h.m), h.m, dst, v % Pow256(n));
    r := RNum(v % Pow256(n));
  }

  lemma {:induction false} SmallWrap(x: nat, n: nat)
    requires x < Pow256(n) && n <= 8
    ensures Wrap(x) == x && x % Pow256(n) == x
  {
    hide Pow256;
    PowerMonotone(n, 8);
    SmallMod(x, n);
    SmallMod(x, 8);
  }

  method ParseBool(p: Pctx, h: Heap, dst: Ptr, cur0: nat, ghost at: nat, ghost d: Doc, ghost n: nat, ghost v: Val)
    returns (cur: nat, ghost r: Rep)
    requires Ready(p.env, Ty.Bool, h, dst) && Due(p, n, Ty.Bool, cur0, at, d, v)
    modifies h
    ensures h.Valid() && cur == End(at, d) && Ran(p.env, Ty.Bool, old(h.m), h.m, dst, v, r, {})
  {
    hide Has, Wrote, Built, Pow256, Fits, SoundCells, Delimited, Blank;
    FirstByte(p.t, at, d);
    var c := Scan.SkipWs(p.t, cur0, at);
    var b := p.t[c];
    StoreCells(h, dst, Lits([if b == 116 then 1 else 0]));
    BoolBuilt(p.env, old(h.m), h.m, dst, b == 116);
    r := RBool(b == 116);
    cur := c + if b == 102 then 5 else 4;
  }

  method ParseInt(p: Pctx, h: Heap, dst: Ptr, ty: Ty, cur0: nat, ghost at: nat, ghost d: Doc, ghost n: nat,
                  ghost v: Val)
    returns (cur: nat, ghost r: Rep)
    requires (ty.U? || ty.I?) && Ready(p.env, ty, h, dst) && Due(p, n, ty, cur0, at, d, v)
    modifies h
    ensures h.Valid() && cur == End(at, d) && Ran(p.env, ty, old(h.m), h.m, dst, v, r, {})
    ensures NumeralLies(ty, d.tok, h.m, dst)
  {
    hide Has, Wrote, Built, Pow256, Fits, SoundCells, Delimited, Blank, Integer, Wrap, LittleEndian, Spells;
    var signed := ty.I?;
    var x;
    x, cur := Intval(p.t, cur0, signed, at, d.tok);
    r := StoreNumber(h, dst, p.env, ty, x, ty.n, Integer(d.tok, signed).value);
    forall y | Spells(d.tok, signed, y) ensures y == Integer(d.tok, signed).value {
      IntegerIsSpelled(d.tok, signed, y);
    }
  }

  /** Of an integer of 16 bytes the compiled parser stores only 8: in memory that was not
      written before there is none then. */
  lemma {:induction false} WideIntegerMissing(env: Cells, ty: Ty, m: Mem, m': Mem, p: Ptr, r: Rep)
    requires ty in {U(16), I(16)} && Fits(m, p, 16) && CellAt(m, p, 8) == Junk && Wrote(m, m', p, 8)
    ensures !Holds(env, ty, m', p, r)
  {
    hide LittleEndian, Pow256;
    if r.RNum? {
      var cs := Lits(LittleEndian(r.x, 16));
      assert CellAt(m', p, 8) == Junk && cs[8].Lit?;
    }
  }

  lemma {:induction false} DigitsHere(t: seq<byte>, at: nat, tok: seq<byte>, i: nat)
    requires Here(t, at, tok) && i <= |tok| && (at + |tok| < |t| ==> !IsDigit(t[at + |tok|]))
    ensures DigitsEnd(t, at + i) == at + DigitsEnd(tok, i)
    decreases |tok| - i
  {
    if i < |tok| {
      HereAt(t, at, tok, i);
      if IsDigit(tok[i]) {
        DigitsHere(t, at, tok, i + 1);
      }
    }
  }

  /** In place, a delimited number ends where its token does. */
  lemma {:induction false} NumberHere(t: seq<byte>, at: nat, tok: seq<byte>)
    requires Number(tok) && Here(t, at, tok) && Delimited(t, at + |tok|)
    ensures NumberEnd(t, at) == at + |tok|
  {
    hide Here, DigitsEnd;
    var (i, j, k) := NumberParts(tok, 0);
    HereBytes(t, at, tok);
    DigitsHere(t, at, tok, i);
    if j < |tok| && tok[j] == 46 {
      DigitsHere(t, at, tok, j + 1);
    }
    if k < |tok| {
      DigitsHere(t, at, tok, k + 1);
      if k + 1 < |tok| {
        DigitsHere(t, at, tok, k + 2);
      }
    }
  }

  lemma {:induction false} HereBytes(t: seq<byte>, at: nat, s: seq<byte>)
    requires Here(t, at, s)
    ensures at + |s| <= |t| && forall k :: 0 <= k < |s| ==> t[at + k] == s[k]
  {
    forall k | 0 <= k < |s| ensures t[at + k] == s[k] {
      HereAt(t, at, s, k);
    }
  }

  method DigitRun(t: seq<byte>, i: nat) returns (j: nat)
    ensures j == DigitsEnd(t, i)
  {
    j := i;
    while j < |t| && IsDigit(t[j])
      invariant DigitsEnd(t, j) == DigitsEnd(t, i)
      decreases |t| - j
    {
      j := j + 1;
    }
  }

  /** How far the library's partial parse reads: the longest number at `i`. */
  method PartialEnd(t: seq<byte>, i: nat) returns (e: nat)
    ensures e == NumberEnd(t, i)
  {
    e := if i < |t| && t[i] == MINUS then i + 1 else i;
    e := DigitRun(t, e);
    if e < |t| && t[e] == 46 {
      e := DigitRun(t, e + 1);
    }
    if e < |t| && (t[e] == 101 || t[e] == 69) {
      var x := if e + 1 < |t| && (t[e + 1] == PLUS || t[e + 1] == MINUS) then e + 2 else e + 1;
      var y := DigitRun(t, x);
      if x < y {
        e := y;
      }
    }
  }

  /** `rt_f64v`: the library parses the number at the cursor and says how long it is. */
  method RtF64v(p: Pctx, cur0: nat, ghost at: nat, ghost tok: seq<byte>) returns (bits: nat, cur: nat)
    requires Blank(p.t, cur0, at) && Solid(p.t, at)
    requires Number(tok) && Here(p.t, at, tok) && Delimited(p.t, at + |tok|)
    ensures bits == p.fl.Double(tok) && cur == at + |tok|
  {
    hide Number, NumberEnd, Pow256;
    var start := Scan.RtWs(p.t, cur0, at);
    NumberHere(p.t, at, tok);
    cur := PartialEnd(p.t, start);
    bits := p.fl.Double(p.t[start..cur]);
  }

  method ParseFloat(p: Pctx, h: Heap, dst: Ptr, ty: Ty, cur0: nat, ghost at: nat, ghost d: Doc, ghost n: nat,
                    ghost v: Val)
    returns (cur: nat, ghost r: Rep)
    requires (ty.F32? || ty.F64?) && Ready(p.env, ty, h, dst) && Due(p, n, ty, cur0, at, d, v)
    modifies h
    ensures h.Valid() && cur == End(at, d) && Ran(p.env, ty, old(h.m), h.m, dst, v, r, {})
  {
    hide Has, Wrote, Built, Pow256, Fits, SoundCells, Delimited, Blank, Number, Here;
    FirstByte(p.t, at, d);
    var bits;
    bits, cur := RtF64v(p, cur0, at, d.tok);
    var x := if ty.F32? then p.fl.Demote(bits) else bits;
    SmallWrap(x, Width(ty));
    r := StoreNumber(h, dst, p.env, ty, x, Width(ty), x);
  }

  /** The first raw byte of the string, widened. */
  method ParseChar(p: Pctx, h: Heap, dst: Ptr, cur0: nat, ghost at: nat, ghost d: Doc, ghost n: nat, ghost v: Val)
    returns (cur: nat, ghost r: Rep)
    requires Ready(p.env, Char, h, dst) && Due(p, n, Char, cur0, at, d, v)
    modifies h
    ensures h.Valid() && cur == End(at, d) && Ran(p.env, Char, old(h.m), h.m, dst, v, r, {})
  {
    hide Has, Wrote, Built, Pow256, Fits, SoundCells, Delimited, Blank, Encode;
    var sp, sl, esc;
    sp, sl, cur, esc := Scan.Strspan(p.t, cur0, at, d.body);
    var ch := p.t[sp];
    assert sl > 0 ==> ch == p.t[sp..sp + sl][0];
    ByteFits(ch);
    SmallWrap(ch, 4);
    r := StoreNumber(h, dst, p.env, Char, ch, 4, ch);
  }

  lemma {:induction false} ByteFits(b: byte)
    ensures b < Pow256(4)
  {
    PowerMonotone(1, 4);
  }

  // ---- Every type -------------------------------------------------------------------

  /** The code emitted for a type parses one document into `dst` and leaves the cursor
      right behind it. */
  method Parse(p: Pctx, h: Heap, dst: Ptr, ty: Ty, cur0: nat, ghost at: nat, ghost d: Doc, ghost n: nat, ghost v: Val)
    returns (cur: nat, ghost r: Rep, ghost lost: set<nat>)
    requires Ready(p.env, ty, h, dst) && Due(p, n, ty, cur0, at, d, v)
    modifies h
    ensures h.Valid() && cur == End(at, d) && Ran(p.env, ty, old(h.m), h.m, dst, v, r, lost)
    ensures Unrepeated(p.env, ty, d, v) ==> lost == {}
    ensures d.DNum? ==> NumeralLies(ty, d.tok, h.m, dst)
    decreases n, if ty.Ref? then 4 else 3
  {
    hide Has, Wrote, Built, Pow256, Fits, SoundCells, At, End, Blank, Delimited, Niche, Erase, Holds, ReadsStruct,
         ReadsTuple, ThroughoutFields, ThroughoutItems, FieldsOnce, LittleEndian, Spells;
    lost := {};
    match ty
    case Bool => cur, r := ParseBool(p, h, dst, cur0, at, d, n, v);
    case U(_) => cur, r := ParseInt(p, h, dst, ty, cur0, at, d, n, v);
    case I(_) => cur, r := ParseInt(p, h, dst, ty, cur0, at, d, n, v);
    case F32 => cur, r := ParseFloat(p, h, dst, ty, cur0, at, d, n, v);
    case F64 => cur, r := ParseFloat(p, h, dst, ty, cur0, at, d, n, v);
    case Char => cur, r := ParseChar(p, h, dst, cur0, at, d, n, v);
    case Str(_) => cur, r := ParseStr(p, h, dst, ty, cur0, at, d, n, v);
    case StrRef(_, _) => cur, r := ParseStr(p, h, dst, ty, cur0, at, d, n, v);
    case Struct(_, _) => cur, r, lost := ParseStruct(p, h, dst, ty, cur0, at, d, n, v);
    case Tuple(_) => cur, r, lost := ParseTuple(p, h, dst, ty, cur0, at, d, n, v);
    case Vec(_, _, _, _) =>
      ghost var moved;
      cur, r, lost, moved := ParseVec(p, h, dst, ty, cur0, at, d, n, v);
    case Boxed(_, _, _) => cur, r, lost := ParseBox(p, h, dst, ty, cur0, at, d, n, v);
    case Unit =>
      cur := Scan.RtSkip(p.t, cur0, at, d);
      UnitBuilt(p.env, h.m, dst);
      r := RUnit;
      UnitErased();
    case Opt(_, _, _, _, _, _, _) => cur, r, lost := ParseOpt(p, h, dst, ty, cur0, at, d, n, v);
    case Ref(c) =>
      RefReady(p.env, c, h, dst);
      cur, r, lost := Parse(p, h, dst, p.env[c].ty, cur0, at, d, n, v);
      RefBuilt(p.env, c, old(h.m), h.m, dst, r, lost);
  }

  lemma {:induction false} UnitErased()
    ensures Erase(RUnit) == VUnit
  {}

  lemma {:induction false} WrappedDue(p: Pctx, n: nat, ty: Ty, cur: nat, at: nat, d: Doc, v: Val)
    requires (ty.Boxed? || ty.Opt?) && Due(p, n, ty, cur, at, d, v)
    ensures if ty.Opt? && d.DNull? then v == VNone
            else
              && n > 0 && (if ty.Opt? then v.VSome? else v.VBox?)
              && Due(p, n - 1, ty.inner, cur, at, d, v.v) && Due(p, n - 1, ty.inner, at, at, d, v.v)
              && (Unrepeated(p.env, ty, d, v) ==> Unrepeated(p.env, ty.inner, d, v.v))
  {
    hide At, End, Delimited, FieldsOnce;
  }

  method ParseBox(p: Pctx, h: Heap, dst: Ptr, ty: Ty, cur0: nat, ghost at: nat, ghost d: Doc, ghost n: nat,
                  ghost v: Val)
    returns (cur: nat, ghost r: Rep, ghost lost: set<nat>)
    requires ty.Boxed? && Ready(p.env, ty, h, dst) && Due(p, n, ty, cur0, at, d, v)
    modifies h
    ensures h.Valid() && cur == End(at, d) && Ran(p.env, ty, old(h.m), h.m, dst, v, r, lost)
    ensures Unrepeated(p.env, ty, d, v) ==> lost == {}
    decreases n, 2
  {
    hide Holds, Has, Wrote, Built, Niche, PtrCells, Due, Unrepeated, Sound, SoundCells, Fits, Block, Sized;
    BoxSound(p.env, ty);
    WrappedDue(p, n, ty, cur0, at, d, v);
    ghost var m0 := h.m;
    var q := h.Alloc(ty.size, ty.align);
    ghost var m1 := h.m;
    BoxReady(m0, m1, q, ty.size, ty.align, old(h.next), Size(p.env, ty.inner));
    ghost var part;
    cur, part, lost := Parse(p, h, q, ty.inner, cur0, at, d, n - 1, v.v);
    r := StoreBox(p.env, h, dst, ty, q, m0, m1, part, lost);
  }

  /** `None` in place: zeros, then the discriminant. */
  method StoreNone(h: Heap, dst: Ptr, ty: Ty, ghost env: Cells)
    requires ty.Opt? && Sound(env, ty) && h.Valid() && Fits(h.m, dst, Size(env, ty))
    modifies h
    ensures h.Valid() && Built(env, ty, old(h.m), h.m, dst, RNone, {}) && Has(h.m, dst, NoneCells(ty))
  {
    hide Holds, Has, Wrote, Built, Niche, Fits, LittleEndian, NoneCells;
    ghost var m0, n := h.m, Size(env, ty);
    FitsPart(m0, dst, n, 0, ty.size);
    PlusZero(dst);
    Memset0(h, dst, ty.size);
    ghost var m1 := h.m;
    WroteFits(m0, m1, dst, ty.size, dst, n);
    FitsPart(m1, dst, n, ty.discOff, ty.discSize);
    StoreSized(h, Plus(dst, ty.discOff), ty.noneDiscr, ty.discSize);
    NoneBuilt(env, ty, m0, m1, h.m, dst);
    NoneFilled(ty, m1, h.m, dst);
  }

  method ParseOpt(p: Pctx, h: Heap, dst: Ptr, ty: Ty, cur0: nat, ghost at: nat, ghost d: Doc, ghost n: nat,
                  ghost v: Val)
    returns (cur: nat, ghost r: Rep, ghost lost: set<nat>)
    requires ty.Opt? && Ready(p.env, ty, h, dst) && Due(p, n, ty, cur0, at, d, v)
    modifies h
    ensures h.Valid() && cur == End(at, d) && Ran(p.env, ty, old(h.m), h.m, dst, v, r, lost)
    ensures Unrepeated(p.env, ty, d, v) ==> lost == {}
    decreases n, 2
  {
    hide Holds, Has, Wrote, Built, Niche, Fits, LittleEndian, At, Blank, Delimited, Pow256, Reads, Unrepeated;
    FirstByte(p.t, at, d);
    WrappedDue(p, n, ty, cur0, at, d, v);
    ghost var m0, size := h.m, Size(p.env, ty);
    var c := Scan.SkipWs(p.t, cur0, at);
    if p.t[c] == 110 {
      StoreNone(h, dst, ty, p.env);
      cur := c + 4;
      r, lost := RNone, {};
    } else {
      FitsPart(m0, dst, size, ty.payloadOff, Size(p.env, ty.inner));
      ghost var part;
      cur, part, lost := Parse(p, h, Plus(dst, ty.payloadOff), ty.inner, c, at, d, n - 1, v.v);
      ghost var m1 := h.m;
      r := RSome(part);
      if ty.someDiscr.Some? {
        BuiltFits(p.env, ty.inner, m0, m0, m1, Plus(dst, ty.payloadOff), part, lost, dst, size);
        FitsPart(m1, dst, size, ty.discOff, ty.discSize);
        StoreSized(h, Plus(dst, ty.discOff), ty.someDiscr.value, ty.discSize);
        TaggedBuilt(p.env, ty, m0, m1, h.m, dst, part, lost);
      } else {
        NicheBuilt(p.env, ty, m0, m1, dst, part, lost);
      }
    }
  }

  lemma {:induction false} BlankNothing(t: seq<byte>, i: nat)
    requires i <= |t|
    ensures Blank(t, i, i)
  {}

  // ---- Tuples -----------------------------------------------------------------------

  lemma {:induction false} ValsStep(rest: List<Item>, all: seq<Doc>, i: nat)
    requires i <= |all| && Vals(rest) == all[i..]
    ensures rest.Cons? <==> i < |all|
    ensures rest.Cons? ==> rest.head.val == all[i] && Vals(rest.tail) == all[i + 1..]
  {
    if rest.Cons? {
      assert Vals(rest)[0] == all[i] && Vals(rest)[1..] == all[i + 1..];
    }
  }

  lemma {:induction false} ItemDue(p: Pctx, n: nat, ty: Ty, cur: nat, at: nat, d: Doc, v: Val)
    requires Blank(p.t, cur, at) && At(p.t, at, d) && Delimited(p.t, End(at, d))
    requires 2 * |p.t| < Pow256(8) && Reads(p.env, p.fl, n, ty, d, v)
    ensures Due(p, n, ty, cur, at, d, v)
  {}

  lemma {:induction false} TupleDue(p: Pctx, n: nat, ty: Ty, cur: nat, at: nat, d: Doc, v: Val)
    requires ty.Tuple? && Due(p, n, ty, cur, at, d, v)
    ensures d.DArr? && Blank(p.t, cur, at) && Solid(p.t, at) && At(p.t, at, d) && 2 * |p.t| < Pow256(8)
    ensures v.VRow? && |v.vs| == |ty.fields| == |Vals(d.items)|
    ensures n > 0 && forall i :: 0 <= i < |ty.fields| ==>
              Reads(p.env, p.fl, n - 1, ty.fields[i].ty, Vals(d.items)[i], v.vs[i])
    ensures Unrepeated(p.env, ty, d, v) ==> forall i :: 0 <= i < |ty.fields| ==>
              Unrepeated(p.env, ty.fields[i].ty, Vals(d.items)[i], v.vs[i])
  {
    hide At, End, Delimited, Blank;
    FirstByte(p.t, at, d);
    assert ReadsTuple(p.env, p.fl, n - 1, ty.fields, d.items, v.vs);
    assert Unrepeated(p.env, ty, d, v) ==> ThroughoutItems(p.env, FieldsOnce, ty.fields, d.items, v);
  }

  method ParseTuple(p: Pctx, h: Heap, dst: Ptr, ty: Ty, cur0: nat, ghost at: nat, ghost d: Doc, ghost n: nat,
                    ghost v: Val)
    returns (cur: nat, ghost r: Rep, ghost lost: set<nat>)
    requires ty.Tuple? && Ready(p.env, ty, h, dst) && Due(p, n, ty, cur0, at, d, v)
    modifies h
    ensures h.Valid() && cur == End(at, d) && Ran(p.env, ty, old(h.m), h.m, dst, v, r, lost)
    ensures Unrepeated(p.env, ty, d, v) ==> lost == {}
    decreases n, 2
  {
    hide Holds, Wrote, Built, Fits, Sound, SeparateAll, OwnAll, RowState, SoundRow, RowSize,
         Due, Reads, Unrepeated, At, End, ItemsAt, ItemsEnd, Blank, Delimited, Pow256, Vals;
    ghost var m0, rs, filled: set<nat> := h.m, Blanks(|ty.fields|), {};
    var fields := ty.fields;
    StructSound(p.env, ty);
    TupleDue(p, n, ty, cur0, at, d, v);
    ArrayParts(p.t, at, d);
    lost := {};
    RowStart(p.env, fields, m0, dst);
    ghost var rest, close: nat := d.items, |d.close|;
    cur := Scan.SkipWs(p.t, cur0, at);
    cur := cur + 1;
    for i := 0 to |fields|
      invariant h.Valid() && RowState(p.env, fields, m0, h.m, dst, rs, filled, lost)
      invariant forall j: nat :: j in filled <==> j < i
      invariant |rs| == |fields| == |v.vs|
      invariant forall j :: 0 <= j < i ==> Erase(rs[j]) == v.vs[j]
      invariant Unrepeated(p.env, ty, d, v) ==> lost == {}
      invariant ItemsAt(p.t, cur, rest, close) && ItemsEnd(cur, rest, close) == End(at, d)
      invariant Vals(rest) == Vals(d.items)[i..]
    {
      var f := fields[i];
      RowReady(p.env, fields, m0, h.m, dst, rs, filled, lost, i);
      ValsStep(rest, Vals(d.items), i);
      ghost var m1 := h.m;
      ghost var j, k, e, next, close' := NextItem(p.t, cur, rest, close);
      ItemDue(p, n - 1, f.ty, cur, j, rest.head.val, v.vs[i]);
      ghost var part, part';
      cur, part, part' := Parse(p, h, Plus(dst, f.offset), f.ty, cur, j, rest.head.val, n - 1, v.vs[i]);
      cur := Scan.SkipComma(p.t, cur, e);
      RowStep(p.env, fields, m0, m1, h.m, dst, rs, filled, lost, i, part, part');
      rs, filled, lost, rest, close := rs[i := part], filled + {i}, lost + Own(rs[i]) + part', rest.tail, close';
    }
    ValsStep(rest, Vals(d.items), |fields|);
    ghost var j, k, e, next, close' := NextItem(p.t, cur, rest, close);
    cur := Scan.SkipWs(p.t, cur, j);
    cur := cur + 1;
    r := RRow(rs);
    RowBuilt(p.env, ty, m0, h.m, dst, rs, filled, lost);
    assert EraseAll(rs) == v.vs;
  }

  // ---- Vectors ----------------------------------------------------------------------

  function Doubled(k: nat): nat {
    if k == 0 then 4 else 2 * Doubled(k - 1)
  }

  lemma {:induction false} DoubledIsPower(k: nat)
    ensures Doubled(k) == 4 * Bits.Pow2(k)
  {
    if k > 0 {
      DoubledIsPower(k - 1);
    }
  }

  /** The capacity after `len` elements, and how many elements its growth has moved. */
  ghost predicate Grown(cap: nat, len: nat, moved: nat) {
    if len == 0 then cap == 0 && moved == 0
    else
      && (exists k: nat :: cap == Doubled(k))
      && len <= cap <= Max(4, 2 * len - 2)
      && moved + 4 == cap
  }

  lemma {:induction false} GrownStep(cap: nat, len: nat, moved: nat)
    requires Grown(cap, len, moved)
    ensures len <= cap
    ensures len < cap ==> Grown(cap, len + 1, moved)
    ensures len == cap ==> Grown(if cap == 0 then 4 else 2 * cap, len + 1, moved + cap)
  {
    if cap == 0 {
      assert 4 == Doubled(0);
    } else {
      var k: nat :| cap == Doubled(k);
      assert 2 * cap == Doubled(k + 1);
    }
  }

  /** Growth is amortised: all moves together are fewer than two per element. */
  lemma {:induction false} MovesAreLinear(cap: nat, len: nat, moved: nat)
    requires Grown(cap, len, moved)
    ensures len > 0 ==> moved < 2 * len
  {}

  lemma {:induction false} GrowFits(cap: nat, n: nat, size: nat)
    requires cap < n && 0 < size && BufferFits(n, size)
    ensures Wrap(2 * cap) == 2 * cap && Wrap(cap * size) == cap * size
    ensures var cap' := if cap == 0 then 4 else 2 * cap; Wrap(cap' * size) == cap' * size
  {
    hide Pow256, Wrap;
    var cap', most := if cap == 0 then 4 else 2 * cap, Max(4, 2 * n - 2);
    MulMonotone(cap', most, size);
    MulMonotone(cap, cap', size);
    MulAtLeast(2 * cap, size);
    MulMonotone(2 * cap, most, size);
    SmallWrap(2 * cap, 8);
    SmallWrap(cap * size, 8);
    SmallWrap(cap' * size, 8);
  }

  /** The growth block: four elements first, then twice as many, in 64-bit arithmetic. */
  method Grow(h: Heap, ty: Ty, base: Ptr, cap: nat, ghost env: Cells, ghost m0: Mem, ghost rs: seq<Rep>,
              ghost lost: set<nat>, ghost n: nat)
    returns (base': Ptr, cap': nat)
    requires h.Valid() && Sized(env) && ty.Vec? && Sound(env, ty)
    requires VecState(env, ty, m0, h.m, base, cap, rs, lost) && cap < n && BufferFits(n, ty.elemSize)
    modifies h
    ensures h.Valid() && cap' == if cap == 0 then 4 else 2 * cap
    ensures VecState(env, ty, m0, h.m, base', cap', rs, lost)
  {
    hide VecState, Wrap, Pow256, Sized, Niche, BufferFits;
    ghost var m, b := h.m, h.next;
    GrowFits(cap, n, ty.elemSize);
    cap' := if cap == 0 then 4 else Wrap(2 * cap);
    GrowReady(env, ty, m0, m, base, cap, cap', rs, lost);
    base' := h.Realloc(base, Wrap(cap * ty.elemSize), Wrap(cap' * ty.elemSize), ty.elemAlign);
    VecGrow(env, ty, m0, m, h.m, base, cap, cap', rs, lost, b);
  }

  lemma {:induction false} VecDue(p: Pctx, n: nat, ty: Ty, cur: nat, at: nat, d: Doc, v: Val)
    requires ty.Vec? && Due(p, n, ty, cur, at, d, v)
    ensures d.DArr? && Blank(p.t, cur, at) && Solid(p.t, at) && At(p.t, at, d) && 2 * |p.t| < Pow256(8)
    ensures v.VVec? && |v.vs| == |Vals(d.items)| && BufferFits(|v.vs|, ty.elemSize)
    ensures n > 0 && forall i :: 0 <= i < |v.vs| ==> Reads(p.env, p.fl, n - 1, ty.elem, Vals(d.items)[i], v.vs[i])
    ensures Unrepeated(p.env, ty, d, v) ==>
              forall i :: 0 <= i < |v.vs| ==> Unrepeated(p.env, ty.elem, Vals(d.items)[i], v.vs[i])
  {
    hide At, End, Delimited, Blank;
    FirstByte(p.t, at, d);
  }

  lemma {:induction false} CapacityFits(cap: nat, len: nat, moved: nat, size: nat)
    requires Grown(cap, len, moved) && 0 < size && BufferFits(len, size)
    ensures 2 * cap < Pow256(8)
  {
    hide Pow256;
    if len > 0 {
      MulAtLeast(Max(4, 2 * len - 2), size);
    }
  }

  lemma {:induction false} VecSound(env: Cells, ty: Ty)
    requires ty.Vec? && Sound(env, ty) && SoundCells(env)
    ensures Sized(env) && 0 < ty.elemSize
  {}

  /** One pass: grow geometrically, parse each element into its place. */
  method ParseVec(p: Pctx, h: Heap, dst: Ptr, ty: Ty, cur0: nat, ghost at: nat, ghost d: Doc, ghost n: nat,
                  ghost v: Val)
    returns (cur: nat, ghost r: Rep, ghost lost: set<nat>, ghost moved: nat)
    requires ty.Vec? && Ready(p.env, ty, h, dst) && Due(p, n, ty, cur0, at, d, v)
    modifies h
    ensures h.Valid() && cur == End(at, d) && Ran(p.env, ty, old(h.m), h.m, dst, v, r, lost)
    ensures Unrepeated(p.env, ty, d, v) ==> lost == {}
    ensures r.RVec? && Grown(r.cap, |r.rs|, moved) && (|r.rs| > 0 ==> moved < 2 * |r.rs|)
    decreases n, 2
  {
    hide Holds, Has, Wrote, Built, Fits, SeparateAll, OwnAll, VecState, Sound, SoundCells, Word, PtrCells, Pow256, Slot,
         Due, Reads, Unrepeated, At, End, ItemsAt, ItemsEnd, Blank, Delimited, Vals, BufferFits, Grown, Sized;
    ghost var m0, rs: seq<Rep> := h.m, [];
    VecSound(p.env, ty);
    VecDue(p, n, ty, cur0, at, d, v);
    ArrayParts(p.t, at, d);
    ghost var rest, close: nat := d.items, |d.close|;
    cur := Scan.SkipWs(p.t, cur0, at);
    cur := cur + 1;
    var base, cap, len := Dangling(Max(ty.elemAlign, 1)), 0, 0;
    moved, lost := 0, {};
    VecStart(p.env, ty, m0, m0, base, 0, h.next);
    GrownStart();
    while true
      invariant h.Valid() && VecState(p.env, ty, m0, h.m, base, cap, rs, lost)
      invariant |rs| == len <= |v.vs|
      invariant forall j :: 0 <= j < len ==> Erase(rs[j]) == v.vs[j]
      invariant ItemsAt(p.t, cur, rest, close) && ItemsEnd(cur, rest, close) == End(at, d)
      invariant Vals(rest) == Vals(d.items)[len..]
      invariant Grown(cap, len, moved) && (Unrepeated(p.env, ty, d, v) ==> lost == {})
      decreases rest
    {
      ghost var j, k, e, next, close' := NextItem(p.t, cur, rest, close);
      cur := Scan.SkipWs(p.t, cur, j);
      ValsStep(rest, Vals(d.items), len);
      if p.t[cur] == CLOSE_BRACKET {
        break;
      }
      GrownStep(cap, len, moved);
      if len == cap {
        moved := moved + cap;
        base, cap := Grow(h, ty, base, cap, p.env, m0, rs, lost, |v.vs|);
      }
      ghost var m1 := h.m;
      SlotReady(p.env, ty, m0, m1, base, cap, rs, lost);
      BlankNothing(p.t, cur);
      ItemDue(p, n - 1, ty.elem, cur, cur, rest.head.val, v.vs[len]);
      ghost var part, part';
      cur, part, part' := Parse(p, h, Slot(base, len, ty.elemSize), ty.elem, cur, cur, rest.head.val, n - 1, v.vs[len]);
      cur := Scan.SkipComma(p.t, cur, e);
      VecStep(p.env, ty, m0, m1, h.m, base, cap, rs, part, lost, part');
      lost := lost + part';
      rs, len, rest, close := rs + [part], len + 1, rest.tail, close';
    }
    BlankNothing(p.t, cur);
    cur := Scan.SkipWs(p.t, cur, cur);
    cur := cur + 1;
    CapacityFits(cap, len, moved, ty.elemSize);
    MovesAreLinear(cap, len, moved);
    r := StoreVec(p.env, h, dst, ty, base, cap, len, m0, rs, lost);
    assert EraseAll(rs) == v.vs;
  }

  lemma {:induction false} GrownStart()
    ensures Grown(0, 0, 0)
  {}

  // ---- Structs ----------------------------------------------------------------------

  function Names(fields: seq<FieldTy>): (names: seq<seq<byte>>)
    ensures |names| == |fields|
    ensures forall i :: 0 <= i < |fields| ==> names[i] == fields[i].name
  {
    seq(|fields|, i requires 0 <= i < |fields| => fields[i].name)
  }

  /** Every literal option is `None` before the first key is read. */
  method DefaultOptions(p: Pctx, h: Heap, dst: Ptr, fields: seq<FieldTy>)
    returns (ghost rs: seq<Rep>, ghost filled: set<nat>)
    requires SoundCells(p.env) && SoundRow(p.env, fields)
    requires h.Valid() && Fits(h.m, dst, RowSize(p.env, fields))
    modifies h
    ensures h.Valid() && RowState(p.env, fields, old(h.m), h.m, dst, rs, filled, {})
    ensures forall j: nat :: j in filled <==> j < |fields| && fields[j].ty.Opt?
    ensures forall j :: j in filled ==> rs[j] == RNone
  {
    hide Holds, Wrote, Built, Fits, Sound, SeparateAll, OwnAll, RowState, SoundRow, RowSize;
    ghost var m0 := h.m;
    rs, filled := Blanks(|fields|), {};
    RowStart(p.env, fields, m0, dst);
    for i := 0 to |fields|
      invariant h.Valid() && RowState(p.env, fields, m0, h.m, dst, rs, filled, {}) && |rs| == |fields|
      invariant forall j: nat :: j in filled <==> j < i && fields[j].ty.Opt?
      invariant forall j :: j in filled ==> rs[j] == RNone
    {
      var f := fields[i];
      if f.ty.Opt? {
        RowReady(p.env, fields, m0, h.m, dst, rs, filled, {}, i);
        ghost var m1 := h.m;
        StoreNone(h, Plus(dst, f.offset), f.ty, p.env);
        RowStep(p.env, fields, m0, m1, h.m, dst, rs, filled, {}, i, RNone, {});
        assert {} + Own(rs[i]) + {} == {};
        rs, filled := rs[i := RNone], filled + {i};
      }
    }
  }

  /** A field nobody has written: an option is `None`, anything else is missing. */
  predicate Untouched(f: FieldTy, filled: bool, r: Rep) {
    (filled <==> f.ty.Opt?) && (filled ==> r == RNone)
  }

  /** Where one field stands, with the members `rest` of `all` still to come: untouched if it
      has no member, or its only one is ahead; holding its value if none is ahead any more. */
  ghost predicate FieldState(f: FieldTy, all: List<Member>, rest: List<Member>, v: Val, filled: bool, r: Rep) {
    && (Once(all, f.name) ==> Once(rest, f.name))
    && (LastLookup(rest, f.name).Some? ==> LastLookup(rest, f.name) == LastLookup(all, f.name))
    && (forall d :: HasMember(rest, f.name, d) ==> HasMember(all, f.name, d))
    && if Lookup(all, f.name).None? || (Once(all, f.name) && Lookup(rest, f.name).Some?) then Untouched(f, filled, r)
       else Lookup(rest, f.name).None? ==> filled && Erase(r) == v
  }

  ghost predicate FieldStates(fields: seq<FieldTy>, all: List<Member>, rest: List<Member>, vs: seq<Val>,
                              filled: set<nat>, rs: seq<Rep>)
    requires |fields| == |vs| == |rs|
  {
    forall i: nat :: i < |fields| ==> FieldState(fields[i], all, rest, vs[i], i in filled, rs[i])
  }

  lemma {:induction false} FieldsStart(fields: seq<FieldTy>, all: List<Member>, vs: seq<Val>, filled: set<nat>,
                                       rs: seq<Rep>)
    requires |fields| == |vs| == |rs|
    requires forall j: nat :: j in filled <==> j < |fields| && fields[j].ty.Opt?
    requires forall j :: j in filled ==> rs[j] == RNone
    ensures FieldStates(fields, all, all, vs, filled, rs)
  {
    hide Once, LastLookup, HasMember;
    forall i: nat | i < |fields| ensures FieldState(fields[i], all, all, vs[i], i in filled, rs[i]) {}
  }

  /** A member with another key changes nothing for a field. */
  lemma {:induction false} FieldPassed(f: FieldTy, all: List<Member>, rest: List<Member>, v: Val, filled: bool, r: Rep)
    requires rest.Cons? && Body(rest.head.key) != f.name && FieldState(f, all, rest, v, filled, r)
    ensures FieldState(f, all, rest.tail, v, filled, r)
  {
    hide Body, Erase;
    LookupsMeet(rest, f.name);
    LookupsMeet(rest.tail, f.name);
    assert HasMember(rest.tail, f.name, DNull) ==> HasMember(rest, f.name, DNull);
  }

  /** The field's own member gives it a value, the final one if no other is ahead. */
  lemma {:induction false} FieldGiven(f: FieldTy, all: List<Member>, rest: List<Member>, v: Val, filled: bool, r: Rep,
                                      w: Val, r': Rep)
    requires rest.Cons? && Body(rest.head.key) == f.name && FieldState(f, all, rest, v, filled, r)
    requires Erase(r') == w && (Lookup(rest.tail, f.name).None? ==> w == v)
    ensures FieldState(f, all, rest.tail, v, true, r')
  {
    hide Body, Erase;
    LookupsMeet(rest.tail, f.name);
    LookupsMeet(all, f.name);
    assert HasMember(rest, f.name, rest.head.item.val);
    if Lookup(all, f.name).None? {
      MissingHasNone(all, f.name);
    }
    if Lookup(rest.tail, f.name).None? {
      MissingHasNone(rest.tail, f.name);
    }
  }

  /** The member's field, if it has one, takes the member's value and nothing else does. */
  lemma {:induction false} FieldsStep(fields: seq<FieldTy>, all: List<Member>, rest: List<Member>, vs: seq<Val>,
                                      filled: set<nat>, rs: seq<Rep>, k: Option<nat>, w: Val, filled': set<nat>,
                                      rs': seq<Rep>)
    requires |fields| == |vs| == |rs| == |rs'| && rest.Cons?
    requires FieldStates(fields, all, rest, vs, filled, rs)
    requires forall i, j :: 0 <= i < j < |fields| ==> fields[i].name != fields[j].name
    requires k == Dispatch.Lowest(Names(fields), Body(rest.head.key), 0)
    requires k.None? ==> filled' == filled && rs' == rs
    requires k.Some? ==> filled' == filled + {k.value} && rs' == rs[k.value := rs'[k.value]] && Erase(rs'[k.value]) == w
    requires k.Some? && Lookup(rest.tail, fields[k.value].name).None? ==> w == vs[k.value]
    ensures FieldStates(fields, all, rest.tail, vs, filled', rs')
  {
    hide Body, Erase, Dispatch.Lowest, FieldState, Lookup;
    var key := Body(rest.head.key);
    forall i: nat | i < |fields|
      ensures FieldState(fields[i], all, rest.tail, vs[i], i in filled', rs'[i])
    {
      assert FieldState(fields[i], all, rest, vs[i], i in filled, rs[i]);
      assert fields[i].name == key <==> k == Some(i) by {
        assert Names(fields)[i] == fields[i].name;
        if k.Some? && k.value != i {
          assert fields[k.value].name == key;
        }
      }
      if k == Some(i) {
        FieldGiven(fields[i], all, rest, vs[i], i in filled, rs[i], w, rs'[i]);
      } else {
        FieldPassed(fields[i], all, rest, vs[i], i in filled, rs[i]);
      }
    }
  }

  /** What the value at a field's member reads as: the struct's value if it is the last. */
  lemma {:induction false} MemberReads(p: Pctx, n: nat, fields: seq<FieldTy>, all: List<Member>, rest: List<Member>,
                                       vs: seq<Val>, filled: set<nat>, rs: seq<Rep>, i: nat)
    returns (w: Val)
    requires |fields| == |vs| == |rs| && rest.Cons? && i < |fields| && fields[i].name == Body(rest.head.key)
    requires FieldStates(fields, all, rest, vs, filled, rs) && ReadsStruct(p.env, p.fl, n, fields, all, vs)
    ensures Reads(p.env, p.fl, n, fields[i].ty, rest.head.item.val, w)
    ensures Lookup(rest.tail, fields[i].name).None? ==>
              w == vs[i] && LastLookup(all, fields[i].name) == Some(rest.head.item.val)
    ensures Once(all, fields[i].name) ==>
              Lookup(rest.tail, fields[i].name).None? && Untouched(fields[i], i in filled, rs[i])
  {
    hide Body, Reads, Erase;
    var f, d := fields[i], rest.head.item.val;
    assert FieldState(f, all, rest, vs[i], i in filled, rs[i]);
    LookupsMeet(rest.tail, f.name);
    assert HasMember(rest, f.name, d) && Lookup(rest, f.name).Some?;
    if Lookup(rest.tail, f.name).None? {
      assert ReadsField(p.env, p.fl, n, f, LastLookup(all, f.name), vs[i]);
      w := vs[i];
    } else {
      assert Readable(p.env, p.fl, n, f.ty, d);
      w :| Reads(p.env, p.fl, n, f.ty, d, w);
    }
  }

  lemma {:induction false} FieldsDone(p: Pctx, n: nat, fields: seq<FieldTy>, all: List<Member>, vs: seq<Val>,
                                      filled: set<nat>, rs: seq<Rep>)
    requires |fields| == |vs| == |rs|
    requires FieldStates(fields, all, Nil, vs, filled, rs) && ReadsStruct(p.env, p.fl, n, fields, all, vs)
    ensures forall i: nat :: i < |fields| ==> i in filled
    ensures EraseAll(rs) == vs
  {
    hide Reads, Readable, HasMember;
    forall i: nat | i < |fields| ensures i in filled && Erase(rs[i]) == vs[i] {
      assert FieldState(fields[i], all, Nil, vs[i], i in filled, rs[i]);
      assert ReadsField(p.env, p.fl, n, fields[i], LastLookup(all, fields[i].name), vs[i]);
      LookupsMeet(all, fields[i].name);
    }
    assert EraseAll(rs) == vs;
  }

  /** What `Unrepeated` asks of a struct. */
  ghost predicate FieldsUnrepeated(env: Cells, fields: seq<FieldTy>, ms: List<Member>, v: Val)
    requires v.VRow?
  {
    && (forall i :: 0 <= i < |fields| ==> Once(ms, fields[i].name))
    && ThroughoutFields(env, FieldsOnce, fields, ms, v)
  }

  lemma {:induction false} StructDue(p: Pctx, n: nat, ty: Ty, cur: nat, at: nat, d: Doc, v: Val)
    requires ty.Struct? && Due(p, n, ty, cur, at, d, v)
    ensures d.DObj? && Blank(p.t, cur, at) && Solid(p.t, at) && At(p.t, at, d) && 2 * |p.t| < Pow256(8)
    ensures n > 0 && v.VRow? && |v.vs| == |ty.fields| && ReadsStruct(p.env, p.fl, n - 1, ty.fields, d.members, v.vs)
    ensures Unrepeated(p.env, ty, d, v) ==> FieldsUnrepeated(p.env, ty.fields, d.members, v)
  {
    hide At, End, Delimited, Blank;
    FirstByte(p.t, at, d);
    assert ReadsStruct(p.env, p.fl, n - 1, ty.fields, d.members, v.vs);
  }

  lemma {:induction false} NamesDistinct(env: Cells, ty: Ty)
    requires ty.Struct? && Sound(env, ty)
    ensures forall i, j :: 0 <= i < j < |ty.fields| ==> ty.fields[i].name != ty.fields[j].name
  {}

  /** The dispatched-on bytes are the key. */
  lemma {:induction false} KeyLoaded(t: seq<byte>, kp: nat, key: seq<byte>, load: Dispatch.Load)
    requires kp + |key| <= |t| && t[kp..kp + |key|] == key
    requires forall k: nat :: kp + k < |t| ==> load(k) == t[kp + k]
    ensures Dispatch.Prefix(load, |key|) == key
  {
    forall k | 0 <= k < |key| ensures load(k) == key[k] {
      assert t[kp..kp + |key|][k] == t[kp + k];
    }
  }

  lemma {:induction false} KeyHere(t: seq<byte>, i: nat, ps: List<Piece>)
    requires StringAt(t, i, ps)
    ensures Blank(t, i, i)
  {}

  /** One turn of the key loop: the key, the colon, and the value, parsed into the field
      the dispatch finds or skipped. What the field owned before, nothing owns any more. */
  method ParseMember(p: Pctx, h: Heap, dst: Ptr, fields: seq<FieldTy>, code: Dispatch.Code, cur0: nat, ghost c: nat,
                     ghost at: nat, ghost m: Member, ghost n: nat, ghost w: Val, ghost m0: Mem, ghost rs: seq<Rep>,
                     ghost filled: set<nat>, ghost lost: set<nat>)
    returns (cur: nat, ghost k: Option<nat>, ghost rs': seq<Rep>, ghost filled': set<nat>, ghost lost': set<nat>)
    requires SoundCells(p.env) && SoundRow(p.env, fields) && Fits(m0, dst, RowSize(p.env, fields))
    requires h.Valid() && RowState(p.env, fields, m0, h.m, dst, rs, filled, lost) && |rs| == |fields|
    requires Dispatch.Right(code, Names(fields))
    requires StringAt(p.t, cur0, m.key) && 2 * |p.t| < Pow256(8)
    requires Blank(p.t, cur0 + |Body(m.key)| + 2, c) && c < |p.t| && p.t[c] == COLON
    requires Blank(p.t, c + 1, at) && At(p.t, at, m.item.val) && Delimited(p.t, End(at, m.item.val))
    requires var k := Dispatch.Lowest(Names(fields), Body(m.key), 0);
             k.Some? ==> n > 0 && Reads(p.env, p.fl, n - 1, fields[k.value].ty, m.item.val, w)
    modifies h
    ensures h.Valid() && cur == End(at, m.item.val)
    ensures RowState(p.env, fields, m0, h.m, dst, rs', filled', lost') && |rs'| == |rs|
    ensures k == Dispatch.Lowest(Names(fields), Body(m.key), 0)
    ensures k.None? ==> filled' == filled && rs' == rs && lost' == lost
    ensures k.Some? ==> filled' == filled + {k.value} && rs' == rs[k.value := rs'[k.value]] && Erase(rs'[k.value]) == w
    ensures k.Some? ==> lost + Own(rs[k.value]) <= lost'
    ensures k.Some? && Unrepeated(p.env, fields[k.value].ty, m.item.val, w) ==> lost' == lost + Own(rs[k.value])
    decreases n, 1
  {
    hide Holds, Wrote, Built, Fits, Sound, SeparateAll, OwnAll, RowState, SoundRow, RowSize, Own,
         Due, Reads, Unrepeated, At, End, StringAt, Blank, Delimited, Pow256, Body, Sized, Erase;
    var kp, kl, esc;
    KeyHere(p.t, cur0, m.key);
    kp, kl, cur, esc := Scan.Strspan(p.t, cur0, cur0, m.key);
    cur := Scan.SkipWs(p.t, cur, c);
    cur := cur + 1;
    var load: Dispatch.Load := (k: nat) => if kp + k < |p.t| then p.t[kp + k] else p.past(kp + k - |p.t|);
    KeyLoaded(p.t, kp, Body(m.key), load);
    var f := Dispatch.Exec(code, load, kl, |p.t| - kp);
    k := f;
    match f
    case Some(i) =>
      RowReady(p.env, fields, m0, h.m, dst, rs, filled, lost, i);
      ItemDue(p, n - 1, fields[i].ty, cur, at, m.item.val, w);
      ghost var m1 := h.m;
      ghost var part, part';
      cur, part, part' := Parse(p, h, Plus(dst, fields[i].offset), fields[i].ty, cur, at, m.item.val, n - 1, w);
      RowStep(p.env, fields, m0, m1, h.m, dst, rs, filled, lost, i, part, part');
      rs', filled', lost' := rs[i := part], filled + {i}, lost + Own(rs[i]) + part';
    case None =>
      cur := Scan.RtSkip(p.t, cur, at, m.item.val);
      rs', filled', lost' := rs, filled, lost;
  }

  method ParseStruct(p: Pctx, h: Heap, dst: Ptr, ty: Ty, cur0: nat, ghost at: nat, ghost d: Doc, ghost n: nat,
                     ghost v: Val)
    returns (cur: nat, ghost r: Rep, ghost lost: set<nat>)
    requires ty.Struct? && Ready(p.env, ty, h, dst) && Due(p, n, ty, cur0, at, d, v)
    modifies h
    ensures h.Valid() && cur == End(at, d) && Ran(p.env, ty, old(h.m), h.m, dst, v, r, lost)
    ensures Unrepeated(p.env, ty, d, v) ==> lost == {}
    decreases n, 2
  {
    hide Holds, Wrote, Built, Fits, Sound, SeparateAll, OwnAll, RowState, SoundRow, RowSize, Own,
         Due, Reads, ReadsStruct, Unrepeated, FieldsUnrepeated, At, End, StringAt, Blank, Delimited, Pow256, Body,
         Sized, Erase, MembersAt, MembersEnd, FieldStates, Dispatch.Lowest;
    var fields := ty.fields;
    StructSound(p.env, ty);
    NamesDistinct(p.env, ty);
    StructDue(p, n, ty, cur0, at, d, v);
    ObjectParts(p.t, at, d);
    cur := Scan.SkipWs(p.t, cur0, at);
    cur := cur + 1;
    ghost var m0, rest, close: nat := h.m, d.members, |d.close|;
    ghost var rs, filled := DefaultOptions(p, h, dst, fields);
    lost := {};
    RowLength(p.env, fields, m0, h.m, dst, rs, filled, lost);
    FieldsStart(fields, d.members, v.vs, filled, rs);
    var code := Dispatch.Emit(Names(fields));
    while true
      invariant h.Valid() && |rs| == |fields| && RowState(p.env, fields, m0, h.m, dst, rs, filled, lost)
      invariant MembersAt(p.t, cur, rest, close) && MembersEnd(cur, rest, close) == End(at, d)
      invariant FieldStates(fields, d.members, rest, v.vs, filled, rs)
      invariant Unrepeated(p.env, ty, d, v) ==> lost == {}
      decreases rest
    {
      ghost var j, c, x, k, e, next, close' := NextMember(p.t, cur, rest, close);
      cur := Scan.SkipWs(p.t, cur, j);
      if p.t[cur] == CLOSE_BRACE {
        cur := cur + 1;
        break;
      }
      ghost var w := MemberValue(p, n - 1, fields, d.members, rest, v, m0, h.m, dst, filled, rs, lost);
      ghost var f, rs', filled', lost';
      cur, f, rs', filled', lost' :=
        ParseMember(p, h, dst, fields, code, cur, c, x, rest.head, n, w, m0, rs, filled, lost);
      FieldsStep(fields, d.members, rest, v.vs, filled, rs, f, w, filled', rs');
      cur := Scan.SkipComma(p.t, cur, e);
      rs, filled, lost, rest, close := rs', filled', lost', rest.tail, close';
    }
    FieldsDone(p, n - 1, fields, d.members, v.vs, filled, rs);
    r := RRow(rs);
    RowBuilt(p.env, ty, m0, h.m, dst, rs, filled, lost);
    RowErased(rs);
  }

  /** The value of the member's field, if it has one; when nothing is repeated, the field
      owns nothing yet. */
  lemma {:induction false} MemberValue(p: Pctx, n: nat, fields: seq<FieldTy>, all: List<Member>, rest: List<Member>,
                                       v: Val, m0: Mem, m: Mem, dst: Ptr, filled: set<nat>, rs: seq<Rep>,
                                       lost: set<nat>)
    returns (w: Val)
    requires RowState(p.env, fields, m0, m, dst, rs, filled, lost)
    requires v.VRow? && |fields| == |v.vs| == |rs| && rest.Cons?
    requires FieldStates(fields, all, rest, v.vs, filled, rs) && ReadsStruct(p.env, p.fl, n, fields, all, v.vs)
    ensures var k := Dispatch.Lowest(Names(fields), Body(rest.head.key), 0);
            k.Some? ==>
              && Reads(p.env, p.fl, n, fields[k.value].ty, rest.head.item.val, w)
              && (Lookup(rest.tail, fields[k.value].name).None? ==> w == v.vs[k.value])
              && (FieldsUnrepeated(p.env, fields, all, v) ==>
                    Own(rs[k.value]) == {} && Unrepeated(p.env, fields[k.value].ty, rest.head.item.val, w))
  {
    hide RowState, FieldStates, ReadsStruct, Body, Reads, Throughout, FieldsOnce, Dispatch.Lowest, Lookup, LastLookup,
         Once;
    RowLength(p.env, fields, m0, m, dst, rs, filled, lost);
    w := VUnit;
    var k := Dispatch.Lowest(Names(fields), Body(rest.head.key), 0);
    if k.Some? {
      var i := k.value;
      assert Names(fields)[i] == fields[i].name;
      w := MemberReads(p, n, fields, all, rest, v.vs, filled, rs, i);
      if FieldsUnrepeated(p.env, fields, all, v) {
        assert Once(all, fields[i].name);
      }
    }
  }

  lemma {:induction false} RowErased(rs: seq<Rep>)
    ensures Erase(RRow(rs)) == VRow(EraseAll(rs))
  {}

  lemma {:induction false} RowLength(env: Cells, fields: seq<FieldTy>, m0: Mem, m: Mem, p: Ptr, rs: seq<Rep>,
                                     filled: set<nat>, lost: set<nat>)
    requires RowState(env, fields, m0, m, p, rs, filled, lost)
    ensures |rs| == |fields|
    ensures forall i :: 0 <= i < |fields| && i !in filled ==> Own(rs[i]) == {}
  {}
}
