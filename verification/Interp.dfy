/** The interpreter backend (`interp.rs`): it binds a tree into memory. */
module Interp {
  import opened Containers
  import opened Bytes
  import opened Utf8
  import opened Json
  import opened Numerals
  import opened Plan
  import opened Memory
  import opened Frames
  import opened Layout
  import opened Values
  import opened Binding
  import opened Copy
  import opened Build

  /** What `run` promises: the value lies at `dst`, nothing else changed, and it owns
      exactly the blocks that were allocated. */
  ghost predicate Ran(env: Cells, ty: Ty, m: Mem, m': Mem, dst: Ptr, v: Val, r: Rep, lost: set<nat>) {
    Built(env, ty, m, m', dst, r, lost) && Erase(r) == v
  }

  /** An integer lies in memory as the bytes of the number its token spells. */
  ghost predicate NumeralLies(ty: Ty, tok: seq<byte>, m: Mem, p: Ptr) {
    ty.U? || ty.I? ==> forall x :: Spells(tok, ty.I?, x) ==> Has(m, p, Lits(LittleEndian(x, ty.n)))
  }

  ghost predicate Ready(env: Cells, ty: Ty, h: Heap, dst: Ptr)
    reads h
  {
    SoundCells(env) && Sound(env, ty) && h.Valid() && Fits(h.m, dst, Size(env, ty))
  }

  method AllocCopy(h: Heap, bytes: seq<byte>) returns (q: Ptr)
    requires h.Valid() && 2 * |bytes| < Pow256(8)
    modifies h
    ensures h.Valid() && TextBuilt(old(h.m), h.m, q, bytes)
  {
    hide Has, Wrote, TextBuilt, Pow256;
    ghost var m0, b := h.m, h.next;
    q := h.Alloc(|bytes|, 1);
    ghost var m1 := h.m;
    StoreCells(h, q, Lits(bytes));
    TextMade(m0, m1, h.m, q, b, bytes);
  }

  method WriteNumber(h: Heap, dst: Ptr, ghost env: Cells, ghost ty: Ty, x: int, n: nat) returns (ghost r: Rep)
    requires h.Valid() && Fits(h.m, dst, n) && 0 < n <= 16 && Width(ty) == n
    requires ty.Char? ==> IsScalar(x % Pow256(4))
    modifies h
    ensures h.Valid() && r == RNum(x % Pow256(n)) && Built(env, ty, old(h.m), h.m, dst, r, {})
    ensures Has(h.m, dst, Lits(LittleEndian(x, n)))
  {
    hide Has, Wrote, Built, LittleEndian, Pow256;
    StoreCells(h, dst, Lits(LittleEndian(x, 16)[..n]));
    NarrowIsPrefix(x, 16, n);
    NarrowAfterMod(x, n, n);
    NumBuilt(env, ty, old(h.m), h.m, dst, x % Pow256(n));
    r := RNum(x % Pow256(n));
  }

  method RunInt(env: Cells, fl: Floats, h: Heap, dst: Ptr, ty: Ty, val: Json, ghost v: Val) returns (ghost r: Rep)
    requires (ty.U? || ty.I?) && Ready(env, ty, h, dst) && Binds(env, fl, ty, val, v)
    modifies h
    ensures h.Valid() && Ran(env, ty, old(h.m), h.m, dst, v, r, {})
    ensures val.Num? ==> NumeralLies(ty, val.tok, h.m, dst)
  {
    hide Has, Wrote, Built, Pow256, LittleEndian, Fits, SoundCells, Integer, Spells;
    var x := if ty.U? then AsU128(val).value else AsI128(val).value;
    r := WriteNumber(h, dst, env, ty, x, ty.n);
    if val.Num? {
      forall y | Spells(val.tok, ty.I?, y) ensures y == x {
        IntegerIsSpelled(val.tok, ty.I?, y);
      }
    }
  }

  method Run(env: Cells, fl: Floats, h: Heap, dst: Ptr, ty: Ty, val: Json, ghost v: Val) returns (ghost r: Rep)
    requires Ready(env, ty, h, dst) && Binds(env, fl, ty, val, v)
    modifies h
    ensures h.Valid() && Ran(env, ty, old(h.m), h.m, dst, v, r, {})
    ensures val.Num? ==> NumeralLies(ty, val.tok, h.m, dst)
    decreases v, if ty.Ref? then 4 else 3
  {
    hide Has, Wrote, Built, Pow256, LittleEndian, Fits, SoundCells, TextBuilt, AsU128, AsI128, FirstScalar, EncodeAll,
         Spells;
    match ty
    case Bool =>
      StoreCells(h, dst, Lits([if val == Json.Bool(true) then 1 else 0]));
      BoolBuilt(env, old(h.m), h.m, dst, val == Json.Bool(true));
      r := RBool(val == Json.Bool(true));
    case Char =>
      CharOf(val, v);
      r := WriteNumber(h, dst, env, ty, FirstScalar(val.s), 4);
    case U(_) => r := RunInt(env, fl, h, dst, ty, val, v);
    case I(_) => r := RunInt(env, fl, h, dst, ty, val, v);
    case F32 =>
      SmallMod(fl.Single(val.tok), 4);
      r := WriteNumber(h, dst, env, ty, fl.Single(val.tok), 4);
    case F64 =>
      SmallMod(fl.Double(val.tok), 8);
      r := WriteNumber(h, dst, env, ty, fl.Double(val.tok), 8);
    case Struct(_, _) => r := RunStruct(env, fl, h, dst, ty, val, v);
    case Tuple(_) => r := RunTuple(env, fl, h, dst, ty, val, v);
    case Str(_) => r := RunStr(env, h, dst, ty, val);
    case StrRef(_, _) => r := RunStr(env, h, dst, ty, val);
    case Vec(_, _, _, _) => r := RunVec(env, fl, h, dst, ty, val, v);
    case Boxed(_, _, _) => r := RunBox(env, fl, h, dst, ty, val, v);
    case Unit =>
      UnitBuilt(env, h.m, dst);
      r := RUnit;
    case Opt(_, _, _, _, _, _, _) => r := RunOpt(env, fl, h, dst, ty, val, v);
    case Ref(c) =>
      RefReady(env, c, h, dst);
      r := Run(env, fl, h, dst, env[c].ty, val, v);
      RefBuilt(env, c, old(h.m), h.m, dst, r, {});
  }

  lemma {:induction false} RefReady(env: Cells, c: nat, h: Heap, dst: Ptr)
    requires c in env && Ready(env, Ref(c), h, dst)
    ensures Ready(env, env[c].ty, h, dst) && !env[c].ty.Ref?
  {}

  lemma {:induction false} CharOf(val: Json, v: Val)
    requires val.Str? && exists cs :: val.s == EncodeAll(cs) && v == VNum(if cs == [] then 0 else cs[0])
    ensures v == VNum(FirstScalar(val.s) % Pow256(4)) && IsScalar(FirstScalar(val.s) % Pow256(4))
  {
    hide EncodeAll, FirstScalar, Pow256;
    var cs :| val.s == EncodeAll(cs) && v == VNum(if cs == [] then 0 else cs[0]);
    FirstScalarInverts(cs);
    var c := if cs == [] then 0 else cs[0];
    ScalarFits(c);
    SmallMod(c, 4);
  }

  method RunStr(env: Cells, h: Heap, dst: Ptr, ty: Ty, val: Json) returns (ghost r: Rep)
    requires (ty.Str? || ty.StrRef?) && Ready(env, ty, h, dst) && val.Str? && 2 * |val.s| < Pow256(8)
    modifies h
    ensures h.Valid() && Ran(env, ty, old(h.m), h.m, dst, VStr(val.s), r, {})
  {
    hide Has, Wrote, Built, Pow256, Fits, SoundCells, TextBuilt;
    var q := AllocCopy(h, val.s);
    r := StoreStr(env, h, dst, ty, q, |val.s|, old(h.m), val.s);
  }

  /** The two or three words of a string whose text has been built. */
  method StoreStr(env: Cells, h: Heap, dst: Ptr, ty: Ty, q: Ptr, len: nat, ghost m0: Mem, ghost s: seq<byte>)
    returns (ghost r: Rep)
    requires (ty.Str? || ty.StrRef?) && Sound(env, ty) && h.Valid() && Fits(m0, dst, Size(env, ty))
    requires TextBuilt(m0, h.m, q, s) && len == |s|
    modifies h
    ensures h.Valid() && Ran(env, ty, m0, h.m, dst, VStr(s), r, {})
  {
    hide Has, Wrote, Built, Pow256, Fits, TextBuilt, Word, PtrCells, Plus;
    ghost var m1, n := h.m, Size(env, ty);
    TextFits(m0, m1, q, s, dst, n);
    if ty.Str? {
      StoreSeq(h, dst, ty.words, q, len, len);
      StrBuilt(env, ty.words, m0, m1, h.m, dst, q, s);
    } else {
      StoreAt(h, dst, n, ty.ptrOff, PtrCells(q));
      ghost var m2 := h.m;
      StoreAt(h, dst, n, ty.lenOff, Word(len));
      PartKept(m2, h.m, dst, ty.lenOff, 8, ty.ptrOff, PtrCells(q));
      WroteTwice(m1, m2, h.m, dst, n);
      StrRefBuilt(env, ty, m0, m1, h.m, dst, q, s);
    }
    r := RStr(q, s);
  }

  lemma {:induction false} TextFits(m: Mem, m': Mem, q: Ptr, s: seq<byte>, p: Ptr, n: nat)
    requires TextBuilt(m, m', q, s) && Fits(m, p, n)
    ensures Fits(m', p, n)
  {}

  method RunStruct(env: Cells, fl: Floats, h: Heap, dst: Ptr, ty: Ty, val: Json, ghost v: Val) returns (ghost r: Rep)
    requires ty.Struct? && Ready(env, ty, h, dst) && Binds(env, fl, ty, val, v)
    modifies h
    ensures h.Valid() && Ran(env, ty, old(h.m), h.m, dst, v, r, {})
    decreases v, 2
  {
    hide Holds, Wrote, Built, Fits, Sound, Binds, SeparateAll, OwnAll, RowState, SoundRow, RowSize;
    ghost var m0, rs, filled: set<nat> := h.m, Blanks(|ty.fields|), {};
    var fields, kvs := ty.fields, Entries(val);
    StructSound(env, ty);
    StructParts(env, fl, ty, val, v);
    RowStart(env, fields, m0, dst);
    for i := 0 to |fields|
      invariant h.Valid() && RowState(env, fields, m0, h.m, dst, rs, filled, {})
      invariant forall j: nat :: j in filled <==> j < i
      invariant |rs| == |fields| == |v.vs|
      invariant forall j :: 0 <= j < i ==> Erase(rs[j]) == v.vs[j]
    {
      var f := fields[i];
      RowReady(env, fields, m0, h.m, dst, rs, filled, {}, i);
      ghost var m1 := h.m;
      ghost var part;
      var k := Find(kvs, f.name);
      if k.Some? {
        part := Run(env, fl, h, Plus(dst, f.offset), f.ty, kvs[k.value].1, v.vs[i]);
      } else {
        assert f.ty.Opt?;
        part := Run(env, fl, h, Plus(dst, f.offset), f.ty, Null, v.vs[i]);
      }
      RowStep(env, fields, m0, m1, h.m, dst, rs, filled, {}, i, part, {});
      assert {} + Own(rs[i]) + {} == {};
      rs, filled := rs[i := part], filled + {i};
    }
    r := RRow(rs);
    RowBuilt(env, ty, m0, h.m, dst, rs, filled, {});
    assert EraseAll(rs) == v.vs;
  }

  /** The source looks a field's key up, and takes `null` for an absent option. */
  function FieldValue(val: Json, name: seq<byte>): Json {
    var k := Find(Entries(val), name);
    if k.Some? then Entries(val)[k.value].1 else Null
  }

  lemma {:induction false} StructParts(env: Cells, fl: Floats, ty: Ty, val: Json, v: Val)
    requires ty.Struct? && Binds(env, fl, ty, val, v)
    ensures v.VRow? && |v.vs| == |ty.fields|
    ensures forall i :: 0 <= i < |ty.fields| ==>
              && Binds(env, fl, ty.fields[i].ty, FieldValue(val, ty.fields[i].name), v.vs[i])
              && (Find(Entries(val), ty.fields[i].name).None? ==> ty.fields[i].ty.Opt?)
  {
    forall i | 0 <= i < |ty.fields|
      ensures Binds(env, fl, ty.fields[i].ty, FieldValue(val, ty.fields[i].name), v.vs[i])
      ensures Find(Entries(val), ty.fields[i].name).None? ==> ty.fields[i].ty.Opt?
    {}
  }

  lemma {:induction false} TupleParts(env: Cells, fl: Floats, ty: Ty, val: Json, v: Val)
    requires ty.Tuple? && Binds(env, fl, ty, val, v)
    ensures v.VRow? && val.Array? && |v.vs| == |ty.fields| <= |val.items|
    ensures forall i :: 0 <= i < |ty.fields| ==> Binds(env, fl, ty.fields[i].ty, val.items[i], v.vs[i])
  {}

  lemma {:induction false} StructSound(env: Cells, ty: Ty)
    requires (ty.Struct? || ty.Tuple?) && Sound(env, ty)
    ensures SoundRow(env, ty.fields)
  {}

  lemma {:induction false} RowReady(env: Cells, fields: seq<FieldTy>, m0: Mem, m: Mem, p: Ptr, rs: seq<Rep>,
                                    filled: set<nat>, lost: set<nat>, i: nat)
    requires RowState(env, fields, m0, m, p, rs, filled, lost) && i < |fields|
    requires SoundRow(env, fields) && Fits(m0, p, RowSize(env, fields))
    ensures Sound(env, fields[i].ty) && Fits(m, Plus(p, fields[i].offset), Size(env, fields[i].ty))
    ensures |rs| == |fields| && (i !in filled ==> Own(rs[i]) == {})
  {
    hide Holds, Fits, Wrote, SeparateAll, OwnAll, Sound;
    WroteFits(m0, m, p, RowSize(env, fields), p, RowSize(env, fields));
    FitsPart(m, p, RowSize(env, fields), fields[i].offset, Size(env, fields[i].ty));
  }

  method RunTuple(env: Cells, fl: Floats, h: Heap, dst: Ptr, ty: Ty, val: Json, ghost v: Val) returns (ghost r: Rep)
    requires ty.Tuple? && Ready(env, ty, h, dst) && Binds(env, fl, ty, val, v)
    modifies h
    ensures h.Valid() && Ran(env, ty, old(h.m), h.m, dst, v, r, {})
    decreases v, 2
  {
    hide Holds, Wrote, Built, Fits, Sound, Binds, SeparateAll, OwnAll, RowState, SoundRow, RowSize;
    ghost var m0, rs, filled: set<nat> := h.m, Blanks(|ty.fields|), {};
    var fields := ty.fields;
    StructSound(env, ty);
    TupleParts(env, fl, ty, val, v);
    RowStart(env, fields, m0, dst);
    for i := 0 to |fields|
      invariant h.Valid() && RowState(env, fields, m0, h.m, dst, rs, filled, {})
      invariant forall j: nat :: j in filled <==> j < i
      invariant |rs| == |fields| == |v.vs|
      invariant forall j :: 0 <= j < i ==> Erase(rs[j]) == v.vs[j]
    {
      var f := fields[i];
      RowReady(env, fields, m0, h.m, dst, rs, filled, {}, i);
      ghost var m1 := h.m;
      ghost var part := Run(env, fl, h, Plus(dst, f.offset), f.ty, val.items[i], v.vs[i]);
      RowStep(env, fields, m0, m1, h.m, dst, rs, filled, {}, i, part, {});
      assert {} + Own(rs[i]) + {} == {};
      rs, filled := rs[i := part], filled + {i};
    }
    r := RRow(rs);
    RowBuilt(env, ty, m0, h.m, dst, rs, filled, {});
    assert EraseAll(rs) == v.vs;
  }

  lemma {:induction false} VecParts(env: Cells, fl: Floats, ty: Ty, val: Json, v: Val)
    requires ty.Vec? && Sound(env, ty) && Binds(env, fl, ty, val, v)
    ensures val.Array? && v.VVec? && |v.vs| == |val.items|
    ensures 2 * (|val.items| * ty.elemSize) < Pow256(8) && 2 * |val.items| < Pow256(8)
    ensures forall i :: 0 <= i < |v.vs| ==> Binds(env, fl, ty.elem, val.items[i], v.vs[i])
  {
    hide Pow256, Niche;
    MulAtLeast(|val.items|, ty.elemSize);
  }

  method RunVec(env: Cells, fl: Floats, h: Heap, dst: Ptr, ty: Ty, val: Json, ghost v: Val) returns (ghost r: Rep)
    requires ty.Vec? && Ready(env, ty, h, dst) && Binds(env, fl, ty, val, v)
    modifies h
    ensures h.Valid() && Ran(env, ty, old(h.m), h.m, dst, v, r, {}) && r.RVec? && r.cap == |r.rs|
    decreases v, 2
  {
    hide Holds, Has, Wrote, Built, Fits, SeparateAll, OwnAll, VecState, Sound, Binds, Word, PtrCells, Pow256, Slot,
         Sized;
    VecParts(env, fl, ty, val, v);
    ghost var m0, rs: seq<Rep>, none: set<nat> := h.m, [], {};
    var items := val.items;
    var n := |items|;
    var q := h.Alloc(n * ty.elemSize, ty.elemAlign);
    VecStart(env, ty, m0, h.m, q, n, old(h.next));
    for i := 0 to n
      invariant h.Valid() && VecState(env, ty, m0, h.m, q, n, rs, {})
      invariant |rs| == i && n == |v.vs|
      invariant forall j :: 0 <= j < i ==> Erase(rs[j]) == v.vs[j]
    {
      ghost var m1 := h.m;
      SlotReady(env, ty, m0, m1, q, n, rs, {});
      ghost var part := Run(env, fl, h, Slot(q, i, ty.elemSize), ty.elem, items[i], v.vs[i]);
      VecStep(env, ty, m0, m1, h.m, q, n, rs, part, none, none);
      assert none + none == none;
      rs := rs + [part];
    }
    r := StoreVec(env, h, dst, ty, q, n, n, m0, rs, {});
    assert EraseAll(rs) == v.vs;
  }

  /** The three words of a vector whose buffer has been built. */
  method StoreVec(env: Cells, h: Heap, dst: Ptr, ty: Ty, q: Ptr, cap: nat, len: nat, ghost m0: Mem,
                  ghost rs: seq<Rep>, ghost lost: set<nat>)
    returns (ghost r: Rep)
    requires Sized(env) && ty.Vec? && Sound(env, ty) && h.Valid() && Fits(m0, dst, Size(env, ty))
    requires VecState(env, ty, m0, h.m, q, cap, rs, lost) && len == |rs| && 2 * cap < Pow256(8)
    modifies h
    ensures h.Valid() && r == RVec(q, cap, rs) && Built(env, ty, m0, h.m, dst, r, lost)
  {
    hide Holds, Has, Wrote, Built, Fits, VecState, Niche, Word, PtrCells, Pow256;
    ghost var m1 := h.m;
    VecFits(env, ty, m0, m1, q, cap, rs, lost, dst, SeqEnd(ty.words));
    StoreSeq(h, dst, ty.words, q, cap, len);
    VecBuilt(env, ty, m0, m1, h.m, dst, q, cap, rs, lost);
    r := RVec(q, cap, rs);
  }

  lemma {:induction false} VecStart(env: Cells, ty: Ty, m0: Mem, m: Mem, q: Ptr, cap: nat, b: nat)
    requires ty.Vec? && b !in m0
    requires if cap * ty.elemSize == 0 then q == Dangling(Max(ty.elemAlign, 1)) && m == m0
             else q == Into(b, 0) && m == m0[b := seq(cap * ty.elemSize, _ => Junk)]
    ensures VecState(env, ty, m0, m, q, cap, [], {})
  {
    OwnNothing([]);
  }

  lemma {:induction false} SlotReady(env: Cells, ty: Ty, m0: Mem, m: Mem, q: Ptr, cap: nat, rs: seq<Rep>,
                                     lost: set<nat>)
    requires ty.Vec? && Sound(env, ty) && VecState(env, ty, m0, m, q, cap, rs, lost) && |rs| < cap
    ensures Sound(env, ty.elem) && Fits(m, Slot(q, |rs|, ty.elemSize), Size(env, ty.elem))
  {
    hide Holds, SeparateAll, OwnAll, Niche;
    SlotFits(cap, |rs|, ty.elemSize, Size(env, ty.elem));
  }

  lemma {:induction false} VecFits(env: Cells, ty: Ty, m0: Mem, m: Mem, q: Ptr, cap: nat, rs: seq<Rep>,
                                   lost: set<nat>, p: Ptr, n: nat)
    requires ty.Vec? && VecState(env, ty, m0, m, q, cap, rs, lost) && Fits(m0, p, n)
    ensures Fits(m, p, n)
  {
    hide Holds;
  }

  lemma {:induction false} WrappedParts(env: Cells, fl: Floats, ty: Ty, val: Json, v: Val)
    requires (ty.Boxed? || ty.Opt?) && Binds(env, fl, ty, val, v)
    ensures if ty.Opt? && val.Null? then v == VNone
            else (if ty.Opt? then v.VSome? else v.VBox?) && Binds(env, fl, ty.inner, val, v.v)
  {}

  method RunBox(env: Cells, fl: Floats, h: Heap, dst: Ptr, ty: Ty, val: Json, ghost v: Val) returns (ghost r: Rep)
    requires ty.Boxed? && Ready(env, ty, h, dst) && Binds(env, fl, ty, val, v)
    modifies h
    ensures h.Valid() && Ran(env, ty, old(h.m), h.m, dst, v, r, {})
    decreases v, 2
  {
    hide Holds, Has, Wrote, Built, Binds, Niche, PtrCells, Sound, SoundCells, Fits, Block, Sized;
    BoxSound(env, ty);
    WrappedParts(env, fl, ty, val, v);
    ghost var m0 := h.m;
    var q := h.Alloc(ty.size, ty.align);
    ghost var m1 := h.m;
    BoxReady(m0, m1, q, ty.size, ty.align, old(h.next), Size(env, ty.inner));
    ghost var part := Run(env, fl, h, q, ty.inner, val, v.v);
    r := StoreBox(env, h, dst, ty, q, m0, m1, part, {});
  }

  /** The owning pointer to a payload that has been built. */
  method StoreBox(env: Cells, h: Heap, dst: Ptr, ty: Ty, q: Ptr, ghost m0: Mem, ghost m1: Mem, ghost part: Rep,
                  ghost lost: set<nat>)
    returns (ghost r: Rep)
    requires Sized(env) && ty.Boxed? && Size(env, ty.inner) <= ty.size && h.Valid() && Fits(m0, dst, 8)
    requires (forall b :: b in m0 ==> b in m1 && m1[b] == m0[b]) && Block(m1, q, ty.size, ty.align)
    requires m1.Keys == m0.Keys + (if q.Into? then {q.blk} else {}) && (q.Into? ==> q.blk !in m0)
    requires Built(env, ty.inner, m1, h.m, q, part, lost)
    modifies h
    ensures h.Valid() && r == RBox(q, part) && Built(env, ty, m0, h.m, dst, r, lost)
  {
    hide Holds, Has, Wrote, Built, PtrCells, Fits, Block, Sized;
    ghost var m2 := h.m;
    BuiltFits(env, ty.inner, m0, m1, m2, q, part, lost, dst, 8);
    StoreCells(h, dst, PtrCells(q));
    BoxBuilt(env, ty, m0, m1, m2, h.m, dst, q, part, lost);
    r := RBox(q, part);
  }

  lemma {:induction false} BoxSound(env: Cells, ty: Ty)
    requires ty.Boxed? && SoundCells(env) && Sound(env, ty)
    ensures Sized(env) && Sound(env, ty.inner) && Size(env, ty.inner) <= ty.size
  {}

  lemma {:induction false} BoxReady(m0: Mem, m: Mem, q: Ptr, size: nat, align: nat, b: nat, n: nat)
    requires b !in m0 && n <= size
    requires if size == 0 then q == Dangling(Max(align, 1)) && m == m0
             else q == Into(b, 0) && m == m0[b := seq(size, _ => Junk)]
    ensures (forall b :: b in m0 ==> b in m && m[b] == m0[b]) && Block(m, q, size, align)
    ensures m.Keys == m0.Keys + (if q.Into? then {q.blk} else {}) && (q.Into? ==> q.blk !in m0)
    ensures Fits(m, q, n)
  {}

  lemma {:induction false} BuiltFits(env: Cells, ty: Ty, m0: Mem, m1: Mem, m2: Mem, q: Ptr, r: Rep, lost: set<nat>,
                                     p: Ptr, n: nat)
    requires (forall b :: b in m0 ==> b in m1 && m1[b] == m0[b]) && Built(env, ty, m1, m2, q, r, lost) && Fits(m0, p, n)
    ensures Fits(m2, p, n)
  {
    hide Holds, Own, Separate;
  }

  /** `None`: zeros, then the discriminant. */
  method WriteNone(env: Cells, h: Heap, dst: Ptr, ty: Ty) returns (ghost r: Rep)
    requires ty.Opt? && Sound(env, ty) && h.Valid() && Fits(h.m, dst, Size(env, ty))
    modifies h
    ensures h.Valid() && r == RNone && Built(env, ty, old(h.m), h.m, dst, r, {}) && Has(h.m, dst, NoneCells(ty))
  {
    hide Holds, Has, Wrote, Built, Niche, Fits, LittleEndian, NoneCells;
    ghost var m0, n := h.m, Size(env, ty);
    FitsPart(m0, dst, n, 0, ty.size);
    PlusZero(dst);
    StoreCells(h, dst, Lits(Zeros(ty.size)));
    ghost var m1 := h.m;
    WroteFits(m0, m1, dst, ty.size, dst, n);
    FitsPart(m1, dst, n, ty.discOff, ty.discSize);
    StoreCells(h, Plus(dst, ty.discOff), Disc(ty.noneDiscr, ty.discSize));
    NoneBuilt(env, ty, m0, m1, h.m, dst);
    NoneFilled(ty, m1, h.m, dst);
    r := RNone;
  }

  method RunOpt(env: Cells, fl: Floats, h: Heap, dst: Ptr, ty: Ty, val: Json, ghost v: Val) returns (ghost r: Rep)
    requires ty.Opt? && Ready(env, ty, h, dst) && Binds(env, fl, ty, val, v)
    modifies h
    ensures h.Valid() && Ran(env, ty, old(h.m), h.m, dst, v, r, {})
    decreases v, 2
  {
    hide Holds, Has, Wrote, Built, Binds, Niche, Fits, LittleEndian;
    ghost var m0, n := h.m, Size(env, ty);
    WrappedParts(env, fl, ty, val, v);
    FitsPart(m0, dst, n, ty.payloadOff, Size(env, ty.inner));
    if val.Null? {
      r := WriteNone(env, h, dst, ty);
    } else {
      ghost var part := Run(env, fl, h, Plus(dst, ty.payloadOff), ty.inner, val, v.v);
      ghost var m1 := h.m;
      r := RSome(part);
      if ty.someDiscr.Some? {
        BuiltFits(env, ty.inner, m0, m0, m1, Plus(dst, ty.payloadOff), part, {}, dst, n);
        FitsPart(m1, dst, n, ty.discOff, ty.discSize);
        StoreCells(h, Plus(dst, ty.discOff), Disc(ty.someDiscr.value, ty.discSize));
        TaggedBuilt(env, ty, m0, m1, h.m, dst, part, {});
      } else {
        NicheBuilt(env, ty, m0, m1, dst, part, {});
      }
    }
  }
}
