/** How a value comes to lie in memory, one construction per kind of type. Both backends
    build values by these steps, in different orders. */
module Build {
  import opened Containers
  import opened Bytes
  import opened Plan
  import opened Utf8
  import opened Memory
  import opened Frames
  import opened Layout
  import opened Copy

  lemma {:induction false} WroteKeys(m: Mem, m': Mem, p: Ptr, n: nat)
    requires Wrote(m, m', p, n)
    ensures m.Keys <= m'.Keys
  {}

  /** Writing at `p` keeps a value that lies elsewhere, in blocks of its own. */
  lemma {:induction false} HoldsKept(env: Cells, ty: Ty, m: Mem, m': Mem, p: Ptr, n: nat, q: Ptr, r: Rep)
    requires Sized(env) && Wrote(m, m', p, n) && Holds(env, ty, m, q, r)
    requires Fits(m, q, Size(env, ty)) && Apart(p, n, q, Size(env, ty))
    requires n > 0 && p.Into? ==> p.blk !in Own(r)
    ensures Holds(env, ty, m', q, r)
  {
    hide Holds, Wrote, Fits, SameRange, SameBlocks;
    WroteElsewhere(m, m', p, n, q, Size(env, ty));
    WroteOwn(m, m', p, n, Own(r));
    HoldsMoves(env, ty, m, q, m', q, r);
  }

  lemma {:induction false} HasKept(m: Mem, m': Mem, p: Ptr, n: nat, q: Ptr, cs: seq<Cell>)
    requires Wrote(m, m', p, n) && Has(m, q, cs) && Apart(p, n, q, |cs|)
    ensures Has(m', q, cs)
  {
    WroteElsewhere(m, m', p, n, q, |cs|);
    HasMoves(m, q, m', q, cs);
  }

  // ---- Three words ------------------------------------------------------------------

  /** `write_seq`, and the three stores the compiled parser ends a sequence with. */
  method StoreSeq(h: Heap, dst: Ptr, w: SeqLayout, q: Ptr, cap: nat, len: nat)
    requires h.Valid() && WordsClear(w) && Fits(h.m, dst, SeqEnd(w))
    modifies h
    ensures h.Valid() && h.m.Keys == old(h.m).Keys && h.next == old(h.next)
    ensures Wrote(old(h.m), h.m, dst, SeqEnd(w))
    ensures Has(h.m, Plus(dst, w.ptrOff), PtrCells(q))
    ensures Has(h.m, Plus(dst, w.capOff), Word(cap)) && Has(h.m, Plus(dst, w.lenOff), Word(len))
  {
    hide Wrote, Has, Fits, Word, PtrCells, Plus, Apart;
    ghost var n := SeqEnd(w);
    StoreAt(h, dst, n, w.ptrOff, PtrCells(q));
    ghost var m1 := h.m;
    StoreAt(h, dst, n, w.capOff, Word(cap));
    ghost var m2 := h.m;
    WroteTwice(old(h.m), m1, m2, dst, n);
    PartKept(m1, m2, dst, w.capOff, 8, w.ptrOff, PtrCells(q));
    StoreAt(h, dst, n, w.lenOff, Word(len));
    WroteTwice(old(h.m), m2, h.m, dst, n);
    PartKept(m2, h.m, dst, w.lenOff, 8, w.ptrOff, PtrCells(q));
    PartKept(m2, h.m, dst, w.lenOff, 8, w.capOff, Word(cap));
  }

  method StoreAt(h: Heap, dst: Ptr, ghost n: nat, off: nat, cs: seq<Cell>)
    requires h.Valid() && Fits(h.m, dst, n) && off + |cs| <= n
    modifies h
    ensures h.Valid() && h.m.Keys == old(h.m).Keys && h.next == old(h.next) && Fits(h.m, dst, n)
    ensures Has(h.m, Plus(dst, off), cs) && Wrote(old(h.m), h.m, dst, n)
    ensures Wrote(old(h.m), h.m, Plus(dst, off), |cs|)
  {
    hide Wrote, Has, Fits;
    FitsPart(h.m, dst, n, off, |cs|);
    StoreCells(h, Plus(dst, off), cs);
    WroteWider(old(h.m), h.m, dst, off, |cs|, n);
    WroteFits(old(h.m), h.m, dst, n, dst, n);
  }

  lemma {:induction false} PartKept(m: Mem, m': Mem, p: Ptr, d: nat, n: nat, e: nat, cs: seq<Cell>)
    requires Wrote(m, m', Plus(p, d), n) && Has(m, Plus(p, e), cs) && Clear(d, n, e, |cs|)
    ensures Has(m', Plus(p, e), cs)
  {
    HasKept(m, m', Plus(p, d), n, Plus(p, e), cs);
  }

  // ---- Strings ------------------------------------------------------------------

  /** A text in a block of its own, and nothing else changed. */
  ghost predicate TextBuilt(m: Mem, m': Mem, q: Ptr, s: seq<byte>) {
    && HoldsText(m', q, s)
    && (forall b :: b in m ==> b in m' && m'[b] == m[b])
    && m'.Keys - m.Keys == (if q.Into? then {q.blk} else {})
    && m.Keys <= m'.Keys
  }

  lemma {:induction false} TextKept(m: Mem, m': Mem, p: Ptr, n: nat, q: Ptr, s: seq<byte>)
    requires Wrote(m, m', p, n) && HoldsText(m, q, s) && (n > 0 && p.Into? && q.Into? ==> p.blk != q.blk)
    ensures HoldsText(m', q, s)
  {
    hide HoldsText;
    WroteOwn(m, m', p, n, if q.Into? then {q.blk} else {});
    TextStays(m, m', q, s);
  }

  lemma {:induction false} QuietAlloc(m: Mem, m': Mem, p: Ptr, n: nat)
    requires forall b :: b in m ==> b in m' && m'[b] == m[b]
    ensures Wrote(m, m', p, n)
  {}

  lemma {:induction false} StrBuilt(env: Cells, w: SeqLayout, m: Mem, m': Mem, m'': Mem, p: Ptr, q: Ptr, s: seq<byte>)
    requires TextBuilt(m, m', q, s) && Fits(m, p, SeqEnd(w)) && Wrote(m', m'', p, SeqEnd(w)) && m''.Keys == m'.Keys
    requires Has(m'', Plus(p, w.ptrOff), PtrCells(q))
    requires Has(m'', Plus(p, w.capOff), Word(|s|)) && Has(m'', Plus(p, w.lenOff), Word(|s|))
    ensures Built(env, Str(w), m, m'', p, RStr(q, s), {})
  {
    hide Has, HoldsText, PtrCells, Word, Wrote;
    QuietAlloc(m, m', p, SeqEnd(w));
    WroteTwice(m, m', m'', p, SeqEnd(w));
    TextKept(m', m'', p, SeqEnd(w), q, s);
  }

  lemma {:induction false} StrRefBuilt(env: Cells, ty: Ty, m: Mem, m': Mem, m'': Mem, p: Ptr, q: Ptr, s: seq<byte>)
    requires ty.StrRef?
    requires TextBuilt(m, m', q, s) && Fits(m, p, Size(env, ty))
    requires Wrote(m', m'', p, Size(env, ty)) && m''.Keys == m'.Keys
    requires Has(m'', Plus(p, ty.ptrOff), PtrCells(q)) && Has(m'', Plus(p, ty.lenOff), Word(|s|))
    ensures Built(env, ty, m, m'', p, RStr(q, s), {})
  {
    hide Has, HoldsText, PtrCells, Word, Wrote;
    var n := Size(env, ty);
    QuietAlloc(m, m', p, n);
    WroteTwice(m, m', m'', p, n);
    TextKept(m', m'', p, n, q, s);
  }

  /** A fresh block, filled. */
  lemma {:induction false} TextMade(m0: Mem, m1: Mem, m2: Mem, q: Ptr, b: nat, s: seq<byte>)
    requires b !in m0 && 2 * |s| < Pow256(8)
    requires if s == [] then q == Dangling(1) && m1 == m0
             else q == Into(b, 0) && m1 == m0[b := seq(|s|, _ => Junk)]
    requires Has(m2, q, Lits(s)) && Wrote(m1, m2, q, |s|) && m2.Keys == m1.Keys
    ensures TextBuilt(m0, m2, q, s)
  {
    hide Has, Pow256;
    WroteOwn(m1, m2, q, |s|, m0.Keys);
  }

  // ---- Numbers ------------------------------------------------------------------

  /** The width of a type that is one number in memory. */
  function Width(ty: Ty): nat {
    match ty
    case Char => 4
    case U(n) => n
    case I(n) => n
    case F32 => 4
    case F64 => 8
    case _ => 0
  }

  lemma {:induction false} NumBuilt(env: Cells, ty: Ty, m: Mem, m': Mem, p: Ptr, x: nat)
    requires Width(ty) > 0 && x < Pow256(Width(ty)) && (ty.Char? ==> IsScalar(x))
    requires Has(m', p, Lits(LittleEndian(x, Width(ty)))) && Wrote(m, m', p, Width(ty)) && m'.Keys == m.Keys
    ensures Built(env, ty, m, m', p, RNum(x), {})
  {
    hide Has, Wrote, LittleEndian, Pow256;
  }

  lemma {:induction false} BoolBuilt(env: Cells, m: Mem, m': Mem, p: Ptr, b: bool)
    requires Has(m', p, Lits([if b then 1 else 0])) && Wrote(m, m', p, 1) && m'.Keys == m.Keys
    ensures Built(env, Bool, m, m', p, RBool(b), {})
  {
    hide Has, Wrote;
  }

  lemma {:induction false} UnitBuilt(env: Cells, m: Mem, p: Ptr)
    ensures Built(env, Unit, m, m, p, RUnit, {})
  {}

  lemma {:induction false} RefBuilt(env: Cells, c: nat, m: Mem, m': Mem, p: Ptr, r: Rep, lost: set<nat>)
    requires SoundCells(env) && c in env && Built(env, env[c].ty, m, m', p, r, lost)
    ensures Built(env, Ref(c), m, m', p, r, lost)
  {
    hide Wrote, Separate, Own, Sound;
    WroteMore(m, m', p, Size(env, env[c].ty), env[c].size);
  }

  // ---- Rows ------------------------------------------------------------------

  /** A row under construction: the fields in `filled` are in place, and the blocks `lost`
      belong to values that were overwritten. */
  ghost predicate RowState(env: Cells, fields: seq<FieldTy>, m0: Mem, m: Mem, p: Ptr, rs: seq<Rep>, filled: set<nat>,
                           lost: set<nat>)
  {
    && |rs| == |fields|
    && Wrote(m0, m, p, RowSize(env, fields))
    && (forall j :: j in filled ==> j < |fields| && Holds(env, fields[j].ty, m, Plus(p, fields[j].offset), rs[j]))
    && (forall j :: 0 <= j < |fields| && j !in filled ==> rs[j] == RUnit)
    && OwnAll(rs) + lost == m.Keys - m0.Keys && OwnAll(rs) !! lost && SeparateAll(rs)
  }

  function Blanks(n: nat): seq<Rep> { seq(n, _ => RUnit) }

  lemma {:induction false} RowStart(env: Cells, fields: seq<FieldTy>, m: Mem, p: Ptr)
    ensures RowState(env, fields, m, m, p, Blanks(|fields|), {}, {})
  {
    var rs := Blanks(|fields|);
    forall b ensures b !in OwnAll(rs) {
      OwnAllMember(rs, b);
    }
    assert OwnAll(rs) == {};
  }

  lemma {:induction false} RowStep(env: Cells, fields: seq<FieldTy>, m0: Mem, m: Mem, m': Mem, p: Ptr, rs: seq<Rep>,
                                   filled: set<nat>, lost: set<nat>, i: nat, r: Rep, lost': set<nat>)
    requires Sized(env) && SoundRow(env, fields) && i < |fields|
    requires Fits(m0, p, RowSize(env, fields)) && RowState(env, fields, m0, m, p, rs, filled, lost)
    requires Built(env, fields[i].ty, m, m', Plus(p, fields[i].offset), r, lost')
    ensures RowState(env, fields, m0, m', p, rs[i := r], filled + {i}, lost + Own(rs[i]) + lost')
  {
    hide Holds, Wrote, Fits, Separate, SeparateAll, Own, OwnAll, Apart, Sound;
    var n := RowSize(env, fields);
    var q, k := Plus(p, fields[i].offset), Size(env, fields[i].ty);
    WroteWider(m, m', p, fields[i].offset, k, n);
    WroteTwice(m0, m, m', p, n);
    WroteKeys(m0, m, p, n);
    WroteKeys(m, m', q, k);
    WroteFits(m0, m, p, n, p, n);
    OwnAllReplace(rs, i, r);
    SeparateUpdate(rs, i, r);
    assert Own(rs[i]) <= OwnAll(rs);
    NewBlocks(m0.Keys, m.Keys, m'.Keys, OwnAll(rs), lost, Own(rs[i]), Own(r), lost');
    forall j | j in filled + {i}
      ensures j < |fields| && Holds(env, fields[j].ty, m', Plus(p, fields[j].offset), rs[i := r][j])
    {
      if j != i {
        FieldKept(env, fields, m0, m, m', p, rs, i, j);
      }
    }
  }

  /** Every new block is owned or lost: the replaced part's blocks go from one to the other. */
  lemma {:induction false} NewBlocks(k0: set<nat>, k: set<nat>, k': set<nat>, own: set<nat>, lost: set<nat>,
                                     out: set<nat>, part: set<nat>, lost': set<nat>)
    requires k0 <= k <= k' && own + lost == k - k0 && own !! lost && out <= own
    requires part + lost' == k' - k && part !! lost'
    ensures (own - out + part) + (lost + out + lost') == k' - k0
    ensures (own - out + part) !! (lost + out + lost')
  {}

  lemma {:induction false} FieldKept(env: Cells, fields: seq<FieldTy>, m0: Mem, m: Mem, m': Mem, p: Ptr, rs: seq<Rep>,
                                     i: nat, j: nat)
    requires Sized(env) && SoundRow(env, fields) && i < |fields| && j < |fields| && i != j && |rs| == |fields|
    requires Fits(m, p, RowSize(env, fields)) && Fits(m0, p, RowSize(env, fields))
    requires OwnAll(rs) <= m.Keys - m0.Keys
    requires Wrote(m, m', Plus(p, fields[i].offset), Size(env, fields[i].ty))
    requires Holds(env, fields[j].ty, m, Plus(p, fields[j].offset), rs[j])
    ensures Holds(env, fields[j].ty, m', Plus(p, fields[j].offset), rs[j])
  {
    hide Holds, Wrote, Own, OwnAll, Sound;
    var f, g := fields[i], fields[j];
    assert Clear(f.offset, Size(env, f.ty), g.offset, Size(env, g.ty));
    FitsPart(m, p, RowSize(env, fields), g.offset, Size(env, g.ty));
    assert Own(rs[j]) <= OwnAll(rs);
    HoldsKept(env, g.ty, m, m', Plus(p, f.offset), Size(env, f.ty), Plus(p, g.offset), rs[j]);
  }

  lemma {:induction false} RowBuilt(env: Cells, ty: Ty, m0: Mem, m: Mem, p: Ptr, rs: seq<Rep>, filled: set<nat>,
                                    lost: set<nat>)
    requires ty.Struct? || ty.Tuple?
    requires RowState(env, ty.fields, m0, m, p, rs, filled, lost)
    requires forall i :: 0 <= i < |ty.fields| ==> i in filled
    ensures Built(env, ty, m0, m, p, RRow(rs), lost)
  {
    hide Wrote, SeparateAll, OwnAll, Holds;
    forall i | 0 <= i < |ty.fields|
      ensures Holds(env, ty.fields[i].ty, m, Plus(p, ty.fields[i].offset), rs[i])
    {
      assert i in filled;
    }
    RowHeld(env, ty, m, p, rs);
  }

  lemma {:induction false} RowHeld(env: Cells, ty: Ty, m: Mem, p: Ptr, rs: seq<Rep>)
    requires (ty.Struct? || ty.Tuple?) && |rs| == |ty.fields|
    requires forall i :: 0 <= i < |rs| ==> Holds(env, ty.fields[i].ty, m, Plus(p, ty.fields[i].offset), rs[i])
    ensures Holds(env, ty, m, p, RRow(rs))
  {}

  // ---- Vectors ------------------------------------------------------------------

  /** A vector's buffer under construction, apart from everything that was there. */
  ghost predicate VecState(env: Cells, ty: Ty, m0: Mem, m: Mem, q: Ptr, cap: nat, rs: seq<Rep>, lost: set<nat>)
    requires ty.Vec?
  {
    && (forall b :: b in m0 ==> b in m && m[b] == m0[b])
    && Block(m, q, cap * ty.elemSize, ty.elemAlign) && (q.Into? ==> q.blk !in m0)
    && |rs| <= cap
    && (forall i :: 0 <= i < |rs| ==> Holds(env, ty.elem, m, Slot(q, i, ty.elemSize), rs[i]))
    && m.Keys - m0.Keys == (if q.Into? then {q.blk} else {}) + OwnAll(rs) + lost
    && OwnAll(rs) !! lost && SeparateAll(rs) && (q.Into? ==> q.blk !in OwnAll(rs) + lost)
  }

  lemma {:induction false} SlotFits(cap: nat, i: nat, size: nat, need: nat)
    requires i < cap && need <= size
    ensures i * size + need <= cap * size
  {
    MulMonotone(i + 1, cap, size);
  }

  lemma {:induction false} VecStep(env: Cells, ty: Ty, m0: Mem, m: Mem, m': Mem, q: Ptr, cap: nat, rs: seq<Rep>,
                                   r: Rep, lost: set<nat>, lost': set<nat>)
    requires Sized(env) && ty.Vec? && Sound(env, ty) && VecState(env, ty, m0, m, q, cap, rs, lost) && |rs| < cap
    requires Built(env, ty.elem, m, m', Slot(q, |rs|, ty.elemSize), r, lost')
    ensures VecState(env, ty, m0, m', q, cap, rs + [r], lost + lost')
  {
    hide Holds, Wrote, Separate, SeparateAll, Own, OwnAll, Slot, Niche;
    var p, n := Slot(q, |rs|, ty.elemSize), Size(env, ty.elem);
    WroteKeys(m, m', p, n);
    VecBlockGrown(m0, m, m', q, cap, |rs|, ty, n);
    OwnAllAppend(rs, r);
    SeparateAppend(rs, r);
    forall i | 0 <= i < |rs + [r]|
      ensures Holds(env, ty.elem, m', Slot(q, i, ty.elemSize), (rs + [r])[i])
    {
      if i < |rs| {
        ElementKept(env, ty, m, m', q, cap, rs, i);
      }
    }
  }

  lemma {:induction false} VecBlockGrown(m0: Mem, m: Mem, m': Mem, q: Ptr, cap: nat, i: nat, ty: Ty, n: nat)
    requires ty.Vec? && 0 < ty.elemSize && i < cap && n <= ty.elemSize
    requires Wrote(m, m', Slot(q, i, ty.elemSize), n)
    requires Block(m, q, cap * ty.elemSize, ty.elemAlign) && (q.Into? ==> q.blk !in m0)
    requires forall b :: b in m0 ==> b in m && m[b] == m0[b]
    ensures q.Into? && Block(m', q, cap * ty.elemSize, ty.elemAlign)
    ensures forall b :: b in m0 ==> b in m' && m'[b] == m0[b]
  {
    MulMonotone(1, cap, ty.elemSize);
    WroteOwn(m, m', Slot(q, i, ty.elemSize), n, m0.Keys);
  }

  lemma {:induction false} ElementKept(env: Cells, ty: Ty, m: Mem, m': Mem, q: Ptr, cap: nat, rs: seq<Rep>, i: nat)
    requires Sized(env) && ty.Vec? && Size(env, ty.elem) <= ty.elemSize && i < |rs| < cap
    requires q.Into? && Block(m, q, cap * ty.elemSize, ty.elemAlign) && q.blk !in OwnAll(rs)
    requires Wrote(m, m', Slot(q, |rs|, ty.elemSize), Size(env, ty.elem))
    requires Holds(env, ty.elem, m, Slot(q, i, ty.elemSize), rs[i])
    ensures Holds(env, ty.elem, m', Slot(q, i, ty.elemSize), rs[i])
  {
    hide Holds, Wrote, Own, OwnAll;
    var n := Size(env, ty.elem);
    SlotFits(|rs|, i, ty.elemSize, n);
    SlotFits(cap, i, ty.elemSize, n);
    assert Own(rs[i]) <= OwnAll(rs);
    assert q.blk in m && i * ty.elemSize + n <= |m[q.blk]| by { MulMonotone(1, cap, ty.elemSize); }
    HoldsKept(env, ty.elem, m, m', Slot(q, |rs|, ty.elemSize), n, Slot(q, i, ty.elemSize), rs[i]);
  }

  lemma {:induction false} OwnNothing(rs: seq<Rep>)
    requires rs == []
    ensures OwnAll(rs) == {}
  {}

  /** What the growth block needs of the state to move the buffer. */
  lemma {:induction false} GrowReady(env: Cells, ty: Ty, m0: Mem, m: Mem, q: Ptr, cap: nat, cap': nat, rs: seq<Rep>,
                                     lost: set<nat>)
    requires ty.Vec? && Sound(env, ty) && VecState(env, ty, m0, m, q, cap, rs, lost) && cap < cap'
    ensures cap * ty.elemSize <= cap' * ty.elemSize && 0 < cap' * ty.elemSize
    ensures cap * ty.elemSize > 0 ==> q.Into? && q.off == 0 && q.blk in m && |m[q.blk]| == cap * ty.elemSize
  {
    MulMonotone(cap, cap', ty.elemSize);
    MulMonotone(1, cap', ty.elemSize);
  }

  /** Moving the buffer moves the elements; what they own stays where it is. */
  lemma {:induction false} VecGrow(env: Cells, ty: Ty, m0: Mem, m: Mem, m': Mem, q: Ptr, cap: nat, cap': nat,
                                   rs: seq<Rep>, lost: set<nat>, b: nat)
    requires Sized(env) && ty.Vec? && Sound(env, ty) && VecState(env, ty, m0, m, q, cap, rs, lost)
    requires b !in m && cap < cap' && b in m' && |m'[b]| == cap' * ty.elemSize
    requires cap * ty.elemSize > 0 ==> q.Into? && q.blk in m && cap <= cap' && cap * ty.elemSize <= cap' * ty.elemSize
                                       && m'[b][..cap * ty.elemSize] == m[q.blk] && q.blk !in m'
    requires forall c :: c in m && !(cap * ty.elemSize > 0 && c == q.blk) ==> c in m' && m'[c] == m[c]
    requires forall c :: c in m' ==> c == b || c in m
    ensures VecState(env, ty, m0, m', Into(b, 0), cap', rs, lost)
  {
    hide Holds, Separate, SeparateAll, Own, OwnAll, Niche;
    MulMonotone(1, cap', ty.elemSize);
    if cap == 0 {
      assert m'.Keys == m.Keys + {b};
      OwnNothing(rs);
    } else {
      MulMonotone(1, cap, ty.elemSize);
      assert m'.Keys == m.Keys - {q.blk} + {b};
      assert OwnAll(rs) <= m.Keys;
      forall i | 0 <= i < |rs| ensures Holds(env, ty.elem, m', Slot(Into(b, 0), i, ty.elemSize), rs[i]) {
        ElementMoved(env, ty, m, m', q, cap, rs, i, b);
      }
    }
  }

  lemma {:induction false} ElementMoved(env: Cells, ty: Ty, m: Mem, m': Mem, q: Ptr, cap: nat, rs: seq<Rep>, i: nat,
                                        b: nat)
    requires Sized(env) && ty.Vec? && Size(env, ty.elem) <= ty.elemSize && i < |rs| <= cap
    requires q.Into? && q.off == 0 && q.blk in m && b in m' && cap * ty.elemSize == |m[q.blk]| <= |m'[b]|
    requires m'[b][..|m[q.blk]|] == m[q.blk]
    requires q.blk !in OwnAll(rs) && b !in OwnAll(rs)
    requires forall c :: c in m && c != q.blk && c != b ==> c in m' && m'[c] == m[c]
    requires Holds(env, ty.elem, m, Slot(q, i, ty.elemSize), rs[i])
    ensures Holds(env, ty.elem, m', Slot(Into(b, 0), i, ty.elemSize), rs[i])
  {
    hide Holds, Own, OwnAll;
    var n, p, p' := Size(env, ty.elem), Slot(q, i, ty.elemSize), Slot(Into(b, 0), i, ty.elemSize);
    SlotFits(cap, i, ty.elemSize, n);
    assert Own(rs[i]) <= OwnAll(rs);
    forall k: nat | k < n ensures SameCell(m, p, m', p', k) {
      assert m'[b][i * ty.elemSize + k] == m'[b][..|m[q.blk]|][i * ty.elemSize + k];
    }
    HoldsMoves(env, ty.elem, m, p, m', p', rs[i]);
  }

  lemma {:induction false} VecBuilt(env: Cells, ty: Ty, m0: Mem, m: Mem, m': Mem, p: Ptr, q: Ptr, cap: nat,
                                    rs: seq<Rep>, lost: set<nat>)
    requires Sized(env) && ty.Vec? && Sound(env, ty) && VecState(env, ty, m0, m, q, cap, rs, lost)
    requires 2 * cap < Pow256(8)
    requires Fits(m0, p, Size(env, ty)) && Wrote(m, m', p, Size(env, ty)) && m'.Keys == m.Keys
    requires Has(m', Plus(p, ty.words.ptrOff), PtrCells(q))
    requires Has(m', Plus(p, ty.words.capOff), Word(cap)) && Has(m', Plus(p, ty.words.lenOff), Word(|rs|))
    ensures Built(env, ty, m0, m', p, RVec(q, cap, rs), lost)
  {
    hide Has, PtrCells, Word, Wrote, SeparateAll, Slot, OwnAll, Niche;
    var n := Size(env, ty);
    QuietAlloc(m0, m, p, n);
    WroteTwice(m0, m, m', p, n);
    VecKept(env, ty, m0, m, m', p, n, q, cap, rs, lost);
  }

  lemma {:induction false} VecKept(env: Cells, ty: Ty, m0: Mem, m: Mem, m': Mem, p: Ptr, n: nat, q: Ptr, cap: nat,
                                   rs: seq<Rep>, lost: set<nat>)
    requires Sized(env) && ty.Vec? && Size(env, ty.elem) <= ty.elemSize && VecState(env, ty, m0, m, q, cap, rs, lost)
    requires Fits(m0, p, n) && Wrote(m, m', p, n)
    ensures Block(m', q, cap * ty.elemSize, ty.elemAlign)
    ensures forall i :: 0 <= i < |rs| ==> Holds(env, ty.elem, m', Slot(q, i, ty.elemSize), rs[i])
  {
    hide Holds, Own, OwnAll, Separate, SeparateAll;
    WroteOwn(m, m', p, n, m.Keys - m0.Keys);
    forall i | 0 <= i < |rs| ensures Holds(env, ty.elem, m', Slot(q, i, ty.elemSize), rs[i]) {
      assert Own(rs[i]) <= OwnAll(rs);
      MulMonotone(1, cap, ty.elemSize);
      BlockStays(m, m', q, i * ty.elemSize, Size(env, ty.elem));
      HoldsMoves(env, ty.elem, m, Slot(q, i, ty.elemSize), m', Slot(q, i, ty.elemSize), rs[i]);
    }
  }

  // ---- Boxes and options ------------------------------------------------------------

  lemma {:induction false} BoxBuilt(env: Cells, ty: Ty, m0: Mem, m1: Mem, m2: Mem, m3: Mem, p: Ptr, q: Ptr, r: Rep,
                                    lost: set<nat>)
    requires Sized(env) && ty.Boxed? && Size(env, ty.inner) <= ty.size && Fits(m0, p, 8)
    requires (forall b :: b in m0 ==> b in m1 && m1[b] == m0[b]) && Block(m1, q, ty.size, ty.align)
    requires m1.Keys == m0.Keys + (if q.Into? then {q.blk} else {}) && (q.Into? ==> q.blk !in m0)
    requires Built(env, ty.inner, m1, m2, q, r, lost)
    requires Has(m3, p, PtrCells(q)) && Wrote(m2, m3, p, 8) && m3.Keys == m2.Keys
    ensures Built(env, ty, m0, m3, p, RBox(q, r), lost)
  {
    hide Has, PtrCells, Holds, Wrote, Fits;
    var n := Size(env, ty.inner);
    BoxApart(m0, m1, m2, m3, p, q, ty.size, ty.align, n, r);
    HoldsKept(env, ty.inner, m2, m3, p, 8, q, r);
    BoxHeld(env, ty, m3, p, q, r);
  }

  lemma {:induction false} BoxHeld(env: Cells, ty: Ty, m: Mem, p: Ptr, q: Ptr, r: Rep)
    requires ty.Boxed? && Block(m, q, ty.size, ty.align)
    requires Has(m, p, PtrCells(q)) && Holds(env, ty.inner, m, q, r)
    ensures Holds(env, ty, m, p, RBox(q, r))
  {}

  lemma {:induction false} BoxApart(m0: Mem, m1: Mem, m2: Mem, m3: Mem, p: Ptr, q: Ptr, size: nat, align: nat, n: nat,
                                    r: Rep)
    requires n <= size && Fits(m0, p, 8) && Block(m1, q, size, align)
    requires (forall b :: b in m0 ==> b in m1 && m1[b] == m0[b])
    requires m1.Keys == m0.Keys + (if q.Into? then {q.blk} else {}) && (q.Into? ==> q.blk !in m0)
    requires Wrote(m1, m2, q, n) && Own(r) <= m2.Keys - m1.Keys && Wrote(m2, m3, p, 8)
    ensures Block(m3, q, size, align) && Fits(m2, q, n) && Apart(p, 8, q, n) && Wrote(m0, m3, p, 8)
    ensures m0.Keys <= m1.Keys <= m2.Keys && (p.Into? ==> p.blk !in Own(r)) && (q.Into? ==> q.blk !in Own(r))
  {
    hide Own;
    forall b | b in m0 ensures m2[b] == m0[b] {
      assert forall i :: 0 <= i < |m1[b]| ==> m2[b][i] == m1[b][i];
    }
    QuietAlloc(m0, m2, p, 8);
    WroteTwice(m0, m2, m3, p, 8);
  }

  lemma {:induction false} NoneBuilt(env: Cells, ty: Ty, m: Mem, m': Mem, m'': Mem, p: Ptr)
    requires ty.Opt? && ty.discOff + ty.discSize <= ty.size
    requires Wrote(m, m', p, ty.size) && m'.Keys == m.Keys
    requires Wrote(m', m'', Plus(p, ty.discOff), ty.discSize) && m''.Keys == m'.Keys
    requires Has(m'', Plus(p, ty.discOff), Disc(ty.noneDiscr, ty.discSize))
    ensures Built(env, ty, m, m'', p, RNone, {})
  {
    hide Has, Wrote, Disc, Niche;
    var n := Size(env, ty);
    WroteMore(m, m', p, ty.size, n);
    WroteWider(m', m'', p, ty.discOff, ty.discSize, n);
    WroteTwice(m, m', m'', p, n);
  }

  /** `None` as both backends write it: zeros but for the discriminant. */
  function NoneCells(ty: Ty): (cs: seq<Cell>)
    requires ty.Opt? && ty.discOff + ty.discSize <= ty.size
    ensures |cs| == ty.size
  {
    Lits(Zeros(ty.discOff)) + Disc(ty.noneDiscr, ty.discSize) + Lits(Zeros(ty.size - ty.discOff - ty.discSize))
  }

  lemma {:induction false} NoneFilled(ty: Ty, m: Mem, m': Mem, p: Ptr)
    requires ty.Opt? && ty.discOff + ty.discSize <= ty.size && Has(m, p, Lits(Zeros(ty.size)))
    requires Wrote(m, m', Plus(p, ty.discOff), ty.discSize)
    requires Has(m', Plus(p, ty.discOff), Disc(ty.noneDiscr, ty.discSize))
    ensures Has(m', p, NoneCells(ty))
  {
    hide Wrote, Disc;
    var q := Plus(p, ty.discOff);
    WroteFits(m, m', q, ty.discSize, p, ty.size);
    forall k | 0 <= k < ty.size ensures CellAt(m', p, k) == NoneCells(ty)[k] {
      if ty.discOff <= k < ty.discOff + ty.discSize {
        HasAt(m', q, Disc(ty.noneDiscr, ty.discSize), k - ty.discOff);
        assert Fits(m', p, k + 1) && Fits(m', q, k - ty.discOff + 1);
      } else {
        HasAt(m, p, Lits(Zeros(ty.size)), k);
        CellKept(m, m', q, ty.discSize, p, k);
      }
    }
  }

  lemma {:induction false} WroteMore(m: Mem, m': Mem, p: Ptr, k: nat, n: nat)
    requires Wrote(m, m', p, k) && k <= n
    ensures Wrote(m, m', p, n)
  {}

  /** A niche needs no tag: the payload's own bytes already differ from `None`'s. */
  lemma {:induction false} NicheBuilt(env: Cells, ty: Ty, m: Mem, m': Mem, p: Ptr, r: Rep, lost: set<nat>)
    requires ty.Opt? && ty.someDiscr.None? && Sound(env, ty)
    requires Built(env, ty.inner, m, m', Plus(p, ty.payloadOff), r, lost)
    ensures Built(env, ty, m, m', p, RSome(r), lost)
  {
    hide Has, Wrote, Disc, Plus, Holds, Niche;
    WroteWider(m, m', p, ty.payloadOff, Size(env, ty.inner), Size(env, ty));
    NicheApplies(env, ty, m', p, r);
    SomeHeld(env, ty, m', p, r);
  }

  lemma {:induction false} NicheApplies(env: Cells, ty: Ty, m: Mem, p: Ptr, r: Rep)
    requires ty.Opt? && Niche(env, ty.inner, ty.payloadOff, ty.discOff, ty.discSize, ty.noneDiscr)
    requires Holds(env, ty.inner, m, Plus(p, ty.payloadOff), r)
    ensures !Has(m, Plus(p, ty.discOff), Disc(ty.noneDiscr, ty.discSize))
  {
    hide Has, Holds, Disc, Plus;
  }

  lemma {:induction false} TaggedBuilt(env: Cells, ty: Ty, m: Mem, m': Mem, m'': Mem, p: Ptr, r: Rep, lost: set<nat>)
    requires Sized(env) && ty.Opt? && ty.someDiscr.Some? && Sound(env, ty) && Fits(m, p, Size(env, ty))
    requires Built(env, ty.inner, m, m', Plus(p, ty.payloadOff), r, lost)
    requires Wrote(m', m'', Plus(p, ty.discOff), ty.discSize) && m''.Keys == m'.Keys
    requires Has(m'', Plus(p, ty.discOff), Disc(ty.someDiscr.value, ty.discSize))
    ensures Built(env, ty, m, m'', p, RSome(r), lost)
  {
    hide Has, Wrote, Holds, LittleEndian, Fits, Niche;
    var n, k := Size(env, ty), Size(env, ty.inner);
    var q, d := Plus(p, ty.payloadOff), Plus(p, ty.discOff);
    WroteWider(m, m', p, ty.payloadOff, k, n);
    WroteWider(m', m'', p, ty.discOff, ty.discSize, n);
    WroteTwice(m, m', m'', p, n);
    WroteFits(m, m', p, n, p, n);
    FitsPart(m', p, n, ty.payloadOff, k);
    FitsInto(m, p, n);
    HoldsKept(env, ty.inner, m', m'', d, ty.discSize, q, r);
    LitsDiffer(m'', d, LittleEndian(ty.someDiscr.value, ty.discSize), LittleEndian(ty.noneDiscr, ty.discSize));
    SomeHeld(env, ty, m'', p, r);
  }

  lemma {:induction false} FitsInto(m: Mem, p: Ptr, n: nat)
    requires Fits(m, p, n) && n > 0
    ensures p.Into? && p.blk in m
  {}

  lemma {:induction false} SomeHeld(env: Cells, ty: Ty, m: Mem, p: Ptr, r: Rep)
    requires ty.Opt? && Holds(env, ty.inner, m, Plus(p, ty.payloadOff), r)
    requires ty.someDiscr.Some? ==> Has(m, Plus(p, ty.discOff), Disc(ty.someDiscr.value, ty.discSize))
    requires !Has(m, Plus(p, ty.discOff), Disc(ty.noneDiscr, ty.discSize))
    ensures Holds(env, ty, m, p, RSome(r))
  {}
}
