/** What writing, allocating and moving leave of the values already in memory. */
module Frames {
  import opened Containers
  import opened Bytes
  import opened Plan
  import opened Memory

  /** The k-th cell after two pointers is there, or not, alike. */
  ghost predicate SameCell(m: Mem, p: Ptr, m': Mem, p': Ptr, k: nat) {
    && (Fits(m, p, k + 1) <==> Fits(m', p', k + 1))
    && CellAt(m, p, k) == CellAt(m', p', k)
  }

  ghost predicate SameRange(m: Mem, p: Ptr, m': Mem, p': Ptr, n: nat) {
    forall k: nat :: k < n ==> SameCell(m, p, m', p', k)
  }

  ghost predicate SameBlocks(m: Mem, m': Mem, bs: set<nat>) {
    forall b :: b in bs && b in m ==> b in m' && m'[b] == m[b]
  }

  lemma {:induction false} HasMoves(m: Mem, p: Ptr, m': Mem, p': Ptr, cs: seq<Cell>)
    requires SameRange(m, p, m', p', |cs|)
    ensures Has(m, p, cs) <==> Has(m', p', cs)
  {
    if cs != [] {
      assert SameCell(m, p, m', p', |cs| - 1);
    }
    forall k | 0 <= k < |cs| ensures CellAt(m, p, k) == CellAt(m', p', k) {
      assert SameCell(m, p, m', p', k);
    }
  }

  lemma {:induction false} SubRange(m: Mem, p: Ptr, m': Mem, p': Ptr, n: nat, d: nat, k: nat)
    requires SameRange(m, p, m', p', n) && d + k <= n
    ensures SameRange(m, Plus(p, d), m', Plus(p', d), k)
  {
    forall j: nat | j < k ensures SameCell(m, Plus(p, d), m', Plus(p', d), j) {
      assert SameCell(m, p, m', p', d + j);
    }
  }

  lemma {:induction false} PartMoves(m: Mem, p: Ptr, m': Mem, p': Ptr, n: nat, d: nat, cs: seq<Cell>)
    requires SameRange(m, p, m', p', n) && d + |cs| <= n
    ensures Has(m, Plus(p, d), cs) <==> Has(m', Plus(p', d), cs)
  {
    SubRange(m, p, m', p', n, d, |cs|);
    HasMoves(m, Plus(p, d), m', Plus(p', d), cs);
  }

  lemma {:induction false} BlockStays(m: Mem, m': Mem, q: Ptr, d: nat, n: nat)
    requires q.Into? ==> q.blk in m && q.blk in m' && m'[q.blk] == m[q.blk]
    ensures SameRange(m, Plus(q, d), m', Plus(q, d), n)
  {}

  ghost predicate Sized(env: Cells) {
    forall c :: c in env ==> Size(env, env[c].ty) <= env[c].size
  }

  /** A value stays a value when its cells are copied and its own blocks are kept. */
  lemma {:induction false} HoldsMoves(env: Cells, ty: Ty, m: Mem, p: Ptr, m': Mem, p': Ptr, r: Rep)
    requires Sized(env) && Holds(env, ty, m, p, r)
    requires SameRange(m, p, m', p', Size(env, ty)) && SameBlocks(m, m', Own(r))
    ensures Holds(env, ty, m', p', r)
    decreases r, if ty.Ref? then 3 else 2
  {
    hide SameBlocks, Disc, Lits, Has, SameRange, Fits, Block, HoldsRow, LittleEndian, Word, PtrCells, Plus, RowSize,
        OwnAll, HoldsText;
    match ty
    case Bool => HasMoves(m, p, m', p', Lits([if r.b then 1 else 0]));
    case Char => HasMoves(m, p, m', p', Lits(LittleEndian(r.x, 4)));
    case U(n) => HasMoves(m, p, m', p', Lits(LittleEndian(r.x, n)));
    case I(n) => HasMoves(m, p, m', p', Lits(LittleEndian(r.x, n)));
    case F32 => HasMoves(m, p, m', p', Lits(LittleEndian(r.x, 4)));
    case F64 => HasMoves(m, p, m', p', Lits(LittleEndian(r.x, 8)));
    case Struct(_, fields) => RowMoves(env, fields, m, p, m', p', r);
    case Tuple(fields) => RowMoves(env, fields, m, p, m', p', r);
    case Str(w) => StrMoves(env, ty, m, p, m', p', r);
    case StrRef(_, _) => StrMoves(env, ty, m, p, m', p', r);
    case Vec(_, _, _, _) => VecMoves(env, ty, m, p, m', p', r);
    case Unit =>
    case Boxed(_, _, _) => BoxMoves(env, ty, m, p, m', p', r);
    case Opt(_, _, _, _, _, _, _) => OptMoves(env, ty, m, p, m', p', r);
    case Ref(c) =>
      SubRange(m, p, m', p', Size(env, ty), 0, Size(env, env[c].ty));
      assert Plus(p, 0) == p && Plus(p', 0) == p' by { PlusZero(p); PlusZero(p'); }
      HoldsMoves(env, env[c].ty, m, p, m', p', r);
  }

  lemma {:induction false} StrMoves(env: Cells, ty: Ty, m: Mem, p: Ptr, m': Mem, p': Ptr, r: Rep)
    requires (ty.Str? || ty.StrRef?) && Holds(env, ty, m, p, r)
    requires SameRange(m, p, m', p', Size(env, ty)) && SameBlocks(m, m', Own(r))
    ensures Holds(env, ty, m', p', r)
  {
    hide Has, SameRange, Fits, Word, PtrCells, Plus, HoldsText, SameBlocks;
    TextStays(m, m', r.q, r.s);
    if ty.Str? {
      var w := ty.words;
      PartMoves(m, p, m', p', SeqEnd(w), w.ptrOff, PtrCells(r.q));
      PartMoves(m, p, m', p', SeqEnd(w), w.capOff, Word(|r.s|));
      PartMoves(m, p, m', p', SeqEnd(w), w.lenOff, Word(|r.s|));
    } else {
      PartMoves(m, p, m', p', Size(env, ty), ty.ptrOff, PtrCells(r.q));
      PartMoves(m, p, m', p', Size(env, ty), ty.lenOff, Word(|r.s|));
    }
  }

  lemma {:induction false} VecMoves(env: Cells, ty: Ty, m: Mem, p: Ptr, m': Mem, p': Ptr, r: Rep)
    requires Sized(env) && ty.Vec? && Holds(env, ty, m, p, r)
    requires SameRange(m, p, m', p', Size(env, ty)) && SameBlocks(m, m', Own(r))
    ensures Holds(env, ty, m', p', r)
    decreases r, 1
  {
    hide Has, SameRange, Fits, Block, Word, PtrCells, Plus, OwnAll, SameBlocks, Slot;
    var w := ty.words;
    PartMoves(m, p, m', p', SeqEnd(w), w.ptrOff, PtrCells(r.q));
    PartMoves(m, p, m', p', SeqEnd(w), w.capOff, Word(r.cap));
    PartMoves(m, p, m', p', SeqEnd(w), w.lenOff, Word(|r.rs|));
    OwnBlockStays(m, m', r.q, r.cap * ty.elemSize, ty.elemAlign, Own(r));
    SameFewer(m, m', Own(r), OwnAll(r.rs));
    ElementsMove(env, ty, m, m', r);
  }

  lemma {:induction false} BoxMoves(env: Cells, ty: Ty, m: Mem, p: Ptr, m': Mem, p': Ptr, r: Rep)
    requires Sized(env) && ty.Boxed? && Holds(env, ty, m, p, r)
    requires SameRange(m, p, m', p', Size(env, ty)) && SameBlocks(m, m', Own(r))
    ensures Holds(env, ty, m', p', r)
    decreases r, 1
  {
    hide Has, SameRange, Block, PtrCells, Plus, SameBlocks;
    HasMoves(m, p, m', p', PtrCells(r.q));
    OwnBlockStays(m, m', r.q, ty.size, ty.align, Own(r));
    BlockStays(m, m', r.q, 0, Size(env, ty.inner));
    SameFewer(m, m', Own(r), Own(r.r));
    PlusZero(r.q);
    HoldsMoves(env, ty.inner, m, r.q, m', r.q, r.r);
  }

  lemma {:induction false} OptMoves(env: Cells, ty: Ty, m: Mem, p: Ptr, m': Mem, p': Ptr, r: Rep)
    requires Sized(env) && ty.Opt? && Holds(env, ty, m, p, r)
    requires SameRange(m, p, m', p', Size(env, ty)) && SameBlocks(m, m', Own(r))
    ensures Holds(env, ty, m', p', r)
    decreases r, 1
  {
    hide Has, SameRange, Fits, Disc, Plus, SameBlocks;
    var n := Size(env, ty);
    PartMoves(m, p, m', p', n, ty.discOff, Disc(ty.noneDiscr, ty.discSize));
    if ty.someDiscr.Some? {
      PartMoves(m, p, m', p', n, ty.discOff, Disc(ty.someDiscr.value, ty.discSize));
    }
    if r.RSome? {
      SubRange(m, p, m', p', n, ty.payloadOff, Size(env, ty.inner));
      HoldsMoves(env, ty.inner, m, Plus(p, ty.payloadOff), m', Plus(p', ty.payloadOff), r.r);
    }
  }

  lemma {:induction false} SameFewer(m: Mem, m': Mem, bs: set<nat>, cs: set<nat>)
    requires SameBlocks(m, m', bs) && cs <= bs
    ensures SameBlocks(m, m', cs)
  {}

  lemma {:induction false} PlusZero(p: Ptr)
    ensures Plus(p, 0) == p
  {}

  lemma {:induction false} OwnBlockStays(m: Mem, m': Mem, q: Ptr, n: nat, align: nat, own: set<nat>)
    requires Block(m, q, n, align) && SameBlocks(m, m', own) && (q.Into? ==> q.blk in own)
    ensures Block(m', q, n, align)
    ensures q.Into? ==> q.blk in m && q.blk in m' && m'[q.blk] == m[q.blk]
  {}

  lemma {:induction false} TextStays(m: Mem, m': Mem, q: Ptr, s: seq<byte>)
    requires HoldsText(m, q, s) && SameBlocks(m, m', if q.Into? then {q.blk} else {})
    ensures HoldsText(m', q, s)
  {
    hide Has;
    OwnBlockStays(m, m', q, |s|, 1, if q.Into? then {q.blk} else {});
    BlockStays(m, m', q, 0, |s|);
    PlusZero(q);
    HasMoves(m, q, m', q, Lits(s));
  }

  lemma {:induction false} RowMoves(env: Cells, fields: seq<FieldTy>, m: Mem, p: Ptr, m': Mem, p': Ptr, r: Rep)
    requires Sized(env) && r.RRow? && HoldsRow(env, fields, m, p, r)
    requires SameRange(m, p, m', p', RowSize(env, fields)) && SameBlocks(m, m', OwnAll(r.rs))
    ensures HoldsRow(env, fields, m', p', r)
    decreases r, 0
  {
    hide Has, SameRange, Holds;
    forall i | 0 <= i < |fields|
      ensures Holds(env, fields[i].ty, m', Plus(p', fields[i].offset), r.rs[i])
    {
      var f := fields[i];
      SubRange(m, p, m', p', RowSize(env, fields), f.offset, Size(env, f.ty));
      assert Own(r.rs[i]) <= OwnAll(r.rs);
      HoldsMoves(env, f.ty, m, Plus(p, f.offset), m', Plus(p', f.offset), r.rs[i]);
    }
  }

  lemma {:induction false} ElementsMove(env: Cells, ty: Ty, m: Mem, m': Mem, r: Rep)
    requires Sized(env) && ty.Vec? && r.RVec?
    requires forall i :: 0 <= i < |r.rs| ==> Holds(env, ty.elem, m, Slot(r.q, i, ty.elemSize), r.rs[i])
    requires r.q.Into? ==> r.q.blk in m && r.q.blk in m' && m'[r.q.blk] == m[r.q.blk]
    requires SameBlocks(m, m', OwnAll(r.rs))
    ensures forall i :: 0 <= i < |r.rs| ==> Holds(env, ty.elem, m', Slot(r.q, i, ty.elemSize), r.rs[i])
    decreases r, 0
  {
    hide Has, Holds;
    forall i | 0 <= i < |r.rs|
      ensures Holds(env, ty.elem, m', Slot(r.q, i, ty.elemSize), r.rs[i])
    {
      var q := Slot(r.q, i, ty.elemSize);
      BlockStays(m, m', r.q, i * ty.elemSize, Size(env, ty.elem));
      assert Own(r.rs[i]) <= OwnAll(r.rs);
      HoldsMoves(env, ty.elem, m, q, m', q, r.rs[i]);
    }
  }

  // ---- Writing ------------------------------------------------------------------

  ghost predicate Apart(p: Ptr, n: nat, q: Ptr, k: nat) {
    n == 0 || k == 0 || p.Dangling? || q.Dangling? || p.blk != q.blk || p.off + n <= q.off || q.off + k <= p.off
  }

  lemma {:induction false} StoredHas(m: Mem, p: Ptr, cs: seq<Cell>)
    requires Fits(m, p, |cs|)
    ensures Has(Stored(m, p, cs), p, cs) && Wrote(m, Stored(m, p, cs), p, |cs|)
    ensures Stored(m, p, cs).Keys == m.Keys
  {
    if cs != [] {
      var s, s' := m[p.blk], Stored(m, p, cs)[p.blk];
      assert s' == s[..p.off] + cs + s[p.off + |cs|..];
      forall k | 0 <= k < |cs| ensures s'[p.off + k] == cs[k] {}
      forall i | 0 <= i < |s| && !(p.off <= i < p.off + |cs|) ensures s'[i] == s[i] {}
    }
  }

  lemma {:induction false} WroteFits(m: Mem, m': Mem, p: Ptr, n: nat, q: Ptr, k: nat)
    requires Wrote(m, m', p, n) && Fits(m, q, k)
    ensures Fits(m', q, k)
  {}

  lemma {:induction false} WroteElsewhere(m: Mem, m': Mem, p: Ptr, n: nat, q: Ptr, k: nat)
    requires Wrote(m, m', p, n) && Fits(m, q, k) && Apart(p, n, q, k)
    ensures SameRange(m, q, m', q, k)
  {
    forall j: nat | j < k ensures SameCell(m, q, m', q, j) {
      assert Fits(m, q, j + 1) && Fits(m', q, j + 1);
    }
  }

  lemma {:induction false} WroteOwn(m: Mem, m': Mem, p: Ptr, n: nat, bs: set<nat>)
    requires Wrote(m, m', p, n) && (n > 0 && p.Into? ==> p.blk !in bs)
    ensures SameBlocks(m, m', bs)
  {
    forall b | b in bs && b in m ensures m'[b] == m[b] {
      assert forall i :: 0 <= i < |m[b]| ==> m'[b][i] == m[b][i];
    }
  }

  lemma {:induction false} WroteTwice(m: Mem, m': Mem, m'': Mem, p: Ptr, n: nat)
    requires Wrote(m, m', p, n) && Wrote(m', m'', p, n)
    ensures Wrote(m, m'', p, n)
  {}

  lemma {:induction false} WroteWider(m: Mem, m': Mem, p: Ptr, d: nat, k: nat, n: nat)
    requires Wrote(m, m', Plus(p, d), k) && d + k <= n
    ensures Wrote(m, m', p, n)
  {}

  lemma {:induction false} FitsPart(m: Mem, p: Ptr, n: nat, d: nat, k: nat)
    requires Fits(m, p, n) && d + k <= n
    ensures Fits(m, Plus(p, d), k)
  {}

  /** Memory gained a value: only its place was written, and of the new blocks it owns all
      but `lost`, which nothing owns any more. */
  ghost predicate Built(env: Cells, ty: Ty, m: Mem, m': Mem, p: Ptr, r: Rep, lost: set<nat>) {
    && Wrote(m, m', p, Size(env, ty))
    && Holds(env, ty, m', p, r)
    && Own(r) + lost == m'.Keys - m.Keys && Own(r) !! lost
    && Separate(r)
  }
}
