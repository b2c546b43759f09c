/** The store sequences the compiled parser emits: the copy ladder, the unrolled zeroing,
    and constants of a field's width. */
module Copy {
  import opened Bytes
  import opened Plan
  import opened Memory
  import opened Frames
  import opened Ints

  /** The first `i` bytes of `s` are in place. */
  ghost predicate Copied(m: Mem, dst: Ptr, s: seq<byte>, i: nat)
    requires i <= |s|
  {
    forall k :: 0 <= k < i ==> CellAt(m, dst, k) == Lit(s[k])
  }

  /** A word stored at or before the end of what is copied extends it, and rewrites what
      it overlaps with the same bytes. */
  lemma {:induction false} CopyStep(m: Mem, dst: Ptr, s: seq<byte>, i: nat, off: nat, w: nat)
    requires Fits(m, dst, |s|) && off <= i <= |s| && off + w <= |s| && Copied(m, dst, s, i)
    ensures Fits(m, Plus(dst, off), w)
    ensures var m' := Stored(m, Plus(dst, off), Lits(s[off..off + w]));
            && Copied(m', dst, s, Max(i, off + w)) && Wrote(m, m', dst, |s|)
            && m'.Keys == m.Keys && Fits(m', dst, |s|)
  {
    hide Has, Stored;
    var q, cs := Plus(dst, off), Lits(s[off..off + w]);
    FitsPart(m, dst, |s|, off, w);
    StoredHas(m, q, cs);
    var m' := Stored(m, q, cs);
    WroteWider(m, m', dst, off, w, |s|);
    WroteFits(m, m', dst, |s|, dst, |s|);
    forall k | 0 <= k < Max(i, off + w) ensures CellAt(m', dst, k) == Lit(s[k]) {
      if off <= k < off + w {
        HasAt(m', q, cs, k - off);
        assert Fits(m', dst, k + 1) && Fits(m', q, k - off + 1);
      } else {
        assert CellAt(m, dst, k) == Lit(s[k]);
        CellKept(m, m', q, w, dst, k);
      }
    }
  }

  lemma {:induction false} HasAt(m: Mem, p: Ptr, cs: seq<Cell>, k: nat)
    requires Has(m, p, cs) && k < |cs|
    ensures CellAt(m, p, k) == cs[k]
  {}

  lemma {:induction false} CellKept(m: Mem, m': Mem, q: Ptr, w: nat, p: Ptr, k: nat)
    requires Wrote(m, m', q, w) && Fits(m, p, k + 1)
    requires q.Into? && p.Into? && q.blk == p.blk && !(q.off <= p.off + k < q.off + w)
    ensures CellAt(m', p, k) == CellAt(m, p, k)
  {}

  lemma {:induction false} CopiedHas(m: Mem, dst: Ptr, s: seq<byte>)
    requires Fits(m, dst, |s|) && Copied(m, dst, s, |s|)
    ensures Has(m, dst, Lits(s))
  {}

  lemma {:induction false} SliceOfSlice(src: seq<byte>, sp: nat, len: nat, off: nat, w: nat)
    requires sp + len <= |src| && off + w <= len
    ensures src[sp..sp + len][off..off + w] == src[sp + off..sp + off + w]
  {
    var s, x, y := src[sp..sp + len], src[sp..sp + len][off..off + w], src[sp + off..sp + off + w];
    forall k | 0 <= k < w ensures x[k] == y[k] {
      assert s[off + k] == src[sp + (off + k)];
    }
  }

  /** `cp`: one word, loaded from and stored to the same offset, inside the copy. */
  method Cp(h: Heap, dst: Ptr, src: seq<byte>, sp: nat, len: nat, w: nat, off: nat, ghost i: nat)
    requires h.Valid() && Fits(h.m, dst, len) && sp + len <= |src|
    requires off <= i <= len && off + w <= len
    requires Copied(h.m, dst, src[sp..sp + len], i)
    modifies h
    ensures h.Valid() && Fits(h.m, dst, len) && h.m.Keys == old(h.m).Keys && h.next == old(h.next)
    ensures Copied(h.m, dst, src[sp..sp + len], Max(i, off + w)) && Wrote(old(h.m), h.m, dst, len)
  {
    hide Copied, Wrote, Stored, Fits, Plus;
    ghost var s := src[sp..sp + len];
    CopyStep(h.m, dst, s, i, off, w);
    SliceOfSlice(src, sp, len, off, w);
    h.Store(Plus(dst, off), Lits(src[sp + off..sp + off + w]));
  }

  /** `emit_copy`: words and one overlapping word for eight bytes and more, two
      overlapping smaller ones below. Every access is inside [0, len). */
  method EmitCopy(h: Heap, dst: Ptr, src: seq<byte>, sp: nat, len: nat)
    requires h.Valid() && Fits(h.m, dst, len) && sp + len <= |src|
    modifies h
    ensures h.Valid() && h.m.Keys == old(h.m).Keys && h.next == old(h.next)
    ensures Has(h.m, dst, Lits(src[sp..sp + len])) && Wrote(old(h.m), h.m, dst, len)
  {
    hide Wrote, Has, Fits, Stored;
    ghost var s := src[sp..sp + len];
    ghost var m0 := h.m;
    WroteNothing(m0, dst, len);
    if len >= 8 {
      var i := 0;
      while i + 8 <= len
        invariant 0 <= i <= len && h.Valid() && Fits(h.m, dst, len) && Copied(h.m, dst, s, i)
        invariant Wrote(m0, h.m, dst, len) && h.m.Keys == m0.Keys && h.next == old(h.next)
      {
        ghost var m1 := h.m;
        Cp(h, dst, src, sp, len, 8, i, i);
        WroteTwice(m0, m1, h.m, dst, len);
        i := i + 8;
      }
      ghost var m1 := h.m;
      Cp(h, dst, src, sp, len, 8, len - 8, i);
      WroteTwice(m0, m1, h.m, dst, len);
    } else if len >= 4 {
      CopyTwice(h, dst, src, sp, len, 4);
    } else if len >= 2 {
      CopyTwice(h, dst, src, sp, len, 2);
    } else if len != 0 {
      Cp(h, dst, src, sp, len, 1, 0, 0);
    }
    CopiedHas(h.m, dst, s);
  }

  /** A word at the start and a word at the end, which overlap. */
  method CopyTwice(h: Heap, dst: Ptr, src: seq<byte>, sp: nat, len: nat, w: nat)
    requires h.Valid() && Fits(h.m, dst, len) && sp + len <= |src| && w <= len <= 2 * w
    modifies h
    ensures h.Valid() && Fits(h.m, dst, len) && h.m.Keys == old(h.m).Keys && h.next == old(h.next)
    ensures Copied(h.m, dst, src[sp..sp + len], len) && Wrote(old(h.m), h.m, dst, len)
  {
    hide Wrote, Fits;
    Cp(h, dst, src, sp, len, w, 0, 0);
    ghost var m1 := h.m;
    Cp(h, dst, src, sp, len, w, len - w, w);
    WroteTwice(old(h.m), m1, h.m, dst, len);
  }

  lemma {:induction false} WroteNothing(m: Mem, p: Ptr, n: nat)
    ensures Wrote(m, m, p, n)
  {}

  function Zeros(n: nat): seq<byte> { seq(n, _ => 0) }

  /** `memset0`: exactly `size` zero bytes. */
  method Memset0(h: Heap, dst: Ptr, size: nat)
    requires h.Valid() && Fits(h.m, dst, size)
    modifies h
    ensures h.Valid() && h.m.Keys == old(h.m).Keys && h.next == old(h.next)
    ensures Has(h.m, dst, Lits(Zeros(size))) && Wrote(old(h.m), h.m, dst, size)
  {
    hide Wrote, Has, Fits, Stored;
    ghost var m0 := h.m;
    var zs := Zeros(size);
    var o, rem := 0, size;
    WroteNothing(m0, dst, size);
    while rem >= 8
      invariant o + rem == size && h.Valid() && Fits(h.m, dst, size) && Copied(h.m, dst, zs, o)
      invariant Wrote(m0, h.m, dst, size) && h.m.Keys == m0.Keys && h.next == old(h.next)
    {
      ghost var m1 := h.m;
      Cp(h, dst, zs, 0, size, 8, o, o);
      WroteTwice(m0, m1, h.m, dst, size);
      o, rem := o + 8, rem - 8;
    }
    var ws := [4, 2, 1];
    for i := 0 to 3
      invariant o + rem == size && rem < (if i == 0 then 8 else ws[i - 1])
      invariant h.Valid() && Fits(h.m, dst, size) && Copied(h.m, dst, zs, o)
      invariant Wrote(m0, h.m, dst, size) && h.m.Keys == m0.Keys && h.next == old(h.next)
    {
      if rem >= ws[i] {
        ghost var m1 := h.m;
        Cp(h, dst, zs, 0, size, ws[i], o, o);
        WroteTwice(m0, m1, h.m, dst, size);
        o, rem := o + ws[i], rem - ws[i];
      }
    }
    CopiedHas(h.m, dst, zs);
  }

  /** `store_sized`, `store_imm`: the low bytes of a register or a constant. */
  method StoreSized(h: Heap, dst: Ptr, v: nat, n: nat)
    requires h.Valid() && IntSize(n) && Fits(h.m, dst, n)
    modifies h
    ensures h.Valid() && h.m.Keys == old(h.m).Keys && h.next == old(h.next)
    ensures Has(h.m, dst, Lits(LittleEndian(v, n))) && Wrote(old(h.m), h.m, dst, n)
  {
    hide Wrote, Has, Fits, Stored, LittleEndian;
    var w := if n == 1 then 1 else if n == 2 then 2 else if n == 4 then 4 else 8;
    StoredHas(h.m, dst, Lits(LittleEndian(v, w)));
    h.Store(dst, Lits(LittleEndian(v, w)));
  }

  method StoreCells(h: Heap, dst: Ptr, cs: seq<Cell>)
    requires h.Valid() && Fits(h.m, dst, |cs|)
    modifies h
    ensures h.Valid() && h.m.Keys == old(h.m).Keys && h.next == old(h.next)
    ensures Has(h.m, dst, cs) && Wrote(old(h.m), h.m, dst, |cs|)
  {
    hide Wrote, Has, Fits, Stored;
    StoredHas(h.m, dst, cs);
    h.Store(dst, cs);
  }
}
