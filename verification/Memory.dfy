/** Memory as blocks of cells, and what it means that a value of a type lies at a pointer. */
module Memory {
  import opened Containers
  import opened Bytes
  import opened Plan
  import opened Utf8

  /** A pointer into a block, or an address that is never dereferenced. */
  datatype Ptr = Dangling(a: nat) | Into(blk: nat, off: nat)

  /** A cell is uninitialised, a byte, or the k-th byte of a stored pointer. */
  datatype Cell = Junk | Lit(b: byte) | Frag(p: Ptr, k: nat)

  type Mem = map<nat, seq<Cell>>

  function Plus(p: Ptr, d: nat): Ptr {
    match p
    case Dangling(a) => Dangling(a + d)
    case Into(b, o) => Into(b, o + d)
  }

  predicate Fits(m: Mem, p: Ptr, n: nat) {
    n == 0 || (p.Into? && p.blk in m && p.off + n <= |m[p.blk]|)
  }

  function CellAt(m: Mem, p: Ptr, k: nat): Cell {
    if Fits(m, p, k + 1) then m[p.blk][p.off + k] else Junk
  }

  ghost predicate Has(m: Mem, p: Ptr, cs: seq<Cell>) {
    && Fits(m, p, |cs|)
    && forall k :: 0 <= k < |cs| ==> CellAt(m, p, k) == cs[k]
  }

  function Lits(bs: seq<byte>): (cs: seq<Cell>)
    ensures |cs| == |bs|
    ensures forall k :: 0 <= k < |bs| ==> cs[k] == Lit(bs[k])
  {
    seq(|bs|, k requires 0 <= k < |bs| => Lit(bs[k]))
  }

  function PtrCells(q: Ptr): (cs: seq<Cell>)
    ensures |cs| == 8
  {
    match q
    case Dangling(a) => Lits(LittleEndian(a, 8))
    case Into(_, _) => seq(8, k requires 0 <= k < 8 => Frag(q, k))
  }

  function Word(x: nat): (cs: seq<Cell>)
    ensures |cs| == 8
  {
    Lits(LittleEndian(x, 8))
  }

  // ---- The heap the backends write through -----------------------------------

  /** `m` after storing `cs` at `p`. */
  function Stored(m: Mem, p: Ptr, cs: seq<Cell>): Mem
    requires Fits(m, p, |cs|)
  {
    if cs == [] then m
    else m[p.blk := m[p.blk][..p.off] + cs + m[p.blk][p.off + |cs|..]]
  }

  /** `m'` is `m` with nothing but [p, p + n) changed, and perhaps new blocks. */
  ghost predicate Wrote(m: Mem, m': Mem, p: Ptr, n: nat) {
    forall b :: b in m ==>
      && b in m' && |m'[b]| == |m[b]|
      && forall i :: 0 <= i < |m[b]| && !(n > 0 && p.Into? && p.blk == b && p.off <= i < p.off + n) ==>
           m'[b][i] == m[b][i]
  }

  class Heap {
    var m: Mem
    var next: nat

    ghost predicate Valid()
      reads this
    {
      forall b :: b in m ==> b < next
    }

    constructor (m: Mem, next: nat)
      requires forall b :: b in m ==> b < next
      ensures Valid() && this.m == m && this.next == next
    {
      this.m, this.next := m, next;
    }

    method Store(p: Ptr, cs: seq<Cell>)
      requires Valid() && Fits(m, p, |cs|)
      modifies this
      ensures Valid() && m == Stored(old(m), p, cs) && next == old(next)
    {
      if cs != [] {
        m := m[p.blk := m[p.blk][..p.off] + cs + m[p.blk][p.off + |cs|..]];
      }
    }

    /** A fresh block of `n` uninitialised cells; for none, the aligned dangling pointer. */
    method Alloc(n: nat, align: nat) returns (q: Ptr)
      requires Valid()
      modifies this
      ensures Valid()
      ensures n == 0 ==> q == Dangling(Max(align, 1)) && m == old(m)
      ensures n > 0 ==> q == Into(old(next), 0) && m == old(m)[old(next) := seq(n, _ => Junk)]
    {
      if n == 0 {
        q := Dangling(Max(align, 1));
      } else {
        q := Into(next, 0);
        m := m[next := seq(n, _ => Junk)];
        next := next + 1;
      }
    }

    /** `rt_realloc`: a larger block takes the old contents over, and the old block is gone. */
    method Realloc(p: Ptr, oldBytes: nat, newBytes: nat, align: nat) returns (q: Ptr)
      requires Valid() && oldBytes <= newBytes && newBytes > 0
      requires oldBytes > 0 ==> p.Into? && p.off == 0 && p.blk in m && |m[p.blk]| == oldBytes
      modifies this
      ensures Valid() && q == Into(old(next), 0) && q.blk in m && |m[q.blk]| == newBytes
      ensures oldBytes > 0 ==> m[q.blk][..oldBytes] == old(m)[p.blk] && p.blk !in m
      ensures forall b :: b in old(m) && !(oldBytes > 0 && b == p.blk) ==> b in m && m[b] == old(m)[b]
      ensures forall b :: b in m ==> b == q.blk || b in old(m)
    {
      var kept := if oldBytes > 0 then m[p.blk] else [];
      if oldBytes > 0 {
        m := m - {p.blk};
      }
      q := Into(next, 0);
      m := m[next := kept + seq(newBytes - oldBytes, _ => Junk)];
      next := next + 1;
    }
  }

  // ---- Values in memory ----------------------------------------------------------

  /** A value as it lies in memory: its parts, and the pointers that hold it together. */
  datatype Rep =
    | RBool(b: bool)
    | RNum(x: nat)
    | RUnit
    | RStr(q: Ptr, s: seq<byte>)
    | RRow(rs: seq<Rep>)
    | RVec(q: Ptr, cap: nat, rs: seq<Rep>)
    | RBox(q: Ptr, r: Rep)
    | RNone
    | RSome(r: Rep)

  /** An allocation of exactly `n` cells, as the allocator hands it out and takes it back. */
  ghost predicate Block(m: Mem, q: Ptr, n: nat, align: nat) {
    if n == 0 then q == Dangling(Max(align, 1))
    else q.Into? && q.off == 0 && q.blk in m && |m[q.blk]| == n
  }

  function Slot(q: Ptr, i: nat, size: nat): Ptr { Plus(q, i * size) }

  function Disc(value: nat, size: nat): (cs: seq<Cell>)
    ensures |cs| == size
  {
    Lits(LittleEndian(value, size))
  }

  ghost predicate Holds(env: Cells, ty: Ty, m: Mem, p: Ptr, r: Rep)
    decreases r, if ty.Ref? then 2 else 1
  {
    match ty
    case Bool => r.RBool? && Has(m, p, Lits([if r.b then 1 else 0]))
    case Char => r.RNum? && IsScalar(r.x) && Has(m, p, Lits(LittleEndian(r.x, 4)))
    case U(n) => r.RNum? && r.x < Pow256(n) && Has(m, p, Lits(LittleEndian(r.x, n)))
    case I(n) => r.RNum? && r.x < Pow256(n) && Has(m, p, Lits(LittleEndian(r.x, n)))
    case F32 => r.RNum? && r.x < Pow256(4) && Has(m, p, Lits(LittleEndian(r.x, 4)))
    case F64 => r.RNum? && r.x < Pow256(8) && Has(m, p, Lits(LittleEndian(r.x, 8)))
    case Struct(_, fields) => r.RRow? && HoldsRow(env, fields, m, p, r)
    case Tuple(fields) => r.RRow? && HoldsRow(env, fields, m, p, r)
    case Str(w) =>
      && r.RStr? && HoldsText(m, r.q, r.s)
      && Has(m, Plus(p, w.ptrOff), PtrCells(r.q))
      && Has(m, Plus(p, w.capOff), Word(|r.s|)) && Has(m, Plus(p, w.lenOff), Word(|r.s|))
    case StrRef(ptrOff, lenOff) =>
      && r.RStr? && HoldsText(m, r.q, r.s)
      && Has(m, Plus(p, ptrOff), PtrCells(r.q)) && Has(m, Plus(p, lenOff), Word(|r.s|))
    case Vec(elem, elemSize, elemAlign, w) =>
      && r.RVec? && |r.rs| <= r.cap && 2 * r.cap < Pow256(8)
      && Block(m, r.q, r.cap * elemSize, elemAlign)
      && Has(m, Plus(p, w.ptrOff), PtrCells(r.q))
      && Has(m, Plus(p, w.capOff), Word(r.cap)) && Has(m, Plus(p, w.lenOff), Word(|r.rs|))
      && forall i :: 0 <= i < |r.rs| ==> Holds(env, elem, m, Slot(r.q, i, elemSize), r.rs[i])
    case Unit => r.RUnit?
    case Boxed(inner, size, align) =>
      && r.RBox? && Block(m, r.q, size, align)
      && Has(m, p, PtrCells(r.q)) && Holds(env, inner, m, r.q, r.r)
    case Opt(d, ds, none, some, payload, _, inner) =>
      if r.RNone? then Has(m, Plus(p, d), Disc(none, ds))
      else
        && r.RSome? && Holds(env, inner, m, Plus(p, payload), r.r)
        && !Has(m, Plus(p, d), Disc(none, ds))
        && (some.Some? ==> Has(m, Plus(p, d), Disc(some.value, ds)))
    case Ref(c) => c in env && !env[c].ty.Ref? && Holds(env, env[c].ty, m, p, r)
    case Map(_, _) => false
    case Unknown(_) => false
  }

  ghost predicate HoldsRow(env: Cells, fields: seq<FieldTy>, m: Mem, p: Ptr, r: Rep)
    requires r.RRow?
    decreases r, 0
  {
    && |r.rs| == |fields|
    && forall i :: 0 <= i < |fields| ==> Holds(env, fields[i].ty, m, Plus(p, fields[i].offset), r.rs[i])
  }

  /** A string buffer of exactly its length; an empty string has none. */
  ghost predicate HoldsText(m: Mem, q: Ptr, s: seq<byte>) {
    2 * |s| < Pow256(8) && Block(m, q, |s|, 1) && Has(m, q, Lits(s))
  }

  /** The blocks a value owns. */
  function Own(r: Rep): set<nat> {
    match r
    case RStr(q, s) => if q.Into? then {q.blk} else {}
    case RRow(rs) => OwnAll(rs)
    case RVec(q, _, rs) => (if q.Into? then {q.blk} else {}) + OwnAll(rs)
    case RBox(q, r') => (if q.Into? then {q.blk} else {}) + Own(r')
    case RSome(r') => Own(r')
    case _ => {}
  }

  function OwnAll(rs: seq<Rep>): (s: set<nat>)
    ensures forall i :: 0 <= i < |rs| ==> Own(rs[i]) <= s
  {
    if rs == [] then {}
    else
      assert forall i :: 1 <= i < |rs| ==> rs[i] == rs[1..][i - 1];
      Own(rs[0]) + OwnAll(rs[1..])
  }

  /** No block is owned twice. */
  ghost predicate Separate(r: Rep) {
    match r
    case RRow(rs) => SeparateAll(rs)
    case RVec(q, _, rs) => SeparateAll(rs) && (q.Into? ==> q.blk !in OwnAll(rs))
    case RBox(q, r') => Separate(r') && (q.Into? ==> q.blk !in Own(r'))
    case RSome(r') => Separate(r')
    case _ => true
  }

  ghost predicate SeparateAll(rs: seq<Rep>) {
    && (forall i :: 0 <= i < |rs| ==> Separate(rs[i]))
    && forall i, j :: 0 <= i < j < |rs| ==> Own(rs[i]) !! Own(rs[j])
  }

  lemma {:induction false} OwnAllMember(rs: seq<Rep>, b: nat)
    ensures b in OwnAll(rs) <==> exists i :: 0 <= i < |rs| && b in Own(rs[i])
  {
    if rs != [] {
      OwnAllMember(rs[1..], b);
      if b in OwnAll(rs[1..]) {
        var i :| 0 <= i < |rs| - 1 && b in Own(rs[1..][i]);
        assert b in Own(rs[i + 1]);
      }
    }
  }

  lemma {:induction false} OwnAllAppend(rs: seq<Rep>, r: Rep)
    ensures OwnAll(rs + [r]) == OwnAll(rs) + Own(r)
  {
    forall b ensures b in OwnAll(rs + [r]) <==> b in OwnAll(rs) + Own(r) {
      OwnAllMember(rs, b);
      OwnAllMember(rs + [r], b);
      if b in Own(r) {
        assert b in Own((rs + [r])[|rs|]);
      }
      if i :| 0 <= i < |rs| && b in Own(rs[i]) {
        assert b in Own((rs + [r])[i]);
      }
    }
  }

  /** Replacing a part: what the old one owned is out. */
  lemma {:induction false} OwnAllReplace(rs: seq<Rep>, i: nat, r: Rep)
    requires i < |rs| && SeparateAll(rs)
    ensures OwnAll(rs[i := r]) == OwnAll(rs) - Own(rs[i]) + Own(r)
  {
    hide Own, OwnAll, Separate;
    var rs' := rs[i := r];
    forall b ensures b in OwnAll(rs') <==> b in OwnAll(rs) - Own(rs[i]) + Own(r) {
      OwnAllMember(rs, b);
      OwnAllMember(rs', b);
      if b in Own(r) {
        assert b in Own(rs'[i]);
      }
      if j :| 0 <= j < |rs| && b in Own(rs[j]) {
        assert j != i ==> b in Own(rs'[j]);
      }
      if j :| 0 <= j < |rs'| && b in Own(rs'[j]) {
        assert j != i ==> b in Own(rs[j]);
      }
    }
  }

  /** Growing memory by a separate value keeps the parts separate. */
  lemma {:induction false} SeparateAppend(rs: seq<Rep>, r: Rep)
    requires SeparateAll(rs) && Separate(r) && OwnAll(rs) !! Own(r)
    ensures SeparateAll(rs + [r])
  {}

  lemma {:induction false} SeparateUpdate(rs: seq<Rep>, i: nat, r: Rep)
    requires SeparateAll(rs) && i < |rs| && Separate(r) && OwnAll(rs) !! Own(r)
    ensures SeparateAll(rs[i := r])
  {
    hide Own, OwnAll, Separate;
  }
}
