/** The value behind a representation, and decoding it from memory. */
module Values {
  import opened Containers
  import opened Bytes
  import opened Plan
  import opened Utf8
  import opened Memory

  /** A Rust value, without the pointers it is made of. */
  datatype Val =
    | VBool(b: bool)
    | VNum(x: nat)
    | VUnit
    | VStr(s: seq<byte>)
    | VRow(vs: seq<Val>)
    | VVec(vs: seq<Val>)
    | VBox(v: Val)
    | VNone
    | VSome(v: Val)

  function Erase(r: Rep): Val {
    match r
    case RBool(b) => VBool(b)
    case RNum(x) => VNum(x)
    case RUnit => VUnit
    case RStr(_, s) => VStr(s)
    case RRow(rs) => VRow(EraseAll(rs))
    case RVec(_, _, rs) => VVec(EraseAll(rs))
    case RBox(_, r') => VBox(Erase(r'))
    case RNone => VNone
    case RSome(r') => VSome(Erase(r'))
  }

  function EraseAll(rs: seq<Rep>): (vs: seq<Val>)
    ensures |vs| == |rs|
    ensures forall i :: 0 <= i < |rs| ==> vs[i] == Erase(rs[i])
  {
    if rs == [] then []
    else
      assert forall i :: 1 <= i < |rs| ==> rs[i] == rs[1..][i - 1];
      [Erase(rs[0])] + EraseAll(rs[1..])
  }

  lemma {:induction false} HasOnce(m: Mem, p: Ptr, a: seq<Cell>, b: seq<Cell>)
    requires Has(m, p, a) && Has(m, p, b) && |a| == |b|
    ensures a == b
  {
    forall k | 0 <= k < |a| ensures a[k] == b[k] {
      assert CellAt(m, p, k) == a[k];
    }
  }

  lemma {:induction false} BytesOnce(m: Mem, p: Ptr, a: seq<byte>, b: seq<byte>)
    requires Has(m, p, Lits(a)) && Has(m, p, Lits(b)) && |a| == |b|
    ensures a == b
  {
    HasOnce(m, p, Lits(a), Lits(b));
    forall k | 0 <= k < |a| ensures a[k] == b[k] {
      assert Lits(a)[k] == Lits(b)[k];
    }
  }

  lemma {:induction false} NumberOnce(m: Mem, p: Ptr, n: nat, x: nat, y: nat)
    requires Has(m, p, Lits(LittleEndian(x, n))) && Has(m, p, Lits(LittleEndian(y, n)))
    requires x < Pow256(n) && y < Pow256(n)
    ensures x == y
  {
    BytesOnce(m, p, LittleEndian(x, n), LittleEndian(y, n));
    SameBytesSameResidue(x, y, n);
    DivModUnique(x, Pow256(n), 0, x);
    DivModUnique(y, Pow256(n), 0, y);
  }

  lemma {:induction false} WordOnce(m: Mem, p: Ptr, x: nat, y: nat)
    requires Has(m, p, Word(x)) && Has(m, p, Word(y)) && x < Pow256(8) && y < Pow256(8)
    ensures x == y
  {
    NumberOnce(m, p, 8, x, y);
  }

  lemma {:induction false} BlockOnce(m: Mem, p: Ptr, q: Ptr, q': Ptr, n: nat, align: nat)
    requires Has(m, p, PtrCells(q)) && Has(m, p, PtrCells(q'))
    requires Block(m, q, n, align) && Block(m, q', n, align)
    ensures q == q'
  {
    HasOnce(m, p, PtrCells(q), PtrCells(q'));
    if n > 0 {
      assert PtrCells(q)[0] == Frag(q, 0) && PtrCells(q')[0] == Frag(q', 0);
    }
  }

  lemma {:induction false} TextOnce(m: Mem, p: Ptr, q: Ptr, s: seq<byte>, q': Ptr, s': seq<byte>)
    requires HoldsText(m, q, s) && HoldsText(m, q', s') && |s| == |s'|
    requires Has(m, p, PtrCells(q)) && Has(m, p, PtrCells(q'))
    ensures q == q' && s == s'
  {
    BlockOnce(m, p, q, q', |s|, 1);
    BytesOnce(m, q, s, s');
  }

  /** Memory holds at most one value of a type at an address. */
  lemma {:induction false} HoldsOnce(env: Cells, ty: Ty, m: Mem, p: Ptr, r: Rep, r': Rep)
    requires Holds(env, ty, m, p, r) && Holds(env, ty, m, p, r')
    ensures r == r'
    decreases r, if ty.Ref? then 2 else 1
  {
    hide Has, Block, HoldsRow, LittleEndian, Word, PtrCells, Plus, HoldsText, Slot, Pow256, Disc, Lits;
    match ty
    case Bool => BytesOnce(m, p, [if r.b then 1 else 0], [if r'.b then 1 else 0]);
    case Char =>
      ScalarFits(r.x);
      ScalarFits(r'.x);
      NumberOnce(m, p, 4, r.x, r'.x);
    case U(n) => NumberOnce(m, p, n, r.x, r'.x);
    case I(n) => NumberOnce(m, p, n, r.x, r'.x);
    case F32 => NumberOnce(m, p, 4, r.x, r'.x);
    case F64 => NumberOnce(m, p, 8, r.x, r'.x);
    case Struct(_, fields) => RowOnce(env, fields, m, p, r, r');
    case Tuple(fields) => RowOnce(env, fields, m, p, r, r');
    case Str(w) => StrOnce(env, ty, m, p, r, r');
    case StrRef(_, _) => StrOnce(env, ty, m, p, r, r');
    case Vec(_, _, _, _) => VecOnce(env, ty, m, p, r, r');
    case Unit =>
    case Boxed(inner, size, align) =>
      BlockOnce(m, p, r.q, r'.q, size, align);
      HoldsOnce(env, inner, m, r.q, r.r, r'.r);
    case Opt(_, _, _, _, payload, _, inner) =>
      if r.RSome? && r'.RSome? {
        HoldsOnce(env, inner, m, Plus(p, payload), r.r, r'.r);
      }
    case Ref(c) => HoldsOnce(env, env[c].ty, m, p, r, r');
  }

  lemma {:induction false} StrOnce(env: Cells, ty: Ty, m: Mem, p: Ptr, r: Rep, r': Rep)
    requires ty.Str? || ty.StrRef?
    requires Holds(env, ty, m, p, r) && Holds(env, ty, m, p, r')
    ensures r == r'
  {
    hide Has, Word, Lits, PtrCells;
    var len := Plus(p, if ty.Str? then ty.words.lenOff else ty.lenOff);
    var ptr := Plus(p, if ty.Str? then ty.words.ptrOff else ty.ptrOff);
    WordOnce(m, len, |r.s|, |r'.s|);
    TextOnce(m, ptr, r.q, r.s, r'.q, r'.s);
  }

  lemma {:induction false} VecOnce(env: Cells, ty: Ty, m: Mem, p: Ptr, r: Rep, r': Rep)
    requires ty.Vec? && Holds(env, ty, m, p, r) && Holds(env, ty, m, p, r')
    ensures r == r'
    decreases r, 0
  {
    hide Has, Word, Lits, PtrCells, Block, Pow256;
    WordOnce(m, Plus(p, ty.words.capOff), r.cap, r'.cap);
    WordOnce(m, Plus(p, ty.words.lenOff), |r.rs|, |r'.rs|);
    BlockOnce(m, Plus(p, ty.words.ptrOff), r.q, r'.q, r.cap * ty.elemSize, ty.elemAlign);
    forall i | 0 <= i < |r.rs| ensures r.rs[i] == r'.rs[i] {
      HoldsOnce(env, ty.elem, m, Slot(r.q, i, ty.elemSize), r.rs[i], r'.rs[i]);
    }
    assert r.rs == r'.rs;
  }

  lemma {:induction false} RowOnce(env: Cells, fields: seq<FieldTy>, m: Mem, p: Ptr, r: Rep, r': Rep)
    requires r.RRow? && r'.RRow? && HoldsRow(env, fields, m, p, r) && HoldsRow(env, fields, m, p, r')
    ensures r == r'
    decreases r, 0
  {
    hide Holds;
    forall i | 0 <= i < |fields| ensures r.rs[i] == r'.rs[i] {
      HoldsOnce(env, fields[i].ty, m, Plus(p, fields[i].offset), r.rs[i], r'.rs[i]);
    }
    assert r.rs == r'.rs;
  }

  /** What reading memory at a type yields. */
  ghost function Decode(env: Cells, ty: Ty, m: Mem, p: Ptr): Option<Val> {
    if exists r :: Holds(env, ty, m, p, r) then
      var r :| Holds(env, ty, m, p, r);
      Some(Erase(r))
    else None
  }

  lemma {:induction false} DecodeHeld(env: Cells, ty: Ty, m: Mem, p: Ptr, r: Rep)
    requires Holds(env, ty, m, p, r)
    ensures Decode(env, ty, m, p) == Some(Erase(r))
  {
    hide Holds, Erase;
    forall r' | Holds(env, ty, m, p, r') ensures r' == r {
      HoldsOnce(env, ty, m, p, r, r');
    }
  }

  // ---- Values byte by byte ------------------------------------------------------------

  /** The bytes of a number, the one of weight 256^k at place k. */
  ghost predicate NumberLies(m: Mem, p: Ptr, x: nat, n: nat) {
    x < Pow256(n) && forall k: nat :: k < n ==> CellAt(m, p, k) == Lit(x / Pow256(k) % 256)
  }

  ghost predicate TextLies(m: Mem, p: Ptr, ptrOff: nat, lenOff: nat, s: seq<byte>) {
    && NumberLies(m, Plus(p, lenOff), |s|, 8)
    && exists q :: Has(m, Plus(p, ptrOff), PtrCells(q)) && forall k :: 0 <= k < |s| ==> CellAt(m, q, k) == Lit(s[k])
  }

  ghost predicate ElementsLie(env: Cells, elem: Ty, size: nat, m: Mem, q: Ptr, vs: seq<Val>) {
    forall i :: 0 <= i < |vs| ==> Decode(env, elem, m, Plus(q, i * size)) == Some(vs[i])
  }

  /** How a value of each type lies in memory, in terms of its parts. */
  ghost predicate Lies(env: Cells, ty: Ty, m: Mem, p: Ptr, v: Val) {
    match ty
    case Bool => v.VBool? && CellAt(m, p, 0) == Lit(if v.b then 1 else 0)
    case Char => v.VNum? && IsScalar(v.x) && NumberLies(m, p, v.x, 4)
    case U(n) => v.VNum? && NumberLies(m, p, v.x, n)
    case I(n) => v.VNum? && NumberLies(m, p, v.x, n)
    case F32 => v.VNum? && NumberLies(m, p, v.x, 4)
    case F64 => v.VNum? && NumberLies(m, p, v.x, 8)
    case Struct(_, fields) => v.VRow? && FieldsLie(env, fields, m, p, v.vs)
    case Tuple(fields) => v.VRow? && FieldsLie(env, fields, m, p, v.vs)
    case Str(w) => v.VStr? && TextLies(m, p, w.ptrOff, w.lenOff, v.s) && NumberLies(m, Plus(p, w.capOff), |v.s|, 8)
    case StrRef(ptrOff, lenOff) => v.VStr? && TextLies(m, p, ptrOff, lenOff, v.s)
    case Vec(elem, size, _, w) =>
      && v.VVec? && NumberLies(m, Plus(p, w.lenOff), |v.vs|, 8)
      && (exists cap: nat :: |v.vs| <= cap && NumberLies(m, Plus(p, w.capOff), cap, 8))
      && exists q :: Has(m, Plus(p, w.ptrOff), PtrCells(q)) && ElementsLie(env, elem, size, m, q, v.vs)
    case Unit => v == VUnit
    case Boxed(inner, _, _) =>
      v.VBox? && exists q :: Has(m, p, PtrCells(q)) && Decode(env, inner, m, q) == Some(v.v)
    case Opt(d, ds, none, some, payload, _, inner) =>
      if v == VNone then forall k: nat :: k < ds ==> CellAt(m, Plus(p, d), k) == Lit(none / Pow256(k) % 256)
      else
        && v.VSome? && Decode(env, inner, m, Plus(p, payload)) == Some(v.v)
        && (exists k: nat :: k < ds && CellAt(m, Plus(p, d), k) != Lit(none / Pow256(k) % 256))
        && (some.Some? ==> forall k: nat :: k < ds ==> CellAt(m, Plus(p, d), k) == Lit(some.value / Pow256(k) % 256))
    case Ref(c) => c in env && Decode(env, env[c].ty, m, p) == Some(v)
    case Map(_, _) => false
    case Unknown(_) => false
  }

  ghost predicate FieldsLie(env: Cells, fields: seq<FieldTy>, m: Mem, p: Ptr, vs: seq<Val>) {
    && |vs| == |fields|
    && forall i :: 0 <= i < |fields| ==> Decode(env, fields[i].ty, m, Plus(p, fields[i].offset)) == Some(vs[i])
  }

  lemma {:induction false} LittleEndianLies(m: Mem, p: Ptr, x: int, n: nat)
    requires Has(m, p, Lits(LittleEndian(x, n)))
    ensures forall k: nat :: k < n ==> CellAt(m, p, k) == Lit(x / Pow256(k) % 256)
  {
    hide LittleEndian, Pow256;
    forall k: nat | k < n ensures CellAt(m, p, k) == Lit(x / Pow256(k) % 256) {
      LittleEndianAt(x, n, k);
    }
  }

  lemma {:induction false} OtherBytes(m: Mem, p: Ptr, x: nat, n: nat)
    requires !Has(m, p, Lits(LittleEndian(x, n))) && Fits(m, p, n)
    ensures exists k: nat :: k < n && CellAt(m, p, k) != Lit(x / Pow256(k) % 256)
  {
    hide LittleEndian, Pow256;
    var k :| 0 <= k < n && CellAt(m, p, k) != Lits(LittleEndian(x, n))[k];
    LittleEndianAt(x, n, k);
  }

  /** What is decoded lies there byte by byte. */
  lemma {:induction false} HeldLies(env: Cells, ty: Ty, m: Mem, p: Ptr, r: Rep)
    requires Holds(env, ty, m, p, r) && (ty.Opt? ==> Fits(m, Plus(p, ty.discOff), ty.discSize))
    ensures Lies(env, ty, m, p, Erase(r))
  {
    hide Has, Block, LittleEndian, Pow256, Lits, PtrCells, Plus, Fits, Decode, NumberLies, TextLies, FieldsLie,
         ElementsLie;
    match ty
    case Bool => BoolCell(m, p, r.b);
    case Char =>
      ScalarFits(r.x);
      NumberHeld(m, p, r.x, 4);
    case U(n) => NumberHeld(m, p, r.x, n);
    case I(n) => NumberHeld(m, p, r.x, n);
    case F32 => NumberHeld(m, p, r.x, 4);
    case F64 => NumberHeld(m, p, r.x, 8);
    case Struct(_, fields) => FieldsHeld(env, fields, m, p, r);
    case Tuple(fields) => FieldsHeld(env, fields, m, p, r);
    case Str(w) =>
      TextHeld(m, p, w.ptrOff, w.lenOff, r.q, r.s);
      NumberHeld(m, Plus(p, w.capOff), |r.s|, 8);
    case StrRef(ptrOff, lenOff) => TextHeld(m, p, ptrOff, lenOff, r.q, r.s);
    case Vec(elem, size, _, w) =>
      NumberHeld(m, Plus(p, w.lenOff), |r.rs|, 8);
      NumberHeld(m, Plus(p, w.capOff), r.cap, 8);
      ElementsHeld(env, elem, size, m, r.q, r.rs);
    case Unit =>
    case Boxed(inner, _, _) => DecodeHeld(env, inner, m, r.q, r.r);
    case Opt(d, ds, none, some, payload, _, inner) => OptionHeld(env, ty, m, p, r);
    case Ref(c) => DecodeHeld(env, env[c].ty, m, p, r);
  }

  lemma {:induction false} BoolCell(m: Mem, p: Ptr, b: bool)
    requires Has(m, p, Lits([if b then 1 else 0]))
    ensures CellAt(m, p, 0) == Lit(if b then 1 else 0)
  {}

  lemma {:induction false} NumberHeld(m: Mem, p: Ptr, x: nat, n: nat)
    requires Has(m, p, Lits(LittleEndian(x, n))) && x < Pow256(n)
    ensures NumberLies(m, p, x, n)
  {
    hide LittleEndian, Pow256, Has;
    LittleEndianLies(m, p, x, n);
  }

  lemma {:induction false} TextHeld(m: Mem, p: Ptr, ptrOff: nat, lenOff: nat, q: Ptr, s: seq<byte>)
    requires HoldsText(m, q, s) && Has(m, Plus(p, ptrOff), PtrCells(q)) && Has(m, Plus(p, lenOff), Word(|s|))
    ensures TextLies(m, p, ptrOff, lenOff, s)
  {
    hide LittleEndian, Pow256, PtrCells, Plus;
    NumberHeld(m, Plus(p, lenOff), |s|, 8);
  }

  lemma {:induction false} FieldsHeld(env: Cells, fields: seq<FieldTy>, m: Mem, p: Ptr, r: Rep)
    requires r.RRow? && HoldsRow(env, fields, m, p, r)
    ensures FieldsLie(env, fields, m, p, EraseAll(r.rs))
  {
    hide Holds, Decode, Erase;
    forall i | 0 <= i < |fields|
      ensures Decode(env, fields[i].ty, m, Plus(p, fields[i].offset)) == Some(EraseAll(r.rs)[i])
    {
      DecodeHeld(env, fields[i].ty, m, Plus(p, fields[i].offset), r.rs[i]);
    }
  }

  lemma {:induction false} ElementsHeld(env: Cells, elem: Ty, size: nat, m: Mem, q: Ptr, rs: seq<Rep>)
    requires forall i :: 0 <= i < |rs| ==> Holds(env, elem, m, Slot(q, i, size), rs[i])
    ensures ElementsLie(env, elem, size, m, q, EraseAll(rs))
  {
    hide Holds, Decode, Erase;
    forall i | 0 <= i < |rs| ensures Decode(env, elem, m, Plus(q, i * size)) == Some(EraseAll(rs)[i]) {
      DecodeHeld(env, elem, m, Slot(q, i, size), rs[i]);
    }
  }

  lemma {:induction false} OptionHeld(env: Cells, ty: Ty, m: Mem, p: Ptr, r: Rep)
    requires ty.Opt? && Holds(env, ty, m, p, r) && Fits(m, Plus(p, ty.discOff), ty.discSize)
    ensures Lies(env, ty, m, p, Erase(r))
  {
    hide Has, LittleEndian, Pow256, Lits, Plus, Fits, Decode;
    var q := Plus(p, ty.discOff);
    if r.RNone? {
      LittleEndianLies(m, q, ty.noneDiscr, ty.discSize);
    } else {
      DecodeHeld(env, ty.inner, m, Plus(p, ty.payloadOff), r.r);
      OtherBytes(m, q, ty.noneDiscr, ty.discSize);
      if ty.someDiscr.Some? {
        LittleEndianLies(m, q, ty.someDiscr.value, ty.discSize);
      }
    }
  }
}
