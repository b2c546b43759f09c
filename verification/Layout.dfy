/** Which layouts a plan may describe. */
module Layout {
  import opened Containers
  import opened Bytes
  import opened Plan
  import opened Utf8
  import opened Memory
  import opened Frames
  import opened Ints

  predicate Clear(a: nat, n: nat, b: nat, k: nat) {
    a + n <= b || b + k <= a
  }

  predicate WordsClear(w: SeqLayout) {
    Clear(w.ptrOff, 8, w.capOff, 8) && Clear(w.ptrOff, 8, w.lenOff, 8) && Clear(w.capOff, 8, w.lenOff, 8)
  }

  /** A niche: no value of the payload type ever has the bytes that mean `None`. */
  ghost predicate Niche(env: Cells, inner: Ty, payload: nat, d: nat, ds: nat, none: nat) {
    forall m, p, r :: Holds(env, inner, m, Plus(p, payload), r) ==> !Has(m, Plus(p, d), Disc(none, ds))
  }

  ghost predicate Sound(env: Cells, ty: Ty) {
    match ty
    case U(n) => IntSize(n) || n == 16
    case I(n) => IntSize(n) || n == 16
    case Struct(_, fields) =>
      && (forall i, j :: 0 <= i < j < |fields| ==> fields[i].name != fields[j].name)
      && SoundRow(env, fields)
    case Tuple(fields) => SoundRow(env, fields)
    case Str(w) => WordsClear(w)
    case Vec(elem, elemSize, _, w) =>
      Sound(env, elem) && 0 < elemSize && Size(env, elem) <= elemSize && WordsClear(w)
    case StrRef(ptrOff, lenOff) => Clear(ptrOff, 8, lenOff, 8)
    case Boxed(inner, size, align) => Sound(env, inner) && Size(env, inner) <= size
    case Opt(d, ds, none, some, payload, size, inner) =>
      && Sound(env, inner) && IntSize(ds) && d + ds <= size && payload + Size(env, inner) <= size
      && (match some
          case Some(s) =>
            Clear(d, ds, payload, Size(env, inner)) && LittleEndian(s, ds) != LittleEndian(none, ds)
          case None => Niche(env, inner, payload, d, ds, none))
    case Ref(c) => c in env
    case Map(_, _) => false
    case Unknown(_) => false
    case _ => true
  }

  ghost predicate SoundRow(env: Cells, fields: seq<FieldTy>) {
    && (forall i :: 0 <= i < |fields| ==> Sound(env, fields[i].ty))
    && forall i, j :: 0 <= i < j < |fields| ==>
         Clear(fields[i].offset, Size(env, fields[i].ty), fields[j].offset, Size(env, fields[j].ty))
  }

  ghost predicate SoundCells(env: Cells) {
    Sized(env) && forall c :: c in env ==> !env[c].ty.Ref? && Sound(env, env[c].ty)
  }

  // ---- The niches Rust uses -------------------------------------------------------

  lemma {:induction false} LitsDiffer(m: Mem, p: Ptr, a: seq<byte>, b: seq<byte>)
    requires Has(m, p, Lits(a)) && |a| == |b| && a != b
    ensures !Has(m, p, Lits(b))
  {
    var k :| 0 <= k < |a| && a[k] != b[k];
    assert CellAt(m, p, k) == Lits(a)[k];
    assert Lits(b)[k] == Lit(b[k]);
  }

  /** A stored pointer is never null. */
  lemma {:induction false} PointerNotNull(m: Mem, p: Ptr, q: Ptr)
    requires Has(m, p, PtrCells(q)) && (q.Dangling? ==> 0 < q.a < Pow256(8))
    ensures !Has(m, p, Disc(0, 8))
  {
    if q.Dangling? {
      DivModUnique(q.a, Pow256(8), 0, q.a);
      DivModUnique(0, Pow256(8), 0, 0);
      SameBytesSameResidue(q.a, 0, 8);
      LitsDiffer(m, p, LittleEndian(q.a, 8), LittleEndian(0, 8));
    } else {
      assert CellAt(m, p, 0) == PtrCells(q)[0];
      assert Disc(0, 8)[0].Lit?;
    }
  }

  /** `Option<Box<T>>`: the pointer itself. */
  lemma {:induction false} BoxNiche(env: Cells, inner: Ty, size: nat, align: nat, at: nat)
    requires Max(align, 1) < Pow256(8)
    ensures Niche(env, Boxed(inner, size, align), at, at, 8, 0)
  {
    hide Has, Pow256, PtrCells;
    forall m, p, r | Holds(env, Boxed(inner, size, align), m, Plus(p, at), r)
      ensures !Has(m, Plus(p, at), Disc(0, 8))
    {
      PointerNotNull(m, Plus(p, at), r.q);
    }
  }

  /** `Option<&str>`: the same. */
  lemma {:induction false} StrRefNiche(env: Cells, ty: Ty, at: nat)
    requires ty.StrRef?
    ensures Niche(env, ty, at, at + ty.ptrOff, 8, 0)
  {
    hide Has, Pow256, PtrCells, Word;
    forall m, p, r | Holds(env, ty, m, Plus(p, at), r)
      ensures !Has(m, Plus(p, at + ty.ptrOff), Disc(0, 8))
    {
      OneFits();
      assert Plus(Plus(p, at), ty.ptrOff) == Plus(p, at + ty.ptrOff);
      PointerNotNull(m, Plus(p, at + ty.ptrOff), r.q);
    }
  }

  lemma {:induction false} OneFits()
    ensures 1 < Pow256(8)
  {
    PowerMonotone(1, 8);
  }

  /** `Option<char>`: a number above every scalar. */
  lemma {:induction false} CharNiche(env: Cells, at: nat, none: nat)
    requires 0x11_0000 <= none < Pow256(4)
    ensures Niche(env, Char, at, at, 4, none)
  {
    hide Has, Pow256, LittleEndian;
    forall m, p, r | Holds(env, Char, m, Plus(p, at), r)
      ensures !Has(m, Plus(p, at), Disc(none, 4))
    {
      ScalarFits(r.x);
      SmallMod(none, 4);
      SmallMod(r.x, 4);
      SameBytesSameResidue(r.x, none, 4);
      LitsDiffer(m, Plus(p, at), LittleEndian(r.x, 4), LittleEndian(none, 4));
    }
  }

  /** `Option<String>`: a capacity above `isize::MAX`. */
  lemma {:induction false} StringNiche(env: Cells, w: SeqLayout, at: nat, none: nat)
    requires Pow256(8) <= 2 * none < 2 * Pow256(8)
    ensures Niche(env, Str(w), at, at + w.capOff, 8, none)
  {
    hide Has, Pow256;
    forall m, p, r | Holds(env, Str(w), m, Plus(p, at), r)
      ensures !Has(m, Plus(p, at + w.capOff), Disc(none, 8))
    {
      WordsDiffer(m, Plus(Plus(p, at), w.capOff), |r.s|, none);
    }
  }

  /** `Option<Option<bool>>` and its like: a byte no boolean and no inner tag uses. */
  lemma {:induction false} BoolNiche(env: Cells, at: nat, none: nat)
    requires 2 <= none < 256
    ensures Niche(env, Bool, at, at, 1, none)
  {
    hide Has;
    forall m, p, r | Holds(env, Bool, m, Plus(p, at), r)
      ensures !Has(m, Plus(p, at), Disc(none, 1))
    {
      var x: byte := if r.b then 1 else 0;
      assert Lits([x]) == Lits([if r.b then 1 else 0]);
      assert LittleEndian(none, 1) == [none % 256] + LittleEndian(none / 256, 0);
      assert LittleEndian(none, 1)[0] != [x][0];
      LitsDiffer(m, Plus(p, at), [x], LittleEndian(none, 1));
    }
  }

  /** `Option<Vec<T>>`: the same. */
  lemma {:induction false} VecNiche(env: Cells, ty: Ty, at: nat, none: nat)
    requires ty.Vec? && Pow256(8) <= 2 * none < 2 * Pow256(8)
    ensures Niche(env, ty, at, at + ty.words.capOff, 8, none)
  {
    hide Has, Pow256, Block;
    forall m, p, r | Holds(env, ty, m, Plus(p, at), r)
      ensures !Has(m, Plus(p, at + ty.words.capOff), Disc(none, 8))
    {
      WordsDiffer(m, Plus(Plus(p, at), ty.words.capOff), r.cap, none);
    }
  }

  lemma {:induction false} WordsDiffer(m: Mem, p: Ptr, x: nat, y: nat)
    requires Has(m, p, Word(x)) && x < Pow256(8) && y < Pow256(8) && x != y
    ensures !Has(m, p, Disc(y, 8))
  {
    hide Has, Pow256;
    DivModUnique(x, Pow256(8), 0, x);
    DivModUnique(y, Pow256(8), 0, y);
    SameBytesSameResidue(x, y, 8);
    LitsDiffer(m, p, LittleEndian(x, 8), LittleEndian(y, 8));
  }

  /** A field's niche is its struct's. */
  lemma {:induction false} FieldNiche(env: Cells, ty: Ty, i: nat, at: nat, d: nat, ds: nat, none: nat)
    requires (ty.Struct? || ty.Tuple?) && i < |ty.fields|
    requires Niche(env, ty.fields[i].ty, at + ty.fields[i].offset, d, ds, none)
    ensures Niche(env, ty, at, d, ds, none)
  {
    hide Has;
    var f := ty.fields[i];
    forall m, p, r | Holds(env, ty, m, Plus(p, at), r) ensures !Has(m, Plus(p, d), Disc(none, ds)) {
      assert HoldsRow(env, ty.fields, m, Plus(p, at), r);
      assert Holds(env, f.ty, m, Plus(Plus(p, at), f.offset), r.rs[i]);
      assert Plus(Plus(p, at), f.offset) == Plus(p, at + f.offset);
    }
  }

  /** A back-edge has the niches of what it leads to. */
  lemma {:induction false} RefNiche(env: Cells, c: nat, at: nat, d: nat, ds: nat, none: nat)
    requires c in env && Niche(env, env[c].ty, at, d, ds, none)
    ensures Niche(env, Ref(c), at, d, ds, none)
  {
    hide Has;
    forall m, p, r | Holds(env, Ref(c), m, Plus(p, at), r) ensures !Has(m, Plus(p, d), Disc(none, ds)) {
      assert Holds(env, env[c].ty, m, Plus(p, at), r);
    }
  }

  /** An option in an option takes a value that neither the inner `None` nor the inner
      payload, or its tag, uses. */
  lemma {:induction false} OptionNiche(env: Cells, ty: Ty, at: nat, none: nat)
    requires ty.Opt? && LittleEndian(none, ty.discSize) != LittleEndian(ty.noneDiscr, ty.discSize)
    requires match ty.someDiscr
             case Some(tag) => LittleEndian(none, ty.discSize) != LittleEndian(tag, ty.discSize)
             case None => Niche(env, ty.inner, at + ty.payloadOff, at + ty.discOff, ty.discSize, none)
    ensures Niche(env, ty, at, at + ty.discOff, ty.discSize, none)
  {
    hide Has, Niche, LittleEndian;
    forall m, p, r | Holds(env, ty, m, Plus(p, at), r)
      ensures !Has(m, Plus(p, at + ty.discOff), Disc(none, ty.discSize))
    {
      assert Plus(Plus(p, at), ty.discOff) == Plus(p, at + ty.discOff);
      assert Plus(Plus(p, at), ty.payloadOff) == Plus(p, at + ty.payloadOff);
      var q, tag := Plus(p, at + ty.discOff), LittleEndian(none, ty.discSize);
      if r.RNone? {
        LitsDiffer(m, q, LittleEndian(ty.noneDiscr, ty.discSize), tag);
      } else if ty.someDiscr.Some? {
        LitsDiffer(m, q, LittleEndian(ty.someDiscr.value, ty.discSize), tag);
      } else {
        NicheHolds(env, ty.inner, at + ty.payloadOff, at + ty.discOff, ty.discSize, none, m, p, r.r);
      }
    }
    NicheAll(env, ty, at, at + ty.discOff, ty.discSize, none);
  }

  lemma {:induction false} NicheHolds(env: Cells, inner: Ty, at: nat, d: nat, ds: nat, none: nat, m: Mem, p: Ptr,
                                      r: Rep)
    requires Niche(env, inner, at, d, ds, none) && Holds(env, inner, m, Plus(p, at), r)
    ensures !Has(m, Plus(p, d), Disc(none, ds))
  {
    hide Has, Holds;
  }

  lemma {:induction false} NicheAll(env: Cells, ty: Ty, at: nat, d: nat, ds: nat, none: nat)
    requires forall m, p, r :: Holds(env, ty, m, Plus(p, at), r) ==> !Has(m, Plus(p, d), Disc(none, ds))
    ensures Niche(env, ty, at, d, ds, none)
  {
    hide Has, Holds;
  }

  // ---- A plan with one of everything ------------------------------------------------------

  lemma {:induction false} RowBound(env: Cells, fields: seq<FieldTy>, n: nat)
    requires forall i :: 0 <= i < |fields| ==> fields[i].offset + Size(env, fields[i].ty) <= n
    ensures RowSize(env, fields) <= n
  {
    hide Size;
    if fields != [] {
      RowBound(env, fields[1..], n);
    }
  }

  /** The layout of `struct Node { id: u64, name: String, tags: Vec<u8>, next:
      Option<Box<Node>>, score: Option<u64>, mark: Option<char>, title: &str, pair: (f64, i16) }`. */
  function NodeFields(): (fs: seq<FieldTy>)
    ensures |fs| == 8
  {
    var words := SeqLayout(8, 0, 16);
    [FieldTy([105, 100], 0, U(8)),
     FieldTy([110, 97, 109, 101], 8, Str(words)),
     FieldTy([116, 97, 103, 115], 32, Ty.Vec(U(1), 1, 1, words)),
     FieldTy([110, 101, 120, 116], 56, Opt(0, 8, 0, None, 0, 8, Boxed(Ref(0), 120, 8))),
     FieldTy([115, 99, 111, 114, 101], 64, Opt(0, 8, 0, Some(1), 8, 16, U(8))),
     FieldTy([109, 97, 114, 107], 80, Opt(0, 4, 0x11_0000, None, 0, 4, Char)),
     FieldTy([116, 105, 116, 108, 101], 88, StrRef(0, 8)),
     FieldTy([112, 97, 105, 114], 104, Tuple([FieldTy([95, 95, 48], 0, F64), FieldTy([95, 95, 49], 8, I(2))]))]
  }

  /** It is sound: recursive, with niches, tags, strings and buffers. */
  lemma {:induction false} NodeIsSound()
    ensures var node := Struct("Node", NodeFields());
            var env := map[0 := RecBody(node, 120)];
            Sound(env, node) && SoundCells(env) && Size(env, node) <= 120
  {
    hide Niche, Sound, SoundRow, SoundCells, Size, RowSize, NodeFields, NodeSize;
    var fields := NodeFields();
    var node := Struct("Node", fields);
    var env := map[0 := RecBody(node, 120)];
    forall i | 0 <= i < |fields| ensures Sound(env, fields[i].ty) && Size(env, fields[i].ty) <= NodeSize(i) {
      NodePart(env, i);
    }
    NodeRow(env, fields);
    NamesDiffer(fields);
    OneCellSound(env, node, 120);
  }

  lemma {:induction false} OneCellSound(env: Cells, ty: Ty, n: nat)
    requires ty.Struct? && env == map[0 := RecBody(ty, n)] && SoundRow(env, ty.fields) && RowSize(env, ty.fields) <= n
    requires forall i, j :: 0 <= i < j < |ty.fields| ==> ty.fields[i].name != ty.fields[j].name
    ensures Sound(env, ty) && SoundCells(env) && Size(env, ty) <= n
  {
    hide SoundRow, RowSize;
  }

  lemma {:induction false} NodePart(env: Cells, i: nat)
    requires 0 in env && env[0].size == 120 && i < 8
    ensures Sound(env, NodeFields()[i].ty) && Size(env, NodeFields()[i].ty) <= NodeSize(i)
  {
    hide Niche, SoundRow, RowSize, LittleEndian;
    var ty := NodeFields()[i].ty;
    if i == 3 {
      BoxFits();
      BoxNiche(env, Ref(0), 120, 8, 0);
      assert ty.inner == Boxed(Ref(0), 120, 8) && Sound(env, ty.inner);
    } else if i == 4 {
      TagsDiffer();
    } else if i == 5 {
      BoxFits();
      CharNiche(env, 0, 0x11_0000);
    } else if i == 7 {
      PairSound(env, ty.fields);
      RowBound(env, ty.fields, 10);
    }
  }

  function NodeSize(i: nat): nat {
    if i == 0 then 8 else if i <= 2 then 24 else if i == 3 then 8 else if i == 4 then 16 else if i == 5 then 4
    else if i == 6 then 16 else 10
  }

  lemma {:induction false} NodeRow(env: Cells, fields: seq<FieldTy>)
    requires fields == NodeFields()
    requires forall i :: 0 <= i < |fields| ==> Sound(env, fields[i].ty) && Size(env, fields[i].ty) <= NodeSize(i)
    ensures |fields| == 8 && SoundRow(env, fields) && RowSize(env, fields) <= 120
  {
    hide Sound, Size, RowSize;
    RowBound(env, fields, 120);
    forall i, j | 0 <= i < j < |fields|
      ensures Clear(fields[i].offset, Size(env, fields[i].ty), fields[j].offset, Size(env, fields[j].ty))
    {
      assert fields[i].offset + NodeSize(i) <= fields[j].offset;
    }
  }

  lemma {:induction false} NamesDiffer(fields: seq<FieldTy>)
    requires fields == NodeFields()
    ensures forall i, j :: 0 <= i < j < |fields| ==> fields[i].name != fields[j].name
  {
    forall i, j | 0 <= i < j < |fields| ensures fields[i].name != fields[j].name {
      assert fields[i].name[0] != fields[j].name[0] || fields[i].name[1] != fields[j].name[1];
    }
  }

  lemma {:induction false} PairSound(env: Cells, pair: seq<FieldTy>)
    requires pair == [FieldTy([95, 95, 48], 0, F64), FieldTy([95, 95, 49], 8, I(2))]
    ensures SoundRow(env, pair)
  {}

  lemma {:induction false} BoxFits()
    ensures 8 < Pow256(8) && 0x11_0000 < Pow256(4)
  {
    PowerMonotone(2, 8);
    assert Pow256(2) == 0x1_0000 && Pow256(4) == 0x1_0000_0000;
  }

  lemma {:induction false} TagsDiffer()
    ensures LittleEndian(1, 8) != LittleEndian(0, 8)
  {
    assert LittleEndian(1, 8)[0] != LittleEndian(0, 8)[0];
  }
}
