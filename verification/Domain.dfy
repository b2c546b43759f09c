/** How far the common domain reaches: which documents the interpreter accepts once the
    compiled parser does, where the two part, and what of a struct's text does not matter. */
module Domain {
  import opened Containers
  import opened Bytes
  import opened Utf8
  import opened Docs
  import opened Json
  import opened Plan
  import opened Values
  import opened Binding
  import JsonParser

  // ---- When the interpreter accepts what the compiled parser reads ------------------

  predicate IntegerFits(ty: Ty, d: Doc) {
    d.DNum? ==>
      match ty
      case U(_) => Integer(d.tok, false).Some? ==> FitsU128(Integer(d.tok, false).value)
      case I(_) => Integer(d.tok, true).Some? ==> FitsI128(Integer(d.tok, true).value)
      case _ => true
  }

  /** No integer that is read is too long for its type's 128-bit parse, which panics where
      the compiled parser wraps. Nothing is asked of values read as other types. */
  ghost predicate IntegersFit(env: Cells, ty: Ty, d: Doc, v: Val) {
    Throughout(env, IntegerFits, ty, d, v)
  }

  /** A well-formed document that fits in memory. */
  predicate Moderate(d: Doc) {
    WellFormed(d) && 2 * |Print(d)| < Pow256(8)
  }

  lemma {:induction false} ItemsModerate(items: List<Item>, i: nat)
    requires WellFormedItems(items) && 2 * |PrintItems(items)| < Pow256(8) && i < |Vals(items)|
    ensures Moderate(Vals(items)[i])
    decreases items
  {
    hide WellFormed, Print, Pow256;
    if i > 0 {
      ItemsModerate(items.tail, i - 1);
      assert Vals(items)[i] == Vals(items.tail)[i - 1];
    }
  }

  lemma {:induction false} LookupModerate(ms: List<Member>, key: seq<byte>)
    requires WellFormedMembers(ms) && 2 * |PrintMembers(ms)| < Pow256(8) && LastLookup(ms, key).Some?
    ensures Moderate(LastLookup(ms, key).value)
    decreases ms
  {
    hide WellFormed, Print, Pow256, Body, Legal;
    if LastLookup(ms.tail, key).Some? {
      LookupModerate(ms.tail, key);
    } else {
      assert |Print(ms.head.item.val)| <= |PrintItem(ms.head.item)| <= |PrintMember(ms.head)|;
    }
  }

  lemma {:induction false} ArrayModerate(d: Doc)
    requires d.DArr? && Moderate(d)
    ensures WellFormedItems(d.items) && 2 * |PrintItems(d.items)| < Pow256(8)
  {
    hide PrintItems, WellFormedItems, Pow256;
  }

  lemma {:induction false} ObjectModerate(d: Doc)
    requires d.DObj? && Moderate(d)
    ensures WellFormedMembers(d.members) && 2 * |PrintMembers(d.members)| < Pow256(8)
  {
    hide PrintMembers, WellFormedMembers, Pow256;
  }

  /** The interpreter takes the tree, whatever value it makes of it. */
  ghost predicate Bindable(env: Cells, fl: Floats, ty: Ty, j: Json) {
    exists v :: Binds(env, fl, ty, j, v)
  }

  ghost function Bound(env: Cells, fl: Floats, ty: Ty, j: Json): (v: Val)
    requires Bindable(env, fl, ty, j)
    ensures Binds(env, fl, ty, j, v)
  {
    var v :| Binds(env, fl, ty, j, v);
    v
  }

  /** Of a document the compiled parser reads, with keys both find alike, the interpreter
      takes the tree exactly if the integers fit. */
  lemma {:induction false} Accepted(env: Cells, fl: Floats, n: nat, ty: Ty, d: Doc, v: Val)
    requires Moderate(d) && Reads(env, fl, n, ty, d, v) && KeysAlike(env, ty, d, v)
    ensures Bindable(env, fl, ty, Tree(d)) <==> IntegersFit(env, ty, d, v)
    decreases n, if ty.Ref? then 3 else 2
  {
    hide Lookup, LastLookup, Find, Moderate, ReadsStruct, ReadsTuple, ReadsField, Readable, BindsStruct,
         ThroughoutFields, ThroughoutItems, Trees, Pairs, Vals, Integer, Pow256, EncodeAll, Number,
         Text, PassedText, BufferFits, AsU128, AsI128, FirstRaw, FitsU128, FitsI128;
    match ty
    case Struct(_, _) => StructAccepted(env, fl, n - 1, ty, d, v);
    case Tuple(_) => TupleAccepted(env, fl, n - 1, ty, d, v);
    case Vec(_, _, _, _) => VecAccepted(env, fl, n - 1, ty, d, v);
    case Boxed(_, _, _) => WrappedAccepted(env, fl, n, ty, d, v);
    case Opt(_, _, _, _, _, _, _) => WrappedAccepted(env, fl, n, ty, d, v);
    case Ref(c) => RefAccepted(env, fl, n, c, d, v);
    case _ => ScalarAccepted(env, fl, n, ty, d, v);
  }

  lemma {:induction false} RefAccepted(env: Cells, fl: Floats, n: nat, c: nat, d: Doc, v: Val)
    requires Moderate(d) && Reads(env, fl, n, Ref(c), d, v) && KeysAlike(env, Ref(c), d, v)
    ensures Bindable(env, fl, Ref(c), Tree(d)) <==> IntegersFit(env, Ref(c), d, v)
    decreases n, 3, 0
  {
    hide Moderate;
    Accepted(env, fl, n, env[c].ty, d, v);
    forall w ensures Binds(env, fl, Ref(c), Tree(d), w) <==> Binds(env, fl, env[c].ty, Tree(d), w) {}
  }

  lemma {:induction false} WrappedAccepted(env: Cells, fl: Floats, n: nat, ty: Ty, d: Doc, v: Val)
    requires Moderate(d) && Reads(env, fl, n, ty, d, v) && KeysAlike(env, ty, d, v) && (ty.Boxed? || ty.Opt?)
    ensures Bindable(env, fl, ty, Tree(d)) <==> IntegersFit(env, ty, d, v)
    decreases n, 1
  {
    hide Moderate;
    if ty.Opt? && d.DNull? {
      assert Binds(env, fl, ty, Tree(d), VNone);
    } else {
      Accepted(env, fl, n - 1, ty.inner, d, v.v);
      if Bindable(env, fl, ty.inner, Tree(d)) {
        var w := Bound(env, fl, ty.inner, Tree(d));
        assert Binds(env, fl, ty, Tree(d), if ty.Boxed? then VBox(w) else VSome(w));
      }
      if Bindable(env, fl, ty, Tree(d)) {
        var w := Bound(env, fl, ty, Tree(d));
        assert Binds(env, fl, ty.inner, Tree(d), w.v);
      }
    }
  }

  lemma {:induction false} ScalarAccepted(env: Cells, fl: Floats, n: nat, ty: Ty, d: Doc, v: Val)
    requires Moderate(d) && Reads(env, fl, n, ty, d, v)
    requires !(ty.Struct? || ty.Tuple? || ty.Vec? || ty.Boxed? || ty.Opt? || ty.Ref?)
    ensures Bindable(env, fl, ty, Tree(d)) <==> IntegersFit(env, ty, d, v)
  {
    hide Encode, Body, Text, PassedText, EncodeAll, Integer, Pow256, Moderate, Number, Trees, Pairs, FirstRaw,
         AsU128, AsI128, FitsU128, FitsI128;
    match ty
    case Char => CharAccepted(env, fl, d);
    case Str(_) => StringAccepted(env, fl, ty, d);
    case StrRef(_, _) => StringAccepted(env, fl, ty, d);
    case U(_) => IntegerAccepted(d);
      assert IntegersFit(env, ty, d, v) ==> Binds(env, fl, ty, Tree(d), v);
    case I(_) => IntegerAccepted(d);
      assert IntegersFit(env, ty, d, v) ==> Binds(env, fl, ty, Tree(d), v);
    case Bool => assert Binds(env, fl, ty, Tree(d), v);
    case F32 => assert Binds(env, fl, ty, Tree(d), v);
    case F64 => assert Binds(env, fl, ty, Tree(d), v);
    case Unit => assert Binds(env, fl, ty, Tree(d), v);
    case _ =>
  }

  lemma {:induction false} IntegerAccepted(d: Doc)
    requires d.DNum?
    ensures var r := Integer(d.tok, false); AsU128(Tree(d)) == if r.Some? && FitsU128(r.value) then r else None
    ensures var r := Integer(d.tok, true); AsI128(Tree(d)) == if r.Some? && FitsI128(r.value) then r else None
  {
    hide Pow256, Integer;
  }

  lemma {:induction false} StringAccepted(env: Cells, fl: Floats, ty: Ty, d: Doc)
    requires d.DStr? && Moderate(d) && (ty.Str? || ty.StrRef?)
    ensures Bindable(env, fl, ty, Tree(d))
  {
    hide EncodeAll, PassedText, Body, Pow256, Legal;
    EscapedIsShorter(d.body);
    assert Binds(env, fl, ty, Tree(d), VStr(EncodeAll(PassedText(d.body))));
  }

  lemma {:induction false} CharAccepted(env: Cells, fl: Floats, d: Doc)
    requires d.DStr?
    ensures Bindable(env, fl, Char, Tree(d))
  {
    hide EncodeAll, PassedText;
    var cs := PassedText(d.body);
    assert Binds(env, fl, Char, Tree(d), VNum(if cs == [] then 0 else cs[0]));
  }

  ghost predicate FieldBound(env: Cells, fl: Floats, f: FieldTy, j: Json, v: Val) {
    match Find(Entries(j), f.name)
    case Some(k) => Binds(env, fl, f.ty, Entries(j)[k].1, v)
    case None => f.ty.Opt? && v == VNone
  }

  ghost predicate FieldBindable(env: Cells, fl: Floats, f: FieldTy, j: Json) {
    exists v :: FieldBound(env, fl, f, j, v)
  }

  ghost function BoundField(env: Cells, fl: Floats, f: FieldTy, j: Json): (v: Val)
    requires FieldBindable(env, fl, f, j)
    ensures FieldBound(env, fl, f, j, v)
  {
    var v :| FieldBound(env, fl, f, j, v);
    v
  }

  /** A struct can be bound exactly if each of its fields can. */
  lemma {:induction false} FieldsBindable(env: Cells, fl: Floats, ty: Ty, j: Json)
    requires ty.Struct?
    ensures Bindable(env, fl, ty, j) <==> forall i :: 0 <= i < |ty.fields| ==> FieldBindable(env, fl, ty.fields[i], j)
  {
    hide Find;
    var fields := ty.fields;
    if Bindable(env, fl, ty, j) {
      var v := Bound(env, fl, ty, j);
      assert BindsStruct(env, fl, fields, j, v);
      forall i | 0 <= i < |fields| ensures FieldBindable(env, fl, fields[i], j) {
        assert FieldBound(env, fl, fields[i], j, v.vs[i]);
      }
    }
    if forall i :: 0 <= i < |fields| ==> FieldBindable(env, fl, fields[i], j) {
      var vs := seq(|fields|, i requires 0 <= i < |fields| => BoundField(env, fl, fields[i], j));
      forall i | 0 <= i < |fields| ensures FieldBound(env, fl, fields[i], j, vs[i]) {}
      assert BindsStruct(env, fl, fields, j, VRow(vs));
      assert Binds(env, fl, ty, j, VRow(vs));
    }
  }

  lemma {:induction false} StructAccepted(env: Cells, fl: Floats, n: nat, ty: Ty, d: Doc, v: Val)
    requires ty.Struct? && d.DObj? && Moderate(d) && v.VRow? && ReadsStruct(env, fl, n, ty.fields, d.members, v.vs)
    requires FieldsAlike(ty, d) && ThroughoutFields(env, FieldsAlike, ty.fields, d.members, v)
    ensures Bindable(env, fl, ty, Tree(d)) <==> ThroughoutFields(env, IntegerFits, ty.fields, d.members, v)
    decreases n, 4
  {
    hide Reads, Binds, BindsStruct, Lookup, LastLookup, Find, Pairs, Throughout, KeysClear, Readable, HasMember,
         PrintMembers, WellFormedMembers, FieldBindable, Bindable;
    var fields := ty.fields;
    FieldsBindable(env, fl, ty, Tree(d));
    forall i | 0 <= i < |fields|
      ensures FieldBindable(env, fl, fields[i], Tree(d)) <==>
                (LastLookup(d.members, fields[i].name).Some? ==>
                   Throughout(env, IntegerFits, fields[i].ty, LastLookup(d.members, fields[i].name).value, v.vs[i]))
    {
      FieldAccepted(env, fl, n, fields, d, v, i);
    }
  }

  lemma {:induction false} FieldAccepted(env: Cells, fl: Floats, n: nat, fields: seq<FieldTy>, d: Doc, v: Val, i: nat)
    requires d.DObj? && Moderate(d) && v.VRow? && ReadsStruct(env, fl, n, fields, d.members, v.vs) && i < |fields|
    requires FieldsAlike(Struct("", fields), d) && ThroughoutFields(env, FieldsAlike, fields, d.members, v)
    ensures FieldBindable(env, fl, fields[i], Tree(d)) <==>
              (LastLookup(d.members, fields[i].name).Some? ==>
                 Throughout(env, IntegerFits, fields[i].ty, LastLookup(d.members, fields[i].name).value, v.vs[i]))
    decreases n, 4, 0
  {
    hide Reads, Binds, Lookup, LastLookup, Find, Pairs, Throughout, KeysClear, Readable, HasMember,
         PrintMembers, WellFormedMembers;
    var f, j := fields[i], Tree(d);
    ObjectModerate(d);
    FindIsLookup(d.members, f.name);
    assert ReadsField(env, fl, n, f, LastLookup(d.members, f.name), v.vs[i]);
    match LastLookup(d.members, f.name)
    case None => assert FieldBound(env, fl, f, j, VNone);
    case Some(x) =>
      LookupModerate(d.members, f.name);
      Accepted(env, fl, n, f.ty, x, v.vs[i]);
      forall w ensures FieldBound(env, fl, f, j, w) <==> Binds(env, fl, f.ty, Tree(x), w) {}
  }

  lemma {:induction false} ItemsBindable(env: Cells, fl: Floats, ty: Ty, js: seq<Json>)
    requires ty.Tuple? && |ty.fields| <= |js|
    ensures Bindable(env, fl, ty, Array(js)) <==>
            forall i :: 0 <= i < |ty.fields| ==> Bindable(env, fl, ty.fields[i].ty, js[i])
  {
    var fields := ty.fields;
    if Bindable(env, fl, ty, Array(js)) {
      var w := Bound(env, fl, ty, Array(js));
      forall i | 0 <= i < |fields| ensures Bindable(env, fl, fields[i].ty, js[i]) {
        assert Binds(env, fl, fields[i].ty, js[i], w.vs[i]);
      }
    }
    if forall i :: 0 <= i < |fields| ==> Bindable(env, fl, fields[i].ty, js[i]) {
      var vs := seq(|fields|, i requires 0 <= i < |fields| => Bound(env, fl, fields[i].ty, js[i]));
      assert Binds(env, fl, ty, Array(js), VRow(vs));
    }
  }

  lemma {:induction false} TupleAccepted(env: Cells, fl: Floats, n: nat, ty: Ty, d: Doc, v: Val)
    requires ty.Tuple? && d.DArr? && Moderate(d) && v.VRow? && ReadsTuple(env, fl, n, ty.fields, d.items, v.vs)
    requires ThroughoutItems(env, FieldsAlike, ty.fields, d.items, v)
    ensures Bindable(env, fl, ty, Tree(d)) <==> ThroughoutItems(env, IntegerFits, ty.fields, d.items, v)
    decreases n, 4
  {
    hide Reads, Binds, Bindable, Trees, Vals, Throughout, PrintItems, WellFormedItems;
    ArrayModerate(d);
    TreesAreVals(d.items);
    forall i | 0 <= i < |ty.fields|
      ensures Bindable(env, fl, ty.fields[i].ty, Trees(d.items)[i])
              <==> Throughout(env, IntegerFits, ty.fields[i].ty, Vals(d.items)[i], v.vs[i])
    {
      ItemsModerate(d.items, i);
      Accepted(env, fl, n, ty.fields[i].ty, Vals(d.items)[i], v.vs[i]);
    }
    ItemsBindable(env, fl, ty, Trees(d.items));
  }

  lemma {:induction false} ElementsBindable(env: Cells, fl: Floats, ty: Ty, js: seq<Json>)
    requires ty.Vec? && 2 * (|js| * ty.elemSize) < Pow256(8)
    ensures Bindable(env, fl, ty, Array(js)) <==> forall i :: 0 <= i < |js| ==> Bindable(env, fl, ty.elem, js[i])
  {
    hide Pow256;
    if Bindable(env, fl, ty, Array(js)) {
      var w := Bound(env, fl, ty, Array(js));
      forall i | 0 <= i < |js| ensures Bindable(env, fl, ty.elem, js[i]) {
        assert Binds(env, fl, ty.elem, js[i], w.vs[i]);
      }
    }
    if forall i :: 0 <= i < |js| ==> Bindable(env, fl, ty.elem, js[i]) {
      var vs := seq(|js|, i requires 0 <= i < |js| => Bound(env, fl, ty.elem, js[i]));
      assert Binds(env, fl, ty, Array(js), VVec(vs));
    }
  }

  lemma {:induction false} VecAccepted(env: Cells, fl: Floats, n: nat, ty: Ty, d: Doc, v: Val)
    requires ty.Vec? && d.DArr? && Moderate(d) && v.VVec?
    requires |v.vs| == |Vals(d.items)| && BufferFits(|v.vs|, ty.elemSize)
    requires forall i :: 0 <= i < |v.vs| ==> Throughout(env, FieldsAlike, ty.elem, Vals(d.items)[i], v.vs[i])
    requires forall i :: 0 <= i < |v.vs| ==> Reads(env, fl, n, ty.elem, Vals(d.items)[i], v.vs[i])
    ensures Bindable(env, fl, ty, Tree(d)) <==>
              forall i :: 0 <= i < |v.vs| ==> Throughout(env, IntegerFits, ty.elem, Vals(d.items)[i], v.vs[i])
    decreases n, 4
  {
    hide Reads, Binds, Bindable, Trees, Vals, Throughout, PrintItems, WellFormedItems, Pow256;
    ArrayModerate(d);
    TreesAreVals(d.items);
    if |v.vs| > 0 {
      MulMonotone(|v.vs|, Max(4, 2 * |v.vs| - 2), ty.elemSize);
    }
    forall i | 0 <= i < |v.vs|
      ensures Bindable(env, fl, ty.elem, Trees(d.items)[i])
              <==> Throughout(env, IntegerFits, ty.elem, Vals(d.items)[i], v.vs[i])
    {
      ItemsModerate(d.items, i);
      Accepted(env, fl, n, ty.elem, Vals(d.items)[i], v.vs[i]);
    }
    ElementsBindable(env, fl, ty, Trees(d.items));
  }

  /** It binds the value the compiled parser leaves exactly if strings are alike, too. */
  lemma {:induction false} SameValueBound(env: Cells, fl: Floats, n: nat, ty: Ty, d: Doc, v: Val)
    requires Moderate(d) && Reads(env, fl, n, ty, d, v) && KeysAlike(env, ty, d, v)
    ensures Binds(env, fl, ty, Tree(d), v) <==> IntegersFit(env, ty, d, v) && TextsAlike(env, ty, d, v)
  {
    hide Reads, Binds, Throughout, Moderate, Tree;
    Accepted(env, fl, n, ty, d, v);
    if Bindable(env, fl, ty, Tree(d)) {
      ReadingsAgree(env, fl, n, ty, d, v, Bound(env, fl, ty, Tree(d)));
    }
    if Binds(env, fl, ty, Tree(d), v) {
      ReadingsAgree(env, fl, n, ty, d, v, v);
    }
  }

  function Ten(k: nat): nat {
    if k == 0 then 1 else 10 * Ten(k - 1)
  }

  /** A one and zeros. */
  function TenToken(k: nat): (s: seq<byte>)
    ensures |s| == k + 1 && forall i :: 0 <= i < |s| ==> IsDigit(s[i])
  {
    if k == 0 then [49] else TenToken(k - 1) + [48]
  }

  lemma {:induction false} TenDigits(k: nat)
    ensures Decimal(TenToken(k)) == Ten(k)
    ensures Integer(TenToken(k), false) == Some(Ten(k) as int)
  {
    var s := TenToken(k);
    if k > 0 {
      TenDigits(k - 1);
      assert s[..k] == TenToken(k - 1);
    } else {
      assert s[..0] == [];
    }
    assert IsDigit(s[0]);
  }

  lemma {:induction false} TenIsLong()
    ensures Ten(39) >= Pow256(16)
  {
    TenThrice(0);
    TenThrice(3);
    TenThrice(6);
    TenThrice(9);
    TenThrice(12);
    TenThrice(15);
    TenThrice(18);
    TenThrice(21);
    TenThrice(24);
    TenThrice(27);
    TenThrice(30);
    TenThrice(33);
    TenThrice(36);
    assert Ten(0) == 1 && Pow256(0) == 1;
    assert Pow256(2) == 0x1_0000 && Pow256(4) == 0x1_0000_0000;
    assert Pow256(6) == 0x1_0000_0000_0000 && Pow256(8) == 0x1_0000_0000_0000_0000;
    assert Pow256(10) == 0x1_0000 * Pow256(8) && Pow256(12) == 0x1_0000 * Pow256(10);
    assert Pow256(14) == 0x1_0000 * Pow256(12) && Pow256(16) == 0x1_0000 * Pow256(14);
  }

  lemma {:induction false} TenThrice(k: nat)
    ensures Ten(k + 3) == 1000 * Ten(k)
  {
    assert Ten(k + 1) == 10 * Ten(k) && Ten(k + 2) == 100 * Ten(k);
  }

  /** A token of 40 digits is one such: the compiled parser wraps it, the interpreter panics. */
  lemma {:induction false} LongIntegerRefused(env: Cells, fl: Floats)
    ensures var d := DNum(TenToken(39));
            && Moderate(d) && Integer(d.tok, false) == Some(Ten(39))
            && Reads(env, fl, 0, U(8), d, VNum(Ten(39) % Pow256(8)))
            && forall v :: !Binds(env, fl, U(8), Tree(d), v)
  {
    hide Ten, TenToken, Pow256, Integer;
    TenDigits(39);
    TenIsLong();
    FortyFit();
    IntegerAccepted(DNum(TenToken(39)));
    forall v ensures !Binds(env, fl, U(8), Tree(DNum(TenToken(39))), v) {}
  }

  lemma {:induction false} FortyFit()
    ensures 80 < Pow256(8)
  {
    PowerMonotone(1, 8);
  }

  /** `"é"` read as a character: the compiled parser leaves the first byte, C3, and the
      interpreter E9. */
  lemma {:induction false} AccentedCharDiffers(env: Cells, fl: Floats)
    ensures var d := DStr(Cons(Plain(0xE9), Nil));
            WellFormed(d) && Reads(env, fl, 0, Char, d, VNum(0xC3)) && Binds(env, fl, Char, Tree(d), VNum(0xE9))
  {
    hide EncodeAll;
    var ps := Cons(Plain(0xE9), Nil);
    assert Encode(0xE9) == [0xC3, 0xA9] && Body(ps) == Encode(0xE9) + [];
    assert PassedText(ps) == [0xE9];
    assert Tree(DStr(ps)) == Json.Str(EncodeAll([0xE9]));
  }

  // ---- Key order and unknown keys ---------------------------------------------------

  /** Of a key that occurs once, first, last and only member are one. */
  lemma {:induction false} OnceLookup(ms: List<Member>, key: seq<byte>)
    requires Once(ms, key)
    ensures Lookup(ms, key) == LastLookup(ms, key)
    ensures forall d :: HasMember(ms, key, d) <==> Lookup(ms, key) == Some(d)
  {
    hide Body;
    if ms.Cons? {
      if Body(ms.head.key) == key {
        MissingHasNone(ms.tail, key);
      } else {
        OnceLookup(ms.tail, key);
      }
    }
  }

  /** The members a struct has a field for, as raw keys and values. */
  function Known(ms: List<Member>, names: set<seq<byte>>): seq<(seq<byte>, Doc)> {
    match ms
    case Nil => []
    case Cons(m, rest) =>
      (if Body(m.key) in names then [(Body(m.key), m.item.val)] else []) + Known(rest, names)
  }

  lemma {:induction false} MemberIsKnown(ms: List<Member>, names: set<seq<byte>>, key: seq<byte>)
    requires key in names
    ensures forall d :: HasMember(ms, key, d) <==> (key, d) in multiset(Known(ms, names))
  {
    hide Body;
    if ms.Cons? {
      MemberIsKnown(ms.tail, names, key);
      KnownSplit(ms, names);
    }
  }

  lemma {:induction false} KnownSplit(ms: List<Member>, names: set<seq<byte>>)
    requires ms.Cons?
    ensures forall x :: x in multiset(Known(ms, names)) <==>
              || x in multiset(Known(ms.tail, names))
              || (Body(ms.head.key) in names && x == (Body(ms.head.key), ms.head.item.val))
  {
    hide Body;
    var a: seq<(seq<byte>, Doc)> := if Body(ms.head.key) in names then [(Body(ms.head.key), ms.head.item.val)] else [];
    assert multiset(Known(ms, names)) == multiset(a) + multiset(Known(ms.tail, names));
  }

  /** A field's name is under names that occur once in both objects with one set of known
      members. */
  lemma {:induction false} SameMember(ms: List<Member>, ms': List<Member>, names: set<seq<byte>>, key: seq<byte>)
    requires key in names && Once(ms, key) && Once(ms', key)
    requires multiset(Known(ms, names)) == multiset(Known(ms', names))
    ensures LastLookup(ms, key) == LastLookup(ms', key)
    ensures forall d :: HasMember(ms, key, d) <==> HasMember(ms', key, d)
  {
    hide Once, Known, HasMember, Lookup, LastLookup;
    OnceLookup(ms, key);
    OnceLookup(ms', key);
    MemberIsKnown(ms, names, key);
    MemberIsKnown(ms', names, key);
    if Lookup(ms, key).Some? {
      assert HasMember(ms, key, Lookup(ms, key).value);
    }
    if Lookup(ms', key).Some? {
      assert HasMember(ms', key, Lookup(ms', key).value);
    }
  }

  /** Known keys may come in any order, with any whitespace, and unknown ones, repeated or
      not, may be mixed in: the struct read is the same. */
  lemma {:induction false} KeyOrderIsFree(env: Cells, fl: Floats, n: nat, ty: Ty, ms: List<Member>, close: seq<byte>,
                                          ms': List<Member>, close': seq<byte>, v: Val)
    requires ty.Struct?
    requires forall i :: 0 <= i < |ty.fields| ==> Once(ms, ty.fields[i].name) && Once(ms', ty.fields[i].name)
    requires var names := set i | 0 <= i < |ty.fields| :: ty.fields[i].name;
             multiset(Known(ms, names)) == multiset(Known(ms', names))
    ensures Reads(env, fl, n, ty, DObj(ms, close), v) <==> Reads(env, fl, n, ty, DObj(ms', close'), v)
  {
    hide Once, Known, HasMember, Lookup, LastLookup, ReadsField, Readable;
    var names := set i | 0 <= i < |ty.fields| :: ty.fields[i].name;
    forall i | 0 <= i < |ty.fields|
      ensures LastLookup(ms, ty.fields[i].name) == LastLookup(ms', ty.fields[i].name)
      ensures forall d :: HasMember(ms, ty.fields[i].name, d) <==> HasMember(ms', ty.fields[i].name, d)
    {
      SameMember(ms, ms', names, ty.fields[i].name);
    }
    if n > 0 && v.VRow? {
      assert ReadsStruct(env, fl, n - 1, ty.fields, ms, v.vs) <==> ReadsStruct(env, fl, n - 1, ty.fields, ms', v.vs);
    }
  }

  /** An option field is `None` exactly when its key is absent or its last value null. */
  lemma {:induction false} AbsentOrNull(env: Cells, fl: Floats, n: nat, ty: Ty, d: Doc, v: Val, i: nat)
    requires ty.Struct? && Reads(env, fl, n, ty, d, v) && i < |ty.fields| && ty.fields[i].ty.Opt?
    ensures d.DObj? && v.VRow? && i < |v.vs|
    ensures v.vs[i] == VNone <==> LastLookup(d.members, ty.fields[i].name) in {None, Some(DNull)}
  {
    hide LastLookup, Readable;
    assert ReadsStruct(env, fl, n - 1, ty.fields, d.members, v.vs);
    var f := LastLookup(d.members, ty.fields[i].name);
    assert ReadsField(env, fl, n - 1, ty.fields[i], f, v.vs[i]);
    if f.Some? {
      assert Reads(env, fl, n - 1, ty.fields[i].ty, f.value, v.vs[i]);
    }
  }

  // ---- Repeated keys ----------------------------------------------------------------

  /** The interpreter takes the first of a repeated key, the compiled parser leaves the
      last. On a struct whose fields' first values both read alike, they agree exactly if
      each first value reads as what the last one left. */
  lemma {:induction false} RepeatsAgree(env: Cells, fl: Floats, n: nat, fields: seq<FieldTy>, d: Doc, v: Val, v': Val)
    requires d.DObj? && v.VRow? && v'.VRow? && ReadsStruct(env, fl, n, fields, d.members, v.vs)
    requires BindsStruct(env, fl, fields, Tree(d), v')
    requires forall i :: 0 <= i < |fields| ==> KeysClear(d.members, fields[i].name)
    requires forall i, w :: 0 <= i < |fields| && Lookup(d.members, fields[i].name).Some? ==>
               Reads(env, fl, n, fields[i].ty, Lookup(d.members, fields[i].name).value, w) ==>
                 && KeysAlike(env, fields[i].ty, Lookup(d.members, fields[i].name).value, w)
                 && TextsAlike(env, fields[i].ty, Lookup(d.members, fields[i].name).value, w)
    ensures v == v' <==> FirstsReadAlike(env, fl, n, fields, d.members, v.vs)
  {
    hide Reads, Binds, Lookup, LastLookup, Find, Pairs, KeysAlike, TextsAlike, KeysClear, HasMember;
    forall i | 0 <= i < |fields|
      ensures v.vs[i] == v'.vs[i] <==> FirstReads(env, fl, n, fields[i], d.members, v.vs[i])
    {
      FindIsLookup(d.members, fields[i].name);
      LookupsMeet(d.members, fields[i].name);
      assert ReadsField(env, fl, n, fields[i], LastLookup(d.members, fields[i].name), v.vs[i]);
      match Lookup(d.members, fields[i].name)
      case None =>
      case Some(f) =>
        assert Readable(env, fl, n, fields[i].ty, f);
        var w :| Reads(env, fl, n, fields[i].ty, f, w);
        ReadingsAgree(env, fl, n, fields[i].ty, f, w, v'.vs[i]);
        if FirstReads(env, fl, n, fields[i], d.members, v.vs[i]) {
          ReadingsAgree(env, fl, n, fields[i].ty, f, v.vs[i], v'.vs[i]);
        }
    }
    assert v == v' <==> v.vs == v'.vs;
    if FirstsReadAlike(env, fl, n, fields, d.members, v.vs) {
      assert v.vs == v'.vs;
    }
  }

  ghost predicate FirstReads(env: Cells, fl: Floats, n: nat, f: FieldTy, ms: List<Member>, v: Val) {
    Lookup(ms, f.name).Some? ==> Reads(env, fl, n, f.ty, Lookup(ms, f.name).value, v)
  }

  ghost predicate FirstsReadAlike(env: Cells, fl: Floats, n: nat, fields: seq<FieldTy>, ms: List<Member>, vs: seq<Val>)
    requires |vs| == |fields|
  {
    forall i :: 0 <= i < |fields| ==> FirstReads(env, fl, n, fields[i], ms, vs[i])
  }

  function Named(key: List<Piece>, tok: seq<byte>, comma: bool): Member {
    Member([], key, [], Item([], DNum(tok), [], comma))
  }

  lemma {:induction false} OneDigit(env: Cells, fl: Floats, n: nat, b: byte)
    requires IsDigit(b)
    ensures Reads(env, fl, n, U(1), DNum([b]), VNum(b - 48)) && Binds(env, fl, U(1), Num([b]), VNum(b - 48))
  {
    hide Pow256;
    assert [b][..0] == [] && Decimal([b]) == 10 * Decimal([]) + b - 48;
    OneByte();
    SmallMod(b - 48, 1);
  }

  lemma {:induction false} OneByte()
    ensures Pow256(1) == 256 && Pow256(16) > 256
  {
    PowerMonotone(2, 16);
    assert Pow256(2) == 0x1_0000;
  }

  /** How the two members of `{"a":x,"a":y}` are found. */
  lemma {:induction false} TwoMembers(a: List<Piece>, x: seq<byte>, y: seq<byte>)
    ensures var ms := Cons(Named(a, x, true), Cons(Named(a, y, false), Nil));
            && LastLookup(ms, Body(a)) == Some(DNum(y))
            && (forall d :: HasMember(ms, Body(a), d) ==> d == DNum(x) || d == DNum(y))
            && Find(Pairs(ms), EncodeAll(PassedText(a))) == Some(0) && Pairs(ms)[0].1 == Num(x)
  {
    hide Body, EncodeAll, PassedText;
    var rest := Cons(Named(a, y, false), Nil);
    var ms := Cons(Named(a, x, true), rest);
    assert LastLookup(rest, Body(a)) == Some(DNum(y));
    assert forall d :: HasMember(rest, Body(a), d) ==> d == DNum(y);
    assert Pairs(ms)[0] == (EncodeAll(PassedText(a)), Num(x));
  }

  /** A struct of one field. */
  lemma {:induction false} OneFieldReads(env: Cells, fl: Floats, n: nat, f: FieldTy, ms: List<Member>, v: Val)
    requires ReadsField(env, fl, n, f, LastLookup(ms, f.name), v)
    requires forall d :: HasMember(ms, f.name, d) ==> Readable(env, fl, n, f.ty, d)
    ensures Reads(env, fl, n + 1, Struct("S", [f]), DObj(ms, []), VRow([v]))
  {
    hide LastLookup, HasMember, Readable, ReadsField;
    assert ReadsStruct(env, fl, n, [f], ms, [v]);
  }

  lemma {:induction false} OneFieldBinds(env: Cells, fl: Floats, f: FieldTy, j: Json, v: Val)
    requires j.Object? && Find(j.kvs, f.name).Some? && Binds(env, fl, f.ty, j.kvs[Find(j.kvs, f.name).value].1, v)
    ensures Binds(env, fl, Struct("S", [f]), j, VRow([v]))
  {
    hide Find;
    assert BindsStruct(env, fl, [f], j, VRow([v]));
  }

  lemma {:induction false} LetterKey(c: byte)
    requires c < 0x80 && c != QUOTE && c != BACKSLASH
    ensures var k := Cons(Plain(c), Nil); Legal(k) && Body(k) == [c] && EncodeAll(PassedText(k)) == [c]
  {
    var k := Cons(Plain(c), Nil);
    assert PieceBytes(k.head) == [c] && Body(Nil) == [] && [c] + [] == [c];
    PlainKey(k);
  }

  /** `{"a":1,"a":2}`: one leaves 1, the other 2. */
  lemma {:induction false} LastWriteWins(env: Cells, fl: Floats)
    ensures var a := Cons(Plain(97), Nil);
            var d := DObj(Cons(Named(a, [49], true), Cons(Named(a, [50], false), Nil)), []);
            var ty := Struct("S", [FieldTy([97], 0, U(1))]);
            && WellFormed(d) && Reads(env, fl, 1, ty, d, VRow([VNum(2)]))
            && Binds(env, fl, ty, Tree(d), VRow([VNum(1)]))
  {
    hide Body, EncodeAll, PassedText, Pow256, Integer, LastLookup, HasMember, Find, Pairs, Legal, ReadsStruct,
         BindsStruct;
    var a := Cons(Plain(97), Nil);
    LetterKey(97);
    TwoMembers(a, [49], [50]);
    OneDigit(env, fl, 0, 49);
    OneDigit(env, fl, 0, 50);
    var ms := Cons(Named(a, [49], true), Cons(Named(a, [50], false), Nil));
    OneFieldReads(env, fl, 0, FieldTy([97], 0, U(1)), ms, VNum(2));
    OneFieldBinds(env, fl, FieldTy([97], 0, U(1)), Object(Pairs(ms)), VNum(1));
  }

  lemma {:induction false} NullMember(a: List<Piece>)
    ensures var ms := Cons(Member([], a, [], Item([], DNull, [], false)), Nil);
            && LastLookup(ms, Body(a)) == Some(DNull) && (forall d :: HasMember(ms, Body(a), d) ==> d == DNull)
            && Find(Pairs(ms), EncodeAll(PassedText(a))) == Some(0) && Pairs(ms)[0].1 == Null
  {
    hide Body, EncodeAll, PassedText;
  }

  /** `{"a":null}`, for an option of anything: both have `None`. */
  lemma {:induction false} NullIsNone(env: Cells, fl: Floats, n: nat, opt: Ty)
    requires opt.Opt?
    ensures var d := DObj(Cons(Member([], Cons(Plain(97), Nil), [], Item([], DNull, [], false)), Nil), []);
            var ty := Struct("S", [FieldTy([97], 0, opt)]);
            WellFormed(d) && Reads(env, fl, n + 1, ty, d, VRow([VNone])) && Binds(env, fl, ty, Tree(d), VRow([VNone]))
  {
    hide Body, EncodeAll, PassedText, LastLookup, HasMember, Find, Pairs, Legal, ReadsStruct, BindsStruct;
    var a := Cons(Plain(97), Nil);
    LetterKey(97);
    NullMember(a);
    var ms := Cons(Member([], a, [], Item([], DNull, [], false)), Nil);
    assert Reads(env, fl, n, opt, DNull, VNone) && Binds(env, fl, opt, Null, VNone);
    OneFieldReads(env, fl, n, FieldTy([97], 0, opt), ms, VNone);
    OneFieldBinds(env, fl, FieldTy([97], 0, opt), Object(Pairs(ms)), VNone);
  }

  // ---- Escaped keys -----------------------------------------------------------------

  lemma {:induction false} EscapedIsShorter(ps: List<Piece>)
    requires Legal(ps)
    ensures |EncodeAll(PassedText(ps))| <= |Body(ps)|
    ensures !AllPlain(ps) ==> |EncodeAll(PassedText(ps))| < |Body(ps)|
  {
    hide Encode, EncodeAll, PieceBytes, PieceText, LegalPiece;
    match ps
    case Nil => JsonParser.AsciiEncoded([]);
    case Cons(p, rest) =>
      EscapedIsShorter(rest);
      JsonParser.PieceTextBytes(p);
      EncodeAllAppend(PieceText(p), PassedText(rest));
  }

  /** What a key with an escape is taken for by one backend it never is by the other, so it
      is harmless exactly if it is taken for a field's by neither. */
  lemma {:induction false} EscapedKeySpells(k: List<Piece>, name: seq<byte>)
    requires Legal(k)
    ensures SpellsAlike(k, name) <==> AllPlain(k) || (Body(k) != name && EncodeAll(PassedText(k)) != name)
  {
    hide EncodeAll, Body, PassedText, Legal;
    EscapedIsShorter(k);
    if AllPlain(k) {
      PlainKey(k);
    }
  }

  lemma {:induction false} EscapedBoo()
    ensures var boo := Cons(Escaped(98), Cons(Plain(111), Cons(Plain(111), Nil)));
            Legal(boo) && Body(boo) == [BACKSLASH, 98, 111, 111] && EncodeAll(PassedText(boo)) == [98, 111, 111]
  {
    var oo := Cons(Plain(111), Cons(Plain(111), Nil));
    var boo := Cons(Escaped(98), oo);
    assert Body(oo) == [111] + ([111] + []);
    assert Body(boo) == [BACKSLASH, 98] + Body(oo);
    assert PassedText(boo) == [98] + ([111] + ([111] + [])) == [98, 111, 111];
    JsonParser.AsciiEncoded([98, 111, 111]);
  }

  lemma {:induction false} OneMember(k: List<Piece>, x: seq<byte>, name: seq<byte>)
    requires Body(k) != name && EncodeAll(PassedText(k)) == name
    ensures var ms := Cons(Named(k, x, false), Nil);
            && LastLookup(ms, name) == None && (forall d :: !HasMember(ms, name, d))
            && Find(Pairs(ms), name) == Some(0) && Pairs(ms)[0].1 == Num(x)
  {
    hide Body, EncodeAll, PassedText;
  }

  lemma {:induction false} SomeBinds(env: Cells, fl: Floats, ty: Ty, j: Json, v: Val)
    requires ty.Opt? && !j.Null? && Binds(env, fl, ty.inner, j, v)
    ensures Binds(env, fl, ty, j, VSome(v))
  {}

  /** `{"\boo":1}` for a field `boo`: the interpreter finds it, the compiled parser does not. */
  lemma {:induction false} EscapedKeyMissed(env: Cells, fl: Floats)
    ensures var boo := Cons(Escaped(98), Cons(Plain(111), Cons(Plain(111), Nil)));
            var d := DObj(Cons(Named(boo, [49], false), Nil), []);
            var ty := Struct("S", [FieldTy([98, 111, 111], 0, Opt(0, 1, 0, Some(1), 1, 2, U(1)))]);
            && WellFormed(d) && Reads(env, fl, 1, ty, d, VRow([VNone]))
            && Binds(env, fl, ty, Tree(d), VRow([VSome(VNum(1))]))
  {
    hide Body, EncodeAll, PassedText, Pow256, Integer, LastLookup, HasMember, Find, Pairs, Legal, Reads, Binds;
    var boo := Cons(Escaped(98), Cons(Plain(111), Cons(Plain(111), Nil)));
    var name: seq<byte> := [98, 111, 111];
    EscapedBoo();
    OneMember(boo, [49], name);
    OneDigit(env, fl, 0, 49);
    var ms := Cons(Named(boo, [49], false), Nil);
    var f := FieldTy(name, 0, Opt(0, 1, 0, Some(1), 1, 2, U(1)));
    OneFieldReads(env, fl, 0, f, ms, VNone);
    SomeBinds(env, fl, f.ty, Num([49]), VNum(1));
    OneFieldBinds(env, fl, f, Object(Pairs(ms)), VSome(VNum(1)));
  }
}
