/** Which document, or which tree, means which value at a type: the compiled parser's
    domain (`Reads`), the interpreter's (`Binds`), and where they meet. */
module Binding {
  import opened Containers
  import opened Bytes
  import opened Utf8
  import opened Docs
  import opened Json
  import opened Plan
  import opened Values
  import opened Ints

  /** Float parsing and demotion are the library's: any functions will do, as long as
      both backends use the same ones. */
  datatype Floats = Floats(f64: seq<byte> -> nat, f32: nat -> nat) {
    function Double(tok: seq<byte>): (x: nat)
      ensures x < Pow256(8)
    {
      f64(tok) % Pow256(8)
    }

    function Single(tok: seq<byte>): (x: nat)
      ensures x < Pow256(4)
    {
      Demote(Double(tok))
    }

    function Demote(bits: nat): (x: nat)
      ensures x < Pow256(4)
    {
      f32(bits) % Pow256(4)
    }
  }

  // ---- The compiled parser's reading of a document ------------------------------

  function Vals(items: List<Item>): seq<Doc> {
    match items
    case Nil => []
    case Cons(it, rest) => [it.val] + Vals(rest)
  }

  /** The value of the first member whose raw key bytes are `key`. */
  function Lookup(ms: List<Member>, key: seq<byte>): Option<Doc> {
    match ms
    case Nil => None
    case Cons(m, rest) => if Body(m.key) == key then Some(m.item.val) else Lookup(rest, key)
  }

  /** The value of the last one: what is left when a key is repeated. */
  function LastLookup(ms: List<Member>, key: seq<byte>): Option<Doc> {
    match ms
    case Nil => None
    case Cons(m, rest) =>
      var later := LastLookup(rest, key);
      if later.Some? then later else if Body(m.key) == key then Some(m.item.val) else None
  }

  predicate HasMember(ms: List<Member>, key: seq<byte>, d: Doc) {
    ms.Cons? && ((Body(ms.head.key) == key && ms.head.item.val == d) || HasMember(ms.tail, key, d))
  }

  /** At most one member has the key. */
  predicate Once(ms: List<Member>, key: seq<byte>) {
    ms.Cons? ==> if Body(ms.head.key) == key then Lookup(ms.tail, key).None? else Once(ms.tail, key)
  }

  lemma {:induction false} MissingHasNone(ms: List<Member>, key: seq<byte>)
    requires Lookup(ms, key).None?
    ensures Once(ms, key) && LastLookup(ms, key).None? && forall d :: !HasMember(ms, key, d)
  {
    hide Body;
    if ms.Cons? {
      MissingHasNone(ms.tail, key);
    }
  }

  lemma {:induction false} LookupsMeet(ms: List<Member>, key: seq<byte>)
    ensures Lookup(ms, key).Some? <==> LastLookup(ms, key).Some?
    ensures Lookup(ms, key).Some? ==> HasMember(ms, key, Lookup(ms, key).value)
    ensures LastLookup(ms, key).Some? ==> HasMember(ms, key, LastLookup(ms, key).value)
  {
    hide Body;
    if ms.Cons? {
      LookupsMeet(ms.tail, key);
    }
  }

  function Length(ms: List<Member>): nat {
    if ms.Nil? then 0 else 1 + Length(ms.tail)
  }

  function Nth(ms: List<Member>, i: nat): Member
    requires i < Length(ms)
  {
    if i == 0 then ms.head else Nth(ms.tail, i - 1)
  }

  /** Member number `i` has the key. */
  predicate KeyIs(ms: List<Member>, i: nat, key: seq<byte>) {
    i < Length(ms) && Body(Nth(ms, i).key) == key
  }

  /** What is looked up first is the first member with the key, and what last, the last. */
  lemma {:induction false} LookupIs(ms: List<Member>, key: seq<byte>, i: nat)
    requires KeyIs(ms, i, key)
    ensures (forall j: nat :: j < i ==> !KeyIs(ms, j, key)) ==> Lookup(ms, key) == Some(Nth(ms, i).item.val)
    ensures (forall j: nat :: i < j ==> !KeyIs(ms, j, key)) ==> LastLookup(ms, key) == Some(Nth(ms, i).item.val)
  {
    hide Body;
    if i > 0 {
      LookupIs(ms.tail, key, i - 1);
      if forall j: nat :: j < i ==> !KeyIs(ms, j, key) {
        assert !KeyIs(ms, 0, key);
        forall j: nat | j < i - 1 ensures !KeyIs(ms.tail, j, key) {
          assert !KeyIs(ms, j + 1, key);
        }
      }
    }
    if forall j: nat :: i < j ==> !KeyIs(ms, j, key) {
      forall j: nat | i <= j ensures !KeyIs(ms.tail, j, key) {
        assert !KeyIs(ms, j + 1, key);
      }
      if i == 0 {
        NoneHas(ms.tail, key);
      }
    }
  }

  lemma {:induction false} NoneHas(ms: List<Member>, key: seq<byte>)
    requires forall j: nat :: !KeyIs(ms, j, key)
    ensures Lookup(ms, key).None? && LastLookup(ms, key).None?
  {
    hide Body;
    if ms.Cons? {
      assert !KeyIs(ms, 0, key);
      forall j: nat ensures !KeyIs(ms.tail, j, key) {
        assert !KeyIs(ms, j + 1, key);
      }
      NoneHas(ms.tail, key);
    }
  }

  /** A key occurs once or not at all exactly if no two members have it. */
  lemma {:induction false} OnceIs(ms: List<Member>, key: seq<byte>)
    ensures Once(ms, key) <==> forall i: nat, j: nat :: i < j ==> !(KeyIs(ms, i, key) && KeyIs(ms, j, key))
  {
    hide Body;
    if ms.Cons? {
      OnceIs(ms.tail, key);
      assert forall i: nat :: KeyIs(ms.tail, i, key) <==> KeyIs(ms, i + 1, key);
      if KeyIs(ms, 0, key) {
        if Lookup(ms.tail, key).None? {
          forall j: nat | j > 0 ensures !KeyIs(ms, j, key) {
            if KeyIs(ms, j, key) {
              Present(ms.tail, key, j - 1);
            }
          }
        } else {
          var j := FirstOf(ms.tail, key);
          assert KeyIs(ms, j + 1, key);
        }
      } else {
        if i: nat, j: nat :| i < j && KeyIs(ms, i, key) && KeyIs(ms, j, key) {
          assert KeyIs(ms.tail, i - 1, key) && KeyIs(ms.tail, j - 1, key);
        }
        if i: nat, j: nat :| i < j && KeyIs(ms.tail, i, key) && KeyIs(ms.tail, j, key) {
          assert KeyIs(ms, i + 1, key) && KeyIs(ms, j + 1, key);
        }
      }
    }
  }

  lemma {:induction false} Present(ms: List<Member>, key: seq<byte>, j: nat)
    requires KeyIs(ms, j, key)
    ensures Lookup(ms, key).Some?
  {
    hide Body;
    if j > 0 {
      Present(ms.tail, key, j - 1);
    }
  }

  lemma {:induction false} FirstOf(ms: List<Member>, key: seq<byte>) returns (j: nat)
    requires Lookup(ms, key).Some?
    ensures KeyIs(ms, j, key)
  {
    hide Body;
    if Body(ms.head.key) == key {
      j := 0;
    } else {
      j := FirstOf(ms.tail, key);
      j := j + 1;
    }
  }

  /** The largest buffer a vector of `n` elements grows to is no bigger than the allocator
      allows (`isize::MAX`). */
  predicate BufferFits(n: nat, elemSize: nat) {
    n > 0 ==> 2 * (Max(4, 2 * n - 2) * elemSize) < Pow256(8)
  }

  /** The byte behind the opening quote: the closing one, if the string is empty. */
  function FirstRaw(ps: List<Piece>): byte {
    (Body(ps) + [QUOTE])[0]
  }

  /** `n` bounds how deep the reading goes. */
  ghost predicate Reads(env: Cells, fl: Floats, n: nat, ty: Ty, d: Doc, v: Val)
    decreases n, if ty.Ref? then 2 else 1
  {
    match ty
    case Bool => d.DBool? && v == VBool(d.b)
    case Char => d.DStr? && v == VNum(FirstRaw(d.body))
    case U(w) =>
      IntSize(w) && d.DNum? && Integer(d.tok, false).Some? && v == VNum(Integer(d.tok, false).value % Pow256(w))
    case I(w) =>
      IntSize(w) && d.DNum? && Integer(d.tok, true).Some? && v == VNum(Integer(d.tok, true).value % Pow256(w))
    case F32 => d.DNum? && Number(d.tok) && v == VNum(fl.Single(d.tok))
    case F64 => d.DNum? && Number(d.tok) && v == VNum(fl.Double(d.tok))
    case Struct(_, fields) => n > 0 && d.DObj? && v.VRow? && ReadsStruct(env, fl, n - 1, fields, d.members, v.vs)
    case Tuple(fields) => n > 0 && d.DArr? && v.VRow? && ReadsTuple(env, fl, n - 1, fields, d.items, v.vs)
    case Str(_) => d.DStr? && v == VStr(EncodeAll(Text(d.body)))
    case StrRef(_, _) => d.DStr? && v == VStr(EncodeAll(Text(d.body)))
    case Vec(elem, elemSize, _, _) =>
      && n > 0 && d.DArr? && v.VVec? && |v.vs| == |Vals(d.items)| && BufferFits(|v.vs|, elemSize)
      && forall i :: 0 <= i < |v.vs| ==> Reads(env, fl, n - 1, elem, Vals(d.items)[i], v.vs[i])
    case Unit => v == VUnit
    case Boxed(inner, _, _) => n > 0 && v.VBox? && Reads(env, fl, n - 1, inner, d, v.v)
    case Opt(_, _, _, _, _, _, inner) =>
      if d.DNull? then v == VNone else n > 0 && v.VSome? && Reads(env, fl, n - 1, inner, d, v.v)
    case Ref(c) => c in env && !env[c].ty.Ref? && Reads(env, fl, n, env[c].ty, d, v)
    case Map(_, _) => false
    case Unknown(_) => false
  }

  /** Every field takes the last value under its name; a field without one is an option.
      Values that are overwritten are parsed all the same. */
  ghost predicate ReadsStruct(env: Cells, fl: Floats, n: nat, fields: seq<FieldTy>, ms: List<Member>, vs: seq<Val>)
    decreases n, 4
  {
    && |vs| == |fields|
    && (forall i :: 0 <= i < |fields| ==> ReadsField(env, fl, n, fields[i], LastLookup(ms, fields[i].name), vs[i]))
    && forall i, d :: 0 <= i < |fields| && HasMember(ms, fields[i].name, d) ==> Readable(env, fl, n, fields[i].ty, d)
  }

  ghost predicate ReadsField(env: Cells, fl: Floats, n: nat, f: FieldTy, d: Option<Doc>, v: Val)
    decreases n, 3
  {
    match d
    case Some(d') => Reads(env, fl, n, f.ty, d', v)
    case None => f.ty.Opt? && v == VNone
  }

  ghost predicate Readable(env: Cells, fl: Floats, n: nat, ty: Ty, d: Doc)
    decreases n, 3
  {
    exists v :: Reads(env, fl, n, ty, d, v)
  }

  ghost predicate ReadsTuple(env: Cells, fl: Floats, n: nat, fields: seq<FieldTy>, items: List<Item>, vs: seq<Val>)
    decreases n, 4
  {
    && |vs| == |fields| == |Vals(items)|
    && forall i :: 0 <= i < |fields| ==> Reads(env, fl, n, fields[i].ty, Vals(items)[i], vs[i])
  }

  /** A condition met by every part of the document that is read, at the type it is read
      at. The value tells which parts are. */
  ghost predicate Throughout(env: Cells, node: (Ty, Doc) -> bool, ty: Ty, d: Doc, v: Val)
    decreases v, if ty.Ref? then 2 else 1
  {
    && node(ty, d)
    && match ty
       case Struct(_, fields) => d.DObj? && v.VRow? ==> ThroughoutFields(env, node, fields, d.members, v)
       case Tuple(fields) => d.DArr? && v.VRow? ==> ThroughoutItems(env, node, fields, d.items, v)
       case Vec(elem, _, _, _) =>
         d.DArr? && v.VVec? ==>
           forall i :: 0 <= i < |v.vs| && i < |Vals(d.items)| ==> Throughout(env, node, elem, Vals(d.items)[i], v.vs[i])
       case Boxed(inner, _, _) => v.VBox? ==> Throughout(env, node, inner, d, v.v)
       case Opt(_, _, _, _, _, _, inner) => v.VSome? ==> Throughout(env, node, inner, d, v.v)
       case Ref(c) => c in env && !env[c].ty.Ref? ==> Throughout(env, node, env[c].ty, d, v)
       case _ => true
  }

  ghost predicate ThroughoutFields(env: Cells, node: (Ty, Doc) -> bool, fields: seq<FieldTy>, ms: List<Member>, v: Val)
    requires v.VRow?
    decreases v, 0
  {
    forall i :: 0 <= i < |fields| && i < |v.vs| && LastLookup(ms, fields[i].name).Some? ==>
      Throughout(env, node, fields[i].ty, LastLookup(ms, fields[i].name).value, v.vs[i])
  }

  ghost predicate ThroughoutItems(env: Cells, node: (Ty, Doc) -> bool, fields: seq<FieldTy>, items: List<Item>, v: Val)
    requires v.VRow?
    decreases v, 0
  {
    forall i :: 0 <= i < |fields| && i < |v.vs| && i < |Vals(items)| ==>
      Throughout(env, node, fields[i].ty, Vals(items)[i], v.vs[i])
  }

  predicate FieldsOnce(ty: Ty, d: Doc) {
    ty.Struct? && d.DObj? ==> forall i :: 0 <= i < |ty.fields| ==> Once(d.members, ty.fields[i].name)
  }

  /** No struct that is read is given a field twice: nothing is overwritten. */
  ghost predicate Unrepeated(env: Cells, ty: Ty, d: Doc, v: Val) {
    Throughout(env, FieldsOnce, ty, d, v)
  }

  // ---- The interpreter's reading of a tree ---------------------------------------

  /** The pairs `Json::get` looks through. */
  function Entries(j: Json): seq<(seq<byte>, Json)> {
    if j.Object? then j.kvs else []
  }

  ghost predicate Binds(env: Cells, fl: Floats, ty: Ty, j: Json, v: Val)
    decreases v, if ty.Ref? then 2 else 1
  {
    match ty
    case Bool => v == VBool(j == Json.Bool(true))
    case Char => j.Str? && exists cs :: j.s == EncodeAll(cs) && v == VNum(if cs == [] then 0 else cs[0])
    case U(n) => AsU128(j).Some? && v == VNum(AsU128(j).value % Pow256(n))
    case I(n) => AsI128(j).Some? && v == VNum(AsI128(j).value % Pow256(n))
    case F32 => j.Num? && Number(j.tok) && v == VNum(fl.Single(j.tok))
    case F64 => j.Num? && Number(j.tok) && v == VNum(fl.Double(j.tok))
    case Struct(_, fields) => v.VRow? && BindsStruct(env, fl, fields, j, v)
    case Tuple(fields) =>
      && j.Array? && v.VRow? && |v.vs| == |fields| <= |j.items|
      && forall i :: 0 <= i < |fields| ==> Binds(env, fl, fields[i].ty, j.items[i], v.vs[i])
    case Str(_) => j.Str? && 2 * |j.s| < Pow256(8) && v == VStr(j.s)
    case StrRef(_, _) => j.Str? && 2 * |j.s| < Pow256(8) && v == VStr(j.s)
    case Vec(elem, elemSize, _, _) =>
      && j.Array? && v.VVec? && |v.vs| == |j.items| && 2 * (|j.items| * elemSize) < Pow256(8)
      && forall i :: 0 <= i < |v.vs| ==> Binds(env, fl, elem, j.items[i], v.vs[i])
    case Unit => v == VUnit
    case Boxed(inner, _, _) => v.VBox? && Binds(env, fl, inner, j, v.v)
    case Opt(_, _, _, _, _, _, inner) =>
      if j.Null? then v == VNone else v.VSome? && Binds(env, fl, inner, j, v.v)
    case Ref(c) => c in env && !env[c].ty.Ref? && Binds(env, fl, env[c].ty, j, v)
    case Map(_, _) => false
    case Unknown(_) => false
  }

  ghost predicate BindsStruct(env: Cells, fl: Floats, fields: seq<FieldTy>, j: Json, v: Val)
    requires v.VRow?
    decreases v, 0
  {
    && |v.vs| == |fields|
    && forall i :: 0 <= i < |fields| ==>
         match Find(Entries(j), fields[i].name)
         case Some(k) => Binds(env, fl, fields[i].ty, Entries(j)[k].1, v.vs[i])
         case None => fields[i].ty.Opt? && v.vs[i] == VNone
  }

  // ---- Where they meet --------------------------------------------------------------

  /** A key spells a name in its raw bytes exactly when the reference parser decodes it to
      the name. Keys without escapes do, for every name. */
  predicate SpellsAlike(k: List<Piece>, name: seq<byte>) {
    Body(k) == name <==> EncodeAll(PassedText(k)) == name
  }

  predicate KeysClear(ms: List<Member>, name: seq<byte>) {
    ms.Cons? ==> SpellsAlike(ms.head.key, name) && KeysClear(ms.tail, name)
  }

  /** The strings whose first byte is their first character, as the reference parser has it:
      those that start with an ASCII character, an escaped backslash, or U+00C3, whose code
      happens to be the first byte of its encoding. */
  predicate CharAlike(ps: List<Piece>) {
    ps.Cons? &&
    match ps.head
    case Plain(cp) => cp < 0x80 || cp == 0xC3
    case Escaped(c) => c == BACKSLASH
    case Unicode(_, _, _, _) => false
  }

  /** Both backends find the same value under every field's name. */
  predicate FieldsAlike(ty: Ty, d: Doc) {
    ty.Struct? && d.DObj? ==>
      forall i :: 0 <= i < |ty.fields| ==>
        && KeysClear(d.members, ty.fields[i].name)
        && Lookup(d.members, ty.fields[i].name) == LastLookup(d.members, ty.fields[i].name)
  }

  /** Where a struct is read, no escaped key is taken for a field's by one of the backends,
      and no field is given two values. What is skipped may be anything. */
  ghost predicate KeysAlike(env: Cells, ty: Ty, d: Doc, v: Val) {
    Throughout(env, FieldsAlike, ty, d, v)
  }

  predicate TextAlike(ty: Ty, d: Doc) {
    d.DStr? ==>
      match ty
      case Char => CharAlike(d.body)
      case Str(_) => Simple(d.body)
      case StrRef(_, _) => Simple(d.body)
      case _ => true
  }

  /** Where a string is read, its escapes are ones the reference parser decodes, and where a
      character is, it is one the compiled parser gets from the first byte. */
  ghost predicate TextsAlike(env: Cells, ty: Ty, d: Doc, v: Val) {
    Throughout(env, TextAlike, ty, d, v)
  }

  lemma {:induction false} PlainKey(ps: List<Piece>)
    requires AllPlain(ps)
    ensures EncodeAll(PassedText(ps)) == Body(ps)
    ensures forall name :: SpellsAlike(ps, name)
  {
    hide Encode;
    match ps
    case Nil =>
    case Cons(p, rest) =>
      PlainKey(rest);
      assert EncodeAll(PassedText(ps)) == Encode(p.cp) + EncodeAll(PassedText(rest)) by {
        assert PassedText(ps)[1..] == PassedText(rest);
      }
  }

  lemma {:induction false} TreesAreVals(items: List<Item>)
    ensures |Trees(items)| == |Vals(items)|
    ensures forall i :: 0 <= i < |Vals(items)| ==> Trees(items)[i] == Tree(Vals(items)[i])
  {
    if items.Cons? {
      TreesAreVals(items.tail);
    }
  }

  /** Looking a name up in the tree finds what the document has under it. */
  lemma {:induction false} FindIsLookup(ms: List<Member>, key: seq<byte>)
    requires KeysClear(ms, key)
    ensures Find(Pairs(ms), key).None? <==> Lookup(ms, key).None?
    ensures Lookup(ms, key).Some? ==> Pairs(ms)[Find(Pairs(ms), key).value].1 == Tree(Lookup(ms, key).value)
  {
    hide EncodeAll, PassedText, Body, Tree;
    match ms
    case Nil =>
    case Cons(m, rest) =>
      assert Pairs(ms)[1..] == Pairs(rest);
      FindIsLookup(rest, key);
  }

  /** Of a document both backends accept they mean the same value exactly if its strings are
      alike, provided that they find the same values under their fields' names. */
  lemma {:induction false} ReadingsAgree(env: Cells, fl: Floats, n: nat, ty: Ty, d: Doc, v: Val, v': Val)
    requires KeysAlike(env, ty, d, v) && Reads(env, fl, n, ty, d, v) && Binds(env, fl, ty, Tree(d), v')
    ensures v == v' <==> TextsAlike(env, ty, d, v)
    decreases n, if ty.Ref? then 3 else 2
  {
    hide Encode, Body, Text, PassedText, EncodeAll, Lookup, LastLookup, Find, Integer, Pow256, ReadsStruct, BindsStruct,
         ReadsTuple, ThroughoutFields, ThroughoutItems, Simple, CharAlike, Number, Trees, Pairs, Vals, BufferFits;
    match ty
    case Char => CharsAgree(d, v, v');
    case Str(_) => SimpleIsExact(d.body);
    case StrRef(_, _) => SimpleIsExact(d.body);
    case U(n) => assert AsU128(Tree(d)) == ParseU128(d.tok);
    case I(n) => assert AsI128(Tree(d)) == ParseI128(d.tok);
    case Struct(_, fields) => StructsAgree(env, fl, n - 1, fields, d, v, v');
    case Tuple(fields) => TuplesAgree(env, fl, n - 1, fields, d, v, v');
    case Vec(elem, _, _, _) => VecsAgree(env, fl, n - 1, ty, d, v, v');
    case Boxed(inner, _, _) => ReadingsAgree(env, fl, n - 1, inner, d, v.v, v'.v);
    case Opt(_, _, _, _, _, _, inner) =>
      if !d.DNull? {
        ReadingsAgree(env, fl, n - 1, inner, d, v.v, v'.v);
      }
    case Ref(c) => ReadingsAgree(env, fl, n, env[c].ty, d, v, v');
    case _ =>
  }

  /** The compiled parser's character is the interpreter's exactly for these strings. */
  lemma {:induction false} CharsAgree(d: Doc, v: Val, v': Val)
    requires d.DStr? && v == VNum(FirstRaw(d.body))
    requires exists cs :: Tree(d) == Json.Str(EncodeAll(cs)) && v' == VNum(if cs == [] then 0 else cs[0])
    ensures v == v' <==> CharAlike(d.body)
  {
    hide EncodeAll;
    var cs :| Tree(d) == Json.Str(EncodeAll(cs)) && v' == VNum(if cs == [] then 0 else cs[0]);
    FirstScalarInverts(cs);
    FirstScalarInverts(PassedText(d.body));
  }

  lemma {:induction false} StructsAgree(env: Cells, fl: Floats, n: nat, fields: seq<FieldTy>, d: Doc, v: Val, v': Val)
    requires d.DObj? && v.VRow? && v'.VRow? && FieldsAlike(Struct("", fields), d)
    requires ThroughoutFields(env, FieldsAlike, fields, d.members, v)
    requires ReadsStruct(env, fl, n, fields, d.members, v.vs) && BindsStruct(env, fl, fields, Tree(d), v')
    ensures v == v' <==> ThroughoutFields(env, TextAlike, fields, d.members, v)
    decreases n, 4
  {
    hide Reads, Binds, Lookup, LastLookup, Find, Pairs, Throughout, KeysClear, Readable;
    forall i | 0 <= i < |fields|
      ensures LastLookup(d.members, fields[i].name).None? ==> v.vs[i] == v'.vs[i]
      ensures LastLookup(d.members, fields[i].name).Some? ==>
                (v.vs[i] == v'.vs[i] <==>
                 Throughout(env, TextAlike, fields[i].ty, LastLookup(d.members, fields[i].name).value, v.vs[i]))
    {
      FindIsLookup(d.members, fields[i].name);
      match Lookup(d.members, fields[i].name)
      case None =>
      case Some(f) => ReadingsAgree(env, fl, n, fields[i].ty, f, v.vs[i], v'.vs[i]);
    }
    assert v == v' <==> forall i :: 0 <= i < |fields| ==> v.vs[i] == v'.vs[i];
  }

  lemma {:induction false} TuplesAgree(env: Cells, fl: Floats, n: nat, fields: seq<FieldTy>, d: Doc, v: Val, v': Val)
    requires d.DArr? && v.VRow? && v'.VRow? && ReadsTuple(env, fl, n, fields, d.items, v.vs)
    requires ThroughoutItems(env, FieldsAlike, fields, d.items, v)
    requires |v'.vs| == |fields| <= |Trees(d.items)|
    requires forall i :: 0 <= i < |fields| ==> Binds(env, fl, fields[i].ty, Trees(d.items)[i], v'.vs[i])
    ensures v == v' <==> ThroughoutItems(env, TextAlike, fields, d.items, v)
    decreases n, 4
  {
    hide Reads, Binds, Trees, Vals, Throughout;
    TreesAreVals(d.items);
    forall i | 0 <= i < |fields|
      ensures v.vs[i] == v'.vs[i] <==> Throughout(env, TextAlike, fields[i].ty, Vals(d.items)[i], v.vs[i])
    {
      ReadingsAgree(env, fl, n, fields[i].ty, Vals(d.items)[i], v.vs[i], v'.vs[i]);
    }
    assert v == v' <==> forall i :: 0 <= i < |fields| ==> v.vs[i] == v'.vs[i];
  }

  lemma {:induction false} VecsAgree(env: Cells, fl: Floats, n: nat, ty: Ty, d: Doc, v: Val, v': Val)
    requires ty.Vec? && d.DArr? && v.VVec? && v'.VVec?
    requires |v.vs| == |Vals(d.items)| && |v'.vs| == |Trees(d.items)|
    requires forall i :: 0 <= i < |v.vs| ==> Throughout(env, FieldsAlike, ty.elem, Vals(d.items)[i], v.vs[i])
    requires forall i :: 0 <= i < |v.vs| ==> Reads(env, fl, n, ty.elem, Vals(d.items)[i], v.vs[i])
    requires forall i :: 0 <= i < |v'.vs| ==> Binds(env, fl, ty.elem, Trees(d.items)[i], v'.vs[i])
    ensures v == v' <==> forall i :: 0 <= i < |v.vs| ==> Throughout(env, TextAlike, ty.elem, Vals(d.items)[i], v.vs[i])
    decreases n, 4
  {
    hide Reads, Binds, Trees, Vals, Throughout;
    TreesAreVals(d.items);
    forall i | 0 <= i < |v.vs|
      ensures v.vs[i] == v'.vs[i] <==> Throughout(env, TextAlike, ty.elem, Vals(d.items)[i], v.vs[i])
    {
      ReadingsAgree(env, fl, n, ty.elem, Vals(d.items)[i], v.vs[i], v'.vs[i]);
    }
    assert v == v' <==> forall i :: 0 <= i < |v.vs| ==> v.vs[i] == v'.vs[i];
  }
}
