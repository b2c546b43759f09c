/** Classification (`dwarf.rs`): a possibly cyclic graph of type DIEs becomes a finite plan
    with back-edges, and unfolds to the same type. */
module Classify {
  import opened Containers
  import opened Bytes
  import opened Plan
  import Json
  import opened Numerals

  // ---- The DIE graph ----------------------------------------------------------------

  datatype Tag = BaseType | PointerType | StructureType | EnumerationType | OtherTag

  datatype Encoding = Boolean | Float | UnsignedChar | Utf | Signed | SignedChar | Unsigned | NoEncoding

  /** A type DIE, its children in place of their offsets. Type references are offsets as
      they stand in the attribute. What the layout is read from elsewhere (words, sizes of
      the referenced type) is part of the input. */
  datatype Die = Die(tag: Tag, name: string, size: nat, enc: Encoding, target: Option<nat>,
                     params: seq<Param>, members: seq<MemberDie>, variants: Option<VariantPart>,
                     words: SeqLayout, targetSize: nat, targetAlign: nat)

  datatype Param = Param(name: string, ty: Option<nat>)

  datatype MemberDie = MemberDie(name: seq<byte>, loc: nat, ty: Option<nat>)

  /** `discr` is the offset and width of the discriminant, if it can be found. */
  datatype VariantPart = VariantPart(discr: Option<(nat, nat)>, variants: seq<Variant>)

  /** A variant with a member; `payload` is the `__0` of the member's structure. */
  datatype Variant = Variant(discr: Option<nat>, loc: nat, payload: Option<MemberDie>)

  /** `site` is where an offset leads after stripping qualifiers and redirecting stubs;
      `depth` witnesses that wrappers are not wrapped in themselves. */
  datatype Graph = Graph(dies: map<nat, Die>, site: map<nat, nat>, depth: map<nat, nat>) {
    function Site(off: nat): nat {
      if off in site then site[off] else off
    }

    function Depth(k: nat): nat {
      if k in depth then depth[k] else 0
    }

    predicate Knows(c: Option<nat>) {
      c.Some? ==> Site(c.value) in dies
    }

    predicate Closed() {
      forall k :: k in dies ==>
        && Readable(dies[k]) && KnowsAll(dies[k])
        && (IsWrapper(dies[k]) ==> Depth(Site(FirstParam(dies[k]).value)) < Depth(k))
    }

    predicate KnowsAll(d: Die)
      requires Readable(d)
    {
      if IsWrapper(d) then Knows(FirstParam(d))
      else forall i :: 0 <= i < |Visits(d)| ==> Knows(Visits(d)[i])
    }
  }

  predicate StartsWith(s: string, prefix: string) { prefix <= s }

  predicate IsWrapper(d: Die) {
    StartsWith(d.name, "MaybeUninit<") || StartsWith(d.name, "ManuallyDrop<") || StartsWith(d.name, "UnsafeCell<")
  }

  function FirstParam(d: Die): Option<nat> {
    if d.params == [] then None else d.params[0].ty
  }

  function NamedParam(ps: seq<Param>, want: string): Option<nat> {
    if ps == [] then None
    else if ps[0].name == want then ps[0].ty
    else NamedParam(ps[1..], want)
  }

  /** The type parameters that are looked up without a fallback are there. */
  predicate Readable(d: Die) {
    && ((IsWrapper(d) || StartsWith(d.name, "Vec<")) ==> FirstParam(d).Some?)
    && (StartsWith(d.name, "BTreeMap<") ==> NamedParam(d.params, "K").Some? && NamedParam(d.params, "V").Some?)
  }

  // ---- One DIE: what it classifies, and what it makes of the results ------------------

  datatype Kind = Leaf(ty: Ty) | Pointer | Vector | Tree | Optional(part: VariantPart) | Aggregate

  function KindOf(d: Die): Kind {
    match d.tag
    case BaseType => Leaf(Base(d))
    case PointerType => if d.target.None? then Leaf(Unknown("*" + d.name)) else Pointer
    case StructureType =>
      if d.name == "String" then Leaf(Str(d.words))
      else if d.name == "&str" then Leaf(StrRef(d.words.ptrOff, d.words.lenOff))
      else if StartsWith(d.name, "Vec<") then Vector
      else if StartsWith(d.name, "BTreeMap<") then Tree
      else if d.variants.Some? then
        if d.variants.value.discr.Some? then Optional(d.variants.value) else Leaf(Unknown("enum " + d.name))
      else Aggregate
    case EnumerationType => Leaf(Unknown("enum " + d.name))
    case OtherTag => Leaf(Unknown(d.name))
  }

  function Base(d: Die): Ty {
    var size := d.size % 256;
    if d.name == "()" then Unit
    else
      match d.enc
      case Boolean => Bool
      case Float => if size == 4 then F32 else F64
      case UnsignedChar => if d.name == "char" then Char else U(size)
      case Utf => Char
      case Signed => I(size)
      case SignedChar => I(size)
      case Unsigned => U(size)
      case NoEncoding => Unknown(d.name)
  }

  /** The type references classified, in order; a member may have none. */
  function Visits(d: Die): seq<Option<nat>>
    requires Readable(d)
  {
    match KindOf(d)
    case Leaf(_) => []
    case Pointer => [d.target]
    case Vector => [FirstParam(d)]
    case Tree => [NamedParam(d.params, "K"), NamedParam(d.params, "V")]
    case Optional(part) => Payloads(part.variants)
    case Aggregate => seq(|d.members|, i requires 0 <= i < |d.members| => d.members[i].ty)
  }

  function Payloads(vs: seq<Variant>): seq<Option<nat>> {
    if vs == [] then []
    else
      var p := vs[0].payload;
      (if p.Some? && p.value.ty.Some? then [p.value.ty] else []) + Payloads(vs[1..])
  }

  /** The last variant without a payload says which discriminant is `None`. */
  function NoneDiscr(vs: seq<Variant>): Option<nat> {
    if vs == [] then None
    else if vs[|vs| - 1].payload.None? then vs[|vs| - 1].discr
    else NoneDiscr(vs[..|vs| - 1])
  }

  /** The last variant whose payload was classified. */
  function SomeVariant(vs: seq<Variant>): (r: Option<Variant>)
    ensures r.Some? ==> r.value.payload.Some?
    ensures r.Some? <==> Payloads(vs) != []
  {
    if vs == [] then None
    else
      var rest := SomeVariant(vs[1..]);
      if rest.Some? then rest
      else if vs[0].payload.Some? && vs[0].payload.value.ty.Some? then Some(vs[0])
      else None
  }

  function Assemble(d: Die, tys: seq<Ty>): (ty: Ty)
    requires Readable(d) && |tys| == |Visits(d)|
    ensures !ty.Ref?
  {
    match KindOf(d)
    case Leaf(ty) => ty
    case Pointer => Boxed(tys[0], d.targetSize, d.targetAlign)
    case Vector => Ty.Vec(tys[0], d.targetSize, d.targetAlign, d.words)
    case Tree => Map(tys[0], tys[1])
    case Optional(part) =>
      var none, some := NoneDiscr(part.variants), SomeVariant(part.variants);
      if none.Some? && some.Some? then
        Opt(part.discr.value.0, part.discr.value.1, none.value, some.value.discr,
            some.value.loc + some.value.payload.value.loc, d.size, tys[|tys| - 1])
      else Unknown("enum " + d.name)
    case Aggregate =>
      var fields := BuildFields(d.members, tys);
      if fields != [] && forall i :: 0 <= i < |fields| ==> IsIndex(fields[i].name) then Tuple(SortByIndex(fields))
      else Struct(d.name, fields)
  }

  function BuildFields(ms: seq<MemberDie>, tys: seq<Ty>): seq<FieldTy>
    requires |ms| == |tys|
  {
    seq(|ms|, i requires 0 <= i < |ms| => FieldTy(ms[i].name, ms[i].loc, tys[i]))
  }

  /** `__0`, `__1`, and so on. */
  predicate IsIndex(name: seq<byte>) {
    |name| > 2 && name[0] == 95 && name[1] == 95 && Json.Digits(name[2..])
  }

  function IndexOf(name: seq<byte>): nat {
    if |name| > 2 && Json.Digits(name[2..]) && Json.Decimal(name[2..]) < 0x1_0000_0000 then Json.Decimal(name[2..])
    else 0xFFFF_FFFF
  }

  /** A stable sort, as the library's is. */
  function SortByIndex(fs: seq<FieldTy>): seq<FieldTy> {
    if fs == [] then [] else InsertByIndex(SortByIndex(fs[..|fs| - 1]), fs[|fs| - 1])
  }

  function InsertByIndex(fs: seq<FieldTy>, f: FieldTy): seq<FieldTy> {
    if fs == [] || IndexOf(fs[|fs| - 1].name) <= IndexOf(f.name) then fs + [f]
    else InsertByIndex(fs[..|fs| - 1], f) + [fs[|fs| - 1]]
  }

  // ---- Unfolding --------------------------------------------------------------------

  /** Where an unfolding stops. */
  const CUT: Ty := Unknown("...")

  /** The type behind a reference, followed `n` levels through the DIE graph. */
  function Want(g: Graph, n: nat, c: Option<nat>): Ty
    requires g.Closed() && g.Knows(c)
    decreases n, if c.Some? then g.Depth(g.Site(c.value)) + 2 else 0
  {
    if n == 0 then CUT
    else
      match c
      case None => Unknown("?")
      case Some(off) =>
        var d := g.dies[g.Site(off)];
        if IsWrapper(d) then Want(g, n, FirstParam(d)) else WantDie(g, n, g.Site(off))
  }

  function WantDie(g: Graph, n: nat, k: nat): Ty
    requires g.Closed() && k in g.dies && !IsWrapper(g.dies[k])
    decreases n, 1
  {
    if n == 0 then CUT
    else
      var d := g.dies[k];
      var vs := Visits(d);
      assert g.KnowsAll(d);
      Assemble(d, seq(|vs|, i requires 0 <= i < |vs| => Want(g, n - 1, vs[i])))
  }

  /** What a cell stands for while classification is under way: its body if the knot is
      tied, the DIE still being classified if not. */
  datatype View = View(g: Graph, tied: map<nat, Ty>, open: map<nat, nat>) {
    predicate Valid() {
      && g.Closed()
      && (forall c :: c in open ==> c !in tied && open[c] in g.dies && !IsWrapper(g.dies[open[c]]))
      && (forall c :: c in tied ==> !tied[c].Ref? && Refs(tied[c]) <= Scope())
    }

    function Scope(): set<nat> { tied.Keys + open.Keys }
  }

  /** A plan followed `n` levels, through its back-edges. */
  function Unfold(w: View, n: nat, ty: Ty): Ty
    requires w.Valid()
    decreases n, if ty.Ref? then 1 else 0
  {
    if n == 0 then CUT
    else if !ty.Ref? then
      var ps := Parts(ty);
      With(ty, seq(|ps|, i requires 0 <= i < |ps| => Unfold(w, n - 1, ps[i])))
    else if ty.cell in w.tied then Unfold(w, n, w.tied[ty.cell])
    else if ty.cell in w.open then WantDie(w.g, n, w.open[ty.cell])
    else CUT
  }

  // ---- Assembling commutes with unfolding ----------------------------------------------

  function UnfoldAll(w: View, n: nat, tys: seq<Ty>): (r: seq<Ty>)
    requires w.Valid()
    ensures |r| == |tys|
    ensures forall i :: 0 <= i < |tys| ==> r[i] == Unfold(w, n, tys[i])
  {
    seq(|tys|, i requires 0 <= i < |tys| => Unfold(w, n, tys[i]))
  }

  function UnfoldFields(w: View, n: nat, fs: seq<FieldTy>): seq<FieldTy>
    requires w.Valid()
  {
    Retyped(fs, UnfoldAll(w, n, FieldTypes(fs)))
  }

  lemma {:induction false} UnfoldParts(w: View, n: nat, ty: Ty)
    requires w.Valid() && n > 0 && !ty.Ref?
    ensures Unfold(w, n, ty) == With(ty, UnfoldAll(w, n - 1, Parts(ty)))
  {
    var ps := Parts(ty);
    assert UnfoldAll(w, n - 1, ps) == seq(|ps|, i requires 0 <= i < |ps| => Unfold(w, n - 1, ps[i]));
  }

  lemma {:induction false} InsertUnfolds(w: View, n: nat, fs: seq<FieldTy>, f: FieldTy)
    requires w.Valid()
    ensures UnfoldFields(w, n, InsertByIndex(fs, f)) ==
            InsertByIndex(UnfoldFields(w, n, fs), FieldTy(f.name, f.offset, Unfold(w, n, f.ty)))
  {
    hide Unfold, IndexOf;
    if fs != [] {
      InsertUnfolds(w, n, fs[..|fs| - 1], f);
      assert UnfoldFields(w, n, fs)[..|fs| - 1] == UnfoldFields(w, n, fs[..|fs| - 1]);
    }
  }

  lemma {:induction false} SortUnfolds(w: View, n: nat, fs: seq<FieldTy>)
    requires w.Valid()
    ensures UnfoldFields(w, n, SortByIndex(fs)) == SortByIndex(UnfoldFields(w, n, fs))
  {
    hide Unfold, InsertByIndex;
    if fs != [] {
      var k := |fs| - 1;
      SortUnfolds(w, n, fs[..k]);
      assert UnfoldFields(w, n, fs)[..k] == UnfoldFields(w, n, fs[..k]);
      InsertUnfolds(w, n, SortByIndex(fs[..k]), fs[k]);
    }
  }

  lemma {:induction false} LeafHasNoParts(d: Die)
    requires KindOf(d).Leaf?
    ensures Parts(KindOf(d).ty) == [] && With(KindOf(d).ty, []) == KindOf(d).ty && !KindOf(d).ty.Ref?
  {}

  lemma {:induction false} AssembleUnfolds(w: View, n: nat, d: Die, tys: seq<Ty>)
    requires w.Valid() && n > 0 && Readable(d) && |tys| == |Visits(d)|
    ensures Unfold(w, n, Assemble(d, tys)) == Assemble(d, UnfoldAll(w, n - 1, tys))
  {
    hide SortByIndex, IsIndex, Unfold, Graph.Closed, View.Valid, KindOf, Readable;
    UnfoldParts(w, n, Assemble(d, tys));
    match KindOf(d)
    case Leaf(_) => LeafHasNoParts(d);
    case Aggregate =>
      var fs := BuildFields(d.members, tys);
      assert UnfoldFields(w, n - 1, fs) == BuildFields(d.members, UnfoldAll(w, n - 1, tys));
      SortUnfolds(w, n - 1, fs);
      assert forall i :: 0 <= i < |fs| ==> UnfoldFields(w, n - 1, fs)[i].name == fs[i].name;
    case _ =>
  }

  lemma {:induction false} InsertMembers(fs: seq<FieldTy>, f: FieldTy)
    ensures forall x :: x in InsertByIndex(fs, f) ==> x in fs || x == f
  {
    if fs != [] {
      InsertMembers(fs[..|fs| - 1], f);
    }
  }

  lemma {:induction false} SortMembers(fs: seq<FieldTy>)
    ensures forall x :: x in SortByIndex(fs) ==> x in fs
  {
    if fs != [] {
      SortMembers(fs[..|fs| - 1]);
      InsertMembers(SortByIndex(fs[..|fs| - 1]), fs[|fs| - 1]);
    }
  }

  /** What is assembled is made of what was classified, and nothing else. */
  lemma {:induction false} AssembleParts(d: Die, tys: seq<Ty>)
    requires Readable(d) && |tys| == |Visits(d)|
    ensures forall i :: 0 <= i < |Parts(Assemble(d, tys))| ==> Parts(Assemble(d, tys))[i] in tys
  {
    hide SortByIndex, IsIndex, KindOf;
    match KindOf(d)
    case Leaf(_) => LeafHasNoParts(d);
    case Aggregate =>
      var fs := BuildFields(d.members, tys);
      SortMembers(fs);
      forall f | f in fs ensures f.ty in tys {}
      var ty := Assemble(d, tys);
      forall i | 0 <= i < |ty.fields| ensures ty.fields[i].ty in tys {
        assert ty.fields[i] in fs;
      }
    case _ =>
  }

  lemma {:induction false} AssembleRefs(d: Die, tys: seq<Ty>, s: set<nat>)
    requires Readable(d) && |tys| == |Visits(d)|
    requires forall i :: 0 <= i < |tys| ==> Refs(tys[i]) <= s
    ensures Refs(Assemble(d, tys)) <= s
  {
    hide Assemble, Visits, Readable;
    AssembleParts(d, tys);
    var ps := Parts(Assemble(d, tys));
    forall i | 0 <= i < |ps| ensures Refs(ps[i]) <= s {
      var j :| 0 <= j < |tys| && tys[j] == ps[i];
    }
  }

  // ---- Tying knots changes no unfolding ----------------------------------------------

  /** On the cells `s`, which is closed, the second view says what the first does; a knot
      may have been tied, with a body that unfolds to what the cell stood for. */
  ghost predicate Alike(w: View, w': View, s: set<nat>)
    requires w.Valid() && w'.Valid()
  {
    && w.g == w'.g
    && forall c :: c in s ==>
         if c in w.tied then c in w'.tied && w'.tied[c] == w.tied[c] && Refs(w.tied[c]) <= s
         else
           && c in w.open
           && if c in w'.tied then Refs(w'.tied[c]) <= s && Means(w, w'.tied[c], w.open[c])
              else c in w'.open && w'.open[c] == w.open[c]
  }

  /** A plan unfolds to what a DIE unfolds to, at every depth. */
  ghost predicate Means(w: View, ty: Ty, k: nat)
    requires w.Valid()
  {
    k in w.g.dies && !IsWrapper(w.g.dies[k]) && forall n: nat :: Unfold(w, n, ty) == WantDie(w.g, n, k)
  }

  lemma {:induction false} AlikeRef(w: View, w': View, s: set<nat>, c: nat)
    requires w.Valid() && w'.Valid() && Alike(w, w', s) && c in s
    ensures w'.g == w.g && (c in w.tied ==> c in w'.tied && w'.tied[c] == w.tied[c])
    ensures c in w'.tied ==> !w'.tied[c].Ref? && Refs(w'.tied[c]) <= s
    ensures c !in w.tied ==> c in w.open
    ensures c !in w.tied && c in w'.tied ==> Means(w, w'.tied[c], w.open[c])
    ensures c !in w'.tied ==> c in w'.open && w'.open[c] == w.open[c]
  {
    hide Means, Unfold;
  }

  lemma {:induction false} RefUnfolds(w: View, n: nat, c: nat)
    requires w.Valid() && n > 0
    ensures c in w.tied ==> Unfold(w, n, Ref(c)) == Unfold(w, n, w.tied[c])
    ensures c !in w.tied && c in w.open ==> Unfold(w, n, Ref(c)) == WantDie(w.g, n, w.open[c])
  {
    hide WantDie;
  }

  lemma {:induction false} AlikeUnfolds(w: View, w': View, s: set<nat>, n: nat, ty: Ty)
    requires w.Valid() && w'.Valid() && Alike(w, w', s) && Refs(ty) <= s
    ensures Unfold(w', n, ty) == Unfold(w, n, ty)
    decreases n, if ty.Ref? then 1 else 0, 0
  {
    hide WantDie, Alike, View.Valid, Want, With;
    if n > 0 {
      if ty.Ref? {
        AlikeBackEdge(w, w', s, n, ty.cell);
      } else {
        var ps := Parts(ty);
        UnfoldParts(w, n, ty);
        UnfoldParts(w', n, ty);
        forall i | 0 <= i < |ps| ensures Unfold(w', n - 1, ps[i]) == Unfold(w, n - 1, ps[i]) {
          AlikeUnfolds(w, w', s, n - 1, ps[i]);
        }
        assert UnfoldAll(w', n - 1, ps) == UnfoldAll(w, n - 1, ps);
      }
    }
  }

  lemma {:induction false} AlikeBackEdge(w: View, w': View, s: set<nat>, n: nat, c: nat)
    requires w.Valid() && w'.Valid() && Alike(w, w', s) && c in s && n > 0
    ensures Unfold(w', n, Ref(c)) == Unfold(w, n, Ref(c))
    decreases n, 0, 1
  {
    hide WantDie, Alike, View.Valid, Unfold, Want;
    AlikeRef(w, w', s, c);
    RefUnfolds(w, n, c);
    RefUnfolds(w', n, c);
    if c in w'.tied {
      AlikeUnfolds(w, w', s, n, w'.tied[c]);
    }
  }

  // ---- The walk ---------------------------------------------------------------------

  /** A reference's plan means what the reference does. */
  ghost predicate Matches(w: View, ty: Ty, c: Option<nat>)
    requires w.Valid() && w.g.Knows(c)
  {
    Refs(ty) <= w.Scope() && forall n: nat :: Unfold(w, n, ty) == Want(w.g, n, c)
  }

  /** Later views of the walk keep what earlier ones said. */
  ghost predicate Grew(w: View, w': View, next: nat) {
    && w'.g == w.g && w'.open == w.open
    && (forall c :: c in w.tied ==> c in w'.tied && w'.tied[c] == w.tied[c])
    && forall c :: c in w'.tied && c !in w.tied ==> c >= next
  }

  lemma {:induction false} GrewMatches(w: View, w': View, next: nat, ty: Ty, c: Option<nat>)
    requires w.Valid() && w'.Valid() && Grew(w, w', next) && w.g.Knows(c) && Matches(w, ty, c)
    ensures Matches(w', ty, c)
  {
    hide Unfold, Want;
    forall n: nat ensures Unfold(w', n, ty) == Want(w'.g, n, c) {
      AlikeUnfolds(w, w', w.Scope(), n, ty);
    }
  }

  lemma {:induction false} WrapperMatches(w: View, ty: Ty, off: nat)
    requires w.Valid() && w.g.Knows(Some(off)) && IsWrapper(w.g.dies[w.g.Site(off)])
    requires var c := FirstParam(w.g.dies[w.g.Site(off)]); w.g.Knows(c) && Matches(w, ty, c)
    ensures Matches(w, ty, Some(off))
  {
    hide Unfold, WantDie;
    var c := FirstParam(w.g.dies[w.g.Site(off)]);
    forall n: nat ensures Unfold(w, n, ty) == Want(w.g, n, Some(off)) {
      assert Want(w.g, n, Some(off)) == Want(w.g, n, c);
    }
  }

  lemma {:induction false} UntypedMatches(w: View)
    requires w.Valid()
    ensures Matches(w, Unknown("?"), None)
  {}

  lemma {:induction false} DieMatches(w: View, ty: Ty, off: nat)
    requires w.Valid() && w.g.Knows(Some(off)) && !IsWrapper(w.g.dies[w.g.Site(off)])
    requires Refs(ty) <= w.Scope() && Means(w, ty, w.g.Site(off))
    ensures Matches(w, ty, Some(off))
  {
    hide Unfold;
    forall n: nat ensures Unfold(w, n, ty) == Want(w.g, n, Some(off)) {
      assert Unfold(w, n, ty) == WantDie(w.g, n, w.g.Site(off));
    }
  }

  lemma {:induction false} OpenMatches(w: View, c: nat, off: nat)
    requires w.Valid() && w.g.Knows(Some(off)) && c in w.open && w.open[c] == w.g.Site(off)
    ensures Matches(w, Ref(c), Some(off))
  {
    hide WantDie;
    forall n: nat ensures Unfold(w, n, Ref(c)) == WantDie(w.g, n, w.open[c]) {
      if n == 0 {
        CutAtZero(w.g, w.open[c]);
      }
    }
    DieMatches(w, Ref(c), off);
  }

  lemma {:induction false} CutAtZero(g: Graph, k: nat)
    requires g.Closed() && k in g.dies && !IsWrapper(g.dies[k])
    ensures WantDie(g, 0, k) == CUT
  {}

  /** How many keys are not in flight: what makes the walk end. */
  ghost function Waiting(g: Graph, memo: map<nat, nat>): nat {
    |g.dies.Keys - memo.Keys|
  }

  lemma {:induction false} FewerWait(g: Graph, memo: map<nat, nat>, k: nat, c: nat)
    requires k in g.dies && k !in memo
    ensures Waiting(g, memo[k := c]) < Waiting(g, memo)
  {
    assert g.dies.Keys - memo.Keys == (g.dies.Keys - memo[k := c].Keys) + {k};
  }

  lemma {:induction false} BodyMeans(w: View, tys: seq<Ty>, k: nat)
    requires w.Valid() && k in w.g.dies && !IsWrapper(w.g.dies[k])
    requires var vs := Visits(w.g.dies[k]);
             |tys| == |vs| && forall i :: 0 <= i < |vs| ==> w.g.Knows(vs[i]) && Matches(w, tys[i], vs[i])
    ensures var ty := Assemble(w.g.dies[k], tys); Refs(ty) <= w.Scope() && Means(w, ty, k)
  {
    hide Unfold, Want, Assemble, Visits;
    var d := w.g.dies[k];
    var vs := Visits(d);
    AssembleRefs(d, tys, w.Scope());
    forall n: nat ensures Unfold(w, n, Assemble(d, tys)) == WantDie(w.g, n, k) {
      if n == 0 {
        CutUnfold(w, Assemble(d, tys));
      } else {
        AssembleUnfolds(w, n, d, tys);
        assert UnfoldAll(w, n - 1, tys) == seq(|vs|, i requires 0 <= i < |vs| => Want(w.g, n - 1, vs[i]));
      }
    }
  }

  lemma {:induction false} CutUnfold(w: View, ty: Ty)
    requires w.Valid()
    ensures Unfold(w, 0, ty) == CUT
  {}

  lemma {:induction false} ClosedMatches(w: View, w': View, s: set<nat>, body: Ty, off: nat)
    requires w.Valid() && w'.Valid() && Alike(w, w', s) && Refs(body) <= s && s <= w'.Scope()
    requires w.g.Knows(Some(off)) && Means(w, body, w.g.Site(off))
    ensures Matches(w', body, Some(off))
  {
    hide Unfold, WantDie, Alike;
    forall n: nat ensures Unfold(w', n, body) == WantDie(w.g, n, w.g.Site(off)) {
      AlikeUnfolds(w, w', s, n, body);
    }
    assert w'.g == w.g by { AlikeGraph(w, w', s); }
    DieMatches(w', body, off);
  }

  lemma {:induction false} AlikeGraph(w: View, w': View, s: set<nat>)
    requires w.Valid() && w'.Valid() && Alike(w, w', s)
    ensures w'.g == w.g
  {}

  /** The state of the walk: what the cells say, and the in-flight keys, each with a cell
      of its own. */
  ghost predicate Walk(w: View, memo: map<nat, nat>, next: nat) {
    && w.Valid()
    && (forall k :: k in memo ==> memo[k] in w.open && w.open[memo[k]] == k)
    && (forall c :: c in w.open ==> w.open[c] in memo && memo[w.open[c]] == c)
    && (forall c :: c in w.Scope() ==> c < next)
    && AllUsed(w.tied)
  }

  /** No cell is tied for nothing: each is referred to from a body. */
  ghost predicate AllUsed(tied: map<nat, Ty>) {
    forall c :: c in tied ==> Used(tied, c)
  }

  ghost predicate Used(tied: map<nat, Ty>, c: nat) {
    exists k :: k in tied && c in Refs(tied[k])
  }

  lemma {:induction false} MoreUsed(tied: map<nat, Ty>, c: nat, body: Ty)
    requires AllUsed(tied) && c !in tied && (c in Refs(body) || Used(tied, c))
    ensures AllUsed(tied[c := body])
  {
    hide Refs;
    var tied' := tied[c := body];
    assert tied'[c] == body;
    forall d | d in tied' ensures Used(tied', d) {
      if d != c || c !in Refs(body) {
        assert Used(tied, d);
        var k :| k in tied && d in Refs(tied[k]);
        assert tied'[k] == tied[k];
      }
    }
  }

  lemma {:induction false} NotUsed(tied: map<nat, Ty>, c: nat)
    ensures !Used(tied, c) ==> forall k :: k in tied ==> c !in Refs(tied[k])
  {
    hide Refs;
  }

  lemma {:induction false} WalkOpens(w: View, memo: map<nat, nat>, next: nat, key: nat)
    requires Walk(w, memo, next) && key in w.g.dies && !IsWrapper(w.g.dies[key]) && key !in memo
    ensures Walk(View(w.g, w.tied, w.open[next := key]), memo[key := next], next + 1)
  {
    hide IsWrapper, Refs, Graph.Closed, AllUsed;
    var w' := View(w.g, w.tied, w.open[next := key]);
    assert w'.Scope() == w.Scope() + {next};
  }

  /** Closing a key ties its cell, or drops it when no reference to it is left. */
  lemma {:induction false} WalkCloses(w: View, memo: map<nat, nat>, next: nat, key: nat, body: Ty, shared: bool)
    returns (w': View)
    requires Walk(w, memo, next) && key in memo && !body.Ref? && Refs(body) <= w.Scope()
    requires Means(w, body, key)
    requires shared <==> memo[key] in Refs(body) || Used(w.tied, memo[key])
    ensures w' == View(w.g, if shared then w.tied[memo[key] := body] else w.tied, w.open - {memo[key]})
    ensures Walk(w', memo - {key}, next) && Refs(body) <= w'.Scope()
    ensures Alike(w, w', w'.Scope())
  {
    hide IsWrapper, Refs, Graph.Closed, Means, AllUsed, Used;
    var c := memo[key];
    NotUsed(w.tied, c);
    w' := View(w.g, if shared then w.tied[c := body] else w.tied, w.open - {c});
    assert w'.Scope() == if shared then w.Scope() else w.Scope() - {c};
    if shared {
      MoreUsed(w.tied, c, body);
    }
    forall k | k in w'.tied ensures !w'.tied[k].Ref? && Refs(w'.tied[k]) <= w'.Scope() {}
    assert w'.Valid();
  }

  lemma {:induction false} WalkUsed(w: View, memo: map<nat, nat>, next: nat)
    requires Walk(w, memo, next)
    ensures AllUsed(w.tied)
  {}

  lemma {:induction false} WalkValid(w: View, memo: map<nat, nat>, next: nat)
    requires Walk(w, memo, next)
    ensures w.Valid() && w.g.Closed() && next !in w.tied && next !in w.open
    ensures forall k :: k in memo ==> memo[k] in w.open && w.open[memo[k]] == k
  {
    assert next !in w.Scope();
  }

  lemma {:induction false} Bodies(g: Graph, off: nat)
    requires g.Closed() && g.Knows(Some(off))
    ensures g.Site(off) in g.dies
    ensures var d := g.dies[g.Site(off)];
            && Readable(d) && g.KnowsAll(d)
            && (IsWrapper(d) ==> g.Knows(FirstParam(d)) && FirstParam(d).Some?
                                 && g.Depth(g.Site(FirstParam(d).value)) < g.Depth(g.Site(off)))
            && (!IsWrapper(d) ==> forall i :: 0 <= i < |Visits(d)| ==> g.Knows(Visits(d)[i]))
  {
    assert g.KnowsAll(g.dies[g.Site(off)]);
  }

  lemma {:induction false} GrewTwice(w: View, w': View, w'': View, n: nat, n': nat)
    requires Grew(w, w', n) && Grew(w', w'', n') && n <= n'
    ensures Grew(w, w'', n)
  {}

  /** Leaving a DIE: its plan means what the DIE does, and the walk is where it was. */
  lemma {:induction false} WalkReturns(w0: View, memo0: map<nat, nat>, next0: nat, w2: View, next2: nat, key: nat,
                                       body: Ty, shared: bool, off: nat)
    returns (w3: View)
    requires Walk(w0, memo0, next0) && key !in memo0 && w0.g.Knows(Some(off)) && w0.g.Site(off) == key
    requires Grew(View(w0.g, w0.tied, w0.open[next0 := key]), w2, next0 + 1)
    requires Walk(w2, memo0[key := next0], next2) && !body.Ref? && Refs(body) <= w2.Scope() && Means(w2, body, key)
    requires shared <==> next0 in Refs(body) || Used(w2.tied, next0)
    ensures w3 == View(w0.g, if shared then w2.tied[next0 := body] else w2.tied, w0.open)
    ensures Walk(w3, memo0, next2) && Grew(w0, w3, next0) && w3.Valid() && Matches(w3, body, Some(off))
  {
    hide Means, Matches, Refs, Graph.Closed, Graph.Knows, IsWrapper, View.Valid, Want, Unfold, Alike, Walk, View.Scope;
    WalkValid(w0, memo0, next0);
    w3 := WalkCloses(w2, memo0[key := next0], next2, key, body, shared);
    WalkValid(w2, memo0[key := next0], next2);
    WalkValid(w3, memo0[key := next0] - {key}, next2);
    ClosedMatches(w2, w3, w3.Scope(), body, off);
    assert w2.open - {next0} == w0.open && memo0[key := next0] - {key} == memo0;
  }

  class Classifier {
    const g: Graph
    /** Keys being classified, each with its cell. */
    var memo: map<nat, nat>
    /** The cells whose knot is tied. */
    var cells: map<nat, Ty>
    var next: nat
    /** The key each open cell belongs to: `memo` read backwards. */
    ghost var open: map<nat, nat>

    ghost function Now(): View
      reads this
    {
      View(g, cells, open)
    }

    ghost predicate Valid()
      reads this
    {
      Walk(Now(), memo, next)
    }

    constructor (g: Graph)
      requires g.Closed()
      ensures Valid() && this.g == g && memo == map[] && open == map[] && cells == map[]
    {
      this.g := g;
      memo, cells, next, open := map[], map[], 0, map[];
    }

    /** The references still held to a cell, besides the memo's and the walk's own: in the
        body just built, or in the bodies of cells already tied. */
    predicate Shared(c: nat, body: Ty)
      reads this
    {
      c in Refs(body) || exists k :: k in cells && c in Refs(cells[k])
    }

    method Classify(off: nat) returns (ty: Ty)
      requires Valid() && g.Knows(Some(off))
      modifies this
      ensures Valid() && memo == old(memo) && next >= old(next)
      ensures Grew(old(Now()), Now(), old(next)) && Now().Valid() && Matches(Now(), ty, Some(off))
      decreases Waiting(g, memo), g.Depth(g.Site(off)) + 1, 1
    {
      hide Walk, Matches, Means, Want, WantDie, Unfold, Refs, Visits, Assemble, Readable, IsWrapper, Grew, FirstParam,
           Graph.Closed, View.Valid, Graph.Knows, Graph.KnowsAll, Waiting;
      WalkValid(Now(), memo, next);
      Bodies(g, off);
      var key := g.Site(off);
      var d := g.dies[key];
      if IsWrapper(d) {
        ty := Classify(FirstParam(d).value);
        WrapperMatches(Now(), ty, off);
        return;
      }
      if key in memo {
        ty := Ref(memo[key]);
        OpenMatches(Now(), memo[key], off);
        GrewNothing(Now(), next);
        return;
      }
      ty := ClassifyDie(key, off);
    }

    /** A key that is not in flight: mint its cell, classify what it is made of, and tie
        the knot if the cell was handed out. */
    method ClassifyDie(key: nat, ghost off: nat) returns (ty: Ty)
      requires Valid() && g.Knows(Some(off)) && key == g.Site(off) && key !in memo && !IsWrapper(g.dies[key])
      modifies this
      ensures Valid() && memo == old(memo) && next >= old(next)
      ensures Grew(old(Now()), Now(), old(next)) && Now().Valid() && Matches(Now(), ty, Some(off))
      decreases Waiting(g, memo), 0, 1
    {
      hide Walk, Matches, Means, Want, WantDie, Unfold, Refs, Visits, Assemble, Readable, IsWrapper, Grew, FirstParam,
           Graph.Closed, View.Valid, View.Scope, Graph.Knows, Graph.KnowsAll, Graph.Site, Graph.Depth, Waiting;
      WalkValid(Now(), memo, next);
      Bodies(g, off);
      ghost var w0, memo0 := Now(), memo;
      var d, c := g.dies[key], next;
      WalkOpens(w0, memo0, c, key);
      FewerWait(g, memo, key, c);
      memo, open, next := memo[key := c], open[c := key], next + 1;
      var tys := ClassifyAll(Visits(d));
      ghost var w2 := Now();
      ty := Assemble(d, tys);
      BodyMeans(w2, tys, key);
      var shared := Shared(c, ty);
      ghost var w3 := WalkReturns(w0, memo0, c, w2, next, key, ty, shared, off);
      if shared {
        cells := cells[c := ty];
      }
      memo, open := memo - {key}, old(open);
      assert memo == memo0 && Now() == w3;
    }

    method ClassifyAll(vs: seq<Option<nat>>) returns (tys: seq<Ty>)
      requires Valid() && forall i :: 0 <= i < |vs| ==> g.Knows(vs[i])
      modifies this
      ensures Valid() && memo == old(memo) && next >= old(next)
      ensures Grew(old(Now()), Now(), old(next)) && Now().Valid()
      ensures |tys| == |vs| && forall i :: 0 <= i < |vs| ==> Matches(Now(), tys[i], vs[i])
      decreases Waiting(g, memo) + 1, 0, 0
    {
      hide Walk, Matches, Want, Unfold, Refs, Grew, Graph.Closed, View.Valid, Graph.Knows, Graph.Site, Graph.Depth,
          Waiting;
      WalkValid(Now(), memo, next);
      GrewNothing(Now(), next);
      tys := [];
      for i := 0 to |vs|
        invariant Valid() && memo == old(memo) && next >= old(next) && Now().Valid()
        invariant Grew(old(Now()), Now(), old(next))
        invariant |tys| == i && forall j :: 0 <= j < i ==> Matches(Now(), tys[j], vs[j])
      {
        ghost var w, next0 := Now(), next;
        var ty := Unknown("?");
        if vs[i].None? {
          UntypedMatches(w);
        } else {
          ty := Classify(vs[i].value);
          GrewTwice(old(Now()), w, Now(), old(next), next0);
          forall j | 0 <= j < i ensures Matches(Now(), tys[j], vs[j]) {
            GrewMatches(w, Now(), next0, tys[j], vs[j]);
          }
        }
        tys := tys + [ty];
      }
    }
  }

  lemma {:induction false} GrewNothing(w: View, next: nat)
    ensures Grew(w, w, next)
  {}

  // ---- What a DIE's layout is ---------------------------------------------------------

  /** What a reference leads to, `n` levels deep. */
  function Part(g: Graph, n: nat, c: Option<nat>): Ty
    requires g.Closed()
  {
    if g.Knows(c) then Want(g, n, c) else CUT
  }

  /** A base type is what its encoding says, of the width its byte size says. */
  predicate LaidBase(d: Die, ty: Ty) {
    var width := d.size % 256;
    if d.name == "()" then ty == Unit
    else
      && (d.enc == Boolean ==> ty == Bool)
      && (d.enc == Float ==> ty == if width == 4 then F32 else F64)
      && (d.enc == Utf || (d.enc == UnsignedChar && d.name == "char") ==> ty == Char)
      && (d.enc == Unsigned || (d.enc == UnsignedChar && d.name != "char") ==> ty == U(width))
      && (d.enc == Signed || d.enc == SignedChar ==> ty == I(width))
      && (d.enc == NoEncoding ==> ty == Unknown(d.name))
  }

  /** The last variant without a payload. */
  predicate Bare(vs: seq<Variant>, i: nat) {
    i < |vs| && vs[i].payload.None? && forall k :: i < k < |vs| ==> vs[k].payload.Some?
  }

  predicate Typed(v: Variant) {
    v.payload.Some? && v.payload.value.ty.Some?
  }

  /** The last variant whose payload has a type. */
  predicate Full(vs: seq<Variant>, j: nat) {
    j < |vs| && Typed(vs[j]) && forall k :: j < k < |vs| ==> !Typed(vs[k])
  }

  /** A variant part with an empty variant and one with a payload is an option: the tag
      where and as wide as the part says, `None` and `Some` marked as those variants are,
      and the payload at its own place in its variant's. */
  ghost predicate LaidOption(g: Graph, n: nat, d: Die, ty: Ty)
    requires g.Closed() && d.variants.Some?
  {
    var vs, tag := d.variants.value.variants, d.variants.value.discr;
    && (forall i: nat, j: nat :: tag.Some? && Bare(vs, i) && vs[i].discr.Some? && Full(vs, j) ==>
          && ty.Opt? && ty.discOff == tag.value.0 && ty.discSize == tag.value.1 && ty.size == d.size
          && ty.noneDiscr == vs[i].discr.value && ty.someDiscr == vs[j].discr
          && ty.payloadOff == vs[j].loc + vs[j].payload.value.loc
          && ty.inner == Part(g, n, vs[j].payload.value.ty))
    && ((tag.None? || (forall i: nat :: Bare(vs, i) ==> vs[i].discr.None?) || (forall j: nat :: !Full(vs, j))) ==>
          ty == Unknown("enum " + d.name))
  }

  /** A member's name is two underscores and digits. */
  predicate Positional(name: seq<byte>) {
    |name| > 2 && name[0] == '_' as int && name[1] == '_' as int
    && forall k :: 2 <= k < |name| ==> '0' as int <= name[k] <= '9' as int
  }

  ghost predicate Numbered(name: seq<byte>, x: nat) {
    exists k: nat :: name == ['_' as int, '_' as int] + Padded(k, x)
  }

  function FieldOf(g: Graph, n: nat, m: MemberDie): FieldTy
    requires g.Closed()
  {
    FieldTy(m.name, m.loc, Part(g, n, m.ty))
  }

  /** Members become fields at their own places and under their own names: those of a
      structure in order, those of a tuple by their numbers as far as 32 bits reach. */
  ghost predicate LaidFields(g: Graph, n: nat, d: Die, ty: Ty)
    requires g.Closed()
  {
    var fs := seq(|d.members|, i requires 0 <= i < |d.members| => FieldOf(g, n, d.members[i]));
    if d.members != [] && forall i :: 0 <= i < |d.members| ==> Positional(d.members[i].name) then
      && ty.Tuple? && multiset(ty.fields) == multiset(fs)
      && forall i, j, x, y :: 0 <= i < j < |ty.fields|
                              && Numbered(ty.fields[i].name, x) && Numbered(ty.fields[j].name, y) ==>
           x <= y || y >= 0xFFFF_FFFF
    else ty == Struct(d.name, fs)
  }

  ghost predicate LaidStructure(g: Graph, n: nat, d: Die, ty: Ty)
    requires g.Closed()
  {
    if d.name == "String" then ty == Str(d.words)
    else if d.name == "&str" then ty == StrRef(d.words.ptrOff, d.words.lenOff)
    else if "Vec<" <= d.name then
      d.params != [] && ty == Ty.Vec(Part(g, n, d.params[0].ty), d.targetSize, d.targetAlign, d.words)
    else if "BTreeMap<" <= d.name then
      exists i: nat, j: nat :: FirstNamed(d.params, "K", i) && FirstNamed(d.params, "V", j)
                     && ty == Map(Part(g, n, d.params[i].ty), Part(g, n, d.params[j].ty))
    else if d.variants.Some? then LaidOption(g, n, d, ty)
    else LaidFields(g, n, d, ty)
  }

  predicate FirstNamed(ps: seq<Param>, want: string, i: nat) {
    i < |ps| && ps[i].name == want && forall k :: 0 <= k < i ==> ps[k].name != want
  }

  /** What a DIE is laid out as, followed `n` levels. */
  ghost predicate Laid(g: Graph, n: nat, d: Die, ty: Ty)
    requires g.Closed()
  {
    match d.tag
    case BaseType => LaidBase(d, ty)
    case PointerType =>
      ty == if d.target.None? then Unknown("*" + d.name) else Boxed(Part(g, n, d.target), d.targetSize, d.targetAlign)
    case StructureType => LaidStructure(g, n, d, ty)
    case EnumerationType => ty == Unknown("enum " + d.name)
    case OtherTag => ty == Unknown(d.name)
  }

  /** A reference followed `n` levels: a transparent wrapper is what its parameter is. */
  ghost predicate Shaped(g: Graph, n: nat, off: nat, ty: Ty)
    requires g.Closed() && g.Knows(Some(off)) && n > 0
  {
    var d := g.dies[if off in g.site then g.site[off] else off];
    if "MaybeUninit<" <= d.name || "ManuallyDrop<" <= d.name || "UnsafeCell<" <= d.name then
      d.params != [] && ty == Part(g, n, d.params[0].ty)
    else Laid(g, n - 1, d, ty)
  }

  lemma {:induction false} BareIsLast(vs: seq<Variant>, i: nat)
    requires Bare(vs, i)
    ensures NoneDiscr(vs) == vs[i].discr
  {
    var k := |vs| - 1;
    if i < k {
      BareIsLast(vs[..k], i);
    }
  }

  lemma {:induction false} NoneIsBare(vs: seq<Variant>)
    requires NoneDiscr(vs).Some?
    ensures exists i: nat :: Bare(vs, i)
  {
    var k := |vs| - 1;
    if vs[k].payload.None? {
      assert Bare(vs, k);
    } else {
      NoneIsBare(vs[..k]);
      var i: nat :| Bare(vs[..k], i);
      assert Bare(vs, i);
    }
  }

  lemma {:induction false} FullIsLast(vs: seq<Variant>, j: nat)
    requires Full(vs, j)
    ensures SomeVariant(vs) == Some(vs[j])
    ensures Payloads(vs) != [] && Payloads(vs)[|Payloads(vs)| - 1] == vs[j].payload.value.ty
  {
    if j > 0 {
      assert Full(vs[1..], j - 1) by {
        forall k | j - 1 < k < |vs| - 1 ensures !Typed(vs[1..][k]) {
          assert vs[1..][k] == vs[k + 1];
        }
      }
      FullIsLast(vs[1..], j - 1);
    } else {
      NoneTyped(vs[1..]);
    }
  }

  lemma {:induction false} NoneTyped(vs: seq<Variant>)
    requires forall k :: 0 <= k < |vs| ==> !Typed(vs[k])
    ensures SomeVariant(vs) == None && Payloads(vs) == []
  {
    if vs != [] {
      NoneTyped(vs[1..]);
    }
  }

  lemma {:induction false} SomeIsFull(vs: seq<Variant>)
    requires SomeVariant(vs).Some?
    ensures exists j: nat :: Full(vs, j)
  {
    if SomeVariant(vs[1..]).Some? {
      SomeIsFull(vs[1..]);
      var j: nat :| Full(vs[1..], j);
      assert Full(vs, j + 1) by {
        forall k | j + 1 < k < |vs| ensures !Typed(vs[k]) {
          assert vs[k] == vs[1..][k - 1];
        }
      }
    } else {
      forall k | 0 < k < |vs| ensures !Typed(vs[k]) {
        assert vs[k] == vs[1..][k - 1];
        if Typed(vs[1..][k - 1]) {
          TypedHasPayload(vs[1..], k - 1);
        }
      }
      assert Full(vs, 0);
    }
  }

  lemma {:induction false} TypedHasPayload(vs: seq<Variant>, k: nat)
    requires k < |vs| && Typed(vs[k])
    ensures Payloads(vs) != []
  {
    if k > 0 {
      TypedHasPayload(vs[1..], k - 1);
    }
  }

  lemma {:induction false} OptionLaid(g: Graph, n: nat, d: Die, tys: seq<Ty>)
    requires g.Closed() && Readable(d) && KindOf(d).Optional? && d.variants == Some(KindOf(d).part)
    requires |tys| == |Visits(d)| && forall i :: 0 <= i < |tys| ==> tys[i] == Part(g, n, Visits(d)[i])
    ensures LaidOption(g, n, d, Assemble(d, tys))
  {
    hide Part, SomeVariant, NoneDiscr, Payloads, Readable;
    var vs := d.variants.value.variants;
    forall i: nat | Bare(vs, i) ensures NoneDiscr(vs) == vs[i].discr {
      BareIsLast(vs, i);
    }
    forall j: nat | Full(vs, j)
      ensures SomeVariant(vs) == Some(vs[j]) && tys[|tys| - 1] == Part(g, n, vs[j].payload.value.ty)
    {
      FullIsLast(vs, j);
    }
    if NoneDiscr(vs).Some? && SomeVariant(vs).Some? {
      NoneIsBare(vs);
      SomeIsFull(vs);
    }
  }

  lemma {:induction false} InsertKeeps(fs: seq<FieldTy>, f: FieldTy)
    ensures multiset(InsertByIndex(fs, f)) == multiset(fs) + multiset{f}
  {
    if fs != [] && IndexOf(fs[|fs| - 1].name) > IndexOf(f.name) {
      InsertKeeps(fs[..|fs| - 1], f);
      assert fs == fs[..|fs| - 1] + [fs[|fs| - 1]];
    }
  }

  lemma {:induction false} SortKeeps(fs: seq<FieldTy>)
    ensures multiset(SortByIndex(fs)) == multiset(fs)
  {
    hide InsertByIndex, IndexOf;
    if fs != [] {
      var k := |fs| - 1;
      SortKeeps(fs[..k]);
      InsertKeeps(SortByIndex(fs[..k]), fs[k]);
      assert fs == fs[..k] + [fs[k]];
    }
  }

  predicate Ordered(fs: seq<FieldTy>) {
    forall i, j :: 0 <= i < j < |fs| ==> IndexOf(fs[i].name) <= IndexOf(fs[j].name)
  }

  lemma {:induction false} InsertOrders(fs: seq<FieldTy>, f: FieldTy)
    requires Ordered(fs)
    ensures Ordered(InsertByIndex(fs, f))
  {
    hide IndexOf;
    if fs != [] && IndexOf(fs[|fs| - 1].name) > IndexOf(f.name) {
      var k := |fs| - 1;
      InsertOrders(fs[..k], f);
      InsertMembers(fs[..k], f);
      var r := InsertByIndex(fs[..k], f);
      forall i | 0 <= i < |r| ensures IndexOf(r[i].name) <= IndexOf(fs[k].name) {
        assert r[i] in fs[..k] || r[i] == f;
      }
    }
  }

  lemma {:induction false} SortOrders(fs: seq<FieldTy>)
    ensures Ordered(SortByIndex(fs))
  {
    hide Ordered, InsertByIndex;
    if fs == [] {
      NothingOrdered();
    } else {
      SortOrders(fs[..|fs| - 1]);
      InsertOrders(SortByIndex(fs[..|fs| - 1]), fs[|fs| - 1]);
    }
  }

  lemma {:induction false} NothingOrdered()
    ensures Ordered([])
  {}

  lemma {:induction false} PositionalIsIndex(name: seq<byte>)
    ensures Positional(name) <==> IsIndex(name)
  {
    if |name| > 2 {
      assert forall k :: 2 <= k < |name| ==> name[k] == name[2..][k - 2];
    }
  }

  lemma {:induction false} NumberedIndex(name: seq<byte>, x: nat)
    requires Numbered(name, x)
    ensures IndexOf(name) == if x < 0x1_0000_0000 then x else 0xFFFF_FFFF
  {
    hide Padded;
    var k: nat :| name == ['_' as int, '_' as int] + Padded(k, x);
    assert name[2..] == Padded(k, x);
    DecimalOfPadded(k, x);
  }

  lemma {:induction false} FieldsLaid(g: Graph, n: nat, d: Die, tys: seq<Ty>)
    requires g.Closed() && Readable(d) && KindOf(d).Aggregate?
    requires |tys| == |d.members| == |Visits(d)| && forall i :: 0 <= i < |tys| ==> tys[i] == Part(g, n, d.members[i].ty)
    ensures LaidFields(g, n, d, Assemble(d, tys))
  {
    hide Part, SortByIndex, IsIndex, IndexOf, Positional, Numbered, Readable;
    var fs := seq(|d.members|, i requires 0 <= i < |d.members| => FieldOf(g, n, d.members[i]));
    assert BuildFields(d.members, tys) == fs;
    forall i | 0 <= i < |fs| ensures IsIndex(fs[i].name) <==> Positional(d.members[i].name) {
      PositionalIsIndex(fs[i].name);
    }
    SortKeeps(fs);
    SortOrders(fs);
    forall f: FieldTy, x: nat | Numbered(f.name, x)
      ensures IndexOf(f.name) == if x < 0x1_0000_0000 then x else 0xFFFF_FFFF
    {
      NumberedIndex(f.name, x);
    }
  }

  lemma {:induction false} NamedIsFirst(ps: seq<Param>, want: string) returns (i: nat)
    requires NamedParam(ps, want).Some?
    ensures FirstNamed(ps, want, i) && ps[i].ty == NamedParam(ps, want)
  {
    if ps[0].name == want {
      i := 0;
    } else {
      i := NamedIsFirst(ps[1..], want);
      i := i + 1;
      forall k | 0 <= k < i ensures ps[k].name != want {
        assert k > 0 ==> ps[k] == ps[1..][k - 1];
      }
    }
  }

  lemma {:induction false} StructureLaid(g: Graph, n: nat, d: Die, tys: seq<Ty>)
    requires g.Closed() && Readable(d) && d.tag == StructureType
    requires |tys| == |Visits(d)| && forall i :: 0 <= i < |tys| ==> tys[i] == Part(g, n, Visits(d)[i])
    ensures LaidStructure(g, n, d, Assemble(d, tys))
  {
    hide Part, LaidOption, LaidFields, SortByIndex, IsIndex, FirstNamed, NamedParam, SomeVariant, NoneDiscr, Payloads;
    match KindOf(d)
    case Optional(_) => OptionLaid(g, n, d, tys);
    case Aggregate => FieldsLaid(g, n, d, tys);
    case Tree =>
      var i := NamedIsFirst(d.params, "K");
      var j := NamedIsFirst(d.params, "V");
    case Leaf(_) =>
      if d.variants.Some? && KindOf(d).ty.Unknown? {
        assert LaidOption(g, n, d, KindOf(d).ty) by { UntaggedLaid(g, n, d); }
      }
    case _ =>
  }

  lemma {:induction false} UntaggedLaid(g: Graph, n: nat, d: Die)
    requires g.Closed() && d.variants.Some? && d.variants.value.discr.None?
    ensures LaidOption(g, n, d, Unknown("enum " + d.name))
  {}

  lemma {:induction false} AssembleLaid(g: Graph, n: nat, d: Die, tys: seq<Ty>)
    requires g.Closed() && Readable(d)
    requires |tys| == |Visits(d)| && forall i :: 0 <= i < |tys| ==> tys[i] == Part(g, n, Visits(d)[i])
    ensures Laid(g, n, d, Assemble(d, tys))
  {
    hide Part, LaidStructure;
    if d.tag == StructureType {
      StructureLaid(g, n, d, tys);
    }
  }

  /** What a reference leads to is laid out as its DIE says, at every depth. */
  lemma {:induction false} WantShaped(g: Graph, n: nat, off: nat)
    requires g.Closed() && g.Knows(Some(off)) && n > 0
    ensures Shaped(g, n, off, Want(g, n, Some(off)))
  {
    hide Laid, Assemble, Visits, Readable;
    var k := g.Site(off);
    var d := g.dies[k];
    Bodies(g, off);
    if !IsWrapper(d) {
      var vs := Visits(d);
      var tys := seq(|vs|, i requires 0 <= i < |vs| => Want(g, n - 1, vs[i]));
      AssembleLaid(g, n - 1, d, tys);
    } else {
      WrapperHasParam(d);
    }
  }

  lemma {:induction false} WrapperHasParam(d: Die)
    requires Readable(d) && IsWrapper(d)
    ensures d.params != [] && FirstParam(d) == d.params[0].ty && FirstParam(d).Some?
  {}

  /** At top level no knot is left untied, and the plan is the type: followed through its
      back-edges to any depth, it is what following the DIEs gives. */
  method ClassifyType(g: Graph, off: nat) returns (ty: Ty, cells: map<nat, Ty>)
    requires g.Closed() && g.Knows(Some(off))
    ensures Refs(ty) <= cells.Keys
    ensures forall c :: c in cells ==> !cells[c].Ref? && Refs(cells[c]) <= cells.Keys
    ensures AllUsed(cells)
    ensures View(g, cells, map[]).Valid()
    ensures forall n: nat :: Unfold(View(g, cells, map[]), n, ty) == Want(g, n, Some(off))
    ensures forall n: nat :: n > 0 ==> Shaped(g, n, off, Unfold(View(g, cells, map[]), n, ty))
  {
    hide Shaped, Refs, Unfold, Want, Walk, Graph.Closed, Graph.Knows, AllUsed;
    var walk := new Classifier(g);
    ty := walk.Classify(off);
    cells := walk.cells;
    WalkUsed(walk.Now(), walk.memo, walk.next);
    assert walk.Now() == View(g, cells, map[]);
    assert View(g, cells, map[]).Scope() == cells.Keys;
    forall n: nat | n > 0 ensures Shaped(g, n, off, Unfold(View(g, cells, map[]), n, ty)) {
      WantShaped(g, n, off);
    }
  }
}
