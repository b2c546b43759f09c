/** The definition index (`dwarf.rs`): a flat walk with an explicit stack finds what the
    tree of DIEs defines, and stubs are redirected to it. */
module DefIndex {
  import opened Containers

  datatype Tag = StructureType | UnionType | Member | VariantPart | Other

  /** A DIE with its children; `size` is its byte size, 0 when it has none. */
  datatype Node = Node(off: nat, tag: Tag, decl: bool, name: Option<string>, size: nat, kids: List<Node>)

  predicate IsSu(t: Tag) { t == StructureType || t == UnionType }
  predicate IsPart(t: Tag) { t == Member || t == VariantPart }

  predicate HasPart(ks: List<Node>) {
    ks.Cons? && (IsPart(ks.head.tag) || HasPart(ks.tail))
  }

  // ---- The tree definition ----------------------------------------------------------

  /** A name, and the unit and offset of a definition of it. */
  datatype Def = Def(name: string, unit: nat, off: nat)

  /** A struct or union whose layout can be read here. */
  predicate Complete(n: Node) {
    IsSu(n.tag) && !n.decl && n.name.Some? && HasPart(n.kids)
  }

  /** The complete definitions of a forest, inner ones before the ones they are in. */
  function Defs(ks: List<Node>, unit: nat): seq<Def> {
    match ks
    case Nil => []
    case Cons(n, rest) =>
      Defs(n.kids, unit) + OwnDef(n, unit) + Defs(rest, unit)
  }

  function OwnDef(n: Node, unit: nat): seq<Def> {
    if Complete(n) then [Def(n.name.value, unit, n.off)] else []
  }

  function AllDefs(units: seq<List<Node>>, k: nat): seq<Def>
    requires k <= |units|
  {
    if k == 0 then [] else AllDefs(units, k - 1) + Defs(units[k - 1], k - 1)
  }

  /** The first definition of a name. */
  function FirstDef(ds: seq<Def>, name: string): Option<(nat, nat)> {
    if ds == [] then None
    else if ds[0].name == name then Some((ds[0].unit, ds[0].off))
    else FirstDef(ds[1..], name)
  }

  type Index = map<string, (nat, nat)>

  function Found(idx: Index, name: string): Option<(nat, nat)> {
    if name in idx then Some(idx[name]) else None
  }

  ghost predicate Indexes(idx: Index, ds: seq<Def>) {
    forall name :: Found(idx, name) == FirstDef(ds, name)
  }

  // ---- The flat walk ----------------------------------------------------------------

  datatype Entry = Entry(depth: nat, off: nat, tag: Tag, decl: bool, name: Option<string>)

  datatype Frame = Frame(depth: nat, off: nat, decl: bool, name: Option<string>, hasChild: bool)

  /** What the cursor yields: every DIE before its children, with its depth. */
  function Flat(ks: List<Node>, depth: nat): List<Entry> {
    match ks
    case Nil => Nil
    case Cons(n, rest) =>
      Cons(Entry(depth, n.off, n.tag, n.decl, n.name), Append(Flat(n.kids, depth + 1), Flat(rest, depth)))
  }

  function Append<T>(a: List<T>, b: List<T>): List<T> {
    match a
    case Nil => b
    case Cons(x, rest) => Cons(x, Append(rest, b))
  }

  /** The walk's state: the open structs, innermost first, and the definitions closed. */
  datatype State = State(stack: List<Frame>, defs: seq<Def>)

  function Closed(f: Frame, unit: nat): seq<Def> {
    if f.hasChild && !f.decl && f.name.Some? then [Def(f.name.value, unit, f.off)] else []
  }

  /** Close every frame whose subtree an entry at `depth` has left. */
  function Pop(s: State, depth: nat, unit: nat): State
    decreases s.stack
  {
    if s.stack.Cons? && depth <= s.stack.head.depth then
      Pop(State(s.stack.tail, s.defs + Closed(s.stack.head, unit)), depth, unit)
    else s
  }

  function Visit(s: State, e: Entry): State {
    if IsSu(e.tag) then State(Cons(Frame(e.depth, e.off, e.decl, e.name, false), s.stack), s.defs)
    else if IsPart(e.tag) then State(Mark(s.stack, e.depth, true), s.defs)
    else s
  }

  /** The innermost frame learns of a child, if it is its own. */
  function Mark(stack: List<Frame>, depth: nat, part: bool): List<Frame> {
    if part && stack.Cons? && depth == stack.head.depth + 1 then Cons(stack.head.(hasChild := true), stack.tail)
    else stack
  }

  function Walk(s: State, es: List<Entry>, unit: nat): State
    decreases es
  {
    match es
    case Nil => s
    case Cons(e, rest) => Walk(Visit(Pop(s, e.depth, unit), e), rest, unit)
  }

  /** `idx_close`: the first definition of a name stays. */
  method IdxClose(f: Frame, unit: nat, idx: Index, ghost ds: seq<Def>) returns (idx': Index)
    requires Indexes(idx, ds)
    ensures Indexes(idx', ds + Closed(f, unit))
  {
    idx' := idx;
    if f.hasChild && !f.decl && f.name.Some? {
      if f.name.value !in idx {
        idx' := idx[f.name.value := (unit, f.off)];
      }
    } else {
      assert ds + Closed(f, unit) == ds;
    }
    forall name ensures Found(idx', name) == FirstDef(ds + Closed(f, unit), name) {
      FirstDefAppend(ds, Closed(f, unit), name);
      assert Found(idx, name) == FirstDef(ds, name);
    }
  }

  lemma {:induction false} FirstDefAppend(a: seq<Def>, b: seq<Def>, name: string)
    ensures FirstDef(a + b, name) == if FirstDef(a, name).Some? then FirstDef(a, name) else FirstDef(b, name)
  {
    if a == [] {
      assert a + b == b;
    } else {
      assert (a + b)[1..] == a[1..] + b;
      FirstDefAppend(a[1..], b, name);
    }
  }

  /** The loop that closes frames. */
  method Unwind(stack0: List<Frame>, depth: nat, unit: nat, idx0: Index, ghost ds: seq<Def>)
    returns (stack: List<Frame>, idx: Index)
    requires Indexes(idx0, ds)
    ensures var s := Pop(State(stack0, ds), depth, unit); stack == s.stack && Indexes(idx, s.defs)
  {
    hide Indexes, Closed;
    stack, idx := stack0, idx0;
    ghost var s := State(stack, ds);
    while stack.Cons? && depth <= stack.head.depth
      invariant s.stack == stack && Indexes(idx, s.defs)
      invariant Pop(s, depth, unit) == Pop(State(stack0, ds), depth, unit)
      decreases stack
    {
      var f := stack.head;
      idx := IdxClose(f, unit, idx, s.defs);
      s := State(stack.tail, s.defs + Closed(f, unit));
      stack := stack.tail;
    }
  }

  /** One unit: walk its entries, then close what is left. */
  method IndexUnit(es0: List<Entry>, unit: nat, idx0: Index, ghost ds: seq<Def>,
                   ghost ks: List<Node>) returns (idx: Index)
    requires Indexes(idx0, ds) && es0 == Flat(ks, 0)
    ensures Indexes(idx, ds + Defs(ks, unit))
  {
    hide Indexes, Pop, Defs, Flat;
    var es, stack: List<Frame> := es0, Nil;
    idx := idx0;
    ghost var s := State(Nil, ds);
    while es.Cons?
      invariant s.stack == stack && Indexes(idx, s.defs)
      invariant Walk(s, es, unit) == Walk(State(Nil, ds), es0, unit)
      decreases es
    {
      var e := es.head;
      ghost var popped := Pop(s, e.depth, unit);
      stack, idx := Unwind(stack, e.depth, unit, idx, s.defs);
      s := Visit(popped, e);
      if IsSu(e.tag) {
        stack := Cons(Frame(e.depth, e.off, e.decl, e.name, false), stack);
      } else if IsPart(e.tag) && stack.Cons? && e.depth == stack.head.depth + 1 {
        stack := Cons(stack.head.(hasChild := true), stack.tail);
      }
      es := es.tail;
    }
    stack, idx := Unwind(stack, 0, unit, idx, s.defs);
    ForestWalk(State(Nil, ds), ks, 0, unit);
  }

  // ---- The stack follows the tree ---------------------------------------------------

  /** All open frames are above `depth`. */
  predicate Settled(stack: List<Frame>, depth: nat) {
    stack.Cons? ==> stack.head.depth < depth
  }

  lemma {:induction false} PopTwice(s: State, d: nat, d': nat, unit: nat)
    requires d' <= d
    ensures Pop(Pop(s, d, unit), d', unit) == Pop(s, d', unit)
    decreases s.stack
  {
    if s.stack.Cons? && d <= s.stack.head.depth {
      PopTwice(State(s.stack.tail, s.defs + Closed(s.stack.head, unit)), d, d', unit);
    }
  }

  lemma {:induction false} WalkAppend(s: State, a: List<Entry>, b: List<Entry>, unit: nat)
    ensures Walk(s, Append(a, b), unit) == Walk(Walk(s, a, unit), b, unit)
    decreases a
  {
    hide Pop, Visit;
    if a.Cons? {
      WalkAppend(Visit(Pop(s, a.head.depth, unit), a.head), a.tail, b, unit);
    }
  }

  /** Whether frames are closed before a sibling's entry or by it makes no difference. */
  lemma {:induction false} PopFirst(s: State, ks: List<Node>, depth: nat, unit: nat)
    ensures Pop(Walk(Pop(s, depth, unit), Flat(ks, depth), unit), depth, unit)
        == Pop(Walk(s, Flat(ks, depth), unit), depth, unit)
  {
    hide Pop, Visit;
    PopTwice(s, depth, depth, unit);
  }

  /** Having walked a forest at some depth, the frames above it are as they were but for
      one learning of its children, and what the forest defines has been closed. */
  lemma {:induction false} ForestWalk(s: State, ks: List<Node>, depth: nat, unit: nat)
    requires Settled(s.stack, depth)
    ensures Pop(Walk(s, Flat(ks, depth), unit), depth, unit)
            == State(Mark(s.stack, depth, HasPart(ks)), s.defs + Defs(ks, unit))
    decreases ks
  {
    hide OwnDef, Closed;
    match ks
    case Nil => assert s.defs + [] == s.defs;
    case Cons(n, rest) =>
      var s1 := Visit(s, Entry(depth, n.off, n.tag, n.decl, n.name));
      var s2 := Walk(s1, Flat(n.kids, depth + 1), unit);
      WalkAppend(s1, Flat(n.kids, depth + 1), Flat(rest, depth), unit);
      NodeWalk(s, n, depth, unit);
      PopFirst(s2, rest, depth, unit);
      ForestWalk(Pop(s2, depth, unit), rest, depth, unit);
      Regroup(s.defs, Defs(n.kids, unit), OwnDef(n, unit), Defs(rest, unit));
  }

  lemma {:induction false} Regroup(a: seq<Def>, b: seq<Def>, c: seq<Def>, d: seq<Def>)
    ensures a + (b + c) + d == a + (b + c + d)
  {}

  lemma {:induction false} NodeWalk(s: State, n: Node, depth: nat, unit: nat)
    requires Settled(s.stack, depth)
    ensures Pop(Walk(Visit(s, Entry(depth, n.off, n.tag, n.decl, n.name)), Flat(n.kids, depth + 1), unit), depth, unit)
            == State(Mark(s.stack, depth, IsPart(n.tag)), s.defs + (Defs(n.kids, unit) + OwnDef(n, unit)))
    decreases n
  {
    var s1 := Visit(s, Entry(depth, n.off, n.tag, n.decl, n.name));
    var s2 := Walk(s1, Flat(n.kids, depth + 1), unit);
    ForestWalk(s1, n.kids, depth + 1, unit);
    PopTwice(s2, depth + 1, depth, unit);
    var ds := Defs(n.kids, unit);
    if IsSu(n.tag) {
      assert s.defs + ds + OwnDef(n, unit) == s.defs + (ds + OwnDef(n, unit));
    } else {
      assert ds + [] == ds;
    }
  }

  // ---- Redirecting stubs ------------------------------------------------------------

  predicate IsStub(n: Node) {
    if !IsSu(n.tag) then false
    else if n.decl then true
    else if n.size == 0 then false
    else !HasPart(n.kids)
  }

  /** Where the DIE at (`unit`, `n.off`) is read from. */
  function DefSite(idx: Index, unit: nat, n: Node): (nat, nat) {
    if IsStub(n) && n.name.Some? && n.name.value in idx then idx[n.name.value] else (unit, n.off)
  }

  ghost predicate Occurs(n: Node, ks: List<Node>) {
    ks.Cons? && (ks.head == n || Occurs(n, ks.head.kids) || Occurs(n, ks.tail))
  }

  ghost predicate At(forests: seq<List<Node>>, site: (nat, nat), n: Node) {
    site.0 < |forests| && Occurs(n, forests[site.0]) && n.off == site.1
  }

  lemma {:induction false} DefsOccur(ks: List<Node>, unit: nat, d: Def)
    returns (n: Node)
    requires d in Defs(ks, unit)
    ensures Occurs(n, ks) && Complete(n) && n.name == Some(d.name) && n.off == d.off && d.unit == unit
    decreases ks
  {
    if d in Defs(ks.head.kids, unit) {
      n := DefsOccur(ks.head.kids, unit, d);
    } else if d in Defs(ks.tail, unit) {
      n := DefsOccur(ks.tail, unit, d);
    } else {
      n := ks.head;
    }
  }

  lemma {:induction false} AllDefsOccur(forests: seq<List<Node>>, k: nat, d: Def)
    returns (n: Node)
    requires k <= |forests| && d in AllDefs(forests, k)
    ensures At(forests, (d.unit, d.off), n) && Complete(n) && n.name == Some(d.name)
  {
    if d in Defs(forests[k - 1], k - 1) {
      n := DefsOccur(forests[k - 1], k - 1, d);
    } else {
      n := AllDefsOccur(forests, k - 1, d);
    }
  }

  lemma {:induction false} FirstDefMember(ds: seq<Def>, name: string)
    requires FirstDef(ds, name).Some?
    ensures var u := FirstDef(ds, name).value; Def(name, u.0, u.1) in ds
  {
    if ds[0].name != name {
      FirstDefMember(ds[1..], name);
    }
  }

  lemma {:induction false} OccursDefined(ks: List<Node>, unit: nat, n: Node)
    requires Occurs(n, ks) && Complete(n)
    ensures Def(n.name.value, unit, n.off) in Defs(ks, unit)
    decreases ks
  {
    if ks.head != n {
      if Occurs(n, ks.head.kids) {
        OccursDefined(ks.head.kids, unit, n);
      } else {
        OccursDefined(ks.tail, unit, n);
      }
    }
  }

  lemma {:induction false} OccursInAll(forests: seq<List<Node>>, k: nat, unit: nat, n: Node)
    requires unit < k <= |forests| && Occurs(n, forests[unit]) && Complete(n)
    ensures Def(n.name.value, unit, n.off) in AllDefs(forests, k)
    decreases k
  {
    hide Complete, Occurs;
    if unit == k - 1 {
      OccursDefined(forests[unit], unit, n);
    } else {
      OccursInAll(forests, k - 1, unit, n);
    }
  }

  lemma {:induction false} FirstDefExists(ds: seq<Def>, d: Def)
    requires d in ds
    ensures FirstDef(ds, d.name).Some?
  {
    if ds[0] != d {
      FirstDefExists(ds[1..], d);
    }
  }

  ghost predicate DefinedIn(forests: seq<List<Node>>, site: (nat, nat), name: string, n: Node) {
    At(forests, site, n) && Complete(n) && n.name == Some(name)
  }

  /** A name is in the index exactly when some unit defines it completely. */
  lemma {:induction false} IndexedIffDefined(forests: seq<List<Node>>, idx: Index, name: string)
    requires Indexes(idx, AllDefs(forests, |forests|))
    ensures name in idx <==> exists site, n :: DefinedIn(forests, site, name, n)
    ensures name in idx ==> exists n :: DefinedIn(forests, idx[name], name, n)
  {
    hide Complete, AllDefs;
    var ds := AllDefs(forests, |forests|);
    assert Found(idx, name) == FirstDef(ds, name);
    if name in idx {
      FirstDefMember(ds, name);
      var n := AllDefsOccur(forests, |forests|, Def(name, idx[name].0, idx[name].1));
      assert DefinedIn(forests, idx[name], name, n);
    }
    if site, n :| DefinedIn(forests, site, name, n) {
      OccursInAll(forests, |forests|, site.0, n);
      FirstDefExists(ds, Def(name, site.0, n.off));
    }
  }

  // ---- What the index is for ----------------------------------------------------------

  ghost predicate Among(k: Node, ks: List<Node>) {
    ks.Cons? && (k == ks.head || Among(k, ks.tail))
  }

  /** A structure or union by that name, not a declaration, with a member or a variant part
      right below. */
  ghost predicate Defines(n: Node, name: string) {
    && n.tag in {StructureType, UnionType} && n.name == Some(name) && !n.decl
    && exists k :: Among(k, n.kids) && k.tag in {Member, VariantPart}
  }

  lemma {:induction false} PartAmong(ks: List<Node>)
    ensures HasPart(ks) <==> exists k :: Among(k, ks) && k.tag in {Member, VariantPart}
  {
    if ks.Cons? {
      PartAmong(ks.tail);
      if IsPart(ks.head.tag) {
        assert Among(ks.head, ks);
      }
      if k :| Among(k, ks.tail) && k.tag in {Member, VariantPart} {
        assert Among(k, ks);
      }
    }
  }

  lemma {:induction false} CompleteDefines(n: Node, name: string)
    ensures Defines(n, name) <==> Complete(n) && n.name == Some(name)
  {
    hide HasPart, Among;
    PartAmong(n.kids);
  }

  /** The index holds exactly the names some unit defines, for each the site of a definition
      of it, in the first unit that has one. */
  method Build(units: seq<List<Entry>>, ghost forests: seq<List<Node>>) returns (idx: Index)
    requires |units| == |forests| && forall i :: 0 <= i < |units| ==> units[i] == Flat(forests[i], 0)
    ensures Indexes(idx, AllDefs(forests, |forests|))
    ensures forall name :: name in idx <==>
              exists u, n :: 0 <= u < |forests| && Occurs(n, forests[u]) && Defines(n, name)
    ensures forall name :: name in idx ==>
              exists n :: At(forests, idx[name], n) && Defines(n, name)
    ensures forall name, u, n :: name in idx && 0 <= u < |forests| && Occurs(n, forests[u]) && Defines(n, name) ==>
              idx[name].0 <= u
  {
    idx := map[];
    for ui := 0 to |units|
      invariant Indexes(idx, AllDefs(forests, ui))
    {
      idx := IndexUnit(units[ui], ui, idx, AllDefs(forests, ui), forests[ui]);
    }
    forall name
      ensures name in idx <==> exists u, n :: 0 <= u < |forests| && Occurs(n, forests[u]) && Defines(n, name)
      ensures name in idx ==> exists n :: At(forests, idx[name], n) && Defines(n, name)
    {
      IndexDefines(forests, idx, name);
    }
    forall name, u, n | name in idx && 0 <= u < |forests| && Occurs(n, forests[u]) && Defines(n, name)
      ensures idx[name].0 <= u
    {
      CompleteDefines(n, name);
      FirstIsFirst(forests, |forests|, u, n, name);
      assert Found(idx, name) == FirstDef(AllDefs(forests, |forests|), name);
    }
  }

  lemma {:induction false} IndexDefines(forests: seq<List<Node>>, idx: Index, name: string)
    requires Indexes(idx, AllDefs(forests, |forests|))
    ensures name in idx <==> exists u, n :: 0 <= u < |forests| && Occurs(n, forests[u]) && Defines(n, name)
    ensures name in idx ==> exists n :: At(forests, idx[name], n) && Defines(n, name)
  {
    hide Complete, Defines, AllDefs, Indexes, Occurs;
    IndexedIffDefined(forests, idx, name);
    if name in idx {
      var n :| DefinedIn(forests, idx[name], name, n);
      CompleteDefines(n, name);
      assert At(forests, idx[name], n);
    }
    if u, n :| 0 <= u < |forests| && Occurs(n, forests[u]) && Defines(n, name) {
      CompleteDefines(n, name);
      assert DefinedIn(forests, (u, n.off), name, n);
    }
  }

  /** A definition in a unit is not behind those of later ones. */
  lemma {:induction false} FirstIsFirst(forests: seq<List<Node>>, k: nat, unit: nat, n: Node, name: string)
    requires unit < k <= |forests| && Occurs(n, forests[unit]) && Complete(n) && n.name == Some(name)
    ensures var d := FirstDef(AllDefs(forests, k), name); d.Some? && d.value.0 <= unit
    decreases k
  {
    hide Complete, Occurs, Defs;
    FirstDefAppend(AllDefs(forests, k - 1), Defs(forests[k - 1], k - 1), name);
    if unit == k - 1 {
      OccursInAll(forests, k, unit, n);
      FirstDefExists(AllDefs(forests, k), Def(name, unit, n.off));
      var d := FirstDef(AllDefs(forests, k), name).value;
      FirstDefMember(AllDefs(forests, k), name);
      UnitsBelow(forests, k, Def(name, d.0, d.1));
    } else {
      FirstIsFirst(forests, k - 1, unit, n, name);
    }
  }

  lemma {:induction false} UnitsBelow(forests: seq<List<Node>>, k: nat, d: Def)
    requires k <= |forests| && d in AllDefs(forests, k)
    ensures d.unit < k
  {
    var n := AllDefsOccur(forests, k, d);
    if d !in AllDefs(forests, k - 1) {
      n := DefsOccur(forests[k - 1], k - 1, d);
    } else {
      UnitsBelow(forests, k - 1, d);
    }
  }

  /** Redirected are exactly the structures and unions whose name is indexed and that are
      declarations, or have a size and neither member nor variant part right below. */
  lemma {:induction false} RedirectIff(idx: Index, unit: nat, n: Node)
    ensures DefSite(idx, unit, n) ==
            if n.tag in {StructureType, UnionType} && n.name.Some? && n.name.value in idx
               && (n.decl || (n.size > 0 && forall k :: Among(k, n.kids) ==> k.tag !in {Member, VariantPart}))
            then idx[n.name.value] else (unit, n.off)
  {
    hide HasPart, Among;
    PartAmong(n.kids);
  }

  /** A stub that is redirected lands on a complete definition of its name, which is no
      stub: redirecting again goes nowhere. */
  lemma {:induction false} RedirectSettles(forests: seq<List<Node>>, idx: Index, unit: nat, n: Node) returns (n': Node)
    requires Indexes(idx, AllDefs(forests, |forests|)) && At(forests, (unit, n.off), n)
    ensures var site := DefSite(idx, unit, n);
            && At(forests, site, n') && DefSite(idx, site.0, n') == site
            && ((site == (unit, n.off) && n' == n) || (Complete(n') && !IsStub(n') && n'.name == n.name))
  {
    hide Complete;
    if IsStub(n) && n.name.Some? && n.name.value in idx {
      var ds, name := AllDefs(forests, |forests|), n.name.value;
      assert Found(idx, name) == FirstDef(ds, name);
      FirstDefMember(ds, name);
      n' := AllDefsOccur(forests, |forests|, Def(name, idx[name].0, idx[name].1));
      CompleteIsNoStub(n');
    } else {
      n' := n;
    }
  }

  lemma {:induction false} CompleteIsNoStub(n: Node)
    requires Complete(n)
    ensures !IsStub(n)
  {}
}
