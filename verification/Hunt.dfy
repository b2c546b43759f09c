/** The hunt for the local a pointer aliases (`dwarf.rs`): a walk that stops early, against
    its flat meaning. */
module Hunt {
  import opened Containers

  /** A variable or parameter. Its type is an offset and a name; its location, if it has
      one here, may or may not be an address. */
  datatype Local = Local(name: string, ty: Option<(nat, string)>, loc: Option<Option<nat>>) {
    function TypeName(): string {
      if ty.Some? then ty.value.1 else ""
    }

    predicate IsMaybeUninit() {
      "MaybeUninit<" <= TypeName()
    }

    predicate MuAt(ptr: nat) {
      At(ptr) && IsMaybeUninit()
    }

    predicate At(ptr: nat) {
      loc == Some(Some(ptr)) && ty.Some?
    }
  }

  datatype Node = Scope(kids: List<Node>) | Var(local: Local) | OtherDie

  /** A local's name and the offset of its type. */
  type Hit = (string, nat)

  function HitOf(l: Local): Hit
    requires l.ty.Some?
  {
    (l.name, l.ty.value.0)
  }

  // ---- The flat meaning -------------------------------------------------------------

  const MAX_DEPTH: nat := 32

  /** The locals of a frame in order, scopes nested past the limit cut off. */
  function Locals(ks: List<Node>, depth: nat): seq<Local>
    decreases ks
  {
    if depth > MAX_DEPTH || ks.Nil? then []
    else
      (match ks.head
       case Scope(kids) => Locals(kids, depth + 1)
       case Var(local) => [local]
       case OtherDie => []) + Locals(ks.tail, depth)
  }

  /** The first index at which a flag is set. */
  function FirstSet(flags: seq<bool>): (r: Option<nat>)
    ensures r.Some? ==> r.value < |flags| && flags[r.value] && forall j :: 0 <= j < r.value ==> !flags[j]
    ensures r.None? ==> forall j :: 0 <= j < |flags| ==> !flags[j]
  {
    if flags == [] then None
    else
      var k := |flags| - 1;
      var r := FirstSet(flags[..k]);
      if r.Some? then r else if flags[k] then Some(k) else None
  }

  /** The first `MaybeUninit` local at the address. */
  function FirstMu(ls: seq<Local>, ptr: nat): (r: Option<nat>)
    ensures r.Some? ==> r.value < |ls| && ls[r.value].MuAt(ptr) && forall j :: 0 <= j < r.value ==> !ls[j].MuAt(ptr)
    ensures r.None? ==> forall j :: 0 <= j < |ls| ==> !ls[j].MuAt(ptr)
  {
    var flags := seq(|ls|, i requires 0 <= i < |ls| => ls[i].MuAt(ptr));
    assert forall j :: 0 <= j < |ls| ==> flags[j] == ls[j].MuAt(ptr);
    FirstSet(flags)
  }

  /** The first local at the address, of any type. */
  function FirstAt(ls: seq<Local>, ptr: nat): (r: Option<nat>)
    ensures r.Some? ==> r.value < |ls| && ls[r.value].At(ptr) && forall j :: 0 <= j < r.value ==> !ls[j].At(ptr)
    ensures r.None? ==> forall j :: 0 <= j < |ls| ==> !ls[j].At(ptr)
  {
    var flags := seq(|ls|, i requires 0 <= i < |ls| => ls[i].At(ptr));
    assert forall j :: 0 <= j < |ls| ==> flags[j] == ls[j].At(ptr);
    FirstSet(flags)
  }

  function Mus(ls: seq<Local>): (r: seq<Local>)
    ensures forall i :: 0 <= i < |r| ==> r[i].IsMaybeUninit() && r[i] in ls
    ensures forall l :: l in ls && l.IsMaybeUninit() ==> l in r
  {
    if ls == [] then []
    else
      var k := |ls| - 1;
      Mus(ls[..k]) + if ls[k].IsMaybeUninit() then [ls[k]] else []
  }

  predicate OneType(mus: seq<Local>) {
    mus != [] && forall i :: 0 <= i < |mus| ==> mus[i].TypeName() == mus[0].TypeName()
  }

  /** A `MaybeUninit` at the address; else the first local there; else, if all `MaybeUninit`
      locals have one type, the first of them. */
  function Target(ls: seq<Local>, ptr: nat): Option<Hit> {
    if FirstMu(ls, ptr).Some? then Some(HitOf(ls[FirstMu(ls, ptr).value]))
    else if FirstAt(ls, ptr).Some? then Some(HitOf(ls[FirstAt(ls, ptr).value]))
    else if OneType(Mus(ls)) then Some(HitOf(Mus(ls)[0]))
    else None
  }

  // ---- The walk ---------------------------------------------------------------------

  /** What the walk has gathered after the locals `ls`, if none of them was the target. */
  datatype Gathered = Gathered(fallback: Option<Hit>, mu: seq<(string, string, nat)>, seen: seq<(string, Option<nat>)>)

  function Entry(l: Local): (string, string, nat)
    requires l.IsMaybeUninit()
  {
    (l.name, l.ty.value.1, l.ty.value.0)
  }

  function After(g: Gathered, l: Local, ptr: nat): Gathered {
    Gathered(if g.fallback.None? && l.At(ptr) then Some(HitOf(l)) else g.fallback,
             if l.IsMaybeUninit() then g.mu + [Entry(l)] else g.mu,
             g.seen + [(l.name, if l.loc.Some? then l.loc.value else None)])
  }

  function AfterAll(g: Gathered, ls: seq<Local>, ptr: nat): Gathered {
    if ls == [] then g else After(AfterAll(g, ls[..|ls| - 1], ptr), ls[|ls| - 1], ptr)
  }

  lemma {:induction false} AfterAppend(g: Gathered, a: seq<Local>, b: seq<Local>, ptr: nat)
    ensures AfterAll(g, a + b, ptr) == AfterAll(AfterAll(g, a, ptr), b, ptr)
    decreases b
  {
    if b == [] {
      assert a + b == a;
    } else {
      assert (a + b)[..|a + b| - 1] == a + b[..|b| - 1];
      AfterAppend(g, a, b[..|b| - 1], ptr);
    }
  }

  lemma {:induction false} FirstMuAppend(a: seq<Local>, b: seq<Local>, ptr: nat)
    ensures FirstMu(a, ptr).Some? ==> FirstMu(a + b, ptr) == FirstMu(a, ptr)
    ensures FirstMu(a, ptr).None? && FirstMu(b, ptr).Some? ==> FirstMu(a + b, ptr) == Some(|a| + FirstMu(b, ptr).value)
    ensures FirstMu(a, ptr).None? && FirstMu(b, ptr).None? ==> FirstMu(a + b, ptr) == None
  {
    hide FirstMu, Local.MuAt;
    var x, y, z := FirstMu(a, ptr), FirstMu(b, ptr), FirstMu(a + b, ptr);
    assert forall j :: 0 <= j < |a| ==> (a + b)[j] == a[j];
    assert forall j :: 0 <= j < |b| ==> (a + b)[|a| + j] == b[j];
    if y.Some? {
      assert (a + b)[|a| + y.value].MuAt(ptr);
    }
    if z.Some? && z.value >= |a| {
      assert b[z.value - |a|].MuAt(ptr);
    }
  }

  /** The target among `ls`, if it is a `MaybeUninit` at the address. */
  function MuHit(ls: seq<Local>, ptr: nat): Option<Hit> {
    var k := FirstMu(ls, ptr);
    if k.Some? then Some(HitOf(ls[k.value])) else None
  }

  lemma {:induction false} MuHitAppend(a: seq<Local>, b: seq<Local>, ptr: nat)
    ensures MuHit(a + b, ptr) == if MuHit(a, ptr).Some? then MuHit(a, ptr) else MuHit(b, ptr)
  {
    FirstMuAppend(a, b, ptr);
  }

  class Hunter {
    const ptr: nat
    /** Every local looked at, for the log. */
    var seen: seq<(string, Option<nat>)>
    /** First same-address local that is no `MaybeUninit`. */
    var fallback: Option<Hit>
    /** Every `MaybeUninit` local, by name, type name and type. */
    var mu: seq<(string, string, nat)>

    constructor (ptr: nat)
      ensures this.ptr == ptr && seen == [] && fallback == None && mu == []
    {
      this.ptr, seen, fallback, mu := ptr, [], None, [];
    }

    ghost function Now(): Gathered
      reads this
    {
      Gathered(fallback, mu, seen)
    }

    /** The walk returns the target as soon as it meets it, and otherwise has gathered
        exactly what the locals up to the limit offer. */
    method Scan(parent: List<Node>, depth: nat) returns (hit: Option<Hit>)
      modifies this
      ensures hit == MuHit(Locals(parent, depth), ptr)
      ensures hit.None? ==> Now() == AfterAll(old(Now()), Locals(parent, depth), ptr)
      decreases parent
    {
      hide After, FirstMu, MuHit;
      MuHitNothing(ptr);
      if depth > MAX_DEPTH {
        return None;
      }
      ghost var g0, done: seq<Local>, all := Now(), [], Locals(parent, depth);
      var ks := parent;
      while ks.Cons?
        invariant ks == parent || ks < parent
        invariant all == done + Locals(ks, depth) && MuHit(done, ptr).None?
        invariant Now() == AfterAll(g0, done, ptr)
        decreases ks
      {
        var die := ks.head;
        ghost var here := Locals(Cons(die, Nil), depth);
        LocalsStep(ks, depth);
        Regroup(done, here, Locals(ks.tail, depth));
        MuHitAppend(done, here, ptr);
        MuHitAppend(done + here, Locals(ks.tail, depth), ptr);
        AfterAppend(g0, done, here, ptr);
        match die {
          case Scope(kids) =>
            hit := Scan(kids, depth + 1);
          case Var(local) =>
            hit := Look(local);
          case OtherDie =>
            hit := None;
        }
        if hit.Some? {
          return;
        }
        done, ks := done + here, ks.tail;
      }
      hit := None;
      assert done + [] == done;
    }

    /** One local. */
    method Look(local: Local) returns (hit: Option<Hit>)
      modifies this
      ensures hit == MuHit([local], ptr)
      ensures hit.None? ==> Now() == AfterAll(old(Now()), [local], ptr)
    {
      OneLocal(Now(), local, ptr);
      var isMu := local.IsMaybeUninit();
      if local.loc.Some? {
        var addr := local.loc.value;
        seen := seen + [(local.name, addr)];
        if addr == Some(ptr) && local.ty.Some? {
          if isMu {
            return Some((local.name, local.ty.value.0));
          }
          if fallback.None? {
            fallback := Some((local.name, local.ty.value.0));
          }
        }
      } else {
        seen := seen + [(local.name, None)];
      }
      if isMu {
        mu := mu + [(local.name, local.ty.value.1, local.ty.value.0)];
      }
      hit := None;
    }

    /** Last resort: the frame's only `MaybeUninit` type. */
    method SoleMaybeUninit() returns (hit: Option<Hit>)
      ensures hit == if mu != [] && (forall i :: 0 <= i < |mu| ==> mu[i].1 == mu[0].1) then Some((mu[0].0, mu[0].2))
                     else None
    {
      var distinct := set i | 0 <= i < |mu| :: mu[i].1;
      if mu != [] {
        assert mu[0].1 in distinct;
      }
      if |distinct| == 1 {
        OneElement(distinct);
        assert forall i :: 0 <= i < |mu| ==> mu[i].1 in distinct;
        hit := Some((mu[0].0, mu[0].2));
      } else {
        if mu != [] && forall i :: 0 <= i < |mu| ==> mu[i].1 == mu[0].1 {
          assert distinct == {mu[0].1};
        }
        hit := None;
      }
    }
  }

  lemma {:induction false} OneElement(s: set<string>)
    requires |s| == 1
    ensures forall x, y :: x in s && y in s ==> x == y
    ensures s != {}
  {
    var x :| x in s;
    assert s == {x} + (s - {x});
  }

  lemma {:induction false} MuHitNothing(ptr: nat)
    ensures MuHit([], ptr) == None
  {}

  lemma {:induction false} Regroup(a: seq<Local>, b: seq<Local>, c: seq<Local>)
    ensures a + (b + c) == (a + b) + c
  {}

  lemma {:induction false} LocalsStep(ks: List<Node>, depth: nat)
    requires ks.Cons? && depth <= MAX_DEPTH
    ensures Locals(ks, depth) == Locals(Cons(ks.head, Nil), depth) + Locals(ks.tail, depth)
    ensures Locals(Cons(ks.head, Nil), depth) ==
            match ks.head
            case Scope(kids) => Locals(kids, depth + 1)
            case Var(local) => [local]
            case OtherDie => []
  {
    var one := Locals(Cons(ks.head, Nil), depth);
    assert Locals(Nil, depth) == [];
    assert one + [] == one;
  }

  lemma {:induction false} OneLocal(g: Gathered, l: Local, ptr: nat)
    ensures MuHit([l], ptr) == if l.MuAt(ptr) then Some(HitOf(l)) else None
    ensures AfterAll(g, [l], ptr) == After(g, l, ptr)
  {
    assert [l][..0] == [];
  }

  // ---- What was gathered decides ------------------------------------------------------

  /** With no `MaybeUninit` at the address, the fallback is the first local there, and the
      list is all `MaybeUninit` locals. */
  lemma {:induction false} GatheredMeans(ls: seq<Local>, ptr: nat)
    requires FirstMu(ls, ptr).None?
    ensures var g := AfterAll(Gathered(None, [], []), ls, ptr);
            && g.fallback == (if FirstAt(ls, ptr).Some? then Some(HitOf(ls[FirstAt(ls, ptr).value])) else None)
            && |g.mu| == |Mus(ls)| && forall i :: 0 <= i < |g.mu| ==> g.mu[i] == Entry(Mus(ls)[i])
  {
    hide FirstMu, FirstAt, Local.MuAt, Local.IsMaybeUninit;
    if ls != [] {
      var k := |ls| - 1;
      FirstAtLast(ls, ptr);
      assert FirstMu(ls[..k], ptr).None?;
      GatheredMeans(ls[..k], ptr);
    }
  }

  lemma {:induction false} FirstAtLast(ls: seq<Local>, ptr: nat)
    requires ls != []
    ensures var k := |ls| - 1;
            FirstAt(ls, ptr) == if FirstAt(ls[..k], ptr).Some? then FirstAt(ls[..k], ptr)
                                else if ls[k].At(ptr) then Some(k) else None
  {
    hide FirstAt, Local.At;
    var k := |ls| - 1;
    var x, y := FirstAt(ls, ptr), FirstAt(ls[..k], ptr);
    assert forall j :: 0 <= j < k ==> ls[..k][j] == ls[j];
    if x.Some? && x.value < k {
      assert ls[..k][x.value].At(ptr);
    }
  }

  // ---- The rule, spelled out --------------------------------------------------------

  /** The local's storage is at the address, and its type is known. */
  predicate Stands(l: Local, ptr: nat) {
    l.ty.Some? && l.loc == Some(Some(ptr))
  }

  predicate Uninit(l: Local) {
    l.ty.Some? && "MaybeUninit<" <= l.ty.value.1
  }

  lemma {:induction false} MusStep(ls: seq<Local>, l: Local)
    ensures Mus(ls + [l]) == Mus(ls) + if Uninit(l) then [l] else []
  {
    assert (ls + [l])[..|ls|] == ls;
    assert l.IsMaybeUninit() == Uninit(l);
  }

  lemma {:induction false} MusStart(ls: seq<Local>, i: nat)
    requires i < |ls| && Uninit(ls[i]) && forall j :: 0 <= j < i ==> !Uninit(ls[j])
    ensures Mus(ls) != [] && Mus(ls)[0] == ls[i]
  {
    hide Mus, Uninit;
    var k := |ls| - 1;
    assert ls == ls[..k] + [ls[k]];
    MusStep(ls[..k], ls[k]);
    if i < k {
      MusStart(ls[..k], i);
    } else {
      MusNone(ls[..k]);
    }
  }

  lemma {:induction false} MusNone(ls: seq<Local>)
    requires forall j :: 0 <= j < |ls| ==> !Uninit(ls[j])
    ensures Mus(ls) == []
  {
    hide Uninit;
    if ls != [] {
      var k := |ls| - 1;
      assert ls == ls[..k] + [ls[k]];
      MusStep(ls[..k], ls[k]);
      MusNone(ls[..k]);
    }
  }

  lemma {:induction false} SpelledOut(ls: seq<Local>, ptr: nat)
    ensures forall i :: 0 <= i < |ls| ==> (ls[i].At(ptr) <==> Stands(ls[i], ptr))
    ensures forall i :: 0 <= i < |ls| ==> (ls[i].MuAt(ptr) <==> Stands(ls[i], ptr) && Uninit(ls[i]))
  {}

  /** Number `i` is the first `MaybeUninit` at the address. */
  ghost predicate FirstBoth(ls: seq<Local>, ptr: nat, i: nat) {
    && i < |ls| && Stands(ls[i], ptr) && Uninit(ls[i])
    && forall j :: 0 <= j < i ==> !(Stands(ls[j], ptr) && Uninit(ls[j]))
  }

  ghost predicate FirstStanding(ls: seq<Local>, ptr: nat, i: nat) {
    i < |ls| && Stands(ls[i], ptr) && forall j :: 0 <= j < i ==> !Stands(ls[j], ptr)
  }

  ghost predicate FirstUninit(ls: seq<Local>, i: nat) {
    i < |ls| && Uninit(ls[i]) && forall j :: 0 <= j < i ==> !Uninit(ls[j])
  }

  ghost predicate OfOneType(ls: seq<Local>) {
    forall i, j :: 0 <= i < j < |ls| && Uninit(ls[i]) && Uninit(ls[j]) ==> ls[i].ty.value.1 == ls[j].ty.value.1
  }

  /** The first `MaybeUninit` at the address; if there is none, the first local there; if
      there is none either, the first `MaybeUninit`, provided all are of one type. */
  lemma {:induction false} TargetIs(ls: seq<Local>, ptr: nat, i: nat)
    ensures FirstBoth(ls, ptr, i) ==> Target(ls, ptr) == Some((ls[i].name, ls[i].ty.value.0))
    ensures FirstStanding(ls, ptr, i) && (forall k :: !FirstBoth(ls, ptr, k)) ==>
              Target(ls, ptr) == Some((ls[i].name, ls[i].ty.value.0))
    ensures FirstUninit(ls, i) && (forall k :: !FirstStanding(ls, ptr, k)) ==>
              Target(ls, ptr) == if OfOneType(ls) then Some((ls[i].name, ls[i].ty.value.0)) else None
    ensures (forall k :: !FirstStanding(ls, ptr, k)) && (forall k :: !FirstUninit(ls, k)) ==> Target(ls, ptr) == None
  {
    hide FirstMu, FirstAt, Mus, Local.At, Local.MuAt, Stands, Uninit, OneType, OfOneType;
    SpelledOut(ls, ptr);
    var a, b := FirstMu(ls, ptr), FirstAt(ls, ptr);
    if a.Some? {
      assert FirstBoth(ls, ptr, a.value);
    }
    if b.Some? {
      assert FirstStanding(ls, ptr, b.value);
    }
    if FirstStanding(ls, ptr, i) || FirstBoth(ls, ptr, i) {
      assert ls[i].At(ptr);
    }
    if b.None? {
      NoneStands(ls, ptr);
      if FirstUninit(ls, i) {
        MusStart(ls, i);
        SoleType(ls, i);
      }
      if forall k :: !FirstUninit(ls, k) {
        NoFirst(ls);
        MusNone(ls);
        NoType();
      }
    }
  }

  lemma {:induction false} NoType()
    ensures !OneType([])
  {}

  lemma {:induction false} NoneStands(ls: seq<Local>, ptr: nat)
    requires FirstAt(ls, ptr).None?
    ensures FirstMu(ls, ptr).None?
  {
    hide FirstMu, FirstAt;
    forall j | 0 <= j < |ls| ensures !ls[j].MuAt(ptr) {
      assert !ls[j].At(ptr);
    }
  }

  lemma {:induction false} NoFirst(ls: seq<Local>)
    requires forall k :: !FirstUninit(ls, k)
    ensures forall j :: 0 <= j < |ls| ==> !Uninit(ls[j])
  {
    hide Uninit;
    var n := 0;
    while n < |ls|
      invariant n <= |ls| && forall j :: 0 <= j < n ==> !Uninit(ls[j])
    {
      assert !FirstUninit(ls, n);
      n := n + 1;
    }
  }

  lemma {:induction false} SoleType(ls: seq<Local>, i: nat)
    requires i < |ls| && Uninit(ls[i]) && Mus(ls) != [] && Mus(ls)[0] == ls[i]
    ensures OneType(Mus(ls)) <==> OfOneType(ls)
  {
    hide Mus;
    var mus := Mus(ls);
    if OneType(mus) {
      forall j | 0 <= j < |ls| && Uninit(ls[j]) ensures ls[j].ty.value.1 == ls[i].ty.value.1 {
        assert ls[j] in mus;
      }
    }
    if OfOneType(ls) {
      forall k | 0 <= k < |mus| ensures mus[k].TypeName() == mus[0].TypeName() {
        assert mus[k] in ls && mus[k].IsMaybeUninit();
      }
    }
  }

  /** A local in that many scopes. */
  function Nested(k: nat, l: Local): Node {
    if k == 0 then Var(l) else Scope(Cons(Nested(k - 1, l), Nil))
  }

  /** Scopes are looked into 32 deep, and no deeper. */
  lemma {:induction false} LimitIs32(k: nat, depth: nat, l: Local)
    requires depth <= 32
    ensures Locals(Cons(Nested(k, l), Nil), depth) == if depth + k <= 32 then [l] else []
    decreases k
  {
    assert Locals(Nil, depth) == [];
    if k > 0 {
      if depth < 32 {
        LimitIs32(k - 1, depth + 1, l);
      }
    }
  }

  /** `local_at_address`: the early-exit walk finds what the flat rule says. */
  method LocalAtAddress(sp: List<Node>, ptr: nat) returns (found: Option<Hit>)
    ensures found == Target(Locals(sp, 0), ptr)
  {
    hide FirstMu, FirstAt, Mus, AfterAll, Locals;
    ghost var ls := Locals(sp, 0);
    var hunt := new Hunter(ptr);
    found := hunt.Scan(sp, 0);
    if found.None? {
      GatheredMeans(ls, ptr);
      found := hunt.fallback;
      if found.None? {
        found := hunt.SoleMaybeUninit();
      }
    }
  }
}
