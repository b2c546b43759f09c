/** `collect_cells` (`jit.rs`): the cells one node function each is compiled for. */
module CollectCells {
  import opened Containers
  import opened Plan
  import Classify

  /** The bodies the cells of a plan were tied to. */
  type Bodies = map<nat, Ty>

  /** Every back-edge leads to a cell with a body, as classification leaves them. */
  ghost predicate Tied(env: Bodies, ty: Ty) {
    && Refs(ty) <= env.Keys
    && forall c :: c in env ==> Refs(env[c]) <= env.Keys
  }

  ghost predicate Leads(env: Bodies, c: nat, d: nat) {
    c in env && d in Refs(env[c])
  }

  /** A chain of cells: the first in the type itself, each other in the body before it. */
  ghost predicate Chain(env: Bodies, ty: Ty, path: seq<nat>) {
    && path != [] && path[0] in Refs(ty)
    && forall i :: 0 < i < |path| ==> Leads(env, path[i - 1], path[i])
  }

  ghost predicate Reachable(env: Bodies, ty: Ty, c: nat) {
    exists path :: Chain(env, ty, path) && path[|path| - 1] == c
  }

  predicate Distinct(s: seq<nat>) {
    forall i, j :: 0 <= i < j < |s| ==> s[i] != s[j]
  }

  /** What a set of cells needs for every lookup to succeed while their bodies are emitted. */
  ghost predicate Closed(env: Bodies, s: set<nat>) {
    forall c :: c in s ==> c in env && Refs(env[c]) <= s
  }

  lemma {:induction false} ReachThroughPart(env: Bodies, ty: Ty, part: Ty, c: nat)
    requires Refs(part) <= Refs(ty) && Reachable(env, part, c)
    ensures Reachable(env, ty, c)
  {
    var path :| Chain(env, part, path) && path[|path| - 1] == c;
    assert Chain(env, ty, path);
  }

  lemma {:induction false} ReachThroughBody(env: Bodies, c: nat, d: nat)
    requires c in env && Reachable(env, env[c], d)
    ensures Reachable(env, Ref(c), d)
  {
    var path :| Chain(env, env[c], path) && path[|path| - 1] == d;
    var longer := [c] + path;
    assert Refs(Ref(c)) == {c};
    assert Chain(env, Ref(c), longer);
    assert longer[|longer| - 1] == d;
  }

  lemma {:induction false} ReachSelf(env: Bodies, c: nat)
    ensures Reachable(env, Ref(c), c)
  {
    assert Refs(Ref(c)) == {c};
    assert Chain(env, Ref(c), [c]);
  }

  /** A closed set with the type's own cells has every cell a chain leads to. */
  lemma {:induction false} ChainStays(env: Bodies, ty: Ty, s: set<nat>, path: seq<nat>, i: nat)
    requires Closed(env, s) && Refs(ty) <= s && Chain(env, ty, path) && i < |path|
    ensures path[i] in s
    decreases i
  {
    if i > 0 {
      ChainStays(env, ty, s, path, i - 1);
    }
  }

  ghost function Unseen(env: Bodies, seen: set<nat>): nat { |env.Keys - seen| }

  lemma {:induction false} UnseenShrinks(env: Bodies, seen: set<nat>, c: nat)
    requires c in env && c !in seen
    ensures Unseen(env, seen + {c}) < Unseen(env, seen)
  {
    assert env.Keys - seen == (env.Keys - (seen + {c})) + {c};
  }

  lemma {:induction false} UnseenFewer(env: Bodies, seen: set<nat>, seen': set<nat>)
    requires seen <= seen'
    ensures Unseen(env, seen') <= Unseen(env, seen)
  {
    assert env.Keys - seen == (env.Keys - seen') + ((env.Keys - seen) - (env.Keys - seen'));
  }

  class Collector {
    var seen: set<nat>
    var out: seq<nat>

    ghost predicate Valid()
      reads this
    {
      Distinct(out) && forall c :: c in seen <==> c in out
    }

    constructor ()
      ensures Valid() && seen == {} && out == []
    {
      seen, out := {}, [];
    }

    /** Everything found is new, reachable from the type, and has its own references
        found; and so have the type's. */
    method Collect(env: Bodies, ty: Ty)
      requires Valid() && Tied(env, ty)
      modifies this
      ensures Valid() && old(out) <= out && old(seen) <= seen && Refs(ty) <= seen
      ensures forall c :: c in seen - old(seen) ==> c in env && Refs(env[c]) <= seen && Reachable(env, ty, c)
      decreases Unseen(env, seen), ty
    {
      hide Refs, Reachable, Unseen;
      if ty.Ref? {
        RefsOfRef(ty);
        if ty.cell !in seen {
          UnseenShrinks(env, seen, ty.cell);
          seen, out := seen + {ty.cell}, out + [ty.cell];
          Collect(env, env[ty.cell]);
          ReachSelf(env, ty.cell);
          forall c | c in seen - old(seen) ensures Reachable(env, ty, c) {
            if c != ty.cell {
              ReachThroughBody(env, ty.cell, c);
            }
          }
        }
      } else {
        var ps := Parts(ty);
        RefsOfParts(ty);
        for i := 0 to |ps|
          invariant Valid() && old(out) <= out && old(seen) <= seen
          invariant forall j :: 0 <= j < i ==> Refs(ps[j]) <= seen
          invariant forall c :: c in seen - old(seen) ==> c in env && Refs(env[c]) <= seen && Reachable(env, ty, c)
        {
          ghost var seen0 := seen;
          UnseenFewer(env, old(seen), seen);
          Collect(env, ps[i]);
          forall c | c in seen - seen0 ensures Reachable(env, ty, c) {
            ReachThroughPart(env, ty, ps[i], c);
          }
        }
      }
    }
  }

  lemma {:induction false} RefsOfRef(ty: Ty)
    requires ty.Ref?
    ensures Refs(ty) == {ty.cell}
  {}

  lemma {:induction false} RefsOfParts(ty: Ty)
    requires !ty.Ref?
    ensures forall i :: 0 <= i < |Parts(ty)| ==> Refs(Parts(ty)[i]) <= Refs(ty)
    ensures forall s :: (forall i :: 0 <= i < |Parts(ty)| ==> Refs(Parts(ty)[i]) <= s) ==> Refs(ty) <= s
  {}

  /** The cells collected for a parser: each reachable one once and no others, so that
      emitting the root or any cell's body never misses a node function. */
  method CellsOf(env: Bodies, ty: Ty) returns (cells: seq<nat>)
    requires Tied(env, ty)
    ensures Distinct(cells)
    ensures forall c :: c in cells <==> Reachable(env, ty, c)
    ensures forall c :: c in Refs(ty) ==> c in cells
    ensures forall c, d :: c in cells && Leads(env, c, d) ==> d in cells
  {
    hide Refs, Reachable;
    var collector := new Collector();
    collector.Collect(env, ty);
    cells := collector.out;
    ghost var s := collector.seen;
    assert Closed(env, s);
    forall c | Reachable(env, ty, c) ensures c in s {
      ReachedIn(env, ty, s, c);
    }
  }

  lemma {:induction false} ReachedIn(env: Bodies, ty: Ty, s: set<nat>, c: nat)
    requires Closed(env, s) && Refs(ty) <= s && Reachable(env, ty, c)
    ensures c in s
  {
    var path :| Chain(env, ty, path) && path[|path| - 1] == c;
    ChainStays(env, ty, s, path, |path| - 1);
  }

  /** From a reference to the functions emitted for it: on every closed graph the plan is the
      type, every cell collected is tied, and every lookup made while the root or a
      collected body is emitted finds its cell. */
  method PlanAndCells(g: Classify.Graph, off: nat) returns (ty: Ty, env: Bodies, cells: seq<nat>)
    requires g.Closed() && g.Knows(Some(off))
    ensures Classify.View(g, env, map[]).Valid()
    ensures forall n: nat :: Classify.Unfold(Classify.View(g, env, map[]), n, ty) == Classify.Want(g, n, Some(off))
    ensures forall n: nat :: n > 0 ==> Classify.Shaped(g, n, off, Classify.Unfold(Classify.View(g, env, map[]), n, ty))
    ensures Distinct(cells) && forall c :: c in cells <==> Reachable(env, ty, c)
    ensures forall c :: c in cells ==> c in env && !env[c].Ref?
    ensures forall c :: c in Refs(ty) ==> c in cells
    ensures forall c, d :: c in cells && Leads(env, c, d) ==> d in cells
  {
    hide Refs, Reachable, Classify.Unfold, Classify.Want, Classify.Shaped, Classify.Graph.Closed, Classify.Graph.Knows;
    ty, env := Classify.ClassifyType(g, off);
    assert Tied(env, ty);
    cells := CellsOf(env, ty);
    forall c | c in cells ensures c in env {
      ReachableTied(env, ty, c);
    }
  }

  lemma {:induction false} ReachableTied(env: Bodies, ty: Ty, c: nat)
    requires Tied(env, ty) && Reachable(env, ty, c)
    ensures c in env
  {
    hide Refs;
    ReachedIn(env, ty, env.Keys, c);
  }
}
