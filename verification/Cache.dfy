/** The two-level cache (`resolve.rs`) as a transition system: any number of threads, two
    locks, and every interleaving. */
module Cache {
  import opened Containers

  type Thread = nat
  type Pc = nat
  type Key = nat

  /** Where a thread is in `resolved`. A call is for the return address `pc`; `want` is the
      type key that unwinding its frame would find. */
  datatype Phase =
    | Idle
    | Entered(pc: Pc, want: Key)                  // about to lock L1
    | Looking(pc: Pc, want: Key)                  // holds L1
    | Hit(pc: Pc, want: Key, key: Key)            // holds L1, about to lock L2
    | HitLooking(pc: Pc, want: Key, key: Key)     // holds both
    | HitFound(pc: Pc, want: Key, art: nat)       // holds L1
    | Missed(pc: Pc, want: Key)                   // unwound, about to lock L2
    | Building(pc: Pc, want: Key)                 // holds L2
    | Built(pc: Pc, want: Key, art: nat)          // about to lock L1
    | Recording(pc: Pc, want: Key, art: nat)      // holds L1
    | Returned(pc: Pc, want: Key, art: nat)
    | Panicked                                    // on a poisoned lock, or in classification
    | Lost                                        // found no L2 entry for an L1 entry's key

  predicate HoldsL1(p: Phase) { p.Looking? || p.Hit? || p.HitLooking? || p.HitFound? || p.Recording? }
  predicate HoldsL2(p: Phase) { p.HitLooking? || p.Building? }

  /** `made` lists the keys classified so far; an artifact is its place in that list. A lock
      is poisoned once a thread has panicked while holding it. */
  datatype State = State(l1: map<Pc, Key>, l2: map<Key, nat>, lock1: Option<Thread>, lock2: Option<Thread>,
                         poisoned1: bool, poisoned2: bool, made: seq<Key>, threads: seq<Phase>)

  ghost predicate Init(s: State) {
    && s.l1 == map[] && s.l2 == map[] && s.made == []
    && s.lock1 == None && s.lock2 == None && !s.poisoned1 && !s.poisoned2
    && forall t :: 0 <= t < |s.threads| ==> s.threads[t] == Idle
  }

  /** A thread calls `resolved`. */
  ghost predicate Calls(s: State, s': State, t: Thread, pc: Pc, want: Key) {
    && t < |s.threads| && (s.threads[t].Idle? || s.threads[t].Returned?)
    && s' == s.(threads := s.threads[t := Entered(pc, want)])
  }

  /** What a step does to the tables and locks. */
  datatype Effect =
    | Stay
    | Lock1
    | Lock2
    | Unlock1
    | Unlock2
    | Poison1                      // panic holding L1
    | Poison2                      // panic holding L2
    | PoisonBoth                   // panic holding both
    | Classify(key: Key)           // enter a new artifact in L2 and unlock it
    | Record(pc: Pc, key: Key)     // enter the key in L1 and unlock it

  function Apply(s: State, t: Thread, p: Phase, e: Effect): State
    requires t < |s.threads|
  {
    var s1 := s.(threads := s.threads[t := p]);
    match e
    case Stay => s1
    case Lock1 => s1.(lock1 := Some(t))
    case Lock2 => s1.(lock2 := Some(t))
    case Unlock1 => s1.(lock1 := None)
    case Unlock2 => s1.(lock2 := None)
    case Poison1 => s1.(lock1 := None, poisoned1 := true)
    case Poison2 => s1.(lock2 := None, poisoned2 := true)
    case PoisonBoth => s1.(lock1 := None, lock2 := None, poisoned1 := true, poisoned2 := true)
    case Classify(key) => s1.(lock2 := None, l2 := s.l2[key := |s.made|], made := s.made + [key])
    case Record(pc, key) => s1.(lock1 := None, l1 := s.l1[pc := key])
  }

  /** From one place in `resolved` to the next. A lock must be free to be taken, and taking a
      poisoned one panics; so may classification. */
  predicate Moves(s: State, p: Phase, p': Phase, e: Effect) {
    match p
    case Entered(pc, want) =>
      s.lock1.None? && if s.poisoned1 then p' == Panicked && e == Stay else p' == Looking(pc, want) && e == Lock1
    case Looking(pc, want) =>
      if pc in s.l1 then p' == Hit(pc, want, s.l1[pc]) && e == Stay else p' == Missed(pc, want) && e == Unlock1
    case Hit(pc, want, key) =>
      && s.lock2.None?
      && if s.poisoned2 then p' == Panicked && e == Poison1 else p' == HitLooking(pc, want, key) && e == Lock2
    case HitLooking(pc, want, key) =>
      if key in s.l2 then p' == HitFound(pc, want, s.l2[key]) && e == Unlock2 else p' == Lost && e == PoisonBoth
    case HitFound(pc, want, art) => p' == Returned(pc, want, art) && e == Unlock1
    case Missed(pc, want) =>
      s.lock2.None? && if s.poisoned2 then p' == Panicked && e == Stay else p' == Building(pc, want) && e == Lock2
    case Building(pc, want) =>
      if want in s.l2 then p' == Built(pc, want, s.l2[want]) && e == Unlock2
      else (p' == Built(pc, want, |s.made|) && e == Classify(want)) || (p' == Panicked && e == Poison2)
    case Built(pc, want, art) =>
      s.lock1.None? && if s.poisoned1 then p' == Panicked && e == Stay else p' == Recording(pc, want, art) && e == Lock1
    case Recording(pc, want, art) => p' == Returned(pc, want, art) && e == Record(pc, want)
    case _ => false
  }

  /** A thread that is in `resolved` takes its next step. */
  ghost predicate Steps(s: State, s': State, t: Thread) {
    && t < |s.threads| == |s'.threads|
    && exists e :: Moves(s, s.threads[t], s'.threads[t], e) && s' == Apply(s, t, s'.threads[t], e)
  }

  ghost predicate Next(s: State, s': State) {
    (exists t, pc, want :: Calls(s, s', t, pc, want)) || exists t :: Steps(s, s', t)
  }

  /** A run of the system from its start. */
  ghost predicate Run(ss: seq<State>) {
    ss != [] && Init(ss[0]) && forall i :: 0 < i < |ss| ==> Next(ss[i - 1], ss[i])
  }

  // ---- The invariant ----------------------------------------------------------------

  ghost predicate LocksHeld(s: State) {
    forall t :: 0 <= t < |s.threads| ==>
      && (HoldsL1(s.threads[t]) <==> s.lock1 == Some(t))
      && (HoldsL2(s.threads[t]) <==> s.lock2 == Some(t))
  }

  ghost predicate OwnersExist(s: State) {
    && (s.lock1.Some? ==> s.lock1.value < |s.threads|)
    && (s.lock2.Some? ==> s.lock2.value < |s.threads|)
  }

  /** Every artifact was classified for its key, and every key once. */
  ghost predicate Classified(s: State) {
    && (forall k :: k in s.l2 ==> s.l2[k] < |s.made| && s.made[s.l2[k]] == k)
    && forall i :: 0 <= i < |s.made| ==> s.made[i] in s.l2 && s.l2[s.made[i]] == i
  }

  /** What a thread relies on between its critical sections. */
  ghost predicate Knows(s: State, p: Phase) {
    match p
    case Hit(pc, _, key) => key in s.l2 && pc in s.l1
    case HitLooking(pc, _, key) => key in s.l2 && pc in s.l1
    case HitFound(pc, _, art) => art < |s.made| && pc in s.l1
    case Built(_, want, art) => want in s.l2 && s.l2[want] == art
    case Recording(_, want, art) => want in s.l2 && s.l2[want] == art
    case Returned(pc, _, art) => art < |s.made| && pc in s.l1
    case Panicked => s.poisoned2
    case Lost => false
    case _ => true
  }

  ghost predicate Inv(s: State) {
    && LocksHeld(s) && OwnersExist(s) && Classified(s)
    && (forall pc :: pc in s.l1 ==> s.l1[pc] in s.l2) && (s.poisoned1 ==> s.poisoned2)
    && forall t :: 0 <= t < |s.threads| ==> Knows(s, s.threads[t])
  }

  lemma {:induction false} InitInv(s: State)
    requires Init(s)
    ensures Inv(s)
  {}

  lemma {:induction false} CallsInv(s: State, s': State, t: Thread, pc: Pc, want: Key)
    requires Inv(s) && Calls(s, s', t, pc, want)
    ensures Inv(s')
  {}

  /** What others know stays known: the tables only grow. */
  lemma {:induction false} KnowsStays(s: State, s': State, p: Phase)
    requires Knows(s, p) && s.made <= s'.made && (s.poisoned2 ==> s'.poisoned2) && s.l1.Keys <= s'.l1.Keys
    requires forall k :: k in s.l2 ==> k in s'.l2 && s'.l2[k] == s.l2[k]
    ensures Knows(s', p)
  {}

  predicate Frees1(e: Effect) { e.Unlock1? || e.Poison1? || e.PoisonBoth? || e.Record? }
  predicate Frees2(e: Effect) { e.Unlock2? || e.Poison2? || e.PoisonBoth? || e.Classify? }

  lemma {:induction false} ApplyParts(s: State, t: Thread, p: Phase, e: Effect)
    requires t < |s.threads|
    ensures var s' := Apply(s, t, p, e);
            && s'.threads == s.threads[t := p]
            && s'.lock1 == (if e.Lock1? then Some(t) else if Frees1(e) then None else s.lock1)
            && s'.lock2 == (if e.Lock2? then Some(t) else if Frees2(e) then None else s.lock2)
            && s'.poisoned1 == (s.poisoned1 || e.Poison1? || e.PoisonBoth?)
            && s'.poisoned2 == (s.poisoned2 || e.Poison2? || e.PoisonBoth?)
            && s'.l1 == (if e.Record? then s.l1[e.pc := e.key] else s.l1)
            && s'.l2 == (if e.Classify? then s.l2[e.key := |s.made|] else s.l2)
            && s'.made == (if e.Classify? then s.made + [e.key] else s.made)
  {}

  lemma {:induction false} StepEffect(s: State, s': State, t: Thread) returns (e: Effect)
    requires Steps(s, s', t)
    ensures t < |s.threads| == |s'.threads| && s'.threads == s.threads[t := s'.threads[t]]
    ensures Moves(s, s.threads[t], s'.threads[t], e) && s' == Apply(s, t, s'.threads[t], e)
  {
    hide Moves;
    e :| Moves(s, s.threads[t], s'.threads[t], e) && s' == Apply(s, t, s'.threads[t], e);
  }

  /** A lock is taken only when it is free, and given back only by who holds it. */
  lemma {:induction false} MovesLocks(s: State, p: Phase, p': Phase, e: Effect)
    requires Moves(s, p, p', e)
    ensures e.Lock1? ==> s.lock1.None? && !HoldsL1(p)
    ensures Frees1(e) ==> HoldsL1(p)
    ensures HoldsL1(p') == (e.Lock1? || (HoldsL1(p) && !Frees1(e)))
    ensures e.Lock2? ==> s.lock2.None? && !HoldsL2(p)
    ensures Frees2(e) ==> HoldsL2(p)
    ensures HoldsL2(p') == (e.Lock2? || (HoldsL2(p) && !Frees2(e)))
  {}

  lemma {:induction false} StepLocks(s: State, s': State, t: Thread)
    requires LocksHeld(s) && OwnersExist(s) && Steps(s, s', t)
    ensures LocksHeld(s') && OwnersExist(s')
  {
    hide Steps, Moves, HoldsL1, HoldsL2, Apply, Frees1, Frees2;
    var e := StepEffect(s, s', t);
    ApplyParts(s, t, s'.threads[t], e);
    MovesLocks(s, s.threads[t], s'.threads[t], e);
  }

  lemma {:induction false} StepTables(s: State, s': State, t: Thread)
    requires Classified(s) && Steps(s, s', t)
    ensures Classified(s') && s.made <= s'.made && (s.poisoned2 ==> s'.poisoned2) && s.l1.Keys <= s'.l1.Keys
    ensures forall k :: k in s.l2 ==> k in s'.l2 && s'.l2[k] == s.l2[k]
  {
    hide Steps, Moves, Apply, Frees1, Frees2;
    var e := StepEffect(s, s', t);
    ApplyParts(s, t, s'.threads[t], e);
    if e.Classify? {
      ClassifiesNew(s, s.threads[t], s'.threads[t], e);
    }
  }

  lemma {:induction false} ClassifiesNew(s: State, p: Phase, p': Phase, e: Effect)
    requires Moves(s, p, p', e) && e.Classify?
    ensures e.key !in s.l2
  {}

  /** What a step does for the thread that takes it. */
  lemma {:induction false} StepKnows(s: State, s': State, t: Thread)
    requires Steps(s, s', t) && Knows(s, s.threads[t]) && Classified(s)
    requires (forall pc :: pc in s.l1 ==> s.l1[pc] in s.l2) && (s.poisoned1 ==> s.poisoned2)
    ensures Knows(s', s'.threads[t]) && (s'.poisoned1 ==> s'.poisoned2)
    ensures forall pc :: pc in s'.l1 ==> s'.l1[pc] in s'.l2
  {
    hide Steps, Classified, Apply, Frees1, Frees2;
    var e := StepEffect(s, s', t);
    ApplyParts(s, t, s'.threads[t], e);
    Found(s);
  }

  lemma {:induction false} Found(s: State)
    requires Classified(s)
    ensures forall k :: k in s.l2 ==> s.l2[k] < |s.made| && s.made[s.l2[k]] == k
  {}

  lemma {:induction false} StepInv(s: State, s': State, t: Thread)
    requires Inv(s) && Steps(s, s', t)
    ensures Inv(s')
  {
    hide LocksHeld, OwnersExist, Classified, Knows, Steps, Moves, Apply;
    var e := StepEffect(s, s', t);
    StepLocks(s, s', t);
    StepTables(s, s', t);
    StepKnows(s, s', t);
    forall u | 0 <= u < |s'.threads| ensures Knows(s', s'.threads[u]) {
      if u != t {
        KnowsStays(s, s', s.threads[u]);
      }
    }
  }

  /** In every reachable state each L1 entry's key is in L2, so the hit path never fails to
      find it; no key has been classified twice; and no call panics unless a classification
      has. */
  lemma {:induction false} AlwaysSafe(ss: seq<State>, i: nat)
    requires Run(ss) && i < |ss|
    ensures Inv(ss[i])
    ensures forall pc :: pc in ss[i].l1 ==> ss[i].l1[pc] in ss[i].l2
    ensures forall t :: 0 <= t < |ss[i].threads| ==> !ss[i].threads[t].Lost?
    ensures !ss[i].poisoned2 ==> forall t :: 0 <= t < |ss[i].threads| ==> !ss[i].threads[t].Panicked?
    ensures forall j, k :: 0 <= j < k < |ss[i].made| ==> ss[i].made[j] != ss[i].made[k]
    decreases i
  {
    if i == 0 {
      InitInv(ss[0]);
    } else {
      AlwaysSafe(ss, i - 1);
      var s, s' := ss[i - 1], ss[i];
      assert Next(s, s');
      if t, pc, want :| Calls(s, s', t, pc, want) {
        CallsInv(s, s', t, pc, want);
      } else {
        var t :| Steps(s, s', t);
        StepInv(s, s', t);
      }
    }
    InvMeans(ss[i]);
  }

  lemma {:induction false} InvMeans(s: State)
    requires Inv(s)
    ensures forall t :: 0 <= t < |s.threads| ==> !s.threads[t].Lost? && (s.threads[t].Panicked? ==> s.poisoned2)
    ensures forall j, k :: 0 <= j < k < |s.made| ==> s.made[j] != s.made[k]
  {
    hide LocksHeld, OwnersExist;
    forall t | 0 <= t < |s.threads| ensures !s.threads[t].Lost? && (s.threads[t].Panicked? ==> s.poisoned2) {
      assert Knows(s, s.threads[t]);
    }
  }

  // ---- After a panic ------------------------------------------------------------------

  /** A poisoned lock is nobody's. */
  ghost predicate Shut(s: State) {
    (s.poisoned1 ==> s.lock1.None?) && (s.poisoned2 ==> s.lock2.None?)
  }

  lemma {:induction false} MovesShut(s: State, t: Thread, p': Phase, e: Effect)
    requires Inv(s) && Shut(s) && t < |s.threads| && Moves(s, s.threads[t], p', e)
    ensures Shut(Apply(s, t, p', e))
    ensures s.poisoned2 ==> !e.Classify? && !e.Lock2?
    ensures s.poisoned1 ==> !e.Record? && !e.Lock1?
  {
    hide Classified, Knows, Apply;
    ApplyParts(s, t, p', e);
    assert HoldsL1(s.threads[t]) <==> s.lock1 == Some(t);
    assert HoldsL2(s.threads[t]) <==> s.lock2 == Some(t);
  }

  lemma {:induction false} AlwaysShut(ss: seq<State>, i: nat)
    requires Run(ss) && i < |ss|
    ensures Inv(ss[i]) && Shut(ss[i])
    decreases i
  {
    hide Inv, Shut;
    AlwaysSafe(ss, i);
    if i == 0 {
      assert Shut(ss[0]) by { InitShut(ss[0]); }
    } else {
      AlwaysShut(ss, i - 1);
      StepShut(ss[i - 1], ss[i]);
    }
  }

  lemma {:induction false} InitShut(s: State)
    requires Init(s)
    ensures Shut(s)
  {}

  lemma {:induction false} StepShut(s: State, s': State)
    requires Inv(s) && Shut(s) && Next(s, s')
    ensures Shut(s')
    ensures s.poisoned2 ==> s'.poisoned2 && s'.made == s.made && s'.l2 == s.l2
    ensures s.poisoned1 ==> s'.poisoned1 && s'.l1 == s.l1
  {
    hide Inv, Moves, Apply;
    if t, pc, want :| Calls(s, s', t, pc, want) {
    } else {
      var t: Thread :| Steps(s, s', t);
      var e := StepEffect(s, s', t);
      ApplyParts(s, t, s'.threads[t], e);
      MovesShut(s, t, s'.threads[t], e);
    }
  }

  /** Once a panic has poisoned a lock, its table is never touched again. */
  lemma {:induction false} PoisonIsFinal(ss: seq<State>, i: nat, j: nat)
    requires Run(ss) && i <= j < |ss|
    ensures ss[i].poisoned2 ==> ss[j].poisoned2 && ss[j].made == ss[i].made && ss[j].l2 == ss[i].l2
    ensures ss[i].poisoned1 ==> ss[j].poisoned1 && ss[j].l1 == ss[i].l1
    decreases j
  {
    hide Inv, Shut, Next;
    if i < j {
      PoisonIsFinal(ss, i, j - 1);
      AlwaysShut(ss, j - 1);
      StepShut(ss[j - 1], ss[j]);
    }
  }

  // ---- Hits agree with misses -------------------------------------------------------

  /** Every call made so far, and every L1 entry, is for the one type its site fills. */
  ghost predicate Faithful(s: State, site: map<Pc, Key>) {
    && (forall pc :: pc in s.l1 ==> pc in site && s.l1[pc] == site[pc])
    && forall t :: 0 <= t < |s.threads| ==> OneLocal(s, s.threads[t], site)
  }

  ghost predicate OneLocal(s: State, p: Phase, site: map<Pc, Key>) {
    && (!p.Idle? && !p.Panicked? && !p.Lost? ==> p.pc in site && p.want == site[p.pc])
    && (p.Hit? || p.HitLooking? ==> p.key == p.want)
    && (p.HitFound? || p.Built? || p.Recording? || p.Returned? ==> p.art < |s.made| && s.made[p.art] == p.want)
  }

  ghost predicate CallsFaithful(ss: seq<State>, site: map<Pc, Key>) {
    forall i, t, pc, want :: CallAt(ss, i, t, pc, want) ==> pc in site && site[pc] == want
  }

  ghost predicate CallAt(ss: seq<State>, i: nat, t: Thread, pc: Pc, want: Key) {
    0 < i < |ss| && Calls(ss[i - 1], ss[i], t, pc, want)
  }

  lemma {:induction false} StepFaithful(s: State, s': State, t: Thread, site: map<Pc, Key>)
    requires Inv(s) && Faithful(s, site) && Steps(s, s', t)
    ensures Faithful(s', site)
  {
    hide LocksHeld, OwnersExist, Classified, Steps, OneLocal, Knows, Moves, Apply;
    var e := StepEffect(s, s', t);
    StepTables(s, s', t);
    StepOneLocal(s, s', t, site);
    forall u | 0 <= u < |s'.threads| ensures OneLocal(s', s'.threads[u], site) {
      if u != t {
        OneLocalStays(s, s', s.threads[u], site);
      }
    }
  }

  lemma {:induction false} OneLocalStays(s: State, s': State, p: Phase, site: map<Pc, Key>)
    requires OneLocal(s, p, site) && s.made <= s'.made
    ensures OneLocal(s', p, site)
  {}

  lemma {:induction false} StepOneLocal(s: State, s': State, t: Thread, site: map<Pc, Key>)
    requires Steps(s, s', t) && OneLocal(s, s.threads[t], site) && Knows(s, s.threads[t]) && Classified(s)
    requires forall pc :: pc in s.l1 ==> pc in site && s.l1[pc] == site[pc]
    ensures OneLocal(s', s'.threads[t], site)
    ensures forall pc :: pc in s'.l1 ==> pc in site && s'.l1[pc] == site[pc]
  {
    hide Steps, Classified, Apply, Frees1, Frees2;
    var e := StepEffect(s, s', t);
    ApplyParts(s, t, s'.threads[t], e);
    Found(s);
  }

  lemma {:induction false} AlwaysFaithful(ss: seq<State>, i: nat, site: map<Pc, Key>)
    requires Run(ss) && i < |ss| && CallsFaithful(ss, site)
    ensures Inv(ss[i]) && Faithful(ss[i], site)
    decreases i
  {
    hide Inv;
    AlwaysSafe(ss, i);
    if i > 0 {
      AlwaysFaithful(ss, i - 1, site);
      var s, s' := ss[i - 1], ss[i];
      assert Next(s, s');
      if t :| Steps(s, s', t) {
        StepFaithful(s, s', t, site);
      } else {
        var t, pc, want :| Calls(s, s', t, pc, want);
        assert CallAt(ss, i, t, pc, want);
        CallFaithful(s, s', t, pc, want, site);
      }
    }
  }

  lemma {:induction false} CallFaithful(s: State, s': State, t: Thread, pc: Pc, want: Key, site: map<Pc, Key>)
    requires Faithful(s, site) && Calls(s, s', t, pc, want) && pc in site && site[pc] == want
    ensures Faithful(s', site)
  {}

  /** If a call site always fills one local, then whatever a call went through, hit or
      miss, it returns the one artifact classified for that local's type; so all callers
      for a type get the same. */
  lemma {:induction false} CallersAgree(ss: seq<State>, site: map<Pc, Key>, i: nat, j: nat, t: Thread, u: Thread)
    requires Run(ss) && CallsFaithful(ss, site) && i <= j < |ss|
    requires t < |ss[i].threads| && ss[i].threads[t].Returned? && u < |ss[j].threads| && ss[j].threads[u].Returned?
    ensures var p := ss[i].threads[t];
            p.art < |ss[i].made| && p.pc in site && ss[i].made[p.art] == site[p.pc]
    ensures ss[i].threads[t].want == ss[j].threads[u].want ==> ss[i].threads[t].art == ss[j].threads[u].art
  {
    AlwaysFaithful(ss, i, site);
    AlwaysFaithful(ss, j, site);
    TablesGrow(ss, i, j);
    assert OneLocal(ss[i], ss[i].threads[t], site);
    assert OneLocal(ss[j], ss[j].threads[u], site);
  }

  lemma {:induction false} NextGrows(s: State, s': State)
    requires Classified(s) && Next(s, s')
    ensures s.made <= s'.made && s.l1.Keys <= s'.l1.Keys
  {
    hide Steps, Classified;
    if t: Thread :| Steps(s, s', t) {
      StepTables(s, s', t);
    }
  }

  lemma {:induction false} TablesGrow(ss: seq<State>, i: nat, j: nat)
    requires Run(ss) && i <= j < |ss|
    ensures ss[i].made <= ss[j].made && ss[i].l1.Keys <= ss[j].l1.Keys
    decreases j - i
  {
    hide Next, Init, LocksHeld, OwnersExist, Classified, Knows;
    if i < j {
      TablesGrow(ss, i, j - 1);
      AlwaysSafe(ss, j - 1);
      NextGrows(ss[j - 1], ss[j]);
    }
  }

  /** Once a call from a site has returned, every later call from there takes the hit path:
      it never unwinds or classifies. */
  lemma {:induction false} LaterCallsHit(ss: seq<State>, i: nat, j: nat, t: Thread, u: Thread)
    requires Run(ss) && i <= j < |ss| - 1 && t < |ss[i].threads| && ss[i].threads[t].Returned?
    requires Steps(ss[j], ss[j + 1], u) && ss[j].threads[u].Looking? && ss[j].threads[u].pc == ss[i].threads[t].pc
    ensures ss[j + 1].threads[u].Hit?
  {
    hide LocksHeld, OwnersExist, Classified, Steps, Next, Init, Apply;
    AlwaysSafe(ss, i);
    assert Knows(ss[i], ss[i].threads[t]);
    TablesGrow(ss, i, j);
    var e := StepEffect(ss[j], ss[j + 1], u);
  }

  // ---- No deadlock, and every call ends ---------------------------------------------

  predicate Active(p: Phase) { !p.Idle? && !p.Returned? && !p.Panicked? && !p.Lost? }

  /** Whether a thread's next step waits for a lock another holds. */
  predicate CanStep(s: State, t: Thread)
    requires t < |s.threads|
  {
    var p := s.threads[t];
    && Active(p)
    && (p.Entered? || p.Built? ==> s.lock1.None?)
    && (p.Hit? || p.Missed? ==> s.lock2.None?)
  }

  lemma {:induction false} CanStepSteps(s: State, t: Thread) returns (s': State)
    requires t < |s.threads| && CanStep(s, t)
    ensures Steps(s, s', t)
  {
    hide Apply;
    var p', e := NextMove(s, s.threads[t]);
    s' := Apply(s, t, p', e);
    ApplyParts(s, t, p', e);
    assert s'.threads[t] == p';
  }

  lemma {:induction false} NextMove(s: State, p: Phase) returns (p': Phase, e: Effect)
    requires Active(p) && (p.Entered? || p.Built? ==> s.lock1.None?) && (p.Hit? || p.Missed? ==> s.lock2.None?)
    ensures Moves(s, p, p', e)
  {
    match p
    case Entered(pc, want) =>
      p', e := if s.poisoned1 then Panicked else Looking(pc, want), if s.poisoned1 then Stay else Lock1;
    case Looking(pc, want) =>
      p', e := if pc in s.l1 then Hit(pc, want, s.l1[pc]) else Missed(pc, want), if pc in s.l1 then Stay else Unlock1;
    case Hit(pc, want, key) =>
      p', e := if s.poisoned2 then Panicked else HitLooking(pc, want, key), if s.poisoned2 then Poison1 else Lock2;
    case HitLooking(pc, want, key) =>
      p', e := if key in s.l2 then HitFound(pc, want, s.l2[key]) else Lost, if key in s.l2 then Unlock2 else PoisonBoth;
    case HitFound(pc, want, art) => p', e := Returned(pc, want, art), Unlock1;
    case Missed(pc, want) =>
      p', e := if s.poisoned2 then Panicked else Building(pc, want), if s.poisoned2 then Stay else Lock2;
    case Building(pc, want) =>
      p', e := Built(pc, want, if want in s.l2 then s.l2[want] else |s.made|),
          if want in s.l2 then Unlock2 else Classify(want);
    case Built(pc, want, art) =>
      p', e := if s.poisoned1 then Panicked else Recording(pc, want, art), if s.poisoned1 then Stay else Lock1;
    case Recording(pc, want, art) => p', e := Returned(pc, want, art), Record(pc, want);
  }

  /** While any call is under way, some call can go on: the owner of L2 always can, and if
      L2 is free so can the owner of L1. */
  lemma {:induction false} NoDeadlock(s: State, t: Thread) returns (u: Thread, s': State)
    requires Inv(s) && t < |s.threads| && Active(s.threads[t])
    ensures u < |s.threads| && Steps(s, s', u)
  {
    hide Classified, Knows;
    u := if s.lock2.Some? then s.lock2.value else if s.lock1.Some? then s.lock1.value else t;
    s' := CanStepSteps(s, u);
  }

  /** How many steps of its own a call has left. */
  function Left(p: Phase): nat {
    match p
    case Entered(_, _) => 6
    case Looking(_, _) => 5
    case Missed(_, _) => 4
    case Building(_, _) => 3
    case Built(_, _, _) => 2
    case Recording(_, _, _) => 1
    case Hit(_, _, _) => 3
    case HitLooking(_, _, _) => 2
    case HitFound(_, _, _) => 1
    case _ => 0
  }

  function AllLeft(ps: seq<Phase>): nat {
    if ps == [] then 0 else AllLeft(ps[..|ps| - 1]) + Left(ps[|ps| - 1])
  }

  lemma {:induction false} AllLeftUpdate(ps: seq<Phase>, t: nat, p: Phase)
    requires t < |ps|
    ensures AllLeft(ps[t := p]) == AllLeft(ps) - Left(ps[t]) + Left(p)
  {
    var k := |ps| - 1;
    if t == k {
      assert ps[t := p][..k] == ps[..k];
    } else {
      assert ps[t := p][..k] == ps[..k][t := p];
      AllLeftUpdate(ps[..k], t, p);
    }
  }

  ghost predicate Stepped(s: State, s': State) {
    exists t :: Steps(s, s', t)
  }

  /** Without new calls the system runs down: no more steps than all calls have left. */
  lemma {:induction false} CallsEnd(ss: seq<State>)
    requires ss != [] && forall i :: 0 < i < |ss| ==> Stepped(ss[i - 1], ss[i])
    ensures |ss| - 1 + AllLeft(ss[|ss| - 1].threads) <= AllLeft(ss[0].threads)
    decreases |ss|
  {
    hide Steps, Moves, Apply;
    var k := |ss| - 1;
    if k > 0 {
      var s, s' := ss[k - 1], ss[k];
      assert Stepped(s, s');
      var t: Thread :| Steps(s, s', t);
      var e := StepEffect(s, s', t);
      MovesLeft(s, s.threads[t], s'.threads[t], e);
      AllLeftUpdate(s.threads, t, s'.threads[t]);
      CallsEnd(ss[..k]);
    }
  }

  lemma {:induction false} MovesLeft(s: State, p: Phase, p': Phase, e: Effect)
    requires Moves(s, p, p', e)
    ensures Left(p') < Left(p)
  {}

  // ---- The artifact of a type -------------------------------------------------------

  /** A classified type with a slot for what a consumer compiles from it. Types of
      artifacts are numbered; a downcast to another type than the first panics. */
  class Resolved {
    const ty: Key
    var ext: Option<(nat, nat)>
    /** How often an initialiser has run. */
    ghost var inits: nat

    ghost predicate Valid()
      reads this
    {
      inits == if ext.Some? then 1 else 0
    }

    constructor (ty: Key)
      ensures Valid() && this.ty == ty && ext == None
    {
      this.ty, ext, inits := ty, None, 0;
    }

    /** The first caller's artifact, whoever asks; none when the types differ. */
    method Ext(kind: nat, init: Key -> nat) returns (r: Option<nat>)
      requires Valid()
      modifies this
      ensures Valid() && ext == if old(ext).Some? then old(ext) else Some((kind, init(ty)))
      ensures r == if ext.value.0 == kind then Some(ext.value.1) else None
    {
      if ext.None? {
        ext, inits := Some((kind, init(ty))), inits + 1;
      }
      r := if ext.value.0 == kind then Some(ext.value.1) else None;
    }
  }

  /** However many consumers ask in whatever order, one initialiser runs, the first's, and
      exactly the consumers of its kind get what it made. */
  method ExtOfMany(ty: Key, kinds: seq<nat>, inits: seq<Key -> nat>) returns (rs: seq<Option<nat>>)
    requires |kinds| == |inits|
    ensures |rs| == |kinds|
    ensures forall i :: 0 <= i < |rs| ==> rs[i] == if kinds[i] == kinds[0] then Some(inits[0](ty)) else None
  {
    var resolved := new Resolved(ty);
    rs := [];
    for i := 0 to |kinds|
      invariant resolved.Valid() && resolved.ty == ty && resolved.inits <= 1
      invariant if i == 0 then resolved.ext.None? else resolved.ext == Some((kinds[0], inits[0](ty)))
      invariant |rs| == i
      invariant forall j :: 0 <= j < i ==> rs[j] == if kinds[j] == kinds[0] then Some(inits[0](ty)) else None
    {
      var r := resolved.Ext(kinds[i], inits[i]);
      rs := rs + [r];
    }
  }
}
