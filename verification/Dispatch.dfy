/** Key dispatch (`parse_struct`, `keyeq` in `jit.rs`): the branch program emitted for a
    field list, and what it computes. */
module Dispatch {
  import opened Containers
  import opened Bits
  import opened Bytes

  /** At and above this many fields, dispatch on the key's length first. */
  const SWITCH_MIN_FIELDS: nat := 12

  /** An unrolled bytewise comparison, or one masked word comparison with a length check. */
  datatype Cond = KeyEq(name: seq<byte>) | WordEq(len: nat, mask: nat, word: nat)

  /** One compare-and-branch of a chain; a chain that runs out jumps to the skip block. */
  datatype Test = Test(cond: Cond, field: nat)

  datatype Code =
    | Switch(table: map<nat, seq<Test>>)
    | Split(fast: seq<Test>, slow: seq<Test>)

  // ---- What the emitted program does ---------------------------------------------

  /** Memory from the key on, whatever lies behind it. */
  type Load = nat -> byte

  function Prefix(load: Load, n: nat): (s: seq<byte>)
    ensures |s| == n
  {
    seq(n, i requires 0 <= i < n => load(i))
  }

  predicate Met(c: Cond, load: Load, kl: nat) {
    match c
    case KeyEq(name) => Matches(name, load, 0, kl == |name|)
    case WordEq(len, mask, word) => kl == len && BitAnd(FromLittleEndian(Prefix(load, 8)), mask) == word
  }

  /** `keyeq`: every byte is loaded and compared, whatever the length check said. */
  predicate Matches(name: seq<byte>, load: Load, i: nat, acc: bool)
    decreases |name| - i
  {
    if i >= |name| then acc
    else
      var eqi := load(i) == name[i];
      Matches(name, load, i + 1, acc && eqi)
  }

  function Run(chain: seq<Test>, load: Load, kl: nat): Option<nat> {
    if chain == [] then None
    else if Met(chain[0].cond, load, kl) then Some(chain[0].field)
    else Run(chain[1..], load, kl)
  }

  /** The chain that is run. `slack` is how many bytes of input there are from the key's
      start. */
  function Chosen(code: Code, kl: nat, slack: nat): seq<Test> {
    match code
    case Switch(table) => if kl in table then table[kl] else []
    case Split(fast, slow) => if 8 <= slack then fast else slow
  }

  function Exec(code: Code, load: Load, kl: nat, slack: nat): Option<nat> {
    Run(Chosen(code, kl, slack), load, kl)
  }

  // ---- What it ought to do -----------------------------------------------------

  /** The lowest field from `i` on with this name. */
  function Lowest(names: seq<seq<byte>>, key: seq<byte>, i: nat): (r: Option<nat>)
    ensures r.Some? ==> i <= r.value < |names| && names[r.value] == key
                        && forall j :: i <= j < r.value ==> names[j] != key
    ensures r.None? ==> forall j :: i <= j < |names| ==> names[j] != key
    decreases |names| - i
  {
    if i >= |names| then None
    else if names[i] == key then Some(i)
    else Lowest(names, key, i + 1)
  }

  // ---- The emitter ---------------------------------------------------------------

  function WordTest(name: seq<byte>): Cond {
    if |name| <= 8 then
      var padded := name + seq(8 - |name|, _ => 0);
      WordEq(|name|, Pow256(|name|) - 1, FromLittleEndian(padded))
    else KeyEq(name)
  }

  /** A chain through fields `is`, in that order, by bytewise comparison. */
  function ByteChain(names: seq<seq<byte>>, idxs: seq<nat>): seq<Test>
    requires forall k :: 0 <= k < |idxs| ==> idxs[k] < |names|
  {
    if idxs == [] then []
    else [Test(KeyEq(names[idxs[0]]), idxs[0])] + ByteChain(names, idxs[1..])
  }

  lemma {:induction false} ByteChainBytes(names: seq<seq<byte>>, idxs: seq<nat>)
    requires forall k :: 0 <= k < |idxs| ==> idxs[k] < |names|
    ensures forall i :: 0 <= i < |ByteChain(names, idxs)| ==> ByteChain(names, idxs)[i].cond.KeyEq?
  {
    if idxs != [] {
      ByteChainBytes(names, idxs[1..]);
    }
  }

  /** A compiled dispatch is right if it finds the lowest field with the key's name, and
      nothing if there is none, whatever lies past the key. */
  ghost predicate Right(code: Code, names: seq<seq<byte>>) {
    forall load: Load, kl: nat, slack: nat :: Exec(code, load, kl, slack) == Lowest(names, Prefix(load, kl), 0)
  }

  /** No chain that loads a word is run with less than a word of input left. */
  ghost predicate Guarded(code: Code) {
    forall kl: nat, slack: nat, i: nat ::
      i < |Chosen(code, kl, slack)| && Chosen(code, kl, slack)[i].cond.WordEq? ==> 8 <= slack
  }

  /** Whichever strategy is chosen, the program is right, and loads words only from the input. */
  method Emit(names: seq<seq<byte>>) returns (code: Code)
    ensures Right(code, names) && Guarded(code)
    ensures code.Switch? <==> |names| >= 12
  {
    if |names| >= SWITCH_MIN_FIELDS {
      code := EmitSwitch(names);
    } else {
      code := EmitChains(names);
    }
  }

  /** A table by length, and a chain for each length. */
  method EmitSwitch(names: seq<seq<byte>>) returns (code: Code)
    ensures Right(code, names) && Guarded(code) && code.Switch?
  {
    hide Lowest, ByteChain, Run, Prefix, Bucketed;
    var byLen: map<nat, seq<nat>> := map[];
    BucketStart(names);
    for i := 0 to |names|
      invariant Bucketed(names, byLen, i)
    {
      BucketStep(names, byLen, i);
      var l := |names[i]|;
      byLen := byLen[l := Bucket(byLen, l) + [i]];
    }
    BucketsBelow(names, byLen);
    var table := map l | l in byLen :: ByteChain(names, byLen[l]);
    code := Switch(table);
    forall kl: nat, slack: nat, i: nat | i < |Chosen(code, kl, slack)| ensures Chosen(code, kl, slack)[i].cond.KeyEq? {
      assert kl in byLen && Chosen(code, kl, slack) == ByteChain(names, byLen[kl]);
      ByteChainBytes(names, byLen[kl]);
    }
    forall load: Load, kl: nat, slack: nat
      ensures Exec(code, load, kl, slack) == Lowest(names, Prefix(load, kl), 0)
    {
      SwitchFinds(names, byLen, load, kl);
    }
  }

  function Bucket(byLen: map<nat, seq<nat>>, l: nat): seq<nat> {
    if l in byLen then byLen[l] else []
  }

  ghost predicate Bucketed(names: seq<seq<byte>>, byLen: map<nat, seq<nat>>, n: nat)
    requires n <= |names|
  {
    forall l: nat :: Bucket(byLen, l) == OfLength(names, l, n)
  }

  lemma {:induction false} BucketStart(names: seq<seq<byte>>)
    ensures Bucketed(names, map[], 0)
  {}

  lemma {:induction false} BucketStep(names: seq<seq<byte>>, byLen: map<nat, seq<nat>>, i: nat)
    requires i < |names| && Bucketed(names, byLen, i)
    ensures Bucketed(names, byLen[|names[i]| := Bucket(byLen, |names[i]|) + [i]], i + 1)
  {
    var byLen' := byLen[|names[i]| := Bucket(byLen, |names[i]|) + [i]];
    forall l: nat ensures Bucket(byLen', l) == OfLength(names, l, i + 1) {
      assert Bucket(byLen, l) == OfLength(names, l, i);
    }
  }

  lemma {:induction false} BucketsBelow(names: seq<seq<byte>>, byLen: map<nat, seq<nat>>)
    requires Bucketed(names, byLen, |names|)
    ensures forall l, k :: l in byLen && 0 <= k < |byLen[l]| ==> byLen[l][k] < |names|
  {
    forall l, k | l in byLen && 0 <= k < |byLen[l]| ensures byLen[l][k] < |names| {
      OfLengthBelow(names, l, |names|);
      assert Bucket(byLen, l) == OfLength(names, l, |names|);
    }
  }

  /** A chain of word comparisons for keys with eight bytes of input, and one of byte
      comparisons for keys near the end. */
  method EmitChains(names: seq<seq<byte>>) returns (code: Code)
    ensures Right(code, names) && Guarded(code) && code.Split?
  {
    hide Lowest, Run, Prefix, WordTest;
    var fast, slow := [], [];
    for i := 0 to |names|
      invariant fast == FastChain(names, i) && slow == SlowChain(names, i)
    {
      fast := fast + [Test(WordTest(names[i]), i)];
      slow := slow + [Test(KeyEq(names[i]), i)];
    }
    code := Split(fast, slow);
    assert fast[0..] == fast && slow[0..] == slow;
    forall load: Load, kl: nat, slack: nat
      ensures Exec(code, load, kl, slack) == Lowest(names, Prefix(load, kl), 0)
    {
      FastFinds(names, load, kl, 0);
      SlowFinds(names, load, kl, 0);
    }
  }

  function FastChain(names: seq<seq<byte>>, n: nat): seq<Test>
    requires n <= |names|
  {
    seq(n, i requires 0 <= i < n => Test(WordTest(names[i]), i))
  }

  function SlowChain(names: seq<seq<byte>>, n: nat): seq<Test>
    requires n <= |names|
  {
    seq(n, i requires 0 <= i < n => Test(KeyEq(names[i]), i))
  }

  /** The fields below `n` whose names have length `l`, in order. */
  function OfLength(names: seq<seq<byte>>, l: nat, n: nat): seq<nat>
    requires n <= |names|
  {
    if n == 0 then []
    else OfLength(names, l, n - 1) + (if |names[n - 1]| == l then [n - 1] else [])
  }

  lemma {:induction false} OfLengthBelow(names: seq<seq<byte>>, l: nat, n: nat)
    requires n <= |names|
    ensures forall k :: 0 <= k < |OfLength(names, l, n)| ==> OfLength(names, l, n)[k] < n
  {
    if n > 0 {
      OfLengthBelow(names, l, n - 1);
    }
  }

  // ---- Conditions test equality ----------------------------------------------------

  lemma {:induction false} MatchesIsEqual(name: seq<byte>, load: Load, i: nat, acc: bool)
    requires i <= |name|
    ensures Matches(name, load, i, acc) <==> acc && forall k :: i <= k < |name| ==> load(k) == name[k]
    decreases |name| - i
  {
    if i < |name| {
      MatchesIsEqual(name, load, i + 1, acc && load(i) == name[i]);
    }
  }

  lemma {:induction false} KeyEqIsEqual(name: seq<byte>, load: Load, kl: nat)
    ensures Met(KeyEq(name), load, kl) <==> Prefix(load, kl) == name
  {
    MatchesIsEqual(name, load, 0, kl == |name|);
    if Prefix(load, kl) == name {
      assert forall k :: 0 <= k < |name| ==> load(k) == Prefix(load, kl)[k];
    }
  }

  /** Cutting a little-endian word keeps its first bytes. */
  lemma {:induction false} LowBytes(s: seq<byte>, n: nat)
    requires n <= |s|
    ensures FromLittleEndian(s) % Pow256(n) == FromLittleEndian(s[..n])
    decreases n
  {
    if n == 0 {
      DivModUnique(FromLittleEndian(s), 1, FromLittleEndian(s), 0);
    } else {
      var x := FromLittleEndian(s);
      ModPeel(x, n);
      DivModUnique(x, 256, FromLittleEndian(s[1..]), s[0]);
      LowBytes(s[1..], n - 1);
      assert s[..n][1..] == s[1..][..n - 1];
    }
  }

  lemma {:induction false} WordInjective(a: seq<byte>, b: seq<byte>)
    requires |a| == |b| && FromLittleEndian(a) == FromLittleEndian(b)
    ensures a == b
    decreases |a|
  {
    if a != [] {
      DivModUnique(FromLittleEndian(a), 256, FromLittleEndian(a[1..]), a[0]);
      DivModUnique(FromLittleEndian(b), 256, FromLittleEndian(b[1..]), b[0]);
      WordInjective(a[1..], b[1..]);
      assert a == [a[0]] + a[1..] && b == [b[0]] + b[1..];
    }
  }

  /** One masked load compares a whole name of up to eight bytes. */
  lemma {:induction false} WordIsEqual(name: seq<byte>, load: Load, kl: nat)
    ensures Met(WordTest(name), load, kl) <==> Prefix(load, kl) == name
  {
    hide Pow256, FromLittleEndian, Matches, Pow2, BitAnd;
    if |name| > 8 {
      KeyEqIsEqual(name, load, kl);
    } else {
      var n := |name|;
      var w, padded := Prefix(load, 8), name + seq(8 - n, _ => 0);
      LowBytes(w, n);
      BytePowers(n);
      AndKeeps(FromLittleEndian(w), 8 * n);
      assert padded[..n] == name && w[..n] == Prefix(load, n);
      PaddingIsZero(name, 8 - n);
      SmallMod(FromLittleEndian(name), n);
      if FromLittleEndian(w[..n]) == FromLittleEndian(name) {
        WordInjective(w[..n], name);
      }
    }
  }

  lemma {:induction false} PaddingIsZero(s: seq<byte>, k: nat)
    ensures FromLittleEndian(s + seq(k, _ => 0)) == FromLittleEndian(s)
    decreases |s|
  {
    var z: seq<byte> := seq(k, _ => 0);
    if s == [] {
      ZerosAreZero(k);
      assert s + z == z;
    } else {
      PaddingIsZero(s[1..], k);
      assert (s + z)[1..] == s[1..] + z;
    }
  }

  lemma {:induction false} ZerosAreZero(k: nat)
    ensures FromLittleEndian(seq(k, _ => 0)) == 0
  {
    if k > 0 {
      ZerosAreZero(k - 1);
      var z: seq<byte>, y: seq<byte> := seq(k, _ => 0), seq(k - 1, _ => 0);
      assert z[1..] == y;
    }
  }

  // ---- Chains find the lowest field ----------------------------------------------

  lemma {:induction false} FastFinds(names: seq<seq<byte>>, load: Load, kl: nat, i: nat)
    requires i <= |names|
    ensures Run(FastChain(names, |names|)[i..], load, kl) == Lowest(names, Prefix(load, kl), i)
    decreases |names| - i
  {
    var c := FastChain(names, |names|);
    if i < |names| {
      WordIsEqual(names[i], load, kl);
      FastFinds(names, load, kl, i + 1);
      assert c[i..][0] == c[i] && c[i..][1..] == c[i + 1..];
    }
  }

  lemma {:induction false} SlowFinds(names: seq<seq<byte>>, load: Load, kl: nat, i: nat)
    requires i <= |names|
    ensures Run(SlowChain(names, |names|)[i..], load, kl) == Lowest(names, Prefix(load, kl), i)
    decreases |names| - i
  {
    var c := SlowChain(names, |names|);
    if i < |names| {
      KeyEqIsEqual(names[i], load, kl);
      SlowFinds(names, load, kl, i + 1);
      assert c[i..][0] == c[i] && c[i..][1..] == c[i + 1..];
    }
  }

  lemma {:induction false} ChainAppend(a: seq<Test>, t: Test, load: Load, kl: nat)
    ensures Run(a + [t], load, kl) ==
            if Run(a, load, kl).Some? then Run(a, load, kl)
            else if Met(t.cond, load, kl) then Some(t.field) else None
    decreases |a|
  {
    if a == [] {
      assert a + [t] == [t];
    } else {
      ChainAppend(a[1..], t, load, kl);
      assert (a + [t])[1..] == a[1..] + [t];
    }
  }

  lemma {:induction false} ByteChainAppend(names: seq<seq<byte>>, idxs: seq<nat>, i: nat)
    requires (forall k :: 0 <= k < |idxs| ==> idxs[k] < |names|) && i < |names|
    ensures ByteChain(names, idxs + [i]) == ByteChain(names, idxs) + [Test(KeyEq(names[i]), i)]
    decreases |idxs|
  {
    if idxs == [] {
      assert idxs + [i] == [i];
    } else {
      ByteChainAppend(names, idxs[1..], i);
      assert (idxs + [i])[1..] == idxs[1..] + [i];
    }
  }

  lemma {:induction false} NothingFound(load: Load, kl: nat)
    ensures Run(ByteChain([], []), load, kl) == None == Lowest([], Prefix(load, kl), 0)
    ensures forall names: seq<seq<byte>> :: ByteChain(names, []) == [] == ByteChain([], [])
    ensures forall names: seq<seq<byte>> :: names[..0] == []
  {}

  /** A bucket's chain finds the lowest of the fields it was built from. */
  lemma {:induction false} BucketFinds(names: seq<seq<byte>>, load: Load, kl: nat, n: nat)
    requires n <= |names|
    ensures forall k :: 0 <= k < |OfLength(names, kl, n)| ==> OfLength(names, kl, n)[k] < |names|
    ensures Run(ByteChain(names, OfLength(names, kl, n)), load, kl) == Lowest(names[..n], Prefix(load, kl), 0)
    decreases n
  {
    hide Met, Matches, Prefix, Lowest, Run, ByteChain;
    OfLengthBelow(names, kl, n);
    var key := Prefix(load, kl);
    if n == 0 {
      NothingFound(load, kl);
    } else {
      BucketFinds(names, load, kl, n - 1);
      OfLengthBelow(names, kl, n - 1);
      assert names[..n] == names[..n - 1] + [names[n - 1]];
      LowestAppend(names[..n - 1], names[n - 1], key, 0);
      KeyEqIsEqual(names[n - 1], load, kl);
      var idxs := OfLength(names, kl, n - 1);
      if |names[n - 1]| != kl {
        assert OfLength(names, kl, n) == idxs;
      } else {
        ByteChainAppend(names, idxs, n - 1);
        ChainAppend(ByteChain(names, idxs), Test(KeyEq(names[n - 1]), n - 1), load, kl);
      }
    }
  }

  lemma {:induction false} LowestAppend(names: seq<seq<byte>>, x: seq<byte>, key: seq<byte>, i: nat)
    requires i <= |names|
    ensures Lowest(names + [x], key, i) ==
            if Lowest(names, key, i).Some? then Lowest(names, key, i)
            else if x == key then Some(|names|) else None
    decreases |names| - i
  {
    if i < |names| {
      LowestAppend(names, x, key, i + 1);
    } else {
      assert (names + [x])[i] == x;
    }
  }

  lemma {:induction false} SwitchFinds(names: seq<seq<byte>>, byLen: map<nat, seq<nat>>, load: Load, kl: nat)
    requires Bucketed(names, byLen, |names|)
    ensures kl in byLen ==> forall k :: 0 <= k < |byLen[kl]| ==> byLen[kl][k] < |names|
    ensures Run(if kl in byLen then ByteChain(names, byLen[kl]) else [], load, kl)
            == Lowest(names, Prefix(load, kl), 0)
  {
    BucketFinds(names, load, kl, |names|);
    assert Bucket(byLen, kl) == OfLength(names, kl, |names|);
    assert names[..|names|] == names;
    if kl !in byLen {
      assert OfLength(names, kl, |names|) == [];
    }
  }
}
