/** The scanning shims and the scanners the compiled parser inlines (`jit.rs`). The
    input's end pointer is the length of the text. */
module Scan {
  import opened Containers
  import opened Bytes
  import opened Docs

  // ---- Whitespace ------------------------------------------------------------

  /** `rt_wsskip`: past every byte up to 0x20. */
  method RtWsskip(t: seq<byte>, cur: nat, ghost at: nat) returns (r: nat)
    requires Blank(t, cur, at) && Solid(t, at)
    ensures r == at
  {
    r := cur;
    while r < |t| && t[r] <= 0x20
      invariant cur <= r <= at
    {
      r := r + 1;
    }
  }

  /** `ws`: two bytes peeled inline, then the shim. */
  method SkipWs(t: seq<byte>, cur: nat, ghost at: nat) returns (r: nat)
    requires Blank(t, cur, at) && Solid(t, at)
    ensures r == at
  {
    r := cur;
    if r >= |t| || t[r] > 0x20 {
      return;
    }
    r := r + 1;
    if r >= |t| || t[r] > 0x20 {
      return;
    }
    r := RtWsskip(t, r + 1, at);
  }

  /** The emitted whitespace skip and optional comma after an element. */
  method SkipComma(t: seq<byte>, cur: nat, ghost e: nat) returns (r: nat)
    requires Blank(t, cur, e) && e < |t| && t[e] > 32
    ensures r == if t[e] == COMMA then e + 1 else e
  {
    r := SkipWs(t, cur, e);
    if t[r] == COMMA {
      r := r + 1;
    }
  }

  /** `rt_ws`: the four whitespace bytes only. */
  method RtWs(t: seq<byte>, cur: nat, ghost at: nat) returns (r: nat)
    requires Blank(t, cur, at) && Solid(t, at)
    ensures r == at
  {
    r := cur;
    while r < |t| && IsWs(t[r])
      invariant cur <= r <= at
    {
      r := r + 1;
    }
  }

  // ---- String spans ------------------------------------------------------------

  predicate Special(b: byte) { b == QUOTE || b == BACKSLASH }

  /** `memchr2` for a quote or a backslash in the rest of the text. */
  method Memchr2(t: seq<byte>, i: nat) returns (p: nat)
    requires i <= |t|
    ensures i <= p <= |t| && Quiet(t, i, p - i)
    ensures p < |t| ==> Special(t[p])
  {
    p := i;
    while p < |t| && !Special(t[p])
      invariant i <= p <= |t| && Quiet(t, i, p - i)
    {
      p := p + 1;
    }
  }

  predicate HasBackslash(t: seq<byte>, i: nat, e: nat) {
    exists k :: i <= k < e && k < |t| && t[k] == BACKSLASH
  }

  /** `rt_strscan`, on any input: the body runs to the first unescaped quote (or to the
      end), and the flag is set exactly when the body has a backslash. */
  method RtStrscan(t: seq<byte>, q: nat) returns (after: nat, len: nat, esc: bool)
    requires q < |t|
    ensures len == StringEnd(t, q + 1) - (q + 1)
    ensures after == if StringEnd(t, q + 1) < |t| then StringEnd(t, q + 1) + 1 else |t|
    ensures esc <==> HasBackslash(t, q + 1, StringEnd(t, q + 1))
  {
    var s := q + 1;
    var i := s;
    esc := false;
    ghost var e := StringEnd(t, s);
    while true
      invariant s <= i <= |t| && StringEnd(t, i) == e && i <= e
      invariant esc <==> HasBackslash(t, s, i)
      decreases |t| - i
    {
      var p := Memchr2(t, i);
      QuietRun(t, i, p - i);
      if p == |t| {
        return |t|, |t| - s, esc;
      }
      if t[p] == QUOTE {
        return p + 1, p - s, esc;
      }
      assert HasBackslash(t, s, p + 1);
      esc := true;
      i := if p + 2 > |t| then |t| else p + 2;
    }
  }

  /** On a string in place, the span is its body, and a clear flag means no escapes. */
  method Strspan(t: seq<byte>, cur: nat, ghost at: nat, ghost ps: List<Piece>)
    returns (start: nat, len: nat, after: nat, esc: bool)
    requires Blank(t, cur, at) && StringAt(t, at, ps)
    ensures start == at + 1 && len == |Body(ps)| && after == at + |Body(ps)| + 2
    ensures start + len <= |t| && t[start..start + len] == Body(ps)
    ensures !esc <==> AllPlain(ps)
  {
    var q := SkipWs(t, cur, at);
    start := q + 1;
    after, len, esc := RtStrscan(t, q);
    BackslashMeansEscape(t, start, ps);
  }

  lemma {:induction false} BackslashMeansEscape(t: seq<byte>, i: nat, ps: List<Piece>)
    requires Legal(ps) && Here(t, i, Body(ps))
    ensures HasBackslash(t, i, i + |Body(ps)|) <==> !AllPlain(ps)
    decreases ps
  {
    match ps
    case Nil =>
    case Cons(p, rest) =>
      var n := |PieceBytes(p)|;
      HereSplit(t, i, PieceBytes(p), Body(rest));
      PieceInPlace(t, i, p);
      BackslashMeansEscape(t, i + n, rest);
  }

  // ---- Skipping a value ----------------------------------------------------------

  predicate OpensContainer(b: byte) { b == OPEN_BRACE || b == OPEN_BRACKET }
  predicate ClosesContainer(b: byte) { b == CLOSE_BRACE || b == CLOSE_BRACKET }

  /** Where a scan that counts both bracket kinds in one depth, and jumps over strings,
      brings the depth to zero. */
  function Balance(t: seq<byte>, i: nat, depth: nat): Option<nat>
    decreases |t| - i
  {
    if i >= |t| then None
    else if t[i] == QUOTE then
      if StringEnd(t, i + 1) >= |t| then None else Balance(t, StringEnd(t, i + 1) + 1, depth)
    else if OpensContainer(t[i]) then Balance(t, i + 1, depth + 1)
    else if ClosesContainer(t[i]) then
      if depth <= 1 then (if depth == 1 then Some(i + 1) else None) else Balance(t, i + 1, depth - 1)
    else Balance(t, i + 1, depth)
  }

  /** Bytes no scanner reacts to. */
  ghost predicate Inert(t: seq<byte>, i: nat, j: nat) {
    && i <= j <= |t|
    && forall k :: i <= k < j ==>
         t[k] != QUOTE && !OpensContainer(t[k]) && !ClosesContainer(t[k])
  }

  lemma {:induction false} InertBalance(t: seq<byte>, i: nat, j: nat, depth: nat)
    requires Inert(t, i, j)
    ensures Balance(t, i, depth) == Balance(t, j, depth)
    decreases j - i
  {
    if i < j {
      InertBalance(t, i + 1, j, depth);
    }
  }

  /** A token: inert, and no delimiter inside. */
  ghost predicate Token(t: seq<byte>, i: nat, j: nat) {
    Inert(t, i, j) && forall k :: i <= k < j ==> !Delimited(t, k)
  }

  lemma {:induction false} ScalarIsToken(t: seq<byte>, i: nat, d: Doc)
    requires At(t, i, d) && (d.DNull? || d.DBool? || d.DNum?)
    ensures Token(t, i, End(i, d))
  {
    var s: seq<byte> := if d.DNum? then d.tok
                        else if d.DNull? then [110, 117, 108, 108]
                        else if d.b then [116, 114, 117, 101] else [102, 97, 108, 115, 101];
    forall k | i <= k < End(i, d) ensures t[k] == s[k - i] && !Delimited(t, k) {
      HereAt(t, i, s, k - i);
    }
  }

  /** Inside a container, a whole document leaves the count where it was. */
  lemma {:induction false} DocBalance(t: seq<byte>, i: nat, d: Doc, depth: nat)
    requires At(t, i, d) && depth >= 1
    ensures Balance(t, i, depth) == Balance(t, End(i, d), depth)
    decreases d, 0
  {
    hide Here, ItemsAt, MembersAt, Body, Legal;
    match d
    case DStr(body) =>
    case DArr(items, close) =>
      ArrayParts(t, i, d);
      ItemsBalance(t, i + 1, items, |close|, depth + 1);
    case DObj(members, close) =>
      ObjectParts(t, i, d);
      MembersBalance(t, i + 1, members, |close|, depth + 1);
    case _ =>
      ScalarIsToken(t, i, d);
      InertBalance(t, i, End(i, d), depth);
  }

  lemma {:induction false} ItemBalance(t: seq<byte>, i: nat, it: Item, depth: nat)
    requires ItemAt(t, i, it) && depth >= 1
    ensures Balance(t, i, depth) == Balance(t, ItemEnd(i, it), depth)
    decreases it.val, 1
  {
    hide At, End, Balance;
    var j := i + |it.pre|;
    var k := End(j, it.val);
    InertBalance(t, i, j, depth);
    DocBalance(t, j, it.val, depth);
    InertBalance(t, k, ItemEnd(i, it), depth);
  }

  /** The end of the container is where one level closes: the scan goes on from there one
      level down, or stops there if that was the last. */
  function Closed(t: seq<byte>, end: nat, depth: nat): Option<nat> {
    if depth <= 1 then Some(end) else Balance(t, end, depth - 1)
  }

  lemma {:induction false} ItemsBalance(t: seq<byte>, i: nat, items: List<Item>, close: nat, depth: nat)
    requires ItemsAt(t, i, items, close) && depth >= 1
    ensures Balance(t, i, depth) == Closed(t, ItemsEnd(i, items, close), depth)
    decreases items, 0
  {
    hide At, End, ItemAt, ItemEnd;
    match items
    case Nil => InertBalance(t, i, i + close, depth);
    case Cons(it, rest) =>
      ItemBalance(t, i, it, depth);
      ItemsBalance(t, ItemEnd(i, it), rest, close, depth);
  }

  lemma {:induction false} KeyBalance(t: seq<byte>, i: nat, m: Member, depth: nat)
    requires KeyInPlace(t, i, m) && depth >= 1
    ensures Balance(t, i, depth) == Balance(t, ColonAt(i, m) + 1, depth)
  {
    hide Body, Here, Legal;
    var q := KeyAt(i, m);
    InertBalance(t, i, q, depth);
    InertBalance(t, q + |Body(m.key)| + 2, ColonAt(i, m) + 1, depth);
  }

  lemma {:induction false} MembersBalance(t: seq<byte>, i: nat, ms: List<Member>, close: nat, depth: nat)
    requires MembersAt(t, i, ms, close) && depth >= 1
    ensures Balance(t, i, depth) == Closed(t, MembersEnd(i, ms, close), depth)
    decreases ms, 0
  {
    hide At, End, ItemAt, ItemEnd, KeyInPlace, ColonAt;
    match ms
    case Nil => InertBalance(t, i, i + close, depth);
    case Cons(m, rest) =>
      KeyBalance(t, i, m, depth);
      ItemBalance(t, ColonAt(i, m) + 1, m.item, depth);
      MembersBalance(t, ItemEnd(ColonAt(i, m) + 1, m.item), rest, close, depth);
  }

  lemma {:induction false} ContainerBalance(t: seq<byte>, i: nat, d: Doc)
    requires At(t, i, d) && (d.DArr? || d.DObj?)
    ensures Balance(t, i, 0) == Some(End(i, d))
  {
    hide ItemsAt, MembersAt, Here, StringAt;
    match d
    case DArr(items, close) => ItemsBalance(t, i + 1, items, |close|, 1);
    case DObj(members, close) => MembersBalance(t, i + 1, members, |close|, 1);
  }

  method RtSkip(t: seq<byte>, cur0: nat, ghost at: nat, ghost d: Doc) returns (cur: nat)
    requires Blank(t, cur0, at) && At(t, at, d) && Delimited(t, End(at, d))
    ensures cur == End(at, d)
  {
    assert Solid(t, at) by {
      FirstByte(t, at, d);
    }
    cur := RtWs(t, cur0, at);
    FirstByte(t, at, d);
    if cur >= |t| {
      return;
    }
    var c := t[cur];
    if c == QUOTE {
      cur := SkipString(t, cur, d);
    } else if c == OPEN_BRACE || c == OPEN_BRACKET {
      ContainerBalance(t, at, d);
      cur := SkipContainer(t, cur);
    } else {
      ScalarIsToken(t, at, d);
      while cur < |t|
        invariant at <= cur <= End(at, d)
        invariant End(at, d) <= |t|
      {
        c := t[cur];
        if c == COMMA || c == CLOSE_BRACE || c == CLOSE_BRACKET || IsWs(c) {
          break;
        }
        cur := cur + 1;
      }
    }
  }

  method SkipString(t: seq<byte>, q: nat, ghost d: Doc) returns (cur: nat)
    requires d.DStr? && At(t, q, d)
    ensures cur == End(q, d)
  {
    cur := q + 1;
    ghost var e := StringEnd(t, cur);
    while cur < |t| && t[cur] != QUOTE
      invariant cur <= e < |t| && StringEnd(t, cur) == e
      decreases |t| - cur
    {
      cur := if t[cur] == BACKSLASH then cur + 2 else cur + 1;
    }
    cur := cur + 1;
  }

  /** One depth counter for both bracket kinds, and an in-string flag. */
  method SkipContainer(t: seq<byte>, start: nat) returns (cur: nat)
    requires Balance(t, start, 0).Some?
    ensures cur == Balance(t, start, 0).value
  {
    cur := start;
    var depth := 0;
    var inStr := false;
    while cur < |t|
      invariant depth >= 0
      invariant !inStr ==> Balance(t, cur, depth) == Balance(t, start, 0)
      invariant inStr ==> var e := StringEnd(t, cur); e < |t| && Balance(t, e + 1, depth) == Balance(t, start, 0)
      decreases |t| - cur
    {
      var c := t[cur];
      if inStr {
        if c == BACKSLASH {
          cur := cur + 2;
          continue;
        }
        if c == QUOTE {
          inStr := false;
        }
        cur := cur + 1;
        continue;
      }
      if c == QUOTE {
        inStr := true;
      } else if OpensContainer(c) {
        depth := depth + 1;
      } else if ClosesContainer(c) {
        depth := depth - 1;
        if depth == 0 {
          return cur + 1;
        }
      }
      cur := cur + 1;
    }
  }
}
