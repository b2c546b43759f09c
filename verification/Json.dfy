/** The tree of `json.rs`: what the lenient parser makes of a document, and the
    conversions that panic become options. */
module Json {
  import opened Containers
  import opened Bytes
  import opened Utf8
  import opened Docs

  /** Strings and keys are their UTF-8 bytes. */
  datatype Json =
    | Str(s: seq<byte>)
    | Num(tok: seq<byte>)
    | Bool(b: bool)
    | Null
    | Array(items: seq<Json>)
    | Object(kvs: seq<(seq<byte>, Json)>)

  function Decimal(s: seq<byte>): nat
    requires forall k :: 0 <= k < |s| ==> IsDigit(s[k])
  {
    if s == [] then 0
    else
      assert IsDigit(s[|s| - 1]);
      10 * Decimal(s[..|s| - 1]) + s[|s| - 1] as int - 48
  }

  lemma {:induction false} DecimalStep(s: seq<byte>, d: byte)
    requires (forall k :: 0 <= k < |s| ==> IsDigit(s[k])) && IsDigit(d)
    ensures Decimal(s + [d]) == 10 * Decimal(s) + d - 48
  {
    assert (s + [d])[..|s|] == s;
  }

  predicate Digits(s: seq<byte>) {
    s != [] && forall k :: 0 <= k < |s| ==> IsDigit(s[k])
  }

  /** An optional sign, then at least one digit, as `str::parse` reads an integer; a
      minus is for signed types only. */
  function Integer(s: seq<byte>, signed: bool): Option<int> {
    if s != [] && (s[0] == PLUS || (signed && s[0] == MINUS)) then
      if Digits(s[1..]) then
        Some(if s[0] == MINUS then -(Decimal(s[1..]) as int) else Decimal(s[1..]))
      else None
    else if Digits(s) then Some(Decimal(s))
    else None
  }

  predicate FitsU128(v: int) { 0 <= v < Pow256(16) }
  predicate FitsI128(v: int) { 0 <= 2 * v + Pow256(16) && 2 * v < Pow256(16) }

  function ParseU128(s: seq<byte>): Option<int> {
    var r := Integer(s, false);
    if r.Some? && FitsU128(r.value) then r else None
  }

  function ParseI128(s: seq<byte>): Option<int> {
    var r := Integer(s, true);
    if r.Some? && FitsI128(r.value) then r else None
  }

  function AsU128(j: Json): Option<int> {
    match j
    case Num(s) => ParseU128(s)
    case Str(s) => ParseU128(s)
    case Bool(b) => Some(if b then 1 else 0)
    case _ => None
  }

  function AsI128(j: Json): Option<int> {
    match j
    case Num(s) => ParseI128(s)
    case Str(s) => ParseI128(s)
    case _ => None
  }

  /** The index of the first pair with this key. */
  function Find(kvs: seq<(seq<byte>, Json)>, key: seq<byte>): (r: Option<nat>)
    ensures r.Some? ==> r.value < |kvs| && kvs[r.value].0 == key
                        && forall k :: 0 <= k < r.value ==> kvs[k].0 != key
    ensures r.None? ==> forall k :: 0 <= k < |kvs| ==> kvs[k].0 != key
  {
    if kvs == [] then None
    else if kvs[0].0 == key then Some(0)
    else
      match Find(kvs[1..], key)
      case None => None
      case Some(k) => Some(k + 1)
  }

  // ---- The tree of a document ------------------------------------------------

  /** What `parse_string` pushes for one piece: it decodes `\n` and `\t`, and passes
      every other escaped byte through. */
  function PieceText(p: Piece): seq<Scalar> {
    match p
    case Plain(cp) => [cp]
    case Escaped(c) => [if c == 110 then 10 else if c == 116 then 9 else c]
    case Unicode(h0, h1, h2, h3) => [117, h0, h1, h2, h3]
  }

  function PassedText(ps: List<Piece>): seq<Scalar> {
    match ps
    case Nil => []
    case Cons(p, rest) => PieceText(p) + PassedText(rest)
  }

  function Tree(d: Doc): Json {
    match d
    case DNull => Null
    case DBool(b) => Bool(b)
    case DNum(tok) => Num(tok)
    case DStr(body) => Str(EncodeAll(PassedText(body)))
    case DArr(items, _) => Array(Trees(items))
    case DObj(members, _) => Object(Pairs(members))
  }

  function Trees(items: List<Item>): seq<Json> {
    match items
    case Nil => []
    case Cons(it, rest) => [Tree(it.val)] + Trees(rest)
  }

  function Pairs(ms: List<Member>): seq<(seq<byte>, Json)> {
    match ms
    case Nil => []
    case Cons(m, rest) => [(EncodeAll(PassedText(m.key)), Tree(m.item.val))] + Pairs(rest)
  }

  /** The escapes `parse_string` gets right: all but `\b`, `\f`, `\r` and `\u`. */
  predicate Simple(ps: List<Piece>) {
    match ps
    case Nil => true
    case Cons(p, rest) =>
      && (p.Plain? || (p.Escaped? && p.c != 98 && p.c != 102 && p.c != 114))
      && Simple(rest)
  }

  /** On those strings the reference parser recovers the text the string denotes. */
  lemma {:induction false} SimpleStringsDecode(ps: List<Piece>)
    requires Simple(ps)
    ensures PassedText(ps) == Text(ps)
  {
    if ps.Cons? {
      SimpleStringsDecode(ps.tail);
    }
  }

  /** A carriage-return escape is one it does not: the text is CR, the tree has `r`. */
  lemma {:induction false} OtherEscapesPassThrough()
    ensures var r := Cons(Escaped(114), Nil); PassedText(r) == [114] && Text(r) == [13]
  {
  }

  predicate NoUnicode(ps: List<Piece>) {
    ps.Cons? ==> !ps.head.Unicode? && NoUnicode(ps.tail)
  }

  /** A `\u` passed through is five characters or more where the text has one. */
  lemma {:induction false} PassedIsLonger(ps: List<Piece>)
    ensures |Text(ps)| <= |PassedText(ps)|
    ensures |Text(ps)| == |PassedText(ps)| ==> NoUnicode(ps)
    decreases ps
  {
    hide Unit, Combine;
    if Paired(ps) {
      PassedIsLonger(ps.tail.tail);
    } else if ps.Cons? {
      PassedIsLonger(ps.tail);
    }
  }

  lemma {:induction false} HeadsAndTails(x: Scalar, s: seq<Scalar>, y: Scalar, t: seq<Scalar>)
    ensures [x] + s == [y] + t <==> x == y && s == t
  {
    if [x] + s == [y] + t {
      assert ([x] + s)[0] == x && ([x] + s)[1..] == s;
      assert ([y] + t)[0] == y && ([y] + t)[1..] == t;
    }
  }

  /** The reference parser recovers the text of exactly these strings. */
  lemma {:induction false} SimpleIsExact(ps: List<Piece>)
    ensures Tree(DStr(ps)) == Str(EncodeAll(Text(ps))) <==> Simple(ps)
  {
    hide EncodeAll;
    if Simple(ps) {
      SimpleStringsDecode(ps);
    }
    if EncodeAll(PassedText(ps)) == EncodeAll(Text(ps)) {
      EncodeAllInjective(PassedText(ps), Text(ps));
      PassedIsLonger(ps);
      PassedIsSimple(ps);
    }
  }

  lemma {:induction false} PassedIsSimple(ps: List<Piece>)
    requires NoUnicode(ps) && PassedText(ps) == Text(ps)
    ensures Simple(ps)
    decreases ps
  {
    if ps.Cons? {
      HeadsAndTails(PieceText(ps.head)[0], PassedText(ps.tail), PieceScalar(ps.head), Text(ps.tail));
      PassedIsSimple(ps.tail);
    }
  }
}
