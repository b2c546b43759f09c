/** Concrete JSON syntax: every way of spelling a value (sections 2 to 7 of RFC 8259,
    with optional trailing commas), and what each spelling means. */
module Docs {
  import opened Containers
  import opened Bytes
  import opened Utf8

  const QUOTE: byte := 34
  const PLUS: byte := 43
  const COMMA: byte := 44
  const MINUS: byte := 45
  const COLON: byte := 58
  const OPEN_BRACKET: byte := 91
  const BACKSLASH: byte := 92
  const CLOSE_BRACKET: byte := 93
  const OPEN_BRACE: byte := 123
  const CLOSE_BRACE: byte := 125

  /** `s` stands in `t` at position `i`. */
  ghost predicate Here(t: seq<byte>, i: nat, s: seq<byte>) {
    i + |s| <= |t| && t[i..i + |s|] == s
  }

  lemma {:induction false} HereAt(t: seq<byte>, i: nat, s: seq<byte>, k: nat)
    requires Here(t, i, s) && k < |s|
    ensures i + k < |t| && t[i + k] == s[k]
  {
    assert t[i..i + |s|][k] == t[i + k];
  }

  lemma {:induction false} HereSplit(t: seq<byte>, i: nat, a: seq<byte>, b: seq<byte>)
    ensures Here(t, i, a + b) <==> Here(t, i, a) && Here(t, i + |a|, b)
  {
    if i + |a| + |b| <= |t| {
      var u := t[i..i + |a| + |b|];
      assert u == u[..|a|] + u[|a|..];
      assert u[..|a|] == t[i..i + |a|] && u[|a|..] == t[i + |a|..i + |a| + |b|];
    }
  }

  // ---- Strings -------------------------------------------------------------

  /** One piece of a string body: a scalar written as itself, a backslash before a
      scalar other than `u`, or `\u` and four hexadecimal digits. */
  datatype Piece = Plain(cp: Scalar) | Escaped(c: Scalar) | Unicode(h0: byte, h1: byte, h2: byte, h3: byte)

  predicate IsHex(b: byte) {
    48 <= b <= 57 || 97 <= b <= 102 || 65 <= b <= 70
  }

  predicate LegalPiece(p: Piece) {
    match p
    case Plain(cp) => cp != QUOTE && cp != BACKSLASH
    case Escaped(c) => c != 117
    case Unicode(h0, h1, h2, h3) => IsHex(h0) && IsHex(h1) && IsHex(h2) && IsHex(h3)
  }

  predicate Legal(ps: List<Piece>) {
    ps.Cons? ==> LegalPiece(ps.head) && Legal(ps.tail)
  }

  /** No escapes. */
  predicate AllPlain(ps: List<Piece>) {
    ps.Cons? ==> ps.head.Plain? && AllPlain(ps.tail)
  }

  function PieceBytes(p: Piece): (s: seq<byte>)
    ensures |s| >= 1
  {
    match p
    case Plain(cp) => Encode(cp)
    case Escaped(c) => [BACKSLASH] + Encode(c)
    case Unicode(h0, h1, h2, h3) => [BACKSLASH, 117, h0, h1, h2, h3]
  }

  function Body(ps: List<Piece>): seq<byte> {
    match ps
    case Nil => []
    case Cons(p, rest) => PieceBytes(p) + Body(rest)
  }

  function HexDigit(b: byte): (d: nat)
    ensures d < 16
  {
    if 48 <= b <= 57 then b - 48
    else if 97 <= b <= 102 then b - 87
    else if 65 <= b <= 70 then b - 55
    else 0
  }

  function HexValue(h0: byte, h1: byte, h2: byte, h3: byte): (u: nat)
    ensures u < 0x1_0000
  {
    HexDigit(h0) * 0x1000 + HexDigit(h1) * 0x100 + HexDigit(h2) * 0x10 + HexDigit(h3)
  }

  /** The code unit of a `\u` piece. */
  function Unit(p: Piece): nat
    requires p.Unicode?
  {
    HexValue(p.h0, p.h1, p.h2, p.h3)
  }

  predicate High(u: nat) { 0xD800 <= u < 0xDC00 }
  predicate Low(u: nat) { 0xDC00 <= u < 0xE000 }

  function Combine(hi: nat, lo: nat): Scalar
    requires High(hi) && Low(lo)
  {
    0x1_0000 + (hi - 0xD800) * 0x400 + (lo - 0xDC00)
  }

  /** The character a two-character escape stands for (section 7). */
  function Unescaped(c: Scalar): Scalar {
    if c == 110 then 10
    else if c == 116 then 9
    else if c == 114 then 13
    else if c == 98 then 8
    else if c == 102 then 12
    else c
  }

  /** Two pieces that together are one scalar outside the basic plane. */
  predicate Paired(ps: List<Piece>) {
    && ps.Cons? && ps.tail.Cons? && ps.head.Unicode? && ps.tail.head.Unicode?
    && High(Unit(ps.head)) && Low(Unit(ps.tail.head))
  }

  function PieceScalar(p: Piece): Scalar {
    match p
    case Plain(cp) => cp
    case Escaped(c) => Unescaped(c)
    case Unicode(_, _, _, _) => if High(Unit(p)) || Low(Unit(p)) then REPLACEMENT else Unit(p)
  }

  /** The scalars a string body denotes; an unpaired surrogate becomes U+FFFD. */
  function Text(ps: List<Piece>): seq<Scalar> {
    if ps.Nil? then []
    else if Paired(ps) then
      [Combine(Unit(ps.head), Unit(ps.tail.head))] + Text(ps.tail.tail)
    else
      [PieceScalar(ps.head)] + Text(ps.tail)
  }

  /** The bytes of a piece that stand for themselves wherever a quote is sought. */
  ghost predicate Quiet(t: seq<byte>, i: nat, n: nat) {
    && i + n <= |t|
    && forall k :: i <= k < i + n ==> t[k] != QUOTE && t[k] != BACKSLASH
  }

  /** The position of the first unescaped quote, or the end of the text. */
  function StringEnd(t: seq<byte>, i: nat): (e: nat)
    ensures e <= |t|
    ensures i <= |t| ==> i <= e
    ensures e < |t| ==> t[e] == QUOTE
    decreases |t| - i
  {
    if i >= |t| then |t|
    else if t[i] == QUOTE then i
    else if t[i] == BACKSLASH then StringEnd(t, i + 2)
    else StringEnd(t, i + 1)
  }

  lemma {:induction false} QuietRun(t: seq<byte>, i: nat, n: nat)
    requires Quiet(t, i, n)
    ensures StringEnd(t, i) == StringEnd(t, i + n)
    decreases n
  {
    if n > 0 {
      QuietRun(t, i + 1, n - 1);
    }
  }

  /** How a piece stands in a text: a quiet run, or a backslash, one byte, a quiet run. */
  lemma {:induction false} PieceInPlace(t: seq<byte>, i: nat, p: Piece)
    requires LegalPiece(p) && Here(t, i, PieceBytes(p))
    ensures p.Plain? ==> Quiet(t, i, |PieceBytes(p)|)
    ensures !p.Plain? ==> |PieceBytes(p)| >= 2 && t[i] == BACKSLASH
                          && t[i + 1] == PieceBytes(p)[1]
                          && Quiet(t, i + 2, |PieceBytes(p)| - 2)
  {
    var s := PieceBytes(p);
    forall k | i <= k < i + |s| ensures t[k] == s[k - i] {
      HereAt(t, i, s, k - i);
    }
    if p.Escaped? {
      assert forall k :: 1 <= k < |s| ==> s[k] == Encode(p.c)[k - 1];
    }
  }

  lemma {:induction false} PieceScanned(t: seq<byte>, i: nat, p: Piece)
    requires LegalPiece(p) && Here(t, i, PieceBytes(p))
    ensures StringEnd(t, i) == StringEnd(t, i + |PieceBytes(p)|)
  {
    PieceInPlace(t, i, p);
    var n := |PieceBytes(p)|;
    if p.Plain? {
      QuietRun(t, i, n);
    } else {
      QuietRun(t, i + 2, n - 2);
    }
  }

  /** Scanning a legal string body stops at its closing quote, not before. */
  lemma {:induction false} StringEndOfBody(t: seq<byte>, i: nat, ps: List<Piece>)
    requires Legal(ps) && Here(t, i, Body(ps)) && i + |Body(ps)| < |t| && t[i + |Body(ps)|] == QUOTE
    ensures StringEnd(t, i) == i + |Body(ps)|
    decreases ps
  {
    hide PieceBytes, LegalPiece, Here;
    match ps
    case Nil =>
    case Cons(p, rest) =>
      HereSplit(t, i, PieceBytes(p), Body(rest));
      PieceScanned(t, i, p);
      StringEndOfBody(t, i + |PieceBytes(p)|, rest);
  }

  // ---- Values --------------------------------------------------------------

  datatype Doc =
    | DNull
    | DBool(b: bool)
    | DNum(tok: seq<byte>)
    | DStr(body: List<Piece>)
    | DArr(items: List<Item>, close: seq<byte>)
    | DObj(members: List<Member>, close: seq<byte>)

  /** An array element with the whitespace around it and the comma after it, if any. */
  datatype Item = Item(pre: seq<byte>, val: Doc, post: seq<byte>, comma: bool)

  datatype Member = Member(pre: seq<byte>, key: List<Piece>, mid: seq<byte>, item: Item)

  predicate IsWs(b: byte) { b == 32 || b == 9 || b == 10 || b == 13 }

  predicate Ws(s: seq<byte>) {
    forall k :: 0 <= k < |s| ==> IsWs(s[k])
  }

  predicate IsDigit(b: byte) { 48 <= b <= 57 }

  /** The bytes a number token may be made of. */
  predicate IsNumeric(b: byte) {
    IsDigit(b) || b == MINUS || b == PLUS || b == 46 || b == 101 || b == 69
  }

  /** The end of the run of digits at `i`. */
  function DigitsEnd(s: seq<byte>, i: nat): (j: nat)
    ensures i <= j && (i <= |s| ==> j <= |s|)
    decreases |s| - i
  {
    if i < |s| && IsDigit(s[i]) then DigitsEnd(s, i + 1) else i
  }

  /** The end of an exponent at `k`, if there is one. */
  function ExponentEnd(s: seq<byte>, k: nat): nat {
    if k < |s| && (s[k] == 101 || s[k] == 69) then
      var x := if k + 1 < |s| && (s[k + 1] == PLUS || s[k + 1] == MINUS) then k + 2 else k + 1;
      if x < DigitsEnd(s, x) then DigitsEnd(s, x) else k
    else k
  }

  /** Where the digits of a number at `i` start and end, and where its fraction ends. */
  function NumberParts(s: seq<byte>, i: nat): (nat, nat, nat) {
    var start := if i < |s| && s[i] == MINUS then i + 1 else i;
    var j := DigitsEnd(s, start);
    (start, j, if j < |s| && s[j] == 46 then DigitsEnd(s, j + 1) else j)
  }

  function NumberEnd(s: seq<byte>, i: nat): nat {
    ExponentEnd(s, NumberParts(s, i).2)
  }

  /** The number grammar of section 6: a sign, an integer without leading zeros, and
      perhaps a fraction and an exponent. */
  predicate Number(s: seq<byte>) {
    var (i, j, k) := NumberParts(s, 0);
    && i < j && (s[i] == 48 ==> j == i + 1)
    && (k != j ==> j + 1 < k)
    && NumberEnd(s, 0) == |s|
  }

  predicate WellFormed(d: Doc) {
    match d
    case DNull => true
    case DBool(_) => true
    case DNum(tok) => tok != [] && forall k :: 0 <= k < |tok| ==> IsNumeric(tok[k])
    case DStr(body) => Legal(body)
    case DArr(items, close) => Ws(close) && WellFormedItems(items)
    case DObj(members, close) => Ws(close) && WellFormedMembers(members)
  }

  /** Every element but the last is followed by a comma. */
  predicate WellFormedItems(items: List<Item>) {
    match items
    case Nil => true
    case Cons(it, rest) =>
      && Ws(it.pre) && WellFormed(it.val) && Ws(it.post)
      && (rest.Cons? ==> it.comma)
      && WellFormedItems(rest)
  }

  predicate WellFormedMembers(ms: List<Member>) {
    match ms
    case Nil => true
    case Cons(m, rest) =>
      && Ws(m.pre) && Legal(m.key) && Ws(m.mid)
      && Ws(m.item.pre) && WellFormed(m.item.val) && Ws(m.item.post)
      && (rest.Cons? ==> m.item.comma)
      && WellFormedMembers(rest)
  }

  function Quoted(ps: List<Piece>): seq<byte> {
    [QUOTE] + Body(ps) + [QUOTE]
  }

  function Print(d: Doc): (s: seq<byte>) {
    match d
    case DNull => [110, 117, 108, 108]
    case DBool(b) => if b then [116, 114, 117, 101] else [102, 97, 108, 115, 101]
    case DNum(tok) => tok
    case DStr(body) => Quoted(body)
    case DArr(items, close) => [OPEN_BRACKET] + (PrintItems(items) + (close + [CLOSE_BRACKET]))
    case DObj(members, close) => [OPEN_BRACE] + (PrintMembers(members) + (close + [CLOSE_BRACE]))
  }

  function AfterValue(it: Item): seq<byte> {
    it.post + (if it.comma then [COMMA] else [])
  }

  function PrintItem(it: Item): seq<byte> {
    it.pre + (Print(it.val) + AfterValue(it))
  }

  function PrintItems(items: List<Item>): seq<byte> {
    match items
    case Nil => []
    case Cons(it, rest) => PrintItem(it) + PrintItems(rest)
  }

  function PrintMember(m: Member): seq<byte> {
    m.pre + (Quoted(m.key) + (m.mid + ([COLON] + PrintItem(m.item))))
  }

  function PrintMembers(ms: List<Member>): seq<byte> {
    match ms
    case Nil => []
    case Cons(m, rest) => PrintMember(m) + PrintMembers(rest)
  }

  // ---- Documents in place --------------------------------------------------------

  /** What may follow a value: the end of the input or a delimiter. */
  predicate Delimited(t: seq<byte>, i: nat) {
    i >= |t| || IsWs(t[i]) || t[i] == COMMA || t[i] == CLOSE_BRACKET || t[i] == CLOSE_BRACE
  }

  /** Nothing but whitespace from `i` to `j`. */
  ghost predicate Blank(t: seq<byte>, i: nat, j: nat) {
    i <= j <= |t| && forall k :: i <= k < j ==> IsWs(t[k])
  }

  /** Whitespace, if it reaches `i`, ends there. */
  predicate Solid(t: seq<byte>, i: nat) {
    i < |t| ==> t[i] > 32
  }

  /** The position just past a document, an element or a member that starts at `i`.  */
  function End(i: nat, d: Doc): nat
    decreases d, 0
  {
    match d
    case DNull => i + 4
    case DBool(b) => i + if b then 4 else 5
    case DNum(tok) => i + |tok|
    case DStr(body) => i + |Body(body)| + 2
    case DArr(items, close) => ItemsEnd(i + 1, items, |close|)
    case DObj(members, close) => MembersEnd(i + 1, members, |close|)
  }

  function ItemEnd(i: nat, it: Item): nat
    decreases it.val, 1
  {
    End(i + |it.pre|, it.val) + |it.post| + if it.comma then 1 else 0
  }

  function ItemsEnd(i: nat, items: List<Item>, close: nat): nat
    decreases items, 0
  {
    match items
    case Nil => i + close + 1
    case Cons(it, rest) => ItemsEnd(ItemEnd(i, it), rest, close)
  }

  /** Where the key of a member starts, and where its colon is. */
  function KeyAt(i: nat, m: Member): nat { i + |m.pre| }
  function ColonAt(i: nat, m: Member): nat { KeyAt(i, m) + |Body(m.key)| + 2 + |m.mid| }

  function MembersEnd(i: nat, ms: List<Member>, close: nat): nat
    decreases ms, 0
  {
    match ms
    case Nil => i + close + 1
    case Cons(m, rest) => MembersEnd(ItemEnd(ColonAt(i, m) + 1, m.item), rest, close)
  }

  /** A quoted string with legal pieces. */
  ghost predicate StringAt(t: seq<byte>, i: nat, ps: List<Piece>) {
    var e := i + 1 + |Body(ps)|;
    && Legal(ps) && e < |t| && t[i] == QUOTE && t[e] == QUOTE
    && Here(t, i + 1, Body(ps)) && StringEnd(t, i + 1) == e
  }

  /** `d` is spelled out at `i`. This is what parsing relies on, position by position;
      `InPlace` derives it from the printed form. */
  ghost predicate At(t: seq<byte>, i: nat, d: Doc)
    decreases d, 0
  {
    match d
    case DNull => Here(t, i, [110, 117, 108, 108])
    case DBool(b) => Here(t, i, if b then [116, 114, 117, 101] else [102, 97, 108, 115, 101])
    case DNum(tok) => tok != [] && Here(t, i, tok) && forall k :: 0 <= k < |tok| ==> IsNumeric(tok[k])
    case DStr(body) => StringAt(t, i, body)
    case DArr(items, close) => i < |t| && t[i] == OPEN_BRACKET && ItemsAt(t, i + 1, items, |close|)
    case DObj(members, close) => i < |t| && t[i] == OPEN_BRACE && MembersAt(t, i + 1, members, |close|)
  }

  ghost predicate ItemAt(t: seq<byte>, i: nat, it: Item)
    decreases it.val, 1
  {
    var j := i + |it.pre|;
    var k := End(j, it.val);
    var e := k + |it.post|;
    && Blank(t, i, j) && At(t, j, it.val) && Blank(t, k, e)
    && (it.comma ==> e < |t| && t[e] == COMMA)
  }

  /** Elements, then whitespace, then the bracket. */
  ghost predicate ItemsAt(t: seq<byte>, i: nat, items: List<Item>, close: nat)
    decreases items, 0
  {
    match items
    case Nil => Blank(t, i, i + close) && i + close < |t| && t[i + close] == CLOSE_BRACKET
    case Cons(it, rest) =>
      ItemAt(t, i, it) && (rest.Cons? ==> it.comma) && ItemsAt(t, ItemEnd(i, it), rest, close)
  }

  ghost predicate KeyInPlace(t: seq<byte>, i: nat, m: Member) {
    var q, c := KeyAt(i, m), ColonAt(i, m);
    && Blank(t, i, q) && StringAt(t, q, m.key)
    && Blank(t, q + |Body(m.key)| + 2, c) && c < |t| && t[c] == COLON
  }

  ghost predicate MembersAt(t: seq<byte>, i: nat, ms: List<Member>, close: nat)
    decreases ms, 0
  {
    match ms
    case Nil => Blank(t, i, i + close) && i + close < |t| && t[i + close] == CLOSE_BRACE
    case Cons(m, rest) =>
      && KeyInPlace(t, i, m) && ItemAt(t, ColonAt(i, m) + 1, m.item)
      && (rest.Cons? ==> m.item.comma)
      && MembersAt(t, ItemEnd(ColonAt(i, m) + 1, m.item), rest, close)
  }

  // ---- Printing puts a document in place -----------------------------------------

  lemma {:induction false} WsIsBlank(t: seq<byte>, i: nat, ws: seq<byte>)
    requires Ws(ws) && Here(t, i, ws)
    ensures Blank(t, i, i + |ws|)
  {
    forall k | i <= k < i + |ws| ensures IsWs(t[k]) {
      HereAt(t, i, ws, k - i);
    }
  }

  lemma {:induction false} QuotesInPlace(t: seq<byte>, i: nat, s: seq<byte>)
    requires Here(t, i, [QUOTE] + s + [QUOTE])
    ensures t[i] == QUOTE && Here(t, i + 1, s)
    ensures i + 1 + |s| < |t| && t[i + 1 + |s|] == QUOTE
  {
    HereSplit(t, i, [QUOTE] + s, [QUOTE]);
    HereSplit(t, i, [QUOTE], s);
    HereAt(t, i, [QUOTE], 0);
    HereAt(t, i + 1 + |s|, [QUOTE], 0);
  }

  lemma {:induction false} QuotedInPlace(t: seq<byte>, i: nat, ps: List<Piece>)
    requires Legal(ps) && Here(t, i, Quoted(ps))
    ensures StringAt(t, i, ps)
  {
    QuotesInPlace(t, i, Body(ps));
    StringEndOfBody(t, i + 1, ps);
  }

  lemma {:induction false} ClosingInPlace(t: seq<byte>, i: nat, close: seq<byte>, b: byte)
    requires Ws(close) && Here(t, i, close + [b])
    ensures Blank(t, i, i + |close|) && i + |close| < |t| && t[i + |close|] == b
  {
    HereSplit(t, i, close, [b]);
    HereAt(t, i + |close|, [b], 0);
    WsIsBlank(t, i, close);
  }

  lemma {:induction false} BracketedInPlace(t: seq<byte>, i: nat, b: byte, s: seq<byte>, c: seq<byte>)
    requires Here(t, i, [b] + (s + c))
    ensures i < |t| && t[i] == b && Here(t, i + 1, s) && Here(t, i + 1 + |s|, c)
  {
    HereSplit(t, i, [b], s + c);
    HereSplit(t, i + 1, s, c);
    HereAt(t, i, [b], 0);
  }

  lemma {:induction false} FiveInPlace(t: seq<byte>, i: nat, a: seq<byte>, b: seq<byte>, c: seq<byte>, d: byte,
                                       e: seq<byte>)
    requires Here(t, i, a + (b + (c + ([d] + e))))
    ensures Here(t, i, a) && Here(t, i + |a|, b) && Here(t, i + |a| + |b|, c)
    ensures var k := i + |a| + |b| + |c|; k < |t| && t[k] == d && Here(t, k + 1, e)
  {
    HereSplit(t, i, a, b + (c + ([d] + e)));
    HereSplit(t, i + |a|, b, c + ([d] + e));
    HereSplit(t, i + |a| + |b|, c, [d] + e);
    HereSplit(t, i + |a| + |b| + |c|, [d], e);
    HereAt(t, i + |a| + |b| + |c|, [d], 0);
  }

  lemma {:induction false} InPlace(t: seq<byte>, i: nat, d: Doc)
    requires WellFormed(d) && Here(t, i, Print(d))
    ensures At(t, i, d) && End(i, d) == i + |Print(d)|
    decreases d, 0
  {
    hide Here, ItemsAt, MembersAt, StringAt, PrintItems, PrintMembers, Body, WellFormedItems, WellFormedMembers;
    match d
    case DNull =>
    case DBool(_) =>
    case DNum(_) =>
    case DStr(body) => QuotedInPlace(t, i, body);
    case DArr(items, close) =>
      BracketedInPlace(t, i, OPEN_BRACKET, PrintItems(items), close + [CLOSE_BRACKET]);
      ItemsInPlace(t, i + 1, items, close);
    case DObj(members, close) =>
      BracketedInPlace(t, i, OPEN_BRACE, PrintMembers(members), close + [CLOSE_BRACE]);
      MembersInPlace(t, i + 1, members, close);
  }

  lemma {:induction false} ItemInPlace(t: seq<byte>, i: nat, it: Item)
    requires Ws(it.pre) && WellFormed(it.val) && Ws(it.post) && Here(t, i, PrintItem(it))
    ensures ItemAt(t, i, it) && ItemEnd(i, it) == i + |PrintItem(it)|
    decreases it.val, 1
  {
    hide At, End, Print, Here, WellFormed;
    var p, c := Print(it.val), if it.comma then [COMMA] else [];
    var j := i + |it.pre|;
    HereSplit(t, i, it.pre, p + (it.post + c));
    HereSplit(t, j, p, it.post + c);
    HereSplit(t, j + |p|, it.post, c);
    WsIsBlank(t, i, it.pre);
    WsIsBlank(t, j + |p|, it.post);
    InPlace(t, j, it.val);
    if it.comma {
      HereAt(t, j + |p| + |it.post|, [COMMA], 0);
    }
  }

  lemma {:induction false} ItemsInPlace(t: seq<byte>, i: nat, items: List<Item>, close: seq<byte>)
    requires WellFormedItems(items) && Ws(close)
    requires Here(t, i, PrintItems(items)) && Here(t, i + |PrintItems(items)|, close + [CLOSE_BRACKET])
    ensures ItemsAt(t, i, items, |close|)
    ensures ItemsEnd(i, items, |close|) == i + |PrintItems(items)| + |close| + 1
    decreases items, 0
  {
    hide At, End, Print, Here, WellFormed, ItemAt, ItemEnd, PrintItem;
    match items
    case Nil => ClosingInPlace(t, i, close, CLOSE_BRACKET);
    case Cons(it, rest) =>
      HereSplit(t, i, PrintItem(it), PrintItems(rest));
      ItemInPlace(t, i, it);
      ItemsInPlace(t, i + |PrintItem(it)|, rest, close);
  }

  lemma {:induction false} KeyIsInPlace(t: seq<byte>, i: nat, m: Member)
    requires Ws(m.pre) && Legal(m.key) && Ws(m.mid) && Here(t, i, PrintMember(m))
    ensures KeyInPlace(t, i, m) && Here(t, ColonAt(i, m) + 1, PrintItem(m.item))
  {
    hide Here, StringAt;
    FiveInPlace(t, i, m.pre, Quoted(m.key), m.mid, COLON, PrintItem(m.item));
    WsIsBlank(t, i, m.pre);
    WsIsBlank(t, KeyAt(i, m) + |Quoted(m.key)|, m.mid);
    QuotedInPlace(t, KeyAt(i, m), m.key);
  }

  lemma {:induction false} MembersInPlace(t: seq<byte>, i: nat, ms: List<Member>, close: seq<byte>)
    requires WellFormedMembers(ms) && Ws(close)
    requires Here(t, i, PrintMembers(ms)) && Here(t, i + |PrintMembers(ms)|, close + [CLOSE_BRACE])
    ensures MembersAt(t, i, ms, |close|)
    ensures MembersEnd(i, ms, |close|) == i + |PrintMembers(ms)| + |close| + 1
    decreases ms, 0
  {
    hide At, End, Print, Here, WellFormed, ItemAt, ItemEnd, PrintItem, KeyInPlace;
    match ms
    case Nil => ClosingInPlace(t, i, close, CLOSE_BRACE);
    case Cons(m, rest) =>
      HereSplit(t, i, PrintMember(m), PrintMembers(rest));
      KeyIsInPlace(t, i, m);
      ItemInPlace(t, ColonAt(i, m) + 1, m.item);
      MembersInPlace(t, i + |PrintMember(m)|, rest, close);
  }

  // ---- Walking a container ------------------------------------------------------

  predicate Opens(b: byte) {
    b > 32 && b != COMMA && b != COLON && b != CLOSE_BRACKET && b != CLOSE_BRACE
  }

  /** The first byte tells the kinds of document apart. */
  lemma {:induction false} FirstByte(t: seq<byte>, i: nat, d: Doc)
    requires At(t, i, d)
    ensures i < |t| && Opens(t[i]) && i < End(i, d)
    ensures t[i] == QUOTE <==> d.DStr?
    ensures t[i] == 110 <==> d.DNull?
    ensures t[i] == OPEN_BRACKET <==> d.DArr?
    ensures t[i] == OPEN_BRACE <==> d.DObj?
    ensures t[i] == 116 <==> d == DBool(true)
    ensures t[i] == 102 <==> d == DBool(false)
  {
    match d
    case DNull => HereAt(t, i, [110, 117, 108, 108], 0);
    case DBool(b) => HereAt(t, i, if b then [116, 114, 117, 101] else [102, 97, 108, 115, 101], 0);
    case DNum(tok) =>
      HereAt(t, i, tok, 0);
      assert IsNumeric(tok[0]);
    case DArr(items, close) => ItemsEndAfter(i + 1, items, |close|);
    case DObj(ms, close) => MembersEndAfter(i + 1, ms, |close|);
    case _ =>
  }

  lemma {:induction false} EndAfter(i: nat, d: Doc)
    ensures i <= End(i, d)
    decreases d, 0
  {
    match d
    case DArr(items, close) => ItemsEndAfter(i + 1, items, |close|);
    case DObj(ms, close) => MembersEndAfter(i + 1, ms, |close|);
    case _ =>
  }

  lemma {:induction false} ItemsEndAfter(i: nat, items: List<Item>, close: nat)
    ensures i < ItemsEnd(i, items, close)
    decreases items, 0
  {
    match items
    case Nil =>
    case Cons(it, rest) =>
      EndAfter(i + |it.pre|, it.val);
      ItemsEndAfter(ItemEnd(i, it), rest, close);
  }

  lemma {:induction false} MembersEndAfter(i: nat, ms: List<Member>, close: nat)
    ensures i < MembersEnd(i, ms, close)
    decreases ms, 0
  {
    match ms
    case Nil =>
    case Cons(m, rest) =>
      EndAfter(ColonAt(i, m) + 1 + |m.item.pre|, m.item.val);
      MembersEndAfter(ItemEnd(ColonAt(i, m) + 1, m.item), rest, close);
  }

  /** An element: its value from `j` to `k`, then whitespace up to its comma, or to the
      bracket `b` that closes the container when it has none. */
  lemma {:induction false} Element(t: seq<byte>, i: nat, it: Item, close: nat, b: byte)
    returns (j: nat, k: nat, e: nat)
    requires ItemAt(t, i, it) && (b == CLOSE_BRACKET || b == CLOSE_BRACE)
    requires !it.comma ==> var z := ItemEnd(i, it) + close;
                           Blank(t, ItemEnd(i, it), z) && z < |t| && t[z] == b
    ensures j == i + |it.pre| && k == End(j, it.val)
    ensures Blank(t, i, j) && At(t, j, it.val) && j < |t| && Opens(t[j]) && Delimited(t, k)
    ensures Blank(t, k, e) && e < |t| && t[e] == if it.comma then COMMA else b
    ensures ItemEnd(i, it) == if it.comma then e + 1 else e - close
  {
    hide At, End;
    j := i + |it.pre|;
    k := End(j, it.val);
    e := k + |it.post| + if it.comma then 0 else close;
    FirstByte(t, j, it.val);
  }

  /** What is left of an array at `i`: the closing bracket at `j`, or an element there,
      and where the rest goes on after it. */
  lemma {:induction false} NextItem(t: seq<byte>, i: nat, items: List<Item>, close: nat)
    returns (j: nat, k: nat, e: nat, next: nat, close': nat)
    requires ItemsAt(t, i, items, close)
    ensures Blank(t, i, j) && j < |t| && t[j] > 32
    ensures t[j] == CLOSE_BRACKET <==> items.Nil?
    ensures items.Nil? ==> ItemsEnd(i, items, close) == j + 1
    ensures items.Cons? ==>
      && At(t, j, items.head.val) && k == End(j, items.head.val) && Delimited(t, k)
      && Blank(t, k, e) && e < |t| && t[e] > 32 && next == (if t[e] == COMMA then e + 1 else e)
      && ItemsAt(t, next, items.tail, close')
      && ItemsEnd(next, items.tail, close') == ItemsEnd(i, items, close)
  {
    hide At, End, ItemAt, ItemEnd, Delimited;
    match items
    case Nil => j, k, e, next, close' := i + close, 0, 0, 0, 0;
    case Cons(it, _) =>
      j, k, e := Element(t, i, it, close, CLOSE_BRACKET);
      next, close' := if it.comma then e + 1 else e, if it.comma then close else 0;
  }

  lemma {:induction false} KeyParts(t: seq<byte>, i: nat, m: Member)
    requires KeyInPlace(t, i, m)
    ensures Blank(t, i, KeyAt(i, m)) && StringAt(t, KeyAt(i, m), m.key)
    ensures Blank(t, KeyAt(i, m) + |Body(m.key)| + 2, ColonAt(i, m))
    ensures KeyAt(i, m) < |t| && t[KeyAt(i, m)] == QUOTE
    ensures ColonAt(i, m) < |t| && t[ColonAt(i, m)] == COLON
  {}

  /** The same for an object; a member has its key at `j` and its colon at `c`. */
  lemma {:induction false} NextMember(t: seq<byte>, i: nat, ms: List<Member>, close: nat)
    returns (j: nat, c: nat, v: nat, k: nat, e: nat, next: nat, close': nat)
    requires MembersAt(t, i, ms, close)
    ensures Blank(t, i, j) && j < |t| && t[j] > 32
    ensures t[j] == CLOSE_BRACE <==> ms.Nil?
    ensures ms.Nil? ==> MembersEnd(i, ms, close) == j + 1
    ensures ms.Cons? ==>
      && StringAt(t, j, ms.head.key)
      && Blank(t, j + |Body(ms.head.key)| + 2, c) && c < |t| && t[c] == COLON
      && Blank(t, c + 1, v) && At(t, v, ms.head.item.val) && v < |t| && Opens(t[v])
      && k == End(v, ms.head.item.val) && Delimited(t, k)
      && Blank(t, k, e) && e < |t| && t[e] > 32 && next == (if t[e] == COMMA then e + 1 else e)
      && MembersAt(t, next, ms.tail, close')
      && MembersEnd(next, ms.tail, close') == MembersEnd(i, ms, close)
  {
    hide At, End, ItemAt, ItemEnd, Delimited, Body, Here, KeyInPlace, StringAt, KeyAt, ColonAt;
    match ms
    case Nil => j, c, v, k, e, next, close' := i + close, 0, 0, 0, 0, 0, 0;
    case Cons(m, _) =>
      j, c := KeyAt(i, m), ColonAt(i, m);
      KeyParts(t, i, m);
      v, k, e := Element(t, c + 1, m.item, close, CLOSE_BRACE);
      next, close' := if m.item.comma then e + 1 else e, if m.item.comma then close else 0;
  }

  lemma {:induction false} ArrayParts(t: seq<byte>, i: nat, d: Doc)
    requires d.DArr? && At(t, i, d)
    ensures i < |t| && t[i] == OPEN_BRACKET
    ensures ItemsAt(t, i + 1, d.items, |d.close|) && ItemsEnd(i + 1, d.items, |d.close|) == End(i, d)
  {}

  lemma {:induction false} ObjectParts(t: seq<byte>, i: nat, d: Doc)
    requires d.DObj? && At(t, i, d)
    ensures i < |t| && t[i] == OPEN_BRACE
    ensures MembersAt(t, i + 1, d.members, |d.close|) && MembersEnd(i + 1, d.members, |d.close|) == End(i, d)
  {}
}
