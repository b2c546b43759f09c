/** `rt_unescape` (`jit.rs`): decoding a string body, surrogate pairs included. */
module Unescape {
  import opened Containers
  import opened Bytes
  import opened Utf8
  import opened Docs

  function Prepend(x: seq<byte>, o: Option<seq<byte>>): Option<seq<byte>> {
    match o
    case None => None
    case Some(y) => Some(x + y)
  }

  function SimpleEscape(b: byte): byte {
    if b == 110 then 10
    else if b == 116 then 9
    else if b == 114 then 13
    else if b == 98 then 8
    else if b == 102 then 12
    else b
  }

  /** Four hexadecimal digits; a byte that is none counts as zero. */
  function U4(s: seq<byte>, i: nat): nat
    requires i + 4 <= |s|
  {
    HexValue(s[i], s[i + 1], s[i + 2], s[i + 3])
  }

  function FromU32(cp: nat): Scalar {
    if cp < 0xD800 || 0xE000 <= cp < 0x11_0000 then cp else REPLACEMENT
  }

  /** A high surrogate whose `\u` starts at `i`, with a low one right behind. */
  predicate PairAt(s: seq<byte>, i: nat)
    requires i + 6 <= |s|
  {
    && High(U4(s, i + 2)) && i + 12 <= |s|
    && s[i + 6] == BACKSLASH && s[i + 7] == 117 && Low(U4(s, i + 8))
  }

  /** What the loop appends from `i` on, for any bytes whose `\u` escapes have their
      four digits; otherwise the loop would read past the end. */
  function Decode(s: seq<byte>, i: nat): Option<seq<byte>>
    decreases |s| - i
  {
    if i >= |s| then Some([])
    else if s[i] != BACKSLASH then Prepend([s[i]], Decode(s, i + 1))
    else if i + 1 >= |s| then Some([])
    else if s[i + 1] != 117 then Prepend([SimpleEscape(s[i + 1])], Decode(s, i + 2))
    else if i + 6 > |s| then None
    else if PairAt(s, i) then
      Prepend(Encode(Combine(U4(s, i + 2), U4(s, i + 8))), Decode(s, i + 12))
    else Prepend(Encode(FromU32(U4(s, i + 2))), Decode(s, i + 6))
  }

  method RtUnescape(s: seq<byte>) returns (out: seq<byte>)
    requires Decode(s, 0).Some?
    ensures Some(out) == Decode(s, 0)
  {
    hide Encode, HexValue;
    out := [];
    var i := 0;
    assert Prepend(out, Decode(s, 0)) == Decode(s, 0) by {
      assert [] + Decode(s, 0).value == Decode(s, 0).value;
    }
    while i < |s|
      invariant Prepend(out, Decode(s, i)) == Decode(s, 0)
      decreases |s| - i
    {
      var b := s[i];
      if b != BACKSLASH {
        i := i + 1;
        PrependTwice(out, [b], Decode(s, i));
        out := out + [b];
        continue;
      }
      i := i + 1;
      if i >= |s| {
        break;
      }
      var x := [SimpleEscape(s[i])];
      if s[i] == 117 {
        var cp := U4(s, i + 1);
        i := i + 4;
        if High(cp) && i + 6 < |s| && s[i + 1] == BACKSLASH && s[i + 2] == 117 {
          var lo := U4(s, i + 3);
          if Low(lo) {
            cp := Combine(cp, lo);
            i := i + 6;
          }
        }
        x := Encode(FromU32(cp));
      }
      i := i + 1;
      PrependTwice(out, x, Decode(s, i));
      out := out + x;
    }
    assert out + [] == out;
  }

  // ---- What it decodes to -----------------------------------------------------

  lemma {:induction false} PrependTwice(x: seq<byte>, y: seq<byte>, o: Option<seq<byte>>)
    ensures Prepend(x, Prepend(y, o)) == Prepend(x + y, o)
  {
    if o.Some? {
      assert x + (y + o.value) == x + y + o.value;
    }
  }

  lemma {:induction false} QuietDecode(s: seq<byte>, i: nat, n: nat)
    requires Quiet(s, i, n)
    ensures Decode(s, i) == Prepend(s[i..i + n], Decode(s, i + n))
    decreases n
  {
    if n == 0 {
      assert Decode(s, i).Some? ==> [] + Decode(s, i).value == Decode(s, i).value;
    } else {
      QuietDecode(s, i + 1, n - 1);
      PrependTwice([s[i]], s[i + 1..i + n], Decode(s, i + n));
      assert s[i..i + n] == [s[i]] + s[i + 1..i + n];
    }
  }

  lemma {:induction false} SimpleEscapeIsUnescaped(c: Scalar)
    ensures Encode(Unescaped(c)) == [SimpleEscape(Encode(c)[0])] + Encode(c)[1..]
  {
    assert [Encode(c)[0]] + Encode(c)[1..] == Encode(c);
  }

  lemma {:induction false} EscapedDecode(s: seq<byte>, i: nat, c: Scalar)
    requires c != 117 && Here(s, i, PieceBytes(Escaped(c)))
    ensures Decode(s, i) == Prepend(Encode(Unescaped(c)), Decode(s, i + |PieceBytes(Escaped(c))|))
  {
    hide Encode, Unescaped, SimpleEscape;
    var p, e := PieceBytes(Escaped(c)), Encode(c);
    PieceInPlace(s, i, Escaped(c));
    QuietDecode(s, i + 2, |p| - 2);
    assert s[i + 2..i + |p|] == e[1..] by {
      assert s[i + 2..i + |p|] == s[i..i + |p|][2..] == p[2..];
    }
    SimpleEscapeIsUnescaped(c);
    PrependTwice([SimpleEscape(s[i + 1])], e[1..], Decode(s, i + |p|));
  }

  lemma {:induction false} UnicodeInPlace(s: seq<byte>, i: nat, p: Piece)
    requires p.Unicode? && Here(s, i, PieceBytes(p))
    ensures i + 6 <= |s| && s[i] == BACKSLASH && s[i + 1] == 117 && U4(s, i + 2) == Unit(p)
  {
    forall k | 0 <= k < 6 ensures s[i + k] == PieceBytes(p)[k] {
      HereAt(s, i, PieceBytes(p), k);
    }
    assert s[i + 1] == PieceBytes(p)[1] && s[i + 2] == PieceBytes(p)[2] && s[i + 3] == PieceBytes(p)[3];
    assert s[i + 4] == PieceBytes(p)[4] && s[i + 5] == PieceBytes(p)[5];
  }

  /** The bytes behind a `\u` piece look like a low surrogate only if the next piece is
      one. */
  lemma {:induction false} PairIsPaired(s: seq<byte>, i: nat, p: Piece, rest: List<Piece>)
    requires p.Unicode? && Legal(rest) && Here(s, i, PieceBytes(p)) && Here(s, i + 6, Body(rest))
    requires i + 6 + |Body(rest)| == |s|
    ensures i + 6 <= |s| && (PairAt(s, i) <==> Paired(Cons(p, rest)))
    ensures Paired(Cons(p, rest)) ==> U4(s, i + 8) == Unit(rest.head) && U4(s, i + 2) == Unit(p)
                                      && Here(s, i + 12, Body(rest.tail))
  {
    UnicodeInPlace(s, i, p);
    match rest
    case Nil =>
    case Cons(q, more) =>
      HereSplit(s, i + 6, PieceBytes(q), Body(more));
      PieceInPlace(s, i + 6, q);
      if q.Unicode? {
        UnicodeInPlace(s, i + 6, q);
      }
  }

  /** Unescaping is the meaning of the body: the UTF-8 of the scalars it denotes. */
  lemma {:induction false} UnescapeIsText(s: seq<byte>, i: nat, ps: List<Piece>)
    requires Legal(ps) && Here(s, i, Body(ps)) && i + |Body(ps)| == |s|
    ensures Decode(s, i) == Some(EncodeAll(Text(ps)))
    decreases ps
  {
    hide Encode, Unit, HexValue, PieceScalar, Combine, FromU32, PairAt;
    match ps
    case Nil =>
    case Cons(p, rest) =>
      HereSplit(s, i, PieceBytes(p), Body(rest));
      if Paired(ps) {
        PairDecode(s, i, p, rest);
        UnescapeIsText(s, i + 12, rest.tail);
      } else {
        PieceDecode(s, i, p, rest);
        UnescapeIsText(s, i + |PieceBytes(p)|, rest);
      }
  }

  lemma {:induction false} PairDecode(s: seq<byte>, i: nat, p: Piece, rest: List<Piece>)
    requires Legal(Cons(p, rest)) && Paired(Cons(p, rest))
    requires Here(s, i, PieceBytes(p)) && Here(s, i + 6, Body(rest)) && i + 6 + |Body(rest)| == |s|
    ensures Decode(s, i) == Prepend(Encode(Combine(Unit(p), Unit(rest.head))), Decode(s, i + 12))
    ensures Here(s, i + 12, Body(rest.tail)) && i + 12 + |Body(rest.tail)| == |s|
  {
    hide Encode, HexValue, Combine;
    UnicodeInPlace(s, i, p);
    PairIsPaired(s, i, p, rest);
  }

  lemma {:induction false} PieceDecode(s: seq<byte>, i: nat, p: Piece, rest: List<Piece>)
    requires Legal(Cons(p, rest)) && !Paired(Cons(p, rest)) && Here(s, i, PieceBytes(p))
    requires Here(s, i + |PieceBytes(p)|, Body(rest)) && i + |PieceBytes(p)| + |Body(rest)| == |s|
    ensures Decode(s, i) == Prepend(Encode(PieceScalar(p)), Decode(s, i + |PieceBytes(p)|))
  {
    hide Encode, HexValue;
    match p
    case Plain(cp) =>
      PieceInPlace(s, i, p);
      QuietDecode(s, i, |PieceBytes(p)|);
    case Escaped(c) => EscapedDecode(s, i, c);
    case Unicode(_, _, _, _) =>
      UnicodeInPlace(s, i, p);
      PairIsPaired(s, i, p, rest);
  }

  /** The decoded text is never longer than the body. */
  lemma {:induction false} UnescapeShrinks(ps: List<Piece>)
    requires Legal(ps)
    ensures |EncodeAll(Text(ps))| <= |Body(ps)|
    decreases ps
  {
    hide Encode, Unit, HexValue, Combine;
    match ps
    case Nil =>
    case Cons(p, rest) =>
      if Paired(ps) {
        UnescapeShrinks(rest.tail);
      } else {
        PieceShrinks(p);
        UnescapeShrinks(rest);
      }
  }

  lemma {:induction false} PieceShrinks(p: Piece)
    ensures |Encode(PieceScalar(p))| <= |PieceBytes(p)|
  {
    hide HexValue;
  }

  // ---- Every spelling of a text -------------------------------------------------

  /** A hexadecimal digit in either case. */
  function HexChar(d: nat, upper: bool): byte
    requires d < 16
  {
    (if upper then "0123456789ABCDEF"[d] else "0123456789abcdef"[d]) as int
  }

  /** Which of the four digits are in upper case. */
  type Case = (bool, bool, bool, bool)

  function HexPiece(u: nat, c: Case): (p: Piece)
    requires u < 0x1_0000
    ensures p.Unicode?
  {
    Unicode(HexChar(u / 4096, c.0), HexChar(u / 256 % 16, c.1), HexChar(u / 16 % 16, c.2), HexChar(u % 16, c.3))
  }

  /** The ways section 7 of RFC 8259 allows a scalar to be spelled. */
  datatype Form = AsItself | TwoCharacter | Hex(c: Case) | Surrogates(c: Case, c': Case)

  predicate Allowed(cp: Scalar, f: Form) {
    match f
    case AsItself => cp != 34 && cp != 92
    case TwoCharacter => cp in {34, 92, 47, 8, 12, 10, 13, 9}
    case Hex(_) => cp < 0x1_0000
    case Surrogates(_, _) => cp >= 0x1_0000
  }

  /** The letter behind the backslash. */
  function Letter(cp: Scalar): byte
    requires Allowed(cp, TwoCharacter)
  {
    (if cp == 34 then '\"'
     else if cp == 92 then '\\'
     else if cp == 47 then '/'
     else if cp == 8 then 'b'
     else if cp == 12 then 'f'
     else if cp == 10 then 'n'
     else if cp == 13 then 'r'
     else 't') as int
  }

  function HexBytes(u: nat, c: Case): seq<byte>
    requires u < 0x1_0000
  {
    var p := HexPiece(u, c);
    ['\\' as int, 'u' as int, p.h0, p.h1, p.h2, p.h3]
  }

  function FormBytes(cp: Scalar, f: Form): seq<byte>
    requires Allowed(cp, f)
  {
    match f
    case AsItself => Encode(cp)
    case TwoCharacter => ['\\' as int, Letter(cp)]
    case Hex(c) => HexBytes(cp, c)
    case Surrogates(c, c') =>
      HexBytes(0xD800 + (cp - 0x1_0000) / 0x400, c) + HexBytes(0xDC00 + (cp - 0x1_0000) % 0x400, c')
  }

  predicate AllAllowed(cs: seq<Scalar>, fs: seq<Form>) {
    |fs| == |cs| && forall i :: 0 <= i < |cs| ==> Allowed(cs[i], fs[i])
  }

  /** A text, each scalar spelled in a form of its own. */
  function Spelled(cs: seq<Scalar>, fs: seq<Form>): seq<byte>
    requires AllAllowed(cs, fs)
  {
    if cs == [] then [] else FormBytes(cs[0], fs[0]) + Spelled(cs[1..], fs[1..])
  }

  lemma {:induction false} HexCharReads(d: nat, upper: bool)
    requires d < 16
    ensures HexDigit(HexChar(d, upper)) == d && IsHex(HexChar(d, upper))
  {
    if d < 8 {
      if d < 4 {} else {}
    } else {
      if d < 12 {} else {}
    }
  }

  /** Four digits read back as the number they are written from. */
  lemma {:induction false} HexReads(u: nat, c: Case)
    requires u < 0x1_0000
    ensures Unit(HexPiece(u, c)) == u && LegalPiece(HexPiece(u, c))
  {
    hide HexChar, HexDigit, IsHex;
    HexCharReads(u / 4096, c.0);
    HexCharReads(u / 256 % 16, c.1);
    HexCharReads(u / 16 % 16, c.2);
    HexCharReads(u % 16, c.3);
    assert u == 16 * (u / 16) + u % 16 && u / 16 == 16 * (u / 16 / 16) + u / 16 % 16;
    assert u / 16 / 16 == u / 256 && u / 256 == 16 * (u / 256 / 16) + u / 256 % 16 && u / 256 / 16 == u / 4096;
  }

  /** The pieces of a spelling. */
  function FormPieces(cp: Scalar, f: Form, rest: List<Piece>): List<Piece>
    requires Allowed(cp, f)
  {
    match f
    case AsItself => Cons(Plain(cp), rest)
    case TwoCharacter => Cons(Escaped(Letter(cp)), rest)
    case Hex(c) => Cons(HexPiece(cp, c), rest)
    case Surrogates(c, c') =>
      Cons(HexPiece(0xD800 + (cp - 0x1_0000) / 0x400, c), Cons(HexPiece(0xDC00 + (cp - 0x1_0000) % 0x400, c'), rest))
  }

  function Pieces(cs: seq<Scalar>, fs: seq<Form>): List<Piece>
    requires AllAllowed(cs, fs)
  {
    if cs == [] then Nil else FormPieces(cs[0], fs[0], Pieces(cs[1..], fs[1..]))
  }

  lemma {:induction false} PairMeans(cp: Scalar, c: Case, c': Case, rest: List<Piece>)
    requires Allowed(cp, Surrogates(c, c')) && Legal(rest)
    ensures var ps := FormPieces(cp, Surrogates(c, c'), rest);
            && Legal(ps) && Text(ps) == [cp] + Text(rest)
            && Body(ps) == FormBytes(cp, Surrogates(c, c')) + Body(rest)
  {
    hide Encode, HexPiece, Text, HexValue;
    var hi, lo := 0xD800 + (cp - 0x1_0000) / 0x400, 0xDC00 + (cp - 0x1_0000) % 0x400;
    HexReads(hi, c);
    HexReads(lo, c');
    var a, b := HexPiece(hi, c), HexPiece(lo, c');
    var ps := Cons(a, Cons(b, rest));
    assert Combine(hi, lo) == cp;
    TextOfPair(ps);
    assert Body(ps) == PieceBytes(a) + (PieceBytes(b) + Body(rest));
  }

  lemma {:induction false} TextOfPair(ps: List<Piece>)
    requires Paired(ps)
    ensures Text(ps) == [Combine(Unit(ps.head), Unit(ps.tail.head))] + Text(ps.tail.tail)
  {}

  /** One scalar in front of a text. */
  lemma {:induction false} FormMeans(cp: Scalar, f: Form, rest: List<Piece>)
    requires Allowed(cp, f) && Legal(rest)
    ensures var ps := FormPieces(cp, f, rest);
            Legal(ps) && Text(ps) == [cp] + Text(rest) && Body(ps) == FormBytes(cp, f) + Body(rest)
  {
    hide Encode, HexPiece, HexValue;
    match f
    case AsItself =>
    case TwoCharacter => AsciiIsItself(Letter(cp));
    case Hex(c) => HexReads(cp, c);
    case Surrogates(c, c') => PairMeans(cp, c, c', rest);
  }

  lemma {:induction false} AsciiIsItself(b: byte)
    requires b < 0x80
    ensures Encode(b) == [b]
  {}

  lemma {:induction false} SpelledText(cs: seq<Scalar>, fs: seq<Form>)
    requires AllAllowed(cs, fs)
    ensures var ps := Pieces(cs, fs); Legal(ps) && Text(ps) == cs && Body(ps) == Spelled(cs, fs)
  {
    hide FormPieces, FormBytes, Allowed;
    if cs != [] {
      SpelledText(cs[1..], fs[1..]);
      FormMeans(cs[0], fs[0], Pieces(cs[1..], fs[1..]));
    }
  }

  /** Unescaping inverts escaping: however a text is spelled, what comes out is its UTF-8. */
  method UnescapeSpelled(ghost cs: seq<Scalar>, ghost fs: seq<Form>, s: seq<byte>) returns (out: seq<byte>)
    requires AllAllowed(cs, fs) && s == Spelled(cs, fs)
    ensures out == EncodeAll(cs)
  {
    SpelledText(cs, fs);
    assert s[0..|s|] == s;
    UnescapeIsText(s, 0, Pieces(cs, fs));
    out := RtUnescape(s);
  }

  /** A backslash before anything else comes out as what follows it. */
  lemma {:induction false} OtherEscapes(c: Scalar, rest: List<Piece>)
    requires c !in {'b' as int, 'f' as int, 'n' as int, 'r' as int, 't' as int}
    ensures Text(Cons(Escaped(c), rest)) == [c] + Text(rest)
  {}

  /** A surrogate that is not half of a pair comes out as U+FFFD. */
  lemma {:induction false} LoneSurrogate(u: nat, c: Case, rest: List<Piece>)
    requires 0xD800 <= u < 0xE000 && (rest.Nil? || !rest.head.Unicode?)
    ensures Text(Cons(HexPiece(u, c), rest)) == [0xFFFD] + Text(rest)
  {
    hide HexPiece;
    HexReads(u, c);
  }
}
