/** The reference parser of `json.rs`, byte by byte. */
module JsonParser {
  import opened Containers
  import opened Bytes
  import opened Utf8
  import opened Docs
  import opened Json

  /** `u8::is_ascii_whitespace`: also form feed. */
  predicate IsAsciiWhitespace(b: byte) { IsWs(b) || b == 12 }

  method SkipWs(b: seq<byte>, i0: nat, ghost end: nat) returns (i: nat)
    requires Blank(b, i0, end) && Solid(b, end)
    ensures i == end
  {
    i := i0;
    while i < |b| && IsAsciiWhitespace(b[i])
      invariant i0 <= i <= end
    {
      i := i + 1;
    }
  }

  /** Whitespace after an element, and a comma if there is one: a trailing comma is
      tolerated, because the caller looks for the closing bracket next. */
  method SkipComma(b: seq<byte>, i0: nat, ghost end: nat) returns (i: nat)
    requires Blank(b, i0, end) && end < |b| && b[end] > 32
    ensures i == if b[end] == COMMA then end + 1 else end
  {
    i := SkipWs(b, i0, end);
    if b[i] == COMMA {
      i := i + 1;
    }
  }

  // ---- Strings -------------------------------------------------------------

  function Decoded(c: byte): byte {
    if c == 110 then 10 else if c == 116 then 9 else c
  }

  /** The bytes pushed for the body that runs from `i` to `e`. */
  function Pushed(b: seq<byte>, i: nat, e: nat): seq<byte>
    requires e <= |b|
    decreases e - i
  {
    if i >= e then []
    else if b[i] == BACKSLASH && i + 1 < e then [Decoded(b[i + 1])] + Pushed(b, i + 2, e)
    else [b[i]] + Pushed(b, i + 1, e)
  }

  lemma {:induction false} QuietPushed(b: seq<byte>, i: nat, n: nat, e: nat)
    requires Quiet(b, i, n) && i + n <= e <= |b|
    ensures Pushed(b, i, e) == b[i..i + n] + Pushed(b, i + n, e)
    decreases n
  {
    if n > 0 {
      QuietPushed(b, i + 1, n - 1, e);
      assert b[i..i + n] == [b[i]] + b[i + 1..i + n];
    }
  }

  lemma {:induction false} AsciiEncoded(s: seq<Scalar>)
    requires forall k :: 0 <= k < |s| ==> s[k] < 0x80
    ensures EncodeAll(s) == s
  {
    if s != [] {
      AsciiEncoded(s[1..]);
    }
  }

  lemma {:induction false} EscapePushed(b: seq<byte>, i: nat, n: nat, e: nat)
    requires i + 2 + n <= e <= |b| && b[i] == BACKSLASH && Quiet(b, i + 2, n)
    ensures Pushed(b, i, e) == [Decoded(b[i + 1])] + b[i + 2..i + 2 + n] + Pushed(b, i + 2 + n, e)
  {
    QuietPushed(b, i + 2, n, e);
    Regroup3([Decoded(b[i + 1])], b[i + 2..i + 2 + n], Pushed(b, i + 2 + n, e));
  }

  lemma {:induction false} Regroup3(x: seq<byte>, y: seq<byte>, z: seq<byte>)
    ensures x + (y + z) == x + y + z
  {}

  lemma {:induction false} PieceTextBytes(p: Piece)
    requires LegalPiece(p)
    ensures p.Plain? ==> EncodeAll(PieceText(p)) == PieceBytes(p)
    ensures !p.Plain? ==> |PieceBytes(p)| >= 2
                          && EncodeAll(PieceText(p)) == [Decoded(PieceBytes(p)[1])] + PieceBytes(p)[2..]
  {
    match p
    case Plain(cp) => assert EncodeAll([cp]) == Encode(cp) + EncodeAll([cp][1..]);
    case Escaped(c) =>
      var d := PieceText(p)[0];
      assert EncodeAll([d]) == Encode(d) + EncodeAll([d][1..]);
      assert [Encode(c)[0]] + Encode(c)[1..] == Encode(c);
    case Unicode(_, _, _, _) => AsciiEncoded(PieceText(p));
  }

  lemma {:induction false} PiecePushed(b: seq<byte>, i: nat, p: Piece, e: nat)
    requires LegalPiece(p) && Here(b, i, PieceBytes(p)) && i + |PieceBytes(p)| <= e <= |b|
    ensures Pushed(b, i, e) == EncodeAll(PieceText(p)) + Pushed(b, i + |PieceBytes(p)|, e)
  {
    var s := PieceBytes(p);
    PieceInPlace(b, i, p);
    PieceTextBytes(p);
    if p.Plain? {
      QuietPushed(b, i, |s|, e);
    } else {
      assert b[i + 2..i + |s|] == s[2..] by {
        assert b[i + 2..i + |s|] == b[i..i + |s|][2..];
      }
      EscapePushed(b, i, |s| - 2, e);
    }
  }

  lemma {:induction false} HereFits(t: seq<byte>, i: nat, x: seq<byte>, y: seq<byte>)
    requires Here(t, i, x + y)
    ensures i + |x| + |y| <= |t|
  {}

  /** What is pushed is well-formed UTF-8, and it is the text the tree is given. */
  lemma {:induction false} PushedIsPassedText(b: seq<byte>, i: nat, ps: List<Piece>)
    requires Legal(ps) && Here(b, i, Body(ps))
    ensures Pushed(b, i, i + |Body(ps)|) == EncodeAll(PassedText(ps))
    decreases ps
  {
    hide Encode, EncodeAll, PieceBytes, PieceText, Here, LegalPiece;
    match ps
    case Nil => assert EncodeAll([]) == [] by { AsciiEncoded([]); }
    case Cons(p, rest) =>
      HereSplit(b, i, PieceBytes(p), Body(rest));
      HereFits(b, i, PieceBytes(p), Body(rest));
      PiecePushed(b, i, p, i + |Body(ps)|);
      PushedIsPassedText(b, i + |PieceBytes(p)|, rest);
      EncodeAllAppend(PieceText(p), PassedText(rest));
  }

  lemma {:induction false} Regroup<T>(s: seq<T>, c: T, rest: seq<T>)
    ensures s + ([c] + rest) == (s + [c]) + rest
  {}

  method ParseString(b: seq<byte>, i0: nat, ghost ps: List<Piece>) returns (s: seq<byte>, i: nat)
    requires StringAt(b, i0, ps)
    ensures s == EncodeAll(PassedText(ps))
    ensures i == i0 + |Body(ps)| + 2
  {
    hide Encode, Here, Legal, Body;
    i := i0 + 1;
    s := [];
    ghost var e := StringEnd(b, i);
    while b[i] != QUOTE
      invariant i <= e < |b| && StringEnd(b, i) == e && b[e] == QUOTE
      invariant s + Pushed(b, i, e) == Pushed(b, i0 + 1, e)
      decreases |b| - i
    {
      var c := b[i];
      if c == BACKSLASH {
        i := i + 1;
        c := b[i];
        c := if c == 110 then 10 else if c == 116 then 9 else c;
      }
      i := i + 1;
      Regroup(s, c, Pushed(b, i, e));
      s := s + [c];
    }
    i := i + 1;
    PushedIsPassedText(b, i0 + 1, ps);
  }

  // ---- Values --------------------------------------------------------------

  /** Parsing undoes printing: the tree is the document's, and the cursor stops exactly
      at the document's end. */
  method ParseValue(b: seq<byte>, i0: nat, ghost at: nat, ghost doc: Doc) returns (v: Json, i: nat)
    requires Blank(b, i0, at) && At(b, at, doc) && Delimited(b, End(at, doc))
    ensures v == Tree(doc)
    ensures i == End(at, doc)
    decreases doc, 1
  {
    FirstByte(b, at, doc);
    i := SkipWs(b, i0, at);
    var c := b[i];
    if c == OPEN_BRACE {
      v, i := ParseObject(b, i, doc);
    } else if c == OPEN_BRACKET {
      v, i := ParseArray(b, i, doc);
    } else if c == QUOTE {
      var s;
      s, i := ParseString(b, i, doc.body);
      v := Str(s);
    } else if c == 116 {
      i := i + 4;
      v := Bool(true);
    } else if c == 102 {
      i := i + 5;
      v := Bool(false);
    } else if c == 110 {
      i := i + 4;
      v := Null;
    } else {
      var start := i;
      while i < |b| && IsNumeric(b[i])
        invariant start <= i <= start + |doc.tok|
      {
        i := i + 1;
      }
      if i < start + |doc.tok| {
        HereAt(b, start, doc.tok, i - start);
      }
      v := Num(b[start..i]);
    }
  }

  method ParseArray(b: seq<byte>, i0: nat, ghost doc: Doc) returns (v: Json, i: nat)
    requires doc.DArr? && At(b, i0, doc)
    ensures v == Tree(doc)
    ensures i == End(i0, doc)
    decreases doc, 0
  {
    hide At, End, ItemsAt, ItemsEnd, Delimited, Blank;
    i := i0 + 1;
    var out := [];
    ghost var rest, close: nat := doc.items, |doc.close|;
    ArrayParts(b, i0, doc);
    while true
      invariant rest == doc.items || rest < doc.items
      invariant ItemsAt(b, i, rest, close)
      invariant ItemsEnd(i, rest, close) == End(i0, doc)
      invariant out + Trees(rest) == Trees(doc.items)
      decreases rest
    {
      ghost var j, k, e, n, close' := NextItem(b, i, rest, close);
      i := SkipWs(b, i, j);
      if b[i] == CLOSE_BRACKET {
        i := i + 1;
        break;
      }
      var val;
      val, i := ParseValue(b, i, i, rest.head.val);
      Regroup(out, val, Trees(rest.tail));
      out := out + [val];
      i := SkipComma(b, i, e);
      rest, close := rest.tail, close';
    }
    v := Array(out);
  }

  /** One turn of the object loop: key, colon, value, optional comma. */
  method ParsePair(b: seq<byte>, i0: nat, ghost c: nat, ghost at: nat, ghost e: nat, ghost m: Member)
    returns (kv: (seq<byte>, Json), i: nat)
    requires StringAt(b, i0, m.key)
    requires Blank(b, i0 + |Body(m.key)| + 2, c) && c < |b| && b[c] == COLON
    requires Blank(b, c + 1, at) && At(b, at, m.item.val) && Delimited(b, End(at, m.item.val))
    requires Blank(b, End(at, m.item.val), e) && e < |b| && b[e] > 32
    ensures kv == (EncodeAll(PassedText(m.key)), Tree(m.item.val))
    ensures i == if b[e] == COMMA then e + 1 else e
    decreases m.item.val, 2
  {
    hide At, End, Delimited, StringAt, Blank, Body, EncodeAll, PassedText, Tree;
    var key, val;
    key, i := ParseString(b, i0, m.key);
    i := SkipWs(b, i, c);
    i := i + 1;
    assert Solid(b, at) by {
      FirstByte(b, at, m.item.val);
    }
    val, i := ParseValue(b, i, at, m.item.val);
    kv := (key, val);
    i := SkipComma(b, i, e);
  }

  method ParseObject(b: seq<byte>, i0: nat, ghost doc: Doc) returns (v: Json, i: nat)
    requires doc.DObj? && At(b, i0, doc)
    ensures v == Tree(doc)
    ensures i == End(i0, doc)
    decreases doc, 0
  {
    hide At, End, MembersAt, MembersEnd, Delimited, StringAt, Blank, Body, EncodeAll, PassedText;
    i := i0 + 1;
    var out := [];
    ghost var rest, close: nat := doc.members, |doc.close|;
    ObjectParts(b, i0, doc);
    while true
      invariant rest == doc.members || rest < doc.members
      invariant MembersAt(b, i, rest, close)
      invariant MembersEnd(i, rest, close) == End(i0, doc)
      invariant out + Pairs(rest) == Pairs(doc.members)
      decreases rest
    {
      ghost var j, c, at, k, e, n, close' := NextMember(b, i, rest, close);
      i := SkipWs(b, i, j);
      if b[i] == CLOSE_BRACE {
        i := i + 1;
        break;
      }
      var kv;
      kv, i := ParsePair(b, i, c, at, e, rest.head);
      Regroup(out, kv, Pairs(rest.tail));
      out := out + [kv];
      rest, close := rest.tail, close';
    }
    v := Object(out);
  }
}
