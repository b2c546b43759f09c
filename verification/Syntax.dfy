/** The grammar of `Docs` in its own characters. */
module Syntax {
  import opened Containers
  import opened Bytes
  import opened Docs

  function Ascii(s: string): (r: seq<byte>)
    requires forall i :: 0 <= i < |s| ==> s[i] as int < 128
    ensures |r| == |s|
  {
    seq(|s|, i requires 0 <= i < |s| => s[i] as int)
  }

  lemma {:induction false} SyntaxIsAscii()
    ensures [QUOTE, PLUS, COMMA, MINUS, COLON, OPEN_BRACKET, BACKSLASH, CLOSE_BRACKET, OPEN_BRACE, CLOSE_BRACE]
            == Ascii("\"+,-:[\\]{}")
    ensures forall b: byte :: IsWs(b) <==> b in {' ' as int, '\t' as int, '\n' as int, '\r' as int}
    ensures forall b: byte :: IsDigit(b) <==> '0' as int <= b <= '9' as int
    ensures forall b: byte :: IsHex(b) <==> IsDigit(b) || 'a' as int <= b <= 'f' as int || 'A' as int <= b <= 'F' as int
    ensures forall b: byte ::
              IsNumeric(b) <==> IsDigit(b) || b in {'-' as int, '+' as int, '.' as int, 'e' as int, 'E' as int}
  {}

  /** How each kind of value is printed. */
  lemma {:induction false} PrintIsJson(b: bool, tok: seq<byte>, body: List<Piece>, items: List<Item>,
                                       members: List<Member>, close: seq<byte>)
    ensures Print(DNull) == Ascii("null")
    ensures Print(DBool(b)) == if b then Ascii("true") else Ascii("false")
    ensures Print(DNum(tok)) == tok
    ensures Print(DStr(body)) == Ascii("\"") + Body(body) + Ascii("\"")
    ensures Print(DArr(items, close)) == Ascii("[") + PrintItems(items) + close + Ascii("]")
    ensures Print(DObj(members, close)) == Ascii("{") + PrintMembers(members) + close + Ascii("}")
  {
    hide PrintItems, PrintMembers, Body;
    var a, o := PrintItems(items), PrintMembers(members);
    assert [OPEN_BRACKET] + (a + (close + [CLOSE_BRACKET])) == [OPEN_BRACKET] + a + close + [CLOSE_BRACKET];
    assert [OPEN_BRACE] + (o + (close + [CLOSE_BRACE])) == [OPEN_BRACE] + o + close + [CLOSE_BRACE];
    assert Ascii("\"") == [QUOTE] && Ascii("[") == [OPEN_BRACKET] && Ascii("{") == [OPEN_BRACE];
    assert Ascii("]") == [CLOSE_BRACKET] && Ascii("}") == [CLOSE_BRACE];
  }

  /** An element with its whitespace and its comma. */
  lemma {:induction false} ItemsAreJson(it: Item, rest: List<Item>)
    ensures PrintItems(Nil) == []
    ensures PrintItems(Cons(it, rest)) ==
            it.pre + Print(it.val) + it.post + (if it.comma then Ascii(",") else []) + PrintItems(rest)
  {
    hide Print;
    assert Ascii(",") == [COMMA];
    assert PrintItem(it) == it.pre + Print(it.val) + it.post + (if it.comma then Ascii(",") else []);
  }

  /** A member is its key in quotes, a colon, and its value as an element. */
  lemma {:induction false} MembersAreJson(m: Member, rest: List<Member>)
    ensures PrintMembers(Nil) == []
    ensures PrintMembers(Cons(m, rest)) ==
            m.pre + Ascii("\"") + Body(m.key) + Ascii("\"") + m.mid + Ascii(":") + PrintItem(m.item)
            + PrintMembers(rest)
  {
    hide Print, Body, PrintItem;
    assert Ascii("\"") == [QUOTE] && Ascii(":") == [COLON];
    var q, p := Ascii("\"") + Body(m.key) + Ascii("\""), PrintItem(m.item);
    assert Quoted(m.key) == q;
    assert PrintMember(m) == m.pre + q + m.mid + Ascii(":") + p;
    assert m.pre + q == m.pre + Ascii("\"") + Body(m.key) + Ascii("\"");
  }

  /** Whitespace may stand around every token, and a comma behind the last element. */
  lemma {:induction false} Sample()
    ensures var items := Cons(Item([], DNum([49]), [32], true), Cons(Item([32], DBool(true), [], true), Nil));
            WellFormed(DArr(items, [10])) && Print(DArr(items, [10])) == Ascii("[1 , true,\n]")
  {
    var last := Cons(Item([32], DBool(true), [], true), Nil);
    assert WellFormedItems(last);
    assert PrintItems(last) == [32, 116, 114, 117, 101, 44];
    assert PrintItem(Item([], DNum([49]), [32], true)) == [49, 32, 44];
  }

  // ---- Numbers ------------------------------------------------------------------------

  predicate Digs(s: seq<byte>) {
    s != [] && forall i :: 0 <= i < |s| ==> '0' as int <= s[i] <= '9' as int
  }

  predicate Whole(s: seq<byte>) {
    Digs(s) && (s[0] == '0' as int ==> |s| == 1)
  }

  predicate Fraction(s: seq<byte>) {
    s == [] || (s[0] == '.' as int && Digs(s[1..]))
  }

  predicate Exponent(s: seq<byte>) {
    || s == []
    || ((s[0] == 'e' as int || s[0] == 'E' as int)
        && (Digs(s[1..]) || (|s| > 1 && (s[1] == '+' as int || s[1] == '-' as int) && Digs(s[2..]))))
  }

  /** Section 6 of RFC 8259: a minus or none, an integer, a fraction, an exponent. */
  predicate Parted(s: seq<byte>, minus: seq<byte>, whole: seq<byte>, frac: seq<byte>, exp: seq<byte>) {
    && s == minus + whole + frac + exp && (minus == [] || minus == ['-' as int])
    && Whole(whole) && Fraction(frac) && Exponent(exp)
  }

  lemma {:induction false} DigitsRun(s: seq<byte>, i: nat)
    requires i <= |s|
    ensures forall k :: i <= k < DigitsEnd(s, i) ==> IsDigit(s[k])
    ensures DigitsEnd(s, i) < |s| ==> !IsDigit(s[DigitsEnd(s, i)])
    decreases |s| - i
  {
    if i < |s| && IsDigit(s[i]) {
      DigitsRun(s, i + 1);
    }
  }

  lemma {:induction false} DigitsStop(s: seq<byte>, i: nat, j: nat)
    requires i <= j <= |s| && (forall k :: i <= k < j ==> IsDigit(s[k])) && (j < |s| ==> !IsDigit(s[j]))
    ensures DigitsEnd(s, i) == j
    decreases j - i
  {
    if i < j {
      DigitsStop(s, i + 1, j);
    }
  }

  /** The scan takes a token for a number exactly if it has these parts. */
  lemma {:induction false} NumberIsParted(s: seq<byte>)
    ensures Number(s) <==> exists minus, whole, frac, exp :: Parted(s, minus, whole, frac, exp)
  {
    hide Number, Parted;
    if Number(s) {
      var minus, whole, frac, exp := NumberHasParts(s);
    }
    if minus, whole, frac, exp :| Parted(s, minus, whole, frac, exp) {
      PartsAreNumber(s, minus, whole, frac, exp);
    }
  }

  lemma {:induction false} NumberHasParts(s: seq<byte>)
    returns (minus: seq<byte>, whole: seq<byte>, frac: seq<byte>, exp: seq<byte>)
    requires Number(s)
    ensures Parted(s, minus, whole, frac, exp)
  {
    hide DigitsEnd, Whole, Fraction, Exponent, ExponentEnd;
    var (i, j, k) := NumberParts(s, 0);
    WholePart(s, i, j);
    FractionPart(s, j, k);
    ExponentParts(s, k);
    minus, whole, frac, exp := s[..i], s[i..j], s[j..k], s[k..];
    Cuts(s, i, j, k);
  }

  lemma {:induction false} Cuts(s: seq<byte>, i: nat, j: nat, k: nat)
    requires i <= j <= k <= |s|
    ensures s == s[..i] + s[i..j] + s[j..k] + s[k..]
  {
    assert s[..j] == s[..i] + s[i..j];
    assert s[..k] == s[..j] + s[j..k];
  }

  lemma {:induction false} WholePart(s: seq<byte>, i: nat, j: nat)
    requires i < j == DigitsEnd(s, i) && (s[i] == 48 ==> j == i + 1)
    ensures j <= |s| && Whole(s[i..j])
  {
    DigitsRun(s, i);
  }

  lemma {:induction false} FractionPart(s: seq<byte>, j: nat, k: nat)
    requires j <= |s| && k == (if j < |s| && s[j] == 46 then DigitsEnd(s, j + 1) else j) && (k != j ==> j + 1 < k)
    ensures j <= k <= |s| && Fraction(s[j..k])
  {
    hide DigitsEnd;
    if k != j {
      DigitsRun(s, j + 1);
      assert s[j..k][1..] == s[j + 1..k];
    }
  }

  lemma {:induction false} ExponentParts(s: seq<byte>, k: nat)
    requires k <= |s| == ExponentEnd(s, k)
    ensures Exponent(s[k..])
  {
    hide DigitsEnd;
    if k == |s| {
      return;
    }
    var x := if k + 1 < |s| && (s[k + 1] == PLUS || s[k + 1] == MINUS) then k + 2 else k + 1;
    DigitsRun(s, x);
    assert Digs(s[k..][x - k..]);
  }

  lemma {:induction false} ExponentSpelled(s: seq<byte>, k: nat)
    requires k <= |s| && Exponent(s[k..])
    ensures ExponentEnd(s, k) == |s|
  {
    hide DigitsEnd;
    var exp := s[k..];
    if exp != [] {
      var x := if |exp| > 1 && (exp[1] == PLUS || exp[1] == MINUS) then 2 else 1;
      assert s[k] == exp[0] && (|exp| > 1 ==> s[k + 1] == exp[1]);
      assert exp[x..] == s[k + x..] && Digs(exp[x..]);
      DigitsTail(s, k + x);
    }
  }

  lemma {:induction false} DigitsTail(s: seq<byte>, i: nat)
    requires i <= |s| && Digs(s[i..])
    ensures DigitsEnd(s, i) == |s| > i
  {
    forall k | i <= k < |s| ensures IsDigit(s[k]) {
      assert s[k] == s[i..][k - i];
    }
    DigitsStop(s, i, |s|);
  }

  lemma {:induction false} WholeSpelled(s: seq<byte>, i: nat, j: nat)
    requires i < j <= |s| && Digs(s[i..j]) && (j < |s| ==> !IsDigit(s[j]))
    ensures DigitsEnd(s, i) == j
  {
    forall k | i <= k < j ensures IsDigit(s[k]) {
      assert s[k] == s[i..j][k - i];
    }
    DigitsStop(s, i, j);
  }

  lemma {:induction false} FractionSpelled(s: seq<byte>, j: nat, k: nat)
    requires j <= k <= |s| && Fraction(s[j..k]) && Exponent(s[k..])
    ensures j < |s| ==> !IsDigit(s[j])
    ensures (if j < |s| && s[j] == 46 then DigitsEnd(s, j + 1) else j) == k && (k != j ==> j + 1 < k)
  {
    hide DigitsEnd;
    assert k < |s| ==> s[k..][0] == s[k];
    if j < k {
      assert s[j..k][0] == s[j] && s[j..k][1..] == s[j + 1..k];
      WholeSpelled(s, j + 1, k);
    }
  }

  lemma {:induction false} PartsAreNumber(s: seq<byte>, minus: seq<byte>, whole: seq<byte>, frac: seq<byte>,
                                          exp: seq<byte>)
    requires Parted(s, minus, whole, frac, exp)
    ensures Number(s)
  {
    hide DigitsEnd, Fraction, Exponent, ExponentEnd;
    var i := |minus|;
    var j := i + |whole|;
    var k := j + |frac|;
    assert s[i..j] == whole && s[j..k] == frac && s[k..] == exp;
    FractionSpelled(s, j, k);
    WholeSpelled(s, i, j);
    ExponentSpelled(s, k);
    assert whole[0] == s[i] && (i == 1 ==> s[0] == minus[0]);
    assert NumberParts(s, 0) == (i, j, k);
  }
}
