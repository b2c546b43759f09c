/** The two backends, end to end: `from_json` parses a tree and binds it, and
    `from_json_jit_parse` runs the compiled parser over the same bytes. */
module Agreement {
  import opened Containers
  import opened Bytes
  import opened Utf8
  import opened Docs
  import opened Json
  import opened Numerals
  import opened Plan
  import opened Memory
  import opened Frames
  import opened Layout
  import opened Values
  import opened Binding
  import opened Build
  import Domain
  import JsonParser
  import Syntax
  import Unescape
  import Interp
  import Jit

  /** An input: whitespace, a well-formed document, and anything that does not run on. */
  ghost predicate Input(t: seq<byte>, lead: seq<byte>, d: Doc) {
    && Ws(lead) && WellFormed(d) && Here(t, 0, lead + Print(d))
    && Delimited(t, |lead| + |Print(d)|) && 2 * |t| < Pow256(8)
  }

  lemma {:induction false} InputInPlace(t: seq<byte>, lead: seq<byte>, d: Doc)
    requires Input(t, lead, d)
    ensures Blank(t, 0, |lead|) && At(t, |lead|, d)
    ensures End(|lead|, d) == |lead| + |Print(d)| && Delimited(t, End(|lead|, d))
  {
    hide At, End, Print, WellFormed, Delimited, Here;
    HereSplit(t, 0, lead, Print(d));
    WsIsBlank(t, 0, lead);
    InPlace(t, |lead|, d);
  }

  /** What a backend leaves behind: the value, in its place, byte by byte, and nothing else
      changed. Of the new blocks the value owns all but `lost`. */
  ghost predicate Left(env: Cells, ty: Ty, m: Mem, m': Mem, dst: Ptr, v: Val, lost: set<nat>) {
    && Decode(env, ty, m', dst) == Some(v) && Lies(env, ty, m', dst, v)
    && Wrote(m, m', dst, Size(env, ty))
    && exists r :: Built(env, ty, m, m', dst, r, lost)
  }

  lemma {:induction false} RanLeft(env: Cells, ty: Ty, m: Mem, m': Mem, dst: Ptr, v: Val, r: Rep, lost: set<nat>)
    requires Interp.Ran(env, ty, m, m', dst, v, r, lost) && Fits(m, dst, Size(env, ty))
    ensures Left(env, ty, m, m', dst, v, lost)
  {
    hide Holds, Decode, Wrote, Lies, Fits, Own, Separate, Erase, Size;
    var n := Size(env, ty);
    WroteFits(m, m', dst, n, dst, n);
    if ty.Opt? {
      TagInside(env, ty);
      FitsPart(m', dst, n, ty.discOff, ty.discSize);
    }
    HeldLies(env, ty, m', dst, r);
    DecodeHeld(env, ty, m', dst, r);
  }

  lemma {:induction false} TagInside(env: Cells, ty: Ty)
    requires ty.Opt?
    ensures ty.discOff + ty.discSize <= Size(env, ty)
  {}

  lemma {:induction false} LeftMeans(env: Cells, ty: Ty, m: Mem, m': Mem, dst: Ptr, v: Val, lost: set<nat>)
    requires Left(env, ty, m, m', dst, v, lost)
    ensures Decode(env, ty, m', dst) == Some(v) && Lies(env, ty, m', dst, v) && Wrote(m, m', dst, Size(env, ty))
  {
    hide Decode, Lies, Wrote, Built;
  }

  method FromJson(env: Cells, fl: Floats, h: Heap, dst: Ptr, ty: Ty, t: seq<byte>, ghost lead: seq<byte>,
                  ghost d: Doc, ghost v: Val)
    returns (i: nat)
    requires Interp.Ready(env, ty, h, dst) && Input(t, lead, d) && Binds(env, fl, ty, Tree(d), v)
    modifies h
    ensures h.Valid() && Left(env, ty, old(h.m), h.m, dst, v, {}) && i == |lead| + |Print(d)|
    ensures d.DNum? ==> Interp.NumeralLies(ty, d.tok, h.m, dst)
  {
    hide Holds, Left, Input, At, End, Delimited, Binds, Sound, SoundCells, Fits, Interp.NumeralLies;
    InputInPlace(t, lead, d);
    var val;
    val, i := JsonParser.ParseValue(t, 0, |lead|, d);
    ghost var r := Interp.Run(env, fl, h, dst, ty, val, v);
    RanLeft(env, ty, old(h.m), h.m, dst, v, r, {});
  }

  method FromJsonJit(p: Jit.Pctx, h: Heap, dst: Ptr, ty: Ty, ghost lead: seq<byte>, ghost d: Doc, ghost n: nat,
                     ghost v: Val)
    returns (cur: nat, ghost lost: set<nat>)
    requires Interp.Ready(p.env, ty, h, dst) && Input(p.t, lead, d) && Reads(p.env, p.fl, n, ty, d, v)
    modifies h
    ensures h.Valid() && Left(p.env, ty, old(h.m), h.m, dst, v, lost) && cur == |lead| + |Print(d)|
    ensures d.DNum? ==> Interp.NumeralLies(ty, d.tok, h.m, dst)
    ensures Unrepeated(p.env, ty, d, v) ==> lost == {}
  {
    hide Holds, Left, At, End, Delimited, Reads, Unrepeated, Sound, SoundCells, Fits, Here, Print, WellFormed,
         Interp.NumeralLies;
    InputInPlace(p.t, lead, d);
    ghost var r;
    cur, r, lost := Jit.Parse(p, h, dst, ty, 0, |lead|, d, n, v);
    RanLeft(p.env, ty, old(h.m), h.m, dst, v, r, lost);
  }

  lemma {:induction false} InputModerate(t: seq<byte>, lead: seq<byte>, d: Doc)
    requires Input(t, lead, d)
    ensures Domain.Moderate(d)
  {
    hide Print, WellFormed, Delimited, Pow256;
  }

  /** On every input whose keys both find alike and whose integers fit the tree's 128 bits,
      the two-stage parser accepts what the compiled one does and stops at the same place, and
      the values left in two memories that need not look alike are the same exactly if the
      strings that are read are alike. */
  method BackendsAgree(p: Jit.Pctx, h: Heap, dst: Ptr, h': Heap, dst': Ptr, ty: Ty, ghost lead: seq<byte>,
                       ghost d: Doc, ghost n: nat, ghost v: Val)
    returns (i: nat, cur: nat)
    requires h != h' && Interp.Ready(p.env, ty, h, dst) && Interp.Ready(p.env, ty, h', dst')
    requires Input(p.t, lead, d) && Reads(p.env, p.fl, n, ty, d, v)
    requires KeysAlike(p.env, ty, d, v) && Domain.IntegersFit(p.env, ty, d, v)
    modifies h, h'
    ensures i == cur
    ensures Decode(p.env, ty, h.m, dst).Some? && Decode(p.env, ty, h'.m, dst') == Some(v)
    ensures Decode(p.env, ty, h.m, dst) == Decode(p.env, ty, h'.m, dst') <==> TextsAlike(p.env, ty, d, v)
    ensures Wrote(old(h.m), h.m, dst, Size(p.env, ty)) && Wrote(old(h'.m), h'.m, dst', Size(p.env, ty))
  {
    hide Left, Input, Binds, Reads, Throughout, Domain.Moderate, Domain.Bindable, Decode, Wrote, Sound, SoundCells,
         Fits, Tree, Interp.NumeralLies;
    InputModerate(p.t, lead, d);
    Domain.Accepted(p.env, p.fl, n, ty, d, v);
    ghost var w := Domain.Bound(p.env, p.fl, ty, Tree(d));
    ReadingsAgree(p.env, p.fl, n, ty, d, v, w);
    i := FromJson(p.env, p.fl, h, dst, ty, p.t, lead, d, w);
    ghost var lost;
    cur, lost := FromJsonJit(p, h', dst', ty, lead, d, n, v);
    LeftMeans(p.env, ty, old(h.m), h.m, dst, w, {});
    LeftMeans(p.env, ty, old(h'.m), h'.m, dst', v, lost);
  }

  // ---- From text to bytes -------------------------------------------------------------

  /** A numeral after whitespace, for an integer type: both backends leave the low bytes of
      the number's two's complement, whatever its sign and however many zeros are in front. */
  method IntegersArrive(p: Jit.Pctx, h: Heap, dst: Ptr, h': Heap, dst': Ptr, ty: Ty, ghost lead: seq<byte>,
                        ghost tok: seq<byte>, ghost x: int)
    returns (i: nat, cur: nat)
    requires h != h' && Interp.Ready(p.env, ty, h, dst) && Interp.Ready(p.env, ty, h', dst')
    requires (ty.U? || ty.I?) && ty.n in {1, 2, 4, 8} && Spells(tok, ty.I?, x)
    requires if ty.I? then -0x8000_0000_0000_0000_0000_0000_0000_0000 <= x < 0x8000_0000_0000_0000_0000_0000_0000_0000
             else 0 <= x < 0x1_0000_0000_0000_0000_0000_0000_0000_0000
    requires Ws(lead) && Here(p.t, 0, lead + tok) && Delimited(p.t, |lead| + |tok|) && 2 * |p.t| < Pow256(8)
    modifies h, h'
    ensures i == cur == |lead| + |tok|
    ensures forall k: nat :: k < ty.n ==> CellAt(h.m, dst, k) == Lit(x / Pow256(k) % 256)
    ensures forall k: nat :: k < ty.n ==> CellAt(h'.m, dst', k) == Lit(x / Pow256(k) % 256)
  {
    hide Holds, Left, Has, Input, Binds, Reads, Sound, SoundCells, Fits, LittleEndian, Spells, Here, Delimited, Pow256;
    ghost var d, v := DNum(tok), VNum(x % Pow256(ty.n));
    NumeralReads(p.env, p.fl, ty, tok, x);
    NumeralInput(p.t, lead, tok, ty.I?, x);
    i := FromJson(p.env, p.fl, h, dst, ty, p.t, lead, d, v);
    ghost var lost;
    cur, lost := FromJsonJit(p, h', dst', ty, lead, d, 0, v);
    LittleEndianLies(h.m, dst, x, ty.n);
    LittleEndianLies(h'.m, dst', x, ty.n);
  }

  lemma {:induction false} NumeralReads(env: Cells, fl: Floats, ty: Ty, tok: seq<byte>, x: int)
    requires (ty.U? || ty.I?) && ty.n in {1, 2, 4, 8} && Spells(tok, ty.I?, x)
    requires if ty.I? then -0x8000_0000_0000_0000_0000_0000_0000_0000 <= x < 0x8000_0000_0000_0000_0000_0000_0000_0000
             else 0 <= x < 0x1_0000_0000_0000_0000_0000_0000_0000_0000
    ensures Reads(env, fl, 0, ty, DNum(tok), VNum(x % Pow256(ty.n)))
    ensures Binds(env, fl, ty, Num(tok), VNum(x % Pow256(ty.n)))
  {
    hide Integer, Spells, Pow256;
    IntegerIsSpelled(tok, ty.I?, x);
    Word128();
  }

  lemma {:induction false} Word128()
    ensures Pow256(16) == 0x1_0000_0000_0000_0000_0000_0000_0000_0000
  {
    assert Pow256(2) == 0x1_0000 && Pow256(4) == 0x1_0000_0000;
    assert Pow256(6) == 0x1_0000_0000_0000 && Pow256(8) == 0x1_0000_0000_0000_0000;
    assert Pow256(10) == 0x1_0000 * Pow256(8) && Pow256(12) == 0x1_0000 * Pow256(10);
    assert Pow256(14) == 0x1_0000 * Pow256(12) && Pow256(16) == 0x1_0000 * Pow256(14);
  }

  lemma {:induction false} NumeralInput(t: seq<byte>, lead: seq<byte>, tok: seq<byte>, signed: bool, x: int)
    requires Ws(lead) && Here(t, 0, lead + tok) && Delimited(t, |lead| + |tok|) && 2 * |t| < Pow256(8)
    requires Spells(tok, signed, x)
    ensures Input(t, lead, DNum(tok))
  {
    hide Here, Delimited, Pow256, Padded;
    var k: nat :| SpellsBy(tok, signed, x, k);
  }

  /** `true` and `false`, for a boolean: both backends leave the byte 1 or 0. */
  method BoolsArrive(p: Jit.Pctx, h: Heap, dst: Ptr, h': Heap, dst': Ptr, ghost lead: seq<byte>, ghost b: bool)
    returns (i: nat, cur: nat)
    requires h != h' && Interp.Ready(p.env, Ty.Bool, h, dst) && Interp.Ready(p.env, Ty.Bool, h', dst')
    requires Ws(lead) && Here(p.t, 0, lead + BoolToken(b)) && Delimited(p.t, |lead| + |BoolToken(b)|)
    requires 2 * |p.t| < Pow256(8)
    modifies h, h'
    ensures i == cur == |lead| + |BoolToken(b)|
    ensures CellAt(h.m, dst, 0) == CellAt(h'.m, dst', 0) == Lit(if b then 1 else 0)
  {
    hide Left, Input, Sound, SoundCells, Fits, Here, Delimited, Pow256;
    ghost var d, v := DBool(b), VBool(b);
    assert Input(p.t, lead, d) by { LiteralInput(p.t, lead, d, BoolToken(b)); }
    i := FromJson(p.env, p.fl, h, dst, Ty.Bool, p.t, lead, d, v);
    ghost var lost;
    cur, lost := FromJsonJit(p, h', dst', Ty.Bool, lead, d, 0, v);
    LeftMeans(p.env, Ty.Bool, old(h.m), h.m, dst, v, {});
    LeftMeans(p.env, Ty.Bool, old(h'.m), h'.m, dst', v, lost);
  }

  ghost function BoolToken(b: bool): seq<byte> {
    if b then Syntax.Ascii("true") else Syntax.Ascii("false")
  }

  /** `null`, for an option of anything: both backends leave the discriminant of `None`. */
  method NullsArrive(p: Jit.Pctx, h: Heap, dst: Ptr, h': Heap, dst': Ptr, ty: Ty, ghost lead: seq<byte>)
    returns (i: nat, cur: nat)
    requires h != h' && Interp.Ready(p.env, ty, h, dst) && Interp.Ready(p.env, ty, h', dst') && ty.Opt?
    requires Ws(lead) && Here(p.t, 0, lead + Syntax.Ascii("null")) && Delimited(p.t, |lead| + 4)
    requires 2 * |p.t| < Pow256(8)
    modifies h, h'
    ensures i == cur == |lead| + 4
    ensures forall k: nat :: k < ty.discSize ==>
              CellAt(h.m, Plus(dst, ty.discOff), k) == Lit(ty.noneDiscr / Pow256(k) % 256)
    ensures forall k: nat :: k < ty.discSize ==>
              CellAt(h'.m, Plus(dst', ty.discOff), k) == Lit(ty.noneDiscr / Pow256(k) % 256)
  {
    hide Left, Input, Sound, SoundCells, Fits, Here, Delimited, Pow256, Plus;
    ghost var d := DNull;
    assert Input(p.t, lead, d) by { LiteralInput(p.t, lead, d, Syntax.Ascii("null")); }
    i := FromJson(p.env, p.fl, h, dst, ty, p.t, lead, d, VNone);
    ghost var lost;
    cur, lost := FromJsonJit(p, h', dst', ty, lead, d, 0, VNone);
    LeftMeans(p.env, ty, old(h.m), h.m, dst, VNone, {});
    LeftMeans(p.env, ty, old(h'.m), h'.m, dst', VNone, lost);
  }

  lemma {:induction false} LiteralInput(t: seq<byte>, lead: seq<byte>, d: Doc, tok: seq<byte>)
    requires d.DNull? || d.DBool?
    requires tok == if d.DNull? then Syntax.Ascii("null") else BoolToken(d.b)
    requires Ws(lead) && Here(t, 0, lead + tok) && Delimited(t, |lead| + |tok|) && 2 * |t| < Pow256(8)
    ensures Input(t, lead, d) && Print(d) == tok
  {
    hide Here, Delimited, Pow256;
    Syntax.PrintIsJson(d.DBool? && d.b, [], Nil, Nil, Nil, []);
  }

  /** A text after whitespace, each character spelled in any way there is, for a string
      type: the compiled parser leaves its UTF-8, with the words that lead to it. */
  method TextsArrive(p: Jit.Pctx, h: Heap, dst: Ptr, ty: Ty, ghost lead: seq<byte>, ghost cs: seq<Scalar>,
                     ghost fs: seq<Unescape.Form>)
    returns (cur: nat)
    requires Interp.Ready(p.env, ty, h, dst) && ty.Str? && Unescape.AllAllowed(cs, fs)
    requires Ws(lead) && Here(p.t, 0, lead + TextToken(cs, fs)) && Delimited(p.t, |lead| + |TextToken(cs, fs)|)
    requires 2 * |p.t| < Pow256(8)
    modifies h
    ensures cur == |lead| + |TextToken(cs, fs)|
    ensures TextLies(h.m, dst, ty.words.ptrOff, ty.words.lenOff, EncodeAll(cs))
    ensures NumberLies(h.m, Plus(dst, ty.words.capOff), |EncodeAll(cs)|, 8)
  {
    hide Left, Input, Sound, SoundCells, Fits, Here, Delimited, Pow256, EncodeAll, TextLies, NumberLies, Decode, Wrote,
         Unescape.Pieces, TextToken;
    ghost var d, v := DStr(Unescape.Pieces(cs, fs)), VStr(EncodeAll(cs));
    TextInput(p.t, lead, cs, fs);
    ghost var lost;
    cur, lost := FromJsonJit(p, h, dst, ty, lead, d, 0, v);
    LeftMeans(p.env, ty, old(h.m), h.m, dst, v, lost);
  }

  ghost function TextToken(cs: seq<Scalar>, fs: seq<Unescape.Form>): seq<byte>
    requires Unescape.AllAllowed(cs, fs)
  {
    ['"' as int] + Unescape.Spelled(cs, fs) + ['"' as int]
  }

  lemma {:induction false} TextInput(t: seq<byte>, lead: seq<byte>, cs: seq<Scalar>, fs: seq<Unescape.Form>)
    requires Unescape.AllAllowed(cs, fs)
    requires Ws(lead) && Here(t, 0, lead + TextToken(cs, fs)) && Delimited(t, |lead| + |TextToken(cs, fs)|)
    requires 2 * |t| < Pow256(8)
    ensures var d := DStr(Unescape.Pieces(cs, fs));
            Input(t, lead, d) && Print(d) == TextToken(cs, fs) && Text(d.body) == cs
  {
    hide Here, Delimited, Pow256, Text, Body, Legal;
    Unescape.SpelledText(cs, fs);
  }
}
