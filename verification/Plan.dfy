/** `plan.rs`: the layout of a type, with back-edges for recursive ones. */
module Plan {
  import opened Containers
  import opened Bytes

  datatype SeqLayout = SeqLayout(ptrOff: nat, capOff: nat, lenOff: nat)

  datatype Ty =
    | Bool
    | Char
    | U(n: nat)
    | I(n: nat)
    | F32
    | F64
    | Struct(name: string, fields: seq<FieldTy>)
    | Tuple(fields: seq<FieldTy>)
    | Str(words: SeqLayout)
    | Vec(elem: Ty, elemSize: nat, elemAlign: nat, words: SeqLayout)
    | StrRef(ptrOff: nat, lenOff: nat)
    | Unit
    | Boxed(inner: Ty, size: nat, align: nat)
    | Opt(discOff: nat, discSize: nat, noneDiscr: nat, someDiscr: Option<nat>, payloadOff: nat,
          size: nat, inner: Ty)
    | Map(key: Ty, val: Ty)
    | Ref(cell: nat)
    | Unknown(what: string)

  datatype FieldTy = FieldTy(name: seq<byte>, offset: nat, ty: Ty)

  /** The body a recursive cell was tied to. The size of the Rust type is what keeps an
      inline back-edge finite; the plan does not record it. */
  datatype RecBody = RecBody(ty: Ty, size: nat)

  type Cells = map<nat, RecBody>

  function Max(a: nat, b: nat): nat { if a < b then b else a }

  function SeqEnd(w: SeqLayout): nat { Max(w.ptrOff, Max(w.capOff, w.lenOff)) + 8 }

  /** How far a value of the type reaches from its address. */
  function Size(env: Cells, ty: Ty): nat {
    match ty
    case Bool => 1
    case Char => 4
    case U(n) => n
    case I(n) => n
    case F32 => 4
    case F64 => 8
    case Struct(_, fields) => RowSize(env, fields)
    case Tuple(fields) => RowSize(env, fields)
    case Str(w) => SeqEnd(w)
    case Vec(_, _, _, w) => SeqEnd(w)
    case StrRef(p, l) => Max(p, l) + 8
    case Unit => 0
    case Boxed(_, _, _) => 8
    case Opt(d, ds, _, _, p, size, inner) => Max(size, Max(d + ds, p + Size(env, inner)))
    case Map(_, _) => 0
    case Ref(c) => if c in env then env[c].size else 0
    case Unknown(_) => 0
  }

  function RowSize(env: Cells, fields: seq<FieldTy>): (n: nat)
    ensures forall i :: 0 <= i < |fields| ==> fields[i].offset + Size(env, fields[i].ty) <= n
  {
    if fields == [] then 0
    else
      var f := fields[0];
      var rest := RowSize(env, fields[1..]);
      assert forall i :: 1 <= i < |fields| ==> fields[i] == fields[1..][i - 1];
      Max(f.offset + Size(env, f.ty), rest)
  }

  /** A row reaches exactly as far as the field that reaches furthest. */
  lemma {:induction false} RowSizeReached(env: Cells, fields: seq<FieldTy>)
    ensures RowSize(env, fields) > 0 ==>
              exists i :: 0 <= i < |fields| && fields[i].offset + Size(env, fields[i].ty) == RowSize(env, fields)
  {
    hide Size;
    if fields != [] && RowSize(env, fields[1..]) == RowSize(env, fields) > 0 {
      RowSizeReached(env, fields[1..]);
      var i :| 0 <= i < |fields| - 1 && fields[1..][i].offset + Size(env, fields[1..][i].ty) == RowSize(env, fields);
      assert fields[1..][i] == fields[i + 1];
    }
  }

  /** And every other type as far as the furthest of what is written of it. */
  lemma {:induction false} SizeReached(env: Cells, ty: Ty)
    ensures ty.Str? || ty.Vec? ==>
              var w, n := ty.words, Size(env, ty);
              && n in {w.ptrOff + 8, w.capOff + 8, w.lenOff + 8}
              && w.ptrOff + 8 <= n && w.capOff + 8 <= n && w.lenOff + 8 <= n
    ensures ty.StrRef? ==>
              var n := Size(env, ty);
              n in {ty.ptrOff + 8, ty.lenOff + 8} && ty.ptrOff + 8 <= n && ty.lenOff + 8 <= n
    ensures ty.Opt? ==>
              var n, tag, payload := Size(env, ty), ty.discOff + ty.discSize, ty.payloadOff + Size(env, ty.inner);
              n in {ty.size, tag, payload} && ty.size <= n && tag <= n && payload <= n
    ensures ty.U? || ty.I? ==> Size(env, ty) == ty.n
    ensures Size(env, Bool) == 1 && Size(env, Char) == Size(env, F32) == 4 && Size(env, F64) == 8
    ensures Size(env, Unit) == 0 && (ty.Boxed? ==> Size(env, ty) == 8)
  {}

  // ---- The types a type is made of ----------------------------------------------------

  function FieldTypes(fs: seq<FieldTy>): seq<Ty> {
    seq(|fs|, i requires 0 <= i < |fs| => fs[i].ty)
  }

  function Parts(ty: Ty): (ps: seq<Ty>)
    ensures forall i :: 0 <= i < |ps| ==> ps[i] < ty
  {
    match ty
    case Struct(_, fs) => FieldTypes(fs)
    case Tuple(fs) => FieldTypes(fs)
    case Vec(elem, _, _, _) => [elem]
    case Boxed(inner, _, _) => [inner]
    case Opt(_, _, _, _, _, _, inner) => [inner]
    case Map(key, val) => [key, val]
    case _ => []
  }

  function Retyped(fs: seq<FieldTy>, ps: seq<Ty>): seq<FieldTy>
    requires |ps| == |fs|
  {
    seq(|fs|, i requires 0 <= i < |fs| => FieldTy(fs[i].name, fs[i].offset, ps[i]))
  }

  /** The type with other parts in place of its own. */
  function With(ty: Ty, ps: seq<Ty>): (r: Ty)
    requires |ps| == |Parts(ty)|
    ensures r.Ref? <==> ty.Ref?
  {
    match ty
    case Struct(name, fs) => Struct(name, Retyped(fs, ps))
    case Tuple(fs) => Tuple(Retyped(fs, ps))
    case Vec(_, size, align, words) => Vec(ps[0], size, align, words)
    case Boxed(_, size, align) => Boxed(ps[0], size, align)
    case Opt(d, ds, none, some, p, size, _) => Opt(d, ds, none, some, p, size, ps[0])
    case Map(_, _) => Map(ps[0], ps[1])
    case _ => ty
  }

  /** The cells a type refers to, not looking into their bodies. */
  function Refs(ty: Ty): set<nat> {
    if ty.Ref? then {ty.cell}
    else set i, c | 0 <= i < |Parts(ty)| && c in Refs(Parts(ty)[i]) :: c
  }
}
