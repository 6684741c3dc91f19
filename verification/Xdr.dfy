/**
 XDR (RFC 4506) over a small language of types: the data descriptions that rpcgen
 compiles into the xdr_gssx_* functions are values of type `Ty`, and encoding and
 decoding follow them field by field as the compiled functions do.

 Primitives follow sections 4.2 (unsigned int), 4.3 (enum), 4.4 (bool, only 0 and
 1), 4.5 (hyper), 4.10 (opaque, residual bytes not inspected), 4.13 (arrays), 4.14
 (structures), 4.15 (unions) and 4.19 (optional data).
 */
module Xdr {
  import opened SeqLib
  import opened Wire

  const U32 := 0x1_0000_0000

  datatype Ty =
    | UInt
    | Enum
    | Bool
    | Hyper
    | Opaque(max: nat)
    | Array(elem: Ty)
    | Optional(elem: Ty)
    | Struct(fields: seq<Ty>)
    | Union(tagA: int, armA: Ty, tagB: int, armB: Ty, other: Option<Ty>)   // two arms, maybe a default

  datatype Val =
    | VUInt(n: int)
    | VEnum(i: int)
    | VBool(b: bool)
    | VHyper(h: int)
    | VOpaque(bytes: seq<byte>)
    | VArray(elems: seq<Val>)
    | VNone
    | VSome(v: Val)
    | VStruct(vals: seq<Val>)
    | VUnion(tag: int, v: Val)

  predicate IsInt32(i: int) { -0x8000_0000 <= i < 0x8000_0000 }

  /** The arm a discriminant selects, if any. */
  function ArmOf(ty: Ty, tag: int): (arm: Option<Ty>)
    requires ty.Union?
    ensures arm.Some? ==> arm.value < ty
  {
    if tag == ty.tagA then Some(ty.armA) else if tag == ty.tagB then Some(ty.armB) else ty.other
  }

  /** The value is one the type describes, within the widths the wire can carry. */
  predicate Typed(v: Val, ty: Ty)
    decreases ty, 0, 0
  {
    match ty
    case UInt => v.VUInt? && 0 <= v.n < U32
    case Enum => v.VEnum? && IsInt32(v.i)
    case Bool => v.VBool?
    case Hyper => v.VHyper? && 0 <= v.h < U32 * U32
    case Opaque(max) => v.VOpaque? && |v.bytes| <= max && |v.bytes| < U32
    case Array(elem) => v.VArray? && |v.elems| < U32 && TypedAll(v.elems, elem)
    case Optional(elem) => v.VNone? || (v.VSome? && Typed(v.v, elem))
    case Struct(fields) => v.VStruct? && TypedFields(v.vals, fields)
    case Union(_, _, _, _, _) =>
      v.VUnion? && IsInt32(v.tag) && ArmOf(ty, v.tag).Some? && Typed(v.v, ArmOf(ty, v.tag).value)
  }

  predicate TypedAll(vs: seq<Val>, ty: Ty)
    decreases ty, 1, |vs|
  {
    vs == [] || (Typed(vs[0], ty) && TypedAll(vs[1..], ty))
  }

  predicate TypedFields(vs: seq<Val>, tys: seq<Ty>)
    decreases tys, 0, 0
  {
    if tys == [] then vs == []
    else vs != [] && Typed(vs[0], tys[0]) && TypedFields(vs[1..], tys[1..])
  }

  lemma {:induction false} FieldsByIndex(vs: seq<Val>, tys: seq<Ty>)
    ensures TypedFields(vs, tys) <==> |vs| == |tys| && forall i :: 0 <= i < |tys| ==> Typed(vs[i], tys[i])
    decreases tys
  {
    if tys != [] && vs != [] {
      FieldsByIndex(vs[1..], tys[1..]);
      if |vs| == |tys| {
        assert forall i :: 1 <= i < |tys| ==> vs[i] == vs[1..][i - 1] && tys[i] == tys[1..][i - 1];
      }
    }
  }

  // ----- encoding -----

  /** The 32-bit two's complement pattern of a signed number. */
  function Pattern(i: int): word
    requires IsInt32(i)
  {
    if i >= 0 then i else i + U32
  }

  function Signed(w: word): (i: int)
    ensures IsInt32(i)
  {
    if w < 0x8000_0000 then w else w - U32
  }

  function PadLen(n: nat): (p: nat)
    ensures (n + p) % 4 == 0 && p < 4
  {
    (4 - n % 4) % 4
  }

  function Zeros(n: nat): (r: seq<byte>)
    ensures |r| == n
  {
    seq(n, _ => 0)
  }

  function EncBool(b: bool): (r: seq<byte>) ensures |r| == 4 { Word(if b then 1 else 0) }

  function EncHyper(h: int): (r: seq<byte>)
    requires 0 <= h < U32 * U32
    ensures |r| == 8
  {
    Word(h / U32) + Word(h % U32)
  }

  function EncOpaque(bs: seq<byte>): (r: seq<byte>)
    requires |bs| < U32
    ensures |r| == 4 + |bs| + PadLen(|bs|)
  {
    Word(|bs|) + (bs + Zeros(PadLen(|bs|)))
  }

  function Enc(v: Val, ty: Ty): (r: seq<byte>)
    requires Typed(v, ty)
    decreases ty, 0, 0
  {
    match ty
    case UInt => Word(v.n)
    case Enum => Word(Pattern(v.i))
    case Bool => EncBool(v.b)
    case Hyper => EncHyper(v.h)
    case Opaque(max) => EncOpaque(v.bytes)
    case Array(elem) => Word(|v.elems|) + EncAll(v.elems, elem)
    case Optional(elem) => if v.VNone? then EncBool(false) else EncBool(true) + Enc(v.v, elem)
    case Struct(fields) => EncFields(v.vals, fields)
    case Union(_, _, _, _, _) => Word(Pattern(v.tag)) + Enc(v.v, ArmOf(ty, v.tag).value)
  }

  function EncAll(vs: seq<Val>, ty: Ty): (r: seq<byte>)
    requires TypedAll(vs, ty)
    decreases ty, 1, |vs|
  {
    if vs == [] then [] else Enc(vs[0], ty) + EncAll(vs[1..], ty)
  }

  function EncFields(vs: seq<Val>, tys: seq<Ty>): (r: seq<byte>)
    requires TypedFields(vs, tys)
    decreases tys, 0, 0
  {
    if tys == [] then [] else Enc(vs[0], tys[0]) + EncFields(vs[1..], tys[1..])
  }

  // ----- decoding -----

  datatype Decoded<+T> = Bad | Good(value: T, rest: seq<byte>)

  function DecWord(b: seq<byte>): (r: Decoded<word>)
    ensures r.Good? <==> |b| >= 4
    ensures r.Good? ==> r.rest == b[4..]
  {
    if |b| < 4 then Bad else Good(Value(b[..4]), b[4..])
  }

  function DecBool(b: seq<byte>): (r: Decoded<bool>)
    ensures r.Good? ==> |b| >= 4 && r.rest == b[4..]
  {
    match DecWord(b)
    case Bad => Bad
    case Good(w, rest) => if w == 0 then Good(false, rest) else if w == 1 then Good(true, rest) else Bad
  }

  function DecOpaque(b: seq<byte>, max: nat): (r: Decoded<seq<byte>>)
    ensures r.Good? ==> |r.value| <= max && |r.value| < U32
    ensures r.Good? ==> |b| == 4 + |r.value| + PadLen(|r.value|) + |r.rest|
    ensures r.Good? ==> r.rest == b[|b| - |r.rest|..]
  {
    match DecWord(b)
    case Bad => Bad
    case Good(n, rest) =>
      if n > max || |rest| < n + PadLen(n) then Bad
      else Good(rest[..n], rest[n + PadLen(n)..])
  }

  function Dec(b: seq<byte>, ty: Ty): (r: Decoded<Val>)
    decreases ty, 0, 0
  {
    match ty
    case UInt =>
      var w := DecWord(b);
      if w.Bad? then Bad else Good(VUInt(w.value), w.rest)
    case Enum =>
      var w := DecWord(b);
      if w.Bad? then Bad else Good(VEnum(Signed(w.value)), w.rest)
    case Bool =>
      var x := DecBool(b);
      if x.Bad? then Bad else Good(VBool(x.value), x.rest)
    case Hyper =>
      var hi := DecWord(b);
      if hi.Bad? then Bad
      else
        var lo := DecWord(hi.rest);
        if lo.Bad? then Bad else Good(VHyper(hi.value * U32 + lo.value), lo.rest)
    case Opaque(max) =>
      var x := DecOpaque(b, max);
      if x.Bad? then Bad else Good(VOpaque(x.value), x.rest)
    case Array(elem) =>
      var n := DecWord(b);
      if n.Bad? then Bad
      else
        var xs := DecAll(n.value, n.rest, elem);
        if xs.Bad? then Bad else Good(VArray(xs.value), xs.rest)
    case Optional(elem) =>
      var present := DecBool(b);
      if present.Bad? then Bad
      else if !present.value then Good(VNone, present.rest)
      else
        var x := Dec(present.rest, elem);
        if x.Bad? then Bad else Good(VSome(x.value), x.rest)
    case Struct(fields) =>
      var xs := DecFields(b, fields);
      if xs.Bad? then Bad else Good(VStruct(xs.value), xs.rest)
    case Union(_, _, _, _, _) =>
      var tag := DecWord(b);
      if tag.Bad? || ArmOf(ty, Signed(tag.value)).None? then Bad
      else
        var x := Dec(tag.rest, ArmOf(ty, Signed(tag.value)).value);
        if x.Bad? then Bad else Good(VUnion(Signed(tag.value), x.value), x.rest)
  }

  function DecAll(n: nat, b: seq<byte>, ty: Ty): (r: Decoded<seq<Val>>)
    decreases ty, 1, n
  {
    if n == 0 then Good([], b)
    else
      var x := Dec(b, ty);
      if x.Bad? then Bad
      else
        var xs := DecAll(n - 1, x.rest, ty);
        if xs.Bad? then Bad else Good([x.value] + xs.value, xs.rest)
  }

  function DecFields(b: seq<byte>, tys: seq<Ty>): (r: Decoded<seq<Val>>)
    decreases tys, 0, 0
  {
    if tys == [] then Good([], b)
    else
      var x := Dec(b, tys[0]);
      if x.Bad? then Bad
      else
        var xs := DecFields(x.rest, tys[1..]);
        if xs.Bad? then Bad else Good([x.value] + xs.value, xs.rest)
  }

  // ----- round trips -----

  lemma {:induction false} WordRoundTrip(w: word, tail: seq<byte>)
    ensures DecWord(Word(w) + tail) == Good(w, tail)
  {
    WordValue(w);
    assert (Word(w) + tail)[..4] == Word(w) && (Word(w) + tail)[4..] == tail;
  }

  lemma {:induction false} BoolRoundTrip(b: bool, tail: seq<byte>)
    ensures DecBool(EncBool(b) + tail) == Good(b, tail)
  {
    WordRoundTrip(if b then 1 else 0, tail);
  }

  lemma {:induction false} HyperRoundTrip(h: int, tail: seq<byte>)
    requires 0 <= h < U32 * U32
    ensures Dec(EncHyper(h) + tail, Hyper) == Good(VHyper(h), tail)
  {
    WordRoundTrip(h / U32, Word(h % U32) + tail);
    WordRoundTrip(h % U32, tail);
    assert EncHyper(h) + tail == Word(h / U32) + (Word(h % U32) + tail);
  }

  /** `b` spells `v`: it is the encoding, but for the padding of opaque data, which may be any bytes. */
  predicate Spells(b: seq<byte>, v: Val, ty: Ty)
    requires Typed(v, ty)
    decreases ty, 0, 0
  {
    match ty
    case Opaque(_) =>
      |b| == |EncOpaque(v.bytes)| && b[..4 + |v.bytes|] == Word(|v.bytes|) + v.bytes
    case Array(elem) => |b| >= 4 && b[..4] == Word(|v.elems|) && SpellsAll(b[4..], v.elems, elem)
    case Optional(elem) =>
      if v.VNone? then b == EncBool(false)
      else |b| >= 4 && b[..4] == EncBool(true) && Spells(b[4..], v.v, elem)
    case Struct(fields) => SpellsFields(b, v.vals, fields)
    case Union(_, _, _, _, _) =>
      |b| >= 4 && b[..4] == Word(Pattern(v.tag)) && Spells(b[4..], v.v, ArmOf(ty, v.tag).value)
    case _ => b == Enc(v, ty)
  }

  predicate SpellsAll(b: seq<byte>, vs: seq<Val>, ty: Ty)
    requires TypedAll(vs, ty)
    decreases ty, 1, |vs|
  {
    if vs == [] then b == []
    else
      var n := |Enc(vs[0], ty)|;
      n <= |b| && Spells(b[..n], vs[0], ty) && SpellsAll(b[n..], vs[1..], ty)
  }

  predicate SpellsFields(b: seq<byte>, vs: seq<Val>, tys: seq<Ty>)
    requires TypedFields(vs, tys)
    decreases tys, 0, 0
  {
    if tys == [] then b == []
    else
      var n := |Enc(vs[0], tys[0])|;
      n <= |b| && Spells(b[..n], vs[0], tys[0]) && SpellsFields(b[n..], vs[1..], tys[1..])
  }

  lemma {:induction false} OpaqueDecodes(b: seq<byte>, bs: seq<byte>, max: nat, tail: seq<byte>)
    requires |bs| <= max && |bs| < U32
    requires |b| == |EncOpaque(bs)| && b[..4 + |bs|] == Word(|bs|) + bs
    ensures DecOpaque(b + tail, max) == Good(bs, tail)
  {
    var rest := (b + tail)[4..];
    WordValue(|bs|);
    assert (b + tail)[..4] == b[..4 + |bs|][..4] == Word(|bs|);
    assert rest[..|bs|] == b[..4 + |bs|][4..] == bs;
    assert rest[|bs| + PadLen(|bs|)..] == tail;
  }

  lemma {:induction false} Cut(b: seq<byte>, n: nat, tail: seq<byte>)
    requires n <= |b|
    ensures b + tail == b[..n] + (b[n..] + tail)
  {
  }

  /** Whatever spells a value decodes to it, and leaves exactly what followed. */
  lemma {:induction false} SpelledDecodes(b: seq<byte>, v: Val, ty: Ty, tail: seq<byte>)
    requires Typed(v, ty) && Spells(b, v, ty)
    ensures Dec(b + tail, ty) == Good(v, tail)
    decreases ty, 0, 0
  {
    match ty
    case UInt => WordRoundTrip(v.n, tail);
    case Enum => WordRoundTrip(Pattern(v.i), tail);
    case Bool => BoolRoundTrip(v.b, tail);
    case Hyper => HyperRoundTrip(v.h, tail);
    case Opaque(max) => OpaqueDecodes(b, v.bytes, max, tail);
    case Array(elem) =>
      SpelledAllDecodes(b[4..], v.elems, elem, tail);
      ArrayStep(v.elems, elem, b[4..], tail);
      assert b == b[..4] + b[4..];
    case Optional(elem) =>
      if v.VNone? {
        BoolRoundTrip(false, tail);
      } else {
        SpelledDecodes(b[4..], v.v, elem, tail);
        OptionalStep(v.v, elem, b[4..], tail);
        assert b == b[..4] + b[4..];
      }
    case Struct(fields) => SpelledFieldsDecode(b, v.vals, fields, tail);
    case Union(_, _, _, _, _) =>
      SpelledDecodes(b[4..], v.v, ArmOf(ty, v.tag).value, tail);
      UnionStep(v.tag, v.v, ty, b[4..], tail);
      assert b == b[..4] + b[4..];
  }

  lemma {:induction false} SpelledAllDecodes(b: seq<byte>, vs: seq<Val>, ty: Ty, tail: seq<byte>)
    requires TypedAll(vs, ty) && SpellsAll(b, vs, ty)
    ensures DecAll(|vs|, b + tail, ty) == Good(vs, tail)
    decreases ty, 1, |vs|
  {
    if vs == [] {
      assert b + tail == tail;
    } else {
      var n := |Enc(vs[0], ty)|;
      var later := b[n..] + tail;
      Cut(b, n, tail);
      SpelledDecodes(b[..n], vs[0], ty, later);
      SpelledAllDecodes(b[n..], vs[1..], ty, tail);
      DecAllStep(vs, b + tail, ty, later, tail);
    }
  }

  lemma {:induction false} SpelledFieldsDecode(b: seq<byte>, vs: seq<Val>, tys: seq<Ty>, tail: seq<byte>)
    requires TypedFields(vs, tys) && SpellsFields(b, vs, tys)
    ensures DecFields(b + tail, tys) == Good(vs, tail)
    decreases tys, 0, 0
  {
    if tys == [] {
      assert b + tail == tail;
    } else {
      var n := |Enc(vs[0], tys[0])|;
      Cut(b, n, tail);
      SpelledDecodes(b[..n], vs[0], tys[0], b[n..] + tail);
      SpelledFieldsDecode(b[n..], vs[1..], tys[1..], tail);
      assert [vs[0]] + vs[1..] == vs;
    }
  }

  lemma {:induction false} ArrayStep(vs: seq<Val>, elem: Ty, body: seq<byte>, tail: seq<byte>)
    requires |vs| < U32 && DecAll(|vs|, body + tail, elem) == Good(vs, tail)
    ensures Dec(Word(|vs|) + body + tail, Array(elem)) == Good(VArray(vs), tail)
  {
    Assoc(Word(|vs|), body, tail);
    WordRoundTrip(|vs|, body + tail);
  }

  lemma {:induction false} OptionalStep(v: Val, elem: Ty, body: seq<byte>, tail: seq<byte>)
    requires Dec(body + tail, elem) == Good(v, tail)
    ensures Dec(EncBool(true) + body + tail, Optional(elem)) == Good(VSome(v), tail)
  {
    Assoc(EncBool(true), body, tail);
    BoolRoundTrip(true, body + tail);
  }

  lemma {:induction false} UnionStep(tag: int, v: Val, ty: Ty, body: seq<byte>, tail: seq<byte>)
    requires ty.Union? && IsInt32(tag) && ArmOf(ty, tag).Some?
            && Dec(body + tail, ArmOf(ty, tag).value) == Good(v, tail)
    ensures Dec(Word(Pattern(tag)) + body + tail, ty) == Good(VUnion(tag, v), tail)
  {
    Assoc(Word(Pattern(tag)), body, tail);
    WordRoundTrip(Pattern(tag), body + tail);
  }

  lemma {:induction false} Assoc(a: seq<byte>, b: seq<byte>, c: seq<byte>)
    ensures (a + b) + c == a + (b + c)
  {
  }

  lemma {:induction false} DecAllStep(vs: seq<Val>, b: seq<byte>, ty: Ty, later: seq<byte>, tail: seq<byte>)
    requires vs != [] && Dec(b, ty) == Good(vs[0], later) && DecAll(|vs| - 1, later, ty) == Good(vs[1..], tail)
    ensures DecAll(|vs|, b, ty) == Good(vs, tail)
  {
    assert [vs[0]] + vs[1..] == vs;
  }

  lemma {:induction false} EncSpells(v: Val, ty: Ty)
    requires Typed(v, ty)
    ensures Spells(Enc(v, ty), v, ty)
    decreases ty, 0, 0
  {
    var b := Enc(v, ty);
    match ty
    case Opaque(_) => assert b[..4 + |v.bytes|] == Word(|v.bytes|) + v.bytes;
    case Array(elem) =>
      EncAllSpells(v.elems, elem);
      assert b[..4] == Word(|v.elems|) && b[4..] == EncAll(v.elems, elem);
    case Optional(elem) =>
      if v.VSome? {
        EncSpells(v.v, elem);
        assert b[..4] == EncBool(true) && b[4..] == Enc(v.v, elem);
      }
    case Struct(fields) => EncFieldsSpells(v.vals, fields);
    case Union(_, _, _, _, _) =>
      var arm := ArmOf(ty, v.tag).value;
      EncSpells(v.v, arm);
      assert b[..4] == Word(Pattern(v.tag)) && b[4..] == Enc(v.v, arm);
    case _ =>
  }

  lemma {:induction false} EncAllSpells(vs: seq<Val>, ty: Ty)
    requires TypedAll(vs, ty)
    ensures SpellsAll(EncAll(vs, ty), vs, ty)
    decreases ty, 1, |vs|
  {
    if vs != [] {
      var b, n := EncAll(vs, ty), |Enc(vs[0], ty)|;
      EncSpells(vs[0], ty);
      EncAllSpells(vs[1..], ty);
      assert b[..n] == Enc(vs[0], ty) && b[n..] == EncAll(vs[1..], ty);
    }
  }

  lemma {:induction false} EncFieldsSpells(vs: seq<Val>, tys: seq<Ty>)
    requires TypedFields(vs, tys)
    ensures SpellsFields(EncFields(vs, tys), vs, tys)
    decreases tys, 0, 0
  {
    if tys != [] {
      var b, n := EncFields(vs, tys), |Enc(vs[0], tys[0])|;
      EncSpells(vs[0], tys[0]);
      EncFieldsSpells(vs[1..], tys[1..]);
      assert b[..n] == Enc(vs[0], tys[0]) && b[n..] == EncFields(vs[1..], tys[1..]);
    }
  }

  /** Decoding an encoding followed by anything gives the value back and leaves exactly what followed. */
  lemma {:induction false} RoundTrip(v: Val, ty: Ty, tail: seq<byte>)
    requires Typed(v, ty)
    ensures Dec(Enc(v, ty) + tail, ty) == Good(v, tail)
  {
    EncSpells(v, ty);
    SpelledDecodes(Enc(v, ty), v, ty, tail);
  }

  /** Encodings are injective, and no encoding is a proper prefix of another of the same type. */
  lemma {:induction false} Injective(v: Val, w: Val, ty: Ty, s: seq<byte>, t: seq<byte>)
    requires Typed(v, ty) && Typed(w, ty) && Enc(v, ty) + s == Enc(w, ty) + t
    ensures v == w && s == t
  {
    RoundTrip(v, ty, s);
    RoundTrip(w, ty, t);
  }

  lemma {:induction false} UnitsAdd(a: nat, b: nat)
    requires a % 4 == 0 && b % 4 == 0
    ensures (a + b) % 4 == 0
  {
  }

  lemma {:induction false} OpaqueAligned(bs: seq<byte>)
    requires |bs| < U32
    ensures |EncOpaque(bs)| % 4 == 0
  {
    UnitsAdd(4, |bs| + PadLen(|bs|));
  }

  /** Encodings are made of whole XDR units. */
  lemma {:induction false} Aligned(v: Val, ty: Ty)
    requires Typed(v, ty)
    ensures |Enc(v, ty)| % 4 == 0
    decreases ty, 0, 0
  {
    match ty
    case Opaque(max) => OpaqueAligned(v.bytes);
    case Array(elem) =>
      AlignedAll(v.elems, elem);
      UnitsAdd(4, |EncAll(v.elems, elem)|);
    case Optional(elem) =>
      if v.VSome? {
        Aligned(v.v, elem);
        UnitsAdd(4, |Enc(v.v, elem)|);
      }
    case Struct(fields) => AlignedFields(v.vals, fields);
    case Union(_, _, _, _, _) =>
      Aligned(v.v, ArmOf(ty, v.tag).value);
      UnitsAdd(4, |Enc(v.v, ArmOf(ty, v.tag).value)|);
    case _ =>
  }

  lemma {:induction false} AlignedAll(vs: seq<Val>, ty: Ty)
    requires TypedAll(vs, ty)
    ensures |EncAll(vs, ty)| % 4 == 0
    decreases ty, 1, |vs|
  {
    if vs != [] {
      Aligned(vs[0], ty);
      AlignedAll(vs[1..], ty);
      UnitsAdd(|Enc(vs[0], ty)|, |EncAll(vs[1..], ty)|);
    }
  }

  lemma {:induction false} AlignedFields(vs: seq<Val>, tys: seq<Ty>)
    requires TypedFields(vs, tys)
    ensures |EncFields(vs, tys)| % 4 == 0
    decreases tys, 0, 0
  {
    if tys != [] {
      Aligned(vs[0], tys[0]);
      AlignedFields(vs[1..], tys[1..]);
      UnitsAdd(|Enc(vs[0], tys[0])|, |EncFields(vs[1..], tys[1..])|);
    }
  }

  /** What `r` took off `b` has the length of the re-encoding, and what it left is what followed. */
  predicate Took(b: seq<byte>, rest: seq<byte>, n: nat) { |b| == n + |rest| && rest == b[n..] }

  lemma {:induction false} TookBoth(b: seq<byte>, mid: seq<byte>, rest: seq<byte>, n: nat, m: nat)
    requires Took(b, mid, n) && Took(mid, rest, m)
    ensures Took(b, rest, n + m)
  {
  }

  /** Whatever the input, a value that decodes is well formed, and the bytes it took are as many as it encodes to. */
  lemma {:induction false} DecSound(b: seq<byte>, ty: Ty)
    ensures var r := Dec(b, ty); r.Good? ==> Typed(r.value, ty) && Took(b, r.rest, |Enc(r.value, ty)|)
    decreases ty, 0, 0
  {
    var r := Dec(b, ty);
    if r.Good? {
      match ty
      case Array(elem) =>
        var n := DecWord(b);
        DecAllSound(n.value, n.rest, elem);
        TookBoth(b, n.rest, r.rest, 4, |EncAll(r.value.elems, elem)|);
      case Optional(elem) =>
        var present := DecBool(b);
        if present.value {
          DecSound(present.rest, elem);
          TookBoth(b, present.rest, r.rest, 4, |Enc(r.value.v, elem)|);
        }
      case Struct(fields) => DecFieldsSound(b, fields);
      case Union(_, _, _, _, _) =>
        var tag := DecWord(b);
        var arm := ArmOf(ty, Signed(tag.value)).value;
        DecSound(tag.rest, arm);
        TookBoth(b, tag.rest, r.rest, 4, |Enc(r.value.v, arm)|);
      case _ =>
    }
  }

  lemma {:induction false} AllCons(x: Val, xs: seq<Val>, ty: Ty)
    requires Typed(x, ty) && TypedAll(xs, ty)
    ensures TypedAll([x] + xs, ty) && |EncAll([x] + xs, ty)| == |Enc(x, ty)| + |EncAll(xs, ty)|
  {
    assert ([x] + xs)[1..] == xs;
  }

  lemma {:induction false} FieldsCons(x: Val, xs: seq<Val>, tys: seq<Ty>)
    requires tys != [] && Typed(x, tys[0]) && TypedFields(xs, tys[1..])
    ensures TypedFields([x] + xs, tys) && |EncFields([x] + xs, tys)| == |Enc(x, tys[0])| + |EncFields(xs, tys[1..])|
  {
    assert ([x] + xs)[1..] == xs;
  }

  lemma {:induction false} DecAllSound(n: nat, b: seq<byte>, ty: Ty)
    ensures var r := DecAll(n, b, ty);
      r.Good? ==> |r.value| == n && TypedAll(r.value, ty) && Took(b, r.rest, |EncAll(r.value, ty)|)
    decreases ty, 1, n
  {
    if n > 0 {
      DecSound(b, ty);
      var x := Dec(b, ty);
      if x.Good? {
        DecAllSound(n - 1, x.rest, ty);
        var xs := DecAll(n - 1, x.rest, ty);
        if xs.Good? {
          AllCons(x.value, xs.value, ty);
          TookBoth(b, x.rest, xs.rest, |Enc(x.value, ty)|, |EncAll(xs.value, ty)|);
        }
      }
    }
  }

  lemma {:induction false} DecFieldsSound(b: seq<byte>, tys: seq<Ty>)
    ensures var r := DecFields(b, tys);
      r.Good? ==> TypedFields(r.value, tys) && Took(b, r.rest, |EncFields(r.value, tys)|)
    decreases tys, 0, 0
  {
    if tys != [] {
      DecSound(b, tys[0]);
      var x := Dec(b, tys[0]);
      if x.Good? {
        DecFieldsSound(x.rest, tys[1..]);
        var xs := DecFields(x.rest, tys[1..]);
        if xs.Good? {
          FieldsCons(x.value, xs.value, tys);
          TookBoth(b, x.rest, xs.rest, |Enc(x.value, tys[0])|, |EncFields(xs.value, tys[1..])|);
        }
      }
    }
  }

  predicate SpellsFront(b: seq<byte>, v: Val, ty: Ty)
    requires Typed(v, ty)
  {
    |Enc(v, ty)| <= |b| && Spells(b[..|Enc(v, ty)|], v, ty)
  }

  predicate SpellsAllFront(b: seq<byte>, vs: seq<Val>, ty: Ty)
    requires TypedAll(vs, ty)
  {
    |EncAll(vs, ty)| <= |b| && SpellsAll(b[..|EncAll(vs, ty)|], vs, ty)
  }

  lemma {:induction false} ArraySpells(b: seq<byte>, vs: seq<Val>, elem: Ty)
    requires |b| >= 4 && Value(b[..4]) == |vs| && TypedAll(vs, elem) && SpellsAllFront(b[4..], vs, elem)
    ensures Typed(VArray(vs), Array(elem)) && SpellsFront(b, VArray(vs), Array(elem))
  {
    FirstWord(b, 4 + |EncAll(vs, elem)|);
  }

  lemma {:induction false} SomeSpells(b: seq<byte>, v: Val, elem: Ty)
    requires |b| >= 4 && Value(b[..4]) == 1 && Typed(v, elem) && SpellsFront(b[4..], v, elem)
    ensures Typed(VSome(v), Optional(elem)) && SpellsFront(b, VSome(v), Optional(elem))
  {
    FirstWord(b, 4 + |Enc(v, elem)|);
  }

  lemma {:induction false} ArmSpells(b: seq<byte>, v: Val, ty: Ty)
    requires |b| >= 4 && ty.Union? && Typed(v, ty) && Signed(Value(b[..4])) == v.tag
    requires SpellsFront(b[4..], v.v, ArmOf(ty, v.tag).value)
    ensures SpellsFront(b, v, ty)
  {
    FirstWord(b, 4 + |Enc(v.v, ArmOf(ty, v.tag).value)|);
  }

  lemma {:induction false} PlainSpells(b: seq<byte>, ty: Ty)
    requires (ty.UInt? || ty.Enum? || ty.Bool?) && Dec(b, ty).Good?
    ensures Typed(Dec(b, ty).value, ty) && SpellsFront(b, Dec(b, ty).value, ty)
  {
    FirstWord(b, 4);
    assert b[..4] == Word(Value(b[..4]));
  }

  /** What decoding took off the front of the input spells the value it gave. */
  lemma {:induction false} DecSpells(b: seq<byte>, ty: Ty)
    requires Dec(b, ty).Good?
    ensures Typed(Dec(b, ty).value, ty) && SpellsFront(b, Dec(b, ty).value, ty)
    decreases ty, 0, 0
  {
    var r := Dec(b, ty);
    match ty
    case Hyper => HyperSpells(b);
    case Opaque(max) => OpaqueSpells(b, max);
    case Array(elem) =>
      DecAllSpells(Value(b[..4]), b[4..], elem);
      ArraySpells(b, r.value.elems, elem);
    case Optional(elem) =>
      if r.value.VSome? {
        DecSpells(b[4..], elem);
        SomeSpells(b, r.value.v, elem);
      } else {
        FirstWord(b, 4);
      }
    case Struct(fields) => DecFieldsSpells(b, fields);
    case Union(_, _, _, _, _) =>
      DecSpells(b[4..], ArmOf(ty, r.value.tag).value);
      ArmSpells(b, r.value, ty);
    case _ => PlainSpells(b, ty);
  }

  lemma {:induction false} FirstWord(b: seq<byte>, n: nat)
    requires 4 <= n <= |b|
    ensures b[..n][..4] == Word(Value(b[..4])) && b[..n][4..] == b[4..][..n - 4]
    ensures Pattern(Signed(Value(b[..4]))) == Value(b[..4])
  {
    ValueWord(b[..4]);
  }

  lemma {:induction false} HyperSpells(b: seq<byte>)
    requires |b| >= 8
    ensures Dec(b, Hyper).value == VHyper(Value(b[..4]) * U32 + Value(b[4..8]))
    ensures b[..8] == Enc(Dec(b, Hyper).value, Hyper)
  {
    var hi, lo := Value(b[..4]), Value(b[4..8]);
    assert b[4..][..4] == b[4..8];
    ValueWord(b[..4]);
    ValueWord(b[4..8]);
    assert (hi * U32 + lo) / U32 == hi && (hi * U32 + lo) % U32 == lo;
    assert b[..8] == b[..4] + b[4..8];
  }

  lemma {:induction false} OpaqueSpells(b: seq<byte>, max: nat)
    requires DecOpaque(b, max).Good?
    ensures var bs := DecOpaque(b, max).value; b[..4 + |bs|] == Word(|bs|) + bs
  {
    var bs := DecOpaque(b, max).value;
    ValueWord(b[..4]);
    assert b[..4 + |bs|] == b[..4] + b[4..][..|bs|];
  }

  lemma {:induction false} Resliced(b: seq<byte>, n: nat, m: nat)
    requires n + m <= |b|
    ensures b[..n + m][..n] == b[..n] && b[..n + m][n..] == b[n..][..m]
  {
  }

  lemma {:induction false} SpellsCons(b: seq<byte>, x: Val, xs: seq<Val>, ty: Ty)
    requires Typed(x, ty) && TypedAll(xs, ty) && SpellsFront(b, x, ty) && SpellsAllFront(b[|Enc(x, ty)|..], xs, ty)
    ensures TypedAll([x] + xs, ty) && SpellsAllFront(b, [x] + xs, ty)
  {
    AllCons(x, xs, ty);
    assert ([x] + xs)[1..] == xs;
    Resliced(b, |Enc(x, ty)|, |EncAll(xs, ty)|);
  }

  lemma {:induction false} DecAllSpells(n: nat, b: seq<byte>, ty: Ty)
    requires DecAll(n, b, ty).Good?
    ensures var vs := DecAll(n, b, ty).value; |vs| == n && TypedAll(vs, ty) && SpellsAllFront(b, vs, ty)
    decreases ty, 1, n
  {
    if n > 0 {
      var x := Dec(b, ty);
      DecSound(b, ty);
      DecSpells(b, ty);
      DecAllSpells(n - 1, x.rest, ty);
      SpellsCons(b, x.value, DecAll(n - 1, x.rest, ty).value, ty);
    }
  }

  lemma {:induction false} DecFieldsSpells(b: seq<byte>, tys: seq<Ty>)
    requires DecFields(b, tys).Good?
    ensures var vs := DecFields(b, tys).value;
      && TypedFields(vs, tys) && |EncFields(vs, tys)| <= |b| && SpellsFields(b[..|EncFields(vs, tys)|], vs, tys)
    decreases tys, 0, 0
  {
    if tys != [] {
      var x := Dec(b, tys[0]);
      var xs := DecFields(x.rest, tys[1..]);
      DecSound(b, tys[0]);
      DecSpells(b, tys[0]);
      DecFieldsSpells(x.rest, tys[1..]);
      FieldsCons(x.value, xs.value, tys);
      assert ([x.value] + xs.value)[1..] == xs.value;
      Resliced(b, |Enc(x.value, tys[0])|, |EncFields(xs.value, tys[1..])|);
    }
  }

  /** `b` spells `v` up to `rest`. */
  predicate SpellsUpTo(b: seq<byte>, v: Val, ty: Ty, rest: seq<byte>) {
    Typed(v, ty) && |rest| <= |b| && b[|b| - |rest|..] == rest && Spells(b[..|b| - |rest|], v, ty)
  }

  /** Exactly what decodes: an input gives a value and a rest if and only if it spells the value up to the rest. */
  lemma {:induction false} DecExact(b: seq<byte>, ty: Ty, v: Val, rest: seq<byte>)
    ensures Dec(b, ty) == Good(v, rest) <==> SpellsUpTo(b, v, ty, rest)
  {
    if Dec(b, ty) == Good(v, rest) {
      DecSound(b, ty);
      DecSpells(b, ty);
    }
    if SpellsUpTo(b, v, ty, rest) {
      assert b == b[..|b| - |rest|] + rest;
      SpelledDecodes(b[..|b| - |rest|], v, ty, rest);
    }
  }

  /** A spelling is as long as the encoding. */
  lemma {:induction false} SpellsLength(b: seq<byte>, v: Val, ty: Ty)
    requires Typed(v, ty) && Spells(b, v, ty)
    ensures |b| == |Enc(v, ty)|
  {
    SpelledDecodes(b, v, ty, []);
    assert b + [] == b;
    DecSound(b, ty);
  }

  // ----- the bytes -----

  /** Numbers of 64 bits are ordered as their encodings are. */
  lemma {:induction false} HyperOrder(h: int, k: int)
    requires 0 <= h < U32 * U32 && 0 <= k < U32 * U32
    ensures h < k <==> Before(Enc(VHyper(h), Hyper), Enc(VHyper(k), Hyper))
  {
    WordOrder(h / U32, k / U32);
    WordOrder(h % U32, k % U32);
    WordValue(h / U32);
    WordValue(k / U32);
    BeforeConcat(Word(h / U32), Word(h % U32), Word(k / U32), Word(k % U32));
    assert h == h / U32 * U32 + h % U32 && k == k / U32 * U32 + k % U32;
  }

  /** Sections 4.2 to 4.5 and 4.10 of RFC 4506 in bytes. */
  lemma {:induction false} PrimitiveBytes()
    ensures Enc(VUInt(0x0102_0304), UInt) == [1, 2, 3, 4]
    ensures Enc(VEnum(1), Enum) == [0, 0, 0, 1] && Enc(VEnum(-2), Enum) == [255, 255, 255, 254]
    ensures Enc(VBool(false), Bool) == [0, 0, 0, 0] && Enc(VBool(true), Bool) == [0, 0, 0, 1]
    ensures Enc(VHyper(0x0102_0304_0506_0708), Hyper) == [1, 2, 3, 4, 5, 6, 7, 8]
    ensures Enc(VOpaque([7, 8, 9, 10, 11]), Opaque(5)) == [0, 0, 0, 5, 7, 8, 9, 10, 11, 0, 0, 0]
  {
    assert Zeros(3) == [0, 0, 0];
  }

  /** Sections 4.15 and 4.19: a discriminant or a presence flag, and what it announces. */
  lemma {:induction false} TaggedBytes(v: Val, ty: Ty, other: Ty)
    requires Typed(v, ty)
    ensures Typed(VNone, Optional(ty)) && Enc(VNone, Optional(ty)) == [0, 0, 0, 0]
    ensures Typed(VSome(v), Optional(ty)) && Enc(VSome(v), Optional(ty)) == [0, 0, 0, 1] + Enc(v, ty)
    ensures var arms := Union(0, other, 1, other, Some(ty));
            Typed(VUnion(7, v), arms) && Enc(VUnion(7, v), arms) == [0, 0, 0, 7] + Enc(v, ty)
  {
  }

  /** Section 4.14: fields one after the other... */
  lemma {:induction false} StructBytes(u: Val, v: Val, tu: Ty, tv: Ty)
    requires Typed(u, tu) && Typed(v, tv)
    ensures var ty := Struct([tu, tv]);
            Typed(VStruct([u, v]), ty) && Enc(VStruct([u, v]), ty) == Enc(u, tu) + Enc(v, tv)
  {
    assert [u, v][1..] == [v] && [v][1..] == [] && [tu, tv][1..] == [tv] && [tv][1..] == [];
    assert TypedFields([v], [tv]);
    assert EncFields([v], [tv]) == Enc(v, tv) + EncFields([], []) == Enc(v, tv);
  }

  /** ...and section 4.13: elements too, behind their number. */
  lemma {:induction false} ArrayBytes(u: Val, v: Val, ty: Ty)
    requires Typed(u, ty) && Typed(v, ty)
    ensures Typed(VArray([u, v]), Array(ty))
    ensures Enc(VArray([u, v]), Array(ty)) == [0, 0, 0, 2] + (Enc(u, ty) + Enc(v, ty))
  {
    assert [u, v][1..] == [v] && [v][1..] == [];
    assert TypedAll([v], ty);
    assert EncAll([v], ty) == Enc(v, ty) + EncAll([], ty) == Enc(v, ty);
  }
}
