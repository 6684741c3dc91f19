/**
 The memory stream that XDR routines encode into: a fixed buffer and a cursor.
 Every routine is proved to succeed exactly when what it has to write fits, and
 then to have appended exactly the encoding of section 4 of RFC 4506.
 */
module XdrMem {
  import opened Wire
  import opened Xdr

  class Stream {
    const buf: array<byte>
    var pos: nat

    constructor (capacity: nat)
      ensures fresh(buf) && buf.Length == capacity && pos == 0
    {
      buf := new byte[capacity](_ => 0);
      pos := 0;
    }

    ghost predicate Valid() reads this { pos <= buf.Length }

    /** xdr_getpos and the bytes up to it. */
    function Written(): (s: seq<byte>)
      reads this, buf
      requires Valid()
    {
      buf[..pos]
    }

    /** xdr_setpos. */
    method Rewind(to: nat)
      requires to <= buf.Length
      modifies this
      ensures Valid() && pos == to
    {
      pos := to;
    }

    method PutBytes(bs: seq<byte>) returns (ok: bool)
      requires Valid()
      modifies this, buf
      ensures Valid() && ok == (old(pos) + |bs| <= buf.Length)
      ensures ok ==> Written() == old(Written()) + bs
    {
      if pos + |bs| > buf.Length {
        return false;
      }
      ghost var before := Written();
      forall i | 0 <= i < |bs| { buf[pos + i] := bs[i]; }
      pos := pos + |bs|;
      assert Written() == before + bs;
      return true;
    }

    /** xdr_u_int. */
    method PutWord(w: word) returns (ok: bool)
      requires Valid()
      modifies this, buf
      ensures Valid() && ok == (old(pos) + 4 <= buf.Length)
      ensures ok ==> Written() == old(Written()) + Word(w)
    {
      ok := PutBytes(Word(w));
    }

    /** gp_xdr_uint64_t. */
    method PutHyper(h: int) returns (ok: bool)
      requires Valid() && 0 <= h < U32 * U32
      modifies this, buf
      ensures Valid() && ok == (old(pos) + 8 <= buf.Length)
      ensures ok ==> Written() == old(Written()) + EncHyper(h)
    {
      ok := PutWord(h / U32);
      if ok {
        ok := PutWord(h % U32);
      }
    }

    /** xdr_bytes: length, data, zero padding. */
    method PutOpaque(bs: seq<byte>) returns (ok: bool)
      requires Valid() && |bs| < U32
      modifies this, buf
      ensures Valid() && ok == (old(pos) + |EncOpaque(bs)| <= buf.Length)
      ensures ok ==> Written() == old(Written()) + EncOpaque(bs)
    {
      ok := PutWord(|bs|);
      if ok {
        ok := PutBytes(bs);
      }
      if ok {
        ok := PutBytes(Zeros(PadLen(|bs|)));
      }
    }

    /** Any type: the compiled routine for `ty`. */
    method Encode(v: Val, ty: Ty) returns (ok: bool)
      requires Valid() && Typed(v, ty)
      modifies this, buf
      ensures Valid() && ok == (old(pos) + |Enc(v, ty)| <= buf.Length)
      ensures ok ==> Written() == old(Written()) + Enc(v, ty)
      decreases ty, 0, 0
    {
      match ty
      case UInt => ok := PutWord(v.n);
      case Enum => ok := PutWord(Pattern(v.i));
      case Bool => ok := PutWord(if v.b then 1 else 0);
      case Hyper => ok := PutHyper(v.h);
      case Opaque(_) => ok := PutOpaque(v.bytes);
      case Array(elem) => ok := PutArray(v.elems, elem);
      case Optional(elem) =>
        if v.VNone? {
          ok := PutWord(0);
        } else {
          ok := PutTagged(1, v.v, elem);
        }
      case Struct(fields) => ok := EncodeFields(v.vals, fields);
      case Union(_, _, _, _, _) => ok := PutTagged(Pattern(v.tag), v.v, ArmOf(ty, v.tag).value);
    }

    /** A discriminant or a presence flag, then what it announces. */
    method PutTagged(tag: word, v: Val, ty: Ty) returns (ok: bool)
      requires Valid() && Typed(v, ty)
      modifies this, buf
      ensures Valid() && ok == (old(pos) + |Word(tag) + Enc(v, ty)| <= buf.Length)
      ensures ok ==> Written() == old(Written()) + (Word(tag) + Enc(v, ty))
      decreases ty, 1, 0
    {
      ghost var before := Written();
      ok := PutWord(tag);
      if ok {
        ok := Encode(v, ty);
        Assoc(before, Word(tag), Enc(v, ty));
      }
    }

    /** xdr_array: the count, then the elements. */
    method PutArray(vs: seq<Val>, ty: Ty) returns (ok: bool)
      requires Valid() && TypedAll(vs, ty) && |vs| < U32
      modifies this, buf
      ensures Valid() && ok == (old(pos) + |Word(|vs|) + EncAll(vs, ty)| <= buf.Length)
      ensures ok ==> Written() == old(Written()) + (Word(|vs|) + EncAll(vs, ty))
      decreases ty, 2, 0
    {
      ghost var before := Written();
      ok := PutWord(|vs|);
      if ok {
        ok := EncodeAll(vs, ty);
        Assoc(before, Word(|vs|), EncAll(vs, ty));
      }
    }

    /** xdr_array's loop over the elements. */
    method EncodeAll(vs: seq<Val>, ty: Ty) returns (ok: bool)
      requires Valid() && TypedAll(vs, ty)
      modifies this, buf
      ensures Valid() && ok == (old(pos) + |EncAll(vs, ty)| <= buf.Length)
      ensures ok ==> Written() == old(Written()) + EncAll(vs, ty)
      decreases ty, 1, |vs|
    {
      if vs == [] {
        return true;
      }
      ghost var before, first, later := Written(), Enc(vs[0], ty), EncAll(vs[1..], ty);
      ok := Encode(vs[0], ty);
      if ok {
        ok := EncodeAll(vs[1..], ty);
        Assoc(before, first, later);
      }
    }

    method EncodeFields(vs: seq<Val>, tys: seq<Ty>) returns (ok: bool)
      requires Valid() && TypedFields(vs, tys)
      modifies this, buf
      ensures Valid() && ok == (old(pos) + |EncFields(vs, tys)| <= buf.Length)
      ensures ok ==> Written() == old(Written()) + EncFields(vs, tys)
      decreases tys, 0, 0
    {
      if tys == [] {
        return true;
      }
      ghost var before, first, later := Written(), Enc(vs[0], tys[0]), EncFields(vs[1..], tys[1..]);
      ok := Encode(vs[0], tys[0]);
      if ok {
        ok := EncodeFields(vs[1..], tys[1..]);
        Assoc(before, first, later);
      }
    }
  }
}
