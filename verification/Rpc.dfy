/**
 The RPC envelope (section 8 of RFC 1831) as rpcgen/gp_rpc_xdr.c encodes it: its
 types, the messages the daemon and its clients build, and the inline fast path of
 the call header.
 */
module Rpc {
  import opened SeqLib
  import opened Wire
  import opened Xdr
  import opened XdrMem
  import opened Gssx

  // ----- the envelope's types -----

  const OPAQUE_AUTH := Struct([Enum, Opaque(400)])                      // flavor, body
  const MISMATCH_INFO := Struct([UInt, UInt])                           // low, high
  const REPLY_UNION := Union(0, VOID, 2, MISMATCH_INFO, Some(VOID))      // success, program mismatch, other statuses
  const ACCEPTED_REPLY := Struct([OPAQUE_AUTH, REPLY_UNION])              // verf, reply_data
  const REJECTED_REPLY := Union(0, MISMATCH_INFO, 1, Enum, None)         // RPC version mismatch, authentication error
  const CALL_FIELDS := [UInt, UInt, UInt, UInt, OPAQUE_AUTH, OPAQUE_AUTH] // rpcvers, prog, vers, proc, cred, verf
  const CALL_HEADER := Struct(CALL_FIELDS)
  const REPLY_HEADER := Union(0, ACCEPTED_REPLY, 1, REJECTED_REPLY, None)
  const MSG_UNION := Union(0, CALL_HEADER, 1, REPLY_HEADER, None)
  const RPC_MSG := Struct([UInt, MSG_UNION])                             // xid, header

  const RPC_VERS := 2
  const GSSPROXY := 400112
  const GSSPROXYVERS := 1

  // accept statuses, reject statuses and one authentication status
  const SUCCESS := 0
  const PROG_UNAVAIL := 1
  const PROG_MISMATCH := 2
  const PROC_UNAVAIL := 3
  const GARBAGE_ARGS := 4
  const SYSTEM_ERR := 5
  const RPC_MISMATCH := 0
  const AUTH_ERROR := 1
  const AUTH_FAILED := 7

  // ----- building and taking apart messages -----

  const NO_AUTH := VStruct([VEnum(0), VOpaque([])])

  function CallMsg(xid: word, rpcvers: word, prog: word, vers: word, proc: word): Val {
    VStruct([VUInt(xid), VUnion(0, VStruct([VUInt(rpcvers), VUInt(prog), VUInt(vers), VUInt(proc), NO_AUTH, NO_AUTH]))])
  }

  function Versions(low: word, high: word): Val { VStruct([VUInt(low), VUInt(high)]) }

  function AcceptedMsg(xid: word, status: int): Val {
    var info := if status == PROG_MISMATCH then Versions(GSSPROXYVERS, GSSPROXYVERS) else VStruct([]);
    VStruct([VUInt(xid), VUnion(1, VUnion(0, VStruct([NO_AUTH, VUnion(status, info)])))])
  }

  function DeniedMsg(xid: word, status: int): Val {
    var info := if status == RPC_MISMATCH then Versions(RPC_VERS, RPC_VERS) else VEnum(AUTH_FAILED);
    VStruct([VUInt(xid), VUnion(1, VUnion(1, VUnion(status, info)))])
  }

  /** A well-formed message has an xid, is a call or a reply, and a call has its six fields. */
  lemma {:induction false} MsgShape(m: Val)
    requires Typed(m, RPC_MSG)
    ensures m.VStruct? && |m.vals| == 2 && m.vals[0].VUInt? && 0 <= m.vals[0].n < U32
    ensures m.vals[1].VUnion? && (m.vals[1].tag == 0 || m.vals[1].tag == 1)
    ensures m.vals[1].tag == 0 ==> CallShape(m.vals[1].v)
    ensures m.vals[1].tag == 1 ==> ReplyShape(m.vals[1].v)
  {
    FieldsByIndex(m.vals, [UInt, MSG_UNION]);
    var h := m.vals[1];
    assert Typed(h, MSG_UNION);
    if h.tag == 0 {
      CallHeaderShape(h.v);
    } else {
      ReplyHeaderShape(h.v);
    }
  }

  lemma {:induction false} ReplyHeaderShape(r: Val)
    requires Typed(r, REPLY_HEADER)
    ensures ReplyShape(r)
  {
    if r.tag == 0 {
      assert Typed(r.v, ACCEPTED_REPLY);
      FieldsByIndex(r.v.vals, [OPAQUE_AUTH, REPLY_UNION]);
    } else {
      assert Typed(r.v, REJECTED_REPLY);
    }
  }

  predicate CallShape(c: Val) {
    && c.VStruct? && |c.vals| == 6
    && (forall i :: 0 <= i < 4 ==> c.vals[i].VUInt? && 0 <= c.vals[i].n < U32)
    && c.vals[4].VStruct? && |c.vals[4].vals| == 2 && c.vals[4].vals[0].VEnum?
  }

  predicate ReplyShape(r: Val) {
    && r.VUnion? && (r.tag == 0 || r.tag == 1)
    && (r.tag == 0 ==> r.v.VStruct? && |r.v.vals| == 2 && r.v.vals[1].VUnion?)
    && (r.tag == 1 ==> r.v.VUnion?)
  }

  lemma {:induction false} NoAuthEnc()
    ensures Typed(NO_AUTH, OPAQUE_AUTH) && |Enc(NO_AUTH, OPAQUE_AUTH)| == 8
  {
    StructBytes(VEnum(0), VOpaque([]), Enum, Opaque(400));
  }

  lemma {:induction false} VersionsEnc(low: word, high: word)
    ensures Typed(Versions(low, high), MISMATCH_INFO) && |Enc(Versions(low, high), MISMATCH_INFO)| == 8
  {
    StructBytes(VUInt(low), VUInt(high), UInt, UInt);
  }

  /** The message around a header. */
  lemma {:induction false} MsgEnc(xid: word, h: Val)
    requires Typed(h, MSG_UNION)
    ensures Typed(VStruct([VUInt(xid), h]), RPC_MSG)
    ensures |Enc(VStruct([VUInt(xid), h]), RPC_MSG)| == 4 + |Enc(h, MSG_UNION)|
  {
    StructBytes(VUInt(xid), h, UInt, MSG_UNION);
  }

  lemma {:induction false} CallMsgEnc(xid: word, rpcvers: word, prog: word, vers: word, proc: word)
    ensures Typed(CallMsg(xid, rpcvers, prog, vers, proc), RPC_MSG)
    ensures |Enc(CallMsg(xid, rpcvers, prog, vers, proc), RPC_MSG)| == 40
  {
    var vs := [VUInt(rpcvers), VUInt(prog), VUInt(vers), VUInt(proc), NO_AUTH, NO_AUTH];
    NoAuthEnc();
    FieldsByIndex(vs, CALL_FIELDS);
    CallHeaderLayout(VStruct(vs));
    MsgEnc(xid, VUnion(0, VStruct(vs)));
  }

  lemma {:induction false} AcceptedMsgEnc(xid: word, status: int)
    requires IsInt32(status)
    ensures Typed(AcceptedMsg(xid, status), RPC_MSG)
    ensures |Enc(AcceptedMsg(xid, status), RPC_MSG)| == if status == PROG_MISMATCH then 32 else 24
  {
    var info := if status == PROG_MISMATCH then Versions(GSSPROXYVERS, GSSPROXYVERS) else VStruct([]);
    var reply := VUnion(status, info);
    VersionsEnc(GSSPROXYVERS, GSSPROXYVERS);
    assert Typed(VStruct([]), VOID) && Enc(VStruct([]), VOID) == [];
    assert Typed(reply, REPLY_UNION) && |Enc(reply, REPLY_UNION)| == if status == PROG_MISMATCH then 12 else 4;
    NoAuthEnc();
    StructBytes(NO_AUTH, reply, OPAQUE_AUTH, REPLY_UNION);
    var accepted := VUnion(0, VStruct([NO_AUTH, reply]));
    assert Typed(accepted, REPLY_HEADER);
    MsgEnc(xid, VUnion(1, accepted));
  }

  lemma {:induction false} DeniedMsgEnc(xid: word, status: int)
    requires status == RPC_MISMATCH || status == AUTH_ERROR
    ensures Typed(DeniedMsg(xid, status), RPC_MSG)
    ensures |Enc(DeniedMsg(xid, status), RPC_MSG)| == if status == RPC_MISMATCH then 24 else 20
  {
    VersionsEnc(RPC_VERS, RPC_VERS);
    var info := if status == RPC_MISMATCH then Versions(RPC_VERS, RPC_VERS) else VEnum(AUTH_FAILED);
    var rejected := VUnion(status, info);
    assert Typed(rejected, REJECTED_REPLY);
    assert |Enc(rejected, REJECTED_REPLY)| == if status == RPC_MISMATCH then 12 else 8;
    assert Typed(VUnion(1, rejected), REPLY_HEADER);
    MsgEnc(xid, VUnion(1, VUnion(1, rejected)));
  }

  // ----- the call header's fast path -----

  /** Two unfoldings of EncFields. */
  lemma {:induction false} EncPair(vs: seq<Val>, tys: seq<Ty>)
    requires TypedFields(vs, tys) && |tys| >= 2
    ensures |vs| == |tys| && Typed(vs[0], tys[0]) && Typed(vs[1], tys[1]) && TypedFields(vs[2..], tys[2..])
    ensures EncFields(vs, tys) == Enc(vs[0], tys[0]) + (Enc(vs[1], tys[1]) + EncFields(vs[2..], tys[2..]))
  {
    FieldsByIndex(vs, tys);
    assert vs[1..][1..] == vs[2..] && tys[1..][1..] == tys[2..];
    assert TypedFields(vs[1..], tys[1..]);
    assert EncFields(vs[1..], tys[1..]) == Enc(vs[1], tys[1]) + EncFields(vs[2..], tys[2..]);
  }

  /** The four words of a call header. */
  function FourWords(c: Val): (r: seq<byte>)
    requires CallShape(c)
    ensures |r| == 16
  {
    Word(c.vals[0].n) + (Word(c.vals[1].n) + (Word(c.vals[2].n) + Word(c.vals[3].n)))
  }

  lemma {:induction false} CallHeaderShape(c: Val)
    requires Typed(c, CALL_HEADER)
    ensures CallShape(c) && Typed(c.vals[4], OPAQUE_AUTH) && Typed(c.vals[5], OPAQUE_AUTH)
  {
    FieldsByIndex(c.vals, CALL_FIELDS);
    FieldsByIndex(c.vals[4].vals, [Enum, Opaque(400)]);
  }

  lemma {:induction false} AuthsLayout(vs: seq<Val>)
    requires TypedFields(vs, [OPAQUE_AUTH, OPAQUE_AUTH])
    ensures |vs| == 2 && Typed(vs[0], OPAQUE_AUTH) && Typed(vs[1], OPAQUE_AUTH)
    ensures EncFields(vs, [OPAQUE_AUTH, OPAQUE_AUTH]) == Enc(vs[0], OPAQUE_AUTH) + Enc(vs[1], OPAQUE_AUTH)
  {
    FieldsByIndex(vs, [OPAQUE_AUTH, OPAQUE_AUTH]);
    StructBytes(vs[0], vs[1], OPAQUE_AUTH, OPAQUE_AUTH);
    assert vs == [vs[0], vs[1]];
  }

  lemma {:induction false} FourFields(vs: seq<Val>, tys: seq<Ty>)
    requires TypedFields(vs, tys) && |tys| >= 4 && tys[..4] == [UInt, UInt, UInt, UInt]
    ensures |vs| == |tys| && forall i :: 0 <= i < 4 ==> vs[i].VUInt? && 0 <= vs[i].n < U32
    ensures TypedFields(vs[4..], tys[4..])
    ensures EncFields(vs, tys) ==
            Word(vs[0].n) + (Word(vs[1].n) + (Word(vs[2].n) + (Word(vs[3].n) + EncFields(vs[4..], tys[4..]))))
  {
    FieldsByIndex(vs, tys);
    assert forall i :: 0 <= i < 4 ==> tys[i] == tys[..4][i];
    EncPair(vs, tys);
    EncPair(vs[2..], tys[2..]);
    assert vs[2..][2..] == vs[4..] && tys[2..][2..] == tys[4..];
  }

  lemma {:induction false} CallHeaderLayout(c: Val)
    requires Typed(c, CALL_HEADER)
    ensures CallShape(c) && Typed(c.vals[4], OPAQUE_AUTH) && Typed(c.vals[5], OPAQUE_AUTH)
    ensures Enc(c, CALL_HEADER) == FourWords(c) + (Enc(c.vals[4], OPAQUE_AUTH) + Enc(c.vals[5], OPAQUE_AUTH))
  {
    CallHeaderShape(c);
    var vs := c.vals;
    assert CALL_FIELDS[..4] == [UInt, UInt, UInt, UInt] && CALL_FIELDS[4..] == [OPAQUE_AUTH, OPAQUE_AUTH];
    FourFields(vs, CALL_FIELDS);
    AuthsLayout(vs[4..]);
    FourConcat(Word(vs[0].n), Word(vs[1].n), Word(vs[2].n), Word(vs[3].n), EncFields(vs[4..], CALL_FIELDS[4..]));
  }

  lemma {:induction false} FourConcat(a: seq<byte>, b: seq<byte>, c: seq<byte>, d: seq<byte>, e: seq<byte>)
    ensures a + (b + (c + (d + e))) == (a + (b + (c + d))) + e
  {
  }

  /** IXDR_PUT_U_LONG: store a word at a place already reserved. */
  method StoreWord(buf: array<byte>, at: nat, w: word)
    requires at + 4 <= buf.Length
    modifies buf
    ensures buf[..at + 4] == old(buf[..at]) + Word(w)
  {
    var bs := Word(w);
    buf[at], buf[at + 1], buf[at + 2], buf[at + 3] := bs[0], bs[1], bs[2], bs[3];
  }

  lemma {:induction false} FourAppend(before: seq<byte>, a: seq<byte>, b: seq<byte>, c: seq<byte>, d: seq<byte>)
    ensures (((before + a) + b) + c) + d == before + (a + (b + (c + d)))
  {
  }

  /** The inline branch: reserve sixteen bytes at once and store the four words there. */
  method PutInline(x: Stream, c: Val)
    requires x.Valid() && CallShape(c) && x.pos + 16 <= x.buf.Length
    modifies x, x.buf
    ensures x.Valid() && x.Written() == old(x.Written()) + FourWords(c)
  {
    ghost var before := x.Written();
    var at, words := x.pos, [c.vals[0].n, c.vals[1].n, c.vals[2].n, c.vals[3].n];
    x.pos := x.pos + 16;
    StoreWord(x.buf, at, words[0]);
    StoreWord(x.buf, at + 4, words[1]);
    StoreWord(x.buf, at + 8, words[2]);
    StoreWord(x.buf, at + 12, words[3]);
    FourAppend(before, Word(words[0]), Word(words[1]), Word(words[2]), Word(words[3]));
  }

  /** The word-by-word branch. */
  method PutWords(x: Stream, c: Val) returns (ok: bool)
    requires x.Valid() && CallShape(c)
    modifies x, x.buf
    ensures x.Valid() && ok == (old(x.pos) + 16 <= x.buf.Length)
    ensures ok ==> x.Written() == old(x.Written()) + FourWords(c)
  {
    ok := x.PutWord(c.vals[0].n);
    if ok { ok := x.PutWord(c.vals[1].n); }
    if ok { ok := x.PutWord(c.vals[2].n); }
    if ok { ok := x.PutWord(c.vals[3].n); }
  }

  /** Inline when sixteen bytes are left, word by word otherwise. */
  method PutFourWords(x: Stream, c: Val) returns (ok: bool)
    requires x.Valid() && CallShape(c)
    modifies x, x.buf
    ensures x.Valid() && ok == (old(x.pos) + 16 <= x.buf.Length)
    ensures ok ==> x.Written() == old(x.Written()) + FourWords(c)
  {
    if x.pos + 16 <= x.buf.Length {
      PutInline(x, c);
      ok := true;
    } else {
      ok := PutWords(x, c);
    }
  }

  method PutTwo(x: Stream, u: Val, v: Val, ty: Ty) returns (ok: bool)
    requires x.Valid() && Typed(u, ty) && Typed(v, ty)
    modifies x, x.buf
    ensures x.Valid() && ok == (old(x.pos) + |Enc(u, ty) + Enc(v, ty)| <= x.buf.Length)
    ensures ok ==> x.Written() == old(x.Written()) + (Enc(u, ty) + Enc(v, ty))
  {
    ghost var before, first, second := x.Written(), Enc(u, ty), Enc(v, ty);
    ok := x.Encode(u, ty);
    if ok {
      ok := x.Encode(v, ty);
      Assoc(before, first, second);
    }
  }

  /**
   xdr_gp_rpc_call_header, encoding.  Whichever branch it takes, it does what the plain
   field-by-field encoding (Stream.Encode) does: it succeeds exactly when the whole header fits,
   and then appends exactly the same bytes.
   */
  method PutCallHeader(x: Stream, c: Val) returns (ok: bool)
    requires x.Valid() && Typed(c, CALL_HEADER)
    modifies x, x.buf
    ensures x.Valid() && ok == (old(x.pos) + |Enc(c, CALL_HEADER)| <= x.buf.Length)
    ensures ok ==> x.Written() == old(x.Written()) + Enc(c, CALL_HEADER)
  {
    CallHeaderLayout(c);
    ghost var before := x.Written();
    ghost var words, auths := FourWords(c), Enc(c.vals[4], OPAQUE_AUTH) + Enc(c.vals[5], OPAQUE_AUTH);
    ok := PutFourWords(x, c);
    if ok {
      ok := PutTwo(x, c.vals[4], c.vals[5], OPAQUE_AUTH);
      Assoc(before, words, auths);
    }
  }

  /** xdr_gp_rpc_call_header, decoding: four words straight from the buffer when they are there. */
  function DecodeCallHeader(b: seq<byte>): Decoded<Val> {
    if |b| < 16 then Dec(b, CALL_HEADER)
    else
      var words := [VUInt(Value(b[..4])), VUInt(Value(b[4..8])), VUInt(Value(b[8..12])), VUInt(Value(b[12..16]))];
      var auths := DecFields(b[16..], [OPAQUE_AUTH, OPAQUE_AUTH]);
      if auths.Bad? then Bad else Good(VStruct(words + auths.value), auths.rest)
  }

  lemma {:induction false} DecWordField(b: seq<byte>, tys: seq<Ty>)
    requires tys != [] && tys[0] == UInt && |b| >= 4
    ensures DecFields(b, tys) ==
            var xs := DecFields(b[4..], tys[1..]);
            if xs.Bad? then Bad else Good([VUInt(Value(b[..4]))] + xs.value, xs.rest)
  {
  }

  lemma {:induction false} DecTwoWords(b: seq<byte>, tys: seq<Ty>)
    requires |b| >= 8 && |tys| >= 2 && tys[0] == UInt && tys[1] == UInt
    ensures DecFields(b, tys) ==
            var xs := DecFields(b[8..], tys[2..]);
            if xs.Bad? then Bad else Good([VUInt(Value(b[..4])), VUInt(Value(b[4..8]))] + xs.value, xs.rest)
  {
    assert b[4..][..4] == b[4..8] && b[4..][4..] == b[8..];
    assert tys[1..][1..] == tys[2..];
    DecWordField(b, tys);
    DecWordField(b[4..], tys[1..]);
    var xs := DecFields(b[8..], tys[2..]);
    if xs.Good? {
      var w0, w1 := VUInt(Value(b[..4])), VUInt(Value(b[4..8]));
      assert [w0] + ([w1] + xs.value) == [w0, w1] + xs.value;
    }
  }

  lemma {:induction false} DecFourWords(b: seq<byte>, tys: seq<Ty>)
    requires |b| >= 16 && |tys| >= 4 && tys[0] == UInt && tys[1] == UInt && tys[2] == UInt && tys[3] == UInt
    ensures DecFields(b, tys) ==
            var xs := DecFields(b[16..], tys[4..]);
            if xs.Bad? then Bad
            else Good([VUInt(Value(b[..4])), VUInt(Value(b[4..8])), VUInt(Value(b[8..12])),
                    VUInt(Value(b[12..16]))] + xs.value, xs.rest)
  {
    var b8 := b[8..];
    assert b8[..4] == b[8..12] && b8[4..8] == b[12..16] && b8[8..] == b[16..];
    assert tys[2..][2..] == tys[4..];
    DecTwoWords(b, tys);
    DecTwoWords(b8, tys[2..]);
    var xs := DecFields(b[16..], tys[4..]);
    if xs.Good? {
      var w0, w1, w2, w3 := VUInt(Value(b[..4])), VUInt(Value(b[4..8])), VUInt(Value(b[8..12])),
              VUInt(Value(b[12..16]));
      assert [w0, w1] + ([w2, w3] + xs.value) == [w0, w1, w2, w3] + xs.value;
    }
  }

  /** The decoding fast path reads the same fields and leaves the cursor at the same place. */
  lemma {:induction false} FastDecodeAgrees(b: seq<byte>)
    ensures DecodeCallHeader(b) == Dec(b, CALL_HEADER)
  {
    if |b| >= 16 {
      DecFourWords(b, CALL_FIELDS);
      assert CALL_FIELDS[4..] == [OPAQUE_AUTH, OPAQUE_AUTH];
    }
  }

  // ----- whole messages -----

  lemma {:induction false} MsgLayout(m: Val)
    requires Typed(m, RPC_MSG)
    ensures m.VStruct? && |m.vals| == 2 && m.vals[0].VUInt? && 0 <= m.vals[0].n < U32
    ensures m.vals[1].VUnion? && (m.vals[1].tag == 0 || m.vals[1].tag == 1)
    ensures Typed(m.vals[1].v, if m.vals[1].tag == 0 then CALL_HEADER else REPLY_HEADER)
    ensures Enc(m, RPC_MSG) ==
            Word(m.vals[0].n)
            + (Word(m.vals[1].tag) + Enc(m.vals[1].v, if m.vals[1].tag == 0 then CALL_HEADER else REPLY_HEADER))
  {
    MsgShape(m);
    FieldsByIndex(m.vals, [UInt, MSG_UNION]);
    StructBytes(m.vals[0], m.vals[1], UInt, MSG_UNION);
    assert m == VStruct([m.vals[0], m.vals[1]]);
  }

  /** xdr_gp_rpc_msg, encoding. */
  method PutMsg(x: Stream, m: Val) returns (ok: bool)
    requires x.Valid() && Typed(m, RPC_MSG)
    modifies x, x.buf
    ensures x.Valid() && ok == (old(x.pos) + |Enc(m, RPC_MSG)| <= x.buf.Length)
    ensures ok ==> x.Written() == old(x.Written()) + Enc(m, RPC_MSG)
  {
    MsgLayout(m);
    ghost var before := x.Written();
    ghost var w0, w1 := Word(m.vals[0].n), Word(m.vals[1].tag);
    var h := m.vals[1];
    ok := x.PutWord(m.vals[0].n);
    if ok { ok := x.PutWord(h.tag); }
    if ok {
      ghost var body := Enc(h.v, if h.tag == 0 then CALL_HEADER else REPLY_HEADER);
      if h.tag == 0 {
        ok := PutCallHeader(x, h.v);
      } else {
        ok := x.Encode(h.v, REPLY_HEADER);
      }
      Assoc(before, w0, w1 + body);
      Assoc(before + w0, w1, body);
    }
  }

  /** xdr_gp_rpc_msg, decoding. */
  function DecodeMsg(b: seq<byte>): Decoded<Val> {
    var xid := DecWord(b);
    if xid.Bad? then Bad
    else
      var tag := DecWord(xid.rest);
      if tag.Bad? || tag.value > 1 then Bad
      else
        var h := if tag.value == 0 then DecodeCallHeader(tag.rest) else Dec(tag.rest, REPLY_HEADER);
        if h.Bad? then Bad else Good(VStruct([VUInt(xid.value), VUnion(tag.value, h.value)]), h.rest)
  }

  lemma {:induction false} DecLastField(b: seq<byte>, ty: Ty)
    ensures DecFields(b, [ty]) == if Dec(b, ty).Bad? then Bad else Good([Dec(b, ty).value], Dec(b, ty).rest)
  {
    var x := Dec(b, ty);
    if x.Good? {
      assert [ty][1..] == [];
      assert DecFields(x.rest, [ty][1..]) == Good([], x.rest);
      assert [x.value] + [] == [x.value];
    }
  }

  /** The message codec with the fast path decodes what the plain description decodes. */
  lemma {:induction false} DecodeMsgAgrees(b: seq<byte>)
    ensures DecodeMsg(b) == Dec(b, RPC_MSG)
  {
    var tys := [UInt, MSG_UNION];
    if |b| >= 4 {
      DecWordField(b, tys);
      assert tys[1..] == [MSG_UNION];
      DecLastField(b[4..], MSG_UNION);
      var u := Dec(b[4..], MSG_UNION);
      if |b| >= 8 { FastDecodeAgrees(b[4..][4..]); }
      if u.Good? { assert [VUInt(Value(b[..4]))] + [u.value] == [VUInt(Value(b[..4])), u.value]; }
    } else {
      assert Dec(b, UInt).Bad? && DecFields(b, tys).Bad?;
    }
  }
}
