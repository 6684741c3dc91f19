/**
 Requests and replies byte by byte: which bytes are an RPC header, which words of a
 request decide the daemon's answer, the bytes of every answer, and which bytes the
 client takes for a result.  Numbers are those of gp_rpc.x and section 8 of RFC 1831.
 */
module RpcBytes {
  import opened SeqLib
  import opened Wire
  import opened Xdr
  import opened Gssx
  import opened Framing
  import opened Rpc
  import opened RpcCall

  /** The word at an offset. */
  function WordAt(b: seq<byte>, k: nat): word
    requires k + 4 <= |b|
  {
    Value(b[k..k + 4])
  }

  lemma {:induction false} WordBehind(b: seq<byte>, k: nat, j: nat)
    requires k + j + 4 <= |b|
    ensures b[k..][j..j + 4] == b[k + j..k + j + 4] && b[k..][j..] == b[k + j..]
    ensures j == 0 ==> b[k..][..4] == b[k..k + 4]
  {
  }

  // ----- what is a header -----

  /** The end of authentication data that starts at `k`: a flavor, and at most 400 bytes in whole units. */
  function AuthEnd(b: seq<byte>, k: nat): (e: Option<nat>)
    ensures e.Some? ==> k + 8 <= e.value <= |b|
  {
    if |b| < k + 8 then None
    else
      var n := WordAt(b, k + 4);
      var e := k + 8 + n + PadLen(n);
      if n <= 400 && e <= |b| then Some(e) else None
  }

  /** The end of a call header: xid, type, four words and twice authentication data. */
  function CallEnd(b: seq<byte>): (e: Option<nat>)
    ensures e.Some? ==> 40 <= e.value <= |b|
  {
    match AuthEnd(b, 24)
    case None => None
    case Some(e) => AuthEnd(b, e)
  }

  /** The end of the header of an accepted reply: authentication data, a status, and two versions after status 2. */
  function AcceptedEnd(b: seq<byte>): (e: Option<nat>)
    ensures e.Some? ==> 24 <= e.value <= |b|
  {
    match AuthEnd(b, 12)
    case None => None
    case Some(e) =>
      if |b| < e + 4 then None
      else
        var end := if WordAt(b, e) == 2 then e + 12 else e + 4;
        if end <= |b| then Some(end) else None
  }

  /** The end of the header of a denied reply: two versions after status 0, one word after status 1. */
  function DeniedEnd(b: seq<byte>): (e: Option<nat>)
    ensures e.Some? ==> 20 <= e.value <= |b|
  {
    if |b| < 20 then None
    else if WordAt(b, 12) == 0 then (if |b| >= 24 then Some(24) else None)
    else if WordAt(b, 12) == 1 then Some(20)
    else None
  }

  /** The end of the header at the front of `b`, if there is one. */
  function HeaderEnd(b: seq<byte>): (e: Option<nat>)
    ensures e.Some? ==> 20 <= e.value <= |b|
  {
    if |b| < 12 then None
    else if WordAt(b, 4) == 0 then CallEnd(b)
    else if WordAt(b, 4) != 1 then None
    else if WordAt(b, 8) == 0 then AcceptedEnd(b)
    else if WordAt(b, 8) == 1 then DeniedEnd(b)
    else None
  }

  lemma {:induction false} DecPair(b: seq<byte>, tu: Ty, tv: Ty)
    ensures DecFields(b, [tu, tv]) ==
            match Dec(b, tu)
            case Bad => Bad
            case Good(u, mid) =>
              match Dec(mid, tv)
              case Bad => Bad
              case Good(v, rest) => Good([u, v], rest)
  {
    assert [tu, tv][1..] == [tv];
    if Dec(b, tu).Good? {
      var mid := Dec(b, tu).rest;
      DecLastField(mid, tv);
      if Dec(mid, tv).Good? {
        assert [Dec(b, tu).value] + [Dec(mid, tv).value] == [Dec(b, tu).value, Dec(mid, tv).value];
      }
    }
  }

  /** What decoding authentication data at `k` gives. */
  predicate AuthAt(b: seq<byte>, k: nat, x: Decoded<Val>)
    requires k <= |b|
  {
    match AuthEnd(b, k)
    case None => x.Bad?
    case Some(e) =>
      && x.Good? && x.rest == b[e..] && x.value.VStruct? && |x.value.vals| == 2
      && x.value.vals[0] == VEnum(Signed(WordAt(b, k)))
  }

  lemma {:induction false} OpaqueAt(b: seq<byte>, k: nat)
    requires k + 4 <= |b|
    ensures var n := WordAt(b, k);
            var e := k + 4 + n + PadLen(n);
            var x := DecOpaque(b[k..], 400);
            if n <= 400 && e <= |b| then x.Good? && x.rest == b[e..] else x.Bad?
  {
    var n, rest := WordAt(b, k), b[k + 4..];
    WordBehind(b, k, 0);
    assert b[k..][4..] == rest;
    if |rest| >= n + PadLen(n) { assert rest[n + PadLen(n)..] == b[k + 4 + n + PadLen(n)..]; }
  }

  lemma {:induction false} AuthParts(b: seq<byte>, k: nat)
    requires k + 8 <= |b|
    ensures Dec(b[k..], OPAQUE_AUTH) ==
            var x := DecOpaque(b[k + 4..], 400);
            if x.Bad? then Bad else Good(VStruct([VEnum(Signed(WordAt(b, k))), VOpaque(x.value)]), x.rest)
  {
    DecPair(b[k..], Enum, Opaque(400));
    WordBehind(b, k, 0);
    WordBehind(b, k, 4);
  }

  lemma {:induction false} ShortAuth(b: seq<byte>)
    requires |b| < 8
    ensures Dec(b, OPAQUE_AUTH).Bad?
  {
    DecPair(b, Enum, Opaque(400));
  }

  lemma {:induction false} DecAuth(b: seq<byte>, k: nat)
    requires k <= |b|
    ensures AuthAt(b, k, Dec(b[k..], OPAQUE_AUTH))
  {
    if |b| >= k + 8 {
      AuthParts(b, k);
      OpaqueAt(b, k + 4);
    } else {
      ShortAuth(b[k..]);
    }
  }

  lemma {:induction false} DecAuths(b: seq<byte>, k: nat)
    requires k <= |b|
    ensures var x := DecFields(b[k..], [OPAQUE_AUTH, OPAQUE_AUTH]);
            match AuthEnd(b, k)
            case None => x.Bad?
            case Some(e) =>
              match AuthEnd(b, e)
              case None => x.Bad?
              case Some(end) =>
                && x.Good? && x.rest == b[end..] && |x.value| == 2 && x.value[0].VStruct? && |x.value[0].vals| == 2
                && x.value[0].vals[0] == VEnum(Signed(WordAt(b, k)))
  {
    DecPair(b[k..], OPAQUE_AUTH, OPAQUE_AUTH);
    DecAuth(b, k);
    if AuthEnd(b, k).Some? { DecAuth(b, AuthEnd(b, k).value); }
  }

  /** The message decodes to something with the given header, or not at all. */
  lemma {:induction false} MsgByHeader(b: seq<byte>)
    requires |b| >= 8
    ensures Dec(b, RPC_MSG) ==
            var tag := WordAt(b, 4);
            if tag > 1 then Bad
            else
              var h := if tag == 0 then Dec(b[8..], CALL_HEADER) else Dec(b[8..], REPLY_HEADER);
              if h.Bad? then Bad else Good(VStruct([VUInt(WordAt(b, 0)), VUnion(tag, h.value)]), h.rest)
  {
    DecodeMsgAgrees(b);
    WordBehind(b, 0, 0);
    WordBehind(b, 4, 0);
    assert b[4..][4..] == b[8..];
    FastDecodeAgrees(b[8..]);
  }

  /** The words of a call. */
  predicate CallWords(b: seq<byte>, m: Val)
    requires |b| >= 28
  {
    && Typed(m, RPC_MSG) && Xid(m) == WordAt(b, 0)
    && CallOf(m) == Some(CallView(WordAt(b, 8), WordAt(b, 12), WordAt(b, 16), WordAt(b, 20), Signed(WordAt(b, 24))))
  }

  lemma {:induction false} CallHeaderAt(b: seq<byte>)
    requires |b| >= 8
    ensures var h := Dec(b[8..], CALL_HEADER);
            match CallEnd(b)
            case None => h.Bad?
            case Some(end) =>
              && h.Good? && h.rest == b[end..] && h.value.VStruct? && |h.value.vals| == 6
              && h.value.vals[0] == VUInt(WordAt(b, 8)) && h.value.vals[1] == VUInt(WordAt(b, 12))
              && h.value.vals[2] == VUInt(WordAt(b, 16)) && h.value.vals[3] == VUInt(WordAt(b, 20))
              && h.value.vals[4].VStruct? && |h.value.vals[4].vals| == 2
              && h.value.vals[4].vals[0] == VEnum(Signed(WordAt(b, 24)))
  {
    FastDecodeAgrees(b[8..]);
    if |b| >= 24 {
      assert b[8..][16..] == b[24..];
      assert b[8..][..4] == b[8..12] && b[8..][4..8] == b[12..16];
      assert b[8..][8..12] == b[16..20] && b[8..][12..16] == b[20..24];
      DecAuths(b, 24);
    } else {
      ShortCall(b[8..]);
    }
  }

  lemma {:induction false} ShortCall(b: seq<byte>)
    requires |b| < 16
    ensures Dec(b, CALL_HEADER).Bad?
  {
    if Dec(b, CALL_HEADER).Good? {
      DecSound(b, CALL_HEADER);
      CallHeaderLayout(Dec(b, CALL_HEADER).value);
    }
  }

  /** A call decodes exactly if it has a whole header, and its words are at their offsets. */
  lemma {:induction false} CallDecodes(b: seq<byte>)
    requires |b| >= 8 && WordAt(b, 4) == 0
    ensures Dec(b, RPC_MSG).Good? <==> CallEnd(b).Some?
    ensures CallEnd(b).Some? ==> Dec(b, RPC_MSG).rest == b[CallEnd(b).value..] && CallWords(b, Dec(b, RPC_MSG).value)
  {
    MsgByHeader(b);
    CallHeaderAt(b);
    DecSound(b, RPC_MSG);
  }

  lemma {:induction false} DecVersions(b: seq<byte>)
    ensures Dec(b, MISMATCH_INFO).Good? <==> |b| >= 8
    ensures |b| >= 8 ==> Dec(b, MISMATCH_INFO).rest == b[8..]
  {
    DecPair(b, UInt, UInt);
    if |b| >= 8 { assert b[4..][4..] == b[8..]; }
  }

  lemma {:induction false} DecStatus(b: seq<byte>)
    ensures var x := Dec(b, REPLY_UNION);
            if |b| < 4 || (Value(b[..4]) == 2 && |b| < 12) then x.Bad?
            else
              && x.Good? && x.value.VUnion? && x.value.tag == Signed(Value(b[..4]))
              && x.rest == if Value(b[..4]) == 2 then b[12..] else b[4..]
  {
    if |b| >= 4 {
      DecVersions(b[4..]);
      assert Dec(b[4..], VOID) == Good(VStruct([]), b[4..]);
      if |b| >= 12 { assert b[4..][8..] == b[12..]; }
    }
  }

  /** What decoding the header of an accepted reply gives. */
  predicate AcceptedAt(b: seq<byte>, x: Decoded<Val>) {
    match AcceptedEnd(b)
    case None => x.Bad?
    case Some(end) =>
      && x.Good? && x.rest == b[end..] && x.value.VStruct? && |x.value.vals| == 2
      && x.value.vals[1].VUnion? && x.value.vals[1].tag == Signed(WordAt(b, AuthEnd(b, 12).value))
      && x.value.vals[0].VStruct? && |x.value.vals[0].vals| == 2
      && x.value.vals[0].vals[0] == VEnum(Signed(WordAt(b, 12)))
  }

  lemma {:induction false} DecAccepted(b: seq<byte>)
    requires |b| >= 12
    ensures AcceptedAt(b, Dec(b[12..], ACCEPTED_REPLY))
  {
    DecPair(b[12..], OPAQUE_AUTH, REPLY_UNION);
    DecAuth(b, 12);
    if AuthEnd(b, 12).Some? {
      var e := AuthEnd(b, 12).value;
      DecStatus(b[e..]);
      if |b| >= e + 4 { WordBehind(b, e, 0); }
      if |b| >= e + 12 { assert b[e..][12..] == b[e + 12..] && b[e..][4..] == b[e + 4..]; }
      else if |b| >= e + 4 { assert b[e..][4..] == b[e + 4..]; }
    }
  }

  lemma {:induction false} DecDenied(b: seq<byte>)
    requires |b| >= 12
    ensures var x := Dec(b[12..], REJECTED_REPLY);
            match DeniedEnd(b)
            case None => x.Bad?
            case Some(end) => x.Good? && x.rest == b[end..]
  {
    if |b| >= 16 {
      WordBehind(b, 12, 0);
      assert b[12..][4..] == b[16..];
      DecVersions(b[16..]);
      if |b| >= 24 { assert b[16..][8..] == b[24..]; }
      if |b| >= 20 { assert b[16..][4..] == b[20..]; }
    }
  }

  /** Exactly the bytes that start with a header decode, and what follows the header is left. */
  lemma {:induction false} HeaderDecodes(b: seq<byte>)
    ensures Dec(b, RPC_MSG).Good? <==> HeaderEnd(b).Some?
    ensures HeaderEnd(b).Some? ==> Dec(b, RPC_MSG).rest == b[HeaderEnd(b).value..]
  {
    if |b| < 8 {
      DecodeMsgAgrees(b);
    } else if WordAt(b, 4) == 0 {
      CallDecodes(b);
    } else {
      MsgByHeader(b);
      ReplyDecodes(b);
    }
  }

  lemma {:induction false} ReplyDecodes(b: seq<byte>)
    requires |b| >= 8 && WordAt(b, 4) != 0
    ensures WordAt(b, 4) == 1 ==>
              var h := Dec(b[8..], REPLY_HEADER);
              match HeaderEnd(b)
              case None => h.Bad?
              case Some(end) =>
                && h.Good? && h.rest == b[end..] && h.value.VUnion? && h.value.tag == Signed(WordAt(b, 8))
                && (h.value.tag == 0 ==> AcceptedAt(b, Good(h.value.v, h.rest)))
  {
    if |b| >= 12 {
      WordBehind(b, 8, 0);
      assert b[8..][4..] == b[12..];
      DecAccepted(b);
      DecDenied(b);
    }
  }

  // ----- the bytes of requests and replies -----

  const NO_AUTH_BYTES: seq<byte> := [0, 0, 0, 0, 0, 0, 0, 0]

  lemma {:induction false} EmptyBytes()
    ensures Word(0) == [0, 0, 0, 0] && EncOpaque([]) == [0, 0, 0, 0] && [0, 0, 0, 0] + [0, 0, 0, 0] == NO_AUTH_BYTES
  {
    assert Zeros(PadLen(0)) == [];
  }

  lemma {:induction false} NoAuthBytes()
    ensures Typed(NO_AUTH, OPAQUE_AUTH) && Enc(NO_AUTH, OPAQUE_AUTH) == NO_AUTH_BYTES
  {
    StructBytes(VEnum(0), VOpaque([]), Enum, Opaque(400));
    EmptyBytes();
  }

  lemma {:induction false} VersionBytes(v: byte)
    ensures Typed(Versions(v, v), MISMATCH_INFO) && Enc(Versions(v, v), MISMATCH_INFO) == [0, 0, 0, v, 0, 0, 0, v]
  {
    StructBytes(VUInt(v), VUInt(v), UInt, UInt);
    assert Enc(VUInt(v), UInt) == [0, 0, 0, v];
  }

  /** A status, with the program's version twice behind status 2. */
  function StatusBytes(stat: int): seq<byte>
    requires IsInt32(stat)
  {
    if stat == 2 then [0, 0, 0, 2, 0, 0, 0, 1, 0, 0, 0, 1] else Word(Pattern(stat))
  }

  lemma {:induction false} StatusEnc(stat: int)
    requires IsInt32(stat)
    ensures var v := VUnion(stat, if stat == 2 then Versions(1, 1) else VStruct([]));
            Typed(v, REPLY_UNION) && Enc(v, REPLY_UNION) == StatusBytes(stat)
  {
    if stat == 2 {
      VersionBytes(1);
      assert Word(2) == [0, 0, 0, 2];
    } else {
      assert Typed(VStruct([]), VOID) && Enc(VStruct([]), VOID) == [];
      assert Word(Pattern(stat)) + [] == Word(Pattern(stat));
    }
  }

  /** Type 1 for a reply, 0 for accepted, and no authentication data. */
  const ACCEPTED: seq<byte> := [0, 0, 0, 1, 0, 0, 0, 0, 0, 0, 0, 0, 0, 0, 0, 0]

  lemma {:induction false} AcceptedConcat(s: seq<byte>)
    ensures Word(1) + (Word(0) + (NO_AUTH_BYTES + s)) == ACCEPTED + s
  {
    assert Word(0) == [0, 0, 0, 0] && Word(1) == [0, 0, 0, 1];
  }

  lemma {:induction false} AcceptedEnc(stat: int)
    requires IsInt32(stat)
    ensures var h := VUnion(0, VStruct([NO_AUTH, VUnion(stat, if stat == 2 then Versions(1, 1) else VStruct([]))]));
            Typed(h, REPLY_HEADER) && Word(1) + Enc(h, REPLY_HEADER) == ACCEPTED + StatusBytes(stat)
  {
    var status := VUnion(stat, if stat == 2 then Versions(1, 1) else VStruct([]));
    StatusEnc(stat);
    NoAuthBytes();
    StructBytes(NO_AUTH, status, OPAQUE_AUTH, REPLY_UNION);
    assert Typed(VStruct([NO_AUTH, status]), ACCEPTED_REPLY);
    AcceptedConcat(StatusBytes(stat));
  }

  /** The reply with an accept status. */
  lemma {:induction false} AcceptedBytes(xid: word, stat: int)
    requires IsInt32(stat)
    ensures Accepted(xid, stat) == Word(xid) + (ACCEPTED + StatusBytes(stat))
  {
    AcceptedEnc(stat);
    AcceptedMsgEnc(xid, stat);
    MsgLayout(AcceptedMsg(xid, stat));
  }

  /** Type 1 for a reply, 1 for denied, and a reject status with RPC version 2 twice or authentication status 7. */
  function DeniedTail(stat: int): seq<byte> {
    if stat == 0 then [0, 0, 0, 1, 0, 0, 0, 1, 0, 0, 0, 0, 0, 0, 0, 2, 0, 0, 0, 2]
    else [0, 0, 0, 1, 0, 0, 0, 1, 0, 0, 0, 1, 0, 0, 0, 7]
  }

  lemma {:induction false} RejectedEnc(stat: int)
    requires stat == 0 || stat == 1
    ensures var v := VUnion(stat, if stat == 0 then Versions(2, 2) else VEnum(7));
            && Typed(v, REJECTED_REPLY)
            && Enc(v, REJECTED_REPLY) == Word(stat) + if stat == 0 then [0, 0, 0, 2, 0, 0, 0, 2] else [0, 0, 0, 7]
  {
    VersionBytes(2);
    assert Word(7) == [0, 0, 0, 7];
  }

  lemma {:induction false} DeniedConcat(stat: int)
    requires stat == 0 || stat == 1
    ensures Word(1) + (Word(1) + (Word(stat) + if stat == 0 then [0, 0, 0, 2, 0, 0, 0, 2] else [0, 0, 0, 7])) ==
            DeniedTail(stat)
  {
    assert Word(0) == [0, 0, 0, 0] && Word(1) == [0, 0, 0, 1];
  }

  lemma {:induction false} DeniedEnc(stat: int)
    requires stat == 0 || stat == 1
    ensures var h := VUnion(1, VUnion(stat, if stat == 0 then Versions(2, 2) else VEnum(7)));
            Typed(h, REPLY_HEADER) && Word(1) + Enc(h, REPLY_HEADER) == DeniedTail(stat)
  {
    RejectedEnc(stat);
    DeniedConcat(stat);
  }

  /** The reply with a reject status. */
  lemma {:induction false} DeniedBytes(xid: word, stat: int)
    requires stat == 0 || stat == 1
    ensures Denied(xid, stat) == Word(xid) + DeniedTail(stat)
  {
    DeniedEnc(stat);
    DeniedMsgEnc(xid, stat);
    MsgLayout(DeniedMsg(xid, stat));
  }

  /** Type 0 for a call, RPC version 2, program 400112, version 1. */
  const CALL: seq<byte> := [0, 0, 0, 0, 0, 0, 0, 2, 0, 6, 26, 240, 0, 0, 0, 1]

  lemma {:induction false} CallWordsBytes(proc: word)
    ensures Word(0) + (Word(2) + (Word(400112) + (Word(1) + Word(proc)))) == CALL + Word(proc)
  {
    assert Word(0) == [0, 0, 0, 0] && Word(2) == [0, 0, 0, 2] && Word(1) == [0, 0, 0, 1];
    assert Word(400112) == [0, 6, 26, 240];
  }

  lemma {:induction false} CallHeaderBytes(xid: word, proc: nat)
    requires proc <= GSSX_PROC_MAX
    ensures CallHeaderFor(xid, proc) == Word(xid) + ((CALL + Word(proc)) + (NO_AUTH_BYTES + NO_AUTH_BYTES))
  {
    var m := CallMsg(xid, RPC_VERS, GSSPROXY, GSSPROXYVERS, proc);
    CallMsgEnc(xid, RPC_VERS, GSSPROXY, GSSPROXYVERS, proc);
    MsgLayout(m);
    CallHeaderLayout(m.vals[1].v);
    NoAuthBytes();
    CallWordsBytes(proc);
    Assoc(Word(0), FourWords(m.vals[1].v), NO_AUTH_BYTES + NO_AUTH_BYTES);
  }

  /** The request: xid, the words of a call, the procedure, no authentication data twice, and the argument. */
  lemma {:induction false} RequestBytes(xid: word, proc: nat, arg: Val)
    requires proc <= GSSX_PROC_MAX && Typed(arg, ClientArg(proc)) && ClientRequest(xid, proc, arg).Some?
    ensures ClientRequest(xid, proc, arg).value ==
            Word(xid) + ((CALL + Word(proc)) + (NO_AUTH_BYTES + NO_AUTH_BYTES)) + Enc(arg, ClientArg(proc))
  {
    CallHeaderBytes(xid, proc);
  }

  // ----- the daemon's answer -----

  /** The reply with an accept status, under the xid of the request. */
  function Refusal(input: seq<byte>, stat: nat): seq<byte>
    requires |input| >= 4 && stat <= 5
  {
    input[..4] + (ACCEPTED + StatusBytes(stat))
  }

  lemma {:induction false} RefusalIs(input: seq<byte>, stat: nat)
    requires |input| >= 4 && stat <= 5
    ensures Accepted(WordAt(input, 0), stat) == Refusal(input, stat)
  {
    AcceptedBytes(WordAt(input, 0), stat);
    ValueWord(input[..4]);
    assert input[0..4] == input[..4];
  }

  lemma {:induction false} DenialIs(input: seq<byte>, stat: int)
    requires |input| >= 4 && (stat == 0 || stat == 1)
    ensures Denied(WordAt(input, 0), stat) == input[..4] + DeniedTail(stat)
  {
    DeniedBytes(WordAt(input, 0), stat);
    ValueWord(input[..4]);
    assert input[0..4] == input[..4];
  }

  /** A message without a header gets no answer, and one that is a reply the status for garbage. */
  lemma {:induction false} AnswerToOthers(input: seq<byte>, exec: (nat, Val) -> Outcome)
    requires Executor(exec)
    ensures Answer(input, exec).None? <==> HeaderEnd(input).None?
    ensures HeaderEnd(input).Some? && WordAt(input, 4) == 1 ==> Answer(input, exec) == Some(Refusal(input, 4))
  {
    HeaderDecodes(input);
    if HeaderEnd(input).Some? && WordAt(input, 4) == 1 {
      MsgWords(input);
      assert input[0..4] == input[..4];
      RefusalIs(input, 4);
    }
  }

  predicate IsCall(b: seq<byte>) { |b| >= 8 && WordAt(b, 4) == 0 && CallEnd(b).Some? }

  /** The words after the type, and what they ask for. */
  lemma {:induction false} CallAsks(input: seq<byte>)
    requires IsCall(input)
    ensures Requested(input).Some? && Requested(input).value.xid == WordAt(input, 0)
    ensures Requested(input).value.verdict ==
            if WordAt(input, 8) != 2 then Deny(0)
            else if WordAt(input, 12) != 400112 then Refuse(1)
            else if WordAt(input, 16) != 1 then Refuse(2)
            else if !(1 <= WordAt(input, 20) <= 15) then Refuse(3)
            else if WordAt(input, 24) != 0 then Deny(1)
            else
              match Dec(input[CallEnd(input).value..], DaemonRow(WordAt(input, 20)).arg)
              case Bad => Refuse(4)
              case Good(arg, _) => Run(WordAt(input, 20), arg)
  {
    CallDecodes(input);
  }

  /** A call of another RPC version, program, version or procedure, or with authentication. */
  lemma {:induction false} AnswerToMisfits(input: seq<byte>, exec: (nat, Val) -> Outcome)
    requires Executor(exec) && IsCall(input)
    ensures
      var version, prog, vers, proc := WordAt(input, 8), WordAt(input, 12), WordAt(input, 16), WordAt(input, 20);
      && (version != 2 ==> Answer(input, exec) == Some(input[..4] + DeniedTail(0)))
      && (version == 2 && prog != 400112 ==> Answer(input, exec) == Some(Refusal(input, 1)))
      && (version == 2 && prog == 400112 && vers != 1 ==> Answer(input, exec) == Some(Refusal(input, 2)))
      && (version == 2 && prog == 400112 && vers == 1 && !(1 <= proc <= 15) ==>
            Answer(input, exec) == Some(Refusal(input, 3)))
      && (version == 2 && prog == 400112 && vers == 1 && 1 <= proc <= 15 && WordAt(input, 24) != 0 ==>
            Answer(input, exec) == Some(input[..4] + DeniedTail(1)))
  {
    CallAsks(input);
    DenialIs(input, 0);
    DenialIs(input, 1);
    RefusalIs(input, 1);
    RefusalIs(input, 2);
    RefusalIs(input, 3);
  }

  /** A call that gets past the header. */
  predicate IsProper(b: seq<byte>) {
    && IsCall(b) && WordAt(b, 8) == 2 && WordAt(b, 12) == 400112 && WordAt(b, 16) == 1
    && 1 <= WordAt(b, 20) <= 15 && WordAt(b, 24) == 0
  }

  /** The answer once the executor has returned: an error, a result that does not fit, or success. */
  function Served(input: seq<byte>, row: Row, o: Outcome): seq<byte>
    requires |input| >= 4 && (o.ret == 0 ==> Typed(o.res, row.res))
  {
    if o.ret != 0 || 24 + |Enc(o.res, row.res)| > MAX_RPC_SIZE then Refusal(input, 5)
    else Refusal(input, 0) + Enc(o.res, row.res)
  }

  /** The executor runs on exactly the argument that follows the header, if one decodes there. */
  lemma {:induction false} AnswerToCalls(input: seq<byte>, exec: (nat, Val) -> Outcome)
    requires Executor(exec) && IsProper(input)
    ensures var proc := WordAt(input, 20);
            match Dec(input[CallEnd(input).value..], DaemonRow(proc).arg)
            case Bad => Answer(input, exec) == Some(Refusal(input, 4))
            case Good(arg, _) =>
              && (exec(proc, arg).ret == 0 ==> Typed(exec(proc, arg).res, DaemonRow(proc).res))
              && Answer(input, exec) == Some(Served(input, DaemonRow(proc), exec(proc, arg)))
  {
    CallAsks(input);
    RefusalIs(input, 0);
    RefusalIs(input, 4);
    RefusalIs(input, 5);
    DecSound(input[CallEnd(input).value..], DaemonRow(WordAt(input, 20)).arg);
  }

  // ----- the client's result -----

  /** Where the result starts in a success reply to `xid`. */
  function ResultAt(xid: word, b: seq<byte>): (k: Option<nat>)
    ensures k.Some? ==> k.value <= |b|
  {
    if |b| < 12 || WordAt(b, 0) != xid || WordAt(b, 4) != 1 || WordAt(b, 8) != 0 then None
    else
      match AuthEnd(b, 12)
      case None => None
      case Some(e) => if |b| >= e + 4 && WordAt(b, e) == 0 then Some(e + 4) else None
  }

  /** The client gets exactly what decodes behind a success header for its xid. */
  lemma {:induction false} ResultExact(xid: word, proc: nat, b: seq<byte>)
    requires proc <= GSSX_PROC_MAX
    ensures ClientResult(xid, proc, b) ==
            match ResultAt(xid, b)
            case None => None
            case Some(k) =>
              match Dec(b[k..], ClientRes(proc))
              case Bad => None
              case Good(res, _) => Some(res)
  {
    HeaderDecodes(b);
    if HeaderEnd(b).Some? {
      MsgWords(b);
      WordBehind(b, 0, 0);
      if WordAt(b, 4) == 1 {
        MsgByHeader(b);
        ReplyDecodes(b);
      }
    }
  }
}
