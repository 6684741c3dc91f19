/**
 The Rust client against a misbehaving daemon (rust/gssproxy-client/src/lib.rs): what
 make_call makes of a reply, the behaviours its tests give a daemon, the outcome they
 predict for any three of them, and the proof that make_call ends as predicted.
 */
module ClientPrediction {
  import opened SeqLib
  import opened Wire
  import opened Xdr
  import opened Gssx
  import opened Framing
  import opened Rpc
  import opened RpcCall
  import opened RpcBytes
  import RustTypes
  import T = ClientTransport

  // ----- reading a reply -----

  const DENIED_PAIR := Struct([Enum, Enum])                                 // raw status and value
  const RUST_REPLY := Union(0, ACCEPTED_REPLY, 1, DENIED_PAIR, None)
  const RUST_UNION := Union(0, CALL_HEADER, 1, RUST_REPLY, None)
  const RUST_MSG := Struct([UInt, RUST_UNION])

  predicate KnownFlavor(auth: Val)
    requires Typed(auth, OPAQUE_AUTH)
  {
    AuthShape(auth);
    auth.vals[0].i in {0, 1, 2, 3, 6}
  }

  lemma {:induction false} AuthShape(auth: Val)
    requires Typed(auth, OPAQUE_AUTH)
    ensures |auth.vals| == 2 && auth.vals[0].VEnum?
  {
    FieldsByIndex(auth.vals, [Enum, Opaque(400)]);
  }

  /** What decoding an envelope tells the client. */
  datatype Envelope = Call(xid: word, known: bool) | Success(xid: word, known: bool) | Other(xid: word, known: bool)

  lemma {:induction false} RustShape(m: Val)
    requires Typed(m, RUST_MSG)
    ensures |m.vals| == 2 && m.vals[0].VUInt? && 0 <= m.vals[0].n < U32 && m.vals[1].VUnion?
    ensures m.vals[1].tag == 0 || m.vals[1].tag == 1
    ensures m.vals[1].tag == 0 ==> Typed(m.vals[1].v, CALL_HEADER)
    ensures m.vals[1].tag == 1 ==> Typed(m.vals[1].v, RUST_REPLY)
  {
    FieldsByIndex(m.vals, [UInt, RUST_UNION]);
    assert Typed(m.vals[1], RUST_UNION);
  }

  lemma {:induction false} RustReplyShape(r: Val)
    requires Typed(r, RUST_REPLY)
    ensures r.tag == 0 || r.tag == 1
    ensures r.tag == 0 ==> r.v.VStruct? && |r.v.vals| == 2 && Typed(r.v.vals[0], OPAQUE_AUTH) && r.v.vals[1].VUnion?
  {
    if r.tag == 0 {
      assert Typed(r.v, ACCEPTED_REPLY);
      FieldsByIndex(r.v.vals, [OPAQUE_AUTH, REPLY_UNION]);
    }
  }

  function EnvelopeOf(m: Val): Envelope
    requires Typed(m, RUST_MSG)
  {
    RustShape(m);
    var xid, h := m.vals[0].n, m.vals[1];
    if h.tag == 0 then
      CallHeaderShape(h.v);
      Call(xid, KnownFlavor(h.v.vals[4]) && KnownFlavor(h.v.vals[5]))
    else
      RustReplyShape(h.v);
      if h.v.tag == 1 then Other(xid, true)
      else if h.v.v.vals[1].tag == SUCCESS then Success(xid, KnownFlavor(h.v.v.vals[0]))
      else Other(xid, KnownFlavor(h.v.v.vals[0]))
  }

  /** The end of make_call: what it makes of a reply to the call `xid` whose result has type `ty`. */
  function Interpret(ty: Ty, xid: word, b: seq<byte>): T.Outcome {
    DecSound(b, RUST_MSG);
    match Dec(b, RUST_MSG)
    case Bad => T.DecodeError
    case Good(m, rest) =>
      var e := EnvelopeOf(m);
      if !e.known then T.DecodeError
      else if e.xid != xid || !e.Success? then T.BadReply
      else
        match Dec(rest, ty)
        case Bad => T.DecodeError
        case Good(v, _) => T.Done(v)
  }

  /** A message that is an accepted reply. */
  predicate IsAccepted(m: Val) {
    && m.VStruct? && |m.vals| == 2 && m.vals[1].VUnion? && m.vals[1].tag == 1
    && m.vals[1].v.VUnion? && m.vals[1].v.tag == 0
  }

  lemma {:induction false} AcceptedTyped(m: Val)
    requires IsAccepted(m)
    ensures Typed(m, RUST_MSG) <==> Typed(m, RPC_MSG)
  {
    FieldsByIndex(m.vals, [UInt, RUST_UNION]);
    FieldsByIndex(m.vals, [UInt, MSG_UNION]);
    assert Typed(m.vals[1], RUST_UNION) <==> Typed(m.vals[1].v, RUST_REPLY);
    assert Typed(m.vals[1], MSG_UNION) <==> Typed(m.vals[1].v, REPLY_HEADER);
    assert Typed(m.vals[1].v, RUST_REPLY) <==> Typed(m.vals[1].v.v, ACCEPTED_REPLY);
    assert Typed(m.vals[1].v, REPLY_HEADER) <==> Typed(m.vals[1].v.v, ACCEPTED_REPLY);
  }

  lemma {:induction false} SpellsPair(b: seq<byte>, vs: seq<Val>, tu: Ty, tv: Ty)
    requires |vs| == 2 && Typed(vs[0], tu) && Typed(vs[1], tv)
    ensures TypedFields(vs, [tu, tv])
    ensures SpellsFields(b, vs, [tu, tv]) <==>
            var n := |Enc(vs[0], tu)|; n <= |b| && Spells(b[..n], vs[0], tu) && Spells(b[n..], vs[1], tv)
  {
    FieldsByIndex(vs, [tu, tv]);
    var n := |Enc(vs[0], tu)|;
    assert [tu, tv][1..] == [tv] && [tv][1..] == [] && vs[1..] == [vs[1]] && vs[1..][1..] == [];
    assert TypedFields(vs[1..], [tv]);
    if n <= |b| {
      var c, m := b[n..], |Enc(vs[1], tv)|;
      if Spells(c, vs[1], tv) { SpellsLength(c, vs[1], tv); }
      if m <= |c| { assert c[m..] == [] ==> c[..m] == c; }
      assert SpellsFields(c, vs[1..], [tv]) <==> m <= |c| && Spells(c[..m], vs[1], tv) && c[m..] == [];
    }
  }

  lemma {:induction false} AcceptedSpells(b: seq<byte>, m: Val)
    requires IsAccepted(m) && Typed(m, RUST_MSG) && Typed(m, RPC_MSG)
    ensures Spells(b, m, RUST_MSG) <==> Spells(b, m, RPC_MSG)
  {
    FieldsByIndex(m.vals, [UInt, RUST_UNION]);
    FieldsByIndex(m.vals, [UInt, MSG_UNION]);
    SpellsPair(b, m.vals, UInt, RUST_UNION);
    SpellsPair(b, m.vals, UInt, MSG_UNION);
    if |b| >= 4 { ReplySpells(b[4..], m.vals[1]); }
  }

  lemma {:induction false} ReplySpells(b: seq<byte>, h: Val)
    requires h.VUnion? && h.tag == 1 && h.v.VUnion? && h.v.tag == 0 && Typed(h, RUST_UNION) && Typed(h, MSG_UNION)
    ensures Spells(b, h, RUST_UNION) <==> Spells(b, h, MSG_UNION)
  {
    if |b| >= 8 {
      var c := b[4..];
      assert Spells(c, h.v, RUST_REPLY) <==> c[..4] == Word(0) && Spells(c[4..], h.v.v, ACCEPTED_REPLY);
      assert Spells(c, h.v, REPLY_HEADER) <==> c[..4] == Word(0) && Spells(c[4..], h.v.v, ACCEPTED_REPLY);
    }
  }

  /** Both codecs read the same accepted replies. */
  lemma {:induction false} AcceptedAlike(b: seq<byte>, m: Val, rest: seq<byte>)
    requires IsAccepted(m)
    ensures Dec(b, RUST_MSG) == Good(m, rest) <==> Dec(b, RPC_MSG) == Good(m, rest)
  {
    DecExact(b, RUST_MSG, m, rest);
    DecExact(b, RPC_MSG, m, rest);
    AcceptedTyped(m);
    if Typed(m, RUST_MSG) && |rest| <= |b| { AcceptedSpells(b[..|b| - |rest|], m); }
  }

  /** The verifier of a success reply has a flavor that the Rust client knows. */
  predicate KnownVerifier(b: seq<byte>) {
    |b| >= 16 && Value(b[12..16]) in {0, 1, 2, 3, 6}
  }

  lemma {:induction false} VerifierAt(b: seq<byte>)
    requires Dec(b, RPC_MSG).Good? && IsAccepted(Dec(b, RPC_MSG).value)
    ensures |b| >= 16
    ensures var m := Dec(b, RPC_MSG).value;
      && m.vals[1].v.v.VStruct? && |m.vals[1].v.v.vals| == 2
      && m.vals[1].v.v.vals[0].VStruct? && |m.vals[1].v.v.vals[0].vals| == 2
      && m.vals[1].v.v.vals[0].vals[0] == VEnum(Signed(Value(b[12..16])))
  {
    HeaderDecodes(b);
    MsgByHeader(b);
    ReplyDecodes(b);
  }

  /** What the two clients make of the same bytes, when the C client finds a result. */
  lemma {:induction false} ResultInterpreted(xid: word, proc: nat, b: seq<byte>)
    requires GSSX_PROC_MIN <= proc <= GSSX_PROC_MAX && ClientResult(xid, proc, b).Some?
    ensures Interpret(RustTypes.Res(proc), xid, b) ==
            if KnownVerifier(b) then T.Done(ClientResult(xid, proc, b).value) else T.DecodeError
  {
    var x := Dec(b, RPC_MSG);
    DecSound(b, RPC_MSG);
    MsgShape(x.value);
    AcceptedAlike(b, x.value, x.rest);
    RustTypes.TypesAgree(proc);
    VerifierAt(b);
  }

  /**
   The two clients agree on every byte string: the Rust client has a result exactly when the C client has it and
   the verifier's flavor is one of those of RFC 1831 and RFC 2203.
   */
  lemma {:induction false} ClientsAgree(xid: word, proc: nat, b: seq<byte>, v: Val)
    requires GSSX_PROC_MIN <= proc <= GSSX_PROC_MAX
    ensures Interpret(RustTypes.Res(proc), xid, b) == T.Done(v) <==>
            ClientResult(xid, proc, b) == Some(v) && KnownVerifier(b)
  {
    if ClientResult(xid, proc, b).Some? {
      ResultInterpreted(xid, proc, b);
    } else if Interpret(RustTypes.Res(proc), xid, b).Done? {
      var x := Dec(b, RUST_MSG);
      DecSound(b, RUST_MSG);
      RustShape(x.value);
      RustReplyShape(x.value.vals[1].v);
      AcceptedAlike(b, x.value, x.rest);
      RustTypes.TypesAgree(proc);
    }
  }

  // ----- the behaviours and the prediction -----

  datatype Behavior =
    | SuccessCorrect | SuccessSlow | SuccessTrailingGarbage | WrongXid | ReplyIsCall | DeniedReply | AcceptedOther
    | EmptyResult | BadHeaderNoFragment | BadHeaderOversized | ShortBody | DropAfterRead | DropBeforeRead

  datatype Expect = ExpectOk | ExpectBadReply | ExpectFrame | ExpectDecode | ExpectIo

  /** The final outcome for a behaviour, or none if it makes the client try again. */
  function Classify(b: Behavior): Option<Expect> {
    match b
    case SuccessCorrect => Some(ExpectOk)
    case SuccessSlow => Some(ExpectOk)
    case SuccessTrailingGarbage => Some(ExpectOk)
    case WrongXid => Some(ExpectBadReply)
    case ReplyIsCall => Some(ExpectBadReply)
    case DeniedReply => Some(ExpectBadReply)
    case AcceptedOther => Some(ExpectBadReply)
    case BadHeaderNoFragment => Some(ExpectFrame)
    case BadHeaderOversized => Some(ExpectFrame)
    case EmptyResult => Some(ExpectDecode)
    case ShortBody => None
    case DropAfterRead => None
    case DropBeforeRead => None
  }

  /** The first final outcome among the first attempts, an I/O error if there is none. */
  function Simulate(bs: seq<Behavior>, i: nat): Expect
    requires i <= T.MAX_TIMEOUT_RETRY <= |bs|
    decreases T.MAX_TIMEOUT_RETRY - i
  {
    if i == T.MAX_TIMEOUT_RETRY then ExpectIo
    else if Classify(bs[i]).Some? then Classify(bs[i]).value
    else Simulate(bs, i + 1)
  }

  // ----- the daemon's side of them -----

  function ReplyMsg(xid: word, status: int): (m: Val)
    requires IsInt32(status) && status != PROG_MISMATCH
    ensures Typed(m, RUST_MSG) && EnvelopeOf(m) == if status == SUCCESS then Success(xid, true) else Other(xid, true)
  {
    var reply := VUnion(status, VStruct([]));
    NoAuthEnc();
    assert Typed(VStruct([]), VOID) && Typed(reply, REPLY_UNION);
    StructBytes(NO_AUTH, reply, OPAQUE_AUTH, REPLY_UNION);
    var h := VUnion(0, VStruct([NO_AUTH, reply]));
    assert Typed(h, RUST_REPLY) && Typed(VUnion(1, h), RUST_UNION);
    StructBytes(VUInt(xid), VUnion(1, h), UInt, RUST_UNION);
    VStruct([VUInt(xid), VUnion(1, h)])
  }

  function DenialMsg(xid: word): (m: Val)
    ensures Typed(m, RUST_MSG) && EnvelopeOf(m) == Other(xid, true)
  {
    StructBytes(VEnum(1), VEnum(0), Enum, Enum);
    var h := VUnion(1, VStruct([VEnum(1), VEnum(0)]));
    assert Typed(h, RUST_REPLY) && Typed(VUnion(1, h), RUST_UNION);
    StructBytes(VUInt(xid), VUnion(1, h), UInt, RUST_UNION);
    VStruct([VUInt(xid), VUnion(1, h)])
  }

  function CallFields(proc: word): seq<Val> {
    [VUInt(RPC_VERS), VUInt(GSSPROXY), VUInt(GSSPROXYVERS), VUInt(proc), NO_AUTH, NO_AUTH]
  }

  lemma {:induction false} CallFieldsTyped(proc: word)
    ensures Typed(VStruct(CallFields(proc)), CALL_HEADER) && Typed(VUnion(0, VStruct(CallFields(proc))), RUST_UNION)
  {
    NoAuthEnc();
    FieldsByIndex(CallFields(proc), CALL_FIELDS);
  }

  function RequestMsg(xid: word, proc: word): (m: Val)
    ensures Typed(m, RUST_MSG) && EnvelopeOf(m) == Call(xid, true)
  {
    CallFieldsTyped(proc);
    var h := VUnion(0, VStruct(CallFields(proc)));
    StructBytes(VUInt(xid), h, UInt, RUST_UNION);
    VStruct([VUInt(xid), h])
  }

  /** A call as the daemon sees it: its xid and procedure, and the result it would send. */
  datatype Scene = Scene(xid: word, proc: nat, arg: Val, res: Val)

  predicate ProperScene(s: Scene) {
    && GSSX_PROC_MIN <= s.proc <= GSSX_PROC_MAX
    && Typed(s.arg, ClientArg(s.proc)) && Typed(s.res, ClientRes(s.proc))
  }

  predicate Framed(b: Behavior) {
    || b.SuccessCorrect? || b.SuccessSlow? || b.SuccessTrailingGarbage? || b.WrongXid? || b.ReplyIsCall?
    || b.DeniedReply? || b.AcceptedOther? || b.EmptyResult?
  }

  const GARBAGE: seq<byte> := [0xAA, 0xAA, 0xAA, 0xAA, 0xAA, 0xAA, 0xAA]

  /** The envelope a behaviour puts into a frame... */
  function SentMsg(b: Behavior, s: Scene): (m: Val)
    requires Framed(b) && ProperScene(s)
    ensures Typed(m, RUST_MSG)
  {
    if b.WrongXid? then ReplyMsg((s.xid + 99) % U32, SUCCESS)
    else if b.ReplyIsCall? then RequestMsg(s.xid, s.proc)
    else if b.DeniedReply? then DenialMsg(s.xid)
    else if b.AcceptedOther? then ReplyMsg(s.xid, GARBAGE_ARGS)
    else ReplyMsg(s.xid, SUCCESS)
  }

  /** ...and what follows it there. */
  function SentTail(b: Behavior, s: Scene): seq<byte>
    requires Framed(b) && ProperScene(s)
  {
    if b.SuccessTrailingGarbage? then Enc(s.res, ClientRes(s.proc)) + GARBAGE
    else if b.ReplyIsCall? then Enc(s.arg, ClientArg(s.proc))
    else if b.DeniedReply? || b.AcceptedOther? || b.EmptyResult? then []
    else Enc(s.res, ClientRes(s.proc))
  }

  function SentBody(b: Behavior, s: Scene): seq<byte>
    requires Framed(b) && ProperScene(s)
  {
    Enc(SentMsg(b, s), RUST_MSG) + SentTail(b, s)
  }

  /** What arrives at the client. */
  function SentBytes(b: Behavior, s: Scene): seq<byte>
    requires ProperScene(s) && (Framed(b) ==> |SentBody(b, s)| <= MAX_RPC_SIZE)
  {
    if Framed(b) then Frame(SentBody(b, s))
    else if b.BadHeaderNoFragment? then Word(8)
    else if b.BadHeaderOversized? then Word(FRAGMENT_BIT + MAX_RPC_SIZE + 1)
    else if b.ShortBody? then Word(FRAGMENT_BIT + 100) + [0, 0, 0, 0]
    else []
  }

  /** An attempt on a request of `n` bytes that meets a behaviour; a daemon that closes makes a retryable error. */
  predicate Meets(a: T.Attempt, b: Behavior, s: Scene, n: nat)
    requires ProperScene(s)
  {
    && T.Retryable(T.Io(a.readError))
    && (Framed(b) ==> |SentBody(b, s)| <= MAX_RPC_SIZE)
    && a.incoming == SentBytes(b, s)
    && if b.DropBeforeRead? then T.Retryable(T.Io(a.writeError)) else a.accepted >= 4 + n
  }

  // ----- the prediction is right -----

  /** The kind of an outcome; a success must be the result the daemon sent. */
  function KindOf(r: T.Outcome, res: Val): Option<Expect> {
    match r
    case Done(v) => if v == res then Some(ExpectOk) else None
    case BadReply => Some(ExpectBadReply)
    case FrameError => Some(ExpectFrame)
    case DecodeError => Some(ExpectDecode)
    case Io(_) => Some(ExpectIo)
    case _ => None
  }

  lemma {:induction false} InterpretMsg(ty: Ty, xid: word, m: Val, tail: seq<byte>)
    requires Typed(m, RUST_MSG) && EnvelopeOf(m).known
    ensures Interpret(ty, xid, Enc(m, RUST_MSG) + tail) ==
            if EnvelopeOf(m).xid != xid || !EnvelopeOf(m).Success? then T.BadReply
            else if Dec(tail, ty).Bad? then T.DecodeError
            else T.Done(Dec(tail, ty).value)
  {
    RoundTrip(m, RUST_MSG, tail);
  }

  lemma {:induction false} NothingNeverDecodes(proc: nat)
    requires GSSX_PROC_MIN <= proc <= GSSX_PROC_MAX
    ensures Dec([], ClientRes(proc)).Bad?
  {
    var fields := ClientRes(proc).fields;
    assert fields != [] && fields[0] == STATUS;
    assert Dec([], Hyper).Bad? && DecFields([], STATUS.fields).Bad?;
    assert Dec([], STATUS).Bad? && DecFields([], fields).Bad?;
  }

  lemma {:induction false} FrameRead(body: seq<byte>)
    requires |body| <= MAX_RPC_SIZE
    ensures T.Announced(Frame(body)) == Some(|body|) && Frame(body)[4..4 + |body|] == body
  {
    FrameHeader(body, []);
    assert Frame(body) + [] == Frame(body);
  }

  /** A framed behaviour is read as its body. */
  lemma {:induction false} FramedResult(a: T.Attempt, b: Behavior, s: Scene, body: seq<byte>)
    requires ProperScene(s) && Framed(b) && |body| <= MAX_RPC_SIZE && Meets(a, b, s, |body|)
    ensures T.Result(body, a) == T.Reply(SentBody(b, s))
  {
    FrameRead(SentBody(b, s));
  }

  lemma {:induction false} FramedPredicted(b: Behavior, s: Scene)
    requires ProperScene(s) && Framed(b)
    ensures KindOf(Interpret(RustTypes.Res(s.proc), s.xid, SentBody(b, s)), s.res) == Classify(b)
  {
    RustTypes.TypesAgree(s.proc);
    var ty, tail := ClientRes(s.proc), SentTail(b, s);
    InterpretMsg(ty, s.xid, SentMsg(b, s), tail);
    if b.EmptyResult? {
      NothingNeverDecodes(s.proc);
    } else if b.SuccessTrailingGarbage? {
      RoundTrip(s.res, ty, GARBAGE);
    } else if b.SuccessCorrect? || b.SuccessSlow? {
      RoundTrip(s.res, ty, []);
      assert tail + [] == tail;
    }
  }

  lemma {:induction false} UnframedResult(a: T.Attempt, b: Behavior, s: Scene, body: seq<byte>)
    requires ProperScene(s) && !Framed(b) && |body| <= MAX_RPC_SIZE && Meets(a, b, s, |body|)
    ensures Classify(b) == Some(ExpectFrame) ==> T.Result(body, a) == T.FrameError
    ensures Classify(b) == None ==> T.Retryable(T.Result(body, a))
  {
    WordValue(8);
    WordValue(FRAGMENT_BIT + MAX_RPC_SIZE + 1);
    WordValue(FRAGMENT_BIT + 100);
    if b.ShortBody? { assert a.incoming[..4] == Word(FRAGMENT_BIT + 100); }
    else if b.BadHeaderNoFragment? || b.BadHeaderOversized? { assert a.incoming[..4] == a.incoming; }
  }

  /** One attempt: retried exactly when the behaviour has no final outcome, and otherwise ending with it. */
  lemma {:induction false} AttemptPredicted(a: T.Attempt, b: Behavior, s: Scene, body: seq<byte>)
    requires ProperScene(s) && |body| <= MAX_RPC_SIZE && Meets(a, b, s, |body|)
    ensures var r := T.Result(body, a);
            && (T.Retryable(r) <==> Classify(b).None?)
            && (Classify(b).Some? ==> KindOf(Interpreted(r, s), s.res) == Classify(b))
  {
    if Framed(b) {
      FramedResult(a, b, s, body);
      FramedPredicted(b, s);
    } else {
      UnframedResult(a, b, s, body);
    }
  }

  function Interpreted(r: T.Outcome, s: Scene): T.Outcome
    requires ProperScene(s)
  {
    if r.Reply? then Interpret(RustTypes.Res(s.proc), s.xid, r.bytes) else r
  }

  predicate AllMeet(attempts: seq<T.Attempt>, bs: seq<Behavior>, s: Scene, n: nat)
    requires ProperScene(s)
  {
    && T.MAX_TIMEOUT_RETRY <= |bs| && T.MAX_TIMEOUT_RETRY <= |attempts|
    && forall i :: 0 <= i < T.MAX_TIMEOUT_RETRY ==> Meets(attempts[i], bs[i], s, n)
  }

  lemma {:induction false} FinalPredicted(attempts: seq<T.Attempt>, bs: seq<Behavior>, s: Scene, body: seq<byte>,
          i: nat)
    requires ProperScene(s) && |body| <= MAX_RPC_SIZE && i < T.MAX_TIMEOUT_RETRY && AllMeet(attempts, bs, s, |body|)
    ensures KindOf(Interpreted(T.Result(body, attempts[T.Final(body, attempts, i)]), s), s.res) == Some(Simulate(bs, i))
    decreases T.MAX_TIMEOUT_RETRY - i
  {
    AttemptPredicted(attempts[i], bs[i], s, body);
    if Classify(bs[i]).None? && i + 1 < T.MAX_TIMEOUT_RETRY { FinalPredicted(attempts, bs, s, body, i + 1); }
  }

  /**
   For every three behaviours of the daemon, make_call ends as the prediction says: with the very result the
   daemon sent, or with the kind of error predicted.
   */
  lemma {:induction false} CallPredicted(c: T.Client, call: T.Call, bs: seq<Behavior>, s: Scene)
    requires T.Proper(c) && T.Connects(call.attempts) && ProperScene(s) && s.xid == c.nextXid
    requires |call.request(s.xid)| <= MAX_RPC_SIZE && AllMeet(call.attempts, bs, s, |call.request(s.xid)|)
    requires forall b: seq<byte> :: call.interpret(s.xid, b) == Interpret(RustTypes.Res(s.proc), s.xid, b)
    ensures KindOf(T.Step(c, call).outcome, s.res) == Some(Simulate(bs, 0))
  {
    T.CallRefinement(c, call);
    FinalPredicted(call.attempts, bs, s, call.request(s.xid), 0);
  }
}
