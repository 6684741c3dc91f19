/**
 One remote call: how the daemon answers a request (src/gp_rpc_process.c), how the
 client makes one (src/client/gpm_common.c), and what the two do together.
 */
module RpcCall {
  import opened SeqLib
  import opened Wire
  import opened Xdr
  import opened XdrMem
  import opened Gssx
  import opened Rpc
  import opened Framing

  // ----- what a request deserves -----

  /** What an executor returns: an error number (0 for none) and, if 0, a result. */
  datatype Outcome = Outcome(ret: int, res: Val)

  /** A deterministic executor gives well-formed results for well-formed arguments. */
  ghost predicate Executor(exec: (nat, Val) -> Outcome) {
    forall proc: nat, arg: Val ::
      GSSX_PROC_MIN <= proc <= GSSX_PROC_MAX && Typed(arg, DaemonRow(proc).arg) && exec(proc, arg).ret == 0
      ==> Typed(exec(proc, arg).res, DaemonRow(proc).res)
  }

  /** The treatment a message's header deserves by section 8 of RFC 1831. */
  datatype HeaderVerdict = Rejected(stat: int) | Unaccepted(stat: int) | Passed(proc: nat)

  /** ...and the whole message: rejected, accepted but not run, or a call to run. */
  datatype Verdict = Deny(stat: int) | Refuse(stat: int) | Run(proc: nat, arg: Val)

  /** What a call header says, its bodies of authentication data aside. */
  datatype CallView = CallView(rpcvers: word, prog: word, vers: word, proc: word, flavor: int)

  function CallOf(m: Val): Option<CallView>
    requires Typed(m, RPC_MSG)
  {
    MsgShape(m);
    if m.vals[1].tag != 0 then None
    else
      var c := m.vals[1].v.vals;
      Some(CallView(c[0].n, c[1].n, c[2].n, c[3].n, c[4].vals[0].i))
  }

  predicate RightVersion(c: CallView) { c.rpcvers == RPC_VERS && c.prog == GSSPROXY && c.vers == GSSPROXYVERS }

  /** Each status goes to exactly the headers it is meant for, the earlier tests taking precedence. */
  function JudgeHeader(m: Val): (v: HeaderVerdict)
    requires Typed(m, RPC_MSG)
    ensures v == Unaccepted(GARBAGE_ARGS) <==> CallOf(m).None?
    ensures v == Rejected(RPC_MISMATCH) <==> CallOf(m).Some? && CallOf(m).value.rpcvers != RPC_VERS
    ensures v == Unaccepted(PROG_UNAVAIL) <==>
            CallOf(m).Some? && CallOf(m).value.rpcvers == RPC_VERS && CallOf(m).value.prog != GSSPROXY
    ensures v == Unaccepted(PROG_MISMATCH) <==>
            && CallOf(m).Some? && CallOf(m).value.rpcvers == RPC_VERS
            && CallOf(m).value.prog == GSSPROXY && CallOf(m).value.vers != GSSPROXYVERS
    ensures v == Unaccepted(PROC_UNAVAIL) <==>
            CallOf(m).Some? && RightVersion(CallOf(m).value)
                    && !(GSSX_PROC_MIN <= CallOf(m).value.proc <= GSSX_PROC_MAX)
    ensures v == Rejected(AUTH_ERROR) <==>
            && CallOf(m).Some? && RightVersion(CallOf(m).value)
            && GSSX_PROC_MIN <= CallOf(m).value.proc <= GSSX_PROC_MAX && CallOf(m).value.flavor != 0
    ensures v.Passed? <==>
            && CallOf(m).Some? && RightVersion(CallOf(m).value)
            && GSSX_PROC_MIN <= CallOf(m).value.proc <= GSSX_PROC_MAX && CallOf(m).value.flavor == 0
    ensures v.Passed? ==> v.proc == CallOf(m).value.proc
    ensures v.Rejected? ==> v.stat == RPC_MISMATCH || v.stat == AUTH_ERROR
    ensures v.Unaccepted? ==> PROG_UNAVAIL <= v.stat <= GARBAGE_ARGS
  {
    match CallOf(m)
    case None => Unaccepted(GARBAGE_ARGS)
    case Some(c) =>
      if c.rpcvers != RPC_VERS then Rejected(RPC_MISMATCH)
      else if c.prog != GSSPROXY then Unaccepted(PROG_UNAVAIL)
      else if c.vers != GSSPROXYVERS then Unaccepted(PROG_MISMATCH)
      else if !(GSSX_PROC_MIN <= c.proc <= GSSX_PROC_MAX) then Unaccepted(PROC_UNAVAIL)
      else if c.flavor != 0 then Rejected(AUTH_ERROR)
      else Passed(c.proc)
  }

  predicate ProperVerdict(v: Verdict) {
    && (v.Deny? ==> v.stat == RPC_MISMATCH || v.stat == AUTH_ERROR)
    && (v.Refuse? ==> PROG_UNAVAIL <= v.stat <= GARBAGE_ARGS)
    && (v.Run? ==> GSSX_PROC_MIN <= v.proc <= GSSX_PROC_MAX && Typed(v.arg, DaemonRow(v.proc).arg))
  }

  function Judge(m: Val, rest: seq<byte>): (v: Verdict)
    requires Typed(m, RPC_MSG)
    ensures ProperVerdict(v)
  {
    match JudgeHeader(m)
    case Rejected(stat) => Deny(stat)
    case Unaccepted(stat) => Refuse(stat)
    case Passed(proc) =>
      DecSound(rest, DaemonRow(proc).arg);
      match Dec(rest, DaemonRow(proc).arg)
      case Bad => Refuse(GARBAGE_ARGS)
      case Good(arg, _) => Run(proc, arg)
  }

  function Xid(m: Val): word
    requires Typed(m, RPC_MSG)
  {
    MsgShape(m);
    m.vals[0].n
  }

  function Accepted(xid: word, stat: int): (r: seq<byte>)
    requires IsInt32(stat)
    ensures |r| == if stat == PROG_MISMATCH then 32 else 24
  {
    AcceptedMsgEnc(xid, stat);
    Enc(AcceptedMsg(xid, stat), RPC_MSG)
  }

  function Denied(xid: word, stat: int): (r: seq<byte>)
    requires stat == RPC_MISMATCH || stat == AUTH_ERROR
    ensures |r| == if stat == RPC_MISMATCH then 24 else 20
  {
    DeniedMsgEnc(xid, stat);
    Enc(DeniedMsg(xid, stat), RPC_MSG)
  }

  /** The reply to a verdict, given the outcome of the execution if there is one. */
  function ReplyTo(xid: word, v: Verdict, o: Outcome): (r: seq<byte>)
    requires ProperVerdict(v)
    requires v.Run? && o.ret == 0 ==> Typed(o.res, DaemonRow(v.proc).res)
    ensures 0 < |r| <= MAX_RPC_SIZE
  {
    match v
    case Deny(stat) => Denied(xid, stat)
    case Refuse(stat) => Accepted(xid, stat)
    case Run(proc, _) =>
      if o.ret != 0 || 24 + |Enc(o.res, DaemonRow(proc).res)| > MAX_RPC_SIZE then Accepted(xid, SYSTEM_ERR)
      else Accepted(xid, SUCCESS) + Enc(o.res, DaemonRow(proc).res)
  }

  datatype Request = Request(xid: word, verdict: Verdict)

  /** What an incoming byte string asks for, if its header decodes. */
  function Requested(input: seq<byte>): (r: Option<Request>)
    ensures r.Some? ==> ProperVerdict(r.value.verdict)
  {
    DecSound(input, RPC_MSG);
    match Dec(input, RPC_MSG)
    case Bad => None
    case Good(m, rest) => Some(Request(Xid(m), Judge(m, rest)))
  }

  /** The daemon's reply to an incoming byte string: none exactly when its header does not decode. */
  function Answer(input: seq<byte>, exec: (nat, Val) -> Outcome): (r: Option<seq<byte>>)
    requires Executor(exec)
    ensures r.Some? ==> 0 < |r.value| <= MAX_RPC_SIZE
  {
    match Requested(input)
    case None => None
    case Some(q) =>
      Some(ReplyTo(q.xid, q.verdict, if q.verdict.Run? then exec(q.verdict.proc, q.verdict.arg) else Outcome(0, VNone)))
  }

  // ----- the daemon's code -----

  const EACCES := 13
  const EFAULT := 14
  const EINVAL := 22

  /** gp_rpc_decode_call_header, on a message that decodes. */
  method DecodeCallHeader(m: Val) returns (ret: int, xid: word, proc: nat, acc: int, rej: int)
    requires Typed(m, RPC_MSG)
    ensures xid == Xid(m) && SUCCESS <= acc <= SYSTEM_ERR && (rej == RPC_MISMATCH || rej == AUTH_ERROR)
    ensures match JudgeHeader(m)
            case Rejected(stat) => ret == EACCES && rej == stat && proc == 0
            case Unaccepted(stat) => ret == EINVAL && acc == stat && proc == 0
            case Passed(p) => ret == 0 && proc == p
  {
    MsgShape(m);
    acc, rej, proc := SUCCESS, RPC_MISMATCH, 0;
    xid := m.vals[0].n;
    if m.vals[1].tag != 0 {
      acc := GARBAGE_ARGS;
      return EINVAL, xid, proc, acc, rej;
    }
    var chdr := m.vals[1].v.vals;
    if chdr[0].n != RPC_VERS {
      rej := RPC_MISMATCH;
      return EACCES, xid, proc, acc, rej;
    }
    if chdr[1].n != GSSPROXY {
      acc := PROG_UNAVAIL;
      return EINVAL, xid, proc, acc, rej;
    }
    if chdr[2].n != GSSPROXYVERS {
      acc := PROG_MISMATCH;
      return EINVAL, xid, proc, acc, rej;
    }
    if chdr[3].n < GSSX_PROC_MIN || chdr[3].n > GSSX_PROC_MAX {
      acc := PROC_UNAVAIL;
      return EINVAL, xid, proc, acc, rej;
    }
    if chdr[4].vals[0].i != 0 {
      rej := AUTH_ERROR;
      return EACCES, xid, proc, acc, rej;
    }
    return 0, xid, chdr[3].n, SUCCESS, rej;
  }

  /** gp_rpc_decode_call. */
  method DecodeCall(input: seq<byte>) returns (ret: int, xid: word, proc: nat, arg: Val, acc: int, rej: int)
    ensures proc <= GSSX_PROC_MAX && SUCCESS <= acc <= SYSTEM_ERR && (rej == RPC_MISMATCH || rej == AUTH_ERROR)
    ensures ret == EFAULT <==> Requested(input).None?
    ensures Requested(input).Some? ==>
              xid == Requested(input).value.xid && Codes(Requested(input).value.verdict, ret, proc, arg, acc, rej)
  {
    xid, proc, arg, acc, rej := 0, 0, VNone, SUCCESS, RPC_MISMATCH;
    DecodeMsgAgrees(input);
    DecSound(input, RPC_MSG);
    var msg := DecodeMsg(input);
    if msg.Bad? {
      return EFAULT, xid, proc, arg, acc, rej;
    }
    ret, xid, proc, acc, rej := DecodeCallHeader(msg.value);
    if ret != 0 {
      return;
    }
    DecSound(msg.rest, DaemonRow(proc).arg);
    var a := Dec(msg.rest, DaemonRow(proc).arg);
    if a.Bad? {
      acc := GARBAGE_ARGS;
      return EINVAL, xid, proc, arg, acc, rej;
    }
    arg := a.value;
  }

  /** The return and status codes that stand for a verdict. */
  predicate Codes(v: Verdict, ret: int, proc: nat, arg: Val, acc: int, rej: int) {
    match v
    case Deny(stat) => ret == EACCES && rej == stat
    case Refuse(stat) => ret == EINVAL && acc == stat
    case Run(p, a) => ret == 0 && proc == p && arg == a
  }

  /** The header gp_rpc_encode_reply_header builds for its codes. */
  function ReplyHeaderFor(xid: word, err: int, acc: int, rej: int): (m: Val)
    requires IsInt32(acc) && (rej == RPC_MISMATCH || rej == AUTH_ERROR)
    ensures Typed(m, RPC_MSG) && |Enc(m, RPC_MSG)| <= 32
  {
    if err == EACCES then DeniedMsgEnc(xid, rej); DeniedMsg(xid, rej)
    else
      var stat := if err == EINVAL then acc else if err == 0 then SUCCESS else SYSTEM_ERR;
      AcceptedMsgEnc(xid, stat); AcceptedMsg(xid, stat)
  }

  /** gp_rpc_encode_reply_header: starts over from the beginning of the buffer. */
  method EncodeReplyHeader(x: Stream, xid: word, err: int, acc: int, rej: int) returns (ret: int)
    requires x.Valid() && x.buf.Length == MAX_RPC_SIZE
    requires IsInt32(acc) && (rej == RPC_MISMATCH || rej == AUTH_ERROR)
    modifies x, x.buf
    ensures x.Valid() && (ret == 0 <==> err != EFAULT)
    ensures ret == 0 ==> x.Written() == Enc(ReplyHeaderFor(xid, err, acc, rej), RPC_MSG)
  {
    if err == EFAULT {
      return EFAULT;
    }
    var msg := ReplyHeaderFor(xid, err, acc, rej);
    x.Rewind(0);
    assert x.Written() == [];
    var encoded := PutMsg(x, msg);
    return 0;
  }

  /** gp_rpc_encode_reply. */
  method EncodeReply(x: Stream, xid: word, proc: nat, res: Val, err: int, acc: int, rej: int) returns (ret: int)
    requires x.Valid() && x.buf.Length == MAX_RPC_SIZE
    requires IsInt32(acc) && (rej == RPC_MISMATCH || rej == AUTH_ERROR)
    requires proc <= GSSX_PROC_MAX && (err == 0 ==> Typed(res, DaemonRow(proc).res))
    modifies x, x.buf
    ensures x.Valid() && (ret == 0 <==> err != EFAULT)
    ensures ret == 0 && err != 0 ==> x.Written() == Enc(ReplyHeaderFor(xid, err, acc, rej), RPC_MSG)
    ensures err == 0 ==> var body := Enc(res, DaemonRow(proc).res);
              x.Written() == if 24 + |body| <= MAX_RPC_SIZE then Accepted(xid, SUCCESS) + body
                      else Accepted(xid, SYSTEM_ERR)
  {
    ret := EncodeReplyHeader(x, xid, err, acc, rej);
    if ret != 0 || err != 0 {
      return;
    }
    assert x.Written() == Accepted(xid, SUCCESS);
    var xdrok := x.Encode(res, DaemonRow(proc).res);
    if !xdrok {
      ret := EncodeReplyHeader(x, xid, EINVAL, SYSTEM_ERR, RPC_MISMATCH);
    }
  }

  /** gp_rpc_process_call. */
  method ProcessCall(input: seq<byte>, exec: (nat, Val) -> Outcome) returns (reply: Option<seq<byte>>)
    requires Executor(exec)
    ensures reply == Answer(input, exec)
  {
    var x := new Stream(MAX_RPC_SIZE);
    var ret, xid, proc, arg, acc, rej := DecodeCall(input);
    var res := VNone;
    if ret == 0 {
      var o := exec(proc, arg);
      ret, res := o.ret, o.res;
      if ret != 0 {
        acc := SYSTEM_ERR;
        ret := EINVAL;
      }
    }
    ret := EncodeReply(x, xid, proc, res, ret, acc, rej);
    reply := if ret == 0 then Some(x.Written()) else None;
  }

  // ----- what the daemon promises -----

  lemma {:induction false} AcceptedDecodes(xid: word, stat: int, tail: seq<byte>)
    requires IsInt32(stat)
    ensures Dec(Accepted(xid, stat) + tail, RPC_MSG) == Good(AcceptedMsg(xid, stat), tail)
  {
    AcceptedMsgEnc(xid, stat);
    RoundTrip(AcceptedMsg(xid, stat), RPC_MSG, tail);
  }

  lemma {:induction false} DeniedDecodes(xid: word, stat: int)
    requires stat == RPC_MISMATCH || stat == AUTH_ERROR
    ensures Dec(Denied(xid, stat), RPC_MSG) == Good(DeniedMsg(xid, stat), [])
  {
    DeniedMsgEnc(xid, stat);
    RoundTrip(DeniedMsg(xid, stat), RPC_MSG, []);
    assert Denied(xid, stat) + [] == Denied(xid, stat);
  }

  /** An error reply is its header and nothing else. */
  lemma {:induction false} ErrorDecodes(xid: word, stat: int)
    requires IsInt32(stat)
    ensures Dec(Accepted(xid, stat), RPC_MSG) == Good(AcceptedMsg(xid, stat), [])
  {
    AcceptedDecodes(xid, stat, []);
    assert Accepted(xid, stat) + [] == Accepted(xid, stat);
  }

  /** The call ran and its whole result fits behind a success header. */
  predicate Succeeds(proc: nat, o: Outcome)
    requires proc <= GSSX_PROC_MAX && (o.ret == 0 ==> Typed(o.res, DaemonRow(proc).res))
  {
    o.ret == 0 && 24 + |Enc(o.res, DaemonRow(proc).res)| <= MAX_RPC_SIZE
  }

  /**
   Reply totality: for every byte string, no reply exactly when the header does not decode;
   otherwise a reply that decodes to the caller's xid and the status the request deserves, carrying
   the whole encoded result when it is a success and nothing at all when it is an error.
   */
  lemma {:induction false} ReplyTotality(input: seq<byte>, exec: (nat, Val) -> Outcome)
    requires Executor(exec)
    ensures Answer(input, exec).None? <==> Dec(input, RPC_MSG).Bad?
    ensures Dec(input, RPC_MSG).Good? ==>
              var q := Requested(input).value;
              var reply := Dec(Answer(input, exec).value, RPC_MSG);
              match q.verdict
              case Deny(stat) => reply == Good(DeniedMsg(q.xid, stat), [])
              case Refuse(stat) => reply == Good(AcceptedMsg(q.xid, stat), [])
              case Run(proc, arg) =>
                var o := exec(proc, arg);
                reply == if Succeeds(proc, o) then Good(AcceptedMsg(q.xid, SUCCESS), Enc(o.res, DaemonRow(proc).res))
                         else Good(AcceptedMsg(q.xid, SYSTEM_ERR), [])
  {
    if Requested(input).Some? {
      var q := Requested(input).value;
      match q.verdict
      case Deny(stat) => DeniedDecodes(q.xid, stat);
      case Refuse(stat) => ErrorDecodes(q.xid, stat);
      case Run(proc, arg) =>
        ErrorDecodes(q.xid, SYSTEM_ERR);
        var o := exec(proc, arg);
        if Succeeds(proc, o) { AcceptedDecodes(q.xid, SUCCESS, Enc(o.res, DaemonRow(proc).res)); }
    }
  }

  // ----- the client -----

  function CallHeaderFor(xid: word, proc: nat): (r: seq<byte>)
    requires proc <= GSSX_PROC_MAX
    ensures |r| == 40
  {
    CallMsgEnc(xid, RPC_VERS, GSSPROXY, GSSPROXYVERS, proc);
    Enc(CallMsg(xid, RPC_VERS, GSSPROXY, GSSPROXYVERS, proc), RPC_MSG)
  }

  /** The request for a call, if it fits the send buffer. */
  function ClientRequest(xid: word, proc: nat, arg: Val): (r: Option<seq<byte>>)
    requires proc <= GSSX_PROC_MAX && Typed(arg, ClientArg(proc))
    ensures r.Some? ==> 0 < |r.value| <= MAX_RPC_SIZE
  {
    var body := Enc(arg, ClientArg(proc));
    if 40 + |body| <= MAX_RPC_SIZE then Some(CallHeaderFor(xid, proc) + body) else None
  }

  /** gpm_make_call up to sending: header, then argument, into a buffer of MAX_RPC_SIZE. */
  method EncodeRequest(xid: word, proc: nat, arg: Val) returns (r: Option<seq<byte>>)
    requires proc <= GSSX_PROC_MAX && Typed(arg, ClientArg(proc))
    ensures r == ClientRequest(xid, proc, arg)
  {
    var x := new Stream(MAX_RPC_SIZE);
    assert x.Written() == [];
    CallMsgEnc(xid, RPC_VERS, GSSPROXY, GSSPROXYVERS, proc);
    var xdrok := PutMsg(x, CallMsg(xid, RPC_VERS, GSSPROXY, GSSPROXYVERS, proc));
    assert x.Written() == CallHeaderFor(xid, proc);
    if xdrok { xdrok := x.Encode(arg, ClientArg(proc)); }
    r := if xdrok then Some(x.Written()) else None;
  }

  /** The result a reply carries for the call `xid`, if it is a success reply to it. */
  function ClientResult(xid: word, proc: nat, b: seq<byte>): (r: Option<Val>)
    requires proc <= GSSX_PROC_MAX
  {
    DecSound(b, RPC_MSG);
    match Dec(b, RPC_MSG)
    case Bad => None
    case Good(m, rest) =>
      MsgShape(m);
      var h := m.vals[1];
      if m.vals[0].n != xid || h.tag != 1 || h.v.tag != 0 || h.v.v.vals[1].tag != SUCCESS then None
      else
        match Dec(rest, ClientRes(proc))
        case Bad => None
        case Good(res, _) => Some(res)
  }

  /** gpm_make_call after receiving. */
  method DecodeReply(xid: word, proc: nat, b: seq<byte>) returns (r: Option<Val>)
    requires proc <= GSSX_PROC_MAX
    ensures r == ClientResult(xid, proc, b)
  {
    DecodeMsgAgrees(b);
    DecSound(b, RPC_MSG);
    var msg := DecodeMsg(b);
    if msg.Bad? {
      return None;
    }
    MsgShape(msg.value);
    var m := msg.value.vals;
    if m[0].n != xid {
      return None;
    }
    if m[1].tag != 1 {
      return None;
    }
    if m[1].v.tag != 0 || m[1].v.v.vals[1].tag != SUCCESS {
      return None;
    }
    var res := Dec(msg.rest, ClientRes(proc));
    if res.Bad? {
      return None;
    }
    return Some(res.value);
  }

  // ----- the call as a whole -----

  /** The daemon reads a client's request as exactly the call the client meant. */
  lemma {:induction false} RequestUnderstood(xid: word, proc: nat, arg: Val)
    requires GSSX_PROC_MIN <= proc <= GSSX_PROC_MAX && Typed(arg, ClientArg(proc))
    requires ClientRequest(xid, proc, arg).Some?
    ensures Requested(ClientRequest(xid, proc, arg).value) == Some(Request(xid, Run(proc, arg)))
  {
    var m, body := CallMsg(xid, RPC_VERS, GSSPROXY, GSSPROXYVERS, proc), Enc(arg, ClientArg(proc));
    CallMsgEnc(xid, RPC_VERS, GSSPROXY, GSSPROXYVERS, proc);
    RoundTrip(m, RPC_MSG, body);
    TablesAgree(proc);
    RoundTrip(arg, ClientArg(proc), []);
    assert body + [] == body;
    MsgShape(m);
    assert JudgeHeader(m) == Passed(proc);
  }

  /** The client reads a success reply as exactly the result... */
  lemma {:induction false} SuccessUnderstood(xid: word, proc: nat, res: Val)
    requires proc <= GSSX_PROC_MAX && Typed(res, ClientRes(proc))
    ensures ClientResult(xid, proc, Accepted(xid, SUCCESS) + Enc(res, ClientRes(proc))) == Some(res)
  {
    var body := Enc(res, ClientRes(proc));
    AcceptedDecodes(xid, SUCCESS, body);
    RoundTrip(res, ClientRes(proc), []);
    assert body + [] == body;
  }

  /** ...and an error reply as an error. */
  lemma {:induction false} ErrorUnderstood(xid: word, proc: nat, stat: int)
    requires proc <= GSSX_PROC_MAX && IsInt32(stat) && stat != SUCCESS
    ensures ClientResult(xid, proc, Accepted(xid, stat)) == None
  {
    ErrorDecodes(xid, stat);
  }

  /** The first two words of a message that decodes are its xid and its type. */
  lemma {:induction false} MsgWords(b: seq<byte>)
    requires Dec(b, RPC_MSG).Good?
    ensures |b| >= 8 && Typed(Dec(b, RPC_MSG).value, RPC_MSG)
    ensures Xid(Dec(b, RPC_MSG).value) == Value(b[..4])
    ensures |Dec(b, RPC_MSG).value.vals| == 2 && Dec(b, RPC_MSG).value.vals[1].VUnion?
    ensures Dec(b, RPC_MSG).value.vals[1].tag == Signed(Value(b[4..8]))
  {
    DecSound(b, RPC_MSG);
    MsgShape(Dec(b, RPC_MSG).value);
    var fields := DecFields(b, [UInt, MSG_UNION]);
    var x := Dec(b, UInt);
    var xs := DecFields(x.rest, [MSG_UNION]);
    assert [UInt, MSG_UNION][1..] == [MSG_UNION];
    assert fields == Good([x.value] + xs.value, xs.rest);
    assert xs.Good? && Dec(x.rest, MSG_UNION).Good?;
    assert b[4..][..4] == b[4..8];
    assert Dec(b, RPC_MSG).value.vals == fields.value;
  }

  /** A result comes only from a reply that starts with the call's xid. */
  lemma {:induction false} ResultWords(xid: word, proc: nat, b: seq<byte>)
    requires proc <= GSSX_PROC_MAX && ClientResult(xid, proc, b).Some?
    ensures |b| >= 8 && Value(b[..4]) == xid && Value(b[4..8]) == 1
  {
    MsgWords(b);
  }

  /** Every reply starts with the xid of its request. */
  lemma {:induction false} AnswerStarts(input: seq<byte>, exec: (nat, Val) -> Outcome)
    requires Executor(exec) && Requested(input).Some?
    ensures Answer(input, exec).Some? && |Answer(input, exec).value| >= 8
    ensures Value(Answer(input, exec).value[..4]) == Requested(input).value.xid
  {
    ReplyTotality(input, exec);
    MsgWords(Answer(input, exec).value);
  }

  /** What a call should return: the executor's result if there is one and the reply fits, an error otherwise. */
  function Expected(proc: nat, arg: Val, exec: (nat, Val) -> Outcome): (r: Option<Val>)
    requires GSSX_PROC_MIN <= proc <= GSSX_PROC_MAX && Typed(arg, ClientArg(proc)) && Executor(exec)
  {
    TablesAgree(proc);
    if Succeeds(proc, exec(proc, arg)) then Some(exec(proc, arg).res) else None
  }

  /**
   The end-to-end call: whatever the procedure, the argument and the executor, if the request fits
   then the executor is run on exactly that argument, and the client gets exactly its result when
   the reply fits and an error otherwise.
   */
  lemma {:induction false} EndToEnd(xid: word, proc: nat, arg: Val, exec: (nat, Val) -> Outcome)
    requires GSSX_PROC_MIN <= proc <= GSSX_PROC_MAX && Typed(arg, ClientArg(proc)) && Executor(exec)
    ensures ClientRequest(xid, proc, arg).Some? <==> 40 + |Enc(arg, ClientArg(proc))| <= MAX_RPC_SIZE
    ensures ClientRequest(xid, proc, arg).Some? ==>
              var input := ClientRequest(xid, proc, arg).value;
              && Requested(input) == Some(Request(xid, Run(proc, arg)))
              && Answer(input, exec).Some?
              && ClientResult(xid, proc, Answer(input, exec).value) == Expected(proc, arg, exec)
  {
    if ClientRequest(xid, proc, arg).Some? {
      RequestUnderstood(xid, proc, arg);
      TablesAgree(proc);
      var o := exec(proc, arg);
      if Succeeds(proc, o) {
        SuccessUnderstood(xid, proc, o.res);
      } else {
        ErrorUnderstood(xid, proc, SYSTEM_ERR);
      }
    }
  }
}
