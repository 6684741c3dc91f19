/**
 The C client's exchange with the daemon (gpm_send_recv_loop and gpm_make_call of
 src/client/gpm_common.c): the retries after timeouts, when a kept socket stays in
 step, a whole remote call over two byte streams, and runs of calls on one socket.
 */
module ClientExchange {
  import opened SeqLib
  import opened Wire
  import opened Xdr
  import opened Gssx
  import opened Framing
  import opened RpcCall
  import opened ClientWire

  // ----- retries, and what they leave behind -----

  /**
   What one round of gpm_send_recv_loop meets: `incoming` is what comes on its socket if the request goes
   out, and `retry` is how reopening the socket after a timeout ends.
   */
  datatype Round = Round(sends: seq<Event>, reopen: int, incoming: seq<byte>, alloc: bool, receives: seq<Event>,
                         retry: int)

  /** The socket after an exchange: whether there is one, and what went out and came in on it during the exchange. */
  datatype Kept = Kept(open: bool, out: seq<byte>, taken: seq<byte>)

  predicate RealRounds(rounds: seq<Round>) {
    forall i :: 0 <= i < |rounds| ==> RealErrors(rounds[i].sends) && RealErrors(rounds[i].receives)
  }

  /** Nothing is kept, or nothing happened on it, or exactly one request went out and one reply came in. */
  predicate InStep(k: Kept, request: seq<byte>) {
    !k.open || (k.out == [] && k.taken == [])
    || (|request| <= MAX_RPC_SIZE && k.out == Frame(request) && Whole(k.taken))
  }

  const MAX_TIMEOUT_RETRY := 3

  /** What a round returns. */
  function RoundRet(request: seq<byte>, r: Round): Option<int> {
    var sent := SendRet(request, r.sends, r.reopen);
    if sent == Some(0) then RecvRet(r.incoming, r.receives, r.alloc) else sent
  }

  /** The events of a round let no byte of the request out, or all of it and one whole message in. */
  predicate Synchronous(request: seq<byte>, r: Round) {
    || !(|request| <= MAX_RPC_SIZE && Begins(r.sends, r.reopen))
    || (Sendable(request, r.sends, r.reopen) && Drained(r.incoming, r.receives, r.alloc))
  }

  /** `taken` bytes off the incoming stream are the reply. */
  predicate Took(r: Round, reply: seq<byte>, taken: seq<byte>) {
    taken <= r.incoming && Received(r.incoming) == Some(Message(reply, r.incoming[|taken|..]))
  }

  /** The receive goes wrong before a byte of the reply is read. */
  predicate Untouched(es: seq<Event>) { Skip(es) == [] || !Skip(es)[0].Moved? }

  /** One round: the outcome, and the socket it leaves. */
  method OneRound(request: seq<byte>, r: Round) returns (ret: Option<int>, reply: seq<byte>, kept: Kept)
    requires RealErrors(r.sends) && RealErrors(r.receives)
    ensures ret == RoundRet(request, r)
    ensures InStep(kept, request) <==> Synchronous(request, r)
    ensures Sendable(request, r.sends, r.reopen) ==> kept.open && kept.out == Frame(request)
    ensures ret == Some(0) ==> InStep(kept, request) && Took(r, reply, kept.taken)
    ensures Untouched(r.receives) ==> kept.taken == []
  {
    var wire, abandoned, open;
    ret, wire, abandoned, open := SendBuffer(request, r.sends, r.reopen);
    reply, kept := [], Kept(open, wire, []);
    if ret != Some(0) {
      return;
    }
    var n: nat;
    ret, reply, n := RecvBuffer(r.incoming, r.receives, r.alloc);
    kept := Kept(open, wire, r.incoming[..n]);
  }

  /** The round that decides the exchange: the first that does not time out, or whose socket cannot be reopened. */
  function Deciding(request: seq<byte>, rounds: seq<Round>, i: nat): (k: nat)
    requires i <= MAX_TIMEOUT_RETRY <= |rounds|
    ensures i <= k <= MAX_TIMEOUT_RETRY
    ensures forall j :: i <= j < k ==> RoundRet(request, rounds[j]) == Some(ETIMEDOUT) && rounds[j].retry == 0
    ensures k < MAX_TIMEOUT_RETRY ==> RoundRet(request, rounds[k]) != Some(ETIMEDOUT) || rounds[k].retry != 0
    decreases MAX_TIMEOUT_RETRY - i
  {
    if i < MAX_TIMEOUT_RETRY && RoundRet(request, rounds[i]) == Some(ETIMEDOUT) && rounds[i].retry == 0
    then Deciding(request, rounds, i + 1) else i
  }

  /** What gpm_send_recv_loop returns when round k decides. */
  function LoopRet(request: seq<byte>, rounds: seq<Round>, k: nat): Option<int>
    requires k <= MAX_TIMEOUT_RETRY <= |rounds|
  {
    if k == MAX_TIMEOUT_RETRY then Some(ETIMEDOUT)
    else if RoundRet(request, rounds[k]) == Some(ETIMEDOUT) then Some(rounds[k].retry)
    else RoundRet(request, rounds[k])
  }

  /** Every round timed out, or reopening a socket failed, or the deciding round let whole messages through or none. */
  predicate StaysInStep(request: seq<byte>, rounds: seq<Round>, k: nat)
    requires k <= MAX_TIMEOUT_RETRY <= |rounds|
  {
    k == MAX_TIMEOUT_RETRY || RoundRet(request, rounds[k]) == Some(ETIMEDOUT) || Synchronous(request, rounds[k])
  }

  /**
   gpm_send_recv_loop, on a socket that is in step.  What it returns and whether a socket kept afterwards is
   in step depend on the events of the deciding round alone.
   */
  method SendRecvLoop(request: seq<byte>, rounds: seq<Round>) returns (ret: Option<int>, reply: seq<byte>, kept: Kept)
    requires |rounds| >= MAX_TIMEOUT_RETRY && RealRounds(rounds)
    ensures ret == LoopRet(request, rounds, Deciding(request, rounds, 0))
    ensures InStep(kept, request) <==> StaysInStep(request, rounds, Deciding(request, rounds, 0))
    ensures ret == Some(ETIMEDOUT) ==> InStep(kept, request)
    ensures var k := Deciding(request, rounds, 0);
            k < MAX_TIMEOUT_RETRY && RoundRet(request, rounds[k]) != Some(ETIMEDOUT) ==>
              && (Sendable(request, rounds[k].sends, rounds[k].reopen) ==> kept.open && kept.out == Frame(request))
              && (ret == Some(0) ==> InStep(kept, request) && Took(rounds[k], reply, kept.taken))
              && (Untouched(rounds[k].receives) ==> kept.taken == [])
  {
    ret, reply, kept := Some(ETIMEDOUT), [], Kept(true, [], []);
    var i := 0;
    while i < MAX_TIMEOUT_RETRY
      invariant 0 <= i <= MAX_TIMEOUT_RETRY && ret == Some(ETIMEDOUT) && kept == Kept(true, [], [])
      invariant Deciding(request, rounds, 0) == Deciding(request, rounds, i)
    {
      ret, reply, kept := OneRound(request, rounds[i]);
      if ret != Some(ETIMEDOUT) {
        return;
      }
      if rounds[i].retry != 0 {
        return Some(rounds[i].retry), [], Kept(false, [], []);
      }
      kept := Kept(true, [], []);
      i := i + 1;
    }
  }

  lemma {:induction false} TwoSends(n: nat)
    ensures AfterHeader([Moved(4), Moved(n)], 0) == Some([Moved(n)]) && Outgoing([Moved(n)]) == n
  {
    assert Skip([Moved(4), Moved(n)]) == [Moved(4), Moved(n)];
    assert [Moved(4), Moved(n)][1..] == [Moved(n)];
  }

  /** A read error after the request went out: the socket is kept with its reply unread. */
  method ReadErrorLeavesReply(request: seq<byte>, reply: seq<byte>) returns (ret: Option<int>, kept: Kept)
    requires |request| <= MAX_RPC_SIZE && |reply| <= MAX_RPC_SIZE
    ensures ret != Some(0) && kept == Kept(true, Frame(request), []) && !InStep(kept, request)
  {
    TwoSends(|request|);
    assert Skip([SysError(EIO)]) == [SysError(EIO)];
    var got;
    var r := Round([Moved(4), Moved(|request|)], 0, Frame(reply), true, [SysError(EIO)], 0);
    ret, got, kept := OneRound(request, r);
  }

  // ----- the daemon's side -----

  /** The request reaches the workers whole, in whatever pieces the daemon reads it. */
  lemma {:induction false} RequestArrives(request: seq<byte>, ins: seq<ReadEvent>)
    requires 0 < |request| <= MAX_RPC_SIZE && Willing(ins, |request|) && Budget(ins) >= |request|
    ensures ReadAll(Fresh, Frame(request), ins) == Handed(request, [])
  {
    ReassemblyComplete(request, [], ins);
    assert Frame(request) + [] == Frame(request);
  }

  /**
   The reply reaches the client whole, in whatever pieces the daemon writes it, unless the first is just the
   header.
   */
  lemma {:induction false} ReplyArrives(reply: seq<byte>, outs: seq<Send>)
    requires 0 < |reply| <= MAX_RPC_SIZE
    requires WriteAll(reply, 0, outs).Sent? && FirstAccepted(outs) != Some(4)
    ensures WriteAll(reply, 0, outs).wire == Frame(reply)
    ensures Received(WriteAll(reply, 0, outs).wire) == Some(Message(reply, []))
  {
    EmissionExact(reply, outs);
    ReceivedFrame(reply, []);
    assert Frame(reply) + [] == Frame(reply);
  }

  /** Whatever the daemon hands over after the client's frame is the request. */
  lemma {:induction false} HandedIsRequest(request: seq<byte>, read: ReadResult, ins: seq<ReadEvent>)
    requires |request| <= MAX_RPC_SIZE && read == ReadAll(Fresh, Frame(request), ins) && read.Handed?
    ensures read.body == request
  {
    ReassemblySound(Fresh, Frame(request), ins);
    assert Consumed(Fresh) + Frame(request) == Frame(request);
    FrameInjective(read.body, request, read.rest);
  }

  /** The daemon's read events on a new connection. */
  method DaemonReads(input: seq<byte>, ins: seq<ReadEvent>) returns (x: ReadResult)
    ensures x == ReadAll(Fresh, input, ins)
  {
    var b := new ReadBuffer();
    x := Pending(Fresh, input);
    for i := 0 to |ins|
      invariant fresh(b) && (b.data != null ==> fresh(b.data))
      invariant x.Pending? && b.Valid() && b.State() == x.state
      invariant ReadAll(Fresh, input, ins) == ReadAll(x.state, x.rest, ins[i..])
    {
      assert ins[i..][1..] == ins[i + 1..];
      x := b.SocketRead(x.rest, ins[i]);
      if !x.Pending? {
        return;
      }
    }
  }

  lemma {:induction false} PrependBoth(a: seq<byte>, b: seq<byte>, x: WriteResult)
    ensures Prepend(a, Prepend(b, x)) == Prepend(a + b, x)
  {
    assert a + (b + x.wire) == (a + b) + x.wire;
  }

  /** Its write events for a reply. */
  method DaemonWrites(reply: seq<byte>, outs: seq<Send>) returns (x: WriteResult)
    requires |reply| < FRAGMENT_BIT
    ensures x == WriteAll(reply, 0, outs)
  {
    var b := new WriteBuffer(reply);
    var wire := [];
    assert Prepend([], WriteAll(reply, 0, outs)) == WriteAll(reply, 0, outs);
    for i := 0 to |outs|
      invariant b.Valid() && b.data == reply
      invariant WriteAll(reply, 0, outs) == Prepend(wire, WriteAll(reply, b.pos, outs[i..]))
    {
      assert outs[i..][1..] == outs[i + 1..];
      x := b.SocketWrite(outs[i]);
      if !x.Unsent? {
        return Prepend(wire, x);
      }
      PrependBoth(wire, x.wire, WriteAll(reply, x.pos, outs[i + 1..]));
      wire := wire + x.wire;
    }
    return Prepend(wire, Unsent(b.pos, []));
  }

  // ----- a whole call -----

  /** One round of a call, with the daemon's reads and writes on the round's socket. */
  datatype Attempt = Attempt(sends: seq<Event>, reopen: int, ins: seq<ReadEvent>, outs: seq<Send>, alloc: bool,
                             receives: seq<Event>, retry: int)

  /** A whole request on the socket is handed to the workers, and so executed. */
  predicate Runs(request: seq<byte>, a: Attempt) {
    |request| <= MAX_RPC_SIZE && ReadAll(Fresh, Frame(request), a.ins).Handed?
  }

  /** What the daemon puts on the socket once a whole request is there. */
  function Answered(request: seq<byte>, exec: (nat, Val) -> Outcome, a: Attempt): seq<byte>
    requires Executor(exec)
  {
    if !Runs(request, a) || Answer(request, exec).None? then []
    else WriteAll(Answer(request, exec).value, 0, a.outs).wire
  }

  /** The daemon from the arrival of a request to the end of its writes. */
  method DaemonServes(request: seq<byte>, exec: (nat, Val) -> Outcome, a: Attempt)
    returns (incoming: seq<byte>, ran: bool)
    requires Executor(exec) && |request| <= MAX_RPC_SIZE
    ensures incoming == Answered(request, exec, a) && ran == Runs(request, a)
  {
    var read := DaemonReads(Frame(request), a.ins);
    if !read.Handed? {
      return [], false;
    }
    HandedIsRequest(request, read, a.ins);
    var reply := ProcessCall(read.body, exec);
    if reply.None? {
      return [], true;
    }
    var written := DaemonWrites(reply.value, a.outs);
    return written.wire, true;
  }

  /** Less than the whole frame on a socket is never handed over. */
  lemma {:induction false} PartNeverRuns(request: seq<byte>, wire: seq<byte>, ins: seq<ReadEvent>)
    requires |request| <= MAX_RPC_SIZE && wire < Frame(request)
    ensures !ReadAll(Fresh, wire, ins).Handed?
  {
    var read, missing := ReadAll(Fresh, wire, ins), Frame(request)[|wire|..];
    ReassemblySound(Fresh, wire, ins);
    assert Consumed(Fresh) + wire == wire;
    if read.Handed? {
      assert wire + missing == Frame(request);
      Assoc(Frame(read.body), read.rest, missing);
      FrameInjective(read.body, request, read.rest + missing);
    }
  }

  function RoundOf(request: seq<byte>, exec: (nat, Val) -> Outcome, a: Attempt): Round
    requires Executor(exec)
  {
    Round(a.sends, a.reopen, Answered(request, exec, a), a.alloc, a.receives, a.retry)
  }

  function RoundsOf(request: seq<byte>, exec: (nat, Val) -> Outcome, attempts: seq<Attempt>): (r: seq<Round>)
    requires Executor(exec)
    ensures |r| == |attempts| && forall i :: 0 <= i < |r| ==> r[i] == RoundOf(request, exec, attempts[i])
  {
    if attempts == [] then [] else [RoundOf(request, exec, attempts[0])] + RoundsOf(request, exec, attempts[1..])
  }

  /** The attempt that decides a call. */
  function Decides(request: seq<byte>, exec: (nat, Val) -> Outcome, attempts: seq<Attempt>): (k: nat)
    requires Executor(exec) && |attempts| >= MAX_TIMEOUT_RETRY
    ensures k <= MAX_TIMEOUT_RETRY
  {
    Deciding(request, RoundsOf(request, exec, attempts), 0)
  }

  /** How often the first n attempts run the executor. */
  function RunCount(request: seq<byte>, attempts: seq<Attempt>, n: nat): (c: nat)
    requires n <= |attempts|
    ensures c <= n
  {
    if n == 0 then 0
    else
      var a := attempts[n - 1];
      RunCount(request, attempts, n - 1)
      + if Sendable(request, a.sends, a.reopen) && Runs(request, a) then 1 else 0
  }

  /** The exchange succeeds, and the daemon's first accepted write was not just the header. */
  predicate Answers(request: seq<byte>, exec: (nat, Val) -> Outcome, attempts: seq<Attempt>)
    requires Executor(exec) && |attempts| >= MAX_TIMEOUT_RETRY
  {
    var k := Decides(request, exec, attempts);
    && k < MAX_TIMEOUT_RETRY && RoundRet(request, RoundOf(request, exec, attempts[k])) == Some(0)
    && FirstAccepted(attempts[k].outs) != Some(4)
  }

  /** What is found behind a length word. */
  lemma {:induction false} ReceivedBehind(wire: seq<byte>, n: nat)
    requires n <= MAX_RPC_SIZE && |wire| >= 4 && wire[..4] == Header(n)
    ensures Received(wire).Some? <==> |wire| >= 4 + n
    ensures Received(wire).Some? ==> Received(wire).value.body == wire[4..4 + n]
  {
    WordValue(FRAGMENT_BIT + n);
    assert (FRAGMENT_BIT + n) % FRAGMENT_BIT == n;
  }

  /** A message found in a prefix of a frame is the frame's. */
  lemma {:induction false} PrefixReceived(wire: seq<byte>, body: seq<byte>)
    requires |body| <= MAX_RPC_SIZE && wire <= Frame(body) && Received(wire).Some?
    ensures Received(wire).value.body == body
  {
    assert wire[..4] == Header(|body|);
    ReceivedBehind(wire, |body|);
    assert wire == Frame(body);
  }

  lemma {:induction false} InnerWords(wire: seq<byte>, n: nat)
    requires 12 <= n <= |wire|
    ensures wire[4..n][..4] == wire[4..8] && wire[4..n][4..8] == wire[8..12]
  {
    var inner := wire[4..n];
    assert forall i :: 0 <= i < 8 ==> inner[i] == wire[4 + i];
  }

  /** The words at the front of a message say that it is a header and then a header or a reply. */
  predicate Garbled(body: seq<byte>, reply: seq<byte>)
    requires 8 <= |reply| <= MAX_RPC_SIZE
  {
    |body| >= 8 && body[..4] == Header(|reply|) && (body[4..8] == Header(|reply|) || body[4..8] == reply[..4])
  }

  lemma {:induction false} GarbledMessage(wire: seq<byte>, reply: seq<byte>)
    requires 8 <= |reply| <= MAX_RPC_SIZE && |wire| >= 4 + |reply|
    requires wire[..4] == Header(|reply|) && Garbled(wire[4..12], reply)
    ensures Received(wire).Some? && Garbled(Received(wire).value.body, reply)
  {
    ReceivedBehind(wire, |reply|);
    InnerWords(wire, 4 + |reply|);
    InnerWords(wire, 12);
  }

  lemma {:induction false} GarbledWords(reply: seq<byte>, outs: seq<Send>)
    requires 8 <= |reply| <= MAX_RPC_SIZE
    requires FirstAccepted(outs) == Some(4) && |WriteAll(reply, 0, outs).wire| >= 4 + |reply|
    ensures WriteAll(reply, 0, outs).wire[..4] == Header(|reply|)
    ensures Garbled(WriteAll(reply, 0, outs).wire[4..12], reply)
  {
    HeaderAgain(reply, outs);
    InnerWords(WriteAll(reply, 0, outs).wire, 12);
  }

  /** A reply whose header went out twice is refused: no word can be both the length word and the message type. */
  lemma {:induction false} GarbledRefused(xid: word, proc: nat, reply: seq<byte>, outs: seq<Send>)
    requires proc <= GSSX_PROC_MAX && 8 <= |reply| <= MAX_RPC_SIZE && Value(reply[..4]) == xid
    requires FirstAccepted(outs) == Some(4) && Received(WriteAll(reply, 0, outs).wire).Some?
    ensures ClientResult(xid, proc, Received(WriteAll(reply, 0, outs).wire).value.body) == None
  {
    var wire := WriteAll(reply, 0, outs).wire;
    var body := Received(wire).value.body;
    WireStarts(reply, outs);
    ReceivedBehind(wire, |reply|);
    GarbledWords(reply, outs);
    GarbledMessage(wire, reply);
    WordValue(FRAGMENT_BIT + |reply|);
    if ClientResult(xid, proc, body).Some? { ResultWords(xid, proc, body); }
  }

  /** What the client makes of the message it finds in the daemon's writes. */
  lemma {:induction false} ReplyRead(xid: word, proc: nat, arg: Val, exec: (nat, Val) -> Outcome, request: seq<byte>,
                                     a: Attempt)
    requires GSSX_PROC_MIN <= proc <= GSSX_PROC_MAX && Typed(arg, ClientArg(proc)) && Executor(exec)
    requires ClientRequest(xid, proc, arg) == Some(request) && Received(Answered(request, exec, a)).Some?
    ensures Runs(request, a)
    ensures ClientResult(xid, proc, Received(Answered(request, exec, a)).value.body) ==
            if FirstAccepted(a.outs) != Some(4) then Expected(proc, arg, exec) else None
  {
    EndToEnd(xid, proc, arg, exec);
    AnswerStarts(request, exec);
    var reply := Answer(request, exec).value;
    if FirstAccepted(a.outs) != Some(4) {
      WireStarts(reply, a.outs);
      PrefixReceived(Answered(request, exec, a), reply);
    } else {
      GarbledRefused(xid, proc, reply, a.outs);
    }
  }

  predicate RealAttempts(attempts: seq<Attempt>) {
    forall i :: 0 <= i < |attempts| ==> RealErrors(attempts[i].sends) && RealErrors(attempts[i].receives)
  }

  /** What the daemon would do on the socket of each attempt. */
  method DaemonRounds(request: seq<byte>, exec: (nat, Val) -> Outcome, attempts: seq<Attempt>)
    returns (rounds: seq<Round>, ran: seq<bool>)
    requires Executor(exec) && |request| <= MAX_RPC_SIZE
    ensures rounds == RoundsOf(request, exec, attempts)
    ensures |ran| == |attempts| && forall i :: 0 <= i < |ran| ==> ran[i] == Runs(request, attempts[i])
  {
    rounds, ran := [], [];
    for i := 0 to |attempts|
      invariant |rounds| == |ran| == i
      invariant forall j :: 0 <= j < i ==> rounds[j] == RoundOf(request, exec, attempts[j])
      invariant forall j :: 0 <= j < i ==> ran[j] == Runs(request, attempts[j])
    {
      var a := attempts[i];
      var incoming, run := DaemonServes(request, exec, a);
      rounds, ran := rounds + [Round(a.sends, a.reopen, incoming, a.alloc, a.receives, a.retry)], ran + [run];
    }
  }

  /** How often it has run the executor: once on each socket on which the whole request went out. */
  method CountRuns(request: seq<byte>, attempts: seq<Attempt>, ran: seq<bool>, n: nat) returns (runs: nat)
    requires n <= |attempts| == |ran| && forall i :: 0 <= i < |ran| ==> ran[i] == Runs(request, attempts[i])
    ensures runs == RunCount(request, attempts, n)
  {
    runs := 0;
    for i := 0 to n
      invariant runs == RunCount(request, attempts, i)
    {
      if Sendable(request, attempts[i].sends, attempts[i].reopen) && ran[i] {
        runs := runs + 1;
      }
    }
  }

  /** What a call returns, and how often the executor runs for it. */
  ghost predicate Called(proc: nat, arg: Val, exec: (nat, Val) -> Outcome, request: seq<byte>, attempts: seq<Attempt>,
                         r: Option<Val>, runs: nat)
    requires GSSX_PROC_MIN <= proc <= GSSX_PROC_MAX && Typed(arg, ClientArg(proc)) && Executor(exec)
    requires |attempts| >= MAX_TIMEOUT_RETRY
  {
    && r == (if Answers(request, exec, attempts) then Expected(proc, arg, exec) else None)
    && runs == RunCount(request, attempts, Min(Decides(request, exec, attempts) + 1, MAX_TIMEOUT_RETRY))
  }

  /** The exchange succeeds exactly when its deciding round does. */
  lemma {:induction false} LoopSucceeds(request: seq<byte>, rounds: seq<Round>)
    requires |rounds| >= MAX_TIMEOUT_RETRY
    ensures var k := Deciding(request, rounds, 0);
            LoopRet(request, rounds, k) == Some(0) <==>
            k < MAX_TIMEOUT_RETRY && RoundRet(request, rounds[k]) == Some(0)
  {
  }

  /** The end of a call whose exchange succeeded. */
  lemma {:induction false} CallEnds(xid: word, proc: nat, arg: Val, exec: (nat, Val) -> Outcome, request: seq<byte>,
                                    attempts: seq<Attempt>, k: nat, reply: seq<byte>, taken: seq<byte>)
    requires GSSX_PROC_MIN <= proc <= GSSX_PROC_MAX && Typed(arg, ClientArg(proc)) && Executor(exec)
    requires |attempts| >= MAX_TIMEOUT_RETRY && RealAttempts(attempts) && ClientRequest(xid, proc, arg) == Some(request)
    requires k == Decides(request, exec, attempts) < MAX_TIMEOUT_RETRY
    requires RoundRet(request, RoundOf(request, exec, attempts[k])) == Some(0)
    requires Took(RoundOf(request, exec, attempts[k]), reply, taken)
    ensures Called(proc, arg, exec, request, attempts, ClientResult(xid, proc, reply),
                   RunCount(request, attempts, k + 1))
    ensures RunCount(request, attempts, k + 1) >= 1
  {
    ReplyRead(xid, proc, arg, exec, request, attempts[k]);
  }

  /** ...and of one whose exchange failed. */
  lemma {:induction false} CallFails(proc: nat, arg: Val, exec: (nat, Val) -> Outcome, request: seq<byte>,
                                     attempts: seq<Attempt>)
    requires GSSX_PROC_MIN <= proc <= GSSX_PROC_MAX && Typed(arg, ClientArg(proc)) && Executor(exec)
    requires |attempts| >= MAX_TIMEOUT_RETRY
    requires LoopRet(request, RoundsOf(request, exec, attempts), Decides(request, exec, attempts)) != Some(0)
    ensures Called(proc, arg, exec, request, attempts, None,
                   RunCount(request, attempts, Min(Decides(request, exec, attempts) + 1, MAX_TIMEOUT_RETRY)))
  {
    LoopSucceeds(request, RoundsOf(request, exec, attempts));
  }

  /** The exchange of a call and the reading of its reply. */
  method Transact(xid: word, proc: nat, arg: Val, exec: (nat, Val) -> Outcome, request: seq<byte>,
                  attempts: seq<Attempt>)
    returns (r: Option<Val>, runs: nat)
    requires GSSX_PROC_MIN <= proc <= GSSX_PROC_MAX && Typed(arg, ClientArg(proc)) && Executor(exec)
    requires |attempts| >= MAX_TIMEOUT_RETRY && RealAttempts(attempts) && ClientRequest(xid, proc, arg) == Some(request)
    ensures Called(proc, arg, exec, request, attempts, r, runs) && (r.Some? ==> runs >= 1)
  {
    var rounds, ran := DaemonRounds(request, exec, attempts);
    var ret, reply, kept := SendRecvLoop(request, rounds);
    var k := Deciding(request, rounds, 0);
    runs := CountRuns(request, attempts, ran, Min(k + 1, MAX_TIMEOUT_RETRY));
    LoopSucceeds(request, rounds);
    if ret != Some(0) {
      CallFails(proc, arg, exec, request, attempts);
      return None, runs;
    }
    CallEnds(xid, proc, arg, exec, request, attempts, k, reply, kept.taken);
    r := DecodeReply(xid, proc, reply);
  }

  /**
   gpm_make_call against the daemon, the retries included.  The call returns the executor's result exactly when
   the exchange succeeds and the daemon's first accepted write was not just the header, and an error otherwise.
   The executor has run once for every attempt whose request went out whole and was read whole.
   */
  method MakeCall(xid: word, proc: nat, arg: Val, exec: (nat, Val) -> Outcome, attempts: seq<Attempt>)
    returns (r: Option<Val>, runs: nat)
    requires GSSX_PROC_MIN <= proc <= GSSX_PROC_MAX && Typed(arg, ClientArg(proc)) && Executor(exec)
    requires |attempts| >= MAX_TIMEOUT_RETRY && RealAttempts(attempts)
    ensures ClientRequest(xid, proc, arg).None? ==> r.None? && runs == 0
    ensures ClientRequest(xid, proc, arg).Some? ==>
              Called(proc, arg, exec, ClientRequest(xid, proc, arg).value, attempts, r, runs)
    ensures runs <= MAX_TIMEOUT_RETRY && (r.Some? ==> runs >= 1)
  {
    var request := EncodeRequest(xid, proc, arg);
    if request.None? {
      return None, 0;
    }
    r, runs := Transact(xid, proc, arg, exec, request.value, attempts);
  }

  /** What the events of both sides must allow for an attempt to get through. */
  predicate Served(request: seq<byte>, reply: seq<byte>, a: Attempt) {
    && Sendable(request, a.sends, a.reopen)
    && Willing(a.ins, |request|) && Budget(a.ins) >= |request|
    && 0 < |reply| <= MAX_RPC_SIZE && WriteAll(reply, 0, a.outs).Sent? && FirstAccepted(a.outs) != Some(4)
    && Receivable(Frame(reply), a.receives, a.alloc)
  }

  /**
   A call over the wire.  The client's frame, read by the daemon in any pieces that offer enough, is
   handed over as exactly the request and answered; if the answer is written, in any pieces of which the
   first is not just the header, the client finds exactly the answer and makes of it what the executor returned.
   */
  lemma {:induction false} CallOverTheWire(xid: word, proc: nat, arg: Val, exec: (nat, Val) -> Outcome,
                                           request: seq<byte>, reply: seq<byte>, ins: seq<ReadEvent>, outs: seq<Send>)
    requires GSSX_PROC_MIN <= proc <= GSSX_PROC_MAX && Typed(arg, ClientArg(proc)) && Executor(exec)
    requires ClientRequest(xid, proc, arg) == Some(request) && Willing(ins, |request|) && Budget(ins) >= |request|
    requires 0 < |reply| <= MAX_RPC_SIZE && WriteAll(reply, 0, outs).Sent? && FirstAccepted(outs) != Some(4)
    ensures ReadAll(Fresh, Frame(request), ins) == Handed(request, [])
    ensures Answer(request, exec).Some?
    ensures Answer(request, exec) == Some(reply) ==>
              && Received(WriteAll(reply, 0, outs).wire) == Some(Message(reply, []))
              && ClientResult(xid, proc, reply) == Expected(proc, arg, exec)
  {
    RequestArrives(request, ins);
    EndToEnd(xid, proc, arg, exec);
    ReplyArrives(reply, outs);
  }

  /** A call whose first attempts time out and whose next one is served gets its answer. */
  lemma {:induction false} ServedAnswers(request: seq<byte>, exec: (nat, Val) -> Outcome, attempts: seq<Attempt>,
                                         k: nat)
    requires Executor(exec) && Answer(request, exec).Some? && 0 < |request| <= MAX_RPC_SIZE
    requires k < MAX_TIMEOUT_RETRY <= |attempts| && RealAttempts(attempts)
    requires forall j :: 0 <= j < k ==>
               RoundRet(request, RoundOf(request, exec, attempts[j])) == Some(ETIMEDOUT) && attempts[j].retry == 0
    requires Served(request, Answer(request, exec).value, attempts[k])
    ensures Answers(request, exec, attempts)
  {
    RequestArrives(request, attempts[k].ins);
    ReplyArrives(Answer(request, exec).value, attempts[k].outs);
    assert RoundRet(request, RoundOf(request, exec, attempts[k])) == Some(0);
    var d := Decides(request, exec, attempts);
    assert d == k;
  }

  /** Replies that come too late: the executor runs three times for a call that fails. */
  lemma {:induction false} LateRepliesRunThrice(request: seq<byte>, exec: (nat, Val) -> Outcome, ins: seq<ReadEvent>,
                                                outs: seq<Send>)
    requires Executor(exec) && 0 < |request| <= MAX_RPC_SIZE
    requires Willing(ins, |request|) && Budget(ins) >= |request|
    ensures var a := Attempt([Moved(4), Moved(|request|)], 0, ins, outs, true, [WaitError(ETIMEDOUT)], 0);
            !Answers(request, exec, [a, a, a]) && RunCount(request, [a, a, a], 3) == 3
  {
    var a := Attempt([Moved(4), Moved(|request|)], 0, ins, outs, true, [WaitError(ETIMEDOUT)], 0);
    TwoSends(|request|);
    RequestArrives(request, ins);
    assert Skip(a.receives) == a.receives;
    assert RoundRet(request, RoundOf(request, exec, a)) == Some(ETIMEDOUT);
    assert RunCount(request, [a, a, a], 1) == 1 && RunCount(request, [a, a, a], 2) == 2;
  }

  // ----- runs of calls on one socket -----

  predicate Int32(n: int) { -0x8000_0000 <= n < 0x8000_0000 }

  /** gpm_next_xid: the number taken... */
  function TakenXid(next: int): word
    requires Int32(next)
  {
    if next < 0 then 0 else next
  }

  /** ...and the counter afterwards, which wraps around to the negative. */
  function NextXid(next: int): (r: int)
    requires Int32(next)
    ensures Int32(r) && TakenXid(r) == (TakenXid(next) + 1) % 0x8000_0000
  {
    if next < 0 then 1 else if next == 0x7FFF_FFFF then -0x8000_0000 else next + 1
  }

  /** A call on a kept socket, with the events the client meets. */
  datatype Call = Call(proc: nat, arg: Val, sends: seq<Event>, reopen: int, alloc: bool, receives: seq<Event>)

  /** A well-formed call, which fits whatever its number. */
  predicate Fits(c: Call) {
    && GSSX_PROC_MIN <= c.proc <= GSSX_PROC_MAX && Typed(c.arg, ClientArg(c.proc))
    && 40 + |Enc(c.arg, ClientArg(c.proc))| <= MAX_RPC_SIZE
    && RealErrors(c.sends) && RealErrors(c.receives)
  }

  /** The request goes out on the kept socket, all of it. */
  predicate GoesOut(c: Call) {
    HeaderMoves(c.sends) && Outgoing(Rest(c.sends)) >= MAX_RPC_SIZE
  }

  /** A message comes in, all of it, whichever it is. */
  predicate ComesIn(c: Call) {
    c.alloc && HeaderMoves(c.receives) && Incoming(Rest(c.receives)) >= MAX_RPC_SIZE
  }

  /** The receive fails, other than by a timeout, before a byte of the reply is read. */
  predicate FailsEarly(c: Call) {
    Skip(c.receives) != [] && !Skip(c.receives)[0].Moved? && Skip(c.receives)[0] != WaitError(ETIMEDOUT)
  }

  function RequestOf(next: int, c: Call): (r: seq<byte>)
    requires Int32(next) && Fits(c)
    ensures 0 < |r| <= MAX_RPC_SIZE
  {
    ClientRequest(TakenXid(next), c.proc, c.arg).value
  }

  /** The daemon's reply to the call. */
  function ReplyFor(next: int, c: Call, exec: (nat, Val) -> Outcome): (r: seq<byte>)
    requires Int32(next) && Fits(c) && Executor(exec)
    ensures 8 <= |r| <= MAX_RPC_SIZE && Value(r[..4]) == TakenXid(next)
    ensures ClientResult(TakenXid(next), c.proc, r) == Expected(c.proc, c.arg, exec)
  {
    EndToEnd(TakenXid(next), c.proc, c.arg, exec);
    AnswerStarts(RequestOf(next, c), exec);
    Answer(RequestOf(next, c), exec).value
  }

  /** A message that comes in is found and nothing else. */
  lemma {:induction false} InTurn(request: seq<byte>, r: Round)
    requires |request| <= MAX_RPC_SIZE && RealErrors(r.sends) && RealErrors(r.receives)
    requires HeaderMoves(r.sends) && Outgoing(Rest(r.sends)) >= MAX_RPC_SIZE
    ensures Received(r.incoming).Some? && r.alloc && HeaderMoves(r.receives)
            && Incoming(Rest(r.receives)) >= MAX_RPC_SIZE
            ==> RoundRet(request, r) == Some(0)
    ensures Untouched(r.receives) && Skip(r.receives) != [] && Skip(r.receives)[0] != WaitError(ETIMEDOUT)
            ==> RoundRet(request, r).Some? && RoundRet(request, r) != Some(0) && RoundRet(request, r) != Some(ETIMEDOUT)
  {
  }

  /**
   A call on a kept socket with `unread` bytes still on it, behind which the daemon puts its reply.  The client
   takes the first message there is; after an early failure all of it is left.
   */
  method CallOn(next: int, unread: seq<byte>, c: Call, exec: (nat, Val) -> Outcome)
    returns (r: Option<Val>, left: seq<byte>)
    requires Int32(next) && Fits(c) && GoesOut(c) && Executor(exec)
    requires FailsEarly(c) || (ComesIn(c) && Received(unread + Frame(ReplyFor(next, c, exec))).Some?)
    ensures FailsEarly(c) ==> r == None && left == unread + Frame(ReplyFor(next, c, exec))
    ensures !FailsEarly(c) ==>
              var m := Received(unread + Frame(ReplyFor(next, c, exec))).value;
              r == ClientResult(TakenXid(next), c.proc, m.body) && left == m.rest
  {
    var xid := TakenXid(next);
    var request := EncodeRequest(xid, c.proc, c.arg);
    var reply := ProcessCall(request.value, exec);
    EndToEnd(xid, c.proc, c.arg, exec);
    assert reply == Some(ReplyFor(next, c, exec));
    var round := Round(c.sends, c.reopen, unread + Frame(reply.value), c.alloc, c.receives, 0);
    InTurn(request.value, round);
    var ret, got, kept := SendRecvLoop(request.value, [round, round, round]);
    left := round.incoming[|kept.taken|..];
    if ret != Some(0) {
      return None, left;
    }
    r := DecodeReply(xid, c.proc, got);
  }

  /** One whole message is unread, and it is not for the next call. */
  predicate Stale(unread: seq<byte>, next: int)
    requires Int32(next)
  {
    Whole(unread) && |unread| >= 8 && Value(unread[4..8]) != TakenXid(next)
  }

  /** A reply left on the socket is stale for the calls to come. */
  lemma {:induction false} LeftIsStale(next: int, c: Call, exec: (nat, Val) -> Outcome)
    requires Int32(next) && Fits(c) && Executor(exec)
    ensures Stale(Frame(ReplyFor(next, c, exec)), NextXid(next))
  {
    var reply := ReplyFor(next, c, exec);
    ReceivedFrame(reply, []);
    assert Frame(reply) + [] == Frame(reply);
    assert Frame(reply)[4..8] == reply[..4];
  }

  /** A stale message comes first, and no call gets a result from it. */
  lemma {:induction false} StaleRefused(unread: seq<byte>, next: int, proc: nat, tail: seq<byte>)
    requires Int32(next) && proc <= GSSX_PROC_MAX && Stale(unread, next)
    ensures Received(unread + tail) == Some(Message(unread[4..], tail))
    ensures ClientResult(TakenXid(next), proc, unread[4..]) == None
  {
    var input := unread + tail;
    assert input[..|unread|] == unread && input[|unread|..] == tail && input[4..|unread|] == unread[4..];
    WholePrefix(input, |unread|);
    assert unread[4..][..4] == unread[4..8];
    if ClientResult(TakenXid(next), proc, unread[4..]).Some? { ResultWords(TakenXid(next), proc, unread[4..]); }
  }

  predicate Smooth(c: Call) { Fits(c) && GoesOut(c) && ComesIn(c) }

  predicate AllSmooth(calls: seq<Call>) { forall i :: 0 <= i < |calls| ==> Smooth(calls[i]) }

  /** A call that sends its request and reads a message, on a socket in step or one reply behind. */
  method SmoothCall(next: int, unread: seq<byte>, c: Call, exec: (nat, Val) -> Outcome)
    returns (r: Option<Val>, left: seq<byte>)
    requires Int32(next) && Smooth(c) && Executor(exec)
    requires unread == [] || Stale(unread, next)
    ensures unread == [] ==> left == [] && r == Expected(c.proc, c.arg, exec)
    ensures unread != [] ==> Stale(left, NextXid(next)) && r == None
  {
    ghost var reply := ReplyFor(next, c, exec);
    if unread == [] {
      ReceivedFrame(reply, []);
      assert unread + Frame(reply) == Frame(reply) + [];
    } else {
      LeftIsStale(next, c, exec);
      StaleRefused(unread, next, c.proc, Frame(reply));
    }
    r, left := CallOn(next, unread, c, exec);
  }

  /**
   A run of calls on one socket, each of which sends its request and reads a message.  On a socket in step each
   gets its own result; on one with a stale reply none ever gets a result, however many calls are made.
   */
  method CallsOn(next: int, unread: seq<byte>, calls: seq<Call>, exec: (nat, Val) -> Outcome)
    returns (results: seq<Option<Val>>, left: seq<byte>)
    requires Int32(next) && AllSmooth(calls) && Executor(exec)
    requires unread == [] || Stale(unread, next)
    ensures |results| == |calls|
    ensures unread == [] ==>
              left == [] && forall i :: 0 <= i < |calls| ==> results[i] == Expected(calls[i].proc, calls[i].arg, exec)
    ensures unread != [] ==> Whole(left) && forall i :: 0 <= i < |calls| ==> results[i] == None
  {
    results, left := [], unread;
    var n := next;
    for i := 0 to |calls|
      invariant Int32(n) && |results| == i
      invariant unread == [] ==>
                  left == [] && forall j :: 0 <= j < i ==> results[j] == Expected(calls[j].proc, calls[j].arg, exec)
      invariant unread != [] ==> Stale(left, n) && forall j :: 0 <= j < i ==> results[j] == None
    {
      var r;
      r, left := SmoothCall(n, left, calls[i], exec);
      results, n := results + [r], NextXid(n);
    }
  }

  /** A read error puts the client one reply behind for good: this call and all later ones on the socket fail. */
  method BehindForGood(next: int, first: Call, calls: seq<Call>, exec: (nat, Val) -> Outcome)
    returns (results: seq<Option<Val>>, left: seq<byte>)
    requires Int32(next) && Executor(exec) && Fits(first) && GoesOut(first) && FailsEarly(first) && AllSmooth(calls)
    ensures |results| == 1 + |calls| && Whole(left)
    ensures forall i :: 0 <= i < |results| ==> results[i] == None
  {
    var r;
    r, left := CallOn(next, [], first, exec);
    assert [] + Frame(ReplyFor(next, first, exec)) == Frame(ReplyFor(next, first, exec));
    LeftIsStale(next, first, exec);
    results, left := CallsOn(NextXid(next), left, calls, exec);
    results := [r] + results;
  }
}
