/**
 The Rust client's transport (rust/gssproxy-client/src/lib.rs): one socket kept
 between calls, dropped when the process changes identity or an exchange goes wrong,
 with at most three attempts per call.  The model keeps every socket ever opened, so
 that what was sent where, and by whom, can be stated over whole runs of calls.
 */
module ClientTransport {
  import opened SeqLib
  import opened Wire
  import opened Framing
  import X = Xdr

  const MAX_TIMEOUT_RETRY := 3

  datatype Identity = Identity(pid: int, euid: int, egid: int)

  datatype IoKind =
    | TimedOut | WouldBlock | BrokenPipe | ConnectionReset | ConnectionAborted | UnexpectedEof
    | OtherKind(code: int)

  /** What a call ends with. */
  datatype Outcome =
    | Reply(bytes: seq<byte>)
    | Io(kind: IoKind)
    | FrameError
    | TooLarge
    | BadReply
    | DecodeError
    | Done(v: X.Val)

  /** is_retryable, on outcomes: only these I/O errors make the client try again. */
  predicate Retryable(r: Outcome) { r.Io? && !r.kind.OtherKind? }

  /**
   What one attempt meets: whether connecting fails, how many bytes the socket accepts before the write
   fails with `writeError`, and the bytes that arrive before the read fails with `readError`.
   */
  datatype Attempt = Attempt(connect: Option<IoKind>, accepted: nat, writeError: IoKind, incoming: seq<byte>,
          readError: IoKind)

  /** One call: who the process is, the request for an xid, what to make of the reply, and what its attempts meet. */
  datatype Call = Call(now: Identity, request: word -> seq<byte>, interpret: (word, seq<byte>) -> Outcome,
          attempts: seq<Attempt>)

  // ----- the state -----

  datatype Exchanged = Exchanged(request: seq<byte>, reply: seq<byte>)

  /** A socket: who opened it, who has written to it, the exchanges completed on it, and all bytes out and in. */
  datatype Sock = Sock(owner: Identity, writers: seq<Identity>, done: seq<Exchanged>, out: seq<byte>, taken: seq<byte>)

  datatype Client = Client(stream: Option<nat>, id: Identity, nextXid: word, socks: seq<Sock>)

  predicate Proper(c: Client) { c.stream.Some? ==> c.stream.value < |c.socks| }

  // ----- what the methods do -----

  function Close(c: Client): Client { c.(stream := None) }

  function Refresh(c: Client, now: Identity): Client {
    if c.stream.Some? && c.id != now then Close(c) else c
  }

  function Open(c: Client, now: Identity): Client {
    c.(stream := Some(|c.socks|), id := now, socks := c.socks + [Sock(now, [], [], [], [])])
  }

  /** The length a header announces, if it is acceptable. */
  function Announced(incoming: seq<byte>): (n: Option<nat>)
    requires |incoming| >= 4
    ensures n.Some? ==> n.value <= MAX_RPC_SIZE && incoming[..4] == Header(n.value)
  {
    ValueWord(incoming[..4]);
    var w := Value(incoming[..4]);
    if w < FRAGMENT_BIT || w - FRAGMENT_BIT > MAX_RPC_SIZE then None else Some(w - FRAGMENT_BIT)
  }

  /** What try_transact returns. */
  function Result(body: seq<byte>, a: Attempt): (r: Outcome)
    requires |body| <= MAX_RPC_SIZE
  {
    if a.accepted < 4 + |body| then Io(a.writeError)
    else if |a.incoming| < 4 then Io(a.readError)
    else
      match Announced(a.incoming)
      case None => FrameError
      case Some(n) => if |a.incoming| < 4 + n then Io(a.readError) else Reply(a.incoming[4..4 + n])
  }

  /** How many of the incoming bytes it reads. */
  function Reads(body: seq<byte>, a: Attempt): (n: nat)
    requires |body| <= MAX_RPC_SIZE
    ensures n <= |a.incoming|
  {
    if a.accepted < 4 + |body| then 0
    else if |a.incoming| < 4 then |a.incoming|
    else
      match Announced(a.incoming)
      case None => 4
      case Some(n) => Min(4 + n, |a.incoming|)
  }

  /** What it leaves on the socket it uses. */
  function Used(s: Sock, body: seq<byte>, now: Identity, a: Attempt): Sock
    requires |body| <= MAX_RPC_SIZE
  {
    var r := Result(body, a);
    Sock(s.owner, s.writers + [now], if r.Reply? then s.done + [Exchanged(body, r.bytes)] else s.done,
         s.out + Frame(body)[..Min(a.accepted, 4 + |body|)], s.taken + a.incoming[..Reads(body, a)])
  }

  function Try(c: Client, body: seq<byte>, now: Identity, a: Attempt): (c': Client)
    requires Proper(c) && c.stream.Some? && |body| <= MAX_RPC_SIZE
    ensures Proper(c')
  {
    c.(socks := c.socks[c.stream.value := Used(c.socks[c.stream.value], body, now, a)])
  }

  datatype Ended = Ended(client: Client, outcome: Outcome)

  /** transact, from attempt i on, the last one having ended with `last`. */
  function TransactFrom(c: Client, body: seq<byte>, now: Identity, attempts: seq<Attempt>, i: nat,
          last: Outcome): (e: Ended)
    requires Proper(c) && |body| <= MAX_RPC_SIZE && i <= MAX_TIMEOUT_RETRY <= |attempts|
    ensures Proper(e.client)
    decreases MAX_TIMEOUT_RETRY - i
  {
    if i == MAX_TIMEOUT_RETRY then Ended(c, last)
    else if c.stream.None? && attempts[i].connect.Some? then Ended(c, Io(attempts[i].connect.value))
    else
      var r := Result(body, attempts[i]);
      var c' := Try(if c.stream.None? then Open(c, now) else c, body, now, attempts[i]);
      if r.Reply? then Ended(c', r)
      else if Retryable(r) then TransactFrom(Close(c'), body, now, attempts, i + 1, r)
      else Ended(Close(c'), r)
  }

  /** The socket an attempt uses: the kept one, or a new one. */
  function Ready(c: Client, now: Identity): (c': Client)
    requires Proper(c)
    ensures Proper(c') && c'.stream.Some?
  {
    if c.stream.None? then Open(c, now) else c
  }

  /** What follows an attempt that could be made: the end, or the next attempt. */
  lemma {:induction false} TransactStep(c: Client, body: seq<byte>, now: Identity, attempts: seq<Attempt>, i: nat,
                                        last: Outcome)
    requires Proper(c) && |body| <= MAX_RPC_SIZE && i < MAX_TIMEOUT_RETRY <= |attempts|
    requires c.stream.None? ==> attempts[i].connect.None?
    ensures var c', r := Try(Ready(c, now), body, now, attempts[i]), Result(body, attempts[i]);
            TransactFrom(c, body, now, attempts, i, last) ==
            if r.Reply? then Ended(c', r)
            else if Retryable(r) then TransactFrom(Close(c'), body, now, attempts, i + 1, r)
            else Ended(Close(c'), r)
  {
  }

  function Transact(c: Client, body: seq<byte>, now: Identity, attempts: seq<Attempt>): (e: Ended)
    requires Proper(c) && MAX_TIMEOUT_RETRY <= |attempts|
    ensures Proper(e.client)
  {
    if |body| > MAX_RPC_SIZE then Ended(c, TooLarge) else TransactFrom(c, body, now, attempts, 0, BadReply)
  }

  function Successor(xid: word): word { if xid == 0xFFFF_FFFF then 0 else xid + 1 }

  /** Before a call: the identity is checked and an xid taken. */
  function Prepared(c: Client, now: Identity): (c': Client)
    requires Proper(c)
    ensures Proper(c')
  {
    Refresh(c, now).(nextXid := Successor(c.nextXid))
  }

  /** make_call. */
  function Step(c: Client, call: Call): (e: Ended)
    requires Proper(c) && MAX_TIMEOUT_RETRY <= |call.attempts|
    ensures Proper(e.client)
  {
    var e := Transact(Prepared(c, call.now), call.request(c.nextXid), call.now, call.attempts);
    if e.outcome.Reply? then e.(outcome := call.interpret(c.nextXid, e.outcome.bytes)) else e
  }

  // ----- the client's code -----

  class ClientConn {
    var stream: Option<nat>
    var id: Identity
    var nextXid: word
    var socks: seq<Sock>

    ghost predicate Valid() reads this { stream.Some? ==> stream.value < |socks| }

    ghost function State(): Client reads this { Client(stream, id, nextXid, socks) }

    constructor (seed: word)
      ensures Valid() && State() == Client(None, Identity(0, 0, 0), seed, [])
    {
      stream, id, nextXid, socks := None, Identity(0, 0, 0), seed, [];
    }

    method NextXid() returns (xid: word)
      modifies this`nextXid
      ensures xid == old(nextXid) && nextXid == Successor(xid)
    {
      xid := nextXid;
      nextXid := if nextXid == 0xFFFF_FFFF then 0 else nextXid + 1;   // wrapping_add
    }

    method Disconnect()
      modifies this`stream
      ensures Valid() && State() == Close(old(State()))
    {
      stream := None;
    }

    method RefreshIdentity(now: Identity)
      requires Valid()
      modifies this`stream
      ensures Valid() && State() == Refresh(old(State()), now)
    {
      if stream.None? {
        return;
      }
      if now.pid != id.pid || now.euid != id.euid || now.egid != id.egid {
        Disconnect();
      }
    }

    method Connect(now: Identity, a: Attempt) returns (error: Option<IoKind>)
      requires Valid()
      modifies this
      ensures Valid() && error == a.connect
      ensures State() == if error.None? then Open(old(State()), now) else old(State())
    {
      if a.connect.None? {
        socks := socks + [Sock(now, [], [], [], [])];
        id := now;
        stream := Some(|socks| - 1);
      }
      return a.connect;
    }

    method TryTransact(body: seq<byte>, now: Identity, a: Attempt) returns (r: Outcome)
      requires Valid() && stream.Some? && |body| <= MAX_RPC_SIZE
      modifies this`socks
      ensures Valid() && r == Result(body, a) && State() == Try(old(State()), body, now, a)
    {
      var i := stream.value;
      var s := socks[i];
      var wire := Word(FRAGMENT_BIT + |body|) + body;
      var wn := Min(a.accepted, |wire|);
      s := s.(writers := s.writers + [now], out := s.out + wire[..wn]);
      socks := socks[i := s];
      if wn < |wire| {
        assert s.taken + a.incoming[..0] == s.taken;
        return Io(a.writeError);
      }
      var rn := Min(4, |a.incoming|);
      if rn < 4 {
        socks := socks[i := s.(taken := s.taken + a.incoming[..rn])];
        return Io(a.readError);
      }
      var n := Announced(a.incoming);
      if n.None? {
        socks := socks[i := s.(taken := s.taken + a.incoming[..4])];
        return FrameError;
      }
      rn := Min(4 + n.value, |a.incoming|);
      s := s.(taken := s.taken + a.incoming[..rn]);
      if rn < 4 + n.value {
        socks := socks[i := s];
        return Io(a.readError);
      }
      r := Reply(a.incoming[4..rn]);
      socks := socks[i := s.(done := s.done + [Exchanged(body, r.bytes)])];
    }

    /** One turn of the retry loop up to its outcome: connect if there is no socket, and try. */
    method MakeAttempt(body: seq<byte>, now: Identity, a: Attempt) returns (connected: bool, r: Outcome)
      requires Valid() && |body| <= MAX_RPC_SIZE
      modifies this
      ensures Valid() && connected == !(old(stream).None? && a.connect.Some?)
      ensures !connected ==> State() == old(State()) && r == Io(a.connect.value)
      ensures connected ==> State() == Try(Ready(old(State()), now), body, now, a) && r == Result(body, a)
    {
      ghost var c := State();
      if stream.None? {
        var error := Connect(now, a);
        if error.Some? {
          return false, Io(error.value);
        }
      }
      assert State() == Ready(c, now);
      connected := true;
      r := TryTransact(body, now, a);
    }

    method DoTransact(body: seq<byte>, now: Identity, attempts: seq<Attempt>) returns (r: Outcome)
      requires Valid() && MAX_TIMEOUT_RETRY <= |attempts|
      modifies this
      ensures Valid() && Ended(State(), r) == Transact(old(State()), body, now, attempts)
    {
      if |body| > MAX_RPC_SIZE {
        return TooLarge;
      }
      var last := BadReply;
      for i := 0 to MAX_TIMEOUT_RETRY
        invariant Valid()
        invariant TransactFrom(State(), body, now, attempts, i, last) == Transact(old(State()), body, now, attempts)
      {
        ghost var c := State();
        var connected;
        connected, r := MakeAttempt(body, now, attempts[i]);
        if !connected {
          return;
        }
        TransactStep(c, body, now, attempts, i, last);
        if r.Reply? {
          return;
        }
        Disconnect();
        if !Retryable(r) {
          return;
        }
        last := r;
      }
      return last;
    }

    method MakeCall(call: Call) returns (r: Outcome)
      requires Valid() && MAX_TIMEOUT_RETRY <= |call.attempts|
      modifies this
      ensures Valid() && Ended(State(), r) == Step(old(State()), call)
    {
      ghost var before := State();
      RefreshIdentity(call.now);
      var xid := NextXid();
      assert State() == Prepared(before, call.now);
      r := DoTransact(call.request(xid), call.now, call.attempts);
      if r.Reply? {
        r := call.interpret(xid, r.bytes);
      }
    }
  }

  // ----- synchrony over runs -----

  function Frames(bodies: seq<seq<byte>>): seq<byte>
    requires forall i :: 0 <= i < |bodies| ==> |bodies[i]| <= MAX_RPC_SIZE
  {
    if bodies == [] then [] else Frames(bodies[..|bodies| - 1]) + Frame(bodies[|bodies| - 1])
  }

  predicate Legal(done: seq<Exchanged>) {
    forall i :: 0 <= i < |done| ==> |done[i].request| <= MAX_RPC_SIZE && |done[i].reply| <= MAX_RPC_SIZE
  }

  function Requests(done: seq<Exchanged>): (r: seq<seq<byte>>)
    ensures |r| == |done|
  {
    seq(|done|, i requires 0 <= i < |done| => done[i].request)
  }

  function Replies(done: seq<Exchanged>): (r: seq<seq<byte>>)
    ensures |r| == |done|
  {
    seq(|done|, i requires 0 <= i < |done| => done[i].reply)
  }

  /** Every request on the socket was written whole, its framed reply read whole, and nothing else passed. */
  predicate InSync(s: Sock) {
    Legal(s.done) && s.out == Frames(Requests(s.done)) && s.taken == Frames(Replies(s.done))
  }

  /** Only its owner has written to a socket. */
  predicate OwnerOnly(s: Sock) { forall i :: 0 <= i < |s.writers| ==> s.writers[i] == s.owner }

  predicate Synchronous(c: Client) {
    && (c.stream.Some? ==>
          && c.stream.value < |c.socks| && c.socks[c.stream.value].owner == c.id
          && InSync(c.socks[c.stream.value]))
    && forall i :: 0 <= i < |c.socks| ==> OwnerOnly(c.socks[i])
  }

  lemma {:induction false} FramesPush(bodies: seq<seq<byte>>, body: seq<byte>)
    requires |body| <= MAX_RPC_SIZE && forall i :: 0 <= i < |bodies| ==> |bodies[i]| <= MAX_RPC_SIZE
    ensures Frames(bodies + [body]) == Frames(bodies) + Frame(body)
  {
  }

  /** A completed exchange leaves the socket in step. */
  lemma {:induction false} ReplyKeepsSync(s: Sock, body: seq<byte>, now: Identity, a: Attempt)
    requires InSync(s) && |body| <= MAX_RPC_SIZE && Result(body, a).Reply?
    ensures InSync(Used(s, body, now, a))
  {
    var reply := Result(body, a).bytes;
    var s' := Used(s, body, now, a);
    assert Frame(body)[..4 + |body|] == Frame(body);
    assert a.incoming[..4 + |reply|] == Frame(reply);
    assert Requests(s'.done) == Requests(s.done) + [body];
    assert Replies(s'.done) == Replies(s.done) + [reply];
    FramesPush(Requests(s.done), body);
    FramesPush(Replies(s.done), reply);
  }

  /** One attempt, by the process that opened the socket. */
  lemma {:induction false} TryKeepsSync(c: Client, body: seq<byte>, now: Identity, a: Attempt)
    requires Synchronous(c) && c.stream.Some? && c.id == now && |body| <= MAX_RPC_SIZE
    ensures Synchronous(Close(Try(c, body, now, a)))
    ensures Result(body, a).Reply? ==> Synchronous(Try(c, body, now, a))
  {
    var k := c.stream.value;
    var s' := Used(c.socks[k], body, now, a);
    assert OwnerOnly(s');
    if Result(body, a).Reply? { ReplyKeepsSync(c.socks[k], body, now, a); }
  }

  lemma {:induction false} OpenKeepsSync(c: Client, now: Identity)
    requires Synchronous(c) && c.stream.None?
    ensures Synchronous(Open(c, now))
  {
  }

  lemma {:induction false} TransactKeepsSync(c: Client, body: seq<byte>, now: Identity, attempts: seq<Attempt>,
          i: nat, last: Outcome)
    requires Synchronous(c) && (c.stream.Some? ==> c.id == now)
    requires |body| <= MAX_RPC_SIZE && i <= MAX_TIMEOUT_RETRY <= |attempts|
    ensures Synchronous(TransactFrom(c, body, now, attempts, i, last).client)
    decreases MAX_TIMEOUT_RETRY - i
  {
    if i < MAX_TIMEOUT_RETRY && (c.stream.Some? || attempts[i].connect.None?) {
      var c1, r := Ready(c, now), Result(body, attempts[i]);
      if c.stream.None? { OpenKeepsSync(c, now); }
      TryKeepsSync(c1, body, now, attempts[i]);
      TransactStep(c, body, now, attempts, i, last);
      if Retryable(r) { TransactKeepsSync(Close(Try(c1, body, now, attempts[i])), body, now, attempts, i + 1, r); }
    }
  }

  lemma {:induction false} PreparedSync(c: Client, now: Identity)
    requires Synchronous(c)
    ensures Synchronous(Prepared(c, now))
    ensures Prepared(c, now).stream.Some? ==> Prepared(c, now).id == now
  {
  }

  lemma {:induction false} StepKeepsSync(c: Client, call: Call)
    requires Synchronous(c) && MAX_TIMEOUT_RETRY <= |call.attempts|
    ensures Synchronous(Step(c, call).client)
  {
    PreparedSync(c, call.now);
    var c1, body := Prepared(c, call.now), call.request(c.nextXid);
    if |body| <= MAX_RPC_SIZE { TransactKeepsSync(c1, body, call.now, call.attempts, 0, BadReply); }
    assert Synchronous(Transact(c1, body, call.now, call.attempts).client);
  }

  predicate Callable(calls: seq<Call>) { forall i :: 0 <= i < |calls| ==> MAX_TIMEOUT_RETRY <= |calls[i].attempts| }

  function Run(c: Client, calls: seq<Call>): (c': Client)
    requires Proper(c) && Callable(calls)
    ensures Proper(c')
    decreases |calls|
  {
    if calls == [] then c else Run(Step(c, calls[0]).client, calls[1..])
  }

  /**
   After any calls by any identities against any daemon: if a socket is kept, every request on it was
   written whole and its framed reply read whole; and no socket was ever written to under an identity
   other than the one that opened it.
   */
  lemma {:induction false} RunKeepsSync(c: Client, calls: seq<Call>)
    requires Synchronous(c) && Callable(calls)
    ensures Synchronous(Run(c, calls))
    decreases |calls|
  {
    if calls != [] {
      StepKeepsSync(c, calls[0]);
      RunKeepsSync(Step(c, calls[0]).client, calls[1..]);
    }
  }

  lemma {:induction false} AlwaysSynchronous(seed: word, calls: seq<Call>)
    requires Callable(calls)
    ensures Synchronous(Run(Client(None, Identity(0, 0, 0), seed, []), calls))
  {
    RunKeepsSync(Client(None, Identity(0, 0, 0), seed, []), calls);
  }

  // ----- retries -----

  predicate Connects(attempts: seq<Attempt>) {
    |attempts| >= MAX_TIMEOUT_RETRY && forall j :: 0 <= j < MAX_TIMEOUT_RETRY ==> attempts[j].connect.None?
  }

  /** The errors after which the client tries again. */
  const RETRIED := {TimedOut, IoKind.WouldBlock, BrokenPipe, ConnectionReset, ConnectionAborted, UnexpectedEof}

  /** A first attempt that fails on the socket: exactly the six kinds lead to another one, on a new socket. */
  lemma {:induction false} RetriedKinds(c: Client, body: seq<byte>, now: Identity, attempts: seq<Attempt>, kind: IoKind)
    requires Proper(c) && |body| <= MAX_RPC_SIZE && MAX_TIMEOUT_RETRY <= |attempts|
    requires c.stream.None? ==> attempts[0].connect.None?
    requires Result(body, attempts[0]) == Io(kind)
    ensures kind in RETRIED ==>
              Transact(c, body, now, attempts) ==
              TransactFrom(Close(Try(Ready(c, now), body, now, attempts[0])), body, now, attempts, 1, Io(kind))
    ensures kind !in RETRIED ==>
              Transact(c, body, now, attempts) ==
              Ended(Close(Try(Ready(c, now), body, now, attempts[0])), Io(kind))
  {
    TransactStep(c, body, now, attempts, 0, BadReply);
  }

  /** Whether a call ends with attempt j: it cannot connect, gets a reply, or fails in another way than the six. */
  predicate Decides(c: Client, body: seq<byte>, attempts: seq<Attempt>, j: nat)
    requires |body| <= MAX_RPC_SIZE && j < |attempts|
  {
    || ((j > 0 || c.stream.None?) && attempts[j].connect.Some?)
    || !(Result(body, attempts[j]).Io? && Result(body, attempts[j]).kind in RETRIED)
  }

  /** What it ends with then. */
  function Decision(c: Client, body: seq<byte>, attempts: seq<Attempt>, j: nat): Outcome
    requires |body| <= MAX_RPC_SIZE && j < |attempts|
  {
    if (j > 0 || c.stream.None?) && attempts[j].connect.Some? then Io(attempts[j].connect.value)
    else Result(body, attempts[j])
  }

  lemma {:induction false} DecidedFrom(c: Client, c0: Client, body: seq<byte>, now: Identity, attempts: seq<Attempt>,
                                       i: nat, last: Outcome, j: nat)
    requires Proper(c) && |body| <= MAX_RPC_SIZE && i <= j < MAX_TIMEOUT_RETRY <= |attempts|
    requires if i == 0 then c.stream.None? <==> c0.stream.None? else c.stream.None?
    requires forall k :: i <= k < j ==> !Decides(c0, body, attempts, k)
    requires Decides(c0, body, attempts, j) || j == MAX_TIMEOUT_RETRY - 1
    ensures TransactFrom(c, body, now, attempts, i, last).outcome == Decision(c0, body, attempts, j)
    decreases j - i
  {
    assert i < j ==> !Decides(c0, body, attempts, i);
    if c.stream.Some? || attempts[i].connect.None? {
      var r := Result(body, attempts[i]);
      TransactStep(c, body, now, attempts, i, last);
      if i < j {
        DecidedFrom(Close(Try(Ready(c, now), body, now, attempts[i])), c0, body, now, attempts, i + 1, r, j);
      }
    }
  }

  /** Every transaction ends with the first attempt that decides it, or with the third, whatever the attempts meet. */
  lemma {:induction false} TransactDecided(c: Client, body: seq<byte>, now: Identity, attempts: seq<Attempt>, j: nat)
    requires Proper(c) && |body| <= MAX_RPC_SIZE && j < MAX_TIMEOUT_RETRY <= |attempts|
    requires forall k :: 0 <= k < j ==> !Decides(c, body, attempts, k)
    requires Decides(c, body, attempts, j) || j == MAX_TIMEOUT_RETRY - 1
    ensures Transact(c, body, now, attempts).outcome == Decision(c, body, attempts, j)
  {
    DecidedFrom(c, c, body, now, attempts, 0, BadReply, j);
  }

  /** Three attempts and no more: the third counts when the first two are to be retried, whatever would come after. */
  lemma {:induction false} ThirdCounts(c: Client, body: seq<byte>, now: Identity, attempts: seq<Attempt>)
    requires Proper(c) && |body| <= MAX_RPC_SIZE && Connects(attempts) && |attempts| >= 3 && attempts[2].connect.None?
    requires Result(body, attempts[0]).Io? && Result(body, attempts[0]).kind in RETRIED
    requires Result(body, attempts[1]).Io? && Result(body, attempts[1]).kind in RETRIED
    ensures Transact(c, body, now, attempts).outcome == Result(body, attempts[2])
  {
    assert !Decides(c, body, attempts, 0) && !Decides(c, body, attempts, 1);
    TransactDecided(c, body, now, attempts, 2);
  }

  /** A request that is too large touches no socket, neither a new one nor the kept one. */
  lemma {:induction false} OversizeTouchesNothing(c: Client, call: Call)
    requires Proper(c) && MAX_TIMEOUT_RETRY <= |call.attempts| && |call.request(c.nextXid)| > 0x10_0000
    ensures Step(c, call).outcome == TooLarge && Step(c, call).client.socks == c.socks
    ensures c.id == call.now ==> Step(c, call).client.stream == c.stream
  {
  }

  /** The attempt whose outcome counts: the first that is not retryable, or the third. */
  function Final(body: seq<byte>, attempts: seq<Attempt>, i: nat): (k: nat)
    requires |body| <= MAX_RPC_SIZE && i < MAX_TIMEOUT_RETRY <= |attempts|
    ensures i <= k < MAX_TIMEOUT_RETRY
    ensures forall j :: i <= j < k ==> Retryable(Result(body, attempts[j]))
    ensures k < MAX_TIMEOUT_RETRY - 1 ==> !Retryable(Result(body, attempts[k]))
    decreases MAX_TIMEOUT_RETRY - i
  {
    if i == MAX_TIMEOUT_RETRY - 1 || !Retryable(Result(body, attempts[i])) then i else Final(body, attempts, i + 1)
  }

  /** New sockets for the attempts from i to k, each sent what the request's frame it accepts. */
  function Opened(body: seq<byte>, now: Identity, attempts: seq<Attempt>, i: nat, k: int): (r: seq<Sock>)
    requires |body| <= MAX_RPC_SIZE && i - 1 <= k < |attempts|
    ensures |r| == k + 1 - i
  {
    seq(k + 1 - i, j requires 0 <= j < k + 1 - i => Used(Sock(now, [], [], [], []), body, now, attempts[i + j]))
  }

  lemma {:induction false} OpenedFirst(body: seq<byte>, now: Identity, attempts: seq<Attempt>, i: nat, k: int)
    requires |body| <= MAX_RPC_SIZE && i <= k < |attempts|
    ensures Opened(body, now, attempts, i, k) ==
            [Used(Sock(now, [], [], [], []), body, now, attempts[i])] + Opened(body, now, attempts, i + 1, k)
  {
  }

  /** One attempt on a socket of its own. */
  lemma {:induction false} FreshAttempt(c: Client, body: seq<byte>, now: Identity, a: Attempt)
    requires |body| <= MAX_RPC_SIZE
    ensures Try(Open(c, now), body, now, a).socks == c.socks + [Used(Sock(now, [], [], [], []), body, now, a)]
  {
  }

  lemma {:induction false} SocksAssoc(a: seq<Sock>, b: seq<Sock>, c: seq<Sock>)
    ensures (a + b) + c == a + (b + c)
  {
  }

  lemma {:induction false} FreshAttempts(c: Client, body: seq<byte>, now: Identity, attempts: seq<Attempt>,
          i: nat, last: Outcome)
    requires c.stream.None? && |body| <= MAX_RPC_SIZE && i < MAX_TIMEOUT_RETRY && Connects(attempts)
    ensures var e := TransactFrom(c, body, now, attempts, i, last);
            var k := Final(body, attempts, i);
            && e.outcome == Result(body, attempts[k])
            && (e.client.stream.Some? <==> e.outcome.Reply?)
            && e.client.socks == c.socks + Opened(body, now, attempts, i, k)
    decreases MAX_TIMEOUT_RETRY - i
  {
    var k, r := Final(body, attempts, i), Result(body, attempts[i]);
    var c1 := Try(Open(c, now), body, now, attempts[i]);
    var first := [Used(Sock(now, [], [], [], []), body, now, attempts[i])];
    TransactStep(c, body, now, attempts, i, last);
    FreshAttempt(c, body, now, attempts[i]);
    OpenedFirst(body, now, attempts, i, k);
    if Retryable(r) && i + 1 < MAX_TIMEOUT_RETRY {
      FreshAttempts(Close(c1), body, now, attempts, i + 1, r);
      SocksAssoc(c.socks, first, Opened(body, now, attempts, i + 1, k));
    } else {
      assert first + Opened(body, now, attempts, i + 1, i) == first;
    }
  }

  /**
   Retries, when connecting succeeds: the call ends with the first outcome that is not retryable, or with
   the third.  Every attempt sends the frame of the same body; the first uses the kept socket if there is
   one, and every other attempt a new one.  A socket is kept exactly if a reply was read.
   */
  lemma {:induction false} RetryRefinement(c: Client, body: seq<byte>, now: Identity, attempts: seq<Attempt>)
    requires Proper(c) && |body| <= MAX_RPC_SIZE && Connects(attempts)
    ensures var e := Transact(c, body, now, attempts);
            var k := Final(body, attempts, 0);
            && e.outcome == Result(body, attempts[k])
            && (e.client.stream.Some? <==> e.outcome.Reply?)
            && e.client.socks ==
               if c.stream.None? then c.socks + Opened(body, now, attempts, 0, k)
               else Try(c, body, now, attempts[0]).socks + Opened(body, now, attempts, 1, k)
  {
    if c.stream.None? {
      FreshAttempts(c, body, now, attempts, 0, BadReply);
    } else {
      var c1, r := Try(c, body, now, attempts[0]), Result(body, attempts[0]);
      if Retryable(r) {
        FreshAttempts(Close(c1), body, now, attempts, 1, r);
      } else {
        assert Opened(body, now, attempts, 1, 0) == [];
      }
    }
  }

  /** Sockets: a call by the process that opened the kept one starts on it, any other starts on a new one. */
  lemma {:induction false} SocketsUsed(c: Client, call: Call)
    requires Proper(c) && Connects(call.attempts) && |call.request(c.nextXid)| <= MAX_RPC_SIZE
    ensures var body := call.request(c.nextXid);
            var k, grown := Final(body, call.attempts, 0), |Step(c, call).client.socks| - |c.socks|;
            if c.stream.Some? && c.id == call.now then grown == k else grown == k + 1
    ensures c.stream.Some? && c.id == call.now ==>
              Step(c, call).client.socks[c.stream.value].writers == c.socks[c.stream.value].writers + [call.now]
  {
    RetryRefinement(Prepared(c, call.now), call.request(c.nextXid), call.now, call.attempts);
  }

  /** The number that comes n after x. */
  function Later(x: word, n: nat): word { (x + n) % 0x1_0000_0000 }

  lemma {:induction false} LaterStill(x: word, y: word, n: nat)
    requires y == Later(x, 1)
    ensures Later(y, n) == Later(x, n + 1)
  {
  }

  /** Numbers: each call takes one, and they count up modulo 2^32 from the seed. */
  lemma {:induction false} XidsCountUp(c: Client, calls: seq<Call>)
    requires Proper(c) && Callable(calls)
    ensures Run(c, calls).nextXid == Later(c.nextXid, |calls|)
    decreases |calls|
  {
    if calls != [] {
      var c1, rest := Step(c, calls[0]).client, calls[1..];
      StepTakesOne(c, calls[0]);
      XidsCountUp(c1, rest);
      LaterStill(c.nextXid, c1.nextXid, |rest|);
    }
  }

  lemma {:induction false} TransactKeepsXid(c: Client, body: seq<byte>, now: Identity, attempts: seq<Attempt>, i: nat,
                                            last: Outcome)
    requires Proper(c) && |body| <= MAX_RPC_SIZE && i <= MAX_TIMEOUT_RETRY <= |attempts|
    ensures TransactFrom(c, body, now, attempts, i, last).client.nextXid == c.nextXid
    decreases MAX_TIMEOUT_RETRY - i
  {
    if i < MAX_TIMEOUT_RETRY && (c.stream.Some? || attempts[i].connect.None?) {
      var c', r := Try(Ready(c, now), body, now, attempts[i]), Result(body, attempts[i]);
      assert c'.nextXid == Close(c').nextXid == c.nextXid;
      TransactStep(c, body, now, attempts, i, last);
      if Retryable(r) { TransactKeepsXid(Close(c'), body, now, attempts, i + 1, r); }
    }
  }

  lemma {:induction false} StepTakesOne(c: Client, call: Call)
    requires Proper(c) && MAX_TIMEOUT_RETRY <= |call.attempts|
    ensures Step(c, call).client.nextXid == Later(c.nextXid, 1)
  {
    var c1, body := Prepared(c, call.now), call.request(c.nextXid);
    if |body| <= MAX_RPC_SIZE { TransactKeepsXid(c1, body, call.now, call.attempts, 0, BadReply); }
    assert Transact(c1, body, call.now, call.attempts).client.nextXid == c1.nextXid;
  }

  /**
   A whole call, when connecting succeeds: one xid, and the first final attempt's outcome, a reply being
   interpreted for that xid.
   */
  lemma {:induction false} CallRefinement(c: Client, call: Call)
    requires Proper(c) && Connects(call.attempts)
    ensures var body := call.request(c.nextXid);
            var e := Step(c, call);
            e.outcome ==
            if |body| > MAX_RPC_SIZE then TooLarge
            else
              var r := Result(body, call.attempts[Final(body, call.attempts, 0)]);
              if r.Reply? then call.interpret(c.nextXid, r.bytes) else r
  {
    var body := call.request(c.nextXid);
    if |body| <= MAX_RPC_SIZE { RetryRefinement(Prepared(c, call.now), body, call.now, call.attempts); }
  }
}
