/**
 The C client's two loops on the socket (gpm_send_buffer and gpm_recv_buffer of
 src/client/gpm_common.c): what they return, exactly when they succeed, and what
 they leave on the socket when they do not.
 */
module ClientWire {
  import opened SeqLib
  import opened Wire
  import opened Framing
  import RpcCall

  const EINTR := 4
  const EIO := 5
  const EAGAIN := 11
  const ENOMEM := 12
  const EMSGSIZE := 90
  const ETIMEDOUT := 110

  /** One wait for the socket followed by one send or read: the wait fails, the call fails, or up to n bytes move. */
  datatype Event = WaitError(e: int) | SysError(e: int) | Moved(n: nat)

  predicate RealErrors(events: seq<Event>) {
    forall i :: 0 <= i < |events| && !events[i].Moved? ==> events[i].e != 0
  }

  // ----- what the two loops do, in terms of the events they meet -----

  predicate Transient(e: Event) { e == SysError(EINTR) || e == SysError(EAGAIN) }

  /** The events without interrupted calls at their front. */
  function Skip(es: seq<Event>): (r: seq<Event>)
    ensures |r| <= |es| && (RealErrors(es) ==> RealErrors(r))
    ensures r != [] ==> r[0] != SysError(EINTR)
  {
    if es != [] && es[0] == SysError(EINTR) then Skip(es[1..]) else es
  }

  /** The first call that is not interrupted moves the whole length word. */
  predicate HeaderMoves(es: seq<Event>) { Skip(es) != [] && Skip(es)[0].Moved? && Skip(es)[0].n >= 4 }

  function Rest(es: seq<Event>): (r: seq<Event>)
    requires Skip(es) != []
    ensures |r| < |es| && (RealErrors(es) ==> RealErrors(r))
  {
    Skip(es)[1..]
  }

  /** The first send of the length word goes wrong in a way that makes the client open a new socket. */
  predicate HeaderRetried(es: seq<Event>) { Skip(es) != [] && !Skip(es)[0].WaitError? && !HeaderMoves(es) }

  /** The events left for the body, if the length word goes out at the first or, on a new socket, at the second try. */
  function AfterHeader(es: seq<Event>, reopen: int): Option<seq<Event>> {
    if HeaderMoves(es) then Some(Rest(es))
    else if HeaderRetried(es) && reopen == 0 && HeaderMoves(Rest(es)) then Some(Rest(Rest(es)))
    else None
  }

  /** A byte goes out on the socket in use at the end. */
  predicate Begins(es: seq<Event>, reopen: int) {
    || HeaderMoves(es)
    || (HeaderRetried(es) && reopen == 0
        && Skip(Rest(es)) != [] && Skip(Rest(es))[0].Moved? && Skip(Rest(es))[0].n > 0)
  }

  /** What sending the length word returns; None when the events run out first. */
  function HeaderRet(es: seq<Event>, reopen: int): (r: Option<int>)
    ensures RealErrors(es) ==> (r == Some(0) <==> AfterHeader(es, reopen).Some?)
  {
    if Skip(es) == [] then None
    else if Skip(es)[0].WaitError? then Some(Skip(es)[0].e)
    else if HeaderMoves(es) then Some(0)
    else if reopen != 0 then Some(reopen)
    else
      var again := Skip(Rest(es));
      if again == [] then None
      else if again[0].WaitError? then Some(again[0].e)
      else if HeaderMoves(Rest(es)) then Some(0)
      else Some(EIO)
  }

  /** How many body bytes move before the first error that is not transient. */
  function Outgoing(es: seq<Event>): nat {
    if es == [] then 0
    else if es[0].Moved? then es[0].n + Outgoing(es[1..])
    else if Transient(es[0]) then Outgoing(es[1..])
    else 0
  }

  /** The first error that is not transient. */
  function Fault(es: seq<Event>): (r: Option<int>)
    ensures RealErrors(es) ==> r != Some(0)
  {
    if es == [] then None
    else if es[0].Moved? || Transient(es[0]) then Fault(es[1..])
    else Some(es[0].e)
  }

  /** The same for reads, where moving nothing is the end of the stream. */
  function Incoming(es: seq<Event>): nat {
    if es == [] then 0
    else if es[0].Moved? && es[0].n > 0 then es[0].n + Incoming(es[1..])
    else if Transient(es[0]) then Incoming(es[1..])
    else 0
  }

  /** Exactly when gpm_send_buffer succeeds. */
  predicate Sendable(buffer: seq<byte>, es: seq<Event>, reopen: int) {
    |buffer| <= MAX_RPC_SIZE && AfterHeader(es, reopen).Some? && Outgoing(AfterHeader(es, reopen).value) >= |buffer|
  }

  /** What gpm_send_buffer returns. */
  function SendRet(buffer: seq<byte>, es: seq<Event>, reopen: int): (r: Option<int>)
    ensures RealErrors(es) ==> (r == Some(0) <==> Sendable(buffer, es, reopen))
  {
    if |buffer| > MAX_RPC_SIZE then Some(RpcCall.EINVAL)
    else if AfterHeader(es, reopen).None? then HeaderRet(es, reopen)
    else if Sendable(buffer, es, reopen) then Some(0)
    else Fault(AfterHeader(es, reopen).value)
  }

  datatype Message = Message(body: seq<byte>, rest: seq<byte>)

  /** What a byte stream holds for the client: a length word, its top bit masked off, and that many bytes. */
  function Received(input: seq<byte>): (r: Option<Message>)
    ensures r.Some? ==> |r.value.body| <= MAX_RPC_SIZE
  {
    if |input| < 4 then None
    else
      var size := Value(input[..4]) % FRAGMENT_BIT;
      if size > MAX_RPC_SIZE || |input| < 4 + size then None
      else Some(Message(input[4..4 + size], input[4 + size..]))
  }

  /** The length that the length word announces. */
  function Announced(input: seq<byte>): nat
    requires |input| >= 4
  {
    Value(input[..4]) % FRAGMENT_BIT
  }

  /** Exactly when gpm_recv_buffer succeeds; `alloc` says whether there is memory for the message. */
  predicate Receivable(input: seq<byte>, es: seq<Event>, alloc: bool) {
    Received(input).Some? && HeaderMoves(es) && alloc && Incoming(Rest(es)) >= |Received(input).value.body|
  }

  /** Exactly when it leaves the stream at the end of a message: an empty one needs no memory. */
  predicate Drained(input: seq<byte>, es: seq<Event>, alloc: bool) {
    Received(input).Some? && Receivable(input, es, alloc || Received(input).value.body == [])
  }

  /** How reading a body goes wrong, with `left` bytes still to come on the socket. */
  function ReadFault(es: seq<Event>, left: nat): (r: Option<int>)
    ensures RealErrors(es) ==> r != Some(0)
  {
    if es == [] then None
    else if es[0].Moved? then
      if Min(es[0].n, left) == 0 then Some(EIO) else ReadFault(es[1..], left - Min(es[0].n, left))
    else if Transient(es[0]) then ReadFault(es[1..], left)
    else Some(es[0].e)
  }

  /** What reading the length word returns. */
  function LengthRet(input: seq<byte>, es: seq<Event>): (r: Option<int>)
    ensures RealErrors(es) ==> (r == Some(0) <==> HeaderMoves(es) && |input| >= 4)
  {
    if Skip(es) == [] then None
    else if Skip(es)[0].WaitError? then Some(Skip(es)[0].e)
    else if HeaderMoves(es) && |input| >= 4 then Some(0)
    else Some(EIO)
  }

  /** What gpm_recv_buffer returns. */
  function RecvRet(input: seq<byte>, es: seq<Event>, alloc: bool): (r: Option<int>)
    ensures RealErrors(es) ==> (r == Some(0) <==> Receivable(input, es, alloc))
  {
    if !HeaderMoves(es) || |input| < 4 then LengthRet(input, es)
    else if Announced(input) > MAX_RPC_SIZE then Some(EMSGSIZE)
    else if !alloc then Some(ENOMEM)
    else if Receivable(input, es, alloc) then Some(0)
    else ReadFault(Rest(es), |input| - 4)
  }

  // ----- which error ends them -----

  /** Events that keep a body loop going. */
  predicate Going(es: seq<Event>) { forall i :: 0 <= i < |es| ==> es[i].Moved? || Transient(es[i]) }

  lemma {:induction false} SkipPast(pre: seq<Event>, e: Event, rest: seq<Event>)
    requires (forall i :: 0 <= i < |pre| ==> pre[i] == SysError(EINTR)) && e != SysError(EINTR)
    ensures Skip(pre + [e] + rest) == [e] + rest
  {
    var es := pre + [e] + rest;
    if pre == [] {
      assert es == [e] + rest;
    } else {
      assert es[1..] == pre[1..] + [e] + rest;
      SkipPast(pre[1..], e, rest);
    }
  }

  lemma {:induction false} FaultPast(pre: seq<Event>, e: Event, rest: seq<Event>)
    requires Going(pre) && !e.Moved? && !Transient(e)
    ensures Fault(pre + [e] + rest) == Some(e.e) && Outgoing(pre + [e] + rest) == Outgoing(pre)
  {
    var es := pre + [e] + rest;
    if pre == [] {
      assert es == [e] + rest;
    } else {
      assert es[1..] == pre[1..] + [e] + rest;
      FaultPast(pre[1..], e, rest);
    }
  }

  /** Sending returns the error of the wait that fails: before the length word goes out... */
  lemma {:induction false} SendWaitFails(buffer: seq<byte>, pre: seq<Event>, e: int, rest: seq<Event>, reopen: int)
    requires |buffer| <= MAX_RPC_SIZE && forall i :: 0 <= i < |pre| ==> pre[i] == SysError(EINTR)
    ensures SendRet(buffer, pre + [WaitError(e)] + rest, reopen) == Some(e)
  {
    SkipPast(pre, WaitError(e), rest);
  }

  /** ...or of the wait or send that fails before the body is out. */
  lemma {:induction false} SendBodyFails(buffer: seq<byte>, es: seq<Event>, reopen: int, pre: seq<Event>, e: Event,
                                         rest: seq<Event>)
    requires |buffer| <= MAX_RPC_SIZE && AfterHeader(es, reopen) == Some(pre + [e] + rest)
    requires Going(pre) && Outgoing(pre) < |buffer| && !e.Moved? && !Transient(e)
    ensures SendRet(buffer, es, reopen) == Some(e.e)
  {
    FaultPast(pre, e, rest);
  }

  /** So does receiving, before the length word is in... */
  lemma {:induction false} RecvWaitFails(input: seq<byte>, pre: seq<Event>, e: int, rest: seq<Event>, alloc: bool)
    requires forall i :: 0 <= i < |pre| ==> pre[i] == SysError(EINTR)
    ensures RecvRet(input, pre + [WaitError(e)] + rest, alloc) == Some(e)
  {
    SkipPast(pre, WaitError(e), rest);
  }

  /** Reads that bring something each, `left` bytes being still to come. */
  predicate Bringing(es: seq<Event>, left: nat)
    decreases |es|
  {
    es == [] ||
    if es[0].Moved? then 0 < es[0].n <= left && Bringing(es[1..], left - es[0].n)
    else Transient(es[0]) && Bringing(es[1..], left)
  }

  lemma {:induction false} ReadFaultPast(pre: seq<Event>, e: Event, rest: seq<Event>, left: nat)
    requires Bringing(pre, left) && !e.Moved? && !Transient(e)
    ensures ReadFault(pre + [e] + rest, left) == Some(e.e) && Incoming(pre + [e] + rest) == Incoming(pre)
    decreases |pre|
  {
    var es := pre + [e] + rest;
    if pre == [] {
      assert es == [e] + rest;
    } else {
      assert es[1..] == pre[1..] + [e] + rest;
      ReadFaultPast(pre[1..], e, rest, if pre[0].Moved? then left - pre[0].n else left);
    }
  }

  /** ...and before the whole message is. */
  lemma {:induction false} RecvBodyFails(input: seq<byte>, es: seq<Event>, pre: seq<Event>, e: Event, rest: seq<Event>)
    requires |input| >= 4 && Announced(input) <= MAX_RPC_SIZE && HeaderMoves(es) && Rest(es) == pre + [e] + rest
    requires Bringing(pre, |input| - 4) && Incoming(pre) < Announced(input) && !e.Moved? && !Transient(e)
    ensures RecvRet(input, es, true) == Some(e.e)
  {
    ReadFaultPast(pre, e, rest, |input| - 4);
  }

  // ----- the loops -----

  /** The first loop of gpm_send_buffer: the length word, once more on a new socket if it does not go out whole. */
  method SendHeader(size: seq<byte>, events: seq<Event>, reopen: int)
    returns (ret: Option<int>, wire: seq<byte>, abandoned: seq<byte>, open: bool, rest: seq<Event>)
    requires |size| == 4 && RealErrors(events)
    ensures ret == HeaderRet(events, reopen)
    ensures wire != [] <==> Begins(events, reopen)
    ensures open <==> !(HeaderRetried(events) && reopen != 0)
    ensures ret == Some(0) ==> open && wire == size && rest == AfterHeader(events, reopen).value && RealErrors(rest)
    ensures wire <= size && (ret != Some(0) ==> |wire| < 4) && (!open ==> wire == [])
    ensures |abandoned| < 4 && abandoned <= size
  {
    wire, abandoned, open, rest := [], [], true, events;
    var retry := false;
    while true
      invariant RealErrors(rest) && wire == [] && open && |abandoned| < 4 && abandoned <= size
      invariant !retry ==> Skip(events) == Skip(rest)
      invariant retry ==> reopen == 0 && HeaderRetried(events) && Skip(Rest(events)) == Skip(rest)
      decreases |rest|
    {
      if rest == [] {
        return None, wire, abandoned, open, rest;
      }
      var e := rest[0];
      assert e == SysError(EINTR) ==> Skip(rest) == Skip(rest[1..]);
      rest := rest[1..];
      if e.WaitError? {
        return Some(e.e), wire, abandoned, open, rest;
      }
      if e == SysError(EINTR) {
        continue;
      }
      var wn := if e.Moved? then Min(e.n, 4) else 0;
      wire := size[..wn];
      if wn == 4 {
        return Some(0), wire, abandoned, open, rest;
      }
      if retry {
        return Some(EIO), wire, abandoned, open, rest;
      }
      abandoned, wire := wire, [];
      if reopen != 0 {
        return Some(reopen), wire, abandoned, false, rest;
      }
      retry := true;
    }
  }

  /** Its second loop: the body. */
  method SendBody(buffer: seq<byte>, events: seq<Event>) returns (ret: Option<int>, pos: nat)
    requires RealErrors(events)
    ensures pos <= |buffer| && (ret == Some(0) <==> pos == |buffer|)
    ensures ret == if Outgoing(events) >= |buffer| then Some(0) else Fault(events)
  {
    pos := 0;
    var rest := events;
    while pos < |buffer|
      invariant pos <= |buffer| && RealErrors(rest)
      invariant Outgoing(events) >= |buffer| <==> pos + Outgoing(rest) >= |buffer|
      invariant Fault(events) == Fault(rest)
      decreases |rest|
    {
      if rest == [] {
        return None, pos;
      }
      var e := rest[0];
      rest := rest[1..];
      if e.WaitError? {
        return Some(e.e), pos;
      }
      if e.SysError? {
        if e.e == EINTR || e.e == EAGAIN {
          continue;
        }
        return Some(e.e), pos;
      }
      pos := pos + Min(e.n, |buffer| - pos);
    }
    return Some(0), pos;
  }

  /**
   gpm_send_buffer.  `wire` is what the socket in use at the end has been sent, `abandoned` what a socket
   given up on the way had been sent, and `open` says whether there is a socket at the end; `ret` is None
   when the events ran out before it returned.  It succeeds exactly when the events allow it, and then the
   socket carries exactly the frame; otherwise it carries less.
   */
  method SendBuffer(buffer: seq<byte>, events: seq<Event>, reopen: int)
    returns (ret: Option<int>, wire: seq<byte>, abandoned: seq<byte>, open: bool)
    requires RealErrors(events)
    ensures ret == SendRet(buffer, events, reopen)
    ensures wire != [] <==> |buffer| <= MAX_RPC_SIZE && Begins(events, reopen)
    ensures open <==> !(|buffer| <= MAX_RPC_SIZE && HeaderRetried(events) && reopen != 0)
    ensures ret == Some(0) ==> open && wire == Frame(buffer)
    ensures |buffer| <= MAX_RPC_SIZE ==> wire <= Frame(buffer) && (ret != Some(0) ==> wire != Frame(buffer))
    ensures |buffer| > MAX_RPC_SIZE ==> wire == []
    ensures |abandoned| < 4 && (!open ==> wire == [])
    ensures abandoned != [] ==> |buffer| <= MAX_RPC_SIZE && abandoned <= Header(|buffer|)
  {
    if |buffer| > MAX_RPC_SIZE {
      return Some(RpcCall.EINVAL), [], [], true;
    }
    var size := Word(FRAGMENT_BIT + |buffer|);
    var rest;
    ret, wire, abandoned, open, rest := SendHeader(size, events, reopen);
    if ret != Some(0) {
      assert size <= Frame(buffer);
      return;
    }
    var pos: nat;
    ret, pos := SendBody(buffer, rest);
    wire := wire + buffer[..pos];
    assert pos == |buffer| ==> buffer[..pos] == buffer;
    assert wire <= Frame(buffer);
  }

  /** The bytes are one whole message. */
  predicate Whole(b: seq<byte>) { Received(b).Some? && Received(b).value.rest == [] }

  lemma {:induction false} WholePrefix(input: seq<byte>, n: nat)
    requires n <= |input|
    ensures Whole(input[..n]) <==> 4 <= n && Announced(input) <= MAX_RPC_SIZE && n == 4 + Announced(input)
    ensures Whole(input[..n]) ==> Received(input[..n]) == Some(Message(input[4..n], []))
    ensures Whole(input[..n]) ==> Received(input) == Some(Message(input[4..n], input[n..]))
  {
    if n >= 4 {
      assert input[..n][..4] == input[..4];
      assert input[..n][4..n] == input[4..n] && input[..n][n..] == [];
    }
  }

  /** The body loop of gpm_recv_buffer, `input` being what follows the length word. */
  method RecvBody(length: nat, input: seq<byte>, events: seq<Event>) returns (ret: Option<int>, buffer: seq<byte>)
    requires RealErrors(events)
    ensures |buffer| <= length && |buffer| <= |input| && buffer == input[..|buffer|]
    ensures ret == Some(0) <==> |buffer| == length
    ensures ret == if |input| >= length && Incoming(events) >= length then Some(0) else ReadFault(events, |input|)
  {
    buffer := [];
    var rest := events;
    while |buffer| < length
      invariant RealErrors(rest) && |buffer| <= length && |buffer| <= |input| && buffer == input[..|buffer|]
      invariant |buffer| == length || ReadFault(events, |input|) == ReadFault(rest, |input| - |buffer|)
      invariant |input| >= length ==> (Incoming(events) >= length <==> |buffer| + Incoming(rest) >= length)
      decreases |rest|
    {
      if rest == [] {
        return None, buffer;
      }
      var e := rest[0];
      rest := rest[1..];
      if e.WaitError? {
        return Some(e.e), buffer;
      }
      if e.SysError? {
        if e.e == EINTR || e.e == EAGAIN {
          continue;
        }
        return Some(e.e), buffer;
      }
      var got := Min(e.n, Min(length - |buffer|, |input| - |buffer|));
      if got == 0 {
        return Some(EIO), buffer;
      }
      buffer := input[..|buffer| + got];
    }
    return Some(0), buffer;
  }

  /** The first loop of gpm_recv_buffer: one read of the length word that is not interrupted. */
  method RecvHeader(input: seq<byte>, events: seq<Event>) returns (ret: Option<int>, n: nat, rest: seq<Event>)
    requires RealErrors(events)
    ensures n <= |input| && n <= 4 && (ret == Some(0) <==> n == 4)
    ensures Skip(events) == [] || !Skip(events)[0].Moved? ==> n == 0
    ensures ret == LengthRet(input, events)
    ensures ret == Some(0) ==> rest == Rest(events) && RealErrors(rest)
  {
    ret, n, rest := None, 0, events;
    while rest != [] && rest[0] == SysError(EINTR)
      invariant RealErrors(rest) && Skip(events) == Skip(rest)
      decreases |rest|
    {
      rest := rest[1..];
    }
    if rest == [] {
      return;
    }
    var e := rest[0];
    rest := rest[1..];
    if e.WaitError? {
      ret := Some(e.e);
      return;
    }
    n := if e.Moved? then Min(e.n, Min(4, |input|)) else 0;
    ret := Some(if n == 4 then 0 else EIO);
  }

  /**
   gpm_recv_buffer, with `input` still to come on the socket, of which it takes `n` bytes.  It succeeds
   exactly when the stream holds a message, there is memory for it and the events allow reading it.
   */
  method RecvBuffer(input: seq<byte>, events: seq<Event>, alloc: bool)
    returns (ret: Option<int>, buffer: seq<byte>, n: nat)
    requires RealErrors(events)
    ensures n <= |input| && ret == RecvRet(input, events, alloc)
    ensures Whole(input[..n]) <==> Drained(input, events, alloc)
    ensures Skip(events) == [] || !Skip(events)[0].Moved? ==> n == 0
    ensures ret == Some(0) ==> Received(input) == Some(Message(buffer, input[n..]))
    ensures ret == Some(0) ==> Received(input[..n]) == Some(Message(buffer, []))
  {
    buffer := [];
    var rest;
    ret, n, rest := RecvHeader(input, events);
    WholePrefix(input, n);
    if ret != Some(0) {
      return;
    }
    var length := Value(input[..4]);
    if length >= FRAGMENT_BIT {
      length := length - FRAGMENT_BIT;
    }
    assert length == Announced(input);
    if length > MAX_RPC_SIZE {
      ret := Some(EMSGSIZE);
      return;
    }
    if !alloc {
      ret := Some(ENOMEM);
      return;
    }
    ret, buffer := RecvBody(length, input[4..], rest);
    n := 4 + |buffer|;
    WholePrefix(input, n);
    assert buffer == input[4..n];
  }

  /** The client finds exactly the framed message, and nothing of what follows it. */
  lemma {:induction false} ReceivedFrame(body: seq<byte>, tail: seq<byte>)
    requires |body| <= MAX_RPC_SIZE
    ensures Received(Frame(body) + tail) == Some(Message(body, tail))
  {
    FrameHeader(body, tail);
    var input := Frame(body) + tail;
    assert (FRAGMENT_BIT + |body|) % FRAGMENT_BIT == |body|;
    assert input[4..4 + |body|] == body && input[4 + |body|..] == tail;
  }

  /** A frame at the front of a stream says which body it is of. */
  lemma {:induction false} FrameInjective(a: seq<byte>, b: seq<byte>, tail: seq<byte>)
    requires |a| <= MAX_RPC_SIZE && |b| <= MAX_RPC_SIZE && Frame(a) + tail == Frame(b)
    ensures a == b && tail == []
  {
    ReceivedFrame(a, tail);
    ReceivedFrame(b, []);
    assert Frame(b) + [] == Frame(b);
  }
}
