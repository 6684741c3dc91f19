/**
 Record marking on the daemon's sockets (section 10 of RFC 1831, one fragment per
 record): the non-blocking read handler that reassembles a request however it is
 split across reads, and the write handler that emits a reply across partial writes.
 */
module Framing {
  import opened SeqLib
  import opened Wire

  const FRAGMENT_BIT := 0x8000_0000
  const MAX_RPC_SIZE := 1024 * 1024

  function Min(a: nat, b: nat): nat { if a <= b then a else b }

  function Header(size: nat): (h: seq<byte>)
    requires size < FRAGMENT_BIT
    ensures |h| == 4
  {
    Word(FRAGMENT_BIT + size)
  }

  function Frame(body: seq<byte>): (f: seq<byte>)
    requires |body| < FRAGMENT_BIT
    ensures |f| == 4 + |body|
  {
    Header(|body|) + body
  }

  // ----- reading -----

  /** What one read call meets: nothing to read, an error, or up to n bytes (none at end of stream). */
  datatype Recv = Again | Error | Bytes(n: nat)

  /** One readiness event: its header read and body read, and whether malloc and gp_query_new succeed. */
  datatype ReadEvent = ReadEvent(header: Recv, body: Recv, alloc: bool, queue: bool)

  /** A read buffer: nothing read yet, or header read and `got` of `size` body bytes in. */
  datatype ReadState = Fresh | Partial(size: nat, got: seq<byte>)

  datatype ReadResult =
    | Pending(state: ReadState, rest: seq<byte>)     // rescheduled
    | Handed(body: seq<byte>, rest: seq<byte>)       // given to the workers
    | Closed(rest: seq<byte>)                        // connection freed

  predicate ReadOk(r: ReadState) {
    r.Partial? ==> |r.got| <= r.size <= MAX_RPC_SIZE
  }

  /** The body part of the handler; `first` says that the header was read in this event. */
  function ReadBody(size: nat, got: seq<byte>, input: seq<byte>, e: ReadEvent, first: bool): (r: ReadResult)
    requires |got| <= size
  {
    match e.body
    case Again => Pending(Partial(size, got), input)
    case Error => Closed(input)
    case Bytes(n) =>
      var m := Min(n, Min(size - |got|, |input|));
      if m == 0 then (if first then Pending(Partial(size, got), input) else Closed(input))
      else if |got| + m == size then
        (if e.queue then Handed(got + input[..m], input[m..]) else Closed(input[m..]))
      else Pending(Partial(size, got + input[..m]), input[m..])
  }

  /** gp_socket_read on a buffer in state `r`, with `input` still to come on the connection. */
  function ReadStep(r: ReadState, input: seq<byte>, e: ReadEvent): (x: ReadResult)
    requires ReadOk(r)
    ensures x.Pending? ==> ReadOk(x.state)
  {
    if r.Partial? then ReadBody(r.size, r.got, input, e, false)
    else
      match e.header
      case Again => Pending(Fresh, input)
      case Error => Closed(input)
      case Bytes(n) =>
        var m := Min(n, Min(4, |input|));
        if m != 4 then Closed(input[m..])
        else
          var w := Value(input[..4]);
          if w < FRAGMENT_BIT || w - FRAGMENT_BIT > MAX_RPC_SIZE || !e.alloc then Closed(input[4..])
          else ReadBody(w - FRAGMENT_BIT, [], input[4..], e, true)
  }

  function ReadAll(r: ReadState, input: seq<byte>, es: seq<ReadEvent>): (x: ReadResult)
    requires ReadOk(r)
    decreases |es|
  {
    if es == [] then Pending(r, input)
    else
      var x := ReadStep(r, input, es[0]);
      if x.Pending? then ReadAll(x.state, x.rest, es[1..]) else x
  }

  /** The bytes a buffer in state `r` has taken off the connection. */
  function Consumed(r: ReadState): seq<byte>
    requires ReadOk(r)
  {
    if r.Fresh? then [] else Header(r.size) + r.got
  }

  lemma {:induction false} ReadBodySound(size: nat, got: seq<byte>, input: seq<byte>, e: ReadEvent, first: bool)
    requires |got| <= size <= MAX_RPC_SIZE
    ensures var x := ReadBody(size, got, input, e, first);
      && (x.Pending? ==> ReadOk(x.state) && Consumed(x.state) + x.rest == Header(size) + got + input)
      && (x.Handed? ==> 0 < |x.body| == size && Frame(x.body) + x.rest == Header(size) + got + input)
  {
    if e.body.Bytes? {
      var m := Min(e.body.n, Min(size - |got|, |input|));
      assert input == input[..m] + input[m..];
      assert Header(size) + (got + input[..m]) + input[m..] == Header(size) + got + input;
    }
  }

  /** A header word with the fragment bit, read back as the header of its size. */
  lemma {:induction false} HeaderParsed(input: seq<byte>)
    requires |input| >= 4 && FRAGMENT_BIT <= Value(input[..4])
    ensures Header(Value(input[..4]) - FRAGMENT_BIT) + input[4..] == input
  {
    ValueWord(input[..4]);
  }

  /** The header read got a whole, acceptable header. */
  predicate HeaderIn(input: seq<byte>, e: ReadEvent) {
    && e.header.Bytes? && e.header.n >= 4 && |input| >= 4 && e.alloc
    && FRAGMENT_BIT <= Value(input[..4]) <= FRAGMENT_BIT + MAX_RPC_SIZE
  }

  lemma {:induction false} FreshRead(input: seq<byte>, e: ReadEvent)
    ensures HeaderIn(input, e) ==>
              ReadStep(Fresh, input, e) == ReadBody(Value(input[..4]) - FRAGMENT_BIT, [], input[4..], e, true)
    ensures !HeaderIn(input, e) ==>
              ReadStep(Fresh, input, e) == Pending(Fresh, input) || ReadStep(Fresh, input, e).Closed?
  {
  }

  lemma {:induction false} HeaderReadSound(input: seq<byte>, e: ReadEvent)
    requires HeaderIn(input, e)
    ensures StepSound(input, ReadBody(Value(input[..4]) - FRAGMENT_BIT, [], input[4..], e, true))
  {
    var size := Value(input[..4]) - FRAGMENT_BIT;
    ReadBodySound(size, [], input[4..], e, true);
    HeaderParsed(input);
    assert Header(size) + [] + input[4..] == input;
  }

  /** What a step that started with `whole` still to come makes of it. */
  predicate StepSound(whole: seq<byte>, x: ReadResult) {
    && (x.Pending? ==> ReadOk(x.state) && Consumed(x.state) + x.rest == whole)
    && (x.Handed? ==> 0 < |x.body| <= MAX_RPC_SIZE && Frame(x.body) + x.rest == whole)
  }

  lemma {:induction false} FreshReadSound(input: seq<byte>, e: ReadEvent)
    ensures StepSound(input, ReadStep(Fresh, input, e))
  {
    FreshRead(input, e);
    if HeaderIn(input, e) {
      HeaderReadSound(input, e);
    } else {
      assert [] + input == input;
    }
  }

  lemma {:induction false} ReadStepSound(r: ReadState, input: seq<byte>, e: ReadEvent)
    requires ReadOk(r)
    ensures StepSound(Consumed(r) + input, ReadStep(r, input, e))
  {
    if r.Partial? {
      ReadBodySound(r.size, r.got, input, e, false);
    } else {
      FreshReadSound(input, e);
      assert Consumed(r) + input == input;
    }
  }

  /**
   Reassembly is sound for every splitting: what is handed to the workers is exactly the declared body,
   not empty and within the limit, and exactly its frame was taken off the stream.
   */
  lemma {:induction false} ReassemblySound(r: ReadState, input: seq<byte>, es: seq<ReadEvent>)
    requires ReadOk(r)
    ensures StepSound(Consumed(r) + input, ReadAll(r, input, es))
    decreases |es|
  {
    if es != [] {
      ReadStepSound(r, input, es[0]);
      var x := ReadStep(r, input, es[0]);
      if x.Pending? { ReassemblySound(x.state, x.rest, es[1..]); }
    }
  }

  /** The header read takes the whole header, and there is memory for the body. */
  predicate TakesHeader(e: ReadEvent) { e.header.Bytes? && e.header.n >= 4 && e.alloc }

  /** Body reads that make progress or wait until `need` bytes are in, when the query can be queued. */
  predicate Serves(es: seq<ReadEvent>, need: nat)
    decreases |es|
  {
    es == [] ||
    match es[0].body
    case Again => Serves(es[1..], need)
    case Error => false
    case Bytes(n) => n > 0 && if n >= need then es[0].queue else Serves(es[1..], need - n)
  }

  /** Events of a live connection that carries a body of `need` bytes: nothing to read until the header comes, whole. */
  predicate Willing(es: seq<ReadEvent>, need: nat)
    decreases |es|
  {
    es == [] || if es[0].header.Again? then Willing(es[1..], need) else TakesHeader(es[0]) && Serves(es, need)
  }

  function Offer(e: ReadEvent): nat { if e.body.Bytes? then e.body.n else 0 }

  function Offered(es: seq<ReadEvent>): nat {
    if es == [] then 0 else Offer(es[0]) + Offered(es[1..])
  }

  /** How many body bytes the events offer to take once the header is in. */
  function Budget(es: seq<ReadEvent>): nat {
    if es == [] then 0 else if es[0].header.Again? then Budget(es[1..]) else Offered(es)
  }

  lemma {:induction false} ChunkSlices(body: seq<byte>, k: nat, m: nat, tail: seq<byte>)
    requires k + m <= |body|
    ensures body[..k] + (body[k..] + tail)[..m] == body[..k + m]
    ensures (body[k..] + tail)[m..] == body[k + m..] + tail
  {
  }

  /** One event when `k` bytes of the body are in. */
  lemma {:induction false} NextChunk(body: seq<byte>, k: nat, tail: seq<byte>, e: ReadEvent, first: bool)
    requires k < |body| && (e.body.Again? || (e.body.Bytes? && e.body.n > 0))
    requires k + Offer(e) >= |body| ==> e.queue
    ensures ReadBody(|body|, body[..k], body[k..] + tail, e, first) ==
            if k + Offer(e) >= |body| then Handed(body, tail)
            else Pending(Partial(|body|, body[..k + Offer(e)]), body[k + Offer(e)..] + tail)
  {
    if e.body.Bytes? {
      var m := Min(e.body.n, |body| - k);
      ChunkSlices(body, k, m, tail);
      if k + m == |body| { assert body[..k + m] == body && body[k + m..] + tail == tail; }
    }
  }

  /** Part of a body in, and events to come. */
  lemma {:induction false} PartialCompletes(body: seq<byte>, k: nat, tail: seq<byte>, es: seq<ReadEvent>)
    requires k < |body| <= MAX_RPC_SIZE && Serves(es, |body| - k)
    ensures k + Offered(es) >= |body| ==>
              ReadAll(Partial(|body|, body[..k]), body[k..] + tail, es) == Handed(body, tail)
    ensures k + Offered(es) < |body| ==> ReadAll(Partial(|body|, body[..k]), body[k..] + tail, es).Pending?
    decreases |es|
  {
    if es != [] {
      var e := es[0];
      NextChunk(body, k, tail, e, false);
      if k + Offer(e) < |body| { PartialCompletes(body, k + Offer(e), tail, es[1..]); }
    }
  }

  lemma {:induction false} FrameHeader(body: seq<byte>, tail: seq<byte>)
    requires |body| < FRAGMENT_BIT
    ensures (Frame(body) + tail)[..4] == Header(|body|)
    ensures (Frame(body) + tail)[4..] == body + tail
    ensures Value(Header(|body|)) == FRAGMENT_BIT + |body|
  {
    WordValue(FRAGMENT_BIT + |body|);
  }

  lemma {:induction false} FreshReadFrame(body: seq<byte>, tail: seq<byte>, e: ReadEvent)
    requires 0 < |body| <= MAX_RPC_SIZE && TakesHeader(e)
    ensures ReadStep(Fresh, Frame(body) + tail, e) == ReadBody(|body|, [], body + tail, e, true)
  {
    FrameHeader(body, tail);
  }

  /** The event that takes the header, and those after it. */
  lemma {:induction false} HeaderCompletes(body: seq<byte>, tail: seq<byte>, es: seq<ReadEvent>)
    requires 0 < |body| <= MAX_RPC_SIZE && es != [] && TakesHeader(es[0]) && Serves(es, |body|)
    ensures Offered(es) >= |body| ==> ReadAll(Fresh, Frame(body) + tail, es) == Handed(body, tail)
    ensures Offered(es) < |body| ==> ReadAll(Fresh, Frame(body) + tail, es).Pending?
  {
    var e := es[0];
    FreshReadFrame(body, tail, e);
    NextChunk(body, 0, tail, e, true);
    assert body[..0] == [] && body[0..] == body;
    if Offer(e) < |body| { PartialCompletes(body, Offer(e), tail, es[1..]); }
  }

  /**
   Reassembly is complete: on a stream that starts with the frame of a legal body, whatever the chunk
   sizes and the waiting, the body is handed over exactly when the events have offered to read that much,
   and never before.
   */
  lemma {:induction false} ReassemblyComplete(body: seq<byte>, tail: seq<byte>, es: seq<ReadEvent>)
    requires 0 < |body| <= MAX_RPC_SIZE && Willing(es, |body|)
    ensures Budget(es) >= |body| ==> ReadAll(Fresh, Frame(body) + tail, es) == Handed(body, tail)
    ensures Budget(es) < |body| ==> ReadAll(Fresh, Frame(body) + tail, es).Pending?
    decreases |es|
  {
    if es != [] {
      if es[0].header.Again? {
        ReassemblyComplete(body, tail, es[1..]);
      } else {
        HeaderCompletes(body, tail, es);
      }
    }
  }

  // ----- when a connection is freed -----

  /** The header read fails, is short, brings a length word that is not acceptable, or there is no memory. */
  predicate HeaderCloses(input: seq<byte>, e: ReadEvent) {
    match e.header
    case Again => false
    case Error => true
    case Bytes(n) =>
      n < 4 || |input| < 4 || !e.alloc || !(0x8000_0000 <= Value(input[..4]) <= 0x8010_0000)
  }

  /** How many of `need` bytes the body read gets when `left` are still to come. */
  function Gets(e: ReadEvent, need: nat, left: nat): nat {
    if e.body.Bytes? then Min(e.body.n, Min(need, left)) else 0
  }

  /**
   The body read fails, or gets nothing in an event without a header, or gets all that is needed and the
   query cannot be queued.
   */
  predicate BodyCloses(e: ReadEvent, need: nat, left: nat, first: bool) {
    || e.body.Error?
    || (e.body.Bytes? && !first && Gets(e, need, left) == 0)
    || (0 < need == Gets(e, need, left) && !e.queue)
  }

  predicate Hands(e: ReadEvent, need: nat, left: nat) { 0 < need == Gets(e, need, left) && e.queue }

  lemma {:induction false} BodyExact(size: nat, got: seq<byte>, input: seq<byte>, e: ReadEvent, first: bool)
    requires |got| <= size
    ensures ReadBody(size, got, input, e, first).Closed? <==> BodyCloses(e, size - |got|, |input|, first)
    ensures ReadBody(size, got, input, e, first).Handed? <==> Hands(e, size - |got|, |input|)
  {
  }

  lemma {:induction false} HeaderClosesExact(input: seq<byte>, e: ReadEvent)
    ensures HeaderCloses(input, e) <==> !e.header.Again? && !HeaderIn(input, e)
    ensures !HeaderIn(input, e) ==> (ReadStep(Fresh, input, e).Closed? <==> HeaderCloses(input, e))
  {
  }

  /** Exactly when an event frees the connection, and exactly when it hands a request over. */
  lemma {:induction false} ReadStepExact(r: ReadState, input: seq<byte>, e: ReadEvent)
    requires ReadOk(r)
    ensures r.Partial? ==>
              && (ReadStep(r, input, e).Closed? <==> BodyCloses(e, r.size - |r.got|, |input|, false))
              && (ReadStep(r, input, e).Handed? <==> Hands(e, r.size - |r.got|, |input|))
    ensures r.Fresh? && (e.header.Again? || HeaderCloses(input, e)) ==>
              && (ReadStep(r, input, e).Closed? <==> HeaderCloses(input, e)) && !ReadStep(r, input, e).Handed?
    ensures r.Fresh? && !e.header.Again? && !HeaderCloses(input, e) ==>
              var need := Value(input[..4]) - 0x8000_0000;
              && (ReadStep(r, input, e).Closed? <==> BodyCloses(e, need, |input| - 4, true))
              && (ReadStep(r, input, e).Handed? <==> Hands(e, need, |input| - 4))
  {
    if r.Partial? {
      BodyExact(r.size, r.got, input, e, false);
    } else {
      HeaderClosesExact(input, e);
      FreshRead(input, e);
      if HeaderIn(input, e) { BodyExact(Value(input[..4]) - FRAGMENT_BIT, [], input[4..], e, true); }
    }
  }

  /** A client that hangs up between requests: the connection is freed by the first event that is not a false alarm. */
  lemma {:induction false} HangUpCloses(es: seq<ReadEvent>)
    ensures ReadAll(Fresh, [], es).Closed? <==> exists e :: e in es && !e.header.Again?
    ensures !ReadAll(Fresh, [], es).Handed?
    decreases |es|
  {
    if es != [] {
      ReadStepExact(Fresh, [], es[0]);
      if es[0].header.Again? {
        HangUpCloses(es[1..]);
        assert es == [es[0]] + es[1..];
      } else {
        assert es[0] in es;
      }
    }
  }

  /** One that hangs up within a request: the same for the body reads. */
  lemma {:induction false} HangUpWithinCloses(size: nat, got: seq<byte>, es: seq<ReadEvent>)
    requires |got| <= size <= MAX_RPC_SIZE
    ensures ReadAll(Partial(size, got), [], es).Closed? <==> exists e :: e in es && !e.body.Again?
    ensures !ReadAll(Partial(size, got), [], es).Handed?
    decreases |es|
  {
    if es != [] {
      BodyExact(size, got, [], es[0], false);
      if es[0].body.Again? {
        HangUpWithinCloses(size, got, es[1..]);
        assert es == [es[0]] + es[1..];
      } else {
        assert es[0] in es;
      }
    }
  }

  // ----- writing -----

  /** What one writev call does: would block, fails, or accepts up to n bytes. */
  datatype Send = WouldBlock | Broken | Accept(n: nat)

  datatype WriteResult =
    | Unsent(pos: nat, wire: seq<byte>)    // rescheduled
    | Sent(wire: seq<byte>)                // whole reply written
    | Dropped(wire: seq<byte>)             // connection freed

  /** The vectors handed to writev: the header too as long as no body byte went out. */
  function Vectors(data: seq<byte>, pos: nat): seq<byte>
    requires pos <= |data| < FRAGMENT_BIT
  {
    if pos == 0 then Header(|data|) + data else data[pos..]
  }

  /** gp_socket_write; `wire` is what this call puts on the connection. */
  function WriteStep(data: seq<byte>, pos: nat, e: Send): (x: WriteResult)
    requires pos <= |data| < FRAGMENT_BIT
    ensures x.Unsent? ==> x.pos <= |data|
  {
    match e
    case WouldBlock => Unsent(pos, [])
    case Broken => Dropped([])
    case Accept(n) =>
      var out := Vectors(data, pos);
      var m := Min(n, |out|);
      if pos == 0 && m < 4 then Dropped(out[..m])
      else
        var pos' := if pos == 0 then m - 4 else pos + m;
        if |data| > pos' then Unsent(pos', out[..m]) else Sent(out[..m])
  }

  function Prepend(wire: seq<byte>, x: WriteResult): WriteResult {
    x.(wire := wire + x.wire)
  }

  function WriteAll(data: seq<byte>, pos: nat, es: seq<Send>): (x: WriteResult)
    requires pos <= |data| < FRAGMENT_BIT
    ensures x.Unsent? ==> x.pos <= |data|
    decreases |es|
  {
    if es == [] then Unsent(pos, [])
    else
      var x := WriteStep(data, pos, es[0]);
      if x.Unsent? then Prepend(x.wire, WriteAll(data, x.pos, es[1..])) else x
  }

  /** Writes that take exactly the header: the position stays 0 and the header goes out again. */
  function Resends(data: seq<byte>, pos: nat, es: seq<Send>): nat
    requires pos <= |data| < FRAGMENT_BIT
    decreases |es|
  {
    if es == [] then 0
    else
      var x := WriteStep(data, pos, es[0]);
      if x.Unsent? then (if pos == 0 && es[0] == Accept(4) then 1 else 0) + Resends(data, x.pos, es[1..]) else 0
  }

  function Repeat(s: seq<byte>, n: nat): (r: seq<byte>)
    ensures |r| == n * |s|
  {
    if n == 0 then [] else s + Repeat(s, n - 1)
  }

  /** One write call in the middle of a reply. */
  lemma {:induction false} LaterWrite(data: seq<byte>, pos: nat, e: Send)
    requires 0 < pos < |data| < FRAGMENT_BIT
    ensures var x := WriteStep(data, pos, e);
      && x.wire <= data[pos..]
      && (x.Sent? ==> x.wire == data[pos..])
      && (x.Unsent? ==> pos <= x.pos < |data| && x.wire + data[x.pos..] == data[pos..])
  {
  }

  lemma {:induction false} PartialEmission(data: seq<byte>, pos: nat, es: seq<Send>)
    requires 0 < pos < |data| < FRAGMENT_BIT
    ensures Resends(data, pos, es) == 0
    ensures WriteAll(data, pos, es).wire <= data[pos..]
    ensures WriteAll(data, pos, es).Sent? ==> WriteAll(data, pos, es).wire == data[pos..]
    decreases |es|
  {
    if es != [] {
      LaterWrite(data, pos, es[0]);
      var x := WriteStep(data, pos, es[0]);
      if x.Unsent? { PartialEmission(data, x.pos, es[1..]); }
    }
  }

  lemma {:induction false} RepeatOnce(h: seq<byte>, n: nat, rest: seq<byte>)
    ensures h + (Repeat(h, n) + rest) == Repeat(h, n + 1) + rest
  {
  }

  /** One write call from the start of a reply, as far as the wire is concerned. */
  lemma {:induction false} FirstWrite(data: seq<byte>, e: Send)
    requires 0 < |data| < FRAGMENT_BIT
    ensures var x := WriteStep(data, 0, e);
      && (x.Sent? ==> x.wire == Frame(data))
      && (x.Unsent? && x.pos > 0 ==> x.pos < |data| && x.wire + data[x.pos..] == Frame(data))
      && (x.Unsent? && x.pos == 0 ==> (e == Accept(4) && x.wire == Header(|data|)) || (e == WouldBlock && x.wire == []))
  {
  }

  lemma {:induction false} FirstWriteIsPrefix(data: seq<byte>, e: Send)
    requires |data| < FRAGMENT_BIT
    ensures WriteStep(data, 0, e).wire <= Frame(data)
  {
  }

  /**
   Emission in general: over any run of partial writes that completes, the wire carries the frame of the
   reply preceded by one more copy of the header for each write that took exactly the header.
   */
  lemma {:induction false} EmissionGeneral(data: seq<byte>, es: seq<Send>)
    requires 0 < |data| < FRAGMENT_BIT
    ensures WriteAll(data, 0, es).Sent? ==>
              WriteAll(data, 0, es).wire == Repeat(Header(|data|), Resends(data, 0, es)) + Frame(data)
    decreases |es|
  {
    if es != [] {
      var x := WriteStep(data, 0, es[0]);
      FirstWrite(data, es[0]);
      if x.Unsent? {
        if x.pos > 0 {
          PartialEmission(data, x.pos, es[1..]);
        } else {
          EmissionGeneral(data, es[1..]);
          if es[0] == Accept(4) { RepeatOnce(Header(|data|), Resends(data, 0, es[1..]), Frame(data)); }
        }
      }
    }
  }

  /** How many bytes the writes take before one fails. */
  function Taken(es: seq<Send>): nat {
    if es == [] || es[0].Broken? then 0 else (if es[0].Accept? then es[0].n else 0) + Taken(es[1..])
  }

  /** Once a body byte is out: completed when the writes take what is left, given up when one fails before. */
  lemma {:induction false} RestExact(data: seq<byte>, pos: nat, es: seq<Send>)
    requires 0 < pos < |data| < FRAGMENT_BIT
    ensures WriteAll(data, pos, es).Sent? <==> Taken(es) >= |data| - pos
    ensures WriteAll(data, pos, es).Dropped? <==> Taken(es) < |data| - pos && Broken in es
    decreases |es|
  {
    if es != [] {
      LaterWrite(data, pos, es[0]);
      var x := WriteStep(data, pos, es[0]);
      assert es == [es[0]] + es[1..];
      if x.Unsent? { RestExact(data, x.pos, es[1..]); }
    }
  }

  /** The writes from the first that counts: waiting and writes of just the header change nothing. */
  function Counting(es: seq<Send>): (r: seq<Send>)
    ensures Broken in es <==> Broken in r
  {
    if es != [] && (es[0].WouldBlock? || es[0] == Accept(4)) then
      assert es == [es[0]] + es[1..];
      Counting(es[1..])
    else es
  }

  /** The first write that counts takes more than the header, and the writes from there on the whole frame. */
  predicate Completes(data: seq<byte>, rest: seq<Send>) {
    rest != [] && rest[0].Accept? && rest[0].n > 4 && Taken(rest) >= 4 + |data|
  }

  /** Exactly when a reply is completed, and when it is given up: on a failure or a write of less than the header. */
  lemma {:induction false} WriteExact(data: seq<byte>, es: seq<Send>)
    requires 0 < |data| < FRAGMENT_BIT
    ensures WriteAll(data, 0, es).Sent? <==> Completes(data, Counting(es))
    ensures WriteAll(data, 0, es).Dropped? <==>
            var rest := Counting(es);
            !Completes(data, rest) && (Broken in rest || (rest != [] && rest[0].Accept? && rest[0].n < 4))
    decreases |es|
  {
    if es != [] {
      FirstWrite(data, es[0]);
      var x := WriteStep(data, 0, es[0]);
      assert es == [es[0]] + es[1..];
      if x.Unsent? {
        if x.pos > 0 { RestExact(data, x.pos, es[1..]); } else { WriteExact(data, es[1..]); }
      }
    }
  }

  /** How many bytes the first write that the socket accepts takes. */
  function FirstAccepted(es: seq<Send>): Option<nat> {
    if es == [] then None else if es[0].Accept? then Some(es[0].n) else FirstAccepted(es[1..])
  }

  /** The header goes out again exactly when the first accepted write took just the header. */
  lemma {:induction false} ResendsWhenFour(data: seq<byte>, es: seq<Send>)
    requires 0 < |data| < FRAGMENT_BIT && WriteAll(data, 0, es).Sent?
    ensures Resends(data, 0, es) == 0 <==> FirstAccepted(es) != Some(4)
    decreases |es|
  {
    var x := WriteStep(data, 0, es[0]);
    FirstWrite(data, es[0]);
    if x.Unsent? {
      if x.pos > 0 {
        PartialEmission(data, x.pos, es[1..]);
      } else if es[0].WouldBlock? {
        ResendsWhenFour(data, es[1..]);
      }
    }
  }

  /**
   A completed reply is on the wire as exactly its frame if and only if the first accepted write did not take
   just the header.
   */
  lemma {:induction false} EmissionExact(data: seq<byte>, es: seq<Send>)
    requires 0 < |data| < FRAGMENT_BIT && WriteAll(data, 0, es).Sent?
    ensures WriteAll(data, 0, es).wire == Frame(data) <==> FirstAccepted(es) != Some(4)
  {
    EmissionGeneral(data, es);
    ResendsWhenFour(data, es);
    if Resends(data, 0, es) > 0 {
      assert |WriteAll(data, 0, es).wire| > |Frame(data)|;
    }
  }

  /** The wire starts with the header, and goes on with the header again or the reply. */
  predicate Starts(wire: seq<byte>, data: seq<byte>)
    requires 4 <= |data| < FRAGMENT_BIT
  {
    && (|wire| >= 4 ==> wire[..4] == Header(|data|))
    && (|wire| >= 8 ==> wire[4..8] == Header(|data|) || wire[4..8] == data[..4])
  }

  lemma {:induction false} PrefixStarts(wire: seq<byte>, data: seq<byte>)
    requires 4 <= |data| < FRAGMENT_BIT && wire <= Frame(data)
    ensures Starts(wire, data)
  {
    if |wire| >= 8 { assert wire[4..8] == Frame(data)[4..8] == data[..4]; }
  }

  lemma {:induction false} AgainStarts(wire: seq<byte>, data: seq<byte>)
    requires 4 <= |data| < FRAGMENT_BIT && Starts(wire, data)
    ensures Starts(Header(|data|) + wire, data)
    ensures |wire| >= 4 ==> (Header(|data|) + wire)[4..8] == Header(|data|)
    ensures |wire| >= 8 ==> (Header(|data|) + wire)[8..12] == wire[4..8]
  {
    if |wire| >= 4 { assert (Header(|data|) + wire)[4..8] == wire[..4]; }
  }

  /** The rest of a reply after a first write that took some of it. */
  lemma {:induction false} RestOfFrame(data: seq<byte>, x: WriteResult, es: seq<Send>)
    requires |data| < FRAGMENT_BIT && x.Unsent? && 0 < x.pos < |data| && x.wire + data[x.pos..] == Frame(data)
    ensures x.wire + WriteAll(data, x.pos, es).wire <= Frame(data)
  {
    PartialEmission(data, x.pos, es);
  }

  /** Whatever the writes, complete or not. */
  lemma {:induction false} WireStarts(data: seq<byte>, es: seq<Send>)
    requires 4 <= |data| < FRAGMENT_BIT
    ensures Starts(WriteAll(data, 0, es).wire, data)
    ensures FirstAccepted(es) != Some(4) ==> WriteAll(data, 0, es).wire <= Frame(data)
    decreases |es|
  {
    if es != [] {
      var x := WriteStep(data, 0, es[0]);
      FirstWrite(data, es[0]);
      if x.Unsent? && x.pos == 0 {
        WireStarts(data, es[1..]);
        if es[0].Accept? { AgainStarts(WriteAll(data, 0, es[1..]).wire, data); }
        else { assert x.wire + WriteAll(data, 0, es[1..]).wire == WriteAll(data, 0, es[1..]).wire; }
      } else {
        if x.Unsent? { RestOfFrame(data, x, es[1..]); } else { FirstWriteIsPrefix(data, es[0]); }
        PrefixStarts(WriteAll(data, 0, es).wire, data);
      }
    }
  }

  /** When the first accepted write took just the header, what follows the header is the header again. */
  lemma {:induction false} HeaderAgain(data: seq<byte>, es: seq<Send>)
    requires 8 <= |data| < FRAGMENT_BIT && FirstAccepted(es) == Some(4)
    requires |WriteAll(data, 0, es).wire| >= 4 + |data|
    ensures var wire := WriteAll(data, 0, es).wire;
      && wire[..4] == Header(|data|) && wire[4..8] == Header(|data|)
      && (wire[8..12] == Header(|data|) || wire[8..12] == data[..4])
    decreases |es|
  {
    var again := WriteAll(data, 0, es[1..]).wire;
    if es[0].WouldBlock? {
      assert WriteAll(data, 0, es).wire == [] + again == again;
      HeaderAgain(data, es[1..]);
    } else {
      FirstWrite(data, es[0]);
      WireStarts(data, es[1..]);
      AgainStarts(again, data);
      assert WriteAll(data, 0, es).wire == Header(|data|) + again;
    }
  }

  /** A first write of exactly four bytes, then one of the rest: the header is on the wire twice. */
  lemma {:induction false} HeaderSentTwice(data: seq<byte>)
    requires 0 < |data| < FRAGMENT_BIT
    ensures WriteAll(data, 0, [Accept(4), Accept(4 + |data|)]) == Sent(Header(|data|) + Frame(data))
  {
  }

  /**
   Reassembly undoes emission under two independent chunkings: a reply written in any pieces, the first of
   them not just the header, and read in any pieces that offer enough, arrives as sent and leaves nothing behind.
   */
  lemma {:induction false} EmissionReassembled(data: seq<byte>, outs: seq<Send>, ins: seq<ReadEvent>)
    requires 0 < |data| <= MAX_RPC_SIZE
    requires WriteAll(data, 0, outs).Sent? && FirstAccepted(outs) != Some(4)
    requires Willing(ins, |data|) && Budget(ins) >= |data|
    ensures ReadAll(Fresh, WriteAll(data, 0, outs).wire, ins) == Handed(data, [])
  {
    EmissionExact(data, outs);
    ReassemblyComplete(data, [], ins);
    assert Frame(data) + [] == Frame(data);
  }

  // ----- the handlers, on their buffers -----

  class ReadBuffer {
    var data: array?<byte>
    var size: nat
    var pos: nat

    ghost predicate Valid()
      reads this, data
    {
      data != null ==> data.Length == size <= MAX_RPC_SIZE && pos <= size
    }

    ghost function State(): (r: ReadState)
      reads this, data
      requires Valid()
      ensures ReadOk(r)
    {
      if data == null then Fresh else Partial(size, data[..pos])
    }

    constructor ()
      ensures Valid() && State() == Fresh
    {
      data, size, pos := null, 0, 0;
    }

    /** gp_socket_read. */
    method SocketRead(input: seq<byte>, e: ReadEvent) returns (x: ReadResult)
      requires Valid()
      modifies this, data
      ensures x == ReadStep(old(State()), input, e)
      ensures x.Pending? ==> Valid() && State() == x.state
      ensures data != null ==> data == old(data) || fresh(data)
    {
      var header := false;
      var rest := input;
      if data == null {
        header := true;
        match e.header {
          case Again => return Pending(Fresh, rest);
          case Error => return Closed(rest);
          case Bytes(n) =>
            var rn := Min(n, Min(4, |rest|));
            if rn != 4 {
              return Closed(rest[rn..]);
            }
        }
        size := Value(rest[..4]);
        rest := rest[4..];
        if size < FRAGMENT_BIT {
          return Closed(rest);
        }
        size := size - FRAGMENT_BIT;
        if size > MAX_RPC_SIZE || !e.alloc {
          return Closed(rest);
        }
        data := new byte[size];
        pos := 0;
        assert data[..0] == [];
      }
      x := ReceiveBody(rest, e, header);
    }

    method ReceiveBody(input: seq<byte>, e: ReadEvent, header: bool) returns (x: ReadResult)
      requires Valid() && data != null
      modifies this`pos, this`data, data
      ensures x == ReadBody(size, old(data[..pos]), input, e, header)
      ensures x.Pending? ==> Valid() && data != null && State() == x.state
      ensures data != null ==> data == old(data)
    {
      if e.body.Again? {
        return Pending(Partial(size, data[..pos]), input);
      }
      if e.body.Error? {
        return Closed(input);
      }
      var rn := Min(e.body.n, Min(size - pos, |input|));
      if rn == 0 {
        if header {
          return Pending(Partial(size, data[..pos]), input);
        }
        return Closed(input);
      }
      ghost var before := data[..pos];
      forall i | 0 <= i < rn { data[pos + i] := input[i]; }
      pos := pos + rn;
      assert data[..pos] == before + input[..rn];
      if pos == size {
        if !e.queue {
          return Closed(input[rn..]);
        }
        var body := data[..size];
        data := null;
        return Handed(body, input[rn..]);
      }
      return Pending(Partial(size, data[..pos]), input[rn..]);
    }
  }

  class WriteBuffer {
    const data: seq<byte>
    var pos: nat

    ghost predicate Valid() reads this { pos <= |data| < FRAGMENT_BIT }

    constructor (data: seq<byte>)
      requires |data| < FRAGMENT_BIT
      ensures Valid() && this.data == data && pos == 0
    {
      this.data := data;
      pos := 0;
    }

    /** gp_socket_write. */
    method SocketWrite(e: Send) returns (x: WriteResult)
      requires Valid()
      modifies this
      ensures x == WriteStep(data, old(pos), e)
      ensures x.Unsent? ==> Valid() && pos == x.pos
    {
      var iov := data[pos..];
      var vecs := 1;
      if pos == 0 {
        iov := Word(FRAGMENT_BIT + |data|) + iov;
        vecs := 2;
      }
      match e
      case WouldBlock => x := Unsent(pos, []);
      case Broken => x := Dropped([]);
      case Accept(n) =>
        var wn := Min(n, |iov|);
        var sent := iov[..wn];
        if vecs == 2 {
          if wn < 4 {
            return Dropped(sent);
          }
          wn := wn - 4;
        }
        pos := pos + wn;
        x := if |data| > pos then Unsent(pos, sent) else Sent(sent);
    }
  }
}
