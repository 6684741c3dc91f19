/**
 Who owns a client connection.  The event loop's socket handlers and the worker
 pool run side by side; a connection passes from a read buffer to a query to a
 write buffer and back, or is freed, and every failure path frees it, except that an
 interrupted accept leaves behind the structure it allocated.
 */
module ConnOwnership {
  import opened SeqLib
  import W = WorkerPool

  type Conn = nat

  /**
   `readers` and `writers` list the connections of the pending socket events; `freed` records every
   gp_conn_free, `accepted` the connections and `stray` the structures allocated by interrupted accepts.
   */
  datatype Daemon = Daemon(pool: W.State, readers: seq<Conn>, writers: seq<Conn>, freed: seq<Conn>,
                           accepted: seq<Conn>, stray: seq<Conn>)

  /** Flags called `ok` say whether the allocations and event registrations on the way succeed. */
  datatype Step =
    | Accept(c: Conn, ok: bool)
    | AcceptInterrupted(c: Conn)
    | ReadAgain(i: nat, ok: bool)            // short read, reschedule
    | ReadFails(i: nat)
    | ReadDone(i: nat, id: nat, ok: bool)    // whole request read: make a query
    | PoolStep(a: W.Step)
    | Reply(out: bool, ok: bool)             // dispatcher handles a finished query
    | WriteAgain(i: nat, ok: bool)           // short write, reschedule
    | WriteFails(i: nat)
    | WriteDone(i: nat, ok: bool)            // whole reply written: read again

  function Init(n: nat): Daemon { Daemon(W.Init(n), [], [], [], [], []) }

  function Drop<T>(s: seq<T>, i: nat): seq<T>
    requires i < |s|
  {
    s[..i] + s[i + 1..]
  }

  predicate Enabled(d: Daemon, a: Step) {
    match a
    case Accept(c, _) => d.pool.disp.Idle? && c !in d.accepted && c !in d.stray
    case AcceptInterrupted(c) => d.pool.disp.Idle? && c !in d.accepted && c !in d.stray
    case ReadAgain(i, _) => d.pool.disp.Idle? && i < |d.readers|
    case ReadFails(i) => d.pool.disp.Idle? && i < |d.readers|
    case ReadDone(i, id, _) => i < |d.readers| && W.Enabled(d.pool, W.Submit(W.Query(id, d.readers[i])))
    case PoolStep(b) => !b.Submit? && !b.Deliver? && W.Enabled(d.pool, b)
    case Reply(_, _) => W.Enabled(d.pool, W.Deliver)
    case WriteAgain(i, _) => d.pool.disp.Idle? && i < |d.writers|
    case WriteFails(i) => d.pool.disp.Idle? && i < |d.writers|
    case WriteDone(i, _) => d.pool.disp.Idle? && i < |d.writers|
  }

  function Free(d: Daemon, c: Conn): Daemon { d.(freed := d.freed + [c]) }

  /** gp_setup_reader: a new read buffer, or no memory or no event and the connection is freed. */
  function SetupReader(d: Daemon, c: Conn, ok: bool): Daemon {
    if ok then d.(readers := d.readers + [c]) else Free(d, c)
  }

  /** gp_socket_send_data: a new write buffer, or the connection is freed. */
  function SendData(d: Daemon, c: Conn, ok: bool): Daemon {
    if ok then d.(writers := d.writers + [c]) else Free(d, c)
  }

  function Apply(d: Daemon, a: Step): Daemon
    requires Enabled(d, a)
  {
    match a
    case Accept(c, ok) => SetupReader(d.(accepted := d.accepted + [c]), c, ok)
    case AcceptInterrupted(c) => d.(stray := d.stray + [c])
    case ReadAgain(i, ok) =>
      if ok then d else Free(d.(readers := Drop(d.readers, i)), d.readers[i])
    case ReadFails(i) => Free(d.(readers := Drop(d.readers, i)), d.readers[i])
    case ReadDone(i, id, ok) =>
      var d1 := d.(readers := Drop(d.readers, i));
      if ok then d1.(pool := W.Apply(d.pool, W.Submit(W.Query(id, d.readers[i]))))
      else Free(d1, d.readers[i])
    case PoolStep(b) => d.(pool := W.Apply(d.pool, b))
    case Reply(out, ok) =>
      var d1 := d.(pool := W.Apply(d.pool, W.Deliver));
      if out then SendData(d1, d.pool.disp.q.conn, ok) else Free(d1, d.pool.disp.q.conn)
    case WriteAgain(i, ok) =>
      if ok then d else Free(d.(writers := Drop(d.writers, i)), d.writers[i])
    case WriteFails(i) => Free(d.(writers := Drop(d.writers, i)), d.writers[i])
    case WriteDone(i, ok) => SetupReader(d.(writers := Drop(d.writers, i)), d.writers[i], ok)
  }

  ghost predicate ValidRun(d: Daemon, run: seq<Step>)
    decreases |run|
  {
    run == [] || (Enabled(d, run[0]) && ValidRun(Apply(d, run[0]), run[1..]))
  }

  ghost function Exec(d: Daemon, run: seq<Step>): Daemon
    requires ValidRun(d, run)
    decreases |run|
  {
    if run == [] then d else Exec(Apply(d, run[0]), run[1..])
  }

  /** A query weighs what its connection weighs. */
  function ByConn(f: Conn -> int): W.Query -> int { (q: W.Query) => f(q.conn) }

  /** Where a connection can be. */
  datatype Place = Reading | Handled | Writing | Freed

  /** What the connections at a place weigh. */
  function At(d: Daemon, p: Place, f: Conn -> int): int {
    match p
    case Reading => Sum(d.readers, f)
    case Handled => W.Total(d.pool, ByConn(f))
    case Writing => Sum(d.writers, f)
    case Freed => Sum(d.freed, f)
  }

  /** The weight of all holders of connections, freed ones included. */
  function Holders(d: Daemon, f: Conn -> int): int {
    At(d, Reading, f) + At(d, Handled, f) + At(d, Writing, f) + At(d, Freed, f)
  }

  lemma {:induction false} SumDrop(s: seq<Conn>, i: nat, f: Conn -> int)
    requires i < |s|
    ensures Sum(Drop(s, i), f) == Sum(s, f) - f(s[i])
  {
    SumConcat(s[..i], s[i + 1..], f);
    SumConcat(s[..i], s[i..], f);
    assert s == s[..i] + s[i..];
    assert s[i..][1..] == s[i + 1..];
  }

  lemma {:induction false} PoolTotalKept(s: W.State, a: W.Step, f: W.Query -> int)
    requires W.Inv(s) && W.Enabled(s, a)
    ensures W.Inv(W.Apply(s, a))
    ensures W.Total(W.Apply(s, a), f) ==
            W.Total(s, f) + (if a.Submit? then f(a.q) else 0) - (if a.Deliver? then f(s.disp.q) else 0)
  {
    W.InvKept(s, a);
    if W.WorkerStep(a) {
      W.TotalKeptByWorker(s, a, f);
    } else {
      assert a.HandOver? ==> W.WorkerOk(s, s.disp.t);
      W.TotalKeptByDispatcher(s, a, f);
    }
  }

  // ----- where a step takes its connection -----

  /** A step that goes wrong: a read or write error, no reply, or an allocation or registration that fails. */
  predicate Fails(a: Step) {
    match a
    case Accept(_, ok) => !ok
    case ReadAgain(_, ok) => !ok
    case ReadFails(_) => true
    case ReadDone(_, _, ok) => !ok
    case Reply(out, ok) => !out || !ok
    case WriteAgain(_, ok) => !ok
    case WriteFails(_) => true
    case WriteDone(_, ok) => !ok
    case _ => false
  }

  /** The connection a step is about, if it is about one. */
  function Subject(d: Daemon, a: Step): Option<Conn>
    requires Enabled(d, a)
  {
    if a.Accept? then Some(a.c)
    else if a.Reply? then Some(d.pool.disp.q.conn)
    else if ReadStep(a) then Some(d.readers[a.i])
    else if WriteStep(a) then Some(d.writers[a.i])
    else None
  }

  predicate ReadStep(a: Step) { a.ReadAgain? || a.ReadFails? || a.ReadDone? }

  predicate WriteStep(a: Step) { a.WriteAgain? || a.WriteFails? || a.WriteDone? }

  /** Where the connection is before the step; one that is being accepted is nowhere. */
  function Source(a: Step): Option<Place> {
    if a.Accept? then None else Some(if ReadStep(a) then Reading else if WriteStep(a) then Writing else Handled)
  }

  /** The places in the order of a connection's life: read a request, have it handled, write the reply, read again. */
  function Next(p: Place): Place {
    match p
    case Reading => Handled
    case Handled => Writing
    case Writing => Reading
    case Freed => Freed
  }

  /** Where it is afterwards: freed if the step fails, at the same place if it is to be continued, else at the next. */
  function Target(a: Step): Place {
    if Fails(a) then Freed
    else if a.Accept? then Reading
    else if a.ReadAgain? || a.WriteAgain? then Source(a).value
    else Next(Source(a).value)
  }

  /** The weight that a step moves into a place. */
  function Moved(d: Daemon, a: Step, p: Place, f: Conn -> int): int
    requires Enabled(d, a)
  {
    match Subject(d, a)
    case None => 0
    case Some(c) => (if p == Target(a) then f(c) else 0) - (if Some(p) == Source(a) then f(c) else 0)
  }

  lemma {:induction false} ReadMoves(d: Daemon, a: Step, p: Place, f: Conn -> int)
    requires W.Inv(d.pool) && Enabled(d, a) && ReadStep(a)
    ensures W.Inv(Apply(d, a).pool) && At(Apply(d, a), p, f) == At(d, p, f) + Moved(d, a, p, f)
  {
    if a.ReadDone? { PoolTotalKept(d.pool, W.Submit(W.Query(a.id, d.readers[a.i])), ByConn(f)); }
    match p
    case Reading => SumDrop(d.readers, a.i, f);
    case Handled =>
    case Writing =>
    case Freed => SumConcat(d.freed, [d.readers[a.i]], f);
  }

  lemma {:induction false} WriteMoves(d: Daemon, a: Step, p: Place, f: Conn -> int)
    requires W.Inv(d.pool) && Enabled(d, a) && WriteStep(a)
    ensures W.Inv(Apply(d, a).pool) && At(Apply(d, a), p, f) == At(d, p, f) + Moved(d, a, p, f)
  {
    match p
    case Reading => SumConcat(d.readers, [d.writers[a.i]], f);
    case Handled =>
    case Writing => SumDrop(d.writers, a.i, f);
    case Freed => SumConcat(d.freed, [d.writers[a.i]], f);
  }

  lemma {:induction false} PoolMoves(d: Daemon, a: Step, p: Place, f: Conn -> int)
    requires W.Inv(d.pool) && Enabled(d, a) && (a.PoolStep? || a.Reply?)
    ensures W.Inv(Apply(d, a).pool) && At(Apply(d, a), p, f) == At(d, p, f) + Moved(d, a, p, f)
  {
    if a.PoolStep? {
      PoolTotalKept(d.pool, a.a, ByConn(f));
    } else {
      var c := d.pool.disp.q.conn;
      PoolTotalKept(d.pool, W.Deliver, ByConn(f));
      if p == Writing { SumConcat(d.writers, [c], f); }
      if p == Freed { SumConcat(d.freed, [c], f); }
    }
  }

  /**
   Every step moves its connection, and only it, from its source to its target: to the next place in its life
   if the step does not fail, out of it if it does.
   */
  lemma {:induction false} StepMoves(d: Daemon, a: Step, p: Place, f: Conn -> int)
    requires W.Inv(d.pool) && Enabled(d, a)
    ensures W.Inv(Apply(d, a).pool) && At(Apply(d, a), p, f) == At(d, p, f) + Moved(d, a, p, f)
  {
    if ReadStep(a) {
      ReadMoves(d, a, p, f);
    } else if WriteStep(a) {
      WriteMoves(d, a, p, f);
    } else if a.PoolStep? || a.Reply? {
      PoolMoves(d, a, p, f);
    } else {
      SumConcat(d.readers, [a.c], f);
      SumConcat(d.freed, [a.c], f);
    }
  }

  /** Holders against accepted connections. */
  function Excess(d: Daemon, f: Conn -> int): int { Holders(d, f) - Sum(d.accepted, f) }

  lemma {:induction false} AcceptCounts(d: Daemon, a: Step, f: Conn -> int)
    requires Enabled(d, a)
    ensures Sum(Apply(d, a).accepted, f) == Sum(d.accepted, f) + if a.Accept? then f(a.c) else 0
  {
    if a.Accept? { SumConcat(d.accepted, [a.c], f); }
  }

  /** What leaves a place arrives at another, apart from what is accepted. */
  lemma {:induction false} MovesBalance(d: Daemon, a: Step, f: Conn -> int)
    requires Enabled(d, a)
    ensures Moved(d, a, Reading, f) + Moved(d, a, Handled, f) + Moved(d, a, Writing, f) + Moved(d, a, Freed, f) ==
            if a.Accept? then f(a.c) else 0
  {
  }

  /** So the holders of accepted connections are conserved. */
  lemma {:induction false} StepConserves(d: Daemon, a: Step, f: Conn -> int)
    requires W.Inv(d.pool) && Enabled(d, a)
    ensures W.Inv(Apply(d, a).pool) && Excess(Apply(d, a), f) == Excess(d, f)
  {
    StepMoves(d, a, Reading, f);
    StepMoves(d, a, Handled, f);
    StepMoves(d, a, Writing, f);
    StepMoves(d, a, Freed, f);
    AcceptCounts(d, a, f);
    MovesBalance(d, a, f);
  }

  /** How many steps of a run fail. */
  function Failures(run: seq<Step>): nat {
    if run == [] then 0 else (if Fails(run[0]) then 1 else 0) + Failures(run[1..])
  }

  lemma {:induction false} OnlyFailuresFree(d: Daemon, run: seq<Step>)
    requires W.Inv(d.pool) && ValidRun(d, run)
    ensures |Exec(d, run).freed| == |d.freed| + Failures(run)
    decreases |run|
  {
    if run != [] {
      StepMoves(d, run[0], Freed, One);
      SumOne(d.freed);
      SumOne(Apply(d, run[0]).freed);
      OnlyFailuresFree(Apply(d, run[0]), run[1..]);
    }
  }

  function One(c: Conn): int { 1 }

  lemma {:induction false} SumOne(s: seq<Conn>)
    ensures Sum(s, One) == |s|
  {
    if s != [] { SumOne(s[1..]); }
  }

  /** Along a run from the start, connections are freed by the steps that fail and by nothing else. */
  lemma {:induction false} FreedByFailures(n: nat, run: seq<Step>)
    requires n > 0 && ValidRun(Init(n), run)
    ensures |Exec(Init(n), run).freed| == Failures(run)
    ensures Exec(Init(n), run).freed == [] <==> forall a :: a in run ==> !Fails(a)
  {
    W.InitInv(n);
    OnlyFailuresFree(Init(n), run);
    NoFailures(run);
  }

  lemma {:induction false} NoFailures(run: seq<Step>)
    ensures Failures(run) == 0 <==> forall a :: a in run ==> !Fails(a)
  {
    if run != [] {
      NoFailures(run[1..]);
      assert run == [run[0]] + run[1..];
    }
  }

  lemma {:induction false} AcceptsOnce(d: Daemon, a: Step)
    requires NoDup(d.accepted) && Enabled(d, a)
    ensures NoDup(Apply(d, a).accepted)
  {
  }

  /** No structure is both a connection and left behind. */
  ghost predicate Disjoint(d: Daemon) { forall c :: c in d.stray ==> c !in d.accepted }

  lemma {:induction false} StrayStep(d: Daemon, a: Step)
    requires Enabled(d, a) && Disjoint(d)
    ensures Disjoint(Apply(d, a))
    ensures Apply(d, a).stray == if a.AcceptInterrupted? then d.stray + [a.c] else d.stray
  {
  }

  /** Structures are left behind by interrupted accepts and by nothing else. */
  lemma {:induction false} RunStrays(d: Daemon, run: seq<Step>)
    requires Disjoint(d) && ValidRun(d, run)
    ensures Disjoint(Exec(d, run))
    ensures Exec(d, run).stray == [] <==> d.stray == [] && forall a :: a in run ==> !a.AcceptInterrupted?
    decreases |run|
  {
    if run != [] {
      StrayStep(d, run[0]);
      RunStrays(Apply(d, run[0]), run[1..]);
      assert run == [run[0]] + run[1..];
    }
  }

  lemma {:induction false} RunConserves(d: Daemon, run: seq<Step>, f: Conn -> int)
    requires W.Inv(d.pool) && NoDup(d.accepted) && ValidRun(d, run)
    ensures W.Inv(Exec(d, run).pool) && NoDup(Exec(d, run).accepted)
    ensures Excess(Exec(d, run), f) == Excess(d, f)
    decreases |run|
  {
    if run != [] {
      StepConserves(d, run[0], f);
      AcceptsOnce(d, run[0]);
      RunConserves(Apply(d, run[0]), run[1..], f);
    }
  }

  ghost predicate Reachable(n: nat, d: Daemon) {
    n > 0 && exists run :: ValidRun(Init(n), run) && Exec(Init(n), run) == d
  }

  /**
   Single ownership: over every run of socket and worker steps an accepted connection is held exactly
   once among the read buffers, the queries in the pool, the write buffers and the freed connections;
   one that was never accepted is held by nobody.
   */
  lemma {:induction false} SingleOwner(n: nat, d: Daemon, c: Conn)
    requires Reachable(n, d)
    ensures W.Inv(d.pool)
    ensures At(d, Reading, Is<Conn>(c)) + At(d, Handled, Is<Conn>(c)) + At(d, Writing, Is<Conn>(c))
            + At(d, Freed, Is<Conn>(c)) == if c in d.accepted then 1 else 0
  {
    var f := Is<Conn>(c);
    var run :| ValidRun(Init(n), run) && Exec(Init(n), run) == d;
    W.InitInv(n);
    SumZero(Init(n).pool.workers, W.HeldWeight(ByConn(f)));
    RunConserves(Init(n), run, f);
    SumIsNoDup<Conn>(d.accepted, c);
  }

  /** Every structure that a run has allocated is held exactly once, or freed... */
  ghost predicate AllHeld(d: Daemon) {
    forall c: Conn :: c in d.accepted || c in d.stray ==> Holders(d, Is<Conn>(c)) == 1
  }

  /** ...if and only if no accept was interrupted. */
  lemma {:induction false} HeldUnlessInterrupted(n: nat, run: seq<Step>)
    requires n > 0 && ValidRun(Init(n), run)
    ensures AllHeld(Exec(Init(n), run)) <==> forall a :: a in run ==> !a.AcceptInterrupted?
  {
    var d := Exec(Init(n), run);
    RunStrays(Init(n), run);
    assert Reachable(n, d);
    forall c: Conn ensures Holders(d, Is<Conn>(c)) == if c in d.accepted then 1 else 0 { SingleOwner(n, d, c); }
    if d.stray != [] { assert d.stray[0] in d.stray && !AllHeld(d); }
  }

  lemma {:induction false} SumByConn(s: seq<W.Query>, c: Conn)
    ensures Sum(s, ByConn(Is<Conn>(c))) >= 0
    ensures (exists q :: q in s && q.conn == c) ==> Sum(s, ByConn(Is<Conn>(c))) > 0
  {
    if s != [] { SumByConn(s[1..], c); }
  }

  lemma {:induction false} WorkersByConn(ws: seq<W.Worker>, c: Conn)
    ensures Sum(ws, W.HeldWeight(ByConn(Is<Conn>(c)))) >= 0
    ensures (exists w :: w in ws && Holds(w, c)) ==> Sum(ws, W.HeldWeight(ByConn(Is<Conn>(c)))) > 0
  {
    if ws != [] { WorkersByConn(ws[1..], c); }
  }

  predicate Holds(w: W.Worker, c: Conn) {
    (w.slot.Some? && w.slot.value.conn == c) || (w.phase.Handling? && w.phase.q.conn == c)
  }

  /** Some query anywhere in the pool came from connection `c`. */
  ghost predicate InPool(s: W.State, c: Conn) {
    || (exists q :: q in s.wait && q.conn == c)
    || (exists q :: q in s.reply && q.conn == c)
    || ((s.disp.Replying? || s.disp.Assign? || s.disp.Park? || s.disp.Handover?) && s.disp.q.conn == c)
    || (exists w :: w in s.workers && Holds(w, c))
  }

  /** gp_conn_free runs at most once on a connection, and afterwards no buffer and no query has it. */
  lemma {:induction false} NoUseAfterFree(n: nat, d: Daemon, c: Conn)
    requires Reachable(n, d) && c in d.freed
    ensures Sum(d.freed, Is<Conn>(c)) == 1
    ensures c !in d.readers && c !in d.writers && !InPool(d.pool, c)
  {
    SingleOwner(n, d, c);
    HolderCounts(d, c);
  }

  /** Each way of holding a connection adds to its count. */
  lemma {:induction false} HolderCounts(d: Daemon, c: Conn)
    ensures Sum(d.readers, Is<Conn>(c)) >= 0 && (c in d.readers ==> Sum(d.readers, Is<Conn>(c)) > 0)
    ensures Sum(d.writers, Is<Conn>(c)) >= 0 && (c in d.writers ==> Sum(d.writers, Is<Conn>(c)) > 0)
    ensures Sum(d.freed, Is<Conn>(c)) >= 0 && (c in d.freed ==> Sum(d.freed, Is<Conn>(c)) > 0)
    ensures W.Total(d.pool, ByConn(Is<Conn>(c))) >= 0
    ensures InPool(d.pool, c) ==> W.Total(d.pool, ByConn(Is<Conn>(c))) > 0
  {
    SumIs<Conn>(d.readers, c);
    SumIs<Conn>(d.writers, c);
    SumIs<Conn>(d.freed, c);
    SumByConn(d.pool.wait, c);
    SumByConn(d.pool.reply, c);
    WorkersByConn(d.pool.workers, c);
  }

  /**
   A connection being read or written has no request in the pool, and a pooled request's connection has no
   socket event.
   */
  lemma {:induction false} OneRequestOutstanding(n: nat, d: Daemon, c: Conn)
    requires Reachable(n, d)
    ensures W.Total(d.pool, ByConn(Is<Conn>(c))) <= 1
    ensures c in d.readers || c in d.writers ==> !InPool(d.pool, c)
    ensures c in d.readers ==> c !in d.writers
  {
    SingleOwner(n, d, c);
    HolderCounts(d, c);
  }
}
