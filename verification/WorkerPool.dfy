/**
 The dispatcher/worker protocol of the daemon's thread pool, as a step machine.

 One dispatcher (the event loop) and N workers share a free list, a busy list, a
 wait list, a reply list, a query slot per thread and a wake-up pipe.  Each step
 is one region that the program runs without interference: a mutex-protected
 section, or a single unprotected access.  A run is any sequence of enabled steps,
 so every interleaving of the threads is a run.
 */
module WorkerPool {
  import opened SeqLib

  /** A request on its way through the pool; `conn` is the connection it came from. */
  datatype Query = Query(id: nat, conn: nat)

  /** Where a worker thread stands in its main loop. */
  datatype Phase =
    | Top                       // about to test the shutdown flag
    | Locking                   // about to look into its slot, under its own mutex
    | Asleep(signalled: bool)   // in the condition wait
    | Handling(q: Query)        // took a query off its slot
    | Signalling                // published a reply, about to write the pipe byte
    | Exited

  datatype Worker = Worker(phase: Phase, slot: Option<Query>)

  /** Where the dispatcher stands. */
  datatype Dispatcher =
    | Idle                          // in the event loop
    | ByteRead                      // took a byte off the pipe
    | PopReply                      // saw a non-empty reply list, about to lock
    | Replying(q: Query)            // holds a reply
    | CheckWait                     // about to look at the wait list
    | Assign(q: Query)              // about to look for a free thread
    | Park(q: Query)                // found none, about to queue
    | Handover(q: Query, t: nat)    // moved thread t to the busy list
    | Draining                      // shutting down
    | WakeToExit(t: nat)            // took t off a list, about to signal it
    | Joining(t: nat)               // waiting for t to end
    | Closed

  /**
   `pipe` counts the bytes in the wake-up pipe and `lost` the byte writes that failed;
   `submitted` and `delivered` are the histories of queries accepted and handed back.
   */
  datatype State = State(
    workers: seq<Worker>, free: seq<nat>, busy: seq<nat>, joined: seq<nat>,
    wait: seq<Query>, reply: seq<Query>, pipe: nat, lost: nat,
    disp: Dispatcher, shutdown: bool,
    submitted: seq<Query>, delivered: seq<Query>)

  datatype Step =
    | Submit(q: Query) | ReadByte | TestReply | TakeReply | Deliver | TakeWaiting
    | PickThread | ParkQuery | HandOver
    | BeginShutdown | PickToJoin | WakeToJoin | Join | ClosePool
    | LoopTest(t: nat) | TakeQuery(t: nat) | Wake(t: nat) | SpuriousWake(t: nat)
    | Publish(t: nat) | WriteByte(t: nat) | WriteFails(t: nat)

  /** The pool as initialisation leaves it: every thread was pushed on the free list. */
  function Init(n: nat): State {
    State(seq(n, _ => Worker(Top, None)), Countdown(n), [], [], [], [], 0, 0, Idle, false, [], [])
  }

  function Countdown(n: nat): (r: seq<nat>)
    ensures |r| == n && forall t: nat :: t in r <==> t < n
    ensures forall i :: 0 <= i < n ==> r[i] == n - 1 - i
  {
    if n == 0 then [] else [n - 1] + Countdown(n - 1)
  }

  predicate WorkerStep(a: Step) {
    a.LoopTest? || a.TakeQuery? || a.Wake? || a.SpuriousWake? || a.Publish? || a.WriteByte? || a.WriteFails?
  }

  predicate Enabled(s: State, a: Step) {
    match a
    case Submit(q) => s.disp.Idle? && q !in s.submitted
    case ReadByte => s.disp.Idle? && s.pipe > 0
    case TestReply => s.disp.ByteRead?
    case TakeReply => s.disp.PopReply?
    case Deliver => s.disp.Replying?
    case TakeWaiting => s.disp.CheckWait?
    case PickThread => s.disp.Assign?
    case ParkQuery => s.disp.Park?
    case HandOver => s.disp.Handover? && s.disp.t < |s.workers|
    case BeginShutdown => s.disp.Idle?
    case PickToJoin => s.disp.Draining? && (s.free != [] || s.busy != [])
    case WakeToJoin => s.disp.WakeToExit? && s.disp.t < |s.workers|
    case Join => s.disp.Joining? && s.disp.t < |s.workers| && s.workers[s.disp.t].phase.Exited?
    case ClosePool => s.disp.Draining? && s.free == [] && s.busy == []
    case LoopTest(t) => t < |s.workers| && s.workers[t].phase.Top?
    case TakeQuery(t) => t < |s.workers| && s.workers[t].phase.Locking?
    case Wake(t) => t < |s.workers| && s.workers[t].phase == Asleep(true)
    case SpuriousWake(t) => t < |s.workers| && s.workers[t].phase == Asleep(false)
    case Publish(t) => t < |s.workers| && s.workers[t].phase.Handling?
    case WriteByte(t) => t < |s.workers| && s.workers[t].phase.Signalling?
    case WriteFails(t) => t < |s.workers| && s.workers[t].phase.Signalling?
  }

  function SetPhase(s: State, t: nat, p: Phase): State
    requires t < |s.workers|
  {
    s.(workers := s.workers[t := s.workers[t].(phase := p)])
  }

  /** A condition signal reaches a thread only if it is in the wait. */
  function Signalled(p: Phase): Phase {
    if p.Asleep? then Asleep(true) else p
  }

  function Apply(s: State, a: Step): State
    requires Enabled(s, a)
  {
    match a
    case Submit(q) => s.(disp := Assign(q), submitted := s.submitted + [q])
    case ReadByte => s.(disp := ByteRead, pipe := s.pipe - 1)
    case TestReply => s.(disp := if s.reply != [] then PopReply else CheckWait)
    case TakeReply =>
      if s.reply != [] then s.(disp := Replying(s.reply[0]), reply := s.reply[1..])
      else s.(disp := CheckWait)
    case Deliver => s.(disp := CheckWait, delivered := s.delivered + [s.disp.q])
    case TakeWaiting =>
      if s.wait != [] then s.(disp := Assign(s.wait[0]), wait := s.wait[1..])
      else s.(disp := Idle)
    case PickThread =>
      if s.free != [] then
        s.(disp := Handover(s.disp.q, s.free[0]), free := s.free[1..], busy := [s.free[0]] + s.busy)
      else s.(disp := Park(s.disp.q))
    case ParkQuery => s.(disp := Idle, wait := [s.disp.q] + s.wait)
    case HandOver =>
      var w := s.workers[s.disp.t];
      s.(disp := Idle, workers := s.workers[s.disp.t := Worker(Signalled(w.phase), Some(s.disp.q))])
    case BeginShutdown => s.(disp := Draining, shutdown := true)
    case PickToJoin =>
      if s.free != [] then s.(disp := WakeToExit(s.free[0]), free := s.free[1..])
      else s.(disp := WakeToExit(s.busy[0]), busy := s.busy[1..])
    case WakeToJoin =>
      SetPhase(s, s.disp.t, Signalled(s.workers[s.disp.t].phase)).(disp := Joining(s.disp.t))
    case Join => s.(disp := Draining, joined := s.joined + [s.disp.t])
    case ClosePool => s.(disp := Closed)
    case LoopTest(t) => SetPhase(s, t, if s.shutdown then Exited else Locking)
    case TakeQuery(t) =>
      var w := s.workers[t];
      if w.slot.Some? then s.(workers := s.workers[t := Worker(Handling(w.slot.value), None)])
      else SetPhase(s, t, Asleep(false))
    case Wake(t) => SetPhase(s, t, if s.shutdown then Exited else Locking)
    case SpuriousWake(t) => SetPhase(s, t, if s.shutdown then Exited else Locking)
    case Publish(t) =>
      var s1 := SetPhase(s, t, Signalling).(reply := [s.workers[t].phase.q] + s.reply);
      if s.shutdown then s1
      else s1.(busy := Without(s.busy, t), free := [t] + s.free)
    case WriteByte(t) => SetPhase(s, t, Top).(pipe := s.pipe + 1)
    case WriteFails(t) => SetPhase(s, t, Top).(lost := s.lost + 1)
  }

  ghost predicate ValidRun(s: State, run: seq<Step>)
    decreases |run|
  {
    run == [] || (Enabled(s, run[0]) && ValidRun(Apply(s, run[0]), run[1..]))
  }

  ghost function Exec(s: State, run: seq<Step>): State
    requires ValidRun(s, run)
    decreases |run|
  {
    if run == [] then s else Exec(Apply(s, run[0]), run[1..])
  }

  // ----- what is counted -----

  function IsSignalling(w: Worker): int { if w.phase.Signalling? then 1 else 0 }

  /** Workers that have published a reply but not yet written their byte. */
  function Signallers(s: State): int { Sum(s.workers, IsSignalling) }

  /** What a worker's slot and hand weigh, when query `q` weighs `f(q)`. */
  function HeldWeight(f: Query -> int): Worker -> int {
    (w: Worker) => (if w.slot.Some? then f(w.slot.value) else 0) + (if w.phase.Handling? then f(w.phase.q) else 0)
  }

  function HandWeight(d: Dispatcher, f: Query -> int): int {
    if d.Replying? || d.Assign? || d.Park? || d.Handover? then f(d.q) else 0
  }

  /** The weight of all queries in the pool: wait list, reply list, dispatcher's hand, slots and workers' hands. */
  function Total(s: State, f: Query -> int): int {
    Sum(s.wait, f) + Sum(s.reply, f) + HandWeight(s.disp, f) + Sum(s.workers, HeldWeight(f))
  }

  predicate Popping(d: Dispatcher) { d.ByteRead? || d.PopReply? }

  /** The dispatcher has consumed a wake-up and not yet looked for a waiting query. */
  predicate OwesOne(d: Dispatcher) {
    Popping(d) || d.Replying? || d.CheckWait? || d.Assign?
  }

  predicate ShuttingDown(d: Dispatcher) {
    d.Draining? || d.WakeToExit? || d.Joining? || d.Closed?
  }

  // ----- the invariant -----

  /** Wake-ups: every reply on the list has its byte in the pipe, on its way, or lost. */
  ghost predicate WakeupInv(s: State) {
    && |s.reply| == s.pipe + Signallers(s) + s.lost + (if Popping(s.disp) then 1 else 0)
    && (s.disp.Park? ==> |s.free| <= s.pipe + Signallers(s) + s.lost)
    && (s.wait != [] ==> |s.free| <= s.pipe + Signallers(s) + s.lost + (if OwesOne(s.disp) then 1 else 0))
  }

  predicate Leaving(d: Dispatcher, t: nat) { (d.WakeToExit? || d.Joining?) && d.t == t }

  /** The weight of the thread rosters, when thread t weighs f(t). */
  function Roster(s: State, f: nat -> int): int {
    Sum(s.free, f) + Sum(s.busy, f) + Sum(s.joined, f) + (if s.disp.WakeToExit? || s.disp.Joining?
            then f(s.disp.t) else 0)
  }

  /** Threads: each is, once, on the free list, on the busy list, being joined, or joined. */
  ghost predicate RosterInv(s: State) {
    forall t: nat :: Roster(s, Is<nat>(t)) == if t < |s.workers| then 1 else 0
  }

  /** The flags agree with where the dispatcher stands. */
  ghost predicate FlagsInv(s: State) {
    && (s.shutdown <==> ShuttingDown(s.disp))
    && (!s.shutdown ==> s.joined == [])
    && (s.disp.Closed? ==> s.free == [] && s.busy == [])
  }

  predicate Expecting(d: Dispatcher, t: nat) { d.Handover? && d.t == t }

  /** One worker: what its list, its slot and its phase say about each other. */
  ghost predicate WorkerOk(s: State, t: nat)
    requires t < |s.workers|
  {
    var w := s.workers[t];
    && (w.phase.Handling? ==> w.slot.None?)
    && (w.phase == Asleep(false) ==> w.slot.None?)
    && (w.phase.Exited? ==> s.shutdown)
    && (Expecting(s.disp, t) ==> t in s.busy && w.slot.None? && !w.phase.Handling?)
    && (t in s.free ==> w.slot.None? && !w.phase.Handling?)
    && (!s.shutdown && t in s.busy ==> w.slot.Some? || w.phase.Handling? || Expecting(s.disp, t))
    && (t in s.joined ==> w.phase.Exited?)
  }

  ghost predicate WorkersInv(s: State) {
    && (s.disp.Handover? ==> s.disp.t in s.busy)
    && forall t: nat :: t < |s.workers| ==> WorkerOk(s, t)
  }

  ghost predicate Inv(s: State) {
    WakeupInv(s) && RosterInv(s) && FlagsInv(s) && WorkersInv(s)
  }

  // ----- every step keeps it -----

  lemma {:induction false} SignallersAfter(s: State, t: nat, w: Worker)
    requires t < |s.workers|
    ensures Signallers(s.(workers := s.workers[t := w])) == Signallers(s) - IsSignalling(s.workers[t]) + IsSignalling(w)
    ensures Signallers(s) >= 0
  {
    SumUpdate(s.workers, IsSignalling, t, w);
    SumNonNegative(s.workers, IsSignalling);
  }

  /** Worker steps that change nothing but the worker itself. */
  predicate Quiet(a: Step) { a.LoopTest? || a.TakeQuery? || a.Wake? || a.SpuriousWake? }

  lemma {:induction false} QuietStep(s: State, a: Step)
    requires Enabled(s, a) && Quiet(a)
    ensures var w := Apply(s, a).workers[a.t];
            && Apply(s, a) == s.(workers := s.workers[a.t := w])
            && !w.phase.Signalling? && !s.workers[a.t].phase.Signalling?
  {
  }

  lemma {:induction false} WakeupKeptByWorker(s: State, a: Step)
    requires WakeupInv(s) && Enabled(s, a) && WorkerStep(a)
    ensures WakeupInv(Apply(s, a))
  {
    SignallersAfter(s, a.t, Apply(s, a).workers[a.t]);
    if Quiet(a) { QuietStep(s, a); } else { WakeupKeptByReply(s, a); }
  }

  /** Publishing a reply, and writing its byte or failing to. */
  lemma {:induction false} WakeupKeptByReply(s: State, a: Step)
    requires WakeupInv(s) && Enabled(s, a) && (a.Publish? || a.WriteByte? || a.WriteFails?)
    ensures WakeupInv(Apply(s, a))
  {
    SignallersAfter(s, a.t, Apply(s, a).workers[a.t]);
  }

  /** Steps that touch a worker's slot or wake it do not touch the count of signallers. */
  lemma {:induction false} WakeupKeptBySignal(s: State, a: Step)
    requires WakeupInv(s) && Enabled(s, a) && (a.HandOver? || a.WakeToJoin?)
    ensures WakeupInv(Apply(s, a))
  {
    SignallersAfter(s, s.disp.t, Apply(s, a).workers[s.disp.t]);
  }

  /** The other dispatcher steps leave the workers alone. */
  lemma {:induction false} WakeupKeptByList(s: State, a: Step)
    requires WakeupInv(s) && Enabled(s, a) && !WorkerStep(a) && !a.HandOver? && !a.WakeToJoin?
    ensures WakeupInv(Apply(s, a))
  {
    SumNonNegative(s.workers, IsSignalling);
    assert Signallers(Apply(s, a)) == Signallers(s);
    match a
    case ReadByte =>
    case TakeReply =>
    case TakeWaiting =>
    case PickThread =>
    case ParkQuery =>
    case PickToJoin =>
    case _ =>
  }

  lemma {:induction false} WakeupKeptByDispatcher(s: State, a: Step)
    requires WakeupInv(s) && Enabled(s, a) && !WorkerStep(a)
    ensures WakeupInv(Apply(s, a))
  {
    if a.HandOver? || a.WakeToJoin? { WakeupKeptBySignal(s, a); } else { WakeupKeptByList(s, a); }
  }

  /** A worker step only moves queries between places. */
  lemma {:induction false} TotalKeptByWorker(s: State, a: Step, f: Query -> int)
    requires Enabled(s, a) && WorkerStep(a)
    ensures Total(Apply(s, a), f) == Total(s, f)
  {
    SumUpdate(s.workers, HeldWeight(f), a.t, Apply(s, a).workers[a.t]);
    if a.Publish? { SumPush(s.workers[a.t].phase.q, s.reply, f); }
  }

  /** So does a dispatcher step, except that it may accept or hand back one query. */
  lemma {:induction false} TotalKeptByDispatcher(s: State, a: Step, f: Query -> int)
    requires Enabled(s, a) && !WorkerStep(a)
    requires a.HandOver? ==> s.workers[s.disp.t].slot.None?
    ensures Total(Apply(s, a), f) ==
            Total(s, f) + (if a.Submit? then f(a.q) else 0) - (if a.Deliver? then f(s.disp.q) else 0)
  {
    if a.ParkQuery? { SumPush(s.disp.q, s.wait, f); }
    if a.HandOver? || a.WakeToJoin? {
      SumUpdate(s.workers, HeldWeight(f), s.disp.t, Apply(s, a).workers[s.disp.t]);
    }
  }

  /** Every step keeps the weight of the rosters: threads move between them and are never lost or doubled. */
  lemma {:induction false} RosterKept(s: State, a: Step, f: nat -> int)
    requires Enabled(s, a)
    requires a.Publish? && !s.shutdown ==> a.t in s.busy
    ensures Roster(Apply(s, a), f) == Roster(s, f)
  {
    if Quiet(a) {
      QuietStep(s, a);
    } else {
      match a
      case PickThread => if s.free != [] { SumPush(s.free[0], s.busy, f); }
      case Join => SumConcat(s.joined, [s.disp.t], f);
      case Publish(t) => SumWithout(s.busy, t, f); SumPush(t, s.free, f);
      case _ =>
    }
  }

  /** A thread with one home is on at most one of the lists. */
  lemma {:induction false} OneHome(s: State, t: nat)
    requires RosterInv(s)
    ensures t in s.free || t in s.busy || t in s.joined || Leaving(s.disp, t) <==> t < |s.workers|
    ensures t in s.free ==> t !in s.busy && t !in s.joined && !Leaving(s.disp, t)
    ensures t in s.busy ==> t !in s.joined && !Leaving(s.disp, t)
    ensures t in s.joined ==> !Leaving(s.disp, t)
  {
    SumIs<nat>(s.free, t);
    SumIs<nat>(s.busy, t);
    SumIs<nat>(s.joined, t);
  }

  /** A worker that publishes goes to the free list; the others stay where they are. */
  lemma {:induction false} WorkerKeptByPublish(s: State, u: nat, t: nat)
    requires Enabled(s, Publish(u))
    requires t < |s.workers| && WorkerOk(s, t) && RosterInv(s) && FlagsInv(s)
    ensures WorkerOk(Apply(s, Publish(u)), t)
  {
    OneHome(s, t);
    if u != t {
      WithoutMember(s.busy, u, t);
    } else if !s.shutdown {
      SumIs<nat>(s.busy, t);
      SumIs<nat>(s.free, t);
      SumIs<nat>(s.joined, t);
      SumWithout<nat>(s.busy, t, Is<nat>(t));
      SumIs<nat>(Without(s.busy, t), t);
    }
  }

  lemma {:induction false} WorkerKeptByWorker(s: State, a: Step, t: nat)
    requires Enabled(s, a) && WorkerStep(a)
    requires t < |s.workers| && WorkerOk(s, t) && RosterInv(s) && FlagsInv(s)
    ensures WorkerOk(Apply(s, a), t)
  {
    OneHome(s, t);
    if a.Publish? { WorkerKeptByPublish(s, a.t, t); }
  }

  lemma {:induction false} WorkerKeptByDispatcher(s: State, a: Step, t: nat)
    requires Enabled(s, a) && !WorkerStep(a)
    requires t < |s.workers| && WorkerOk(s, t) && RosterInv(s) && FlagsInv(s)
    ensures WorkerOk(Apply(s, a), t)
  {
    OneHome(s, t);
  }

  lemma {:induction false} FlagsKept(s: State, a: Step)
    requires Enabled(s, a) && FlagsInv(s)
    ensures FlagsInv(Apply(s, a))
  {
  }

  /** Every step of every thread keeps the invariant. */
  lemma {:induction false} InvKept(s: State, a: Step)
    requires Inv(s) && Enabled(s, a)
    ensures Inv(Apply(s, a)) && |Apply(s, a).workers| == |s.workers|
  {
    if WorkerStep(a) {
      WakeupKeptByWorker(s, a);
      assert WorkerOk(s, a.t);
      OneHome(s, a.t);
    } else {
      WakeupKeptByDispatcher(s, a);
    }
    FlagsKept(s, a);
    forall t: nat ensures Roster(Apply(s, a), Is<nat>(t)) == if t < |s.workers| then 1 else 0 {
      RosterKept(s, a, Is<nat>(t));
    }
    if a.Publish? && s.disp.Handover? {
      OneHome(s, s.disp.t);
      assert WorkerOk(s, s.disp.t);
      WithoutMember<nat>(s.busy, a.t, s.disp.t);
    }
    forall t: nat | t < |s.workers| ensures WorkerOk(Apply(s, a), t) {
      if WorkerStep(a) { WorkerKeptByWorker(s, a, t); } else { WorkerKeptByDispatcher(s, a, t); }
    }
  }

  lemma {:induction false} InitInv(n: nat)
    requires n > 0
    ensures Inv(Init(n))
  {
    SumZero(Init(n).workers, IsSignalling);
    forall t: nat ensures Roster(Init(n), Is<nat>(t)) == if t < n then 1 else 0 {
      SumIsNoDup<nat>(Countdown(n), t);
    }
  }

  lemma {:induction false} RunKeepsInv(s: State, run: seq<Step>)
    requires Inv(s) && ValidRun(s, run)
    ensures Inv(Exec(s, run)) && |Exec(s, run).workers| == |s.workers|
    decreases |run|
  {
    if run != [] {
      InvKept(s, run[0]);
      RunKeepsInv(Apply(s, run[0]), run[1..]);
    }
  }

  ghost predicate Reachable(n: nat, s: State) {
    n > 0 && exists run :: ValidRun(Init(n), run) && Exec(Init(n), run) == s
  }

  lemma {:induction false} ReachableInv(n: nat, s: State)
    requires Reachable(n, s)
    ensures Inv(s) && |s.workers| == n
  {
    var run :| ValidRun(Init(n), run) && Exec(Init(n), run) == s;
    InitInv(n);
    RunKeepsInv(Init(n), run);
  }
}
