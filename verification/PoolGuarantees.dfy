/**
 What the worker pool guarantees over every run: no query is stranded, lost or
 doubled, assignment never overwrites, every run of internal steps ends, and a
 pool at rest has answered everything exactly when no wake-up write failed.  A shutdown
 closes the pool exactly when no thread is about to miss its signal.
 */
module PoolGuarantees {
  import opened SeqLib
  import opened WorkerPool

  /**
   In every reachable state without failed pipe writes: replies and wake-ups match one to one,
   a wake-up always finds a reply, and while a query waits at an idle dispatcher every free
   thread has a wake-up coming, so some worker is busy or some wake-up is pending.
   */
  lemma {:induction false} NoStrandedWork(n: nat, s: State)
    requires Reachable(n, s) && s.lost == 0
    ensures |s.reply| == s.pipe + Signallers(s) + (if Popping(s.disp) then 1 else 0)
    ensures s.disp.ByteRead? || s.disp.PopReply? ==> s.reply != []
    ensures s.disp.Idle? && s.wait != [] ==>
              && |s.free| <= s.pipe + Signallers(s)
              && (s.busy != [] || s.pipe + Signallers(s) > 0)
  {
    ReachableInv(n, s);
    SumNonNegative(s.workers, IsSignalling);
    OneHome(s, 0);
  }

  /** What the pool holds and has handed back, against what it accepted. */
  ghost function Balance(s: State, f: Query -> int): int {
    Total(s, f) + Sum(s.delivered, f) - Sum(s.submitted, f)
  }

  lemma {:induction false} StepConserves(s: State, a: Step, f: Query -> int)
    requires Enabled(s, a)
    requires a.HandOver? ==> s.workers[s.disp.t].slot.None?
    ensures Balance(Apply(s, a), f) == Balance(s, f)
  {
    if WorkerStep(a) {
      TotalKeptByWorker(s, a, f);
    } else {
      TotalKeptByDispatcher(s, a, f);
      if a.Submit? { SumConcat(s.submitted, [a.q], f); }
      if a.Deliver? { SumConcat(s.delivered, [s.disp.q], f); }
    }
  }

  /** Along every run the pool's content, weighed in any way, is what was accepted minus what was handed back. */
  lemma {:induction false} RunConserves(s: State, run: seq<Step>, f: Query -> int)
    requires Inv(s) && ValidRun(s, run)
    ensures Balance(Exec(s, run), f) == Balance(s, f)
    decreases |run|
  {
    if run != [] {
      assert run[0].HandOver? ==> WorkerOk(s, s.disp.t);
      StepConserves(s, run[0], f);
      InvKept(s, run[0]);
      RunConserves(Apply(s, run[0]), run[1..], f);
    }
  }

  lemma {:induction false} RunSubmitsOnce(s: State, run: seq<Step>)
    requires NoDup(s.submitted) && ValidRun(s, run)
    ensures NoDup(Exec(s, run).submitted)
    decreases |run|
  {
    if run != [] { RunSubmitsOnce(Apply(s, run[0]), run[1..]); }
  }

  lemma {:induction false} ReachableConserves(n: nat, s: State, f: Query -> int)
    requires Reachable(n, s)
    ensures Total(s, f) + Sum(s.delivered, f) == Sum(s.submitted, f)
    ensures NoDup(s.submitted)
  {
    var run :| ValidRun(Init(n), run) && Exec(Init(n), run) == s;
    InitInv(n);
    RunConserves(Init(n), run, f);
    RunSubmitsOnce(Init(n), run);
    SumZero(Init(n).workers, HeldWeight(f));
  }

  /**
   Exactly one place: an accepted query occurs once among the wait list, the reply list, the
   dispatcher's hand, the slots, the workers' hands and the queries handed back; any other occurs nowhere.
   */
  lemma {:induction false} EachQueryInOnePlace(n: nat, s: State, q: Query)
    requires Reachable(n, s)
    ensures Total(s, Is(q)) + Sum(s.delivered, Is(q)) == if q in s.submitted then 1 else 0
  {
    ReachableConserves(n, s, Is(q));
    SumIsNoDup(s.submitted, q);
  }

  /** Threads are partitioned, free ones are empty-handed, and a hand-over finds its slot empty. */
  lemma {:induction false} AssignmentNeverOverwrites(n: nat, s: State, t: nat)
    requires Reachable(n, s) && t < n
    ensures |s.workers| == n
    ensures Sum(s.free, Is<nat>(t)) + Sum(s.busy, Is<nat>(t)) + Sum(s.joined, Is<nat>(t))
            + (if Leaving(s.disp, t) then 1 else 0) == 1
    ensures t in s.free ==> s.workers[t].slot.None? && !s.workers[t].phase.Handling?
    ensures Enabled(s, HandOver) && s.disp.t == t ==> s.workers[t].slot.None?
    ensures s.workers[t].slot.Some? ==> s.workers[t].phase != Asleep(false)
  {
    ReachableInv(n, s);
    assert Roster(s, Is<nat>(t)) == 1;
    assert WorkerOk(s, t);
  }

  // ----- order -----

  predicate TouchesWait(a: Step) { a.ParkQuery? || a.TakeWaiting? }

  predicate TouchesReply(a: Step) { a.Publish? || a.TakeReply? }

  predicate TouchesFree(a: Step) { a.Publish? || a.PickThread? || a.PickToJoin? }

  lemma {:induction false} StepUntouched(s: State, a: Step)
    requires Enabled(s, a)
    ensures !TouchesWait(a) ==> Apply(s, a).wait == s.wait
    ensures !TouchesReply(a) ==> Apply(s, a).reply == s.reply
    ensures !TouchesFree(a) ==> Apply(s, a).free == s.free
  {
  }

  lemma {:induction false} ListsUntouched(s: State, run: seq<Step>)
    requires ValidRun(s, run)
    ensures (forall a :: a in run ==> !TouchesWait(a)) ==> Exec(s, run).wait == s.wait
    ensures (forall a :: a in run ==> !TouchesReply(a)) ==> Exec(s, run).reply == s.reply
    ensures (forall a :: a in run ==> !TouchesFree(a)) ==> Exec(s, run).free == s.free
    decreases |run|
  {
    if run != [] {
      assert run[0] in run && forall a :: a in run[1..] ==> a in run;
      StepUntouched(s, run[0]);
      ListsUntouched(Apply(s, run[0]), run[1..]);
    }
  }

  /** The wait list is a stack: the query parked last is the next to be assigned. */
  lemma {:induction false} LastParkedFirst(s: State, run: seq<Step>)
    requires Enabled(s, ParkQuery) && ValidRun(Apply(s, ParkQuery), run)
    requires (forall a :: a in run ==> !TouchesWait(a)) && Enabled(Exec(Apply(s, ParkQuery), run), TakeWaiting)
    ensures var s' := Apply(Exec(Apply(s, ParkQuery), run), TakeWaiting);
            s'.disp == Assign(s.disp.q) && s'.wait == s.wait
  {
    ListsUntouched(Apply(s, ParkQuery), run);
  }

  /** So is the reply list: the query published last is the next to be handed back. */
  lemma {:induction false} LastPublishedFirst(s: State, t: nat, run: seq<Step>)
    requires Enabled(s, Publish(t)) && ValidRun(Apply(s, Publish(t)), run)
    requires (forall a :: a in run ==> !TouchesReply(a)) && Enabled(Exec(Apply(s, Publish(t)), run), TakeReply)
    ensures var s' := Apply(Exec(Apply(s, Publish(t)), run), TakeReply);
            s'.disp == Replying(s.workers[t].phase.q) && s'.reply == s.reply
  {
    ListsUntouched(Apply(s, Publish(t)), run);
  }

  /** And the free list: the thread that became free last is the next to get a query. */
  lemma {:induction false} LastFreedFirst(s: State, t: nat, run: seq<Step>)
    requires Enabled(s, Publish(t)) && !s.shutdown && ValidRun(Apply(s, Publish(t)), run)
    requires (forall a :: a in run ==> !TouchesFree(a)) && Enabled(Exec(Apply(s, Publish(t)), run), PickThread)
    ensures var s1 := Exec(Apply(s, Publish(t)), run);
            Apply(s1, PickThread).disp == Handover(s1.disp.q, t) && Apply(s1, PickThread).free == s.free
  {
    ListsUntouched(Apply(s, Publish(t)), run);
  }

  // ----- shutdown -----

  predicate SuffixOf<T(==)>(a: seq<T>, b: seq<T>) { |a| <= |b| && a == b[|b| - |a|..] }

  lemma {:induction false} ShutdownStep(s: State, a: Step)
    requires Enabled(s, a) && FlagsInv(s) && s.shutdown
    ensures var s' := Apply(s, a);
      && s'.shutdown
      && (s'.free == s.free || (s.free != [] && s'.free == s.free[1..]))
      && (s'.busy == s.busy || (s.busy != [] && s'.busy == s.busy[1..]))
      && (WorkerStep(a) ==> s'.free == s.free && s'.busy == s.busy)
  {
  }

  lemma {:induction false} SuffixTrans<T>(a: seq<T>, b: seq<T>, c: seq<T>)
    requires SuffixOf(a, b) && SuffixOf(b, c)
    ensures SuffixOf(a, c)
  {
  }

  /** After shutdown begins the two lists only lose elements, at their heads... */
  lemma {:induction false} ShutdownShrinksLists(s: State, run: seq<Step>)
    requires FlagsInv(s) && s.shutdown && ValidRun(s, run)
    ensures SuffixOf(Exec(s, run).free, s.free) && SuffixOf(Exec(s, run).busy, s.busy)
    decreases |run|
  {
    if run != [] {
      var s1, s2 := Apply(s, run[0]), Exec(s, run);
      FlagsKept(s, run[0]);
      ShutdownStep(s, run[0]);
      ShutdownShrinksLists(s1, run[1..]);
      SuffixTrans(s2.free, s1.free, s.free);
      SuffixTrans(s2.busy, s1.busy, s.busy);
    }
  }

  /** ...and never to a worker: a run of worker steps leaves both lists alone. */
  lemma {:induction false} ShutdownFreezesLists(s: State, run: seq<Step>)
    requires FlagsInv(s) && s.shutdown && ValidRun(s, run)
    requires forall i :: 0 <= i < |run| ==> WorkerStep(run[i])
    ensures Exec(s, run).free == s.free && Exec(s, run).busy == s.busy
    decreases |run|
  {
    if run != [] {
      FlagsKept(s, run[0]);
      ShutdownStep(s, run[0]);
      ShutdownFreezesLists(Apply(s, run[0]), run[1..]);
    }
  }

  /** Free threads are joined before busy ones: while one is left, the busy list is as it was. */
  lemma {:induction false} FreeJoinedFirst(s: State, run: seq<Step>)
    requires FlagsInv(s) && s.shutdown && ValidRun(s, run)
    ensures Exec(s, run).free != [] ==> Exec(s, run).busy == s.busy
    ensures s.free == [] ==> Exec(s, run).free == []
    decreases |run|
  {
    if run != [] {
      FlagsKept(s, run[0]);
      ShutdownStep(s, run[0]);
      FreeJoinedFirst(Apply(s, run[0]), run[1..]);
    }
  }

  /** No thread outlives its memory: joined threads take no step, and none does once the pool is closed. */
  lemma {:induction false} NoStepAfterFree(n: nat, s: State, a: Step)
    requires Reachable(n, s) && WorkerStep(a)
    requires a.t in s.joined || s.disp.Closed?
    ensures !Enabled(s, a)
  {
    ReachableInv(n, s);
    OneHome(s, a.t);
    if a.t < n { assert WorkerOk(s, a.t); }
  }

  // ----- progress -----

  /** Steps the pool takes by itself: all but a new request, a spurious wake-up and the start of shutdown. */
  predicate Internal(a: Step) { !a.Submit? && !a.SpuriousWake? && !a.BeginShutdown? }

  function PhaseRank(p: Phase): nat {
    match p
    case Top => 2
    case Locking => 1
    case Asleep(signalled) => if signalled then 2 else 0
    case Handling(_) => 20
    case Signalling => 12
    case Exited => 0
  }

  function WorkerRank(w: Worker): int { PhaseRank(w.phase) + (if w.slot.Some? then 20 else 0) }

  function DispatcherRank(d: Dispatcher): nat {
    match d
    case ByteRead => 8
    case PopReply => 7
    case Replying(_) => 6
    case CheckWait => 5
    case Assign(_) => 24
    case Handover(_, _) => 23
    case Park(_) => 21
    case Draining => 1
    case WakeToExit(_) => 8
    case Joining(_) => 4
    case Idle => 0
    case Closed => 0
  }

  /** How much work is left in the pool. */
  function Rank(s: State): int {
    20 * |s.wait| + |s.reply| + 9 * s.pipe + 10 * (|s.free| + |s.busy|)
    + DispatcherRank(s.disp) + Sum(s.workers, WorkerRank)
  }

  lemma {:induction false} RankFallsByQuiet(s: State, a: Step)
    requires Enabled(s, a) && Quiet(a) && Internal(a)
    ensures Rank(Apply(s, a)) < Rank(s)
  {
    var w := Apply(s, a).workers[a.t];
    QuietStep(s, a);
    SumUpdate(s.workers, WorkerRank, a.t, w);
    assert WorkerRank(w) < WorkerRank(s.workers[a.t]);
  }

  lemma {:induction false} RankFallsByWorker(s: State, a: Step)
    requires Enabled(s, a) && WorkerStep(a) && Internal(a)
    requires a.Publish? && !s.shutdown ==> a.t in s.busy
    ensures Rank(Apply(s, a)) < Rank(s)
  {
    if Quiet(a) {
      RankFallsByQuiet(s, a);
    } else {
      SumUpdate(s.workers, WorkerRank, a.t, Apply(s, a).workers[a.t]);
    }
  }

  lemma {:induction false} RankFallsByDispatcher(s: State, a: Step)
    requires Enabled(s, a) && !WorkerStep(a) && Internal(a)
    requires a.HandOver? ==> WorkerOk(s, s.disp.t)
    ensures Rank(Apply(s, a)) < Rank(s)
  {
    if a.HandOver? || a.WakeToJoin? { SumUpdate(s.workers, WorkerRank, s.disp.t, Apply(s, a).workers[s.disp.t]); }
  }

  lemma {:induction false} PublisherIsBusy(s: State, a: Step)
    requires Inv(s) && Enabled(s, a) && a.Publish? && !s.shutdown
    ensures a.t in s.busy
  {
    assert WorkerOk(s, a.t);
    OneHome(s, a.t);
  }

  lemma {:induction false} InternalStep(s: State, a: Step)
    requires Inv(s) && Enabled(s, a) && Internal(a)
    ensures Rank(Apply(s, a)) < Rank(s)
    ensures Apply(s, a).shutdown == s.shutdown && Apply(s, a).submitted == s.submitted
  {
    if WorkerStep(a) {
      if a.Publish? && !s.shutdown { PublisherIsBusy(s, a); }
      RankFallsByWorker(s, a);
    } else {
      assert a.HandOver? ==> WorkerOk(s, s.disp.t);
      RankFallsByDispatcher(s, a);
    }
  }

  /** However the threads are scheduled, a run of internal steps is no longer than the rank it starts from. */
  lemma {:induction false} InternalRunsEnd(s: State, run: seq<Step>)
    requires Inv(s) && ValidRun(s, run)
    requires forall a :: a in run ==> Internal(a)
    ensures |run| <= Rank(s) - Rank(Exec(s, run)) && |run| <= Rank(s)
    ensures Inv(Exec(s, run)) && Exec(s, run).shutdown == s.shutdown && Exec(s, run).submitted == s.submitted
    decreases |run|
  {
    SumNonNegative(s.workers, WorkerRank);
    if run != [] {
      assert run[0] in run;
      InvKept(s, run[0]);
      InternalStep(s, run[0]);
      InternalRunsEnd(Apply(s, run[0]), run[1..]);
    }
  }

  /** No internal step is left. */
  ghost predicate Stuck(s: State) {
    forall a :: Internal(a) ==> !Enabled(s, a)
  }

  /** The pool at rest: dispatcher in its loop, nothing in the pipe, every worker asleep and not signalled. */
  ghost predicate Quiescent(s: State) {
    s.disp.Idle? && s.pipe == 0 && forall w :: w in s.workers ==> w.phase == Asleep(false)
  }

  lemma {:induction false} StuckDispatcherIsIdle(s: State)
    requires Inv(s) && !s.shutdown
    requires Stuck(s)
    ensures s.disp.Idle? && s.pipe == 0
  {
    assert !Enabled(s, ReadByte) && !Enabled(s, TestReply) && !Enabled(s, TakeReply) && !Enabled(s, Deliver);
    assert !Enabled(s, TakeWaiting) && !Enabled(s, PickThread) && !Enabled(s, ParkQuery) && !Enabled(s, HandOver);
    if s.disp.Handover? { OneHome(s, s.disp.t); }
  }

  predicate StepOf(a: Step, t: nat) { WorkerStep(a) && a.t == t }

  /** Only thread t can take an internal step. */
  ghost predicate OnlyStepsOf(s: State, t: nat) {
    forall a :: Internal(a) && Enabled(s, a) ==> StepOf(a, t)
  }

  lemma {:induction false} OthersSleep(s: State, t: nat, u: nat)
    requires OnlyStepsOf(s, t) && u < |s.workers| && u != t
    ensures s.workers[u].phase == Asleep(false) || s.workers[u].phase.Exited?
  {
    assert !Enabled(s, LoopTest(u)) && !Enabled(s, TakeQuery(u)) && !Enabled(s, Wake(u));
    assert !Enabled(s, Publish(u)) && !Enabled(s, WriteByte(u));
  }

  lemma {:induction false} StuckWorkerSleeps(s: State, t: nat)
    requires Stuck(s) && t < |s.workers|
    ensures s.workers[t].phase == Asleep(false) || s.workers[t].phase.Exited?
  {
    OthersSleep(s, t + 1, t);
  }

  lemma {:induction false} StuckWorkerIsAsleep(s: State, t: nat)
    requires Inv(s) && !s.shutdown && t < |s.workers|
    requires Stuck(s)
    ensures s.workers[t].phase == Asleep(false)
  {
    assert WorkerOk(s, t);
    StuckWorkerSleeps(s, t);
  }

  /** The pool is at rest exactly when it has no internal step left. */
  lemma {:induction false} QuiescentIffStuck(s: State)
    requires Inv(s) && !s.shutdown
    ensures Quiescent(s) <==> Stuck(s)
  {
    if Stuck(s) {
      StuckDispatcherIsIdle(s);
      forall t: nat | t < |s.workers| ensures s.workers[t].phase == Asleep(false) { StuckWorkerIsAsleep(s, t); }
    }
  }

  lemma {:induction false} RestingThreadIsFree(s: State, t: nat)
    requires Inv(s) && !s.shutdown && Quiescent(s) && t < |s.workers|
    ensures t !in s.busy && t in s.free && s.workers[t].slot.None?
  {
    assert WorkerOk(s, t);
    assert s.workers[t].phase == Asleep(false);
    OneHome(s, t);
  }

  lemma {:induction false} RestingPoolIsEmpty(s: State)
    requires Inv(s) && !s.shutdown && s.workers != [] && Quiescent(s)
    ensures (forall t: nat :: t !in s.busy) && Signallers(s) == 0 && |s.reply| == s.lost
    ensures s.lost == 0 ==> s.wait == []
    ensures forall w :: w in s.workers ==> w.slot.None? && w.phase == Asleep(false)
  {
    forall w | w in s.workers ensures w.slot.None? {
      var t: nat :| t < |s.workers| && s.workers[t] == w;
      RestingThreadIsFree(s, t);
    }
    forall t: nat ensures t !in s.busy {
      OneHome(s, t);
      if t < |s.workers| { RestingThreadIsFree(s, t); }
    }
    SumZero(s.workers, IsSignalling);
    RestingThreadIsFree(s, 0);
  }

  /**
   A pool at rest has answered every query it accepted, each once, exactly when no wake-up write
   failed.  With InternalRunsEnd: whatever the schedule, after finitely many internal steps every
   accepted query has been handed back.
   */
  lemma {:induction false} AnsweredIffNoLostWakeup(n: nat, s: State)
    requires Reachable(n, s) && !s.shutdown && Quiescent(s)
    ensures s.lost == 0 <==> forall f: Query -> int :: Sum(s.delivered, f) == Sum(s.submitted, f)
    ensures s.lost == 0 ==> s.wait == [] && s.reply == [] && forall t: nat :: t !in s.busy
  {
    ReachableInv(n, s);
    RestingPoolIsEmpty(s);
    if s.lost == 0 {
      forall f: Query -> int ensures Sum(s.delivered, f) == Sum(s.submitted, f) {
        ReachableConserves(n, s, f);
        SumZero(s.workers, HeldWeight(f));
      }
    } else {
      var f := Is(s.reply[0]);
      ReachableConserves(n, s, f);
      SumIs(s.wait, s.reply[0]);
      SumIs(s.reply, s.reply[0]);
      SumNonNegative(s.workers, HeldWeight(f));
      assert Sum(s.delivered, f) != Sum(s.submitted, f);
    }
  }

  lemma {:induction false} RunConcat(s: State, a: seq<Step>, b: seq<Step>)
    requires ValidRun(s, a) && ValidRun(Exec(s, a), b)
    ensures ValidRun(s, a + b) && Exec(s, a + b) == Exec(Exec(s, a), b)
    decreases |a|
  {
    if a == [] {
      assert a + b == b;
    } else {
      assert (a + b)[0] == a[0] && (a + b)[1..] == a[1..] + b;
      RunConcat(Apply(s, a[0]), a[1..], b);
    }
  }

  /**
   Progress under every schedule: from any reachable state, however the internal steps are
   interleaved, there are at most Rank of them, and when none is left and no wake-up write
   failed, every accepted query has been handed back exactly once.
   */
  lemma {:induction false} EveryQueryAnswered(n: nat, s: State, run: seq<Step>, q: Query)
    requires Reachable(n, s) && !s.shutdown && ValidRun(s, run)
    requires forall a :: a in run ==> Internal(a)
    requires Stuck(Exec(s, run))
    requires Exec(s, run).lost == 0 && q in s.submitted
    ensures |run| <= Rank(s)
    ensures Sum(Exec(s, run).delivered, Is(q)) == 1
  {
    var s' := Exec(s, run);
    ReachableInv(n, s);
    InternalRunsEnd(s, run);
    QuiescentIffStuck(s');
    var run0 :| ValidRun(Init(n), run0) && Exec(Init(n), run0) == s;
    RunConcat(Init(n), run0, run);
    assert Reachable(n, s');
    AnsweredIffNoLostWakeup(n, s');
    ReachableConserves(n, s', Is(q));
    SumIsNoDup(s'.submitted, q);
  }

  // ----- the end of a shutdown -----

  /** A dispatcher that is joining waits for a thread that has not exited. */
  lemma {:induction false} StuckDispatcherJoins(s: State)
    requires Inv(s) && s.shutdown
    requires Stuck(s)
    ensures s.disp.Closed? || (s.disp.Joining? && s.disp.t < |s.workers| && !s.workers[s.disp.t].phase.Exited?)
  {
    assert !Enabled(s, PickToJoin) && !Enabled(s, WakeToJoin) && !Enabled(s, Join) && !Enabled(s, ClosePool);
    if s.disp.WakeToExit? || s.disp.Joining? { OneHome(s, s.disp.t); }
  }

  /** One more step at the front of a run. */
  lemma {:induction false} RunCons(s: State, a: Step, s1: State, rest: seq<Step>)
    requires Enabled(s, a) && Apply(s, a) == s1 && ValidRun(s1, rest)
    ensures ValidRun(s, [a] + rest) && Exec(s, [a] + rest) == Exec(s1, rest)
  {
    assert ([a] + rest)[1..] == rest;
  }

  /** The dispatcher joins thread t, which is asleep and was not woken. */
  predicate Hung(s: State, t: nat) {
    s.disp == Joining(t) && t < |s.workers| && s.workers[t].phase == Asleep(false)
  }

  /** How a shutdown ends: with no internal step left the pool is closed, or the dispatcher hangs in a join. */
  lemma {:induction false} ShutdownEnds(s: State)
    requires Inv(s) && s.shutdown && Stuck(s)
    ensures s.disp.Closed? || (s.disp.Joining? && Hung(s, s.disp.t))
  {
    StuckDispatcherJoins(s);
    if s.disp.Joining? { StuckWorkerSleeps(s, s.disp.t); }
  }

  /** Past its test of the shutdown flag and about to wait: a signal sent now does not reach the thread. */
  predicate Between(w: Worker) { w.phase.Locking? && w.slot.None? }

  /** A shutdown during which no thread misses its signal. */
  ghost predicate Heard(s: State) {
    && s.shutdown
    && (forall t: nat :: t < |s.workers| ==> !Between(s.workers[t]))
    && (s.disp.Joining? ==> !Hung(s, s.disp.t))
  }

  /** After the flag is set no worker gets between its test and its wait, and none goes to sleep. */
  lemma {:induction false} HeardByWorker(s: State, a: Step)
    requires s.shutdown && Enabled(s, a) && WorkerStep(a) && !Between(s.workers[a.t])
    ensures var s' := Apply(s, a);
      && s'.shutdown && s'.disp == s.disp && |s'.workers| == |s.workers|
      && !Between(s'.workers[a.t]) && s'.workers[a.t].phase != Asleep(false)
      && forall t: nat :: t < |s.workers| && t != a.t ==> s'.workers[t] == s.workers[t]
  {
  }

  lemma {:induction false} HeardKept(s: State, a: Step)
    requires FlagsInv(s) && Heard(s) && Enabled(s, a)
    ensures Heard(Apply(s, a))
  {
    if WorkerStep(a) { HeardByWorker(s, a); } else { ShutdownStep(s, a); }
  }

  lemma {:induction false} RunKeepsHeard(s: State, run: seq<Step>)
    requires Inv(s) && Heard(s) && ValidRun(s, run)
    ensures Inv(Exec(s, run)) && Heard(Exec(s, run))
    decreases |run|
  {
    if run != [] {
      InvKept(s, run[0]);
      HeardKept(s, run[0]);
      RunKeepsHeard(Apply(s, run[0]), run[1..]);
    }
  }

  /** Thread t is going to miss its signal, or has missed it. */
  predicate Doomed(s: State, t: nat) {
    t < |s.workers| && (Between(s.workers[t]) || Hung(s, t))
  }

  /** The other threads and the dispatcher do not save it. */
  lemma {:induction false} DoomedKept(s: State, a: Step, t: nat)
    requires Inv(s) && s.shutdown && Doomed(s, t) && Enabled(s, a) && !StepOf(a, t)
    ensures Doomed(Apply(s, a), t)
  {
    ShutdownStep(s, a);
  }

  lemma {:induction false} DoomedNotClosed(s: State, t: nat)
    requires Inv(s) && Doomed(s, t)
    ensures !s.disp.Closed?
  {
    OneHome(s, t);
    assert WorkerOk(s, t);
  }

  /** When only a doomed thread can take a step, the dispatcher joins it, or another one that sleeps... */
  lemma {:induction false} OnlyJoining(s: State, t: nat)
    requires Inv(s) && s.shutdown && OnlyStepsOf(s, t) && Doomed(s, t)
    ensures s.disp.Joining? && (s.disp.t == t || Hung(s, s.disp.t))
  {
    DoomedNotClosed(s, t);
    assert !Enabled(s, PickToJoin) && !Enabled(s, WakeToJoin) && !Enabled(s, Join) && !Enabled(s, ClosePool);
    if s.disp.WakeToExit? || s.disp.Joining? { OneHome(s, s.disp.t); }
    if s.disp.Joining? && s.disp.t != t { OthersSleep(s, t, s.disp.t); }
  }

  lemma {:induction false} LastStep(s: State, t: nat)
    requires Inv(s) && s.shutdown && Doomed(s, t) && !Stuck(s) && OnlyStepsOf(s, t)
    ensures Enabled(s, TakeQuery(t)) && s.disp.Joining? && Hung(Apply(s, TakeQuery(t)), s.disp.t)
  {
    OnlyJoining(s, t);
    var a :| Internal(a) && Enabled(s, a);
    assert StepOf(a, t);
  }

  /** ...so that some run of internal steps ends in a hung join. */
  lemma {:induction false} DoomedHangs(s: State, t: nat) returns (run: seq<Step>)
    requires Inv(s) && s.shutdown && Doomed(s, t)
    ensures ValidRun(s, run) && Stuck(Exec(s, run)) && !Exec(s, run).disp.Closed?
    decreases Rank(s)
  {
    SumNonNegative(s.workers, WorkerRank);
    if Stuck(s) {
      DoomedNotClosed(s, t);
      return [];
    }
    var a, u := TakeQuery(t), t;
    if OnlyStepsOf(s, t) {
      LastStep(s, t);
      u := s.disp.t;
    } else {
      a :| Internal(a) && Enabled(s, a) && !StepOf(a, t);
      DoomedKept(s, a, t);
    }
    InvKept(s, a);
    InternalStep(s, a);
    var rest := DoomedHangs(Apply(s, a), u);
    RunCons(s, a, Apply(s, a), rest);
    run := [a] + rest;
  }

  /** Every run that leaves no internal step ends with the pool closed. */
  ghost predicate AlwaysCloses(s: State) {
    forall run :: ValidRun(s, run) && Stuck(Exec(s, run)) ==> Exec(s, run).disp.Closed?
  }

  /**
   A shutdown closes the pool under every schedule if and only if no thread, at the moment the flag is set,
   is past its test of the flag with an empty slot and not yet waiting.
   */
  lemma {:induction false} ShutdownClosesIff(s: State)
    requires Inv(s) && s.disp.Idle?
    ensures AlwaysCloses(Apply(s, BeginShutdown)) <==> forall w :: w in s.workers ==> !Between(w)
  {
    var s1 := Apply(s, BeginShutdown);
    InvKept(s, BeginShutdown);
    if t: nat :| t < |s.workers| && Between(s.workers[t]) {
      var run := DoomedHangs(s1, t);
      assert !AlwaysCloses(s1);
    } else {
      forall run | ValidRun(s1, run) && Stuck(Exec(s1, run)) ensures Exec(s1, run).disp.Closed? {
        RunKeepsHeard(s1, run);
        ShutdownEnds(Exec(s1, run));
      }
    }
  }

  /** A pool with a single thread. */
  function Single(w: Worker, free: seq<nat>, busy: seq<nat>, wait: seq<Query>, reply: seq<Query>, lost: nat,
                  disp: Dispatcher, submitted: seq<Query>): State
  {
    State([w], free, busy, [], wait, reply, 0, lost, disp, false, submitted, [])
  }

  function FirstQuery(q0: Query): seq<Step> {
    [Submit(q0)] + ([PickThread] + ([HandOver] + ([LoopTest(0)] + ([TakeQuery(0)] + []))))
  }

  function SecondQuery(q1: Query): seq<Step> {
    [Submit(q1)] + ([PickThread] + ([ParkQuery] + []))
  }

  function FailedWakeup(): seq<Step> {
    [Publish(0)] + ([WriteFails(0)] + ([LoopTest(0)] + ([TakeQuery(0)] + [])))
  }

  lemma {:induction false} WorkerTakesQuery(q0: Query)
    ensures var s := Single(Worker(Top, Some(q0)), [], [0], [], [], 0, Idle, [q0]);
            var run := [LoopTest(0)] + ([TakeQuery(0)] + []);
            && ValidRun(s, run)
            && Exec(s, run) == Single(Worker(Handling(q0), None), [], [0], [], [], 0, Idle, [q0])
  {
    var locking := Single(Worker(Locking, Some(q0)), [], [0], [], [], 0, Idle, [q0]);
    RunCons(locking, TakeQuery(0), Single(Worker(Handling(q0), None), [], [0], [], [], 0, Idle, [q0]), []);
    RunCons(Single(Worker(Top, Some(q0)), [], [0], [], [], 0, Idle, [q0]), LoopTest(0), locking, [TakeQuery(0)] + []);
  }

  lemma {:induction false} FirstQueryTaken(q0: Query)
    ensures ValidRun(Init(1), FirstQuery(q0))
    ensures Exec(Init(1), FirstQuery(q0)) == Single(Worker(Handling(q0), None), [], [0], [], [], 0, Idle, [q0])
  {
    var top, taken := Worker(Top, None), [LoopTest(0)] + ([TakeQuery(0)] + []);
    var s1 := Single(top, [0], [], [], [], 0, Assign(q0), [q0]);
    var s2 := Single(top, [], [0], [], [], 0, Handover(q0, 0), [q0]);
    var s3 := Single(Worker(Top, Some(q0)), [], [0], [], [], 0, Idle, [q0]);
    WorkerTakesQuery(q0);
    RunCons(s2, HandOver, s3, taken);
    RunCons(s1, PickThread, s2, [HandOver] + taken);
    assert Countdown(1) == [0];
    RunCons(Init(1), Submit(q0), s1, [PickThread] + ([HandOver] + taken));
  }

  lemma {:induction false} SecondQueryWaits(q0: Query, q1: Query)
    requires q0 != q1
    ensures
      var h := Worker(Handling(q0), None);
      var s := Single(h, [], [0], [], [], 0, Idle, [q0]);
      && ValidRun(s, SecondQuery(q1))
      && Exec(s, SecondQuery(q1)) == Single(h, [], [0], [q1], [], 0, Idle, [q0, q1])
  {
    var h := Worker(Handling(q0), None);
    var s0 := Single(h, [], [0], [], [], 0, Idle, [q0]);
    var s1 := Single(h, [], [0], [], [], 0, Assign(q1), [q0, q1]);
    var s2 := Single(h, [], [0], [], [], 0, Park(q1), [q0, q1]);
    var s3 := Single(h, [], [0], [q1], [], 0, Idle, [q0, q1]);
    RunCons(s2, ParkQuery, s3, []);
    RunCons(s1, PickThread, s2, [ParkQuery] + []);
    RunCons(s0, Submit(q1), s1, [PickThread] + ([ParkQuery] + []));
  }

  lemma {:induction false} PublishAlone(q0: Query, q1: Query)
    ensures var s := Single(Worker(Handling(q0), None), [], [0], [q1], [], 0, Idle, [q0, q1]);
      Apply(s, Publish(0)) == Single(Worker(Signalling, None), [0], [], [q1], [q0], 0, Idle, [q0, q1])
  {
  }

  lemma {:induction false} WorkerFallsAsleep(q0: Query, q1: Query)
    ensures
      var s := Single(Worker(Top, None), [0], [], [q1], [q0], 1, Idle, [q0, q1]);
      var run := [LoopTest(0)] + ([TakeQuery(0)] + []);
      && ValidRun(s, run)
      && Exec(s, run) == Single(Worker(Asleep(false), None), [0], [], [q1], [q0], 1, Idle, [q0, q1])
  {
    var s5 := Single(Worker(Top, None), [0], [], [q1], [q0], 1, Idle, [q0, q1]);
    var s6 := Single(Worker(Locking, None), [0], [], [q1], [q0], 1, Idle, [q0, q1]);
    var s7 := Single(Worker(Asleep(false), None), [0], [], [q1], [q0], 1, Idle, [q0, q1]);
    RunCons(s6, TakeQuery(0), s7, []);
    RunCons(s5, LoopTest(0), s6, [TakeQuery(0)] + []);
  }

  lemma {:induction false} FailedWakeupStrands(q0: Query, q1: Query)
    ensures
      var s := Single(Worker(Handling(q0), None), [], [0], [q1], [], 0, Idle, [q0, q1]);
      && ValidRun(s, FailedWakeup())
      && Exec(s, FailedWakeup()) == Single(Worker(Asleep(false), None), [0], [], [q1], [q0], 1, Idle, [q0, q1])
  {
    var s3 := Single(Worker(Handling(q0), None), [], [0], [q1], [], 0, Idle, [q0, q1]);
    var s4 := Single(Worker(Signalling, None), [0], [], [q1], [q0], 0, Idle, [q0, q1]);
    var s5 := Single(Worker(Top, None), [0], [], [q1], [q0], 1, Idle, [q0, q1]);
    var asleep := [LoopTest(0)] + ([TakeQuery(0)] + []);
    WorkerFallsAsleep(q0, q1);
    RunCons(s4, WriteFails(0), s5, asleep);
    PublishAlone(q0, q1);
    RunCons(s3, Publish(0), s4, [WriteFails(0)] + asleep);
  }

  /** One failed wake-up write is enough: with a single thread, q0's reply and q1 are left for good. */
  lemma {:induction false} LostWakeupStrandsQuery(q0: Query, q1: Query)
    requires q0 != q1
    ensures exists s :: Reachable(1, s) && s.lost == 1 && s.wait == [q1] && s.reply == [q0] && Quiescent(s)
  {
    FirstQueryTaken(q0);
    SecondQueryWaits(q0, q1);
    FailedWakeupStrands(q0, q1);
    var run := FirstQuery(q0) + SecondQuery(q1);
    RunConcat(Init(1), FirstQuery(q0), SecondQuery(q1));
    RunConcat(Init(1), run, FailedWakeup());
    var s := Exec(Init(1), run + FailedWakeup());
    assert Reachable(1, s) && Quiescent(s);
  }

  /** The states on the way to a join that does not end: the worker passes its shutdown test, and misses the signal. */
  function AtShutdown(w: Worker, free: seq<nat>, disp: Dispatcher, shutdown: bool): State {
    State([w], free, [], [], [], [], 0, 0, disp, shutdown, [], [])
  }

  function Missed(): seq<Step> { [WakeToJoin] + ([TakeQuery(0)] + []) }

  lemma {:induction false} SignalMissed()
    ensures var s := AtShutdown(Worker(Locking, None), [], WakeToExit(0), true);
            && ValidRun(s, Missed())
            && Exec(s, Missed()) == AtShutdown(Worker(Asleep(false), None), [], Joining(0), true)
  {
    var joining := AtShutdown(Worker(Locking, None), [], Joining(0), true);
    RunCons(joining, TakeQuery(0), AtShutdown(Worker(Asleep(false), None), [], Joining(0), true), []);
    RunCons(AtShutdown(Worker(Locking, None), [], WakeToExit(0), true), WakeToJoin, joining, [TakeQuery(0)] + []);
  }

  lemma {:induction false} ShutdownTakesThread()
    ensures var s := AtShutdown(Worker(Locking, None), [0], Idle, false);
            var run := [BeginShutdown] + ([PickToJoin] + Missed());
            && ValidRun(s, run)
            && Exec(s, run) == AtShutdown(Worker(Asleep(false), None), [], Joining(0), true)
  {
    var w := Worker(Locking, None);
    SignalMissed();
    RunCons(AtShutdown(w, [0], Draining, true), PickToJoin, AtShutdown(w, [], WakeToExit(0), true), Missed());
    RunCons(AtShutdown(w, [0], Idle, false), BeginShutdown, AtShutdown(w, [0], Draining, true),
            [PickToJoin] + Missed());
  }

  /** A worker past its shutdown test but not yet waiting misses the signal, and the join does not end by itself. */
  lemma {:induction false} ShutdownCanHang()
    ensures exists s :: Reachable(1, s) && s.disp == Joining(0) && s.workers == [Worker(Asleep(false), None)]
                        && Stuck(s)
  {
    var s := AtShutdown(Worker(Locking, None), [0], Idle, false);
    var run := [BeginShutdown] + ([PickToJoin] + Missed());
    ShutdownTakesThread();
    assert Countdown(1) == [0];
    RunCons(Init(1), LoopTest(0), s, run);
    var hung := Exec(Init(1), [LoopTest(0)] + run);
    assert Reachable(1, hung);
    assert Stuck(hung);
  }
}
