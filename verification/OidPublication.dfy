/**
 Lock-free publication of the special-OID list (src/mechglue/gss_plugin.c): one
 writer and any number of readers take their loads and stores one at a time, in
 program order as the barriers enforce.  The writer fills an item, stores the pointer
 to it and then sets the flag; a reader loads the flag and, if it is set, the pointer.
 */
module OidPublication {
  import opened SeqLib
  import opened OidRegistry

  datatype Node = Node(regular: Oid, next: Option<nat>, flag: bool)

  /** The writer has nothing to do, has filled item `i`, or has stored its pointer in the head or in item `at`. */
  datatype Writer = Idle | Filled(i: nat) | Stored(i: nat, at: Option<nat>)

  /**
   A reader with the items it has been given so far; it has crashed if it ever followed a pointer that was not
   there.
   */
  datatype Reader =
    | Start
    | SawHead(flag: bool)
    | At(seen: seq<nat>)
    | SawNext(seen: seq<nat>, flag: bool)
    | Done(seen: seq<nat>)
    | Crashed

  datatype State = State(nodes: seq<Node>, head: Option<nat>, headFlag: bool, writer: Writer, readers: seq<Reader>)

  datatype Step = Fill(n: Oid) | Store | Publish | NewReader | LoadFlag(r: nat) | LoadPointer(r: nat)

  const EMPTY := State([], None, false, Idle, [])

  /** gpp_last_special_oids. */
  function Walk(nodes: seq<Node>, k: nat): (last: nat)
    requires k < |nodes|
    ensures last < |nodes|
    decreases |nodes| - k
  {
    if nodes[k].flag && nodes[k].next.Some? && k < nodes[k].next.value < |nodes| then Walk(nodes, nodes[k].next.value)
    else k
  }

  function Last(seen: seq<nat>): nat
    requires seen != []
  {
    seen[|seen| - 1]
  }

  predicate Enabled(s: State, a: Step) {
    match a
    case Fill(_) => s.writer.Idle?
    case Store => s.writer.Filled? && (s.headFlag ==> s.nodes != [])
    case Publish => s.writer.Stored? && (s.writer.at.Some? ==> s.writer.at.value < |s.nodes|)
    case NewReader => true
    case LoadFlag(r) =>
      && r < |s.readers|
      && (s.readers[r].Start? || (s.readers[r].At? && s.readers[r].seen != [] && Last(s.readers[r].seen) < |s.nodes|))
    case LoadPointer(r) =>
      && r < |s.readers|
      && (s.readers[r].SawHead? || (s.readers[r].SawNext? && s.readers[r].seen != []
              && Last(s.readers[r].seen) < |s.nodes|))
  }

  function Follow(seen: seq<nat>, flag: bool, pointer: Option<nat>): Reader {
    if !flag then Done(seen) else if pointer.None? then Crashed else At(seen + [pointer.value])
  }

  function Apply(s: State, a: Step): State
    requires Enabled(s, a)
  {
    match a
    case Fill(n) => s.(nodes := s.nodes + [Node(n, None, false)], writer := Filled(|s.nodes|))
    case Store =>
      if !s.headFlag then s.(head := Some(s.writer.i), writer := Stored(s.writer.i, None))
      else
        var t := Walk(s.nodes, 0);
        s.(nodes := s.nodes[t := s.nodes[t].(next := Some(s.writer.i))], writer := Stored(s.writer.i, Some(t)))
    case Publish =>
      if s.writer.at.None? then s.(headFlag := true, writer := Idle)
      else
        var t := s.writer.at.value;
        s.(nodes := s.nodes[t := s.nodes[t].(flag := true)], writer := Idle)
    case NewReader => s.(readers := s.readers + [Start])
    case LoadFlag(r) =>
      var reader := s.readers[r];
      var loaded := if reader.Start? then SawHead(s.headFlag)
              else SawNext(reader.seen, s.nodes[Last(reader.seen)].flag);
      s.(readers := s.readers[r := loaded])
    case LoadPointer(r) =>
      var reader := s.readers[r];
      var loaded := if reader.SawHead? then Follow([], reader.flag, s.head)
                    else Follow(reader.seen, reader.flag, s.nodes[Last(reader.seen)].next);
      s.(readers := s.readers[r := loaded])
  }

  // ----- the invariant -----

  /** How many items are published. */
  function Published(s: State): nat {
    if s.writer.Idle? || s.nodes == [] then |s.nodes| else |s.nodes| - 1
  }

  predicate ChainInv(s: State) {
    && s.headFlag == (Published(s) > 0)
    && (s.headFlag ==> s.head == Some(0))
    && (forall i :: 0 <= i < |s.nodes| ==> s.nodes[i].flag == (i + 1 < Published(s)))
    && (forall i :: 0 <= i < |s.nodes| && i + 1 < Published(s) ==> s.nodes[i].next == Some(i + 1))
    && (!s.writer.Idle? ==> s.nodes != [] && s.writer.i == |s.nodes| - 1)
    && (s.writer.Stored? ==>
          if s.writer.i == 0 then s.writer.at.None? && s.head == Some(0)
          else s.writer.at == Some(s.writer.i - 1) && s.nodes[s.writer.i - 1].next == Some(s.writer.i))
  }

  function UpTo(n: nat): (r: seq<nat>)
    ensures |r| == n
  {
    seq(n, i => i)
  }

  /** A reader has been given the first items of the list, in order, and trusts only flags that are set. */
  predicate ReaderOk(s: State, r: Reader) {
    match r
    case Start => true
    case SawHead(flag) => flag ==> s.headFlag
    case At(seen) => seen == UpTo(|seen|) && 0 < |seen| <= Published(s)
    case SawNext(seen, flag) => seen == UpTo(|seen|) && 0 < |seen| <= Published(s) && (flag ==> |seen| < Published(s))
    case Done(seen) => seen == UpTo(|seen|) && |seen| <= Published(s)
    case Crashed => false
  }

  predicate Inv(s: State) {
    ChainInv(s) && forall r :: 0 <= r < |s.readers| ==> ReaderOk(s, s.readers[r])
  }

  /** Following the flags from the head leads to the last published item. */
  lemma {:induction false} WalkEnds(s: State, k: nat)
    requires ChainInv(s) && k < Published(s)
    ensures Walk(s.nodes, k) == Published(s) - 1
    decreases Published(s) - k
  {
    if k + 1 < Published(s) {
      assert s.nodes[k].next == Some(k + 1);
      WalkEnds(s, k + 1);
    }
  }

  predicate ByWriter(a: Step) { a.Fill? || a.Store? || a.Publish? }

  lemma {:induction false} WriterKeepsChain(s: State, a: Step)
    requires ChainInv(s) && Enabled(s, a) && ByWriter(a)
    ensures ChainInv(Apply(s, a)) && Published(s) <= Published(Apply(s, a)) && Apply(s, a).readers == s.readers
  {
    if a.Store? && s.headFlag { WalkEnds(s, 0); }
  }

  /** What a reader has been given stays right while more is published. */
  lemma {:induction false} ReaderStays(s: State, s': State, r: Reader)
    requires ChainInv(s) && ChainInv(s') && ReaderOk(s, r) && Published(s) <= Published(s')
    ensures ReaderOk(s', r)
  {
  }

  lemma {:induction false} ReaderMoves(s: State, a: Step)
    requires Inv(s) && Enabled(s, a) && (a.LoadFlag? || a.LoadPointer?)
    ensures ReaderOk(s, Apply(s, a).readers[a.r])
  {
  }

  lemma {:induction false} StepKeepsInv(s: State, a: Step)
    requires Inv(s) && Enabled(s, a)
    ensures Inv(Apply(s, a)) && Published(s) <= Published(Apply(s, a))
  {
    var s' := Apply(s, a);
    if ByWriter(a) {
      WriterKeepsChain(s, a);
      forall r | 0 <= r < |s'.readers| ensures ReaderOk(s', s'.readers[r]) {
        ReaderStays(s, s', s.readers[r]);
      }
    } else {
      assert ChainInv(s') && Published(s') == Published(s);
      if a.LoadFlag? || a.LoadPointer? { ReaderMoves(s, a); }
      forall r | 0 <= r < |s'.readers| ensures ReaderOk(s', s'.readers[r]) {
        ReaderStays(s, s', s'.readers[r]);
      }
    }
  }

  // ----- runs -----

  predicate ValidRun(s: State, run: seq<Step>)
    decreases |run|
  {
    run == [] || (Enabled(s, run[0]) && ValidRun(Apply(s, run[0]), run[1..]))
  }

  function Exec(s: State, run: seq<Step>): State
    requires ValidRun(s, run)
    decreases |run|
  {
    if run == [] then s else Exec(Apply(s, run[0]), run[1..])
  }

  /** The OIDs of a state's items. */
  function Oids(s: State): (r: seq<Oid>)
    ensures |r| == |s.nodes|
  {
    seq(|s.nodes|, i requires 0 <= i < |s.nodes| => s.nodes[i].regular)
  }

  lemma {:induction false} StepKeepsOids(s: State, a: Step)
    requires Enabled(s, a)
    ensures Oids(s) <= Oids(Apply(s, a))
  {
  }

  lemma {:induction false} RunKeepsInv(s: State, run: seq<Step>)
    requires Inv(s) && ValidRun(s, run)
    ensures Inv(Exec(s, run)) && Published(s) <= Published(Exec(s, run)) && Oids(s) <= Oids(Exec(s, run))
    decreases |run|
  {
    if run != [] {
      StepKeepsInv(s, run[0]);
      StepKeepsOids(s, run[0]);
      RunKeepsInv(Apply(s, run[0]), run[1..]);
    }
  }

  predicate HasSeen(r: Reader) { r.At? || r.SawNext? || r.Done? }

  /** The OIDs of the items a reader has been given. */
  function Given(s: State, r: Reader): seq<Oid>
    requires HasSeen(r) && forall i :: 0 <= i < |r.seen| ==> r.seen[i] < |s.nodes|
  {
    seq(|r.seen|, i requires 0 <= i < |r.seen| => s.nodes[r.seen[i]].regular)
  }

  /**
   In every interleaving of one writer with any readers, at any moment, no reader has followed a missing
   pointer, and what it has been given is a prefix of the list as it is published then and ever after.
   */
  lemma {:induction false} ReadersSeePrefix(run: seq<Step>, later: seq<Step>, r: nat)
    requires ValidRun(EMPTY, run) && ValidRun(Exec(EMPTY, run), later) && r < |Exec(EMPTY, run).readers|
    ensures var s, s' := Exec(EMPTY, run), Exec(Exec(EMPTY, run), later);
            var reader := s.readers[r];
            && !reader.Crashed?
            && (HasSeen(reader) ==>
                  && (forall i :: 0 <= i < |reader.seen| ==> reader.seen[i] < |s.nodes|)
                  && Given(s, reader) <= Oids(s')[..Published(s')])
  {
    var s := Exec(EMPTY, run);
    RunKeepsInv(EMPTY, run);
    RunKeepsInv(s, later);
    assert ReaderOk(s, s.readers[r]);
  }

  /** A reader that finds no further flag has the whole list as published at that moment. */
  lemma {:induction false} StopsAtTheEnd(run: seq<Step>, r: nat)
    requires ValidRun(EMPTY, run) && r < |Exec(EMPTY, run).readers| && Exec(EMPTY, run).readers[r].At?
    ensures var s := Exec(EMPTY, run);
            && Enabled(s, LoadFlag(r))
            && (!Apply(s, LoadFlag(r)).readers[r].flag <==> |s.readers[r].seen| == Published(s))
  {
    var s := Exec(EMPTY, run);
    RunKeepsInv(EMPTY, run);
    assert ReaderOk(s, s.readers[r]);
  }

  // ----- what a walk finds -----

  /** The OIDs that a run adds, in order. */
  function Added(run: seq<Step>): seq<Oid> {
    if run == [] then [] else (if run[0].Fill? then [run[0].n] else []) + Added(run[1..])
  }

  lemma {:induction false} FillsOnly(s: State, a: Step)
    requires Enabled(s, a)
    ensures Oids(Apply(s, a)) == Oids(s) + Added([a])
  {
    assert Added([a][1..]) == [];
  }

  /** The list is what was added, in the order in which it was. */
  lemma {:induction false} ListIsAdded(s: State, run: seq<Step>)
    requires ValidRun(s, run)
    ensures Oids(Exec(s, run)) == Oids(s) + Added(run)
    decreases |run|
  {
    if run != [] {
      FillsOnly(s, run[0]);
      ListIsAdded(Apply(s, run[0]), run[1..]);
      assert Added([run[0]]) + Added(run[1..]) == Added(run);
    }
  }

  /** A reader that may have stopped has seen at least n items. */
  predicate SeesAtLeast(r: Reader, n: nat) {
    && (r.SawHead? && !r.flag ==> n == 0)
    && (r.SawNext? && !r.flag ==> |r.seen| >= n)
    && (r.Done? ==> |r.seen| >= n)
  }

  lemma {:induction false} SeesStep(s: State, a: Step, r: nat, n: nat)
    requires Inv(s) && Enabled(s, a) && r < |s.readers| && SeesAtLeast(s.readers[r], n) && n <= Published(s)
    ensures r < |Apply(s, a).readers| && SeesAtLeast(Apply(s, a).readers[r], n)
  {
    assert ReaderOk(s, s.readers[r]);
    var reader := s.readers[r];
    if a == LoadFlag(r) && reader.At? { assert s.nodes[Last(reader.seen)].flag == (|reader.seen| < Published(s)); }
  }

  lemma {:induction false} SeesRun(s: State, run: seq<Step>, r: nat, n: nat)
    requires Inv(s) && ValidRun(s, run) && r < |s.readers| && SeesAtLeast(s.readers[r], n) && n <= Published(s)
    ensures r < |Exec(s, run).readers| && SeesAtLeast(Exec(s, run).readers[r], n)
    decreases |run|
  {
    if run != [] {
      StepKeepsInv(s, run[0]);
      SeesStep(s, run[0], r, n);
      SeesRun(Apply(s, run[0]), run[1..], r, n);
    }
  }

  /** A walk that has ended found everything that was published when it started, whatever was added meanwhile. */
  lemma {:induction false} SeesAllBefore(before: seq<Step>, during: seq<Step>, r: nat)
    requires ValidRun(EMPTY, before) && ValidRun(Exec(EMPTY, before), during)
    requires r < |Exec(EMPTY, before).readers| && Exec(EMPTY, before).readers[r].Start?
    ensures var s, s' := Exec(EMPTY, before), Exec(Exec(EMPTY, before), during);
      && r < |s'.readers| && Oids(s) == Added(before)
      && (s'.readers[r].Done? ==>
            && |s'.readers[r].seen| >= Published(s)
            && s'.readers[r].seen == UpTo(|s'.readers[r].seen|) && |s'.readers[r].seen| <= Published(s')
            && Oids(s)[..Published(s)] <= Oids(s')[..|s'.readers[r].seen|])
  {
    var s := Exec(EMPTY, before);
    RunKeepsInv(EMPTY, before);
    RunKeepsInv(s, during);
    SeesRun(s, during, r, Published(s));
    ListIsAdded(EMPTY, before);
    var s' := Exec(s, during);
    assert ReaderOk(s', s'.readers[r]);
    assert Oids(EMPTY) + Added(before) == Added(before);
  }

  /** A reader that saw a flag goes on to the item behind it, and ends only without one. */
  lemma {:induction false} GoesOn(run: seq<Step>, r: nat)
    requires ValidRun(EMPTY, run) && Enabled(Exec(EMPTY, run), LoadPointer(r))
    ensures var s := Exec(EMPTY, run);
            var reader, reader' := s.readers[r], Apply(s, LoadPointer(r)).readers[r];
            var seen := if reader.SawHead? then [] else reader.seen;
            reader' == if reader.flag then At(seen + [|seen|]) else Done(seen)
  {
    var s := Exec(EMPTY, run);
    RunKeepsInv(EMPTY, run);
    assert ReaderOk(s, s.readers[r]);
  }
}
