/**
 The pool's memory: threads linked through prev/next pointers into the free and
 the busy list, and the regions of the dispatcher and the workers that change
 them.  Each region is proved to do, on the pointers, exactly the protocol step
 that WorkerPool gives for it.
 */
module PoolLists {
  import opened SeqLib
  import W = WorkerPool

  class Thread {
    const id: nat
    var prev: Thread?
    var next: Thread?
    var query: Option<W.Query>

    constructor (id: nat)
      ensures this.id == id && prev == null && next == null && query == None
    {
      this.id := id;
      prev, next, query := null, null, None;
    }
  }

  /** `head` is a doubly linked list without repetition whose nodes are, in order, `s`. */
  ghost predicate Linked(head: Thread?, s: seq<Thread>)
    reads s
  {
    && NoDup(s)
    && head == (if s == [] then null else s[0])
    && (forall i {:trigger s[i].prev} :: 0 <= i < |s| ==> s[i].prev == if i == 0 then null else s[i - 1])
    && (forall i {:trigger s[i].next} :: 0 <= i < |s| ==> s[i].next == if i == |s| - 1 then null else s[i + 1])
  }

  /** LIST_ADD: push at the head. */
  method ListAdd(list: Thread?, elem: Thread, ghost s: seq<Thread>) returns (list': Thread?)
    requires Linked(list, s) && elem !in s
    modifies elem`prev, elem`next, (set t | t in s)`prev
    ensures Linked(list', [elem] + s)
  {
    elem.prev := null;
    elem.next := list;
    if list != null {
      list.prev := elem;
    }
    list' := elem;
  }

  /** The nodes around index k once s[k] has been bypassed in both directions. */
  ghost predicate Bypassed(s: seq<Thread>, k: nat)
    requires k < |s|
    reads s
  {
    && (forall i {:trigger s[i].prev} :: 0 <= i < |s| && i != k ==>
          s[i].prev == if i == 0 then null else if i == k + 1 then (if k == 0 then null else s[k - 1]) else s[i - 1])
    && (forall i {:trigger s[i].next} :: 0 <= i < |s| && i != k ==>
          s[i].next == if i == |s| - 1 then null
                else if i + 1 == k then (if k == |s| - 1 then null else s[k + 1]) else s[i + 1])
  }

  lemma {:induction false} BypassedIsLinked(s: seq<Thread>, k: nat, head: Thread?)
    requires NoDup(s) && k < |s| && Bypassed(s, k)
    requires head == if k > 0 then s[0] else if |s| > 1 then s[1] else null
    ensures Linked(head, s[..k] + s[k + 1..])
  {
  }

  /** LIST_DEL: remove a node from anywhere. */
  method ListDel(list: Thread?, elem: Thread, ghost s: seq<Thread>) returns (list': Thread?)
    requires Linked(list, s) && elem in s
    modifies (set t | t in s)`prev, (set t | t in s)`next
    ensures Linked(list', Without(s, elem))
    ensures elem.prev == null && elem.next == null && elem !in Without(s, elem)
  {
    ghost var k: nat :| k < |s| && s[k] == elem;
    assert elem.next == if k == |s| - 1 then null else s[k + 1];
    assert elem.prev == if k == 0 then null else s[k - 1];
    list' := list;
    if elem.next != null {
      elem.next.prev := elem.prev;
    }
    if elem.prev != null {
      elem.prev.next := elem.next;
    }
    if list == elem {
      list' := elem.next;
    }
    elem.prev := null;
    elem.next := null;
    assert Bypassed(s, k) by {
      forall i | 0 <= i < |s| && i != k
        ensures s[i].prev == if i == 0 then null
                else if i == k + 1 then (if k == 0 then null else s[k - 1]) else s[i - 1]
        ensures s[i].next == if i == |s| - 1 then null
                else if i + 1 == k then (if k == |s| - 1 then null else s[k + 1]) else s[i + 1]
      {
        assert s[i] != s[k];
        assert k + 1 < |s| && i != k + 1 ==> s[i] != s[k + 1];
        assert 0 < k && i != k - 1 ==> s[i] != s[k - 1];
      }
    }
    BypassedIsLinked(s, k, list');
    assert Without(s, elem) == s[..k] + s[k + 1..] && elem !in Without(s, elem) by { WithoutAt(s, k); }
  }

  ghost function Ids(s: seq<Thread>): (r: seq<nat>) {
    seq(|s|, i requires 0 <= i < |s| => s[i].id)
  }

  /** Threads are numbered by their place in `all`. */
  ghost predicate Numbered(all: seq<Thread>) {
    forall i {:trigger all[i]} :: 0 <= i < |all| ==> all[i].id == i
  }

  ghost predicate Within(s: seq<Thread>, all: seq<Thread>) {
    forall i :: 0 <= i < |s| ==> s[i] in all
  }

  lemma {:induction false} IdsWithout(s: seq<Thread>, t: Thread, all: seq<Thread>)
    requires Numbered(all) && Within(s, all) && t in all
    ensures Ids(Without(s, t)) == Without(Ids(s), t.id)
  {
    if s != [] {
      assert Ids(s)[1..] == Ids(s[1..]);
      assert s[0].id == t.id <==> s[0] == t by { assert s[0] in all; }
      if s[0] != t {
        IdsWithout(s[1..], t, all);
        assert Ids([s[0]] + Without(s[1..], t)) == [s[0].id] + Ids(Without(s[1..], t));
      }
    }
  }

  lemma {:induction false} IdsPush(t: Thread, s: seq<Thread>)
    ensures Ids([t] + s) == [t.id] + Ids(s)
  {
  }

  lemma {:induction false} WithoutWithin(s: seq<Thread>, t: Thread, all: seq<Thread>)
    requires Within(s, all)
    ensures Within(Without(s, t), all)
  {
    if s != [] && s[0] != t { WithoutWithin(s[1..], t, all); }
  }

  lemma {:induction false} PublishKeepsSlots(s: W.State, t: nat)
    requires W.Enabled(s, W.Publish(t))
    ensures var s' := W.Apply(s, W.Publish(t));
      |s'.workers| == |s.workers| && forall i :: 0 <= i < |s.workers| ==> s'.workers[i].slot == s.workers[i].slot
  {
  }

  /** One more thread, numbered and pushed. */
  method PushNew(list: Thread?, i: nat, ghost all: seq<Thread>, ghost pushed: seq<Thread>)
    returns (t: Thread, list': Thread?)
    requires Linked(list, pushed) && Numbered(all) && |all| == i && Within(pushed, all)
    modifies (set u | u in pushed)`prev
    ensures fresh(t) && t.query == None && Linked(list', [t] + pushed)
    ensures Numbered(all + [t]) && Within([t] + pushed, all + [t]) && Ids([t] + pushed) == [i] + Ids(pushed)
  {
    t := new Thread(i);
    list' := ListAdd(list, t, pushed);
  }

  class Pool {
    var freeList: Thread?
    var busyList: Thread?
    var wait: seq<W.Query>
    var reply: seq<W.Query>
    var shutdown: bool
    ghost var free: seq<Thread>
    ghost var busy: seq<Thread>
    ghost const threads: seq<Thread>

    ghost predicate Valid()
      reads this, threads
    {
      && Numbered(threads) && Within(free, threads) && Within(busy, threads)
      && (forall t :: t in free ==> t !in busy)
      && Linked(freeList, free) && Linked(busyList, busy)
    }

    /** The pointers hold what the protocol state says. */
    ghost predicate Represents(s: W.State)
      reads this, threads
    {
      && Valid()
      && Ids(free) == s.free && Ids(busy) == s.busy
      && wait == s.wait && reply == s.reply && shutdown == s.shutdown
      && |threads| == |s.workers|
      && forall i {:trigger threads[i]} :: 0 <= i < |threads| ==> threads[i].query == s.workers[i].slot
    }

    /** Initialisation: allocate the threads one by one, pushing each on the free list. */
    constructor (n: nat)
      ensures Represents(W.Init(n))
    {
      var list: Thread? := null;
      ghost var all: seq<Thread>, pushed: seq<Thread> := [], [];
      for i := 0 to n
        invariant |all| == i && Numbered(all) && Within(pushed, all)
        invariant fresh(set t | t in all)
        invariant Linked(list, pushed) && Ids(pushed) == W.Countdown(i)
        invariant forall k {:trigger all[k]} :: 0 <= k < i ==> all[k].query == None
      {
        var t;
        t, list := PushNew(list, i, all, pushed);
        all, pushed := all + [t], [t] + pushed;
      }
      freeList, busyList, wait, reply, shutdown := list, null, [], [], false;
      free, busy, threads := pushed, [], all;
    }

    /** Free to busy: LIST_DEL of the free list's head, LIST_ADD to the busy list. */
    method MoveToBusy() returns (t: Thread)
      requires Valid() && freeList != null
      modifies this`freeList, this`busyList, this`free, this`busy, (set u | u in threads)`prev,
              (set u | u in threads)`next
      ensures Valid() && t == old(free)[0] && free == old(free)[1..] && busy == [t] + old(busy)
    {
      t := freeList;
      freeList := ListDel(freeList, t, free);
      free := free[1..];
      busyList := ListAdd(busyList, t, busy);
      busy := [t] + busy;
    }

    /** Busy to free: LIST_DEL from anywhere in the busy list, LIST_ADD to the free list. */
    method MoveToFree(t: Thread)
      requires Valid() && t in busy
      modifies this`freeList, this`busyList, this`free, this`busy, (set u | u in threads)`prev,
              (set u | u in threads)`next
      ensures Valid() && free == [t] + old(free) && busy == Without(old(busy), t)
    {
      busyList := ListDel(busyList, t, busy);
      WithoutWithin(busy, t, threads);
      forall u | u in free ensures u !in Without(busy, t) { WithoutMember(busy, t, u); }
      busy := Without(busy, t);
      freeList := ListAdd(freeList, t, free);
      free := [t] + free;
    }

    /** The dispatcher's locked section when it looks for a thread. */
    method PickThread(ghost s: W.State) returns (t: Thread?)
      requires Represents(s) && s.disp.Assign?
      modifies this`freeList, this`busyList, this`free, this`busy, (set u | u in threads)`prev,
              (set u | u in threads)`next
      ensures Represents(W.Apply(s, W.PickThread))
      ensures t == null <==> s.free == []
      ensures t != null ==> t in threads && t.id == s.free[0]
    {
      t := null;
      if freeList != null {
        t := MoveToBusy();
      }
    }

    /** Handing the query over, under the thread's own mutex. */
    method HandOver(ghost s: W.State, t: Thread, q: W.Query)
      requires Represents(s) && t in threads && s.disp == W.Handover(q, t.id)
      modifies t`query
      ensures Represents(W.Apply(s, W.HandOver))
    {
      t.query := Some(q);
    }

    /** A worker looks into its slot, under its own mutex, and takes the query if there is one. */
    method TakeQuery(ghost s: W.State, t: Thread) returns (q: Option<W.Query>)
      requires Represents(s) && t in threads && W.Enabled(s, W.TakeQuery(t.id))
      modifies t`query
      ensures Represents(W.Apply(s, W.TakeQuery(t.id)))
      ensures q == s.workers[t.id].slot
      ensures q.Some? ==> W.Apply(s, W.TakeQuery(t.id)).workers[t.id].phase == W.Handling(q.value)
    {
      q := t.query;
      if q.Some? {
        t.query := None;
      }
    }

    /** The worker's locked section after handling a query. */
    method PublishRegion(t: Thread, q: W.Query)
      requires Valid() && t in threads && (!shutdown ==> t in busy)
      modifies this`freeList, this`busyList, this`free, this`busy, this`reply, (set u | u in threads)`prev,
              (set u | u in threads)`next
      ensures Valid() && reply == [q] + old(reply)
      ensures Ids(free) == if shutdown then old(Ids(free)) else [t.id] + old(Ids(free))
      ensures Ids(busy) == if shutdown then old(Ids(busy)) else Without(old(Ids(busy)), t.id)
    {
      reply := [q] + reply;
      if !shutdown {
        IdsWithout(busy, t, threads);
        IdsPush(t, free);
        MoveToFree(t);
      }
    }

    method PublishStep(ghost s: W.State, t: Thread, q: W.Query)
      requires Represents(s) && t in threads && (!s.shutdown ==> t in busy)
      requires W.Enabled(s, W.Publish(t.id)) && s.workers[t.id].phase == W.Handling(q)
      modifies this`freeList, this`busyList, this`free, this`busy, this`reply, (set u | u in threads)`prev,
              (set u | u in threads)`next
      ensures Represents(W.Apply(s, W.Publish(t.id)))
    {
      ghost var s' := W.Apply(s, W.Publish(t.id));
      PublishKeepsSlots(s, t.id);
      PublishRegion(t, q);
      StillRepresents(s, s');
    }

    /** It puts the query on the reply list and, unless shutting down, the worker on the free list. */
    method Publish(ghost s: W.State, t: Thread, q: W.Query)
      requires Represents(s) && t in threads && W.Inv(s)
      requires W.Enabled(s, W.Publish(t.id)) && s.workers[t.id].phase == W.Handling(q)
      modifies this`freeList, this`busyList, this`free, this`busy, this`reply, (set u | u in threads)`prev,
              (set u | u in threads)`next
      ensures Represents(W.Apply(s, W.Publish(t.id)))
    {
      if !shutdown { BusyThread(s, t); }
      PublishStep(s, t, q);
    }

    lemma {:induction false} StillRepresents(s: W.State, s': W.State)
      requires Valid() && Ids(free) == s'.free && Ids(busy) == s'.busy
      requires wait == s'.wait && reply == s'.reply && shutdown == s'.shutdown
      requires |threads| == |s.workers| == |s'.workers|
      requires forall i {:trigger threads[i]} :: 0 <= i < |threads| ==> threads[i].query == s.workers[i].slot
      requires forall i :: 0 <= i < |s.workers| ==> s'.workers[i].slot == s.workers[i].slot
      ensures Represents(s')
    {
    }

    /** A worker that handles a query while the pool runs is on the busy list. */
    lemma {:induction false} BusyThread(s: W.State, t: Thread)
      requires W.Inv(s) && !s.shutdown && Numbered(threads) && Within(busy, threads) && Ids(busy) == s.busy
      requires t in threads && t.id < |s.workers| && s.workers[t.id].phase.Handling?
      ensures t in busy
    {
      assert W.WorkerOk(s, t.id);
      W.OneHome(s, t.id);
      var k :| 0 <= k < |s.busy| && s.busy[k] == t.id;
      assert busy[k].id == t.id;
    }

    /** Shutdown takes threads off the lists one by one, the free ones first. */
    method PickToJoin(ghost s: W.State) returns (t: Thread?)
      requires Represents(s) && s.disp.Draining?
      modifies this`freeList, this`busyList, this`free, this`busy, (set u | u in threads)`prev,
              (set u | u in threads)`next
      ensures t == null <==> s.free == [] && s.busy == []
      ensures t != null ==> Represents(W.Apply(s, W.PickToJoin)) && W.Apply(s, W.PickToJoin).disp == W.WakeToExit(t.id)
      ensures t == null ==> Represents(s)
    {
      t := freeList;
      if freeList != null {
        DropFree();
      } else if busyList != null {
        t := busyList;
        DropBusy();
      }
    }

    method DropFree()
      requires Valid() && freeList != null
      modifies this`freeList, this`free, (set u | u in threads)`prev, (set u | u in threads)`next
      ensures Valid() && free == old(free)[1..]
    {
      freeList := ListDel(freeList, freeList, free);
      free := free[1..];
    }

    method DropBusy()
      requires Valid() && busyList != null
      modifies this`busyList, this`busy, (set u | u in threads)`prev, (set u | u in threads)`next
      ensures Valid() && busy == old(busy)[1..]
    {
      busyList := ListDel(busyList, busyList, busy);
      busy := busy[1..];
    }
  }
}
