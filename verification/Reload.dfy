/**
 The daemon's listeners across configuration reloads (init_sockets in src/gp_init.c):
 which are kept, handed from the old configuration's services to the new one's, closed
 or opened.  A listener carries a name that belongs to a configuration and goes away
 with it, so a name is modelled with the generation of the configuration it is part of.
 */
module Reload {
  import opened SeqLib

  datatype Service = Service(name: string, socket: Option<string>, ev: Option<nat>)

  datatype Config = Config(socketName: string, svcs: seq<Service>)

  datatype NameRef = NameRef(gen: nat, text: Option<string>)

  /** Live listeners by event number, the next number, the main listener, and the current configuration. */
  datatype State = State(live: map<nat, NameRef>, next: nat, main: nat, cfg: Config, gen: nat)

  /** The part that the loops of init_sockets update. */
  datatype Work = Work(live: map<nat, NameRef>, next: nat, svcs: seq<Service>)

  // ----- what init_sockets does -----

  /** find_service_by_name: the first service of that name. */
  function FindFrom(svcs: seq<Service>, name: string, i: nat): (k: Option<nat>)
    requires i <= |svcs|
    ensures k.Some? ==> i <= k.value < |svcs| && svcs[k.value].name == name
    ensures k.Some? ==> forall j :: i <= j < k.value ==> svcs[j].name != name
    ensures k.None? ==> forall j :: i <= j < |svcs| ==> svcs[j].name != name
    decreases |svcs| - i
  {
    if i == |svcs| then None else if svcs[i].name == name then Some(i) else FindFrom(svcs, name, i + 1)
  }

  /** The new service that takes over the listener of an old one, if any. */
  function Heir(svcs: seq<Service>, o: Service): (k: Option<nat>)
    ensures k.Some? ==> k.value < |svcs| && svcs[k.value].name == o.name && svcs[k.value].socket == o.socket
  {
    var k := FindFrom(svcs, o.name, 0);
    if k.Some? && svcs[k.value].socket == o.socket then k else None
  }

  function HandOver(w: Work, o: Service, gen: nat): (w': Work)
    ensures |w'.svcs| == |w.svcs| && w'.next == w.next
  {
    if o.ev.None? then w
    else
      match Heir(w.svcs, o)
      case Some(k) => Work(w.live[o.ev.value := NameRef(gen, o.socket)], w.next, w.svcs[k := w.svcs[k].(ev := o.ev)])
      case None => w.(live := w.live - {o.ev.value})
  }

  function HandOverFrom(w: Work, olds: seq<Service>, i: nat, gen: nat): (w': Work)
    requires i <= |olds|
    ensures |w'.svcs| == |w.svcs| && w'.next == w.next
    decreases |olds| - i
  {
    if i == |olds| then w else HandOverFrom(HandOver(w, olds[i], gen), olds, i + 1, gen)
  }

  function SetUp(w: Work, k: nat, gen: nat): (w': Work)
    requires k < |w.svcs|
    ensures |w'.svcs| == |w.svcs| && w.next <= w'.next
  {
    if w.svcs[k].socket.None? || w.svcs[k].ev.Some? then w
    else Work(w.live[w.next := NameRef(gen, w.svcs[k].socket)], w.next + 1, w.svcs[k := w.svcs[k].(ev := Some(w.next))])
  }

  function SetUpFrom(w: Work, k: nat, gen: nat): (w': Work)
    requires k <= |w.svcs|
    ensures |w'.svcs| == |w.svcs| && w.next <= w'.next
    decreases |w.svcs| - k
  {
    if k == |w.svcs| then w else SetUpFrom(SetUp(w, k, gen), k + 1, gen)
  }

  /** A configuration as just read: no service has a listener yet. */
  predicate JustRead(cfg: Config) { forall k :: 0 <= k < |cfg.svcs| ==> cfg.svcs[k].ev.None? }

  /** The main listener first: renamed in place if its socket stays, replaced if not. */
  function Main(s: State, incoming: Config): State {
    if s.cfg.socketName != incoming.socketName then
      s.(live := s.live[s.next := NameRef(s.gen + 1, Some(incoming.socketName))] - {s.main},
         main := s.next, next := s.next + 1)
    else s.(live := s.live[s.main := NameRef(s.gen + 1, Some(incoming.socketName))])
  }

  /** Then the hand-over from the old services to the new ones. */
  function Handed(s: State, incoming: Config): Work {
    var m := Main(s, incoming);
    HandOverFrom(Work(m.live, m.next, incoming.svcs), s.cfg.svcs, 0, s.gen + 1)
  }

  function Reloaded(s: State, incoming: Config): State {
    var w := SetUpFrom(Handed(s, incoming), 0, s.gen + 1);
    State(w.live, w.next, Main(s, incoming).main, Config(incoming.socketName, w.svcs), s.gen + 1)
  }

  function Started(cfg: Config): State {
    var w := SetUpFrom(Work(map[0 := NameRef(0, Some(cfg.socketName))], 1, cfg.svcs), 0, 0);
    State(w.live, w.next, 0, Config(cfg.socketName, w.svcs), 0)
  }

  // ----- the code -----

  /** Every socket set up under the numbers from `lo` to `hi` can be. */
  predicate AllWork(works: nat -> bool, lo: nat, hi: nat) { forall x :: lo <= x < hi ==> works(x) }

  class Daemon {
    var live: map<nat, NameRef>
    var next: nat
    var main: nat
    var cfg: Config
    var gen: nat

    ghost function View(): State reads this { State(live, next, main, cfg, gen) }

    method Find(svcs: seq<Service>, name: string) returns (k: Option<nat>)
      ensures k == FindFrom(svcs, name, 0)
    {
      var i := 0;
      while i < |svcs|
        invariant i <= |svcs| && FindFrom(svcs, name, 0) == FindFrom(svcs, name, i)
      {
        if svcs[i].name == name {
          return Some(i);
        }
        i := i + 1;
      }
      return None;
    }

    /** setup_socket, which succeeds for the event numbers that `works` allows. */
    method SetUpSocket(name: NameRef, works: nat -> bool) returns (ev: Option<nat>)
      modifies this`live, this`next
      ensures ev == if works(old(next)) then Some(old(next)) else None
      ensures ev.Some? ==> live == old(live)[old(next) := name] && next == old(next) + 1
    {
      if !works(next) {
        return None;
      }
      live := live[next := name];
      next := next + 1;
      return Some(next - 1);
    }

    /** The last loop of init_sockets. */
    method SetUpServices(svcs: seq<Service>, gen': nat, works: nat -> bool) returns (ok: bool, svcs': seq<Service>)
      modifies this`live, this`next
      ensures ok ==> Work(live, next, svcs') == SetUpFrom(Work(old(live), old(next), svcs), 0, gen')
      ensures ok <==> AllWork(works, old(next), SetUpFrom(Work(old(live), old(next), svcs), 0, gen').next)
    {
      svcs' := svcs;
      ghost var w := Work(live, next, svcs);
      for i := 0 to |svcs|
        invariant |svcs'| == |svcs|
        invariant SetUpFrom(Work(live, next, svcs'), i, gen') == SetUpFrom(w, 0, gen')
        invariant old(next) <= next && AllWork(works, old(next), next)
      {
        if svcs'[i].socket.Some? && svcs'[i].ev.None? {
          var ev := SetUpSocket(NameRef(gen', svcs'[i].socket), works);
          if ev.None? {
            return false, svcs';
          }
          svcs' := svcs'[i := svcs'[i].(ev := ev)];
        }
      }
      ok := true;
    }

    /** init_sockets at start-up: there is no old configuration. */
    method Start(incoming: Config, works: nat -> bool) returns (ret: int)
      requires JustRead(incoming) && live == map[] && next == 0
      modifies this
      ensures ret == 0 ==> View() == Started(incoming)
      ensures ret == 0 <==> AllWork(works, 0, Started(incoming).next)
    {
      var ev := SetUpSocket(NameRef(0, Some(incoming.socketName)), works);
      if ev.None? {
        return 1;
      }
      main, gen := ev.value, 0;
      var ok, svcs := SetUpServices(incoming.svcs, 0, works);
      if !ok {
        return 1;
      }
      cfg := Config(incoming.socketName, svcs);
      return 0;
    }

    /** init_sockets on a reload: returns 0 when every socket that had to be set up could be. */
    method InitSockets(incoming: Config, works: nat -> bool) returns (ret: int)
      requires JustRead(incoming)
      modifies this
      ensures ret == 0 ==> View() == Reloaded(old(View()), incoming)
      ensures ret == 0 <==> AllWork(works, old(next), Reloaded(old(View()), incoming).next)
    {
      ghost var s := View();
      var olds, gen' := cfg.svcs, gen + 1;
      if cfg.socketName != incoming.socketName {
        var ev := SetUpSocket(NameRef(gen', Some(incoming.socketName)), works);
        if ev.None? {
          return 1;
        }
        live := live - {main};
        main := ev.value;
      } else {
        live := live[main := NameRef(gen', Some(incoming.socketName))];
      }
      ghost var m := Main(s, incoming);
      var svcs := incoming.svcs;
      for i := 0 to |olds|
        invariant HandOverFrom(Work(live, next, svcs), olds, i, gen') ==
                  HandOverFrom(Work(m.live, m.next, incoming.svcs), olds, 0, gen')
        invariant main == m.main && next == m.next
      {
        if olds[i].ev.Some? {
          var k := Find(svcs, olds[i].name);
          if k.Some? && svcs[k.value].socket == olds[i].socket {
            svcs := svcs[k.value := svcs[k.value].(ev := olds[i].ev)];
            live := live[olds[i].ev.value := NameRef(gen', olds[i].socket)];
          } else {
            live := live - {olds[i].ev.value};
          }
        }
      }
      var ok: bool;
      ok, svcs := SetUpServices(svcs, gen', works);
      if !ok {
        return 1;
      }
      cfg, gen := Config(incoming.socketName, svcs), gen';
      return 0;
    }
  }

  // ----- conservation -----

  /** The same services, whatever their listeners. */
  predicate SameServices(a: seq<Service>, b: seq<Service>) {
    |a| == |b| && forall k :: 0 <= k < |a| ==> a[k].name == b[k].name && a[k].socket == b[k].socket
  }

  predicate Owned(svcs: seq<Service>, x: nat) { exists k :: 0 <= k < |svcs| && svcs[k].ev == Some(x) }

  /** No listener belongs to two services. */
  predicate Apart(svcs: seq<Service>) {
    forall j, k :: 0 <= j < k < |svcs| && svcs[j].ev.Some? ==> svcs[j].ev != svcs[k].ev
  }

  /**
   Every service's listener is live, is not the main one, and carries the service's socket name of this
   generation.
   */
  predicate Held(w: Work, main: nat, gen: nat) {
    forall k :: 0 <= k < |w.svcs| && w.svcs[k].ev.Some? ==>
      && w.svcs[k].socket.Some? && w.svcs[k].ev.value != main && w.svcs[k].ev.value in w.live
      && w.live[w.svcs[k].ev.value] == NameRef(gen, w.svcs[k].socket)
  }

  predicate MainHeld(w: Work, main: nat, name: NameRef) { main in w.live && w.live[main] == name }

  /** The live listeners are exactly the main one and one for each service with a socket, each with its current name. */
  predicate Conserved(s: State) {
    var w := Work(s.live, s.next, s.cfg.svcs);
    && MainHeld(w, s.main, NameRef(s.gen, Some(s.cfg.socketName)))
    && Held(w, s.main, s.gen) && Apart(s.cfg.svcs)
    && (forall k :: 0 <= k < |s.cfg.svcs| && s.cfg.svcs[k].socket.Some? ==> s.cfg.svcs[k].ev.Some?)
    && (forall x :: x in s.live ==> x < s.next && (x == s.main || Owned(s.cfg.svcs, x)))
  }

  /** Two old services would both hand their listener to the same new one. */
  predicate Collide(svcs: seq<Service>, a: Service, b: Service) {
    a.socket.Some? && b.socket.Some? && Heir(svcs, a).Some? && Heir(svcs, a) == Heir(svcs, b)
  }

  predicate NoCollision(svcs: seq<Service>, olds: seq<Service>) {
    forall i, j :: 0 <= i < j < |olds| ==> !Collide(svcs, olds[i], olds[j])
  }

  predicate UniqueNames(svcs: seq<Service>) { forall i, j :: 0 <= i < j < |svcs| ==> svcs[i].name != svcs[j].name }

  lemma {:induction false} UniqueNamesNoCollision(svcs: seq<Service>, olds: seq<Service>)
    requires UniqueNames(olds)
    ensures NoCollision(svcs, olds)
  {
  }

  /** Who inherits depends on names and sockets only. */
  lemma {:induction false} HeirStable(a: seq<Service>, b: seq<Service>, o: Service)
    requires SameServices(a, b)
    ensures Heir(a, o) == Heir(b, o)
  {
  }

  /** Between two steps of the hand-over: the listeners of the old services from `i` on are still to be decided. */
  predicate Midway(w: Work, main: nat, name: NameRef, olds: seq<Service>, i: nat, gen: nat)
    requires i <= |olds|
  {
    && MainHeld(w, main, name) && Held(w, main, gen) && Apart(w.svcs)
    && (forall x :: x in w.live ==> x < w.next && (x == main || Owned(w.svcs, x) || Owned(olds[i..], x)))
    && (forall j :: i <= j < |olds| && olds[j].ev.Some? ==> Undecided(w, main, olds[j]))
  }

  /** An old service whose listener is live and not yet anyone's, and whose heir has none yet. */
  predicate Undecided(w: Work, main: nat, o: Service) {
    && o.ev.Some? && o.socket.Some? && o.ev.value in w.live && o.ev.value != main && !Owned(w.svcs, o.ev.value)
    && (Heir(w.svcs, o).Some? ==> w.svcs[Heir(w.svcs, o).value].ev.None?)
  }

  lemma {:induction false} HandOverSame(w: Work, o: Service, gen: nat)
    ensures SameServices(HandOver(w, o, gen).svcs, w.svcs)
  {
  }

  lemma {:induction false} OwnedTail(olds: seq<Service>, i: nat, x: nat)
    requires i < |olds| && Owned(olds[i..], x)
    ensures olds[i].ev == Some(x) || Owned(olds[i + 1..], x)
  {
  }

  lemma {:induction false} OwnedUpdate(svcs: seq<Service>, k: nat, ev: nat, x: nat)
    requires k < |svcs| && svcs[k].ev.None?
    ensures Owned(svcs[k := svcs[k].(ev := Some(ev))], x) <==> x == ev || Owned(svcs, x)
  {
    var svcs' := svcs[k := svcs[k].(ev := Some(ev))];
    assert svcs'[k].ev == Some(ev);
    if Owned(svcs, x) {
      var j :| 0 <= j < |svcs| && svcs[j].ev == Some(x);
      assert svcs'[j].ev == Some(x);
    }
  }

  /** The listener of old service `i` passes to its heir. */
  lemma {:induction false} InheritedMidway(w: Work, main: nat, name: NameRef, olds: seq<Service>, i: nat, gen: nat)
    requires i < |olds| && Midway(w, main, name, olds, i, gen) && Apart(olds) && NoCollision(w.svcs, olds)
    requires olds[i].ev.Some? && Heir(w.svcs, olds[i]).Some?
    ensures Midway(HandOver(w, olds[i], gen), main, name, olds, i + 1, gen)
  {
    var o, w' := olds[i], HandOver(w, olds[i], gen);
    var k, ev := Heir(w.svcs, o).value, o.ev.value;
    assert Undecided(w, main, o);
    forall x | x in w'.live ensures x < w'.next && (x == main || Owned(w'.svcs, x) || Owned(olds[i + 1..], x)) {
      OwnedUpdate(w.svcs, k, ev, x);
      if Owned(olds[i..], x) { OwnedTail(olds, i, x); }
    }
    forall j | i + 1 <= j < |olds| && olds[j].ev.Some? ensures Undecided(w', main, olds[j]) {
      assert Undecided(w, main, olds[j]);
      OwnedUpdate(w.svcs, k, ev, olds[j].ev.value);
      HandOverSame(w, o, gen);
      HeirStable(w'.svcs, w.svcs, olds[j]);
      assert !Collide(w.svcs, o, olds[j]);
    }
  }

  /** The listener of old service `i` is closed. */
  lemma {:induction false} ClosedMidway(w: Work, main: nat, name: NameRef, olds: seq<Service>, i: nat, gen: nat)
    requires i < |olds| && Midway(w, main, name, olds, i, gen) && Apart(olds)
    requires olds[i].ev.None? || Heir(w.svcs, olds[i]).None?
    ensures Midway(HandOver(w, olds[i], gen), main, name, olds, i + 1, gen)
  {
    var w' := HandOver(w, olds[i], gen);
    if olds[i].ev.Some? { assert Undecided(w, main, olds[i]); }
    forall x | x in w'.live ensures x < w'.next && (x == main || Owned(w'.svcs, x) || Owned(olds[i + 1..], x)) {
      if Owned(olds[i..], x) { OwnedTail(olds, i, x); }
    }
    forall j | i + 1 <= j < |olds| && olds[j].ev.Some? ensures Undecided(w', main, olds[j]) {
      assert Undecided(w, main, olds[j]);
    }
  }

  lemma {:induction false} NoCollisionStable(a: seq<Service>, b: seq<Service>, olds: seq<Service>)
    requires SameServices(a, b) && NoCollision(b, olds)
    ensures NoCollision(a, olds)
  {
  }

  lemma {:induction false} HandOverConserves(w: Work, main: nat, name: NameRef, olds: seq<Service>, i: nat, gen: nat)
    requires i <= |olds| && Midway(w, main, name, olds, i, gen) && Apart(olds) && NoCollision(w.svcs, olds)
    ensures Midway(HandOverFrom(w, olds, i, gen), main, name, olds, |olds|, gen)
    ensures SameServices(HandOverFrom(w, olds, i, gen).svcs, w.svcs)
    decreases |olds| - i
  {
    if i < |olds| {
      var w' := HandOver(w, olds[i], gen);
      if olds[i].ev.Some? && Heir(w.svcs, olds[i]).Some? {
        InheritedMidway(w, main, name, olds, i, gen);
      } else {
        ClosedMidway(w, main, name, olds, i, gen);
      }
      HandOverSame(w, olds[i], gen);
      NoCollisionStable(w'.svcs, w.svcs, olds);
      HandOverConserves(w', main, name, olds, i + 1, gen);
    }
  }

  /** While sockets are set up: nothing is unaccounted for, and the services before `k` have what they need. */
  predicate Settling(w: Work, main: nat, name: NameRef, k: nat, gen: nat) {
    && MainHeld(w, main, name) && Held(w, main, gen) && Apart(w.svcs)
    && (forall x :: x in w.live ==> x < w.next && (x == main || Owned(w.svcs, x)))
    && (forall j :: 0 <= j < k && j < |w.svcs| && w.svcs[j].socket.Some? ==> w.svcs[j].ev.Some?)
  }

  lemma {:induction false} SetUpSettles(w: Work, main: nat, name: NameRef, k: nat, gen: nat)
    requires k < |w.svcs| && Settling(w, main, name, k, gen)
    ensures Settling(SetUp(w, k, gen), main, name, k + 1, gen)
  {
    if w.svcs[k].socket.Some? && w.svcs[k].ev.None? {
      var w' := SetUp(w, k, gen);
      assert w.next !in w.live;
      forall x | x in w'.live ensures x < w'.next && (x == main || Owned(w'.svcs, x)) {
        OwnedUpdate(w.svcs, k, w.next, x);
      }
    }
  }

  lemma {:induction false} SetUpSame(w: Work, k: nat, gen: nat)
    requires k < |w.svcs|
    ensures SameServices(SetUp(w, k, gen).svcs, w.svcs)
  {
  }

  lemma {:induction false} SameServicesTrans(a: seq<Service>, b: seq<Service>, c: seq<Service>)
    requires SameServices(a, b) && SameServices(b, c)
    ensures SameServices(a, c)
  {
  }

  lemma {:induction false} SetUpFromSame(w: Work, k: nat, gen: nat)
    requires k <= |w.svcs|
    ensures SameServices(SetUpFrom(w, k, gen).svcs, w.svcs)
    decreases |w.svcs| - k
  {
    if k < |w.svcs| {
      var w' := SetUp(w, k, gen);
      SetUpSame(w, k, gen);
      SetUpFromSame(w', k + 1, gen);
      SameServicesTrans(SetUpFrom(w', k + 1, gen).svcs, w'.svcs, w.svcs);
    }
  }

  lemma {:induction false} SetUpConserves(w: Work, main: nat, name: NameRef, k: nat, gen: nat)
    requires k <= |w.svcs| && Settling(w, main, name, k, gen)
    ensures Settling(SetUpFrom(w, k, gen), main, name, |w.svcs|, gen)
    decreases |w.svcs| - k
  {
    if k < |w.svcs| {
      var w' := SetUp(w, k, gen);
      SetUpSettles(w, main, name, k, gen);
      SetUpConserves(w', main, name, k + 1, gen);
    }
  }

  predicate MainSettled(s: State, incoming: Config) {
    var m := Main(s, incoming);
    var name := NameRef(s.gen + 1, Some(incoming.socketName));
    Midway(Work(m.live, m.next, incoming.svcs), m.main, name, s.cfg.svcs, 0, s.gen + 1)
  }

  /** After the main listener is settled, every old service still has its own. */
  lemma {:induction false} MainMidway(s: State, incoming: Config)
    requires Conserved(s) && JustRead(incoming)
    ensures Apart(s.cfg.svcs) && MainSettled(s, incoming)
  {
    var m, olds := Main(s, incoming), s.cfg.svcs;
    var w := Work(m.live, m.next, incoming.svcs);
    assert olds[0..] == olds;
    assert s.next !in s.live;
    forall j | 0 <= j < |olds| && olds[j].ev.Some? ensures Undecided(w, m.main, olds[j]) {
    }
  }

  /** With every old listener decided, only the setting up is left. */
  lemma {:induction false} HandedOverSettles(w: Work, main: nat, name: NameRef, olds: seq<Service>, gen: nat)
    requires Midway(w, main, name, olds, |olds|, gen)
    ensures Settling(w, main, name, 0, gen)
  {
    assert olds[|olds|..] == [];
  }

  lemma {:induction false} SettledConserved(s: State, name: NameRef)
    requires Settling(Work(s.live, s.next, s.cfg.svcs), s.main, name, |s.cfg.svcs|, s.gen)
    requires name == NameRef(s.gen, Some(s.cfg.socketName))
    ensures Conserved(s)
  {
  }

  predicate HandedOver(s: State, incoming: Config) {
    var name := NameRef(s.gen + 1, Some(incoming.socketName));
    Settling(Handed(s, incoming), Main(s, incoming).main, name, 0, s.gen + 1)
  }

  /** Without collisions the hand-over leaves nothing but sockets to set up. */
  lemma {:induction false} HandedSettling(s: State, incoming: Config)
    requires MainSettled(s, incoming) && Apart(s.cfg.svcs) && NoCollision(incoming.svcs, s.cfg.svcs)
    ensures HandedOver(s, incoming) && SameServices(Handed(s, incoming).svcs, incoming.svcs)
  {
    var m, gen := Main(s, incoming), s.gen + 1;
    var name := NameRef(gen, Some(incoming.socketName));
    HandOverConserves(Work(m.live, m.next, incoming.svcs), m.main, name, s.cfg.svcs, 0, gen);
    HandedOverSettles(Handed(s, incoming), m.main, name, s.cfg.svcs, gen);
  }

  lemma {:induction false} ReloadedSettled(s: State, incoming: Config)
    requires HandedOver(s, incoming)
    ensures Conserved(Reloaded(s, incoming))
  {
    var name := NameRef(s.gen + 1, Some(incoming.socketName));
    SetUpConserves(Handed(s, incoming), Main(s, incoming).main, name, 0, s.gen + 1);
    SettledConserved(Reloaded(s, incoming), name);
  }

  /** With no collision, a reload conserves the listeners. */
  lemma {:induction false} ReloadConserves(s: State, incoming: Config)
    requires Conserved(s) && JustRead(incoming) && NoCollision(incoming.svcs, s.cfg.svcs)
    ensures Conserved(Reloaded(s, incoming)) && SameServices(Reloaded(s, incoming).cfg.svcs, incoming.svcs)
  {
    var w := Handed(s, incoming);
    MainMidway(s, incoming);
    HandedSettling(s, incoming);
    ReloadedSettled(s, incoming);
    SetUpFromSame(w, 0, s.gen + 1);
    SameServicesTrans(SetUpFrom(w, 0, s.gen + 1).svcs, w.svcs, incoming.svcs);
  }

  // ----- collisions leak -----

  /** A live listener that is not the main one and that no service has. */
  predicate Loose(w: Work, main: nat, x: nat) { x in w.live && x != main && x < w.next && !Owned(w.svcs, x) }

  /** Only service `k`, if any, has listener `x`. */
  predicate OnlyAt(w: Work, main: nat, x: nat, k: nat) {
    x in w.live && x != main && x < w.next && forall j :: 0 <= j < |w.svcs| && w.svcs[j].ev == Some(x) ==> j == k
  }

  lemma {:induction false} LooseStep(w: Work, main: nat, o: Service, gen: nat, x: nat)
    requires Loose(w, main, x) && o.ev != Some(x)
    ensures Loose(HandOver(w, o, gen), main, x)
  {
  }

  lemma {:induction false} LooseStays(w: Work, main: nat, olds: seq<Service>, i: nat, gen: nat, x: nat)
    requires i <= |olds| && Loose(w, main, x) && forall j :: i <= j < |olds| ==> olds[j].ev != Some(x)
    ensures Loose(HandOverFrom(w, olds, i, gen), main, x)
    decreases |olds| - i
  {
    if i < |olds| {
      LooseStep(w, main, olds[i], gen, x);
      LooseStays(HandOver(w, olds[i], gen), main, olds, i + 1, gen, x);
    }
  }

  lemma {:induction false} LooseThroughSetUp(w: Work, main: nat, k: nat, gen: nat, x: nat)
    requires k <= |w.svcs| && Loose(w, main, x)
    ensures Loose(SetUpFrom(w, k, gen), main, x)
    decreases |w.svcs| - k
  {
    if k < |w.svcs| {
      LooseThroughSetUp(SetUp(w, k, gen), main, k + 1, gen, x);
    }
  }

  /** The heir of a listener gets another one from old service `j`: the first is nobody's. */
  lemma {:induction false} TakenAway(w: Work, main: nat, olds: seq<Service>, i: nat, gen: nat, x: nat, k: nat, j: nat)
    requires i <= j < |olds| && OnlyAt(w, main, x, k) && olds[j].ev.Some? && Heir(w.svcs, olds[j]) == Some(k)
    requires forall l :: i <= l < |olds| ==> olds[l].ev != Some(x)
    ensures Loose(HandOverFrom(w, olds, i, gen), main, x)
    decreases |olds| - i
  {
    var w' := HandOver(w, olds[i], gen);
    assert OnlyAt(w', main, x, k);
    if i == j {
      LooseStays(w', main, olds, i + 1, gen, x);
    } else {
      HandOverSame(w, olds[i], gen);
      HeirStable(w'.svcs, w.svcs, olds[j]);
      TakenAway(w', main, olds, i + 1, gen, x, k, j);
    }
  }

  lemma {:induction false} CollisionLeaks(w: Work, main: nat, olds: seq<Service>, a: nat, gen: nat, i: nat, j: nat)
    requires a <= i < j < |olds| && Apart(olds) && olds[i].ev.Some? && olds[j].ev.Some?
    requires Loose(w, main, olds[i].ev.value) && Heir(w.svcs, olds[i]).Some?
            && Heir(w.svcs, olds[i]) == Heir(w.svcs, olds[j])
    ensures Loose(HandOverFrom(w, olds, a, gen), main, olds[i].ev.value)
    decreases i - a
  {
    var x, w' := olds[i].ev.value, HandOver(w, olds[a], gen);
    HandOverSame(w, olds[a], gen);
    HeirStable(w'.svcs, w.svcs, olds[i]);
    HeirStable(w'.svcs, w.svcs, olds[j]);
    if a < i {
      LooseStep(w, main, olds[a], gen, x);
      CollisionLeaks(w', main, olds, a + 1, gen, i, j);
    } else {
      var k := Heir(w.svcs, olds[i]).value;
      TakenAway(w', main, olds, i + 1, gen, x, k, j);
    }
  }

  /** Before the hand-over the listener of an old service is loose. */
  lemma {:induction false} LooseAfterMain(s: State, incoming: Config, i: nat)
    requires MainSettled(s, incoming) && i < |s.cfg.svcs| && s.cfg.svcs[i].ev.Some?
    ensures var m := Main(s, incoming);
            Loose(Work(m.live, m.next, incoming.svcs), m.main, s.cfg.svcs[i].ev.value)
  {
    var m := Main(s, incoming);
    assert Undecided(Work(m.live, m.next, incoming.svcs), m.main, s.cfg.svcs[i]);
  }

  /** A loose listener after the hand-over is still loose in the end. */
  lemma {:induction false} LooseBreaks(s: State, incoming: Config, x: nat)
    requires Loose(Handed(s, incoming), Main(s, incoming).main, x)
    ensures !Conserved(Reloaded(s, incoming))
  {
    LooseThroughSetUp(Handed(s, incoming), Main(s, incoming).main, 0, s.gen + 1, x);
  }

  lemma {:induction false} CollisionBreaks(s: State, incoming: Config, i: nat, j: nat)
    requires MainSettled(s, incoming) && Apart(s.cfg.svcs) && i < j < |s.cfg.svcs|
    requires s.cfg.svcs[i].ev.Some? && s.cfg.svcs[j].ev.Some? && Collide(incoming.svcs, s.cfg.svcs[i], s.cfg.svcs[j])
    ensures !Conserved(Reloaded(s, incoming))
  {
    var m, olds := Main(s, incoming), s.cfg.svcs;
    LooseAfterMain(s, incoming, i);
    CollisionLeaks(Work(m.live, m.next, incoming.svcs), m.main, olds, 0, s.gen + 1, i, j);
    LooseBreaks(s, incoming, olds[i].ev.value);
  }

  lemma {:induction false} Listening(s: State, k: nat)
    requires Conserved(s) && k < |s.cfg.svcs| && s.cfg.svcs[k].socket.Some?
    ensures s.cfg.svcs[k].ev.Some?
  {
  }

  /** A reload conserves the listeners if and only if no two old services would hand theirs to the same new one. */
  lemma {:induction false} ReloadExact(s: State, incoming: Config)
    requires Conserved(s) && JustRead(incoming)
    ensures Conserved(Reloaded(s, incoming)) <==> NoCollision(incoming.svcs, s.cfg.svcs)
  {
    if NoCollision(incoming.svcs, s.cfg.svcs) {
      ReloadConserves(s, incoming);
    } else {
      var i, j :| 0 <= i < j < |s.cfg.svcs| && Collide(incoming.svcs, s.cfg.svcs[i], s.cfg.svcs[j]);
      Listening(s, i);
      Listening(s, j);
      MainMidway(s, incoming);
      CollisionBreaks(s, incoming, i, j);
    }
  }

  // ----- which listeners stay -----

  /** A listener that is no longer there, under a number that is not given again. */
  predicate Gone(w: Work, x: nat) { x !in w.live && x < w.next }

  lemma {:induction false} GoneStays(w: Work, olds: seq<Service>, i: nat, gen: nat, x: nat)
    requires i <= |olds| && Gone(w, x) && forall j :: i <= j < |olds| ==> olds[j].ev != Some(x)
    ensures Gone(HandOverFrom(w, olds, i, gen), x)
    decreases |olds| - i
  {
    if i < |olds| {
      assert Gone(HandOver(w, olds[i], gen), x);
      GoneStays(HandOver(w, olds[i], gen), olds, i + 1, gen, x);
    }
  }

  lemma {:induction false} GoneThroughSetUp(w: Work, k: nat, gen: nat, x: nat)
    requires k <= |w.svcs| && Gone(w, x)
    ensures Gone(SetUpFrom(w, k, gen), x)
    decreases |w.svcs| - k
  {
    if k < |w.svcs| { GoneThroughSetUp(SetUp(w, k, gen), k + 1, gen, x); }
  }

  /** The main listener stays exactly when its socket's name does; if not, a new one takes its place. */
  lemma {:induction false} MainKept(s: State, incoming: Config)
    requires Conserved(s) && JustRead(incoming)
    ensures s.cfg.socketName == incoming.socketName ==> Reloaded(s, incoming).main == s.main
    ensures s.cfg.socketName != incoming.socketName ==>
              Reloaded(s, incoming).main == s.next && s.main !in Reloaded(s, incoming).live
  {
    if s.cfg.socketName != incoming.socketName {
      var m := Main(s, incoming);
      var w := Work(m.live, m.next, incoming.svcs);
      assert Gone(w, s.main);
      GoneStays(w, s.cfg.svcs, 0, s.gen + 1, s.main);
      GoneThroughSetUp(Handed(s, incoming), 0, s.gen + 1, s.main);
    }
  }

  /** Services with a listener have a socket. */
  predicate Sensible(olds: seq<Service>) { forall i :: 0 <= i < |olds| && olds[i].ev.Some? ==> olds[i].socket.Some? }

  /** A service keeps a listener that no later old service hands over another for. */
  lemma {:induction false} StaysWith(w: Work, olds: seq<Service>, a: nat, gen: nat, k: nat, ev: Option<nat>)
    requires a <= |olds| && k < |w.svcs| && w.svcs[k].ev == ev
    requires forall j :: a <= j < |olds| && olds[j].ev.Some? ==> Heir(w.svcs, olds[j]) != Some(k)
    ensures HandOverFrom(w, olds, a, gen).svcs[k].ev == ev
    decreases |olds| - a
  {
    if a < |olds| {
      var w' := HandOver(w, olds[a], gen);
      HandOverSame(w, olds[a], gen);
      forall j | a + 1 <= j < |olds| && olds[j].ev.Some? ensures Heir(w'.svcs, olds[j]) != Some(k) {
        HeirStable(w'.svcs, w.svcs, olds[j]);
      }
      StaysWith(w', olds, a + 1, gen, k, ev);
    }
  }

  /** An old service's listener reaches its heir. */
  lemma {:induction false} Inherits(w: Work, olds: seq<Service>, a: nat, gen: nat, i: nat, k: nat)
    requires a <= i < |olds| && olds[i].ev.Some? && Heir(w.svcs, olds[i]) == Some(k)
    requires Sensible(olds) && NoCollision(w.svcs, olds)
    ensures HandOverFrom(w, olds, a, gen).svcs[k].ev == olds[i].ev
    decreases i - a
  {
    var w' := HandOver(w, olds[a], gen);
    HandOverSame(w, olds[a], gen);
    HeirStable(w'.svcs, w.svcs, olds[i]);
    NoCollisionStable(w'.svcs, w.svcs, olds);
    if a < i {
      Inherits(w', olds, a + 1, gen, i, k);
    } else {
      forall j | i + 1 <= j < |olds| && olds[j].ev.Some? ensures Heir(w'.svcs, olds[j]) != Some(k) {
        assert !Collide(w'.svcs, olds[i], olds[j]);
      }
      StaysWith(w', olds, i + 1, gen, k, olds[i].ev);
    }
  }

  lemma {:induction false} KeptThroughSetUp(w: Work, j: nat, gen: nat, k: nat)
    requires j <= |w.svcs| && k < |w.svcs| && w.svcs[k].ev.Some?
    ensures SetUpFrom(w, j, gen).svcs[k].ev == w.svcs[k].ev
    decreases |w.svcs| - j
  {
    if j < |w.svcs| { KeptThroughSetUp(SetUp(w, j, gen), j + 1, gen, k); }
  }

  /** Listeners that are set up have new numbers. */
  lemma {:induction false} NewNumbers(w: Work, j: nat, gen: nat, k: nat)
    requires j <= |w.svcs| && k < |w.svcs| && w.svcs[k].ev.None?
    ensures SetUpFrom(w, j, gen).svcs[k].ev.Some? ==> SetUpFrom(w, j, gen).svcs[k].ev.value >= w.next
    decreases |w.svcs| - j
  {
    if j < |w.svcs| {
      var w' := SetUp(w, j, gen);
      if w'.svcs[k].ev.Some? { KeptThroughSetUp(w', j + 1, gen, k); } else { NewNumbers(w', j + 1, gen, k); }
    }
  }

  /** Old service i hands its listener x to new service k. */
  predicate HandsTo(svcs: seq<Service>, o: Service, x: nat, k: nat) { o.ev == Some(x) && Heir(svcs, o) == Some(k) }

  /** A service has one of the old listeners after the reload exactly when an old service handed it over. */
  lemma {:induction false} ListenerKept(s: State, incoming: Config, k: nat, x: nat)
    requires Conserved(s) && JustRead(incoming) && NoCollision(incoming.svcs, s.cfg.svcs)
    requires k < |incoming.svcs| && x < s.next
    ensures |Reloaded(s, incoming).cfg.svcs| == |incoming.svcs|
    ensures Reloaded(s, incoming).cfg.svcs[k].ev == Some(x) <==>
            exists o :: o in s.cfg.svcs && HandsTo(incoming.svcs, o, x, k)
  {
    var m, olds, gen := Main(s, incoming), s.cfg.svcs, s.gen + 1;
    var w := Work(m.live, m.next, incoming.svcs);
    var w' := Handed(s, incoming);
    assert Sensible(olds);
    if i :| 0 <= i < |olds| && olds[i].ev.Some? && Heir(incoming.svcs, olds[i]) == Some(k) {
      Inherits(w, olds, 0, gen, i, k);
      KeptThroughSetUp(w', 0, gen, k);
      OnlyOne(incoming.svcs, olds, i, k);
      assert olds[i] in olds;
    } else {
      StaysWith(w, olds, 0, gen, k, None);
      NewNumbers(w', 0, gen, k);
    }
  }

  lemma {:induction false} OnlyOne(svcs: seq<Service>, olds: seq<Service>, i: nat, k: nat)
    requires i < |olds| && Sensible(olds) && NoCollision(svcs, olds)
    requires olds[i].ev.Some? && Heir(svcs, olds[i]) == Some(k)
    ensures forall o :: o in olds && o.ev.Some? && Heir(svcs, o) == Some(k) ==> o == olds[i]
  {
    forall j | 0 <= j < |olds| && j != i && olds[j].ev.Some? ensures Heir(svcs, olds[j]) != Some(k) {
      var a, b := if i < j then i else j, if i < j then j else i;
      assert !Collide(svcs, olds[a], olds[b]);
    }
  }

  /** An old service's listener that nobody takes over is closed. */
  lemma {:induction false} ListenerClosed(s: State, incoming: Config, i: nat)
    requires Conserved(s) && JustRead(incoming) && i < |s.cfg.svcs| && s.cfg.svcs[i].ev.Some?
    requires Heir(incoming.svcs, s.cfg.svcs[i]).None?
    ensures s.cfg.svcs[i].ev.value !in Reloaded(s, incoming).live
  {
    var m, x := Main(s, incoming), s.cfg.svcs[i].ev.value;
    assert x in s.live && x < s.next;
    ClosedStays(Work(m.live, m.next, incoming.svcs), s.cfg.svcs, 0, s.gen + 1, i);
    GoneThroughSetUp(Handed(s, incoming), 0, s.gen + 1, x);
  }

  lemma {:induction false} ClosedStays(w: Work, olds: seq<Service>, a: nat, gen: nat, i: nat)
    requires a <= i < |olds| && Apart(olds) && olds[i].ev.Some? && olds[i].ev.value < w.next
    requires Heir(w.svcs, olds[i]).None?
    ensures Gone(HandOverFrom(w, olds, a, gen), olds[i].ev.value)
    decreases i - a
  {
    var w' := HandOver(w, olds[a], gen);
    if a < i {
      HandOverSame(w, olds[a], gen);
      HeirStable(w'.svcs, w.svcs, olds[i]);
      ClosedStays(w', olds, a + 1, gen, i);
    } else {
      GoneStays(w', olds, i + 1, gen, olds[i].ev.value);
    }
  }

  /** A hand-over in which every old listener has an heir closes none. */
  lemma {:induction false} NoneClosed(w: Work, olds: seq<Service>, a: nat, gen: nat)
    requires a <= |olds|
    requires forall j :: a <= j < |olds| && olds[j].ev.Some? ==>
                           Heir(w.svcs, olds[j]).Some? && olds[j].ev.value in w.live
    ensures HandOverFrom(w, olds, a, gen).live.Keys == w.live.Keys
    decreases |olds| - a
  {
    if a < |olds| {
      var w' := HandOver(w, olds[a], gen);
      HandOverSame(w, olds[a], gen);
      assert w'.live.Keys == w.live.Keys;
      forall j | a + 1 <= j < |olds| && olds[j].ev.Some?
        ensures Heir(w'.svcs, olds[j]).Some? && olds[j].ev.value in w'.live
      {
        HeirStable(w'.svcs, w.svcs, olds[j]);
      }
      NoneClosed(w', olds, a + 1, gen);
    }
  }

  lemma {:induction false} NoneSetUp(w: Work, k: nat, gen: nat)
    requires k <= |w.svcs| && forall j :: k <= j < |w.svcs| && w.svcs[j].socket.Some? ==> w.svcs[j].ev.Some?
    ensures SetUpFrom(w, k, gen) == w
    decreases |w.svcs| - k
  {
    if k < |w.svcs| { NoneSetUp(w, k + 1, gen); }
  }

  lemma {:induction false} OwnHeir(svcs: seq<Service>, olds: seq<Service>, k: nat)
    requires SameServices(svcs, olds) && UniqueNames(olds) && k < |olds|
    ensures Heir(svcs, olds[k]) == Some(k)
  {
  }

  /** Reloading a configuration with the same services and socket name opens and closes nothing. */
  lemma {:induction false} SameReload(s: State, incoming: Config)
    requires Conserved(s) && JustRead(incoming) && UniqueNames(s.cfg.svcs)
    requires SameServices(incoming.svcs, s.cfg.svcs) && incoming.socketName == s.cfg.socketName
    ensures Reloaded(s, incoming).next == s.next && Reloaded(s, incoming).live.Keys == s.live.Keys
    ensures forall k :: 0 <= k < |s.cfg.svcs| && s.cfg.svcs[k].socket.Some? ==>
                          Reloaded(s, incoming).cfg.svcs[k].ev == s.cfg.svcs[k].ev
  {
    var m, olds, gen := Main(s, incoming), s.cfg.svcs, s.gen + 1;
    var w, w' := Work(m.live, m.next, incoming.svcs), Handed(s, incoming);
    UniqueNamesNoCollision(incoming.svcs, olds);
    assert Sensible(olds) && m.live.Keys == s.live.Keys;
    forall k | 0 <= k < |olds| && olds[k].ev.Some?
      ensures Heir(w.svcs, olds[k]) == Some(k) && olds[k].ev.value in w.live && w'.svcs[k].ev == olds[k].ev
    {
      OwnHeir(incoming.svcs, olds, k);
      Inherits(w, olds, 0, gen, k, k);
    }
    NoneClosed(w, olds, 0, gen);
    HandedSame(w, olds, 0, gen);
    NoneSetUp(w', 0, gen);
  }

  lemma {:induction false} HandedSame(w: Work, olds: seq<Service>, a: nat, gen: nat)
    requires a <= |olds|
    ensures SameServices(HandOverFrom(w, olds, a, gen).svcs, w.svcs)
    decreases |olds| - a
  {
    if a < |olds| {
      var w' := HandOver(w, olds[a], gen);
      HandOverSame(w, olds[a], gen);
      HandedSame(w', olds, a + 1, gen);
      SameServicesTrans(HandOverFrom(w', olds, a + 1, gen).svcs, w'.svcs, w.svcs);
    }
  }

  // ----- any number of reloads -----

  lemma {:induction false} StartConserves(cfg: Config)
    requires JustRead(cfg)
    ensures Conserved(Started(cfg)) && SameServices(Started(cfg).cfg.svcs, cfg.svcs)
  {
    var w := Work(map[0 := NameRef(0, Some(cfg.socketName))], 1, cfg.svcs);
    var name := NameRef(0, Some(cfg.socketName));
    SetUpConserves(w, 0, name, 0, 0);
    SetUpFromSame(w, 0, 0);
    SettledConserved(Started(cfg), name);
  }

  function ReloadedAll(s: State, cfgs: seq<Config>): State
    decreases |cfgs|
  {
    if cfgs == [] then s else ReloadedAll(Reloaded(s, cfgs[0]), cfgs[1..])
  }

  predicate Proper(cfg: Config) { JustRead(cfg) && UniqueNames(cfg.svcs) }

  lemma {:induction false} ReloadsConserve(s: State, cfgs: seq<Config>)
    requires Conserved(s) && UniqueNames(s.cfg.svcs) && forall i :: 0 <= i < |cfgs| ==> Proper(cfgs[i])
    ensures Conserved(ReloadedAll(s, cfgs))
    decreases |cfgs|
  {
    if cfgs != [] {
      UniqueNamesNoCollision(cfgs[0].svcs, s.cfg.svcs);
      ReloadConserves(s, cfgs[0]);
      ReloadsConserve(Reloaded(s, cfgs[0]), cfgs[1..]);
    }
  }

  /**
   From start-up through any number of reloads of configurations with unique service names, the listeners are
   conserved.
   */
  lemma {:induction false} UniqueNamesConserved(first: Config, cfgs: seq<Config>)
    requires Proper(first) && forall i :: 0 <= i < |cfgs| ==> Proper(cfgs[i])
    ensures Conserved(ReloadedAll(Started(first), cfgs))
  {
    StartConserves(first);
    ReloadsConserve(Started(first), cfgs);
  }

  /**
   Two services of one name and one socket: init_sockets, given the same configuration again, leaks a listener.
   Only the validator keeps such configurations away from it.
   */
  lemma {:induction false} DuplicateNamesLeak()
    ensures var svc := Service("a", Some("/s"), None);
            var cfg := Config("/main", [svc, svc]);
            Conserved(Started(cfg)) && !Conserved(Reloaded(Started(cfg), cfg))
  {
    var svc := Service("a", Some("/s"), None);
    var cfg := Config("/main", [svc, svc]);
    StartConserves(cfg);
    var olds := Started(cfg).cfg.svcs;
    assert FindFrom(cfg.svcs, "a", 0) == Some(0);
    assert Collide(cfg.svcs, olds[0], olds[1]);
    ReloadExact(Started(cfg), cfg);
  }
}
