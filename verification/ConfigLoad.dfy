/**
 Loading the services of a configuration (load_services in src/gp_config.c) and what
 its validator is worth to the listeners: services that are accepted have distinct
 names, so reloading any accepted configurations conserves the listeners.
 */
module ConfigLoad {
  import opened SeqLib
  import V = ServiceSelection
  import R = Reload

  const EINVAL := 22
  const ENOENT := 2

  /**
   What is found under the name of a section; `krb5` is the error of reading the keys of the krb5 mechanism and
   `others` that of the settings read after it, 0 for none.
   */
  datatype Section = Section(euid: Option<int>, anyUid: bool, socket: Option<string>, mechs: Option<string>, krb5: int,
                             others: int, context: Option<V.Context>, program: Option<string>)

  /** A configuration as read: the names of its sections in order, and what is found under a name. */
  datatype File = File(socketName: string, secnames: seq<string>, lookup: string -> Section)

  datatype Named = Named(name: string, svc: V.Service)

  datatype Reading = Fatal(err: int) | Ignored | Read(svc: V.Service)

  function ReadSection(s: Section): (r: Reading)
    ensures r.Fatal? ==> r.err != 0
  {
    if s.euid.None? || s.mechs.None? then Fatal(EINVAL)
    else if s.mechs != Some("krb5") then Ignored
    else if s.krb5 != 0 then Fatal(s.krb5)
    else if s.others != 0 then Fatal(s.others)
    else Read(V.Service(s.socket, s.program, s.context, s.anyUid, s.euid.value))
  }

  predicate IsService(secname: string) { |secname| >= 8 && secname[..8] == "service/" }

  /** The services of the sections from `i` on, unless one of them cannot be read. */
  function Services(f: File, i: nat): Option<seq<Named>>
    requires i <= |f.secnames|
    decreases |f.secnames| - i
  {
    if i == |f.secnames| then Some([])
    else
      var secname, rest := f.secnames[i], Services(f, i + 1);
      if !IsService(secname) then rest
      else
        match ReadSection(f.lookup(secname))
        case Fatal(_) => None
        case Ignored => rest
        case Read(svc) => if rest.None? then None else Some([Named(secname[8..], svc)] + rest.value)
  }

  function Plain(svcs: seq<Named>): (r: seq<V.Service>)
    ensures |r| == |svcs| && forall k :: 0 <= k < |r| ==> r[k] == svcs[k].svc
  {
    if svcs == [] then [] else [svcs[0].svc] + Plain(svcs[1..])
  }

  /** The services that a configuration gives the daemon, if it is accepted. */
  ghost function Loaded(f: File): Option<seq<Named>> {
    var svcs := Services(f, 0);
    if svcs.Some? && svcs.value != [] && V.Accepts(V.Config(f.socketName, Plain(svcs.value))) then svcs else None
  }

  function Prepend(svcs: seq<Named>, rest: Option<seq<Named>>): Option<seq<Named>> {
    if rest.None? then None else Some(svcs + rest.value)
  }

  lemma {:induction false} PrependOne(svcs: seq<Named>, n: Named, rest: Option<seq<Named>>)
    ensures Prepend(svcs + [n], rest) == Prepend(svcs, Prepend([n], rest))
  {
    if rest.Some? { assert (svcs + [n]) + rest.value == svcs + ([n] + rest.value); }
  }

  /** The loop of load_services. */
  method ReadServices(f: File) returns (ret: int, svcs: seq<Named>)
    ensures ret == 0 <==> Services(f, 0).Some?
    ensures ret == 0 ==> Services(f, 0) == Some(svcs)
  {
    svcs := [];
    assert Services(f, 0).Some? ==> svcs + Services(f, 0).value == Services(f, 0).value;
    for i := 0 to |f.secnames|
      invariant Services(f, 0) == Prepend(svcs, Services(f, i))
    {
      var secname := f.secnames[i];
      if !IsService(secname) {
        continue;
      }
      var reading := ReadSection(f.lookup(secname));
      match reading {
        case Fatal(err) => return err, svcs;
        case Ignored =>
        case Read(svc) =>
          PrependOne(svcs, Named(secname[8..], svc), Services(f, i + 1));
          svcs := svcs + [Named(secname[8..], svc)];
      }
    }
    assert svcs + [] == svcs;
    ret := 0;
  }

  /** load_services. */
  method LoadServices(f: File) returns (ret: int, svcs: seq<Named>)
    ensures ret == 0 <==> Loaded(f).Some?
    ensures ret == 0 ==> Loaded(f) == Some(svcs) && svcs != []
  {
    ret, svcs := ReadServices(f);
    if ret != 0 {
      return;
    }
    if |svcs| == 0 {
      return ENOENT, svcs;
    }
    ret := V.CheckServices(V.Config(f.socketName, Plain(svcs)));
  }

  // ----- names -----

  predicate Found(f: File, n: Named) { ReadSection(f.lookup("service/" + n.name)) == Read(n.svc) }

  /** A service is what is found under its own name. */
  lemma {:induction false} ServicesFound(f: File, i: nat, k: nat)
    requires i <= |f.secnames| && Services(f, i).Some? && k < |Services(f, i).value|
    ensures Found(f, Services(f, i).value[k])
    decreases |f.secnames| - i
  {
    var secname := f.secnames[i];
    if !IsService(secname) || ReadSection(f.lookup(secname)).Ignored? {
      ServicesFound(f, i + 1, k);
    } else if k > 0 {
      ServicesFound(f, i + 1, k - 1);
    } else {
      assert "service/" + secname[8..] == secname;
    }
  }

  /** Each loaded service has what its section says, and the section is one of the krb5 mechanism without faults. */
  lemma {:induction false} LoadedFields(f: File, k: nat)
    requires Loaded(f).Some? && k < |Loaded(f).value|
    ensures var n := Loaded(f).value[k];
            var s := f.lookup("service/" + n.name);
            && s.mechs == Some("krb5") && s.krb5 == 0 && s.others == 0
            && s.euid == Some(n.svc.euid) && s.anyUid == n.svc.anyUid
            && s.socket == n.svc.socket && s.program == n.svc.program && s.context == n.svc.context
  {
    ServicesFound(f, 0, k);
  }

  /** What ends the loading: no uid, no mechanisms, or a fault in a section of the krb5 mechanism. */
  predicate Faulty(s: Section) {
    s.euid.None? || s.mechs.None? || (s.mechs.value == "krb5" && (s.krb5 != 0 || s.others != 0))
  }

  /** Loading fails exactly on a faulty service section, and otherwise the krb5 sections are loaded, all of them. */
  lemma {:induction false} ServicesExact(f: File, i: nat, name: string)
    requires i <= |f.secnames|
    ensures Services(f, i).None? <==>
            exists j :: i <= j < |f.secnames| && IsService(f.secnames[j]) && Faulty(f.lookup(f.secnames[j]))
    ensures Services(f, i).Some? ==>
              ((exists n :: n in Services(f, i).value && n.name == name) <==>
               exists j :: i <= j < |f.secnames| && f.secnames[j] == "service/" + name
                           && f.lookup(f.secnames[j]).mechs == Some("krb5"))
    decreases |f.secnames| - i
  {
    if i < |f.secnames| {
      var secname := f.secnames[i];
      ServicesExact(f, i + 1, name);
      if IsService(secname) { assert secname == "service/" + secname[8..]; }
      assert ("service/" + name)[..8] == "service/" && ("service/" + name)[8..] == name;
    }
  }

  /** Two services of one name are the same in all that the validator looks at, and it objects to them. */
  lemma {:induction false} NamesDistinct(f: File)
    requires Loaded(f).Some?
    ensures forall i, j :: 0 <= i < j < |Loaded(f).value| ==> Loaded(f).value[i].name != Loaded(f).value[j].name
  {
    var svcs := Loaded(f).value;
    var cfg := V.Config(f.socketName, Plain(svcs));
    forall i, j | 0 <= i < j < |svcs| ensures svcs[i].name != svcs[j].name {
      ServicesFound(f, 0, i);
      ServicesFound(f, 0, j);
      if svcs[i].name == svcs[j].name {
        assert V.SameKey(cfg.svcs[i], cfg.svcs[j], V.GP_SOCKET_NAME) && V.Objection(cfg.svcs[i], cfg.svcs[j]);
      }
    }
  }

  // ----- reloads -----

  function Listening(svcs: seq<Named>): (r: seq<R.Service>)
    ensures |r| == |svcs|
    ensures forall k :: 0 <= k < |r| ==> r[k] == R.Service(svcs[k].name, svcs[k].svc.socket, None)
  {
    if svcs == [] then [] else [R.Service(svcs[0].name, svcs[0].svc.socket, None)] + Listening(svcs[1..])
  }

  /** What init_sockets gets from an accepted configuration. */
  ghost function Incoming(f: File): R.Config
    requires Loaded(f).Some?
  {
    R.Config(f.socketName, Listening(Loaded(f).value))
  }

  lemma {:induction false} IncomingProper(f: File)
    requires Loaded(f).Some?
    ensures R.Proper(Incoming(f))
  {
    NamesDistinct(f);
  }

  /** hup_handler: a configuration that is not accepted changes nothing. */
  ghost function Accepted(files: seq<File>): (r: seq<R.Config>) {
    if files == [] then []
    else if Loaded(files[0]).Some? then [Incoming(files[0])] + Accepted(files[1..])
    else Accepted(files[1..])
  }

  lemma {:induction false} AcceptedProper(files: seq<File>)
    ensures forall i :: 0 <= i < |Accepted(files)| ==> R.Proper(Accepted(files)[i])
  {
    if files != [] {
      AcceptedProper(files[1..]);
      if Loaded(files[0]).Some? { IncomingProper(files[0]); }
    }
  }

  /**
   From start-up through any number of reloads, whatever is in the configuration files, the live listeners are
   the main one and one for each service with a socket.
   */
  lemma {:induction false} AlwaysConserved(first: File, files: seq<File>)
    requires Loaded(first).Some?
    ensures R.Conserved(R.ReloadedAll(R.Started(Incoming(first)), Accepted(files)))
  {
    IncomingProper(first);
    AcceptedProper(files);
    R.UniqueNamesConserved(Incoming(first), Accepted(files));
  }
}
