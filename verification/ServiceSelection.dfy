/**
 Choosing the service for a connection: the first-match loop of src/gp_creds.c, the
 validator of src/gp_config.c that is meant to make it prefer a service for the peer's
 own uid to a catch-all, and exactly when it does.
 */
module ServiceSelection {
  import opened SeqLib

  const GP_SOCKET_NAME := "/var/lib/gssproxy/default.sock"

  datatype Context = Context(user: string, role: string, kind: string, range: Option<string>)

  datatype Service = Service(socket: Option<string>, program: Option<string>, context: Option<Context>,
          anyUid: bool, euid: int)

  /** The configuration: the name of the default socket and the services in order. */
  datatype Config = Config(socketName: string, svcs: seq<Service>)

  /** A connection: peer uid, the socket it came in on, the peer's program and its SELinux context if known. */
  datatype Conn = Conn(uid: int, socket: Option<string>, program: Option<string>, context: Option<Context>)

  /** gp_selinux_ctx_equal; a missing range equals every range. */
  predicate ContextEqual(a: Option<Context>, b: Option<Context>) {
    if a.None? || b.None? then a == b
    else
      && a.value.user == b.value.user && a.value.role == b.value.role && a.value.kind == b.value.kind
      && (a.value.range.None? || b.value.range.None? || a.value.range == b.value.range)
  }

  /** gp_conn_check_selinux. */
  predicate ContextAllows(conn: Conn, ctx: Option<Context>) {
    ctx.None? || (conn.context.Some? && ContextEqual(ctx, conn.context))
  }

  /** The conditions under which the loop of gp_creds_match_conn takes a service. */
  predicate Matches(cfg: Config, svc: Service, conn: Conn) {
    && (svc.anyUid || svc.euid == conn.uid)
    && ContextAllows(conn, svc.context)
    && (svc.program.Some? ==> conn.program == svc.program)
    && conn.socket == Some(Listens(svc, cfg.socketName))
  }

  /** The socket a service is on, given the default. */
  function Listens(svc: Service, default: string): string {
    if svc.socket.Some? then svc.socket.value else default
  }

  /** A service is for the connection: its user, its program, its socket and its context, as far as they are set. */
  predicate Takes(svc: Service, conn: Conn, default: string) {
    && (!svc.anyUid ==> svc.euid == conn.uid)
    && (svc.program.Some? ==> conn.program.Some? && conn.program.value == svc.program.value)
    && (svc.socket.Some? ==> conn.socket == svc.socket) && (svc.socket.None? ==> conn.socket == Some(default))
    && (svc.context.Some? ==> conn.context.Some? && InContext(conn.context.value, svc.context.value))
  }

  /** User, role and type are the same, and the ranges do not contradict each other. */
  predicate InContext(c: Context, wanted: Context) {
    && c.user == wanted.user && c.role == wanted.role && c.kind == wanted.kind
    && (c.range == wanted.range || c.range.None? || wanted.range.None?)
  }

  // ----- the code -----

  /** gp_creds_match_conn. */
  method MatchConn(cfg: Config, conn: Conn) returns (r: Option<nat>)
    ensures r == Selected(cfg, conn)
    ensures r.Some? ==> r.value < |cfg.svcs| && Takes(cfg.svcs[r.value], conn, cfg.socketName)
    ensures forall k :: 0 <= k < |cfg.svcs| && (r.Some? ==> k < r.value) ==>
                          !Takes(cfg.svcs[k], conn, cfg.socketName)
  {
    for i := 0 to |cfg.svcs|
      invariant forall k :: 0 <= k < i ==> !Matches(cfg, cfg.svcs[k], conn)
      invariant Selected(cfg, conn) == SelectedFrom(cfg, conn, i)
    {
      var svc := cfg.svcs[i];
      if (!svc.anyUid && svc.euid != conn.uid)
         || !ContextAllows(conn, svc.context)
         || (svc.program.Some? && conn.program != svc.program)
         || (svc.socket.Some? && conn.socket != svc.socket)
         || (svc.socket.None? && conn.socket != Some(cfg.socketName)) {
        continue;
      }
      return Some(i);
    }
    return None;
  }

  function SelectedFrom(cfg: Config, conn: Conn, i: nat): (r: Option<nat>)
    requires i <= |cfg.svcs|
    ensures r.None? ==> forall k :: i <= k < |cfg.svcs| ==> !Matches(cfg, cfg.svcs[k], conn)
    ensures r.Some? ==> i <= r.value < |cfg.svcs| && Matches(cfg, cfg.svcs[r.value], conn)
    ensures r.Some? ==> forall k :: i <= k < r.value ==> !Matches(cfg, cfg.svcs[k], conn)
    decreases |cfg.svcs| - i
  {
    if i == |cfg.svcs| then None else if Matches(cfg, cfg.svcs[i], conn) then Some(i)
            else SelectedFrom(cfg, conn, i + 1)
  }

  function Selected(cfg: Config, conn: Conn): (r: Option<nat>) { SelectedFrom(cfg, conn, 0) }

  predicate ProgramOk(svc: Service) {
    svc.program.Some? ==> |svc.program.value| > 0 && svc.program.value[0] == '/' && '|' !in svc.program.value
  }

  /** The two services have the same program and context, and the same socket if `default` is the default one. */
  predicate SameKey(a: Service, b: Service, default: string) {
    Listens(a, default) == Listens(b, default) && a.program == b.program && ContextEqual(a.context, b.context)
  }

  /** What the validator objects to in an earlier and a later service of the same key. */
  predicate Objection(earlier: Service, later: Service) { earlier.anyUid || earlier.euid == later.euid }

  /** What check_services accepts; the default socket is a constant to it. */
  ghost predicate Accepts(cfg: Config) {
    && (forall i :: 0 <= i < |cfg.svcs| ==> ProgramOk(cfg.svcs[i]))
    && (forall i, j :: 0 <= j < i < |cfg.svcs| && SameKey(cfg.svcs[j], cfg.svcs[i], GP_SOCKET_NAME)
                       ==> !Objection(cfg.svcs[j], cfg.svcs[i]))
  }

  /** The program test of check_services. */
  method CheckProgram(svc: Service) returns (ret: int)
    ensures ret == 0 <==> ProgramOk(svc)
    ensures svc.program.Some? ==>
              (ret == 0 <==> exists path :: svc.program.value == "/" + path && forall c :: c in path ==> c != '|')
  {
    ret := 0;
    if svc.program.Some? {
      if |svc.program.value| == 0 || svc.program.value[0] != '/' {
        ret := 1;
      } else if '|' in svc.program.value {
        ret := 1;
      }
      if |svc.program.value| > 0 { assert svc.program.value == [svc.program.value[0]] + svc.program.value[1..]; }
    }
  }

  /** The body of its inner loop. */
  method CheckPair(isvc: Service, jsvc: Service) returns (ret: int)
    ensures ret == 0 <==> (SameKey(jsvc, isvc, GP_SOCKET_NAME) ==> !Objection(jsvc, isvc))
    ensures ret != 0 <==>
            && (if isvc.socket.Some? then isvc.socket.value else "/var/lib/gssproxy/default.sock") ==
               (if jsvc.socket.Some? then jsvc.socket.value else "/var/lib/gssproxy/default.sock")
            && isvc.program == jsvc.program && isvc.context.Some? == jsvc.context.Some?
            && (isvc.context.Some? ==> InContext(isvc.context.value, jsvc.context.value))
            && (jsvc.anyUid || jsvc.euid == isvc.euid)
  {
    var isock := if isvc.socket.None? then GP_SOCKET_NAME else isvc.socket.value;
    var jsock := if jsvc.socket.None? then GP_SOCKET_NAME else jsvc.socket.value;
    if isock != jsock || isvc.program != jsvc.program || !ContextEqual(isvc.context, jsvc.context) {
      return 0;
    }
    if jsvc.anyUid {
      return 1;
    } else if jsvc.euid == isvc.euid {
      return 1;
    }
    return 0;
  }

  /** check_services: an objection anywhere sticks. */
  method CheckServices(cfg: Config) returns (ret: int)
    ensures ret == 0 <==> Accepts(cfg)
  {
    ret := 0;
    var i := 0;
    while i < |cfg.svcs|
      invariant 0 <= i <= |cfg.svcs|
      invariant ret == 0 <==> AcceptsFirst(cfg, i)
    {
      var isvc := cfg.svcs[i];
      var bad := CheckProgram(isvc);
      if bad != 0 {
        ret := bad;
      }
      var j := 0;
      while j < i
        invariant 0 <= j <= i
        invariant ret == 0 <==> AcceptsFirst(cfg, i) && ProgramOk(isvc) && NoObjectionBefore(cfg, i, j)
      {
        bad := CheckPair(isvc, cfg.svcs[j]);
        if bad != 0 {
          ret := bad;
        }
        j := j + 1;
      }
      i := i + 1;
    }
    AcceptsAll(cfg);
  }

  lemma {:induction false} AcceptsAll(cfg: Config)
    ensures AcceptsFirst(cfg, |cfg.svcs|) <==> Accepts(cfg)
  {
    if AcceptsFirst(cfg, |cfg.svcs|) {
      forall i, j | 0 <= j < i < |cfg.svcs| && SameKey(cfg.svcs[j], cfg.svcs[i], GP_SOCKET_NAME)
        ensures !Objection(cfg.svcs[j], cfg.svcs[i])
      {
        assert NoObjectionBefore(cfg, i, i);
      }
    }
  }

  ghost predicate AcceptsFirst(cfg: Config, n: nat)
    requires n <= |cfg.svcs|
  {
    forall i :: 0 <= i < n ==> ProgramOk(cfg.svcs[i]) && NoObjectionBefore(cfg, i, i)
  }

  ghost predicate NoObjectionBefore(cfg: Config, i: nat, n: nat)
    requires n <= i < |cfg.svcs|
  {
    forall j :: 0 <= j < n ==> SameKey(cfg.svcs[j], cfg.svcs[i], GP_SOCKET_NAME) ==>
            !Objection(cfg.svcs[j], cfg.svcs[i])
  }

  // ----- what acceptance implies -----

  /**
   Of two services of the same key that both take the connection, the earlier is for the peer's uid and the
   later a catch-all.
   */
  ghost predicate ExactBeforeCatchAll(cfg: Config, conn: Conn) {
    forall i, j :: 0 <= j < i < |cfg.svcs| && SameKey(cfg.svcs[j], cfg.svcs[i], cfg.socketName)
                   && Matches(cfg, cfg.svcs[j], conn) && Matches(cfg, cfg.svcs[i], conn)
                   ==> !cfg.svcs[j].anyUid && cfg.svcs[j].euid == conn.uid && cfg.svcs[i].anyUid
  }

  /** The earlier service would keep a connection from the later one that is for the peer's uid. */
  predicate Shadows(earlier: Service, later: Service) {
    earlier.anyUid || (earlier.euid == later.euid && !later.anyUid)
  }

  /**
   No service shadows a later one that the validator, with its own idea of the default socket, takes for a
   different key.
   */
  ghost predicate NoHiddenShadow(cfg: Config) {
    forall i, j :: 0 <= j < i < |cfg.svcs| && SameKey(cfg.svcs[j], cfg.svcs[i], cfg.socketName)
                   && !SameKey(cfg.svcs[j], cfg.svcs[i], GP_SOCKET_NAME)
                   ==> !Shadows(cfg.svcs[j], cfg.svcs[i])
  }

  /**
   A connection that two services of the same key both take: on their socket, from their program, in both
   contexts.
   */
  function Peer(uid: int, a: Service, b: Service, default: string): Conn
    requires ContextEqual(a.context, b.context)
  {
    var context := if a.context.None? || a.context.value.range.Some? then a.context else b.context;
    Conn(uid, Some(Listens(a, default)), a.program, context)
  }

  /** A shadowed service shows on some connection. */
  lemma {:induction false} ShadowShows(cfg: Config, j: nat, i: nat)
    requires j < i < |cfg.svcs| && SameKey(cfg.svcs[j], cfg.svcs[i], cfg.socketName)
            && Shadows(cfg.svcs[j], cfg.svcs[i])
    ensures !ExactBeforeCatchAll(cfg, Peer(cfg.svcs[i].euid, cfg.svcs[j], cfg.svcs[i], cfg.socketName))
  {
  }

  lemma {:induction false} AcceptedIsOrdered(cfg: Config, conn: Conn)
    requires Accepts(cfg) && NoHiddenShadow(cfg)
    ensures ExactBeforeCatchAll(cfg, conn)
  {
  }

  /**
   What the validator is worth, for every accepted configuration: the loop prefers the service for the
   peer's uid on every connection exactly when no hidden shadow is left.
   */
  lemma {:induction false} AcceptanceDecides(cfg: Config)
    requires Accepts(cfg)
    ensures (forall conn: Conn :: ExactBeforeCatchAll(cfg, conn)) <==> NoHiddenShadow(cfg)
  {
    if NoHiddenShadow(cfg) {
      forall conn: Conn ensures ExactBeforeCatchAll(cfg, conn) {
        AcceptedIsOrdered(cfg, conn);
      }
    } else {
      var i, j :| 0 <= j < i < |cfg.svcs| && SameKey(cfg.svcs[j], cfg.svcs[i], cfg.socketName)
                  && !SameKey(cfg.svcs[j], cfg.svcs[i], GP_SOCKET_NAME) && Shadows(cfg.svcs[j], cfg.svcs[i]);
      ShadowShows(cfg, j, i);
    }
  }

  /** With the default socket name nothing is hidden from the validator: acceptance alone is enough. */
  lemma {:induction false} DefaultNameIsEnough(cfg: Config, conn: Conn)
    requires Accepts(cfg) && cfg.socketName == GP_SOCKET_NAME
    ensures ExactBeforeCatchAll(cfg, conn)
  {
  }

  /** Where the order holds, a catch-all is selected only if no other service of its key takes the connection. */
  lemma {:induction false} CatchAllIsLastResort(cfg: Config, conn: Conn, k: nat, l: nat)
    requires ExactBeforeCatchAll(cfg, conn) && Selected(cfg, conn) == Some(k)
    requires l < |cfg.svcs| && l != k && SameKey(cfg.svcs[k], cfg.svcs[l], cfg.socketName)
    ensures cfg.svcs[k].anyUid ==> !Matches(cfg, cfg.svcs[l], conn)
  {
  }

  /**
   An accepted configuration with another socket name in which the catch-all takes the connections of a uid
   with its own service.
   */
  lemma {:induction false} HiddenShadow()
    ensures var cfg := Config("/run/other.sock", [Service(None, None, None, true, 0),
            Service(Some("/run/other.sock"), None, None, false, 5)]);
            && Accepts(cfg)
            && Selected(cfg, Conn(5, Some("/run/other.sock"), None, None)) == Some(0)
            && Matches(cfg, cfg.svcs[1], Conn(5, Some("/run/other.sock"), None, None))
            && SameKey(cfg.svcs[0], cfg.svcs[1], cfg.socketName)
  {
  }
}
