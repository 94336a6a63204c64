/** Grouping a host's listening sockets into services (tools/socket-inventory/src/main.rs:38, 93-144)
    and recording them (tools/librarian/ingest_inventory.py:310-375). */
module Sockets {
  import opened Text
  import opened Wrappers
  import Collections
  import Services

  datatype Socket = Socket(protocol: string, addr: string, port: nat, process: string, pid: Option<nat>)

  const EPHEMERAL_FLOOR := 32768

  /** Family, port and owner. */
  type Key = (string, nat, string)

  function Family(protocol: string): string { if "udp" <= protocol then "udp" else "tcp" }

  /** The process name, or the pid where it has no name, or nothing. */
  function Owner(s: Socket): string {
    if s.process != "" then s.process
    else match s.pid case Some(p) => "pid:" + Decimal(p) case None => ""
  }

  function KeyOf(s: Socket): Key { (Family(s.protocol), s.port, Owner(s)) }

  function Version(s: Socket): string { if s.protocol != "" && s.protocol[|s.protocol| - 1] == '6' then "6" else "4" }

  datatype Group = Group(pid: Option<nat>, binds: set<string>, versions: set<string>)

  // ---------- grouping ----------

  /** The pid of the first socket of the group that has one. */
  ghost predicate IsFirstPid(sockets: seq<Socket>, k: Key, pid: Option<nat>) {
    match pid
    case None => forall s | s in sockets && KeyOf(s) == k :: s.pid.None?
    case Some(_) => exists i :: 0 <= i < |sockets| && KeyOf(sockets[i]) == k && sockets[i].pid == pid
                      && forall j | 0 <= j < i && KeyOf(sockets[j]) == k :: sockets[j].pid.None?
  }

  ghost function BindsOf(sockets: seq<Socket>, k: Key): set<string> { set s | s in sockets && KeyOf(s) == k :: s.addr }

  ghost function VersionsOf(sockets: seq<Socket>, k: Key): set<string> {
    set s | s in sockets && KeyOf(s) == k :: Version(s)
  }

  ghost predicate HasKey(sockets: seq<Socket>, k: Key) { exists s :: s in sockets && KeyOf(s) == k }

  ghost predicate IsGroup(sockets: seq<Socket>, k: Key, g: Group) {
    && g.binds == BindsOf(sockets, k)
    && g.versions == VersionsOf(sockets, k)
    && IsFirstPid(sockets, k, g.pid)
  }

  /** One group per family, port and owner, with all its addresses. */
  ghost predicate AreGroups(sockets: seq<Socket>, groups: map<Key, Group>) {
    && (forall k :: k in groups <==> HasKey(sockets, k))
    && (forall k | k in groups :: IsGroup(sockets, k, groups[k]))
  }

  function Added(groups: map<Key, Group>, s: Socket): map<Key, Group> {
    var g := if KeyOf(s) in groups then groups[KeyOf(s)] else Group(None, {}, {});
    groups[KeyOf(s) := Group(if g.pid.Some? then g.pid else s.pid, g.binds + {s.addr}, g.versions + {Version(s)})]
  }

  lemma FirstPidStep(sockets: seq<Socket>, s: Socket, k: Key, pid: Option<nat>)
    requires IsFirstPid(sockets, k, pid)
    ensures IsFirstPid(sockets + [s], k, if KeyOf(s) == k && pid.None? then s.pid else pid)
  {
    var all := sockets + [s];
    assert all[|sockets|] == s && forall i | 0 <= i < |sockets| :: all[i] == sockets[i] && all[i] in sockets;
    if pid.Some? {
      var i :| 0 <= i < |sockets| && KeyOf(sockets[i]) == k && sockets[i].pid == pid
               && forall j | 0 <= j < i && KeyOf(sockets[j]) == k :: sockets[j].pid.None?;
      assert all[i] == sockets[i];
    }
  }

  lemma SetsStep(sockets: seq<Socket>, s: Socket, k: Key)
    ensures BindsOf(sockets + [s], k) == BindsOf(sockets, k) + if KeyOf(s) == k then {s.addr} else {}
    ensures VersionsOf(sockets + [s], k) == VersionsOf(sockets, k) + if KeyOf(s) == k then {Version(s)} else {}
    ensures HasKey(sockets + [s], k) <==> HasKey(sockets, k) || KeyOf(s) == k
  {
    assert s in sockets + [s] && forall x :: x in sockets + [s] <==> x in sockets || x == s;
  }

  lemma NoGroup(sockets: seq<Socket>, k: Key)
    requires !HasKey(sockets, k)
    ensures IsGroup(sockets, k, Group(None, {}, {}))
  {
  }

  lemma GroupStep(sockets: seq<Socket>, groups: map<Key, Group>, s: Socket)
    requires AreGroups(sockets, groups)
    ensures AreGroups(sockets + [s], Added(groups, s))
  {
    var all, after := sockets + [s], Added(groups, s);
    forall k
      ensures k in after <==> HasKey(all, k)
      ensures k in after ==> IsGroup(all, k, after[k])
    {
      SetsStep(sockets, s, k);
      if k !in groups { NoGroup(sockets, k); }
      FirstPidStep(sockets, s, k, if k in groups then groups[k].pid else None);
    }
  }

  method GroupSockets(sockets: seq<Socket>) returns (groups: map<Key, Group>)
    ensures AreGroups(sockets, groups)
  {
    groups := map[];
    for i := 0 to |sockets|
      invariant AreGroups(sockets[..i], groups)
    {
      var s := sockets[i];
      assert sockets[..i + 1] == sockets[..i] + [s];
      GroupStep(sockets[..i], groups, s);
      var g := if KeyOf(s) in groups then groups[KeyOf(s)] else Group(None, {}, {});
      groups := groups[KeyOf(s) := Group(if g.pid.Some? then g.pid
                                         else s.pid, g.binds + {s.addr}, g.versions + {Version(s)})];
    }
    assert sockets[..|sockets|] == sockets;
  }

  // ---------- one service per group ----------

  predicate IsWildcard(addr: string) { addr in ["0.0.0.0", "::", "*", ""] }

  function Exposure(binds: set<string>, loopback: string -> bool): string {
    if exists b | b in binds :: IsWildcard(b) then "all"
    else if forall b | b in binds :: loopback(b) then "loopback"
    else "specific"
  }

  function ServiceOf(k: Key, g: Group, loopback: string -> bool): Services.Svc {
    Services.Svc(k.0, Some(k.1), k.2, Exposure(g.binds, loopback), k.1 >= EPHEMERAL_FLOOR, "")
  }

  /** A socket and the exposure of the sockets that share its family, port and owner. */
  ghost function SeenAs(sockets: seq<Socket>, s: Socket, loopback: string -> bool): Services.Svc {
    ServiceOf(KeyOf(s), Group(None, BindsOf(sockets, KeyOf(s)), {}), loopback)
  }

  /** No two services share family, port and owner. */
  ghost predicate OneEach(out: seq<Services.Svc>) {
    forall i, j | 0 <= i < j < |out| ::
        !(out[i].proto == out[j].proto && out[i].port == out[j].port && out[i].process == out[j].process)
  }

  /** The services: exactly what the sockets are seen as, one per family, port and owner. */
  method ServicesOf(sockets: seq<Socket>, loopback: string -> bool) returns (out: seq<Services.Svc>)
    ensures forall v :: v in out <==> exists s :: s in sockets && v == SeenAs(sockets, s, loopback)
    ensures OneEach(out)
  {
    var groups := GroupSockets(sockets);
    var order := Collections.ListSet(groups.Keys);
    assert forall k :: k in order <==> k in groups;
    out := seq(|order|, i requires 0 <= i < |order| => ServiceOf(order[i], groups[order[i]], loopback));
    ListedIsWhole(out, order, groups, loopback);
    forall v ensures v in out <==> exists s :: s in sockets && v == SeenAs(sockets, s, loopback) {
      SameServices(sockets, groups, loopback, v);
    }
  }

  lemma ListedIsWhole(out: seq<Services.Svc>, order: seq<Key>, groups: map<Key, Group>, loopback: string -> bool)
    requires Collections.AllDistinct(order) && |out| == |order| && forall k :: k in order <==> k in groups
    requires forall i | 0 <= i < |order| ::
               order[i] in groups && out[i] == ServiceOf(order[i], groups[order[i]], loopback)
    ensures forall v :: v in out <==> exists k :: k in groups && v == ServiceOf(k, groups[k], loopback)
    ensures OneEach(out)
  {
    forall v ensures v in out <==> exists k :: k in groups && v == ServiceOf(k, groups[k], loopback) {
      if v in out {
        var i :| 0 <= i < |out| && out[i] == v;
        assert order[i] in groups;
      }
      if k :| k in groups && v == ServiceOf(k, groups[k], loopback) {
        var i :| 0 <= i < |order| && order[i] == k;
        assert out[i] == v;
      }
    }
  }

  lemma SameServices(sockets: seq<Socket>, groups: map<Key, Group>, loopback: string -> bool, v: Services.Svc)
    requires AreGroups(sockets, groups)
    ensures (exists k :: k in groups && v == ServiceOf(k, groups[k], loopback))
            <==> (exists s :: s in sockets && v == SeenAs(sockets, s, loopback))
  {
    if k :| k in groups && v == ServiceOf(k, groups[k], loopback) {
      var s :| s in sockets && KeyOf(s) == k;
      assert IsGroup(sockets, k, groups[k]);
      assert v == SeenAs(sockets, s, loopback);
    }
    if s :| s in sockets && v == SeenAs(sockets, s, loopback) {
      var k := KeyOf(s);
      assert k in groups && IsGroup(sockets, k, groups[k]);
      assert v == ServiceOf(k, groups[k], loopback);
    }
  }

  // ---------- what a service says ----------

  ghost predicate IsUdp(s: Socket) {
    |s.protocol| >= 3 && s.protocol[0] == 'u' && s.protocol[1] == 'd' && s.protocol[2] == 'p'
  }

  /** `0.0.0.0`, `::`, `*` or nothing. */
  ghost predicate IsEveryAddress(addr: string) { addr == "" || addr == "*" || addr == "::" || addr == "0.0.0.0" }

  /** The process name, failing that `pid:` with the number, failing that nothing. */
  ghost predicate IsOwner(owner: string, s: Socket) {
    if s.process == "" && s.pid.Some? then
      |owner| > 4 && owner[..4] == "pid:" && owner[4..] == Decimal(s.pid.value)
    else owner == s.process
  }

  /** The sockets of one service are those of its protocol family, port and owner. */
  lemma ServiceSays(sockets: seq<Socket>, s: Socket, loopback: string -> bool)
    ensures var v := SeenAs(sockets, s, loopback);
            && v.proto == (if IsUdp(s) then "udp" else "tcp") && v.port == Some(s.port) && IsOwner(v.process, s)
            && (v.ephemeral <==> s.port >= 32768)
    ensures forall t :: KeyOf(t) == KeyOf(s) <==>
                        (IsUdp(t) <==> IsUdp(s)) && t.port == s.port && IsOwner(Owner(s), t)
  {
    forall x: Socket ensures ("udp" <= x.protocol <==> IsUdp(x)) && IsOwner(Owner(x), x) { FamilyAndOwner(x); }
    forall t: Socket | IsOwner(Owner(s), t) ensures Owner(s) == Owner(t) { OwnerIsOne(t, Owner(s)); }
  }

  lemma FamilyAndOwner(x: Socket)
    ensures "udp" <= x.protocol <==> IsUdp(x)
    ensures IsOwner(Owner(x), x)
  {
    if IsUdp(x) { assert x.protocol[..3] == "udp"; }
    if "udp" <= x.protocol { assert x.protocol[0] == "udp"[0] && x.protocol[1] == "udp"[1]
                            && x.protocol[2] == "udp"[2]; }
    if x.process == "" && x.pid.Some? { assert Owner(x)[4..] == Decimal(x.pid.value); }
  }

  lemma OwnerIsOne(t: Socket, owner: string)
    requires IsOwner(owner, t)
    ensures owner == Owner(t)
  {
    if t.process == "" && t.pid.Some? { assert owner == owner[..4] + owner[4..]; }
  }

  /** What a group holds of its sockets: each address, and `6` or `4` as a protocol name ends in 6 or not. */
  lemma GroupHolds(sockets: seq<Socket>, groups: map<Key, Group>, s: Socket)
    requires AreGroups(sockets, groups) && s in sockets
    ensures KeyOf(s) in groups
    ensures var g := groups[KeyOf(s)];
            && (forall a :: a in g.binds <==> exists t :: t in sockets && KeyOf(t) == KeyOf(s) && t.addr == a)
            && (forall v :: v in g.versions ==> v == "4" || v == "6")
            && ("6" in g.versions <==> exists t :: t in sockets && KeyOf(t) == KeyOf(s) && EndsInSix(t.protocol))
            && ("4" in g.versions <==> exists t :: t in sockets && KeyOf(t) == KeyOf(s) && !EndsInSix(t.protocol))
  {
    assert IsGroup(sockets, KeyOf(s), groups[KeyOf(s)]);
    var versions := groups[KeyOf(s)].versions;
    forall t: Socket ensures Version(t) == if EndsInSix(t.protocol) then "6" else "4" { VersionSays(t); }
    var six, four := "6", "4";
    assert six[0] != four[0];
    assert versions == VersionsOf(sockets, KeyOf(s));
    if six in versions { var t :| t in sockets && KeyOf(t) == KeyOf(s) && Version(t) == six; }
    if t :| t in sockets && KeyOf(t) == KeyOf(s) && EndsInSix(t.protocol) { assert Version(t) in versions; }
    if four in versions { var t :| t in sockets && KeyOf(t) == KeyOf(s) && Version(t) == four; }
    if t :| t in sockets && KeyOf(t) == KeyOf(s) && !EndsInSix(t.protocol) { assert Version(t) in versions; }
  }

  lemma VersionSays(t: Socket)
    ensures Version(t) == if EndsInSix(t.protocol) then "6" else "4"
  {
    var p := t.protocol;
    if p != "" && p[|p| - 1] == '6' { assert p == p[..|p| - 1] + "6"; }
  }

  ghost predicate EndsInSix(protocol: string) { exists front :: protocol == front + "6" }

  /** `loopback`, `all` and `specific` mean what they say: every address is a loopback one, some is a
      wildcard, or neither. */
  lemma ExposureMeans(sockets: seq<Socket>, s: Socket, loopback: string -> bool)
    requires s in sockets && forall a | IsEveryAddress(a) :: !loopback(a)
    ensures var x := SeenAs(sockets, s, loopback).exposure;
            && x in ["all", "loopback", "specific"]
            && (x == "all" <==> exists t :: t in sockets && KeyOf(t) == KeyOf(s) && IsEveryAddress(t.addr))
            && (x == "loopback" <==> forall t | t in sockets && KeyOf(t) == KeyOf(s) :: loopback(t.addr))
  {
    var binds := BindsOf(sockets, KeyOf(s));
    assert s.addr in binds && forall a :: IsWildcard(a) <==> IsEveryAddress(a);
    if t :| t in sockets && KeyOf(t) == KeyOf(s) && IsEveryAddress(t.addr) { assert t.addr in binds; }
    if forall b | b in binds :: loopback(b) {
      forall t | t in sockets && KeyOf(t) == KeyOf(s) ensures loopback(t.addr) { assert t.addr in binds; }
    }
  }

  // ---------- recording what listens ----------

  ghost predicate Listens(sockets: seq<Socket>, host: string, loopback: string -> bool, skipTransient: bool,
                          k: string) {
    exists s :: s in sockets && Services.Judge(SeenAs(sockets, s, loopback), skipTransient) == Services.Service
                && k == Services.KeyOf(host, SeenAs(sockets, s, loopback))
  }

  /** Grouping and recording a whole report: the host's services become exactly those its sockets
      listen for, less the skipped ones, and other hosts keep theirs. */
  method GroupAndIngest(g: Services.Graph, host: string, sockets: seq<Socket>, loopback: string -> bool,
                        skipTransient: bool)
    returns (ok: bool)
    modifies g`services, g`edges
    ensures ok <==> host in g.hosts
    ensures ok ==> forall k ::
              k in g.services && Services.IsOwn(g.services[k], host) <==>
              Listens(sockets, host, loopback, skipTransient, k)
    ensures ok && Services.Keyed(old(g.services)) && Services.Lacks(host, '|') ==>
              Services.OthersKept(old(g.services), g.services, host)
  {
    var reported := ServicesOf(sockets, loopback);
    ok := g.IngestServices(host, reported, skipTransient);
    if ok {
      forall k ensures k in Services.RowKeys(Services.RowsOf(host, reported, skipTransient))
        <==> Listens(sockets, host, loopback, skipTransient, k) {
        KeysAreListened(sockets, host, loopback, skipTransient, reported, k);
      }
      if Services.Keyed(old(g.services)) && Services.Lacks(host, '|') {
        forall v | v in reported ensures Services.Lacks(v.proto, '/') {
          var s :| s in sockets && v == SeenAs(sockets, s, loopback);
          assert v.proto in ["udp", "tcp"];
        }
        Services.OtherHostsAreKept(old(g.services), g.services, host, reported, skipTransient);
      }
    }
  }

  lemma KeysAreListened(sockets: seq<Socket>, host: string, loopback: string -> bool, skipTransient: bool,
                        reported: seq<Services.Svc>, k: string)
    requires forall v :: v in reported <==> exists s :: s in sockets && v == SeenAs(sockets, s, loopback)
    ensures k in Services.RowKeys(Services.RowsOf(host, reported, skipTransient))
            <==> Listens(sockets, host, loopback, skipTransient, k)
  {
    var rows := Services.RowsOf(host, reported, skipTransient);
    if r :| r in rows && r.key == k {
      Services.RowsAreTheServices(host, reported, skipTransient, r);
      var v :| v in reported && Services.Judge(v, skipTransient) == Services.Service && r == Services.RowOf(host, v);
      var s :| s in sockets && v == SeenAs(sockets, s, loopback);
    }
    if s :| s in sockets && Services.Judge(SeenAs(sockets, s, loopback), skipTransient) == Services.Service
            && k == Services.KeyOf(host, SeenAs(sockets, s, loopback)) {
      var v := SeenAs(sockets, s, loopback);
      assert v in reported;
      Services.RowsAreTheServices(host, reported, skipTransient, Services.RowOf(host, v));
      assert Services.RowOf(host, v) in rows;
    }
  }
}
