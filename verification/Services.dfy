/** Recording a host's listening sockets as service nodes
    (tools/librarian/ingest_inventory.py:240-294, 310-375), and what that does to a report that was
    shrunk to fit (tools/socket-inventory/src/main.rs:226-270). */
module Services {
  import opened Text
  import opened Wrappers
  import Collections
  import GraphBatch
  import OutputBudget

  /** One reported service. */
  datatype Svc = Svc(proto: string, port: Option<nat>, process: string, exposure: string, ephemeral: bool,
                     detail: string)

  datatype Row = Row(key: string, svc: Svc)

  /** Why a service with a port is not recorded. */
  datatype Verdict = NoPort | Unbound | LoopbackEphemeral | UdpEphemeral | Service

  function Judge(s: Svc, skipTransient: bool): Verdict {
    if s.port.None? then NoPort
    else if s.port.value == 0 then Unbound
    else if skipTransient && s.ephemeral && s.exposure == "loopback" then LoopbackEphemeral
    else if skipTransient && s.ephemeral && s.proto == "udp" then UdpEphemeral
    else Service
  }

  /** `host|proto/port|process`. */
  function KeyOf(host: string, s: Svc): string
    requires s.port.Some?
  {
    host + ("|" + (s.proto + ("/" + (Decimal(s.port.value) + ("|" + s.process)))))
  }

  function RowOf(host: string, s: Svc): Row
    requires s.port.Some?
  {
    Row(KeyOf(host, s), s)
  }

  /** The rows of the services to record, in order. */
  function RowsOf(host: string, services: seq<Svc>, skipTransient: bool): seq<Row> {
    if services == [] then []
    else
      var last := services[|services| - 1];
      RowsOf(host, services[..|services| - 1], skipTransient)
      + if Judge(last, skipTransient) == Service then [RowOf(host, last)] else []
  }

  function CountOf(services: seq<Svc>, skipTransient: bool, v: Verdict): nat {
    if services == [] then 0
    else CountOf(services[..|services| - 1], skipTransient, v) + if Judge(services[|services| - 1], skipTransient) == v
      then 1 else 0
  }

  /** The rows and counters after reading these services; each is recorded, skipped for one reason,
      or lacks a port. */
  ghost predicate Accounted(host: string, services: seq<Svc>, skipTransient: bool, rows: seq<Row>, loopback: nat,
                            udp: nat, unbound: nat) {
    && rows == RowsOf(host, services, skipTransient)
    && loopback == CountOf(services, skipTransient, LoopbackEphemeral)
    && udp == CountOf(services, skipTransient, UdpEphemeral)
    && unbound == CountOf(services, skipTransient, Unbound)
    && |rows| + loopback + udp + unbound + CountOf(services, skipTransient, NoPort) == |services|
  }

  function One(s: Svc, skipTransient: bool, v: Verdict): nat { if Judge(s, skipTransient) == v then 1 else 0 }

  lemma CountStep(services: seq<Svc>, skipTransient: bool, s: Svc, v: Verdict)
    ensures CountOf(services + [s], skipTransient, v) == CountOf(services, skipTransient, v) + One(s, skipTransient, v)
  {
    assert (services + [s])[..|services|] == services;
  }

  lemma RowsStep(host: string, services: seq<Svc>, skipTransient: bool, s: Svc)
    ensures RowsOf(host, services + [s], skipTransient) == RowsOf(host, services, skipTransient)
            + RowsOf(host, [s], skipTransient)
    ensures RowsOf(host, [s], skipTransient) == if Judge(s, skipTransient) == Service then [RowOf(host, s)] else []
  {
    assert (services + [s])[..|services|] == services && [s][..0] == [];
  }

  lemma AccountStep(host: string, services: seq<Svc>, skipTransient: bool, rows: seq<Row>, loopback: nat, udp: nat,
                    unbound: nat, s: Svc)
    requires Accounted(host, services, skipTransient, rows, loopback, udp, unbound)
    ensures Accounted(host, services + [s], skipTransient, rows + RowsOf(host, [s], skipTransient),
                      loopback + One(s, skipTransient, LoopbackEphemeral), udp + One(s, skipTransient, UdpEphemeral),
                      unbound + One(s, skipTransient, Unbound))
  {
    CountStep(services, skipTransient, s, LoopbackEphemeral);
    CountStep(services, skipTransient, s, UdpEphemeral);
    CountStep(services, skipTransient, s, Unbound);
    CountStep(services, skipTransient, s, NoPort);
    RowsStep(host, services, skipTransient, s);
  }

  /** Every reported service is recorded, counted as skipped for one reason, or lacks a port. */
  method ServiceRows(host: string, services: seq<Svc>, skipTransient: bool)
    returns (rows: seq<Row>, loopback: nat, udp: nat, unbound: nat)
    ensures Accounted(host, services, skipTransient, rows, loopback, udp, unbound)
  {
    rows, loopback, udp, unbound := [], 0, 0, 0;
    for i := 0 to |services|
      invariant Accounted(host, services[..i], skipTransient, rows, loopback, udp, unbound)
    {
      AccountStep(host, services[..i], skipTransient, rows, loopback, udp, unbound, services[i]);
      assert services[..i + 1] == services[..i] + [services[i]];
      rows, loopback, udp, unbound := AddService(host, services[i], skipTransient, rows, loopback, udp, unbound);
    }
    assert services[..|services|] == services;
  }

  /** The body of the loop. */
  method AddService(host: string, s: Svc, skipTransient: bool, rows0: seq<Row>, loopback0: nat, udp0: nat,
                    unbound0: nat)
    returns (rows: seq<Row>, loopback: nat, udp: nat, unbound: nat)
    ensures rows == rows0 + RowsOf(host, [s], skipTransient)
    ensures loopback == loopback0 + One(s, skipTransient, LoopbackEphemeral)
            && udp == udp0 + One(s, skipTransient, UdpEphemeral)
    ensures unbound == unbound0 + One(s, skipTransient, Unbound)
  {
    RowsStep(host, [], skipTransient, s);
    rows, loopback, udp, unbound := rows0, loopback0, udp0, unbound0;
    if s.port.None? { return; }
    if s.port.value == 0 {
      unbound := unbound + 1;
      return;
    }
    if skipTransient && s.ephemeral {
      if s.exposure == "loopback" {
        loopback := loopback + 1;
        return;
      }
      if s.proto == "udp" {
        udp := udp + 1;
        return;
      }
    }
    rows := rows + [RowOf(host, s)];
  }

  lemma {:induction false} RowsAreTheServices(host: string, services: seq<Svc>, skipTransient: bool, r: Row)
    ensures r in RowsOf(host, services, skipTransient) <==>
            exists s :: s in services && Judge(s, skipTransient) == Service && r == RowOf(host, s)
  {
    if services != [] {
      var init, last := services[..|services| - 1], services[|services| - 1];
      assert services == init + [last];
      RowsAreTheServices(host, init, skipTransient, r);
    }
  }

  // ---------- which services are recorded ----------

  /** A service with a port other than 0, unless transient ones are left out and it is one of those:
      on an ephemeral port, and reachable on loopback only or over udp. */
  ghost predicate IsRecorded(s: Svc, skipTransient: bool) {
    s.port.Some? && s.port.value != 0
    && !(skipTransient && s.ephemeral && (s.exposure == "loopback" || s.proto == "udp"))
  }

  ghost predicate IsLoopbackOnly(s: Svc, skipTransient: bool) {
    skipTransient && s.port.Some? && s.port.value != 0 && s.ephemeral && s.exposure == "loopback"
  }

  ghost predicate IsTransientUdp(s: Svc, skipTransient: bool) {
    skipTransient && s.port.Some? && s.port.value != 0 && s.ephemeral && s.exposure != "loopback" && s.proto == "udp"
  }

  lemma JudgeMeans(s: Svc, skipTransient: bool)
    ensures Judge(s, skipTransient) == Service <==> IsRecorded(s, skipTransient)
    ensures Judge(s, skipTransient) == Unbound <==> s.port == Some(0)
    ensures Judge(s, skipTransient) == LoopbackEphemeral <==> IsLoopbackOnly(s, skipTransient)
    ensures Judge(s, skipTransient) == UdpEphemeral <==> IsTransientUdp(s, skipTransient)
  {
  }

  lemma KeyReads(host: string, s: Svc)
    requires s.port.Some?
    ensures KeyOf(host, s) == host + "|" + s.proto + "/" + Decimal(s.port.value) + "|" + s.process
  {
    var bar, port := "|", Decimal(s.port.value);
    Collections.Regroup(host, bar, s.proto + ("/" + (port + (bar + s.process))));
    Collections.Regroup(host + bar, s.proto, "/" + (port + (bar + s.process)));
    Collections.Regroup(host + bar + s.proto, "/", port + (bar + s.process));
    Collections.Regroup(host + bar + s.proto + "/", port, bar + s.process);
    Collections.Regroup(host + bar + s.proto + "/" + port, bar, s.process);
  }

  ghost predicate AreRows(host: string, kept: seq<Svc>, rows: seq<Row>) {
    |rows| == |kept| && forall i | 0 <= i < |rows| ::
        kept[i].port.Some? && rows[i].svc == kept[i]
        && rows[i].key == host + "|" + kept[i].proto + "/" + Decimal(kept[i].port.value) + "|" + kept[i].process
  }

  /** The rows are the recorded services in the order of the report, each under its host, protocol,
      port and process. */
  lemma {:induction false} RowsAreRecorded(host: string, services: seq<Svc>, skipTransient: bool)
    ensures AreRows(host, Collections.Filter(services, (s: Svc) => IsRecorded(s, skipTransient)),
                    RowsOf(host, services, skipTransient))
  {
    if services != [] {
      var last := services[|services| - 1];
      RowsAreRecorded(host, services[..|services| - 1], skipTransient);
      JudgeMeans(last, skipTransient);
      if last.port.Some? { KeyReads(host, last); }
    }
  }

  lemma {:induction false} CountIsExact(services: seq<Svc>, skipTransient: bool, v: Verdict, belongs: Svc -> bool)
    requires forall s :: Judge(s, skipTransient) == v <==> belongs(s)
    ensures CountOf(services, skipTransient, v) == |Collections.Filter(services, belongs)|
  {
    if services != [] { CountIsExact(services[..|services| - 1], skipTransient, v, belongs); }
  }

  /** What the rows and the three counters of `ServiceRows` tell. */
  lemma SkippedAreCounted(host: string, services: seq<Svc>, skipTransient: bool, rows: seq<Row>, loopback: nat,
                          udp: nat, unbound: nat)
    requires Accounted(host, services, skipTransient, rows, loopback, udp, unbound)
    ensures AreRows(host, Collections.Filter(services, (s: Svc) => IsRecorded(s, skipTransient)), rows)
    ensures loopback == |Collections.Filter(services, (s: Svc) => IsLoopbackOnly(s, skipTransient))|
    ensures udp == |Collections.Filter(services, (s: Svc) => IsTransientUdp(s, skipTransient))|
    ensures unbound == |Collections.Filter(services, (s: Svc) => s.port == Some(0))|
  {
    RowsAreRecorded(host, services, skipTransient);
    forall s: Svc
      ensures Judge(s, skipTransient) == Unbound <==> s.port == Some(0)
      ensures Judge(s, skipTransient) == LoopbackEphemeral <==> IsLoopbackOnly(s, skipTransient)
      ensures Judge(s, skipTransient) == UdpEphemeral <==> IsTransientUdp(s, skipTransient)
    {
      JudgeMeans(s, skipTransient);
    }
    CountIsExact(services, skipTransient, LoopbackEphemeral, (s: Svc) => IsLoopbackOnly(s, skipTransient));
    CountIsExact(services, skipTransient, UdpEphemeral, (s: Svc) => IsTransientUdp(s, skipTransient));
    CountIsExact(services, skipTransient, Unbound, (s: Svc) => s.port == Some(0));
  }

  ghost function RowKeys(rows: seq<Row>): set<string> { set r | r in rows :: r.key }

  // ---------- merging and reconciling ----------

  const SOURCE := "socket-inventory"

  datatype Node = Node(host: string, source: string, svc: Svc)

  type Nodes = map<string, Node>
  type Edges = set<(string, string)>

  function MergeStatement(host: string): ((Nodes, Edges), Row) -> (Nodes, Edges) {
    (g: (Nodes, Edges), r: Row) => (g.0[r.key := Node(host, SOURCE, r.svc)], g.1 + {(host, r.key)})
  }

  ghost predicate IsLast(rows: seq<Row>, i: int, key: string, s: Svc) {
    0 <= i < |rows| && rows[i] == Row(key, s) && forall j | i < j < |rows| :: rows[j].key != key
  }

  /** Every row has a node that says its last listing; no other node changed. */
  ghost predicate MergedNodes(before: Nodes, after: Nodes, host: string, rows: seq<Row>) {
    && after.Keys == before.Keys + RowKeys(rows)
    && (forall k | k in after ::
          if k in RowKeys(rows) then IsOwn(after[k], host) && exists i :: IsLast(rows, i, k, after[k].svc)
          else after[k] == before[k])
  }

  ghost function EdgesTo(host: string, keys: set<string>): Edges { set k | k in keys :: (host, k) }

  lemma {:induction false} FoldMerges(before: (Nodes, Edges), host: string, rows: seq<Row>)
    ensures var after := GraphBatch.Fold(MergeStatement(host), before, rows);
            MergedNodes(before.0, after.0, host, rows) && after.1 == before.1 + EdgesTo(host, RowKeys(rows))
  {
    if rows == [] {
      assert RowKeys(rows) == {} && before.1 + EdgesTo(host, {}) == before.1;
    } else {
      var init, last := rows[..|rows| - 1], rows[|rows| - 1];
      assert rows == init + [last];
      FoldMerges(before, host, init);
      var mid := GraphBatch.Fold(MergeStatement(host), before, init);
      MergedStep(before.0, mid.0, host, init, last);
      assert before.1 + EdgesTo(host, RowKeys(rows)) == mid.1 + {(host, last.key)} by { KeysStep(init, last); }
    }
  }

  lemma KeysStep(init: seq<Row>, last: Row)
    ensures RowKeys(init + [last]) == RowKeys(init) + {last.key}
  {
  }

  lemma LastStep(init: seq<Row>, last: Row, k: string, s: Svc)
    ensures k == last.key && s == last.svc ==> IsLast(init + [last], |init|, k, s)
    ensures k != last.key ==> forall i | IsLast(init, i, k, s) :: IsLast(init + [last], i, k, s)
  {
    var rows := init + [last];
    assert forall j | 0 <= j < |init| :: rows[j] == init[j];
  }

  lemma MergedStep(before: Nodes, mid: Nodes, host: string, init: seq<Row>, last: Row)
    requires MergedNodes(before, mid, host, init)
    ensures MergedNodes(before, mid[last.key := Node(host, SOURCE, last.svc)], host, init + [last])
  {
    var rows, after := init + [last], mid[last.key := Node(host, SOURCE, last.svc)];
    KeysStep(init, last);
    forall k | k in after
      ensures if k in RowKeys(rows) then IsOwn(after[k], host) && exists i :: IsLast(rows, i, k, after[k].svc)
              else after[k] == before[k]
    {
      LastStep(init, last, k, after[k].svc);
      if k != last.key && k in RowKeys(init) {
        var i :| IsLast(init, i, k, mid[k].svc);
        assert IsLast(rows, i, k, after[k].svc);
      }
    }
  }

  predicate IsOwn(n: Node, host: string) { n.host == host && n.source == SOURCE }

  /** The nodes after recording: this host's services are exactly the reported ones. */
  ghost predicate Reconciled(before: Nodes, after: Nodes, host: string, rows: seq<Row>) {
    && (forall k :: k in after && IsOwn(after[k], host) <==> k in RowKeys(rows))
    && (forall k | k in RowKeys(rows) :: exists i :: IsLast(rows, i, k, after[k].svc))
    && (forall k | k !in RowKeys(rows) ::
          && (k in after <==> k in before && !IsOwn(before[k], host))
          && (k in after ==> after[k] == before[k]))
  }

  class Graph {
    var hosts: set<string>
    var services: Nodes
    var edges: Edges

    /** Records a socket report of a known host. Whatever the report leaves out is removed, an empty
        or shrunk report included. */
    method IngestServices(host: string, reported: seq<Svc>, skipTransient: bool) returns (ok: bool)
      modifies this`services, this`edges
      ensures ok <==> host in hosts
      ensures !ok ==> services == old(services) && edges == old(edges)
      ensures ok ==> Reconciled(old(services), services, host, RowsOf(host, reported, skipTransient))
      ensures ok ==>
                edges == ReconciledEdges(old(edges), services, host, RowKeys(RowsOf(host, reported, skipTransient)))
    {
      if host !in hosts { return false; }
      var rows, _, _, _ := ServiceRows(host, reported, skipTransient);
      MergeServices(host, rows);
      ghost var mid := services;
      DeleteStale(host, rows);
      ReconcilesNodes(old(services), mid, services, host, rows);
      ok := true;
    }

    /** Merges every row's node and edge. */
    method MergeServices(host: string, rows: seq<Row>)
      modifies this`services, this`edges
      ensures MergedNodes(old(services), services, host, rows)
      ensures edges == old(edges) + EdgesTo(host, RowKeys(rows))
    {
      FoldMerges((services, edges), host, rows);
      var written := GraphBatch.WriteRows(MergeStatement(host), (services, edges), rows);
      services, edges := written.0, written.1;
    }

    /** Deletes this host's own services that no row names, with their edges. */
    method DeleteStale(host: string, rows: seq<Row>)
      modifies this`services, this`edges
      ensures services
              == map k | k in old(services) && !(IsOwn(old(services)[k], host) && k !in RowKeys(rows)) ::
                  old(services)[k]
      ensures edges == set e | e in old(edges) && e.1 in services
    {
      var keys := set r | r in rows :: r.key;
      assert keys == RowKeys(rows);
      services := map k | k in services && !(IsOwn(services[k], host) && k !in keys) :: services[k];
      edges := set e | e in edges && e.1 in services;
    }
  }

  /** Old and new edges, without those to nodes that are gone. */
  ghost function ReconciledEdges(before: Edges, nodes: Nodes, host: string, keys: set<string>): Edges {
    set e | e in before + EdgesTo(host, keys) && e.1 in nodes
  }

  lemma ReconcilesNodes(before: Nodes, mid: Nodes, after: Nodes, host: string, rows: seq<Row>)
    requires MergedNodes(before, mid, host, rows)
    requires after == map k | k in mid && !(IsOwn(mid[k], host) && k !in RowKeys(rows)) :: mid[k]
    ensures Reconciled(before, after, host, rows)
  {
  }

  // ---------- what a recorded report leaves ----------

  /** The service goes by this key. */
  ghost predicate GoesBy(s: Svc, host: string, k: string) {
    s.port.Some? && k == host + "|" + s.proto + "/" + Decimal(s.port.value) + "|" + s.process
  }

  /** The last recorded service of the report that goes by this key. */
  ghost predicate SaysLast(host: string, kept: seq<Svc>, k: string, s: Svc) {
    exists i :: 0 <= i < |kept| && kept[i] == s && GoesBy(s, host, k)
                && forall j | i < j < |kept| :: !GoesBy(kept[j], host, k)
  }

  ghost predicate HasBy(kept: seq<Svc>, host: string, k: string) { exists s :: s in kept && GoesBy(s, host, k) }

  lemma KeysAreThose(host: string, kept: seq<Svc>, rows: seq<Row>, k: string)
    requires AreRows(host, kept, rows)
    ensures k in RowKeys(rows) <==> HasBy(kept, host, k)
  {
    if r :| r in rows && r.key == k {
      var i :| 0 <= i < |rows| && rows[i] == r;
      assert kept[i] in kept && GoesBy(kept[i], host, k);
    }
    if s :| s in kept && GoesBy(s, host, k) {
      var i :| 0 <= i < |kept| && kept[i] == s;
      assert rows[i] in rows && rows[i].key == k;
    }
  }

  lemma LastIsLast(host: string, kept: seq<Svc>, rows: seq<Row>, i: int, k: string, s: Svc)
    requires AreRows(host, kept, rows) && IsLast(rows, i, k, s)
    ensures SaysLast(host, kept, k, s)
  {
    assert kept[i] == s && GoesBy(s, host, k);
    forall j | i < j < |kept| ensures !GoesBy(kept[j], host, k) { assert rows[j].key != k; }
  }

  /** After recording: a key the report names has a node of this host that says the last such service;
      another key has the node it had, unless that was this host's own from an earlier report, and
      then it has none. */
  lemma NodesAreTold(before: Nodes, after: Nodes, host: string, reported: seq<Svc>, skipTransient: bool, k: string)
    requires Reconciled(before, after, host, RowsOf(host, reported, skipTransient))
    ensures var kept := Collections.Filter(reported, (s: Svc) => IsRecorded(s, skipTransient));
            if HasBy(kept, host, k) then
              && k in after && after[k].host == host && after[k].source == "socket-inventory"
              && SaysLast(host, kept, k, after[k].svc)
            else if k in before && !(before[k].host == host && before[k].source == "socket-inventory") then
              k in after && after[k] == before[k]
            else k !in after
  {
    var rows := RowsOf(host, reported, skipTransient);
    var kept := Collections.Filter(reported, (s: Svc) => IsRecorded(s, skipTransient));
    RowsAreRecorded(host, reported, skipTransient);
    KeysAreThose(host, kept, rows, k);
    if k in RowKeys(rows) {
      var i :| IsLast(rows, i, k, after[k].svc);
      LastIsLast(host, kept, rows, i, k, after[k].svc);
    }
  }

  /** A host listens on a service afterwards exactly when that still has a node and the host did so
      before or its report names it. */
  lemma EdgesAreTold(before: Edges, nodes: Nodes, host: string, reported: seq<Svc>, skipTransient: bool, h: string,
                     k: string)
    ensures (h, k) in ReconciledEdges(before, nodes, host, RowKeys(RowsOf(host, reported, skipTransient)))
            <==> k in nodes
                 && ((h, k) in before
                     || (h == host
                         && HasBy(Collections.Filter(reported, (s: Svc) => IsRecorded(s, skipTransient)), host, k)))
  {
    RowsAreRecorded(host, reported, skipTransient);
    KeysAreThose(host, Collections.Filter(reported, (s: Svc) => IsRecorded(s, skipTransient)),
                 RowsOf(host, reported, skipTransient), k);
  }

  // ---------- whose services a report can touch ----------

  ghost predicate OthersKept(before: Nodes, after: Nodes, host: string) {
    forall k | k in before && !IsOwn(before[k], host) :: k in after && after[k] == before[k]
  }

  /** What other hosts or sources recorded is kept exactly when none of it goes by a reported key. */
  lemma OthersAreKeptIff(before: Nodes, after: Nodes, host: string, rows: seq<Row>)
    requires Reconciled(before, after, host, rows)
    ensures OthersKept(before, after, host)
            <==> forall k | k in before && !IsOwn(before[k], host) :: k !in RowKeys(rows)
  {
  }

  predicate Lacks(s: string, c: char) { c !in s }

  lemma SplitsAtFirst(a: string, x: string, b: string, y: string, c: char)
    requires Lacks(a, c) && Lacks(b, c) && a + ([c] + x) == b + ([c] + y)
    ensures a == b && x == y
  {
    var s := a + ([c] + x);
    assert s[|a|] == c && s[|b|] == c;
    assert forall i | 0 <= i < |a| :: s[i] == a[i] && a[i] in a;
    assert forall i | 0 <= i < |b| :: s[i] == b[i] && b[i] in b;
    assert a == s[..|a|] && b == s[..|b|];
    assert x == s[|a| + 1..] && y == s[|b| + 1..];
  }

  /** Host ids without `|` and protocols without `/` make keys unambiguous. */
  lemma KeysTellApart(h1: string, s1: Svc, h2: string, s2: Svc)
    requires s1.port.Some? && s2.port.Some? && KeyOf(h1, s1) == KeyOf(h2, s2)
    requires Lacks(h1, '|') && Lacks(h2, '|') && Lacks(s1.proto, '/') && Lacks(s2.proto, '/')
    ensures h1 == h2 && s1.proto == s2.proto && s1.port == s2.port && s1.process == s2.process
  {
    var d1, d2 := Decimal(s1.port.value), Decimal(s2.port.value);
    SplitsAtFirst(h1, s1.proto + ("/" + (d1 + ("|" + s1.process))), h2, s2.proto + ("/" + (d2 + ("|" + s2.process))),
                  '|');
    SplitsAtFirst(s1.proto, d1 + ("|" + s1.process), s2.proto, d2 + ("|" + s2.process), '/');
    SplitsAtFirst(d1, s1.process, d2, s2.process, '|');
    DecimalIsInjective(s1.port.value, s2.port.value);
  }

  /** Nodes as the tool records them: keyed by their own host and a service with a port. */
  ghost predicate Keyed(nodes: Nodes) {
    forall k | k in nodes ::
        nodes[k].source == SOURCE && nodes[k].svc.port.Some? && k == KeyOf(nodes[k].host, nodes[k].svc)
                             && Lacks(nodes[k].host, '|') && Lacks(nodes[k].svc.proto, '/')
  }

  /** With such keys a report never touches another host's services. */
  lemma OtherHostsAreKept(before: Nodes, after: Nodes, host: string, reported: seq<Svc>, skipTransient: bool)
    requires Reconciled(before, after, host, RowsOf(host, reported, skipTransient)) && Keyed(before)
    requires Lacks(host, '|') && forall s | s in reported :: Lacks(s.proto, '/')
    ensures OthersKept(before, after, host)
  {
    var rows := RowsOf(host, reported, skipTransient);
    forall k | k in before && !IsOwn(before[k], host) ensures k !in RowKeys(rows) {
      if r :| r in rows && r.key == k {
        RowsAreTheServices(host, reported, skipTransient, r);
        var s :| s in reported && Judge(s, skipTransient) == Service && r == RowOf(host, s);
        KeysTellApart(host, s, before[k].host, before[k].svc);
      }
    }
    OthersAreKeptIff(before, after, host, rows);
  }

  // ---------- a report that was shrunk ----------

  /** What a row of the printed report says. */
  type Reading = OutputBudget.Service -> Svc

  function Read(services: seq<OutputBudget.Service>, read: Reading): seq<Svc> {
    seq(|services|, i requires 0 <= i < |services| => read(services[i]))
  }

  /** The keys of the services listening on a host. */
  ghost function Live(host: string, v: OutputBudget.Report, read: Reading, skipTransient: bool): set<string> {
    RowKeys(RowsOf(host, Read(v.services, read), skipTransient))
  }

  lemma {:induction false} ReadHas(services: seq<OutputBudget.Service>, read: Reading, s: OutputBudget.Service)
    requires s in services
    ensures read(s) in Read(services, read)
  {
    var i :| 0 <= i < |services| && services[i] == s;
    assert Read(services, read)[i] == read(s);
  }

  /** A key is live exactly when some listed service that is recorded goes by it. */
  lemma LiveMeans(host: string, v: OutputBudget.Report, read: Reading, skipTransient: bool, k: string)
    ensures k in Live(host, v, read, skipTransient) <==>
            exists s :: s in v.services && Judge(read(s), skipTransient) == Service && k == KeyOf(host, read(s))
  {
    var told := Read(v.services, read);
    var rows := RowsOf(host, told, skipTransient);
    if r :| r in rows && r.key == k {
      RowsAreTheServices(host, told, skipTransient, r);
      var x :| x in told && Judge(x, skipTransient) == Service && r == RowOf(host, x);
      var i :| 0 <= i < |told| && told[i] == x;
      assert v.services[i] in v.services && read(v.services[i]) == x;
    }
    if s :| s in v.services && Judge(read(s), skipTransient) == Service && k == KeyOf(host, read(s)) {
      ReadHas(v.services, read, s);
      RowsAreTheServices(host, told, skipTransient, RowOf(host, read(s)));
      assert RowOf(host, read(s)) in rows;
    }
  }

  /** Some rung of the ladder names the key and fits. */
  ghost predicate FitsWithKey(host: string, v: OutputBudget.Report, size: OutputBudget.Report -> nat, read: Reading,
                              skipTransient: bool, k: string) {
    exists x :: x in OutputBudget.Rungs(v) && OutputBudget.Fits(x, size) && k in Live(host, x, read, skipTransient)
  }

  lemma KeyIsListedIff(host: string, v: OutputBudget.Report, r: OutputBudget.Report, size: OutputBudget.Report -> nat,
                       read: Reading, skipTransient: bool, k: string)
    requires OutputBudget.IsFirstFit(r, OutputBudget.Rungs(v), size)
    ensures k in Live(host, r, read, skipTransient) <==> FitsWithKey(host, v, size, read, skipTransient, k)
  {
    if k in Live(host, r, read, skipTransient) {
      LiveMeans(host, r, read, skipTransient, k);
      if !OutputBudget.Fits(r, size) { OutputBudget.UnfitIsEmpty(v, r, size); }
    }
    if x :| x in OutputBudget.Rungs(v) && OutputBudget.Fits(x, size) && k in Live(host, x, read, skipTransient) {
      LiveMeans(host, x, read, skipTransient, k);
      OutputBudget.FitsBelow(v, r, size, x);
      LiveMeans(host, r, read, skipTransient, k);
    }
  }

  /** Shrinks a report and records it. The service of a live key is there afterwards exactly when some
      rung of the ladder of ever smaller reports names the key and fits. */
  method ShrinkAndIngest(g: Graph, host: string, v: OutputBudget.Report, size: OutputBudget.Report -> nat,
                         read: Reading, skipTransient: bool)
    returns (r: OutputBudget.Report, ok: bool)
    modifies g`services, g`edges
    ensures OutputBudget.IsFirstFit(r, OutputBudget.Rungs(v), size)
    ensures ok <==> host in g.hosts
    ensures ok ==> Reconciled(old(g.services), g.services, host, RowsOf(host, Read(r.services, read), skipTransient))
    ensures ok ==> forall k ::
              k in g.services && IsOwn(g.services[k], host) <==> FitsWithKey(host, v, size, read, skipTransient, k)
  {
    r := OutputBudget.FitBudget(v, size);
    ok := g.IngestServices(host, Read(r.services, read), skipTransient);
    forall k ensures k in Live(host, r, read, skipTransient) <==> FitsWithKey(host, v, size, read, skipTransient, k) {
      KeyIsListedIff(host, v, r, size, read, skipTransient, k);
    }
  }

  // ---------- live services that lose their nodes ----------

  /** Every service is recorded, each under its own key. */
  ghost predicate OneKeyEach(host: string, services: seq<OutputBudget.Service>, read: Reading, skipTransient: bool) {
    && (forall s | s in services :: Judge(read(s), skipTransient) == Service)
    && (forall s, t | s in services && t in services && KeyOf(host, read(s)) == KeyOf(host, read(t)) :: s == t)
  }

  /** Where the rows of a host's services alone exceed the budget, some service that goes on listening
      is without a node afterwards, although the report says that it dropped services. */
  lemma LiveServiceIsRemoved(v: OutputBudget.Report, r: OutputBudget.Report, size: OutputBudget.Report -> nat,
                             read: Reading, before: Nodes, after: Nodes, host: string, skipTransient: bool)
    returns (k: string)
    requires OutputBudget.CountsRows(size) && OutputBudget.RowsLength(v.services) > OutputBudget.OUTPUT_BUDGET
    requires Collections.AllDistinct(v.services) && OneKeyEach(host, v.services, read, skipTransient)
    requires OutputBudget.IsFirstFit(r, OutputBudget.Rungs(v), size)
    requires Reconciled(before, after, host, RowsOf(host, Read(r.services, read), skipTransient))
    ensures k in Live(host, v, read, skipTransient) && !(k in after && IsOwn(after[k], host))
            && OutputBudget.SaysDropped(r)
  {
    var s := OutputBudget.LongReportDropsAService(v, r, size);
    k := KeyOf(host, read(s));
    LiveMeans(host, v, read, skipTransient, k);
    LiveMeans(host, r, read, skipTransient, k);
    OutputBudget.AnswerIsHonest(v, r, size);
    forall t | t in r.services && Judge(read(t), skipTransient) == Service ensures KeyOf(host, read(t)) != k {
      assert t in v.services;
    }
  }

  // ---------- an instance ----------

  function Padding(n: nat): (p: string)
    ensures |p| == n
  {
    seq(n, _ => 'x')
  }

  function BusyRow(i: nat): OutputBudget.Service { OutputBudget.Service(Padding(100) + Decimal(i), false) }

  function BusyRows(n: nat): (r: seq<OutputBudget.Service>)
    ensures |r| == n && forall i | 0 <= i < n :: r[i] == BusyRow(i)
  {
    seq(n, i requires 0 <= i < n => BusyRow(i))
  }

  /** The row is the name of a process that listens on port 22 of every address. */
  function AsProcess(s: OutputBudget.Service): Svc { Svc("tcp", Some(22), s.row, "all", false, "") }

  lemma {:induction false} BusyRowsAreLong(n: nat)
    ensures OutputBudget.RowsLength(BusyRows(n)) >= 100 * n
  {
    if n > 0 {
      BusyRowsAreLong(n - 1);
      assert BusyRows(n)[..n - 1] == BusyRows(n - 1);
    }
  }

  lemma BusyRowsDiffer(i: nat, j: nat)
    requires BusyRow(i) == BusyRow(j)
    ensures i == j
  {
    var p := Padding(100);
    assert (p + Decimal(i))[100..] == Decimal(i) && (p + Decimal(j))[100..] == Decimal(j);
    DecimalIsInjective(i, j);
  }

  lemma SameKeySameRow(host: string, s: OutputBudget.Service, t: OutputBudget.Service)
    requires KeyOf(host, AsProcess(s)) == KeyOf(host, AsProcess(t))
    ensures s.row == t.row
  {
    SameRest(host, "|" + ("tcp" + ("/" + (Decimal(22) + ("|" + s.row)))),
             "|" + ("tcp" + ("/" + (Decimal(22) + ("|" + t.row)))));
    SameRest("|", "tcp" + ("/" + (Decimal(22) + ("|" + s.row))), "tcp" + ("/" + (Decimal(22) + ("|" + t.row))));
    SameRest("tcp", "/" + (Decimal(22) + ("|" + s.row)), "/" + (Decimal(22) + ("|" + t.row)));
    SameRest("/", Decimal(22) + ("|" + s.row), Decimal(22) + ("|" + t.row));
    SameRest(Decimal(22), "|" + s.row, "|" + t.row);
    SameRest("|", s.row, t.row);
  }

  lemma SameRest(a: string, x: string, y: string)
    requires a + x == a + y
    ensures x == y
  {
    assert (a + x)[|a|..] == x && (a + y)[|a|..] == y;
  }

  /** A host with 600 or more services, each printed in a hundred characters or more, loses one for
      every printing that prints the rows. */
  lemma BusyHostLosesAService(n: nat, v: OutputBudget.Report, r: OutputBudget.Report, size: OutputBudget.Report -> nat,
                              before: Nodes, after: Nodes, host: string)
    returns (k: string)
    requires n >= 600 && v.services == BusyRows(n)
    requires OutputBudget.CountsRows(size) && OutputBudget.IsFirstFit(r, OutputBudget.Rungs(v), size)
    requires Reconciled(before, after, host, RowsOf(host, Read(r.services, AsProcess), true))
    ensures k in Live(host, v, AsProcess, true) && !(k in after && IsOwn(after[k], host))
  {
    BusyRowsAreLong(n);
    BusyRowsAreApart(host, n);
    k := LiveServiceIsRemoved(v, r, size, AsProcess, before, after, host, true);
  }

  lemma BusyRowsAreApart(host: string, n: nat)
    ensures Collections.AllDistinct(BusyRows(n)) && OneKeyEach(host, BusyRows(n), AsProcess, true)
  {
    var rows := BusyRows(n);
    forall i, j | 0 <= i < j < |rows| ensures rows[i] != rows[j] {
      if rows[i] == rows[j] { BusyRowsDiffer(i, j); }
    }
    forall s, t | s in rows && t in rows && KeyOf(host, AsProcess(s)) == KeyOf(host, AsProcess(t)) ensures s == t {
      SameKeySameRow(host, s, t);
    }
  }
}
