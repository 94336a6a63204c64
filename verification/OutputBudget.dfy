/** Shrinking a socket inventory until it fits the node's output capture
    (tools/socket-inventory/src/main.rs:226-270). */
module OutputBudget {
  import Collections
  import opened Wrappers

  datatype Service = Service(row: string, ephemeral: bool)

  /** The printed object: its fixed fields, the three lists that can shrink, and the flags that say so. */
  datatype Report = Report(
    head: string,
    connections: Option<seq<string>>, peers: Option<seq<string>>, services: seq<Service>,
    connectionsOmitted: bool, connectionsTruncated: Option<bool>, peersTruncated: bool,
    ephemeralOmitted: Option<nat>, servicesTruncated: bool)

  const OUTPUT_BUDGET := 56 * 1024

  function NonEphemeral(services: seq<Service>): (r: seq<Service>)
    ensures |r| <= |services|
    ensures forall s | s in r :: !s.ephemeral && s in services
  {
    if services == [] then []
    else (if services[0].ephemeral then [] else [services[0]]) + NonEphemeral(services[1..])
  }

  function PeerCount(v: Report): nat { if v.peers.Some? then |v.peers.value| else 0 }

  function DropConnections(v: Report): Report {
    if v.connections.None? then v
    else v.(connections := Some([]), connectionsOmitted := true, connectionsTruncated := Some(true))
  }

  function HalvePeers(v: Report): Report
    requires PeerCount(v) > 0
  {
    v.(peers := Some(v.peers.value[..PeerCount(v) / 2]), peersTruncated := true)
  }

  function DropEphemeral(v: Report): Report {
    var kept := NonEphemeral(v.services);
    v.(services := kept, ephemeralOmitted := Some(|v.services| - |kept|))
  }

  function CutServices(v: Report): Report
    requires v.services != []
  {
    v.(services := v.services[..|v.services| * 3 / 4], servicesTruncated := true)
  }

  // ---------- the ladder of ever smaller reports ----------

  function PeerRungs(v: Report): (r: seq<Report>)
    ensures r != [] && PeerCount(r[|r| - 1]) == 0
    decreases PeerCount(v)
  {
    if PeerCount(v) == 0 then [v] else [v] + PeerRungs(HalvePeers(v))
  }

  function ServiceRungs(v: Report): (r: seq<Report>)
    ensures r != [] && r[|r| - 1].services == []
    decreases |v.services|
  {
    if v.services == [] then [v] else [v] + ServiceRungs(CutServices(v))
  }

  /** The report itself, without connection rows, with ever fewer peers, without ephemeral
      services, with ever fewer services. */
  function Rungs(v: Report): seq<Report> {
    var peerRungs := PeerRungs(DropConnections(v));
    [v] + peerRungs + ServiceRungs(DropEphemeral(peerRungs[|peerRungs| - 1]))
  }

  predicate Fits(v: Report, size: Report -> nat) { size(v) <= OUTPUT_BUDGET }

  /** The first report of a ladder that fits, or its last one. */
  ghost predicate IsFirstFit(r: Report, rungs: seq<Report>, size: Report -> nat) {
    exists i :: 0 <= i < |rungs| && rungs[i] == r
      && (forall j | 0 <= j < i :: !Fits(rungs[j], size))
      && (Fits(r, size) || i == |rungs| - 1)
  }

  /** After rungs that are too large, the next one is the first fit if it fits or is the last. */
  lemma NextAfter(passed: seq<Report>, rest: seq<Report>, rungs: seq<Report>, size: Report -> nat)
    requires rest != [] && AllTooLarge(passed, size) && rungs == passed + rest
    requires Fits(rest[0], size) || |rest| == 1
    ensures IsFirstFit(rest[0], rungs, size)
  {
    assert rungs[|passed|] == rest[0];
    forall j | 0 <= j < |passed| ensures !Fits(rungs[j], size) { assert rungs[j] == passed[j]; }
  }

  ghost predicate AllTooLarge(rungs: seq<Report>, size: Report -> nat) {
    forall x | x in rungs :: !Fits(x, size)
  }

  // ---------- the shrinking loops ----------

  /** Halves the peer list while the report is too large; `passed` are the rungs left behind. */
  method ShrinkPeers(v: Report, size: Report -> nat) returns (r: Report, ghost passed: seq<Report>)
    ensures passed + PeerRungs(r) == PeerRungs(v)
    ensures forall x | x in passed :: !Fits(x, size)
    ensures Fits(r, size) || PeerCount(r) == 0
  {
    r, passed := v, [];
    while !Fits(r, size) && PeerCount(r) > 0
      invariant passed + PeerRungs(r) == PeerRungs(v)
      invariant forall x | x in passed :: !Fits(x, size)
      decreases PeerCount(r)
    {
      Collections.Regroup(passed, [r], PeerRungs(HalvePeers(r)));
      passed := passed + [r];
      r := HalvePeers(r);
    }
  }

  /** Cuts the service list to three quarters while the report is too large. */
  method ShrinkServices(v: Report, size: Report -> nat) returns (r: Report, ghost passed: seq<Report>)
    ensures passed + ServiceRungs(r) == ServiceRungs(v)
    ensures forall x | x in passed :: !Fits(x, size)
    ensures Fits(r, size) || r.services == []
  {
    r, passed := v, [];
    while !Fits(r, size) && r.services != []
      invariant passed + ServiceRungs(r) == ServiceRungs(v)
      invariant forall x | x in passed :: !Fits(x, size)
      decreases |r.services|
    {
      Collections.Regroup(passed, [r], ServiceRungs(CutServices(r)));
      passed := passed + [r];
      r := CutServices(r);
    }
  }

  lemma FitsAmongPeers(v: Report, passed: seq<Report>, r: Report, size: Report -> nat)
    requires !Fits(v, size) && AllTooLarge(passed, size) && Fits(r, size)
    requires passed + PeerRungs(r) == PeerRungs(DropConnections(v))
    ensures IsFirstFit(r, Rungs(v), size)
  {
    var peerRungs, here := PeerRungs(DropConnections(v)), PeerRungs(r);
    var last := ServiceRungs(DropEphemeral(peerRungs[|peerRungs| - 1]));
    Collections.Regroup([v], passed, here);
    Collections.Regroup([v] + passed, here, last);
    assert here[0] == r == (here + last)[0];
    NextAfter([v] + passed, here + last, Rungs(v), size);
  }

  /** The first rung left after a report, and two lists of rungs, that are all too large. */
  lemma FitsAfter(v: Report, a: seq<Report>, b: seq<Report>, rest: seq<Report>, size: Report -> nat)
    requires !Fits(v, size) && AllTooLarge(a, size) && AllTooLarge(b, size)
    requires rest != [] && (Fits(rest[0], size) || |rest| == 1)
    ensures IsFirstFit(rest[0], [v] + a + (b + rest), size)
  {
    Collections.Regroup([v] + a, b, rest);
    NextAfter([v] + a + b, rest, [v] + a + (b + rest), size);
  }

  lemma FitsAmongServices(v: Report, bare: Report, passed: seq<Report>, r: Report, size: Report -> nat)
    requires !Fits(v, size) && AllTooLarge(PeerRungs(DropConnections(v)), size) && AllTooLarge(passed, size)
    requires bare == PeerRungs(DropConnections(v))[|PeerRungs(DropConnections(v))| - 1]
    requires passed + ServiceRungs(r) == ServiceRungs(DropEphemeral(bare))
    requires Fits(r, size) || r.services == []
    ensures IsFirstFit(r, Rungs(v), size)
  {
    FitsAfter(v, PeerRungs(DropConnections(v)), passed, ServiceRungs(r), size);
  }

  /** Answers the first report of the ladder that fits, whatever the size of a report is. */
  method FitBudget(v: Report, size: Report -> nat) returns (r: Report)
    ensures IsFirstFit(r, Rungs(v), size)
    ensures Fits(r, size) || (NoRows(r) && PeerCount(r) == 0 && r.services == [])
  {
    if Fits(v, size) {
      NextAfter([], Rungs(v), Rungs(v), size);
      return v;
    }
    LastRungIsEmpty(v);
    var bare, passed := ShrinkPeers(DropConnections(v), size);
    if Fits(bare, size) {
      FitsAmongPeers(v, passed, bare, size);
      return bare;
    }
    assert PeerRungs(bare) == [bare];
    ghost var dropped;
    r, dropped := ShrinkServices(DropEphemeral(bare), size);
    FitsAmongServices(v, bare, dropped, r, size);
  }

  ghost predicate NoRows(v: Report) { v.connections.None? || v.connections == Some([]) }

  lemma LastRungIsEmpty(v: Report)
    ensures Rungs(v) != []
    ensures var x := Rungs(v)[|Rungs(v)| - 1]; NoRows(x) && PeerCount(x) == 0 && x.services == []
  {
    var peerRungs := PeerRungs(DropConnections(v));
    var x := peerRungs[|peerRungs| - 1];
    PeerRungsShrink(DropConnections(v), x);
    var y := ServiceRungs(DropEphemeral(x));
    ServiceRungsShrink(DropEphemeral(x), y[|y| - 1]);
    assert Rungs(v)[|Rungs(v)| - 1] == y[|y| - 1];
  }

  // ---------- what a rung may have lost, and how it says so ----------

  lemma {:induction false} PeerRungsShrink(v: Report, x: Report)
    requires x in PeerRungs(v)
    ensures x.peers.Some? == v.peers.Some? && (v.peers.Some? ==> x.peers.value <= v.peers.value)
    ensures x.(peers := v.peers, peersTruncated := v.peersTruncated) == v
    ensures x.peers != v.peers ==> x.peersTruncated
    ensures x.peers == v.peers ==> x == v
    decreases PeerCount(v)
  {
    if PeerCount(v) > 0 && x != v { PeerRungsShrink(HalvePeers(v), x); }
  }

  lemma {:induction false} ServiceRungsShrink(v: Report, x: Report)
    requires x in ServiceRungs(v)
    ensures x.services <= v.services
    ensures x.(services := v.services, servicesTruncated := v.servicesTruncated) == v
    ensures x.services != v.services ==> x.servicesTruncated
    ensures x.services == v.services ==> x == v
    decreases |v.services|
  {
    if v.services != [] && x != v { ServiceRungsShrink(CutServices(v), x); }
  }

  /** Each rung of the peer stage keeps the first half of the peers of the one before. */
  lemma {:induction false} PeerRungsHalve(v: Report, i: nat)
    requires i + 1 < |PeerRungs(v)|
    ensures PeerRungs(v)[i].peers.Some?
    ensures var p := PeerRungs(v)[i].peers.value; p != [] && PeerRungs(v)[i + 1].peers == Some(p[..|p| / 2])
    decreases i
  {
    assert PeerRungs(HalvePeers(v))[0] == HalvePeers(v);
    if i > 0 { PeerRungsHalve(HalvePeers(v), i - 1); }
  }

  /** Each rung of the last stage keeps the first three quarters, rounded down, of the services. */
  lemma {:induction false} ServiceRungsCut(v: Report, i: nat)
    requires i + 1 < |ServiceRungs(v)|
    ensures var s := ServiceRungs(v)[i].services; s != [] && ServiceRungs(v)[i + 1].services == s[..|s| * 3 / 4]
    decreases i
  {
    assert ServiceRungs(CutServices(v))[0] == CutServices(v);
    if i > 0 { ServiceRungsCut(CutServices(v), i - 1); }
  }

  /** The order of sacrifice and its flags: connection rows go first, then peers from the end, then
      exactly the ephemeral services, then services from the end, and each loss sets its flag. */
  ghost predicate Honest(v: Report, x: Report) {
    && x.head == v.head
    && (x.connections == v.connections
        || (x.connections == Some([]) && x.connectionsOmitted && x.connectionsTruncated == Some(true)))
    && x.peers.Some? == v.peers.Some?
    && (v.peers.Some? ==> x.peers.value <= v.peers.value)
    && (x.peers != v.peers ==> NoRows(x) && x.peersTruncated)
    && (x.services == v.services
        || (&& NoRows(x) && PeerCount(x) == 0
            && x.services <= NonEphemeral(v.services)
            && x.ephemeralOmitted == Some(|v.services| - |NonEphemeral(v.services)|)
            && (x.services != NonEphemeral(v.services) ==> x.servicesTruncated)))
  }

  lemma PeerRungIsHonest(v: Report, x: Report)
    requires x in PeerRungs(DropConnections(v))
    ensures Honest(v, x) && NoRows(x) && x.services == v.services
  {
    PeerRungsShrink(DropConnections(v), x);
  }

  lemma ServiceRungIsHonest(v: Report, last: Report, x: Report)
    requires last in PeerRungs(DropConnections(v)) && PeerCount(last) == 0
    requires x in ServiceRungs(DropEphemeral(last))
    ensures Honest(v, x)
  {
    PeerRungIsHonest(v, last);
    ServiceRungsShrink(DropEphemeral(last), x);
  }

  lemma RungsAreHonest(v: Report, x: Report)
    requires x in Rungs(v)
    ensures Honest(v, x)
  {
    var peerRungs := PeerRungs(DropConnections(v));
    var last := peerRungs[|peerRungs| - 1];
    if x in peerRungs {
      PeerRungIsHonest(v, x);
    } else if x != v {
      ServiceRungIsHonest(v, last, x);
    }
  }

  /** Where the answer stands on the ladder. */
  lemma FirstFitIndex(v: Report, r: Report, size: Report -> nat) returns (i: nat)
    requires IsFirstFit(r, Rungs(v), size)
    ensures i < |Rungs(v)| && Rungs(v)[i] == r && forall j | 0 <= j < i :: !Fits(Rungs(v)[j], size)
  {
    i :| 0 <= i < |Rungs(v)| && Rungs(v)[i] == r && (forall j | 0 <= j < i :: !Fits(Rungs(v)[j], size))
         && (Fits(r, size) || i == |Rungs(v)| - 1);
  }

  lemma RungAt(v: Report, i: nat)
    requires i < |Rungs(v)|
    ensures var n := |PeerRungs(DropConnections(v))|;
            && n >= 1 && Rungs(v)[0] == v && Rungs(v)[1] == DropConnections(v)
            && (1 <= i <= n ==> Rungs(v)[i] == PeerRungs(DropConnections(v))[i - 1])
            && Rungs(v)[n] == PeerRungs(DropConnections(v))[n - 1]
  {
  }

  lemma {:induction false} KeptWhole(services: seq<Service>)
    requires |NonEphemeral(services)| == |services|
    ensures NonEphemeral(services) == services
  {
    if services != [] {
      KeptWhole(services[1..]);
    }
  }

  /** The report says that it dropped services. */
  predicate SaysDropped(r: Report) { r.servicesTruncated || (r.ephemeralOmitted.Some? && r.ephemeralOmitted.value > 0) }

  /** A rung that lost services says so. */
  lemma LossIsSaid(v: Report, x: Report)
    requires Honest(v, x) && x.services != v.services
    ensures SaysDropped(x)
  {
    if |NonEphemeral(v.services)| == |v.services| { KeptWhole(v.services); }
  }

  /** The answer loses nothing silently, and peers only when dropping the connection rows was not enough. */
  lemma AnswerIsHonest(v: Report, r: Report, size: Report -> nat)
    requires IsFirstFit(r, Rungs(v), size)
    ensures Honest(v, r)
    ensures r.services != v.services ==> SaysDropped(r)
    ensures r != v ==> !Fits(v, size)
    ensures r.peers != v.peers ==> !Fits(DropConnections(v), size)
  {
    var i := FirstFitIndex(v, r, size);
    RungsAreHonest(v, r);
    RungAt(v, i);
    if r.services != v.services { LossIsSaid(v, r); }
  }

  lemma EarlyRungKeepsServices(v: Report, i: nat)
    requires i <= |PeerRungs(DropConnections(v))|
    ensures i < |Rungs(v)| && Rungs(v)[i].services == v.services
  {
    var peerRungs := PeerRungs(DropConnections(v));
    assert i > 0 ==> Rungs(v)[i] == peerRungs[i - 1];
    if i > 0 { PeerRungIsHonest(v, peerRungs[i - 1]); }
  }

  /** Services are lost only when the report without rows and peers but with all services did not fit. */
  lemma ServicesGoLast(v: Report, r: Report, size: Report -> nat) returns (x: Report)
    requires IsFirstFit(r, Rungs(v), size) && r.services != v.services
    ensures Honest(v, x) && NoRows(x) && PeerCount(x) == 0 && x.services == v.services && !Fits(x, size)
  {
    var i := FirstFitIndex(v, r, size);
    var peerRungs := PeerRungs(DropConnections(v));
    if i <= |peerRungs| { EarlyRungKeepsServices(v, i); }
    x := peerRungs[|peerRungs| - 1];
    PeerRungIsHonest(v, x);
    assert Rungs(v)[|peerRungs|] == x;
  }

  // ---------- which services are still listed ----------

  lemma {:induction false} ServiceRungsFewer(v: Report, i: nat, j: nat)
    requires i <= j < |ServiceRungs(v)|
    ensures ServiceRungs(v)[j].services <= ServiceRungs(v)[i].services
    decreases i
  {
    if i == 0 {
      ServiceRungsShrink(v, ServiceRungs(v)[j]);
    } else {
      ServiceRungsFewer(CutServices(v), i - 1, j - 1);
    }
  }

  ghost predicate Among(a: seq<Service>, b: seq<Service>) { forall s | s in a :: s in b }

  /** The rungs after the peer stage, counted from the first without ephemeral services. */
  lemma LaterRung(v: Report, i: nat)
    requires |PeerRungs(DropConnections(v))| < i < |Rungs(v)|
    ensures var n := |PeerRungs(DropConnections(v))|;
            var late := ServiceRungs(DropEphemeral(PeerRungs(DropConnections(v))[n - 1]));
            i - 1 - n < |late| && Rungs(v)[i] == late[i - 1 - n]
  {
  }

  lemma LateRungIsAmong(v: Report, i: nat)
    requires |PeerRungs(DropConnections(v))| < i < |Rungs(v)|
    ensures Among(Rungs(v)[i].services, v.services)
  {
    RungsAreHonest(v, Rungs(v)[i]);
  }

  /** Further down the ladder no service comes back. */
  lemma RungsListFewer(v: Report, i: nat, j: nat)
    requires i <= j < |Rungs(v)|
    ensures Among(Rungs(v)[j].services, Rungs(v)[i].services)
  {
    var n := |PeerRungs(DropConnections(v))|;
    if j <= n {
      EarlyRungKeepsServices(v, i);
      EarlyRungKeepsServices(v, j);
    } else if i <= n {
      EarlyRungKeepsServices(v, i);
      LateRungIsAmong(v, j);
    } else {
      LaterRung(v, i);
      LaterRung(v, j);
      ServiceRungsFewer(DropEphemeral(PeerRungs(DropConnections(v))[n - 1]), i - 1 - n, j - 1 - n);
    }
  }

  /** Some rung of the ladder lists the service and fits. */
  ghost predicate FitsWith(v: Report, size: Report -> nat, s: Service) {
    exists x :: x in Rungs(v) && Fits(x, size) && s in x.services
  }

  lemma FitsBelow(v: Report, r: Report, size: Report -> nat, x: Report)
    requires IsFirstFit(r, Rungs(v), size) && x in Rungs(v) && Fits(x, size)
    ensures Fits(r, size) && Among(x.services, r.services)
  {
    var i := FirstFitIndex(v, r, size);
    var j :| 0 <= j < |Rungs(v)| && Rungs(v)[j] == x;
    RungsListFewer(v, i, j);
    if !Fits(r, size) { LastRungDoesNotFit(v, r, size, j); }
  }

  lemma LastRungDoesNotFit(v: Report, r: Report, size: Report -> nat, j: nat)
    requires IsFirstFit(r, Rungs(v), size) && !Fits(r, size) && j < |Rungs(v)|
    ensures !Fits(Rungs(v)[j], size)
  {
    var i :| 0 <= i < |Rungs(v)| && Rungs(v)[i] == r && (forall j | 0 <= j < i :: !Fits(Rungs(v)[j], size))
             && (Fits(r, size) || i == |Rungs(v)| - 1);
  }

  lemma UnfitIsEmpty(v: Report, r: Report, size: Report -> nat)
    requires IsFirstFit(r, Rungs(v), size) && !Fits(r, size)
    ensures r == Rungs(v)[|Rungs(v)| - 1] && r.services == []
  {
    LastRungIsEmpty(v);
  }

  /** A service is still listed exactly when some rung of the ladder lists it and fits. */
  lemma ServiceIsListedIff(v: Report, r: Report, size: Report -> nat, s: Service)
    requires IsFirstFit(r, Rungs(v), size)
    ensures s in r.services <==> FitsWith(v, size, s)
  {
    if s in r.services {
      if !Fits(r, size) { UnfitIsEmpty(v, r, size); }
    }
    if x :| x in Rungs(v) && Fits(x, size) && s in x.services { FitsBelow(v, r, size, x); }
  }

  /** All services are still listed exactly when there are none or a rung with all of them fits. */
  lemma AllAreListedIff(v: Report, r: Report, size: Report -> nat)
    requires IsFirstFit(r, Rungs(v), size)
    ensures r.services == v.services <==>
            v.services == [] || exists x :: x in Rungs(v) && x.services == v.services && Fits(x, size)
  {
    if r.services == v.services && v.services != [] && !Fits(r, size) { UnfitIsEmpty(v, r, size); }
    if v.services == [] {
      AnswerIsHonest(v, r, size);
    }
    if x :| x in Rungs(v) && x.services == v.services && Fits(x, size) {
      var i := FirstFitIndex(v, r, size);
      var j :| 0 <= j < |Rungs(v)| && Rungs(v)[j] == x;
      SandwichedServices(v, i, j);
    }
  }

  lemma SandwichedServices(v: Report, i: nat, j: nat)
    requires i <= j < |Rungs(v)| && Rungs(v)[j].services == v.services
    ensures Rungs(v)[i].services == v.services
  {
    var n := |PeerRungs(DropConnections(v))|;
    if i <= n {
      EarlyRungKeepsServices(v, i);
    } else {
      LaterRung(v, i);
      LaterRung(v, j);
      var late := DropEphemeral(PeerRungs(DropConnections(v))[n - 1]);
      ServiceRungsFewer(late, i - 1 - n, j - 1 - n);
      RungsAreHonest(v, Rungs(v)[i]);
    }
  }

  // ---------- reports that are too long for their services ----------

  /** The length of the service rows alone. */
  function RowsLength(services: seq<Service>): nat {
    if services == [] then 0 else RowsLength(services[..|services| - 1]) + |services[|services| - 1].row|
  }

  /** A printed report is at least as long as its service rows. */
  ghost predicate CountsRows(size: Report -> nat) { forall x :: size(x) >= RowsLength(x.services) }

  lemma AmongIsNoLonger(a: seq<Service>, b: seq<Service>)
    requires Collections.AllDistinct(a) && Among(a, b)
    ensures |a| <= |b|
  {
    Collections.DistinctSize(a);
    Collections.SubsetSize(Collections.Elems(a), Collections.Elems(b));
    ElemsAreNoMore(b);
  }

  lemma {:induction false} ElemsAreNoMore(b: seq<Service>)
    ensures |Collections.Elems(b)| <= |b|
  {
    if b != [] {
      ElemsAreNoMore(b[..|b| - 1]);
      assert b == b[..|b| - 1] + [b[|b| - 1]];
      assert Collections.Elems(b) == Collections.Elems(b[..|b| - 1]) + {b[|b| - 1]};
    }
  }

  /** When the rows of different services alone exceed the budget, one of them is not listed. */
  lemma LongReportDropsAService(v: Report, r: Report, size: Report -> nat) returns (s: Service)
    requires IsFirstFit(r, Rungs(v), size) && CountsRows(size)
    requires RowsLength(v.services) > OUTPUT_BUDGET && Collections.AllDistinct(v.services)
    ensures s in v.services && s !in r.services && SaysDropped(r)
  {
    AllAreListedIff(v, r, size);
    AnswerIsHonest(v, r, size);
    assert r.services != v.services;
    if Among(v.services, r.services) {
      AmongIsNoLonger(v.services, r.services);
      KeptWhole(v.services);
      assert false;
    }
    s :| s in v.services && s !in r.services;
  }

  // ---------- what a report loses, and what it then says ----------

  function Stays(): Service -> bool { (s: Service) => !s.ephemeral }

  function Goes(): Service -> bool { (s: Service) => s.ephemeral }

  /** Dropping the ephemeral services keeps the others, in order and as often as they occur. */
  lemma {:induction false} NonEphemeralIsFilter(services: seq<Service>)
    ensures NonEphemeral(services) == Collections.Filter(services, Stays())
    ensures |services| - |NonEphemeral(services)| == |Collections.Filter(services, Goes())|
  {
    if services != [] {
      var rest := services[1..];
      NonEphemeralIsFilter(rest);
      assert services == [services[0]] + rest;
      Collections.FilterAppend([services[0]], rest, Stays());
      Collections.FilterAppend([services[0]], rest, Goes());
      Collections.FilterOne(services[0], Stays());
      Collections.FilterOne(services[0], Goes());
    }
  }

  ghost predicate NoPeers(x: Report) { x.peers.None? || x.peers == Some([]) }

  /** Head and lists are those of the report but for connection rows dropped whole, peers cut from the
      end, ephemeral services dropped whole and the others then cut from the end, each only when what
      comes before it is gone; the flags and the count say exactly what was lost. */
  ghost predicate Exact(v: Report, x: Report) {
    var stay, gone := Collections.Filter(v.services, Stays()), |Collections.Filter(v.services, Goes())|;
    && x.head == v.head
    && ((x.connections == v.connections && x.connectionsOmitted == v.connectionsOmitted
         && x.connectionsTruncated == v.connectionsTruncated)
        || (v.connections.Some? && x.connections == Some([]) && x.connectionsOmitted
            && x.connectionsTruncated == Some(true)))
    && ((x.peers == v.peers && x.peersTruncated == v.peersTruncated)
        || (NoRows(x) && v.peers.Some? && x.peers.Some? && x.peers.value <= v.peers.value && x.peers != v.peers
            && x.peersTruncated))
    && ((x.services == v.services && x.ephemeralOmitted == v.ephemeralOmitted
         && x.servicesTruncated == v.servicesTruncated)
        || (NoRows(x) && NoPeers(x) && x.ephemeralOmitted == Some(gone)
            && ((x.services == stay && x.servicesTruncated == v.servicesTruncated)
                || (x.services < stay && x.servicesTruncated))))
  }

  lemma PeerRungIsExact(v: Report, x: Report)
    requires x in PeerRungs(DropConnections(v))
    ensures Exact(v, x) && NoRows(x) && x.services == v.services
    ensures x.ephemeralOmitted == v.ephemeralOmitted && x.servicesTruncated == v.servicesTruncated
  {
    PeerRungsShrink(DropConnections(v), x);
  }

  lemma LastPeerRung(v: Report)
    ensures var rungs := PeerRungs(v); NoPeers(rungs[|rungs| - 1])
  {
  }

  lemma ServiceRungIsExact(v: Report, last: Report, x: Report)
    requires last in PeerRungs(DropConnections(v)) && NoPeers(last) && x in ServiceRungs(DropEphemeral(last))
    ensures Exact(v, x)
  {
    PeerRungIsExact(v, last);
    NonEphemeralIsFilter(v.services);
    ServiceRungsShrink(DropEphemeral(last), x);
  }

  lemma RungsAreExact(v: Report, x: Report)
    requires x in Rungs(v)
    ensures Exact(v, x)
  {
    var peerRungs := PeerRungs(DropConnections(v));
    LastPeerRung(DropConnections(v));
    if x in peerRungs {
      PeerRungIsExact(v, x);
    } else if x != v {
      ServiceRungIsExact(v, peerRungs[|peerRungs| - 1], x);
    }
  }

  /** The answer fits in 56 KiB or has nothing left to lose, is the report itself if that fits, and
      unless it says that services were truncated still lists every service that is not ephemeral, in
      order and as often. */
  lemma AnswerTells(v: Report, r: Report, size: Report -> nat)
    requires IsFirstFit(r, Rungs(v), size)
    ensures Exact(v, r)
    ensures size(r) <= 57344 || (NoRows(r) && NoPeers(r) && r.services == [])
    ensures size(v) <= 57344 ==> r == v
    ensures !r.servicesTruncated ==> Collections.Filter(r.services, Stays()) == Collections.Filter(v.services, Stays())
    ensures !r.servicesTruncated ==>
              forall s: Service | !s.ephemeral :: multiset(r.services)[s] == multiset(v.services)[s]
  {
    var i := FirstFitIndex(v, r, size);
    RungsAreExact(v, r);
    AnswerIsHonest(v, r, size);
    if !Fits(r, size) { LastIsBare(v, r, size); }
    FilterTwice(v.services);
    forall s: Service | !s.ephemeral && !r.servicesTruncated
      ensures multiset(r.services)[s] == multiset(v.services)[s] {
      Collections.FilterKeeps(v.services, Stays(), s);
      Collections.FilterKeeps(r.services, Stays(), s);
    }
  }

  lemma LastIsBare(v: Report, r: Report, size: Report -> nat)
    requires IsFirstFit(r, Rungs(v), size) && !Fits(r, size)
    ensures NoRows(r) && NoPeers(r) && r.services == []
  {
    UnfitIsEmpty(v, r, size);
    LastRungIsEmpty(v);
    var peerRungs := PeerRungs(DropConnections(v));
    var last := peerRungs[|peerRungs| - 1];
    LastPeerRung(DropConnections(v));
    var y := ServiceRungs(DropEphemeral(last));
    assert r == y[|y| - 1];
    ServiceRungsShrink(DropEphemeral(last), r);
  }

  lemma {:induction false} FilterTwice(services: seq<Service>)
    ensures Collections.Filter(Collections.Filter(services, Stays()), Stays()) == Collections.Filter(services, Stays())
  {
    if services != [] {
      var init, last := services[..|services| - 1], services[|services| - 1];
      FilterTwice(init);
      Collections.FilterAppend(Collections.Filter(init, Stays()), if Stays()(last) then [last] else [], Stays());
      Collections.FilterOne(last, Stays());
    }
  }
}
