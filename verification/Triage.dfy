/** Capped accumulation of log findings and public addresses
    (tools/log-triage/src/main.rs:176-245, 381-517, 631-665). */
module Triage {
  import Collections
  import opened Text
  import opened Wrappers

  datatype Severity = High | Medium | Info

  datatype Finding = Finding(detector: string, severity: Severity, path: string, line: nat, excerpt: string)

  datatype IpStat = IpStat(count: nat, path: string, line: nat, excerpt: string)

  /** One address met in one line. */
  datatype Sighting = Sighting(ip: string, path: string, line: nat, excerpt: string)

  const MAX_DISTINCT_IPS := 4096
  const PUBLIC_IPS_TOP := 20
  const ERROR_BURST_THRESHOLD := 10
  const ERROR_BURST_FIRST_LINES := 3
  const DET_ERROR_BURST := "error-burst"
  const DET_IOC_IP := "ioc-ip"
  const DETECTORS := ["auth-failure", "privilege", "ioc-suspicious-cmd", "secret-in-log", DET_ERROR_BURST, DET_IOC_IP]

  // ---------- what an uncapped run would hold ----------

  function Cap<T>(s: seq<T>, n: nat): (r: seq<T>)
    ensures r <= s && |r| == if |s| <= n then |s| else n
  {
    if |s| <= n then s else s[..n]
  }

  function Of(all: seq<Finding>, sev: Severity): seq<Finding> {
    if all == [] then []
    else Of(all[..|all| - 1], sev) + if all[|all| - 1].severity == sev then [all[|all| - 1]] else []
  }

  function DetectorCount(all: seq<Finding>, d: string): nat {
    if all == [] then 0 else DetectorCount(all[..|all| - 1], d) + if all[|all| - 1].detector == d then 1 else 0
  }

  /** The addresses seen, in the order of their first sighting. */
  function Distinct(seen: seq<Sighting>): seq<string> {
    if seen == [] then []
    else
      var before, ip := Distinct(seen[..|seen| - 1]), seen[|seen| - 1].ip;
      if ip in before then before else before + [ip]
  }

  function SightingCount(seen: seq<Sighting>, ip: string): nat {
    if seen == [] then 0 else SightingCount(seen[..|seen| - 1], ip) + if seen[|seen| - 1].ip == ip then 1 else 0
  }

  ghost predicate FirstSighting(seen: seq<Sighting>, ip: string, st: IpStat) {
    exists k :: 0 <= k < |seen| && seen[k] == Sighting(ip, st.path, st.line, st.excerpt)
      && forall j | 0 <= j < k :: seen[j].ip != ip
  }

  lemma {:induction false} DistinctIsASet(seen: seq<Sighting>)
    ensures forall i, j | 0 <= i < j < |Distinct(seen)| :: Distinct(seen)[i] != Distinct(seen)[j]
    ensures forall ip :: ip in Distinct(seen) <==> exists k :: 0 <= k < |seen| && seen[k].ip == ip
  {
    if seen != [] {
      var init, last := seen[..|seen| - 1], seen[|seen| - 1];
      DistinctIsASet(init);
      assert seen == init + [last];
      forall ip ensures ip in Distinct(seen) <==> exists k :: 0 <= k < |seen| && seen[k].ip == ip {
        if ip in Distinct(init) { var k :| 0 <= k < |init| && init[k].ip == ip; assert seen[k].ip == ip; }
        if ip == last.ip { assert seen[|seen| - 1].ip == ip; }
        if k :| 0 <= k < |seen| && seen[k].ip == ip { assert k < |init| ==> init[k].ip == ip; }
      }
    }
  }

  lemma {:induction false} NoSightingNoCount(seen: seq<Sighting>, ip: string)
    requires ip !in Distinct(seen)
    ensures SightingCount(seen, ip) == 0
  {
    if seen != [] { NoSightingNoCount(seen[..|seen| - 1], ip); }
  }

  // ---------- totals ----------

  ghost function Pick(ds: set<string>): string
    requires ds != {}
    ensures Pick(ds) in ds
  {
    var d :| d in ds; d
  }

  /** The sum of a counter table. */
  ghost function SumOver(m: map<string, nat>, ds: set<string>): nat
    requires ds <= m.Keys
  {
    if ds == {} then 0 else m[Pick(ds)] + SumOver(m, ds - {Pick(ds)})
  }

  lemma {:induction false} SumAddsOne(m: map<string, nat>, m': map<string, nat>, ds: set<string>, d: string)
    requires ds <= m.Keys && ds <= m'.Keys && (d in ds ==> m'[d] == m[d] + 1)
    requires forall e | e in ds && e != d :: m'[e] == m[e]
    ensures SumOver(m', ds) == SumOver(m, ds) + if d in ds then 1 else 0
  {
    if ds != {} { SumAddsOne(m, m', ds - {Pick(ds)}, d); }
  }

  ghost predicate CountsDetectors(m: map<string, nat>, all: seq<Finding>) {
    && (forall f | f in all :: f.detector in m)
    && (forall d | d in m :: m[d] == DetectorCount(all, d))
  }

  /** Counting by detector and by severity loses and repeats nothing: both tables sum to the number of findings. */
  lemma {:induction false} TablesSumToTotal(m: map<string, nat>, all: seq<Finding>)
    requires CountsDetectors(m, all)
    ensures SumOver(m, m.Keys) == |all|
    ensures |Of(all, High)| + |Of(all, Medium)| + |Of(all, Info)| == |all|
    decreases |all|
  {
    if all == [] {
      SumOfZeros(m, m.Keys);
    } else {
      var init, last := all[..|all| - 1], all[|all| - 1];
      assert all == init + [last];
      var before := map d | d in m :: DetectorCount(init, d);
      TablesSumToTotal(before, init);
      assert before.Keys == m.Keys;
      SumAddsOne(before, m, m.Keys, last.detector);
    }
  }

  lemma {:induction false} SumOfZeros(m: map<string, nat>, ds: set<string>)
    requires ds <= m.Keys && forall d | d in ds :: m[d] == 0
    ensures SumOver(m, ds) == 0
  {
    if ds != {} { SumOfZeros(m, ds - {Pick(ds)}); }
  }

  // ---------- the accumulator ----------

  function Bucket(all: seq<Finding>, sev: Severity, max: nat): seq<Finding> { Cap(Of(all, sev), max) }

  lemma BucketStep(all: seq<Finding>, f: Finding, sev: Severity, max: nat)
    ensures var b := Bucket(all, sev, max);
            Bucket(all + [f], sev, max) == if f.severity == sev && |b| < max then b + [f] else b
    ensures |Of(all + [f], sev)| == |Of(all, sev)| + if f.severity == sev then 1 else 0
  {
    assert (all + [f])[..|all|] == all;
  }

  /** Position in the severity array. */
  function Rank(s: Severity): nat { match s case High => 0 case Medium => 1 case Info => 2 }

  ghost predicate CountsSeverities(m: seq<nat>, all: seq<Finding>) {
    m == [|Of(all, High)|, |Of(all, Medium)|, |Of(all, Info)|]
  }

  lemma DetectorStep(m: map<string, nat>, all: seq<Finding>, f: Finding)
    requires CountsDetectors(m, all)
    ensures CountsDetectors(m[f.detector := (if f.detector in m then m[f.detector] else 0) + 1], all + [f])
  {
    assert (all + [f])[..|all|] == all;
    if f.detector !in m { NoFindingNoCount(all, f.detector); }
  }

  lemma {:induction false} NoFindingNoCount(all: seq<Finding>, d: string)
    requires forall f | f in all :: f.detector != d
    ensures DetectorCount(all, d) == 0
  {
    if all != [] {
      assert all[|all| - 1] in all;
      NoFindingNoCount(all[..|all| - 1], d);
    }
  }

  /** Appending from a capped bucket to a capped list is capping the appended whole. */
  lemma TakeRoom(done: seq<Finding>, bucket: seq<Finding>, max: nat)
    ensures var held, room := Cap(done, max), max - |Cap(done, max)|;
            var b := Cap(bucket, max);
            held + b[..if room < |b| then room else |b|] == Cap(done + bucket, max)
  {
  }

  /** The table holds the first `MAX_DISTINCT_IPS` addresses, each with its exact count and first sighting. */
  ghost predicate Tracks(ips: map<string, IpStat>, seen: seq<Sighting>) {
    && ips.Keys == FirstIps(seen)
    && (forall ip | ip in ips :: ips[ip].count == SightingCount(seen, ip) && FirstSighting(seen, ip, ips[ip]))
  }

  lemma FirstSightingStays(seen: seq<Sighting>, s: Sighting, ip: string, st: IpStat, st': IpStat)
    requires FirstSighting(seen, ip, st) && (st'.path, st'.line, st'.excerpt) == (st.path, st.line, st.excerpt)
    ensures FirstSighting(seen + [s], ip, st')
  {
    var t := seen + [s];
    var k :| 0 <= k < |seen| && seen[k] == Sighting(ip, st.path, st.line, st.excerpt)
      && forall j | 0 <= j < k :: seen[j].ip != ip;
    assert t[k] == seen[k] && forall j | 0 <= j < k :: t[j] == seen[j];
  }

  function AddSighting(ips: map<string, IpStat>, s: Sighting): map<string, IpStat> {
    if s.ip in ips then ips[s.ip := ips[s.ip].(count := ips[s.ip].count + 1)]
    else if |ips| < MAX_DISTINCT_IPS then ips[s.ip := IpStat(1, s.path, s.line, s.excerpt)]
    else ips
  }

  ghost function FirstIps(seen: seq<Sighting>): set<string> {
    set ip | ip in Cap(Distinct(seen), MAX_DISTINCT_IPS)
  }

  lemma FirstIpsStep(seen: seq<Sighting>, s: Sighting)
    ensures var before := FirstIps(seen);
            && |before| <= MAX_DISTINCT_IPS
            && (s.ip in before || |before| == MAX_DISTINCT_IPS ==> FirstIps(seen + [s]) == before)
            && (s.ip !in before && |before| < MAX_DISTINCT_IPS ==>
                  FirstIps(seen + [s]) == before + {s.ip} && s.ip !in Distinct(seen))
  {
    var d := Distinct(seen);
    assert (seen + [s])[..|seen|] == seen;
    DistinctIsASet(seen);
    Collections.DistinctSize(Cap(d, MAX_DISTINCT_IPS));
    if |d| < MAX_DISTINCT_IPS {
      assert Cap(d, MAX_DISTINCT_IPS) == d;
      assert Cap(d + [s.ip], MAX_DISTINCT_IPS) == d + [s.ip];
    } else {
      assert Cap(d + [s.ip], MAX_DISTINCT_IPS) == Cap(d, MAX_DISTINCT_IPS);
    }
  }

  lemma CountStep(seen: seq<Sighting>, s: Sighting, ip: string)
    ensures SightingCount(seen + [s], ip) == SightingCount(seen, ip) + if s.ip == ip then 1 else 0
  {
    assert (seen + [s])[..|seen|] == seen;
  }

  lemma NewSighting(seen: seq<Sighting>, s: Sighting)
    requires s.ip !in Distinct(seen)
    ensures SightingCount(seen + [s], s.ip) == 1
    ensures FirstSighting(seen + [s], s.ip, IpStat(1, s.path, s.line, s.excerpt))
  {
    NoSightingNoCount(seen, s.ip);
    CountStep(seen, s, s.ip);
    DistinctIsASet(seen);
    var t := seen + [s];
    assert t[|seen|] == s;
    forall j | 0 <= j < |seen| ensures t[j].ip != s.ip { assert t[j] == seen[j]; }
  }

  lemma TrackingStep(ips: map<string, IpStat>, seen: seq<Sighting>, s: Sighting)
    requires Tracks(ips, seen)
    ensures Tracks(AddSighting(ips, s), seen + [s])
  {
    var t, next := seen + [s], AddSighting(ips, s);
    FirstIpsStep(seen, s);
    assert |ips| == |ips.Keys|;
    assert next.Keys == FirstIps(t);
    forall ip | ip in next ensures next[ip].count == SightingCount(t, ip) && FirstSighting(t, ip, next[ip]) {
      CountStep(seen, s, ip);
      if ip in ips {
        FirstSightingStays(seen, s, ip, ips[ip], next[ip]);
      } else {
        NewSighting(seen, s);
      }
    }
  }

  /** The address table after a run. */
  function IpsOf(seen: seq<Sighting>): map<string, IpStat> {
    if seen == [] then map[] else AddSighting(IpsOf(seen[..|seen| - 1]), seen[|seen| - 1])
  }

  /** Whatever the limit drops, every tracked address has its exact number of sightings and its
      true first one, and the tracked addresses are the first ones met. */
  lemma {:induction false} IpsAreExact(seen: seq<Sighting>)
    ensures Tracks(IpsOf(seen), seen)
  {
    if seen != [] {
      var init := seen[..|seen| - 1];
      IpsAreExact(init);
      TrackingStep(IpsOf(init), init, seen[|seen| - 1]);
      assert init + [seen[|seen| - 1]] == seen;
    }
  }

  /** The counters and buckets of a run. */
  datatype Tally = Tally(high: seq<Finding>, medium: seq<Finding>, info: seq<Finding>, total: nat,
                         bySeverity: seq<nat>, byDetector: map<string, nat>)

  ghost predicate Summarises(t: Tally, all: seq<Finding>, max: nat) {
    && HoldsBuckets(t, all, max)
    && t.total == |all|
    && CountsSeverities(t.bySeverity, all)
    && CountsDetectors(t.byDetector, all)
  }

  function Room(bucket: seq<Finding>, f: Finding, max: nat): seq<Finding> {
    if |bucket| < max then bucket + [f] else bucket
  }

  function Pushed(t: Tally, f: Finding, max: nat): (r: Tally)
    requires |t.bySeverity| == 3
    ensures |r.bySeverity| == 3
  {
    Tally(if f.severity == High then Room(t.high, f, max) else t.high,
          if f.severity == Medium then Room(t.medium, f, max) else t.medium,
          if f.severity == Info then Room(t.info, f, max) else t.info,
          t.total + 1,
          t.bySeverity[Rank(f.severity) := t.bySeverity[Rank(f.severity)] + 1],
          t.byDetector[f.detector := (if f.detector in t.byDetector then t.byDetector[f.detector] else 0) + 1])
  }

  /** The buckets and counters after a run of pushes. */
  function TallyOf(all: seq<Finding>, max: nat): (t: Tally)
    ensures |t.bySeverity| == 3
  {
    if all == [] then Tally([], [], [], 0, [0, 0, 0], map d | d in DETECTORS :: 0)
    else Pushed(TallyOf(all[..|all| - 1], max), all[|all| - 1], max)
  }

  lemma SeverityStep(m: seq<nat>, all: seq<Finding>, f: Finding)
    requires CountsSeverities(m, all)
    ensures CountsSeverities(m[Rank(f.severity) := m[Rank(f.severity)] + 1], all + [f])
  {
    BucketStep(all, f, High, 0);
    BucketStep(all, f, Medium, 0);
    BucketStep(all, f, Info, 0);
  }

  ghost predicate HoldsBuckets(t: Tally, all: seq<Finding>, max: nat) {
    && t.high == Bucket(all, High, max)
    && t.medium == Bucket(all, Medium, max)
    && t.info == Bucket(all, Info, max)
  }

  lemma BucketsStep(t: Tally, all: seq<Finding>, f: Finding, max: nat)
    requires |t.bySeverity| == 3 && HoldsBuckets(t, all, max)
    ensures HoldsBuckets(Pushed(t, f, max), all + [f], max)
  {
    BucketStep(all, f, High, max);
    BucketStep(all, f, Medium, max);
    BucketStep(all, f, Info, max);
  }

  lemma PushKeepsSummary(t: Tally, all: seq<Finding>, f: Finding, max: nat)
    requires Summarises(t, all, max)
    ensures Summarises(Pushed(t, f, max), all + [f], max)
  {
    BucketsStep(t, all, f, max);
    SeverityStep(t.bySeverity, all, f);
    DetectorStep(t.byDetector, all, f);
  }

  lemma TallyStep(all: seq<Finding>, f: Finding, max: nat)
    ensures TallyOf(all + [f], max) == Pushed(TallyOf(all, max), f, max)
  {
    assert (all + [f])[..|all|] == all;
  }

  /** Capping on the way loses nothing: the buckets are the first findings of the uncapped sequences,
      the counters their exact numbers. */
  lemma {:induction false} TallyIsExact(all: seq<Finding>, max: nat)
    ensures Summarises(TallyOf(all, max), all, max)
  {
    if all != [] {
      var init := all[..|all| - 1];
      TallyIsExact(init, max);
      PushKeepsSummary(TallyOf(init, max), init, all[|all| - 1], max);
      assert init + [all[|all| - 1]] == all;
    }
  }

  /** Totals by severity and by detector both sum to the total number of findings. */
  lemma TalliesSum(all: seq<Finding>, max: nat)
    ensures var t := TallyOf(all, max);
            && SumOver(t.byDetector, t.byDetector.Keys) == t.total
            && t.bySeverity[0] + t.bySeverity[1] + t.bySeverity[2] == t.total
  {
    TallyIsExact(all, max);
    TablesSumToTotal(TallyOf(all, max).byDetector, all);
  }

  class Acc {
    const maxFindings: nat
    var high: seq<Finding>
    var medium: seq<Finding>
    var info: seq<Finding>
    var total: nat
    var bySeverity: seq<nat>
    var byDetector: map<string, nat>
    var ips: map<string, IpStat>
    var errorBursts: seq<(string, nat, seq<nat>)>
    var linesScanned: nat
    var filesScanned: nat
    var filesSkipped: nat
    var filesTruncated: bool
    /** Every finding pushed, every address sighted and every file offered so far. */
    ghost var all: seq<Finding>
    ghost var seen: seq<Sighting>
    ghost var offered: seq<LogFile>

    ghost function Counts(): Tally
      reads this
    {
      Tally(high, medium, info, total, bySeverity, byDetector)
    }

    ghost predicate Valid()
      reads this
    {
      Counts() == TallyOf(all, maxFindings) && ips == IpsOf(seen)
    }

    constructor (max: nat)
      ensures Valid() && all == [] && seen == [] && maxFindings == max && linesScanned == 0 && errorBursts == []
      ensures byDetector == map["auth-failure" := 0, "privilege" := 0, "ioc-suspicious-cmd" := 0,
                                "secret-in-log" := 0, "error-burst" := 0, "ioc-ip" := 0]
      ensures filesScanned == filesSkipped == 0 && !filesTruncated && offered == []
    {
      maxFindings := max;
      high, medium, info, total := [], [], [], 0;
      bySeverity := [0, 0, 0];
      byDetector := map d | d in DETECTORS :: 0;
      ips, errorBursts, linesScanned := map[], [], 0;
      filesScanned, filesSkipped, filesTruncated := 0, 0, false;
      all, seen, offered := [], [], [];
    }

    /** Counts a finding; keeps it only while its bucket has room. */
    method Record(f: Finding)
      requires |bySeverity| == 3
      modifies this`high, this`medium, this`info, this`total, this`bySeverity, this`byDetector
      ensures Counts() == Pushed(old(Counts()), f, maxFindings)
    {
      total := total + 1;
      bySeverity := bySeverity[Rank(f.severity) := bySeverity[Rank(f.severity)] + 1];
      byDetector := byDetector[f.detector := (if f.detector in byDetector then byDetector[f.detector] else 0) + 1];
      match f.severity {
        case High => if |high| < maxFindings { high := high + [f]; }
        case Medium => if |medium| < maxFindings { medium := medium + [f]; }
        case Info => if |info| < maxFindings { info := info + [f]; }
      }
    }

    method Push(f: Finding)
      requires Valid()
      modifies this`high, this`medium, this`info, this`total, this`bySeverity, this`byDetector, this`all
      ensures Valid() && all == old(all) + [f]
    {
      TallyStep(all, f, maxFindings);
      Record(f);
      all := all + [f];
    }

    /** Counts a tracked address; starts tracking a new one only below the limit. */
    method AddIp(s: Sighting)
      requires Valid()
      modifies this`ips, this`seen
      ensures Valid() && seen == old(seen) + [s]
    {
      if s.ip in ips {
        ips := ips[s.ip := ips[s.ip].(count := ips[s.ip].count + 1)];
      } else if |ips| < MAX_DISTINCT_IPS {
        ips := ips[s.ip := IpStat(1, s.path, s.line, s.excerpt)];
      }
      seen := seen + [s];
      assert seen[..|seen| - 1] == old(seen);
    }

    method PushAll(fs: seq<Finding>)
      requires Valid()
      modifies this`high, this`medium, this`info, this`total, this`bySeverity, this`byDetector, this`all
      ensures Valid() && all == old(all) + fs
    {
      for i := 0 to |fs|
        invariant Valid() && all == old(all) + fs[..i]
      {
        Push(fs[i]);
        assert fs[..i + 1] == fs[..i] + [fs[i]];
      }
      assert fs[..|fs|] == fs;
    }

    method AddIps(ss: seq<Sighting>)
      requires Valid()
      modifies this`ips, this`seen
      ensures Valid() && seen == old(seen) + ss
    {
      for i := 0 to |ss|
        invariant Valid() && seen == old(seen) + ss[..i]
      {
        AddIp(ss[i]);
        assert ss[..i + 1] == ss[..i] + [ss[i]];
      }
      assert ss[..|ss|] == ss;
    }

    /** High, then medium, then info findings, as many as fit, flagged exactly when some
        are left out or the walk stopped early. */
    method Assemble() returns (findings: seq<Finding>, truncated: bool)
      requires Valid()
      ensures findings == Cap(Of(all, High) + Of(all, Medium) + Of(all, Info), maxFindings)
      ensures truncated <==> filesTruncated || |all| > maxFindings
      ensures |Of(all, High) + Of(all, Medium) + Of(all, Info)| == |all|
    {
      TallyIsExact(all, maxFindings);
      TablesSumToTotal(TallyOf(all, maxFindings).byDetector, all);
      ghost var full := [Of(all, High), Of(all, Medium), Of(all, Info)];
      ConcatOfThree(full);
      findings := Fill([high, medium, info], full, maxFindings);
      truncated := filesTruncated || total > maxFindings;
    }
  }

  function Concat(parts: seq<seq<Finding>>): seq<Finding> {
    if parts == [] then [] else Concat(parts[..|parts| - 1]) + parts[|parts| - 1]
  }

  lemma ConcatOfThree(parts: seq<seq<Finding>>)
    requires |parts| == 3
    ensures Concat(parts) == parts[0] + parts[1] + parts[2]
  {
    assert parts[..2][..1] == [parts[0]] && [parts[0]][..0] == [];
    assert Concat([parts[0]]) == [] + parts[0];
  }

  /** Takes from the capped buckets in turn until `max` findings are held. */
  method Fill(buckets: seq<seq<Finding>>, ghost full: seq<seq<Finding>>, max: nat) returns (findings: seq<Finding>)
    requires |full| == |buckets| && forall b | 0 <= b < |full| :: buckets[b] == Cap(full[b], max)
    ensures findings == Cap(Concat(full), max)
  {
    findings := [];
    var b := 0;
    while b < |buckets|
      invariant 0 <= b <= |buckets|
      invariant findings == Cap(Concat(full[..b]), max)
    {
      var room := max - |findings|;
      if room == 0 {
        NoRoomLeft(full, b, max);
        return;
      }
      TakeRoom(Concat(full[..b]), full[b], max);
      assert full[..b + 1][..b] == full[..b];
      findings := findings + buckets[b][..if room < |buckets[b]| then room else |buckets[b]|];
      b := b + 1;
    }
    assert full[..b] == full;
  }

  lemma {:induction false} NoRoomLeft(full: seq<seq<Finding>>, b: nat, max: nat)
    requires b <= |full| && |Cap(Concat(full[..b]), max)| == max
    ensures Cap(Concat(full), max) == Cap(Concat(full[..b]), max)
  {
    if b == |full| {
      assert full[..b] == full;
    } else {
      var init := full[..|full| - 1];
      assert init[..b] == full[..b];
      NoRoomLeft(init, b, max);
      TakeRoom(Concat(init), full[|full| - 1], max);
    }
  }

  // ---------- one file ----------

  /** What the detectors say about one line; `ts` is its timestamp, if it has one. */
  datatype LineFacts = LineFacts(ts: Option<int>, blank: bool, isError: bool, fired: seq<(string, Severity)>,
                                 ips: seq<string>, excerpt: string)

  /** A file of the host; `lines` is absent when it cannot be read or is not UTF-8. */
  datatype LogFile = LogFile(name: string, path: string, length: nat, lines: Option<seq<LineFacts>>)

  /** Inside the time window that ends at the newest timestamp of the file; without a window or
      without any timestamp every line is. */
  ghost predicate InWindow(lines: seq<LineFacts>, windowSecs: nat, l: LineFacts) {
    || windowSecs == 0
    || (forall k | k in lines :: k.ts.None?)
    || (l.ts.Some? && forall k | k in lines && k.ts.Some? :: k.ts.value - windowSecs <= l.ts.value)
  }

  predicate Kept(cutoff: Option<int>, l: LineFacts) {
    cutoff.None? || (l.ts.Some? && l.ts.value >= cutoff.value)
  }

  /** The newest of two timestamps. */
  function Later(newest: Option<int>, ts: Option<int>): Option<int> {
    if ts.Some? && (newest.None? || ts.value > newest.value) then ts else newest
  }

  function Newest(lines: seq<LineFacts>): Option<int> {
    if lines == [] then None else Later(Newest(lines[..|lines| - 1]), lines[|lines| - 1].ts)
  }

  function CutoffOf(lines: seq<LineFacts>, windowSecs: nat): Option<int> {
    if windowSecs == 0 || Newest(lines).None? then None else Some(Newest(lines).value - windowSecs)
  }

  lemma {:induction false} NewestIsLatest(lines: seq<LineFacts>)
    ensures Newest(lines).None? <==> forall k | k in lines :: k.ts.None?
    ensures Newest(lines).Some? ==> exists k :: k in lines && k.ts == Newest(lines)
    ensures Newest(lines).Some? ==> forall k | k in lines && k.ts.Some? :: k.ts.value <= Newest(lines).value
  {
    if lines != [] {
      var init, last := lines[..|lines| - 1], lines[|lines| - 1];
      assert lines == init + [last];
      NewestIsLatest(init);
    }
  }

  /** The cutoff keeps exactly the lines of the window. */
  lemma CutoffIsWindow(lines: seq<LineFacts>, windowSecs: nat, l: LineFacts)
    ensures Kept(CutoffOf(lines, windowSecs), l) <==> InWindow(lines, windowSecs, l)
  {
    NewestIsLatest(lines);
  }

  method Cutoff(lines: seq<LineFacts>, windowSecs: nat) returns (cutoff: Option<int>)
    ensures cutoff == CutoffOf(lines, windowSecs)
    ensures forall l :: Kept(cutoff, l) <==> InWindow(lines, windowSecs, l)
  {
    forall l ensures Kept(CutoffOf(lines, windowSecs), l) <==> InWindow(lines, windowSecs, l) {
      CutoffIsWindow(lines, windowSecs, l);
    }
    if windowSecs == 0 { return None; }
    var newest: Option<int> := None;
    for i := 0 to |lines|
      invariant newest == Newest(lines[..i])
    {
      assert lines[..i + 1][..i] == lines[..i];
      if lines[i].ts.Some? && (newest.None? || lines[i].ts.value > newest.value) {
        newest := lines[i].ts;
      }
    }
    assert lines[..|lines|] == lines;
    cutoff := if newest.None? then None else Some(newest.value - windowSecs);
  }

  function FindingsOf(l: LineFacts, path: string, line: nat): seq<Finding> {
    seq(|l.fired|, i requires 0 <= i < |l.fired| => Finding(l.fired[i].0, l.fired[i].1, path, line, l.excerpt))
  }

  function SightingsOf(l: LineFacts, path: string, line: nat): seq<Sighting> {
    seq(|l.ips|, i requires 0 <= i < |l.ips| => Sighting(l.ips[i], path, line, l.excerpt))
  }

  predicate Scanned(cutoff: Option<int>, l: LineFacts) { Kept(cutoff, l) && !l.blank }

  function LineFindings(cutoff: Option<int>, l: LineFacts, path: string, line: nat): seq<Finding> {
    if Scanned(cutoff, l) then FindingsOf(l, path, line) else []
  }

  function LineSightings(cutoff: Option<int>, l: LineFacts, path: string, line: nat): seq<Sighting> {
    if Scanned(cutoff, l) then SightingsOf(l, path, line) else []
  }

  function LineErrors(cutoff: Option<int>, l: LineFacts, line: nat): seq<nat> {
    if Scanned(cutoff, l) && l.isError then [line] else []
  }

  /** What the first `n` lines contribute; line numbers start at 1. */
  function FileFindings(lines: seq<LineFacts>, cutoff: Option<int>, path: string, n: nat): seq<Finding>
    requires n <= |lines|
  {
    if n == 0 then []
    else FileFindings(lines, cutoff, path, n - 1)
         + LineFindings(cutoff, lines[n - 1], path, n)
  }

  function FileSightings(lines: seq<LineFacts>, cutoff: Option<int>, path: string, n: nat): seq<Sighting>
    requires n <= |lines|
  {
    if n == 0 then []
    else FileSightings(lines, cutoff, path, n - 1)
         + LineSightings(cutoff, lines[n - 1], path, n)
  }

  function ErrorLines(lines: seq<LineFacts>, cutoff: Option<int>, n: nat): seq<nat>
    requires n <= |lines|
  {
    if n == 0 then []
    else ErrorLines(lines, cutoff, n - 1) + LineErrors(cutoff, lines[n - 1], n)
  }

  function Listed(ns: seq<nat>): string {
    if ns == [] then "" else if |ns| == 1 then Decimal(ns[0]) else Decimal(ns[0]) + ", " + Listed(ns[1..])
  }

  /** The one finding of a file with ten or more error lines. */
  function BurstFindings(path: string, errors: seq<nat>): seq<Finding> {
    if |errors| < ERROR_BURST_THRESHOLD then []
    else [Finding(DET_ERROR_BURST, Medium, path, errors[0],
                  Decimal(|errors|) + " error-class lines in file (first at lines "
                  + Listed(errors[..ERROR_BURST_FIRST_LINES]) + ")")]
  }

  /** How many of the first `n` lines lie in the window. */
  function LinesKept(lines: seq<LineFacts>, cutoff: Option<int>, n: nat): nat
    requires n <= |lines|
  {
    if n == 0 then 0 else LinesKept(lines, cutoff, n - 1) + if Kept(cutoff, lines[n - 1]) then 1 else 0
  }

  method ScanFile(acc: Acc, path: string, lines: seq<LineFacts>, windowSecs: nat)
    requires acc.Valid()
    modifies acc`high, acc`medium, acc`info, acc`total, acc`bySeverity, acc`byDetector, acc`all
    modifies acc`ips, acc`seen, acc`linesScanned, acc`errorBursts
    ensures acc.Valid()
    ensures var cutoff := CutoffOf(lines, windowSecs);
            var errors := ErrorLines(lines, cutoff, |lines|);
            && (forall l :: Kept(cutoff, l) <==> InWindow(lines, windowSecs, l))
            && acc.all == old(acc.all) + (FileFindings(lines, cutoff, path, |lines|) + BurstFindings(path, errors))
            && acc.seen == old(acc.seen) + FileSightings(lines, cutoff, path, |lines|)
            && acc.errorBursts == old(acc.errorBursts) + BurstEntry(path, errors)
            && acc.linesScanned == old(acc.linesScanned) + LinesKept(lines, cutoff, |lines|)
  {
    var cut := Cutoff(lines, windowSecs);
    var errorCount, errorFirst := ScanLines(acc, path, lines, cut);
    ghost var errors := ErrorLines(lines, cut, |lines|);
    Collections.Regroup(old(acc.all), FileFindings(lines, cut, path, |lines|), BurstFindings(path, errors));
    ReportBurst(acc, path, errorCount, errorFirst, errors);
  }

  function BurstEntry(path: string, errors: seq<nat>): seq<(string, nat, seq<nat>)> {
    if |errors| >= ERROR_BURST_THRESHOLD then [(path, |errors|, Cap(errors, ERROR_BURST_FIRST_LINES))] else []
  }

  /** Ten or more error lines in a file give one finding and one burst entry. */
  method ReportBurst(acc: Acc, path: string, errorCount: nat, errorFirst: seq<nat>, ghost errors: seq<nat>)
    requires acc.Valid()
    requires errorCount == |errors| && errorFirst == Cap(errors, ERROR_BURST_FIRST_LINES)
    modifies acc`high, acc`medium, acc`info, acc`total, acc`bySeverity, acc`byDetector, acc`all, acc`errorBursts
    ensures acc.Valid()
    ensures acc.all == old(acc.all) + BurstFindings(path, errors)
    ensures acc.errorBursts == old(acc.errorBursts) + BurstEntry(path, errors)
  {
    if errorCount >= ERROR_BURST_THRESHOLD {
      var excerpt := Decimal(errorCount) + " error-class lines in file (first at lines " + Listed(errorFirst) + ")";
      acc.Push(Finding(DET_ERROR_BURST, Medium, path, errorFirst[0], excerpt));
      acc.errorBursts := acc.errorBursts + [(path, errorCount, errorFirst)];
    }
  }

  /** Counts an error line and keeps its number while it is one of the first. */
  method NoteLine(errorCount: nat, errorFirst: seq<nat>, isError: bool, line: nat, ghost errors: seq<nat>)
    returns (count: nat, first: seq<nat>)
    requires errorCount == |errors| && errorFirst == Cap(errors, ERROR_BURST_FIRST_LINES)
    ensures var now := errors + if isError then [line] else [];
            count == |now| && first == Cap(now, ERROR_BURST_FIRST_LINES)
  {
    count, first := errorCount, errorFirst;
    if isError {
      count := count + 1;
      if |first| < ERROR_BURST_FIRST_LINES { first := first + [line]; }
    }
  }

  method ScanLines(acc: Acc, path: string, lines: seq<LineFacts>, cut: Option<int>)
    returns (errorCount: nat, errorFirst: seq<nat>)
    requires acc.Valid()
    modifies acc`high, acc`medium, acc`info, acc`total, acc`bySeverity, acc`byDetector, acc`all
    modifies acc`ips, acc`seen, acc`linesScanned
    ensures acc.Valid()
    ensures acc.linesScanned == old(acc.linesScanned) + LinesKept(lines, cut, |lines|)
    ensures acc.all == old(acc.all) + FileFindings(lines, cut, path, |lines|)
    ensures acc.seen == old(acc.seen) + FileSightings(lines, cut, path, |lines|)
    ensures errorCount == |ErrorLines(lines, cut, |lines|)|
    ensures errorFirst == Cap(ErrorLines(lines, cut, |lines|), ERROR_BURST_FIRST_LINES)
  {
    errorCount, errorFirst := 0, [];
    for i := 0 to |lines|
      invariant acc.Valid()
      invariant acc.linesScanned == old(acc.linesScanned) + LinesKept(lines, cut, i)
      invariant acc.all == old(acc.all) + FileFindings(lines, cut, path, i)
      invariant acc.seen == old(acc.seen) + FileSightings(lines, cut, path, i)
      invariant errorCount == |ErrorLines(lines, cut, i)|
      invariant errorFirst == Cap(ErrorLines(lines, cut, i), ERROR_BURST_FIRST_LINES)
    {
      Collections.Regroup(old(acc.all), FileFindings(lines, cut, path, i), LineFindings(cut, lines[i], path, i + 1));
      Collections.Regroup(old(acc.seen), FileSightings(lines, cut, path, i), LineSightings(cut, lines[i], path, i + 1));
      var isError := ScanLine(acc, path, lines[i], i + 1, cut);
      errorCount, errorFirst := NoteLine(errorCount, errorFirst, isError, i + 1, ErrorLines(lines, cut, i));
    }
  }

  /** A line outside the window is skipped, a blank one only counted; otherwise what fired is pushed
      and the addresses are counted. */
  method ScanLine(acc: Acc, path: string, l: LineFacts, line: nat, cut: Option<int>) returns (isError: bool)
    requires acc.Valid()
    modifies acc`high, acc`medium, acc`info, acc`total, acc`bySeverity, acc`byDetector, acc`all
    modifies acc`ips, acc`seen, acc`linesScanned
    ensures acc.Valid()
    ensures acc.linesScanned == old(acc.linesScanned) + if Kept(cut, l) then 1 else 0
    ensures acc.all == old(acc.all) + LineFindings(cut, l, path, line)
    ensures acc.seen == old(acc.seen) + LineSightings(cut, l, path, line)
    ensures isError <==> Scanned(cut, l) && l.isError
  {
    isError := false;
    if Kept(cut, l) {
      acc.linesScanned := acc.linesScanned + 1;
      if !l.blank {
        isError := l.isError;
        acc.PushAll(FindingsOf(l, path, line));
        acc.AddIps(SightingsOf(l, path, line));
      }
    }
  }

  // ---------- the address report ----------

  /** More sightings first; among equals the smaller address. */
  predicate RanksBefore(ips: map<string, IpStat>, a: string, b: string)
    requires a in ips && b in ips
  {
    ips[a].count > ips[b].count || (ips[a].count == ips[b].count && Leq(a, b))
  }

  ghost predicate Ranked(ips: map<string, IpStat>, list: seq<string>) {
    && (forall x | x in list :: x in ips)
    && (forall i, j | 0 <= i < j < |list| :: list[i] != list[j] && RanksBefore(ips, list[i], list[j]))
  }

  /** Every tracked address once, none with more sightings than one before it, and in ascending order
      where they have as many. */
  ghost predicate ByCount(ips: map<string, IpStat>, list: seq<string>) {
    && (forall ip :: ip in list <==> ip in ips)
    && (forall i, j | 0 <= i < j < |list| ::
          && list[i] != list[j] && list[i] in ips && list[j] in ips
          && ips[list[j]].count <= ips[list[i]].count
          && (ips[list[i]].count == ips[list[j]].count ==> Leq(list[i], list[j])))
  }

  lemma RankedByCount(ips: map<string, IpStat>, list: seq<string>)
    requires Ranked(ips, list) && forall ip :: ip in list <==> ip in ips
    ensures ByCount(ips, list)
  {
    assert forall i | 0 <= i < |list| :: list[i] in list;
  }

  lemma RanksTransitively(ips: map<string, IpStat>, a: string, b: string, c: string)
    requires a in ips && b in ips && c in ips && RanksBefore(ips, a, b) && RanksBefore(ips, b, c)
    ensures RanksBefore(ips, a, c)
  {
    if ips[a].count == ips[b].count == ips[c].count { LeqTransitive(a, b, c); }
  }

  /** Puts one more address in its place. */
  method Place(ips: map<string, IpStat>, list: seq<string>, x: string) returns (r: seq<string>)
    requires Ranked(ips, list) && x in ips && x !in list
    ensures Ranked(ips, r) && forall y :: y in r <==> y == x || y in list
  {
    var i := 0;
    while i < |list| && RanksBefore(ips, list[i], x)
      invariant 0 <= i <= |list|
      invariant forall j | 0 <= j < i :: RanksBefore(ips, list[j], x)
    {
      i := i + 1;
    }
    r := list[..i] + [x] + list[i..];
    forall j | i <= j < |list| ensures RanksBefore(ips, x, list[j]) {
      LeqTotal(x, list[i]);
      if j > i { RanksTransitively(ips, x, list[i], list[j]); }
    }
    forall a, b | 0 <= a < b < |r| ensures r[a] != r[b] && RanksBefore(ips, r[a], r[b]) {
      assert r[a] == if a < i then list[a] else if a == i then x else list[a - 1];
      assert r[b] == if b < i then list[b] else if b == i then x else list[b - 1];
    }
  }

  /** Every tracked address once, most frequent first. */
  method RankIps(ips: map<string, IpStat>) returns (list: seq<string>)
    ensures Ranked(ips, list) && ByCount(ips, list)
  {
    var left := ips.Keys;
    list := [];
    while left != {}
      invariant left <= ips.Keys
      invariant Ranked(ips, list)
      invariant forall ip :: ip in list <==> ip in ips && ip !in left
      decreases left
    {
      var x :| x in left;
      left := left - {x};
      list := Place(ips, list, x);
    }
    RankedByCount(ips, list);
  }

  function IpFindings(ips: map<string, IpStat>, list: seq<string>): seq<Finding>
    requires forall x | x in list :: x in ips
  {
    seq(|list|, i requires 0 <= i < |list| =>
        var st := ips[list[i]]; Finding(DET_IOC_IP, Info, st.path, st.line, st.excerpt))
  }

  /** One info finding per tracked address, and the 20 most frequent with their counts. */
  method ReportIps(acc: Acc) returns (top: seq<(string, nat)>, ghost list: seq<string>)
    requires acc.Valid()
    modifies acc`high, acc`medium, acc`info, acc`total, acc`bySeverity, acc`byDetector, acc`all
    ensures acc.Valid()
    ensures Ranked(acc.ips, list) && ByCount(acc.ips, list)
    ensures acc.all == old(acc.all) + IpFindings(acc.ips, list)
    ensures |top| == |Cap(list, PUBLIC_IPS_TOP)|
    ensures forall i | 0 <= i < |top| :: top[i] == (list[i], SightingCount(acc.seen, list[i]))
  {
    IpsAreExact(acc.seen);
    var ips := acc.ips;
    var ranked := RankIps(ips);
    list := ranked;
    top := seq(|Cap(ranked, PUBLIC_IPS_TOP)|,
               i requires 0 <= i < |Cap(ranked, PUBLIC_IPS_TOP)| => (ranked[i], ips[ranked[i]].count));
    acc.PushAll(IpFindings(ips, ranked));
  }

  // ---------- what a file holds, by line and place in the line ----------

  /** Lists every (line, place) with fewer than `n` lines and, in each, as many places as counted, by
      line and then by place. */
  ghost predicate Enumerates(at: seq<(nat, nat)>, n: nat, count: nat -> nat) {
    && (forall x | 0 <= x < |at| :: at[x].0 < n && at[x].1 < count(at[x].0))
    && (forall x, y | 0 <= x < y < |at| :: at[x].0 < at[y].0 || (at[x].0 == at[y].0 && at[x].1 < at[y].1))
    && (forall i, j: nat | 0 <= i < n && j < count(i) :: (i, j) in at)
  }

  function Row(i: nat, count: nat): (r: seq<(nat, nat)>)
    ensures |r| == count && forall j | 0 <= j < count :: r[j] == (i, j)
  {
    seq(count, j requires 0 <= j < count => (i, j))
  }

  lemma EnumerateStep(at: seq<(nat, nat)>, n: nat, count: nat -> nat)
    requires Enumerates(at, n, count)
    ensures Enumerates(at + Row(n, count(n)), n + 1, count)
  {
    var row := Row(n, count(n));
    var all := at + row;
    forall i, j: nat | 0 <= i < n + 1 && j < count(i) ensures (i, j) in all {
      if i == n { assert row[j] == (i, j); }
    }
  }

  /** How many findings, or addresses, of a line count: none outside the window or in a blank line. */
  function Firing(lines: seq<LineFacts>, cutoff: Option<int>): nat -> nat {
    (i: nat) => if i < |lines| && Kept(cutoff, lines[i]) && !lines[i].blank then |lines[i].fired| else 0
  }

  function Naming(lines: seq<LineFacts>, cutoff: Option<int>): nat -> nat {
    (i: nat) => if i < |lines| && Kept(cutoff, lines[i]) && !lines[i].blank then |lines[i].ips| else 0
  }

  ghost predicate IsFiring(f: Finding, l: LineFacts, path: string, line: nat, j: nat) {
    && j < |l.fired| && f.detector == l.fired[j].0 && f.severity == l.fired[j].1
    && f.path == path && f.line == line && f.excerpt == l.excerpt
  }

  ghost predicate AreFirings(fs: seq<Finding>, at: seq<(nat, nat)>, lines: seq<LineFacts>, path: string) {
    |fs| == |at| && forall x | 0 <= x < |at| ::
      at[x].0 < |lines| && IsFiring(fs[x], lines[at[x].0], path, at[x].0 + 1, at[x].1)
  }

  lemma LineFires(l: LineFacts, lines: seq<LineFacts>, cutoff: Option<int>, path: string, i: nat)
    requires i < |lines| && l == lines[i]
    ensures AreFirings(LineFindings(cutoff, l, path, i + 1), Row(i, Firing(lines, cutoff)(i)), lines, path)
  {
  }

  lemma MoreFirings(fs: seq<Finding>, at: seq<(nat, nat)>, gs: seq<Finding>, row: seq<(nat, nat)>,
                    lines: seq<LineFacts>, path: string)
    requires AreFirings(fs, at, lines, path) && AreFirings(gs, row, lines, path)
    ensures AreFirings(fs + gs, at + row, lines, path)
  {
  }

  /** The findings of a file are those that fired on its lines in the window, by line and then in the
      order of the detectors, each with its detector, severity, path, line number and excerpt. */
  ghost predicate FindingsUpTo(at: seq<(nat, nat)>, lines: seq<LineFacts>, cutoff: Option<int>, path: string, n: nat)
    requires n <= |lines|
  {
    Enumerates(at, n, Firing(lines, cutoff)) && AreFirings(FileFindings(lines, cutoff, path, n), at, lines, path)
  }

  lemma FindingsStep(at: seq<(nat, nat)>, lines: seq<LineFacts>, cutoff: Option<int>, path: string, n: nat, m: nat)
    returns (next: seq<(nat, nat)>)
    requires n < |lines| && m == n + 1 && FindingsUpTo(at, lines, cutoff, path, n)
    ensures FindingsUpTo(next, lines, cutoff, path, m)
  {
    next := at + Row(n, Firing(lines, cutoff)(n));
    EnumerateStep(at, n, Firing(lines, cutoff));
    LineFires(lines[n], lines, cutoff, path, n);
    MoreFirings(FileFindings(lines, cutoff, path, n), at, LineFindings(cutoff, lines[n], path, n + 1),
                Row(n, Firing(lines, cutoff)(n)), lines, path);
  }

  lemma {:induction false} FindingsByLine(lines: seq<LineFacts>, cutoff: Option<int>, path: string, n: nat)
    returns (at: seq<(nat, nat)>)
    requires n <= |lines|
    ensures FindingsUpTo(at, lines, cutoff, path, n)
  {
    if n == 0 {
      at := [];
    } else {
      var before := FindingsByLine(lines, cutoff, path, n - 1);
      at := FindingsStep(before, lines, cutoff, path, n - 1, n);
    }
  }

  ghost predicate IsNaming(s: Sighting, l: LineFacts, path: string, line: nat, j: nat) {
    j < |l.ips| && s.ip == l.ips[j] && s.path == path && s.line == line && s.excerpt == l.excerpt
  }

  ghost predicate AreNamings(ss: seq<Sighting>, at: seq<(nat, nat)>, lines: seq<LineFacts>, path: string) {
    |ss| == |at| && forall x | 0 <= x < |at| ::
      at[x].0 < |lines| && IsNaming(ss[x], lines[at[x].0], path, at[x].0 + 1, at[x].1)
  }

  lemma LineNames(l: LineFacts, lines: seq<LineFacts>, cutoff: Option<int>, path: string, i: nat)
    requires i < |lines| && l == lines[i]
    ensures AreNamings(LineSightings(cutoff, l, path, i + 1), Row(i, Naming(lines, cutoff)(i)), lines, path)
  {
  }

  lemma MoreNamings(fs: seq<Sighting>, at: seq<(nat, nat)>, gs: seq<Sighting>, row: seq<(nat, nat)>,
                    lines: seq<LineFacts>, path: string)
    requires AreNamings(fs, at, lines, path) && AreNamings(gs, row, lines, path)
    ensures AreNamings(fs + gs, at + row, lines, path)
  {
  }

  /** The same for the addresses. */
  ghost predicate SightingsUpTo(at: seq<(nat, nat)>, lines: seq<LineFacts>, cutoff: Option<int>, path: string, n: nat)
    requires n <= |lines|
  {
    Enumerates(at, n, Naming(lines, cutoff)) && AreNamings(FileSightings(lines, cutoff, path, n), at, lines, path)
  }

  lemma SightingsStep(at: seq<(nat, nat)>, lines: seq<LineFacts>, cutoff: Option<int>, path: string, n: nat, m: nat)
    returns (next: seq<(nat, nat)>)
    requires n < |lines| && m == n + 1 && SightingsUpTo(at, lines, cutoff, path, n)
    ensures SightingsUpTo(next, lines, cutoff, path, m)
  {
    next := at + Row(n, Naming(lines, cutoff)(n));
    EnumerateStep(at, n, Naming(lines, cutoff));
    LineNames(lines[n], lines, cutoff, path, n);
    MoreNamings(FileSightings(lines, cutoff, path, n), at, LineSightings(cutoff, lines[n], path, n + 1),
                Row(n, Naming(lines, cutoff)(n)), lines, path);
  }

  lemma {:induction false} SightingsByLine(lines: seq<LineFacts>, cutoff: Option<int>, path: string, n: nat)
    returns (at: seq<(nat, nat)>)
    requires n <= |lines|
    ensures SightingsUpTo(at, lines, cutoff, path, n)
  {
    if n == 0 {
      at := [];
    } else {
      var before := SightingsByLine(lines, cutoff, path, n - 1);
      at := SightingsStep(before, lines, cutoff, path, n - 1, n);
    }
  }

  ghost predicate IsErrorLine(lines: seq<LineFacts>, cutoff: Option<int>, i: int) {
    0 <= i < |lines| && Kept(cutoff, lines[i]) && !lines[i].blank && lines[i].isError
  }

  ghost predicate Ascends(es: seq<nat>) { forall x, y | 0 <= x < y < |es| :: es[x] < es[y] }

  lemma AscendsStep(es: seq<nat>, e: nat)
    requires Ascends(es) && forall x | x in es :: x < e
    ensures Ascends(es + [e])
  {
    assert forall x | 0 <= x < |es| :: es[x] in es;
  }

  /** The error lines are the numbers of the lines in the window that are of the error class, ascending. */
  lemma {:induction false} ErrorsByLine(lines: seq<LineFacts>, cutoff: Option<int>, n: nat)
    requires n <= |lines|
    ensures Ascends(ErrorLines(lines, cutoff, n))
    ensures forall e: nat :: e in ErrorLines(lines, cutoff, n) <==> 1 <= e <= n && IsErrorLine(lines, cutoff, e - 1)
  {
    if n > 0 {
      ErrorsByLine(lines, cutoff, n - 1);
      var before := ErrorLines(lines, cutoff, n - 1);
      if IsErrorLine(lines, cutoff, n - 1) {
        AscendsStep(before, n);
      } else {
        assert before + [] == before;
      }
    }
  }

  /** The lines counted are those in the window. */
  ghost function InsideOf(lines: seq<LineFacts>, cutoff: Option<int>, n: nat): set<nat>
    requires n <= |lines|
  {
    set i: nat | i < n && Kept(cutoff, lines[i])
  }

  lemma InsideStep(lines: seq<LineFacts>, cutoff: Option<int>, n: nat)
    requires n < |lines|
    ensures |InsideOf(lines, cutoff, n + 1)| == |InsideOf(lines, cutoff, n)| + if Kept(cutoff, lines[n]) then 1 else 0
  {
    assert InsideOf(lines, cutoff, n + 1) == InsideOf(lines, cutoff, n) + if Kept(cutoff, lines[n]) then {n} else {};
  }

  lemma LinesInWindow(lines: seq<LineFacts>, cutoff: Option<int>, n: nat)
    requires n <= |lines|
    ensures LinesKept(lines, cutoff, n) == |InsideOf(lines, cutoff, n)|
  {
    assert InsideOf(lines, cutoff, 0) == {};
    for i := 0 to n
      invariant LinesKept(lines, cutoff, i) == |InsideOf(lines, cutoff, i)|
    {
      InsideStep(lines, cutoff, i);
    }
  }

  /** Fewer than ten error lines are no burst; ten or more give one finding and one entry that tell their
      number and the first three. */
  lemma BurstTells(path: string, errors: seq<nat>)
    ensures |errors| < 10 ==> BurstFindings(path, errors) == [] && BurstEntry(path, errors) == []
    ensures |errors| >= 10 ==>
              && BurstEntry(path, errors) == [(path, |errors|, [errors[0], errors[1], errors[2]])]
              && |BurstFindings(path, errors)| == 1
              && var f := BurstFindings(path, errors)[0];
                 && f.detector == "error-burst" && f.severity == Medium && f.path == path && f.line == errors[0]
                 && f.excerpt == Decimal(|errors|) + " error-class lines in file (first at lines "
                                 + (Decimal(errors[0]) + ", " + (Decimal(errors[1]) + ", " + Decimal(errors[2]))) + ")"
  {
    if |errors| >= 10 {
      var three := errors[..3];
      assert three == [errors[0], errors[1], errors[2]] && Cap(errors, 3) == three;
      assert three[1..] == [errors[1], errors[2]] && three[1..][1..] == [errors[2]];
      assert Listed([errors[2]]) == Decimal(errors[2]);
      assert Listed(three[1..]) == Decimal(errors[1]) + ", " + Decimal(errors[2]);
      assert Listed(three) == Decimal(errors[0]) + ", " + (Decimal(errors[1]) + ", " + Decimal(errors[2]));
    }
  }

  /** The address report names each address with its count and first sighting, and tracks at most 4096. */
  lemma AddressesAreTold(seen: seq<Sighting>, list: seq<string>)
    requires Ranked(IpsOf(seen), list) && forall ip :: ip in list <==> ip in IpsOf(seen)
    ensures |list| <= 4096
    ensures |IpFindings(IpsOf(seen), list)| == |list|
    ensures forall i | 0 <= i < |list| ::
              var f := IpFindings(IpsOf(seen), list)[i];
              f.detector == "ioc-ip" && f.severity == Info
              && FirstSighting(seen, list[i], IpStat(SightingCount(seen, list[i]), f.path, f.line, f.excerpt))
  {
    var ips := IpsOf(seen);
    IpsAreExact(seen);
    Collections.DistinctSize(list);
    assert Collections.Elems(list) == ips.Keys;
    DistinctIsASet(seen);
    Collections.DistinctSize(Cap(Distinct(seen), MAX_DISTINCT_IPS));
    assert FirstIps(seen) == Collections.Elems(Cap(Distinct(seen), MAX_DISTINCT_IPS));
    forall i | 0 <= i < |list|
      ensures FirstSighting(seen, list[i], IpStat(SightingCount(seen, list[i]), ips[list[i]].path, ips[list[i]].line,
                                                  ips[list[i]].excerpt))
    {
      assert list[i] in ips;
    }
  }

  lemma {:induction false} DistinctGrows(a: seq<Sighting>, b: seq<Sighting>)
    ensures Distinct(a) <= Distinct(a + b)
    decreases |b|
  {
    if b == [] {
      assert a + b == a;
    } else {
      assert (a + b)[..|a + b| - 1] == a + b[..|b| - 1];
      DistinctGrows(a, b[..|b| - 1]);
    }
  }

  ghost function AddressesIn(seen: seq<Sighting>): set<string> { set s | s in seen :: s.ip }

  lemma DistinctAreAddresses(seen: seq<Sighting>)
    ensures |Distinct(seen)| == |AddressesIn(seen)|
  {
    DistinctIsASet(seen);
    Collections.DistinctSize(Distinct(seen));
    assert Collections.Elems(Distinct(seen)) == AddressesIn(seen) by {
      forall ip ensures ip in Distinct(seen) <==> ip in AddressesIn(seen) {
        if k :| 0 <= k < |seen| && seen[k].ip == ip { assert seen[k] in seen; }
      }
    }
  }

  /** Where an address stands in the order of first sightings. */
  lemma PlaceOfFirst(before: seq<Sighting>, s: Sighting, rest: seq<Sighting>)
    requires s.ip !in Distinct(before)
    ensures var d := Distinct(before + [s] + rest);
            |Distinct(before)| < |d| && d[|Distinct(before)|] == s.ip
  {
    assert (before + [s])[..|before|] == before;
    DistinctGrows(before + [s], rest);
  }

  lemma TrackedByPlace(seen: seq<Sighting>, n: nat)
    requires n < |Distinct(seen)|
    ensures Distinct(seen)[n] in IpsOf(seen) <==> n < MAX_DISTINCT_IPS
  {
    IpsAreExact(seen);
    DistinctIsASet(seen);
    PlaceInCap(Distinct(seen), n, MAX_DISTINCT_IPS);
  }

  lemma TrackedByThoseBefore(before: seq<Sighting>, s: Sighting, rest: seq<Sighting>)
    requires s.ip !in Distinct(before)
    ensures s.ip in IpsOf(before + [s] + rest) <==> |Distinct(before)| < MAX_DISTINCT_IPS
  {
    PlaceOfFirst(before, s, rest);
    TrackedByPlace(before + [s] + rest, |Distinct(before)|);
  }

  lemma PlaceInCap(d: seq<string>, n: nat, max: nat)
    requires n < |d| && Collections.AllDistinct(d)
    ensures d[n] in Cap(d, max) <==> n < max
  {
    if n < max { assert Cap(d, max)[n] == d[n]; }
  }

  /** An address not sighted before is tracked exactly if fewer than 4096 others are. */
  lemma TrackedAreFirst(before: seq<Sighting>, s: Sighting, rest: seq<Sighting>)
    requires forall x | x in before :: x.ip != s.ip
    ensures s.ip in IpsOf(before + [s] + rest) <==> |AddressesIn(before)| < 4096
  {
    DistinctAreAddresses(before);
    DistinctIsASet(before);
    assert forall k | 0 <= k < |before| :: before[k] in before;
    TrackedByThoseBefore(before, s, rest);
  }

  lemma {:induction false} SightingsAreCounted(seen: seq<Sighting>, ip: string)
    ensures SightingCount(seen, ip) == |Collections.Filter(seen, (s: Sighting) => s.ip == ip)|
  {
    if seen != [] { SightingsAreCounted(seen[..|seen| - 1], ip); }
  }

  /** The findings of a severity are those that have it, in their order, and a detector's count is the
      number of its findings. */
  lemma {:induction false} FindingsByKind(all: seq<Finding>, sev: Severity, d: string)
    ensures Of(all, sev) == Collections.Filter(all, (f: Finding) => f.severity == sev)
    ensures DetectorCount(all, d) == |Collections.Filter(all, (f: Finding) => f.detector == d)|
  {
    if all != [] { FindingsByKind(all[..|all| - 1], sev, d); }
  }
}
