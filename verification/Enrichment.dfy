/** One enrichment run: which packages are looked up, what the advisory feed says, and how the
    graph is made to say the same (tools/librarian/enrich_vulnerabilities.py:254-421,
    tools/_shared/feeds.py:176-213, 229-245). */
module Enrichment {
  import opened Collections
  import GraphBatch
  import Text
  import opened Wrappers

  type Key = (string, string)

  /** What the feed is asked for: ecosystem, source package and version. */
  datatype Query = Query(ecosystem: string, source: string, version: string)

  /** One (host, package) row of the graph with what its release maps to. */
  datatype Row = Supported(key: Key, query: Query) | Unsupported(key: Key, reason: string)

  const OSV_BATCH := 500
  const MAX_PAGES := 20

  // ---------- which packages are looked up ----------

  ghost predicate FirstSupported(rows: seq<Row>, k: Key, q: Query) {
    exists i ::
        0 <= i < |rows| && rows[i] == Supported(k, q)
          && forall j | 0 <= j < i :: !(rows[j].Supported? && rows[j].key == k)
  }

  ghost predicate HasSupport(rows: seq<Row>, k: Key) { exists r :: r in rows && r.Supported? && r.key == k }

  ghost predicate FirstReason(rows: seq<Row>, k: Key, reason: string) {
    exists i :: 0 <= i < |rows| && rows[i] == Unsupported(k, reason) && forall j | 0 <= j < i :: rows[j].key != k
  }

  function Considered(rows: seq<Row>): set<Key> { set r | r in rows :: r.key }

  ghost predicate Partitions(rows: seq<Row>, targets: map<Key, Query>, unsupported: map<Key, string>) {
    && targets.Keys + unsupported.Keys == Considered(rows)
    && (forall k | k in targets :: FirstSupported(rows, k, targets[k]))
    && (forall k | k in unsupported :: !HasSupport(rows, k) && FirstReason(rows, k, unsupported[k]))
  }

  function Classified(targets: map<Key, Query>, unsupported: map<Key, string>, r: Row)
    : (map<Key, Query>, map<Key, string>)
  {
    if r.key in targets then (targets, unsupported)
    else
      match r
      case Unsupported(k, reason) => (targets, if k in unsupported then unsupported else unsupported[k := reason])
      case Supported(k, q) => (targets[k := q], unsupported - {k})
  }

  lemma StillFirst(rows: seq<Row>, r: Row)
    ensures forall k, q :: FirstSupported(rows, k, q) ==> FirstSupported(rows + [r], k, q)
    ensures forall k, reason :: FirstReason(rows, k, reason) ==> FirstReason(rows + [r], k, reason)
    ensures forall k :: HasSupport(rows + [r], k) <==> HasSupport(rows, k) || (r.Supported? && r.key == k)
    ensures Considered(rows + [r]) == Considered(rows) + {r.key}
  {
    var t := rows + [r];
    assert forall i | 0 <= i < |rows| :: t[i] == rows[i];
    forall k, q | FirstSupported(rows, k, q) ensures FirstSupported(t, k, q) {
      var i :| 0 <= i < |rows| && rows[i] == Supported(k, q)
        && forall j | 0 <= j < i :: !(rows[j].Supported? && rows[j].key == k);
      assert t[i] == rows[i];
    }
    forall k, reason | FirstReason(rows, k, reason) ensures FirstReason(t, k, reason) {
      var i :| 0 <= i < |rows| && rows[i] == Unsupported(k, reason) && forall j | 0 <= j < i :: rows[j].key != k;
      assert t[i] == rows[i];
    }
    forall k ensures HasSupport(t, k) <==> HasSupport(rows, k) || (r.Supported? && r.key == k) {
      assert r in t;
    }
  }

  lemma NewTargetIsFirst(rows: seq<Row>, k: Key, q: Query)
    requires !HasSupport(rows, k)
    ensures FirstSupported(rows + [Supported(k, q)], k, q)
  {
    var t := rows + [Supported(k, q)];
    assert t[|rows|] == Supported(k, q);
    forall j | 0 <= j < |rows| ensures !(t[j].Supported? && t[j].key == k) { assert t[j] in rows; }
  }

  lemma NewReasonIsFirst(rows: seq<Row>, k: Key, reason: string)
    requires k !in Considered(rows)
    ensures FirstReason(rows + [Unsupported(k, reason)], k, reason)
  {
    var t := rows + [Unsupported(k, reason)];
    assert t[|rows|] == Unsupported(k, reason);
    forall j | 0 <= j < |rows| ensures t[j].key != k { assert t[j] in rows && t[j].key in Considered(rows); }
  }

  lemma NewTarget(rows: seq<Row>, targets: map<Key, Query>, unsupported: map<Key, string>, k: Key, q: Query)
    requires Partitions(rows, targets, unsupported) && k !in targets
    ensures Partitions(rows + [Supported(k, q)], targets[k := q], unsupported - {k})
  {
    StillFirst(rows, Supported(k, q));
    NoTargetNoSupport(rows, targets, unsupported, k);
    NewTargetIsFirst(rows, k, q);
  }

  lemma NewReason(rows: seq<Row>, targets: map<Key, Query>, unsupported: map<Key, string>, k: Key, reason: string)
    requires Partitions(rows, targets, unsupported) && k !in targets && k !in unsupported
    ensures Partitions(rows + [Unsupported(k, reason)], targets, unsupported[k := reason])
  {
    var t, u := rows + [Unsupported(k, reason)], unsupported[k := reason];
    StillFirst(rows, Unsupported(k, reason));
    forall j | j in u ensures !HasSupport(t, j) && FirstReason(t, j, u[j]) {
      if j == k {
        NoTargetNoSupport(rows, targets, unsupported, k);
        NewReasonIsFirst(rows, k, reason);
      }
    }
  }

  lemma KnownReason(rows: seq<Row>, targets: map<Key, Query>, unsupported: map<Key, string>, k: Key, reason: string)
    requires Partitions(rows, targets, unsupported) && k in unsupported
    ensures Partitions(rows + [Unsupported(k, reason)], targets, unsupported)
  {
    StillFirst(rows, Unsupported(k, reason));
  }

  lemma ClassifyStep(rows: seq<Row>, targets: map<Key, Query>, unsupported: map<Key, string>, r: Row)
    requires Partitions(rows, targets, unsupported)
    ensures var c := Classified(targets, unsupported, r); Partitions(rows + [r], c.0, c.1)
  {
    if r.key in targets {
      StillFirst(rows, r);
      assert r.key !in unsupported by { TargetHasSupport(rows, targets, unsupported, r.key); }
    } else {
      match r
      case Supported(k, q) => NewTarget(rows, targets, unsupported, k, q);
      case Unsupported(k, reason) =>
        if k in unsupported {
          KnownReason(rows, targets, unsupported, k, reason);
        } else {
          NewReason(rows, targets, unsupported, k, reason);
        }
    }
  }

  lemma TargetHasSupport(rows: seq<Row>, targets: map<Key, Query>, unsupported: map<Key, string>, k: Key)
    requires Partitions(rows, targets, unsupported) && k in targets
    ensures HasSupport(rows, k) && k !in unsupported
  {
    var i :| 0 <= i < |rows| && rows[i] == Supported(k, targets[k]);
    assert rows[i] in rows;
  }

  lemma NoTargetNoSupport(rows: seq<Row>, targets: map<Key, Query>, unsupported: map<Key, string>, k: Key)
    requires Partitions(rows, targets, unsupported) && k !in targets
    ensures !HasSupport(rows, k)
  {
    if r :| r in rows && r.Supported? && r.key == k { assert k in Considered(rows); }
  }

  /** The packages of the supported rows, in the order of the rows. */
  function SupportedKeys(rows: seq<Row>): seq<Key> {
    if rows == [] then []
    else SupportedKeys(rows[..|rows| - 1]) + if rows[|rows| - 1].Supported? then [rows[|rows| - 1].key] else []
  }

  ghost predicate InRowOrder(order: seq<Key>, rows: seq<Row>, targets: map<Key, Query>) {
    order == Firsts(SupportedKeys(rows)) && forall k :: k in order <==> k in targets
  }

  lemma RowOrderStep(order: seq<Key>, rows: seq<Row>, targets: map<Key, Query>, r: Row)
    requires InRowOrder(order, rows, targets)
    ensures r.Unsupported? || r.key in targets ==> InRowOrder(order, rows + [r], targets)
    ensures r.Supported? && r.key !in targets ==> InRowOrder(order + [r.key], rows + [r], targets[r.key := r.query])
  {
    assert (rows + [r])[..|rows|] == rows;
    if r.Supported? {
      FirstsStep(SupportedKeys(rows), r.key);
    } else {
      assert SupportedKeys(rows) + [] == SupportedKeys(rows);
    }
  }

  /** Every considered package is either looked up, by its first supported row, or unsupported, with
      the reason of its first row. */
  method Partition(rows: seq<Row>) returns (targets: map<Key, Query>, unsupported: map<Key, string>, order: seq<Key>)
    ensures Partitions(rows, targets, unsupported) && targets.Keys !! unsupported.Keys
    ensures InRowOrder(order, rows, targets)
  {
    targets, unsupported, order := map[], map[], [];
    for i := 0 to |rows|
      invariant Partitions(rows[..i], targets, unsupported)
      invariant InRowOrder(order, rows[..i], targets)
    {
      var r := rows[i];
      assert rows[..i + 1] == rows[..i] + [r];
      ClassifyStep(rows[..i], targets, unsupported, r);
      RowOrderStep(order, rows[..i], targets, r);
      if r.key in targets { continue; }
      match r {
        case Unsupported(k, reason) =>
          if k !in unsupported { unsupported := unsupported[k := reason]; }
        case Supported(k, q) =>
          targets := targets[k := q];
          order := order + [k];
          unsupported := unsupported - {k};
      }
    }
    assert rows[..|rows|] == rows;
    forall k | k in targets ensures k !in unsupported { TargetHasSupport(rows, targets, unsupported, k); }
  }

  // ---------- the feed ----------

  /** The pages the feed answers one query with; a page token leads from each page to the next. */
  type Feed = Query -> seq<seq<string>>

  function IdsOn(pages: seq<seq<string>>, n: nat): set<string>
    requires n <= |pages|
  {
    set p, id | 0 <= p < n && id in pages[p] && id != "" :: id
  }

  /** The advisories on the first page and up to 20 follow-up pages. */
  function AdvisoryIds(feed: Feed, q: Query): set<string> {
    var pages := feed(q);
    IdsOn(pages, if |pages| <= MAX_PAGES + 1 then |pages| else MAX_PAGES + 1)
  }

  /** The ids on the first `n` pages, as they come. */
  function Listed(pages: seq<seq<string>>, n: nat): seq<string>
    requires n <= |pages|
  {
    if n == 0 then [] else Listed(pages, n - 1) + NonEmpty(pages[n - 1])
  }

  function NonEmpty(ids: seq<string>): seq<string> {
    if ids == [] then [] else (if ids[0] != "" then [ids[0]] else []) + NonEmpty(ids[1..])
  }

  /** The advisories of a query in string order. */
  function SortedIds(feed: Feed, q: Query): seq<string> {
    var pages := feed(q);
    Text.Sort(Firsts(Listed(pages, if |pages| <= MAX_PAGES + 1 then |pages| else MAX_PAGES + 1)))
  }

  lemma {:induction false} ListedAreIdsOn(pages: seq<seq<string>>, n: nat)
    requires n <= |pages|
    ensures forall id :: id in Listed(pages, n) <==> id in IdsOn(pages, n)
  {
    if n > 0 {
      ListedAreIdsOn(pages, n - 1);
      NonEmptyKeeps(pages[n - 1]);
    }
  }

  lemma {:induction false} NonEmptyKeeps(ids: seq<string>)
    ensures forall id :: id in NonEmpty(ids) <==> id in ids && id != ""
  {
    if ids != [] {
      NonEmptyKeeps(ids[1..]);
      assert ids == [ids[0]] + ids[1..];
    }
  }

  /** Each advisory of the query once, in ascending order. */
  lemma IdsAreSorted(feed: Feed, q: Query)
    ensures AllDistinct(SortedIds(feed, q)) && Text.Sorted(SortedIds(feed, q))
    ensures forall id :: id in SortedIds(feed, q) <==> id in AdvisoryIds(feed, q)
  {
    var pages := feed(q);
    var n := if |pages| <= MAX_PAGES + 1 then |pages| else MAX_PAGES + 1;
    var ids := Firsts(Listed(pages, n));
    FirstsAreDistinct(Listed(pages, n));
    Text.SortKeepsSet(ids);
    ListedAreIdsOn(pages, n);
    forall id ensures id in Text.Sort(ids) <==> id in ids { assert id in Elems(Text.Sort(ids)) <==> id in Elems(ids); }
  }

  method FollowPages(feed: Feed, q: Query) returns (ids: seq<string>)
    ensures ids == SortedIds(feed, q)
    ensures AllDistinct(ids) && forall id :: id in ids <==> id in AdvisoryIds(feed, q)
  {
    IdsAreSorted(feed, q);
    var pages := feed(q);
    ids := [];
    if pages != [] {
      ids := NonEmpty(pages[0]);
      var page := 0;
      while page + 1 < |pages| && page < MAX_PAGES
        invariant page < |pages| && page <= MAX_PAGES
        invariant ids == Listed(pages, page + 1)
      {
        page := page + 1;
        ids := ids + NonEmpty(pages[page]);
      }
    }
    ids := Text.Sort(Firsts(ids));
  }

  /** The advisories of every query, in the order of the queries, asked 500 at a time. */
  method OsvQueryBatch(feed: Feed, queries: seq<Query>) returns (out: seq<seq<string>>)
    ensures |out| == |queries|
    ensures forall i | 0 <= i < |out| :: out[i] == SortedIds(feed, queries[i])
  {
    out := [];
    var start := 0;
    while start < |queries|
      invariant 0 <= start <= |queries| && |out| == start
      invariant forall i | 0 <= i < |out| :: out[i] == SortedIds(feed, queries[i])
    {
      var end := if start + OSV_BATCH < |queries| then start + OSV_BATCH else |queries|;
      var chunk := queries[start..end];
      for i := 0 to |chunk|
        invariant |out| == start + i
        invariant forall j | 0 <= j < |out| :: out[j] == SortedIds(feed, queries[j])
      {
        var ids := FollowPages(feed, chunk[i]);
        out := out + [ids];
      }
      start := end;
    }
  }

  // ---------- one query per distinct (ecosystem, source, version) ----------

  function QueriesOf(targets: map<Key, Query>, order: seq<Key>): seq<Query>
    requires forall k | k in order :: k in targets
  {
    seq(|order|, i requires 0 <= i < |order| => targets[order[i]])
  }

  /** Each distinct query of these packages once, in their order, with the packages it stands for. */
  ghost predicate GroupsOf(groups: map<Query, set<Key>>, qlist: seq<Query>, targets: map<Key, Query>, keys: seq<Key>)
    requires forall k | k in keys :: k in targets
  {
    && qlist == Firsts(QueriesOf(targets, keys)) && (forall q :: q in qlist <==> q in groups)
    && forall q | q in groups :: groups[q] == set k | k in keys && targets[k] == q
  }

  lemma KeysOfNewQuery(targets: map<Key, Query>, keys: seq<Key>, q: Query)
    requires (forall k | k in keys :: k in targets) && q !in Firsts(QueriesOf(targets, keys))
    ensures forall k | k in keys :: targets[k] != q
  {
    FirstsAreDistinct(QueriesOf(targets, keys));
    forall k | k in keys ensures targets[k] != q {
      var i :| 0 <= i < |keys| && keys[i] == k;
      assert QueriesOf(targets, keys)[i] == targets[k];
    }
  }

  lemma QueryStep(targets: map<Key, Query>, keys: seq<Key>, k: Key)
    requires (forall j | j in keys :: j in targets) && k in targets
    ensures Firsts(QueriesOf(targets, keys + [k])) == Added(Firsts(QueriesOf(targets, keys)), targets[k])
  {
    assert QueriesOf(targets, keys + [k]) == QueriesOf(targets, keys) + [targets[k]];
    FirstsStep(QueriesOf(targets, keys), targets[k]);
  }

  lemma KnownQueryStep(groups: map<Query, set<Key>>, qlist: seq<Query>, targets: map<Key, Query>, keys: seq<Key>,
                       k: Key)
    requires (forall j | j in keys :: j in targets) && k in targets && GroupsOf(groups, qlist, targets, keys)
    requires targets[k] in groups
    ensures GroupsOf(groups[targets[k] := groups[targets[k]] + {k}], qlist, targets, keys + [k])
  {
    QueryStep(targets, keys, k);
    assert forall j :: j in keys + [k] <==> j in keys || j == k;
  }

  lemma NewQueryStep(groups: map<Query, set<Key>>, qlist: seq<Query>, targets: map<Key, Query>, keys: seq<Key>, k: Key)
    requires (forall j | j in keys :: j in targets) && k in targets && GroupsOf(groups, qlist, targets, keys)
    requires targets[k] !in groups
    ensures GroupsOf(groups[targets[k] := {k}], qlist + [targets[k]], targets, keys + [k])
  {
    QueryStep(targets, keys, k);
    KeysOfNewQuery(targets, keys, targets[k]);
    assert forall j :: j in keys + [k] <==> j in keys || j == k;
  }

  method GroupQueries(targets: map<Key, Query>, order: seq<Key>)
    returns (groups: map<Query, set<Key>>, qlist: seq<Query>)
    requires forall k :: k in order <==> k in targets
    ensures forall q :: q in groups <==> q in targets.Values
    ensures forall q | q in groups :: groups[q] == set k | k in targets && targets[k] == q
    ensures qlist == Firsts(QueriesOf(targets, order)) && AllDistinct(qlist)
    ensures forall q :: q in qlist <==> q in groups
  {
    groups, qlist := map[], [];
    for i := 0 to |order|
      invariant GroupsOf(groups, qlist, targets, order[..i])
    {
      var k := order[i];
      var q := targets[k];
      assert order[..i + 1] == order[..i] + [k];
      if q in groups {
        KnownQueryStep(groups, qlist, targets, order[..i], k);
        groups := groups[q := groups[q] + {k}];
      } else {
        NewQueryStep(groups, qlist, targets, order[..i], k);
        groups, qlist := groups[q := {k}], qlist + [q];
      }
    }
    assert order[..|order|] == order;
    QueriesAreValues(targets, order);
    FirstsAreDistinct(QueriesOf(targets, order));
  }

  lemma QueriesAreValues(targets: map<Key, Query>, order: seq<Key>)
    requires forall k :: k in order <==> k in targets
    ensures forall q :: q in QueriesOf(targets, order) <==> q in targets.Values
  {
    forall q | q in targets.Values ensures q in QueriesOf(targets, order) {
      var k :| k in targets && targets[k] == q;
      var i :| 0 <= i < |order| && order[i] == k;
      assert QueriesOf(targets, order)[i] == q;
    }
  }

  // ---------- which records are read ----------

  datatype Record = Record(id: string, body: string)

  ghost function Union(lists: seq<seq<string>>): set<string> { set i, x | 0 <= i < |lists| && x in lists[i] :: x }

  /** The smallest ids in string order, at most `cap` of them. */
  ghost predicate IsFirst(first: set<string>, all: set<string>, cap: nat) {
    && first <= all
    && |first| == (if |all| <= cap then |all| else cap)
    && forall x, y | x in first && y in all - first :: Text.Leq(x, y)
  }

  lemma PrefixIsFirst(s: seq<string>, cap: nat)
    requires AllDistinct(s) && Text.Sorted(s)
    ensures IsFirst(Elems(if |s| <= cap then s else s[..cap]), Elems(s), cap)
  {
    var p := if |s| <= cap then s else s[..cap];
    DistinctSize(s);
    DistinctSize(p);
    forall x, y | x in Elems(p) && y in Elems(s) - Elems(p) ensures Text.Leq(x, y) {
      var i :| 0 <= i < |p| && p[i] == x;
      var j :| 0 <= j < |s| && s[j] == y;
      assert forall l | 0 <= l < |p| :: p[l] == s[l] && p[l] in Elems(p);
    }
  }

  ghost predicate IsRead(good: map<string, Record>, first: set<string>, answers: string -> Option<Record>) {
    good == map id | id in first && answers(id).Some? :: answers(id).value
  }

  /** The records of the first `cap` advisories, as far as the feed answers for them. */
  method ReadRecords(ids: seq<seq<string>>, cap: nat, answers: string -> Option<Record>)
    returns (first: set<string>, good: map<string, Record>)
    ensures IsFirst(first, Union(ids), cap) && IsRead(good, first, answers)
  {
    var all: set<string> := {};
    for i := 0 to |ids|
      invariant all == Union(ids[..i])
    {
      assert Union(ids[..i + 1]) == Union(ids[..i]) + Elems(ids[i]);
      all := all + set id | id in ids[i];
    }
    assert ids[..|ids|] == ids;
    var list := ListSet(all);
    assert Elems(list) == all;
    Text.SortKeepsSet(list);
    var sorted := Text.Sort(list);
    PrefixIsFirst(sorted, cap);
    var few := if |sorted| <= cap then sorted else sorted[..cap];
    first := set id | id in few;
    assert first == Elems(few);
    good := map id | id in first && answers(id).Some? :: answers(id).value;
  }

  // ---------- what is written ----------

  /** An advisory record as it bears on one query: fix, urgency and severity follow from both. */
  datatype Finding = Finding(record: Record, query: Query)

  /** The names of the severity levels, the most severe first. */
  const LEVELS := ["critical", "high", "medium", "low", "negligible", "none", "unknown"]

  type Level = n: nat | n < 7

  /** What is read off a finding: the fixed version or "", the urgency if any, and the severity, 0 being
      the most severe. */
  datatype Detail = Detail(fixed: string, urgency: Option<string>, level: Level)

  type Telling = Finding -> Detail

  datatype Status = Checked(query: Query, count: nat, worst: Option<nat>, fixable: nat) | NotSupported(reason: string)

  // ---------- properties ----------

  datatype Value = Str(s: string) | Flag(b: bool) | Number(n: int)

  /** The property names a run sets, `fixed_version` and so on, and any other. */
  datatype Name =
    | FixedVersion | FixAvailable | Ecosystem | SourcePackage | Severity | Source | Urgency
    | VulnStatus | VulnEcosystem | VulnCount | VulnMaxSeverity | VulnFixable | VulnNote
    | OtherName(text: string)

  type Props = map<Name, Value>

  function LevelName(l: nat): string { if l < |LEVELS| then LEVELS[l] else "unknown" }

  /** The properties an edge is set to; an absent urgency is left out. */
  function FindingProps(tell: Telling, f: Finding): Props {
    var d := tell(f);
    map[FixedVersion := Str(d.fixed), FixAvailable := Flag(d.fixed != ""), Ecosystem := Str(f.query.ecosystem),
        SourcePackage := Str(f.query.source), Severity := Str(LevelName(d.level)), Source := Str("osv.dev")]
    + if d.urgency.Some? then map[Urgency := Str(d.urgency.value)] else map[]
  }

  /** The properties a package is set to. */
  function StatusProps(st: Status): Props {
    match st
    case Checked(q, count, worst, fixable) =>
      map[VulnStatus := Str("checked"), VulnEcosystem := Str(q.ecosystem), SourcePackage := Str(q.source),
          VulnCount := Number(count),
          VulnMaxSeverity := Str(if worst.Some? then LevelName(worst.value) else "none"),
          VulnFixable := Number(fixable), VulnNote := Str("")]
    case NotSupported(reason) => map[VulnStatus := Str("unsupported"), VulnNote := Str(reason)]
  }

  datatype EdgeRow = EdgeRow(key: Key, id: string, finding: Finding)

  datatype PkgRow = PkgRow(key: Key, ids: Option<set<string>>, status: Status)

  /** The advisories of a query whose record was read. */
  ghost function Kept(feed: Feed, good: map<string, Record>, q: Query): set<string> { AdvisoryIds(feed, q) * good.Keys }

  /** The smallest rank of the kept findings, None when there is none. */
  ghost predicate IsWorst(worst: Option<nat>, kept: set<string>, q: Query, good: map<string, Record>, tell: Telling)
    requires kept <= good.Keys
  {
    && (worst.None? <==> kept == {})
    && (worst.Some? ==> (exists id :: id in kept && tell(Finding(good[id], q)).level == worst.value)
                        && forall id | id in kept :: worst.value <= tell(Finding(good[id], q)).level)
  }

  ghost function Fixable(kept: set<string>, q: Query, good: map<string, Record>, tell: Telling): set<string>
    requires kept <= good.Keys
  {
    set id | id in kept && tell(Finding(good[id], q)).fixed != ""
  }

  /** The state of a package that was looked up: how many advisories were kept, the worst of them, how
      many are fixable. */
  ghost predicate IsState(st: Status, kept: set<string>, q: Query, good: map<string, Record>, tell: Telling)
    requires kept <= good.Keys
  {
    && st.Checked? && st.query == q && st.count == |kept|
    && IsWorst(st.worst, kept, q, good, tell) && st.fixable == |Fixable(kept, q, good, tell)|
  }

  /** There is one such state. */
  lemma StateIsUnique(a: Status, b: Status, kept: set<string>, q: Query, good: map<string, Record>, tell: Telling)
    requires kept <= good.Keys && IsState(a, kept, q, good, tell) && IsState(b, kept, q, good, tell)
    ensures a == b
  {
    if a.worst.Some? {
      var x :| x in kept && tell(Finding(good[x], q)).level == a.worst.value;
      var y :| y in kept && tell(Finding(good[y], q)).level == b.worst.value;
    }
  }

  ghost predicate MergedRanks(before: map<string, nat>, after: map<string, nat>, kept: set<string>, q: Query,
                              good: map<string, Record>, tell: Telling)
    requires kept <= good.Keys
  {
    && after.Keys == before.Keys + kept
    && forall id | id in after ::
         if id !in kept then after[id] == before[id]
         else
           var r := tell(Finding(good[id], q)).level;
           after[id] == if id in before && before[id] <= r then before[id] else r
  }

  ghost predicate EdgesOf(edges: seq<EdgeRow>, keys: set<Key>, kept: set<string>, q: Query, good: map<string, Record>)
    requires kept <= good.Keys
  {
    forall e :: e in edges <==> e.key in keys && e.id in kept && e.finding == Finding(good[e.id], q)
  }

  method EdgeRows(keys: set<Key>, id: string, finding: Finding) returns (edges: seq<EdgeRow>)
    ensures forall e :: e in edges <==> e.key in keys && e.id == id && e.finding == finding
  {
    var list := ListSet(keys);
    edges := seq(|list|, i requires 0 <= i < |list| => EdgeRow(list[i], id, finding));
    forall e ensures e in edges <==> e.key in keys && e.id == id && e.finding == finding {
      if e.key in keys && e.id == id && e.finding == finding {
        var i :| 0 <= i < |list| && list[i] == e.key;
        assert edges[i] == e;
      }
    }
  }

  lemma RankStep(before: map<string, nat>, now: map<string, nat>, kept: set<string>, q: Query,
                 good: map<string, Record>, tell: Telling, id: string)
    requires kept <= good.Keys && id in good && id !in kept && MergedRanks(before, now, kept, q, good, tell)
    ensures var r := tell(Finding(good[id], q)).level;
            MergedRanks(before, if id !in now || r < now[id] then now[id := r] else now, kept + {id}, q, good, tell)
  {
  }

  lemma WorstStep(worst: Option<nat>, kept: set<string>, q: Query, good: map<string, Record>, tell: Telling, id: string)
    requires kept <= good.Keys && id in good && IsWorst(worst, kept, q, good, tell)
    ensures var r := tell(Finding(good[id], q)).level;
            IsWorst(if worst.None? || r < worst.value then Some(r) else worst, kept + {id}, q, good, tell)
  {
    var r := tell(Finding(good[id], q)).level;
    var all := kept + {id};
    assert id in all;
    if worst.Some? && !(r < worst.value) {
      var x :| x in kept && tell(Finding(good[x], q)).level == worst.value;
      assert x in all;
    }
  }

  lemma FixableStep(kept: set<string>, q: Query, good: map<string, Record>, tell: Telling, id: string)
    requires kept <= good.Keys && id in good && id !in kept
    ensures |Fixable(kept + {id}, q, good, tell)|
            == |Fixable(kept, q, good, tell)| + if tell(Finding(good[id], q)).fixed != "" then 1 else 0
  {
    assert Fixable(kept + {id}, q, good, tell)
           == Fixable(kept, q, good, tell) + if tell(Finding(good[id], q)).fixed != "" then {id} else {};
  }

  lemma EdgesStep(edges: seq<EdgeRow>, more: seq<EdgeRow>, keys: set<Key>, kept: set<string>, q: Query,
                  good: map<string, Record>, id: string)
    requires kept <= good.Keys && id in good && EdgesOf(edges, keys, kept, q, good)
    requires forall e :: e in more <==> e.key in keys && e.id == id && e.finding == Finding(good[id], q)
    ensures EdgesOf(edges + more, keys, kept + {id}, q, good)
  {
  }

  /** What one query adds: severities, its worst one, how many findings are fixable, and the edge rows. */
  datatype Found = Found(order: seq<string>, ranks: map<string, nat>, worst: Option<nat>, fixable: nat,
                         edges: seq<EdgeRow>)

  /** `f.order` lists the advisories with a severity in the order they were first met, `met` being all of them. */
  ghost predicate IsFound(f: Found, before: map<string, nat>, keys: set<Key>, kept: set<string>, q: Query,
                          good: map<string, Record>, tell: Telling, met: seq<string>)
    requires kept <= good.Keys
  {
    && f.order == Firsts(met) && (forall id :: id in f.order <==> id in f.ranks)
    && MergedRanks(before, f.ranks, kept, q, good, tell)
    && IsWorst(f.worst, kept, q, good, tell)
    && f.fixable == |Fixable(kept, q, good, tell)|
    && EdgesOf(f.edges, keys, kept, q, good)
  }

  /** Adds one finding: to the severities, and one edge row per package. */
  method AddFinding(f: Found, id: string, q: Query, keys: set<Key>, good: map<string, Record>, tell: Telling,
                    ghost before: map<string, nat>, ghost kept: set<string>, ghost met: seq<string>)
    returns (next: Found)
    requires kept <= good.Keys && id in good && id !in kept && IsFound(f, before, keys, kept, q, good, tell, met)
    ensures IsFound(next, before, keys, kept + {id}, q, good, tell, met + [id])
  {
    var finding := Finding(good[id], q);
    var r := tell(finding).level;
    RankStep(before, f.ranks, kept, q, good, tell, id);
    WorstStep(f.worst, kept, q, good, tell, id);
    FixableStep(kept, q, good, tell, id);
    FirstsStep(met, id);
    var more := EdgeRows(keys, id, finding);
    EdgesStep(f.edges, more, keys, kept, q, good, id);
    next := Found(if id in f.ranks then f.order else f.order + [id],
                  if id !in f.ranks || r < f.ranks[id] then f.ranks[id := r] else f.ranks,
                  if f.worst.None? || r < f.worst.value then Some(r) else f.worst,
                  f.fixable + if tell(finding).fixed != "" then 1 else 0,
                  f.edges + more);
  }

  lemma NothingFound(order: seq<string>, before: map<string, nat>, keys: set<Key>, q: Query, good: map<string, Record>,
                     tell: Telling, met: seq<string>)
    requires order == Firsts(met) && forall id :: id in order <==> id in before
    ensures IsFound(Found(order, before, None, 0, []), before, keys, {}, q, good, tell, met)
  {
    assert Fixable({}, q, good, tell) == {};
  }

  /** Those of the ids whose record was read. */
  function KeptIds(ids: seq<string>, good: map<string, Record>): seq<string> {
    if ids == [] then []
    else KeptIds(ids[..|ids| - 1], good) + if ids[|ids| - 1] in good then [ids[|ids| - 1]] else []
  }

  /** One more id of a query: what is kept and met so far grows if its record was read. */
  lemma KeptStep(met: seq<string>, done: seq<string>, id: string, good: map<string, Record>)
    requires id !in done
    ensures id !in Elems(done) * good.Keys
    ensures Elems(done + [id]) * good.Keys == Elems(done) * good.Keys + if id in good then {id} else {}
    ensures met + KeptIds(done + [id], good) == met + KeptIds(done, good) + if id in good then [id] else []
  {
    assert (done + [id])[..|done|] == done;
    assert Elems(done + [id]) == Elems(done) + {id};
    Regroup(met, KeptIds(done, good), if id in good then [id] else []);
  }

  /** Skips an advisory whose record was not read. */
  method AddIfRead(f: Found, kept: set<string>, id: string, q: Query, keys: set<Key>, good: map<string, Record>,
                   tell: Telling, ghost before: map<string, nat>, ghost met: seq<string>)
    returns (next: Found, keptNow: set<string>)
    requires kept <= good.Keys && id !in kept && IsFound(f, before, keys, kept, q, good, tell, met)
    ensures keptNow == kept + if id in good then {id} else {}
    ensures keptNow <= good.Keys
    ensures IsFound(next, before, keys, keptNow, q, good, tell, met + if id in good then [id] else [])
  {
    next, keptNow := f, kept;
    assert met + [] == met;
    if id in good {
      next := AddFinding(f, id, q, keys, good, tell, before, kept, met);
      keptNow := kept + {id};
    }
  }

  /** What the first `n` ids of a query add. */
  ghost predicate IsFoundUpTo(f: Found, kept: set<string>, ids: seq<string>, n: nat, before: map<string, nat>,
                              keys: set<Key>, q: Query, good: map<string, Record>, tell: Telling, met: seq<string>)
    requires n <= |ids|
  {
    kept == Elems(ids[..n]) * good.Keys && IsFound(f, before, keys, kept, q, good, tell, met + KeptIds(ids[..n], good))
  }

  /** The body of the loop over the ids. */
  method AddNext(f: Found, kept: set<string>, ids: seq<string>, i: nat, q: Query, keys: set<Key>,
                 good: map<string, Record>, tell: Telling, ghost before: map<string, nat>, ghost met: seq<string>)
    returns (next: Found, keptNow: set<string>)
    requires i < |ids| && AllDistinct(ids) && IsFoundUpTo(f, kept, ids, i, before, keys, q, good, tell, met)
    ensures IsFoundUpTo(next, keptNow, ids, i + 1, before, keys, q, good, tell, met)
  {
    assert ids[..i + 1] == ids[..i] + [ids[i]];
    KeptStep(met, ids[..i], ids[i], good);
    next, keptNow := AddIfRead(f, kept, ids[i], q, keys, good, tell, before, met + KeptIds(ids[..i], good));
  }

  lemma NothingFoundYet(order: seq<string>, before: map<string, nat>, ids: seq<string>, keys: set<Key>, q: Query,
                        good: map<string, Record>, tell: Telling, met: seq<string>)
    requires order == Firsts(met) && forall id :: id in order <==> id in before
    ensures IsFoundUpTo(Found(order, before, None, 0, []), {}, ids, 0, before, keys, q, good, tell, met)
  {
    NothingFound(order, before, keys, q, good, tell, met);
    assert met + KeptIds([], good) == met;
  }

  method AddFindings(q: Query, keys: set<Key>, ids: seq<string>, good: map<string, Record>, tell: Telling,
                     order: seq<string>, before: map<string, nat>, ghost met: seq<string>)
    returns (found: Found, kept: set<string>)
    requires order == Firsts(met) && (forall id :: id in order <==> id in before) && AllDistinct(ids)
    ensures kept == Elems(ids) * good.Keys
    ensures IsFound(found, before, keys, kept, q, good, tell, met + KeptIds(ids, good))
  {
    found, kept := Found(order, before, None, 0, []), {};
    NothingFoundYet(order, before, ids, keys, q, good, tell, met);
    for i := 0 to |ids|
      invariant IsFoundUpTo(found, kept, ids, i, before, keys, q, good, tell, met)
    {
      found, kept := AddNext(found, kept, ids, i, q, keys, good, tell, before, met);
    }
    assert ids[..|ids|] == ids;
  }

  /** The kept ids of these queries, query after query. */
  function Returning(feed: Feed, good: map<string, Record>, qs: seq<Query>): seq<string> {
    if qs == [] then []
    else Returning(feed, good, qs[..|qs| - 1]) + KeptIds(SortedIds(feed, qs[|qs| - 1]), good)
  }

  ghost predicate Returned(id: string, qs: seq<Query>, feed: Feed, good: map<string, Record>) {
    exists q :: q in qs && id in Kept(feed, good, q)
  }

  ghost predicate IsSeverest(r: nat, id: string, qs: seq<Query>, feed: Feed, good: map<string, Record>, tell: Telling)
    requires id in good
  {
    && (forall q | q in qs && id in Kept(feed, good, q) :: r <= tell(Finding(good[id], q)).level)
    && (exists q :: q in qs && id in Kept(feed, good, q) && r == tell(Finding(good[id], q)).level)
  }

  /** Every advisory of these queries with the smallest rank any of them gave it. */
  ghost predicate MostSevere(ranks: map<string, nat>, qs: seq<Query>, feed: Feed, good: map<string, Record>,
                             tell: Telling) {
    && (forall id :: id in ranks <==> Returned(id, qs, feed, good))
    && (forall id | id in ranks :: id in good && IsSeverest(ranks[id], id, qs, feed, good, tell))
  }

  /** One row per package asked about and kept advisory of its query. */
  ghost predicate PlannedEdges(edges: seq<EdgeRow>, targets: map<Key, Query>, qs: seq<Query>, feed: Feed,
                               good: map<string, Record>) {
    forall e :: e in edges <==> e.key in targets && targets[e.key] in qs && e.id in Kept(feed, good, targets[e.key])
                                && e.finding == Finding(good[e.id], targets[e.key])
  }

  ghost predicate Tells(p: PkgRow, q: Query, feed: Feed, good: map<string, Record>, tell: Telling) {
    && p.ids == Some(Kept(feed, good, q))
    && IsState(p.status, Kept(feed, good, q), q, good, tell)
  }

  ghost predicate PlannedPackages(pkgs: seq<PkgRow>, targets: map<Key, Query>, qs: seq<Query>, feed: Feed,
                                  good: map<string, Record>, tell: Telling) {
    && (forall p | p in pkgs :: p.key in targets && targets[p.key] in qs && Tells(p, targets[p.key], feed, good, tell))
    && (forall k | k in targets && targets[k] in qs :: exists p :: p in pkgs && p.key == k)
  }

  lemma ReturnedStep(id: string, qs: seq<Query>, q: Query, feed: Feed, good: map<string, Record>)
    ensures Returned(id, qs + [q], feed, good) <==> Returned(id, qs, feed, good) || id in Kept(feed, good, q)
  {
    var all := qs + [q];
    assert q in all && forall p | p in qs :: p in all;
  }

  lemma StaysSeverest(r: nat, id: string, qs: seq<Query>, q: Query, feed: Feed, good: map<string, Record>,
                      tell: Telling)
    requires id in good && IsSeverest(r, id, qs, feed, good, tell)
    requires id in Kept(feed, good, q) ==> r <= tell(Finding(good[id], q)).level
    ensures IsSeverest(r, id, qs + [q], feed, good, tell)
  {
    var p :| p in qs && id in Kept(feed, good, p) && r == tell(Finding(good[id], p)).level;
    assert p in qs + [q];
  }

  lemma BecomesSeverest(before: map<string, nat>, id: string, qs: seq<Query>, q: Query, feed: Feed,
                        good: map<string, Record>, tell: Telling)
    requires MostSevere(before, qs, feed, good, tell) && id in Kept(feed, good, q)
    requires id in before ==> tell(Finding(good[id], q)).level <= before[id]
    ensures IsSeverest(tell(Finding(good[id], q)).level, id, qs + [q], feed, good, tell)
  {
    assert q in qs + [q];
    forall p | p in qs && id in Kept(feed, good, p)
      ensures tell(Finding(good[id], q)).level <= tell(Finding(good[id], p)).level {
      assert Returned(id, qs, feed, good) && id in before;
      assert IsSeverest(before[id], id, qs, feed, good, tell);
    }
  }

  lemma {:induction false} SevereStep(before: map<string, nat>, after: map<string, nat>, qs: seq<Query>, q: Query,
                                      feed: Feed, good: map<string, Record>, tell: Telling)
    requires MostSevere(before, qs, feed, good, tell)
    requires MergedRanks(before, after, Kept(feed, good, q), q, good, tell)
    ensures MostSevere(after, qs + [q], feed, good, tell)
  {
    var kept := Kept(feed, good, q);
    forall id ensures id in after <==> Returned(id, qs + [q], feed, good) {
      ReturnedStep(id, qs, q, feed, good);
    }
    forall id | id in after ensures id in good && IsSeverest(after[id], id, qs + [q], feed, good, tell) {
      if id in kept && !(id in before && before[id] <= tell(Finding(good[id], q)).level) {
        BecomesSeverest(before, id, qs, q, feed, good, tell);
      } else {
        StaysSeverest(after[id], id, qs, q, feed, good, tell);
      }
    }
  }

  lemma PlannedEdgesStep(edges: seq<EdgeRow>, more: seq<EdgeRow>, keys: set<Key>, targets: map<Key, Query>,
                         qs: seq<Query>, q: Query, feed: Feed, good: map<string, Record>)
    requires PlannedEdges(edges, targets, qs, feed, good) && keys == set k | k in targets && targets[k] == q
    requires EdgesOf(more, keys, Kept(feed, good, q), q, good)
    ensures PlannedEdges(edges + more, targets, qs + [q], feed, good)
  {
  }

  lemma PlannedPackagesStep(pkgs: seq<PkgRow>, more: seq<PkgRow>, keys: set<Key>, targets: map<Key, Query>,
                            qs: seq<Query>, q: Query, feed: Feed, good: map<string, Record>, tell: Telling)
    requires PlannedPackages(pkgs, targets, qs, feed, good, tell) && keys == set k | k in targets && targets[k] == q
    requires forall p | p in more :: p.key in keys && Tells(p, q, feed, good, tell)
    requires forall k | k in keys :: exists p :: p in more && p.key == k
    ensures PlannedPackages(pkgs + more, targets, qs + [q], feed, good, tell)
  {
    var all := pkgs + more;
    forall k | k in targets && targets[k] in qs + [q] ensures exists p :: p in all && p.key == k {
      if targets[k] == q {
        assert k in keys;
        var p :| p in more && p.key == k;
        assert p in all;
      } else {
        var p :| p in pkgs && p.key == k;
        assert p in all;
      }
    }
  }

  method PackageRows(keys: set<Key>, ids: Option<set<string>>, status: Status) returns (rows: seq<PkgRow>)
    ensures forall p | p in rows :: p.key in keys && p.ids == ids && p.status == status
    ensures forall k | k in keys :: exists p :: p in rows && p.key == k
  {
    var list := ListSet(keys);
    rows := seq(|list|, i requires 0 <= i < |list| => PkgRow(list[i], ids, status));
    forall k | k in keys ensures exists p :: p in rows && p.key == k {
      var i :| 0 <= i < |list| && list[i] == k;
      assert rows[i] in rows && rows[i].key == k;
    }
  }

  /** The rows to write: vulnerabilities in the order they were first met with their rank, edges and package states. */
  datatype Plan = Plan(order: seq<string>, ranks: map<string, nat>, edges: seq<EdgeRow>, pkgs: seq<PkgRow>)

  ghost predicate Planned(plan: Plan, targets: map<Key, Query>, qs: seq<Query>, feed: Feed, good: map<string, Record>,
                          tell: Telling) {
    && plan.order == Firsts(Returning(feed, good, qs)) && (forall id :: id in plan.order <==> id in plan.ranks)
    && MostSevere(plan.ranks, qs, feed, good, tell)
    && PlannedEdges(plan.edges, targets, qs, feed, good)
    && PlannedPackages(plan.pkgs, targets, qs, feed, good, tell)
  }

  /** Adds the rows of one more query. */
  method PlanQuery(plan: Plan, targets: map<Key, Query>, ghost qs: seq<Query>, q: Query, keys: set<Key>,
                   ids: seq<string>, good: map<string, Record>, tell: Telling, ghost feed: Feed)
    returns (next: Plan)
    requires Planned(plan, targets, qs, feed, good, tell)
    requires ids == SortedIds(feed, q) && keys == set k | k in targets && targets[k] == q
    ensures Planned(next, targets, qs + [q], feed, good, tell)
  {
    IdsAreSorted(feed, q);
    assert (qs + [q])[..|qs|] == qs;
    var found, kept := AddFindings(q, keys, ids, good, tell, plan.order, plan.ranks, Returning(feed, good, qs));
    assert kept == Kept(feed, good, q);
    var pkgs := PackageRows(keys, Some(kept), Checked(q, |kept|, found.worst, found.fixable));
    SevereStep(plan.ranks, found.ranks, qs, q, feed, good, tell);
    PlannedEdgesStep(plan.edges, found.edges, keys, targets, qs, q, feed, good);
    PlannedPackagesStep(plan.pkgs, pkgs, keys, targets, qs, q, feed, good, tell);
    next := Plan(found.order, found.ranks, plan.edges + found.edges, plan.pkgs + pkgs);
  }

  ghost predicate PlannedUpTo(plan: Plan, targets: map<Key, Query>, qlist: seq<Query>, n: nat, feed: Feed,
                              good: map<string, Record>, tell: Telling)
    requires n <= |qlist|
  {
    Planned(plan, targets, qlist[..n], feed, good, tell)
  }

  lemma NothingPlanned(targets: map<Key, Query>, qlist: seq<Query>, feed: Feed, good: map<string, Record>,
                       tell: Telling)
    ensures PlannedUpTo(Plan([], map[], [], []), targets, qlist, 0, feed, good, tell)
  {
  }

  /** The body of the loop over the queries. */
  method PlanNext(plan: Plan, targets: map<Key, Query>, groups: map<Query, set<Key>>, ghost qlist: seq<Query>,
                  ghost i: nat, q: Query, ids: seq<string>, good: map<string, Record>, tell: Telling, ghost feed: Feed)
    returns (next: Plan)
    requires i < |qlist| && q == qlist[i] && PlannedUpTo(plan, targets, qlist, i, feed, good, tell)
    requires ids == SortedIds(feed, q) && q in groups && groups[q] == set k | k in targets && targets[k] == q
    ensures PlannedUpTo(next, targets, qlist, i + 1, feed, good, tell)
  {
    assert qlist[..i + 1] == qlist[..i] + [q];
    next := PlanQuery(plan, targets, qlist[..i], q, groups[q], ids, good, tell, feed);
  }

  /** All rows the answers to the queries give rise to. */
  method PlanRows(targets: map<Key, Query>, groups: map<Query, set<Key>>, qlist: seq<Query>, ids: seq<seq<string>>,
                  good: map<string, Record>, tell: Telling, ghost feed: Feed)
    returns (plan: Plan)
    requires |ids| == |qlist| && forall i | 0 <= i < |ids| :: ids[i] == SortedIds(feed, qlist[i])
    requires forall q | q in qlist :: q in groups && groups[q] == set k | k in targets && targets[k] == q
    ensures Planned(plan, targets, qlist, feed, good, tell)
  {
    plan := Plan([], map[], [], []);
    NothingPlanned(targets, qlist, feed, good, tell);
    for i := 0 to |qlist|
      invariant PlannedUpTo(plan, targets, qlist, i, feed, good, tell)
    {
      assert qlist[i] in qlist;
      plan := PlanNext(plan, targets, groups, qlist, i, qlist[i], ids[i], good, tell, feed);
    }
    assert qlist[..|qlist|] == qlist;
  }

  // ---------- statements over the graph ----------

  ghost predicate Named<K, R(!new)>(rows: seq<R>, at: R -> K, k: K) { exists r :: r in rows && at(r) == k }

  ghost predicate Says<K, V, R(!new)>(rows: seq<R>, at: R -> K, value: R -> V, k: K, v: V) {
    exists r :: r in rows && at(r) == k && value(r) == v
  }

  /** A statement that merges what each row names, if it matches, and sets its properties. */
  function Upsert<K, V, R>(at: R -> K, value: R -> V, matches: K -> bool): (map<K, V>, R) -> map<K, V> {
    (m: map<K, V>, r: R) => if matches(at(r)) then m[at(r) := value(r)] else m
  }

  ghost predicate Upserted<K(!new), V, R(!new)>(before: map<K, V>, after: map<K, V>, rows: seq<R>, at: R -> K,
                                                value: R -> V, matches: K -> bool) {
    && (forall k :: k in after <==> k in before || (matches(k) && Named(rows, at, k)))
    && (forall k | k in after ::
          if matches(k) && Named(rows, at, k) then Says(rows, at, value, k, after[k]) else after[k] == before[k])
  }

  lemma NamedStep<K(!new), V(!new), R(!new)>(init: seq<R>, last: R, at: R -> K, value: R -> V)
    ensures forall k :: Named(init + [last], at, k) <==> Named(init, at, k) || at(last) == k
    ensures forall k, v ::
              Says(init + [last], at, value, k, v) <==>
              Says(init, at, value, k, v) || (at(last) == k && value(last) == v)
  {
    var rows := init + [last];
    assert last in rows && forall r :: r in rows <==> r in init || r == last;
  }

  lemma {:induction false} FoldOfUpserts<K(!new), V(!new), R(!new)>(before: map<K, V>, rows: seq<R>, at: R -> K,
      value: R -> V, matches: K -> bool)
    ensures Upserted(before, GraphBatch.Fold(Upsert(at, value, matches), before, rows), rows, at, value, matches)
  {
    if rows != [] {
      var init, last := rows[..|rows| - 1], rows[|rows| - 1];
      assert rows == init + [last];
      FoldOfUpserts(before, init, at, value, matches);
      NamedStep(init, last, at, value);
    }
  }

  /** Of the rows that name the same thing the last one decides. */
  lemma {:induction false} LastRowDecides<K, V, R>(before: map<K, V>, rows: seq<R>, at: R -> K, value: R -> V,
                                                   matches: K -> bool, i: nat)
    requires i < |rows| && matches(at(rows[i])) && forall j | i < j < |rows| :: at(rows[j]) != at(rows[i])
    ensures var after := GraphBatch.Fold(Upsert(at, value, matches), before, rows);
            at(rows[i]) in after && after[at(rows[i])] == value(rows[i])
  {
    var init := rows[..|rows| - 1];
    if i < |init| {
      assert init[i] == rows[i];
      LastRowDecides(before, init, at, value, matches, i);
    }
  }

  function PropsAt<K>(m: map<K, Props>, k: K): Props { if k in m then m[k] else map[] }

  /** A statement that merges what each row names, if it matches, and sets properties over those it has. */
  function Overlay<K, R>(at: R -> K, props: R -> Props, matches: K -> bool): (map<K, Props>, R) -> map<K, Props> {
    (m: map<K, Props>, r: R) => if matches(at(r)) then m[at(r) := PropsAt(m, at(r)) + props(r)] else m
  }

  /** Rows that name the same thing set the same. */
  ghost predicate SayTheSame<K, R(!new)>(rows: seq<R>, at: R -> K, props: R -> Props) {
    forall r, t | r in rows && t in rows && at(r) == at(t) :: props(r) == props(t)
  }

  ghost predicate OverlaidAt<K(!new), R(!new)>(before: map<K, Props>, after: map<K, Props>, rows: seq<R>, at: R -> K,
                                               props: R -> Props, k: K) {
    exists p :: Says(rows, at, props, k, p) && PropsAt(after, k) == PropsAt(before, k) + p
  }

  ghost predicate Overlaid<K(!new), R(!new)>(before: map<K, Props>, after: map<K, Props>, rows: seq<R>, at: R -> K,
                                             props: R -> Props, matches: K -> bool) {
    && (forall k :: k in after <==> k in before || (matches(k) && Named(rows, at, k)))
    && (forall k | k in after ::
          if matches(k) && Named(rows, at, k) then OverlaidAt(before, after, rows, at, props, k)
            else after[k] == before[k])
  }

  lemma OverlayStep<K(!new), R(!new)>(before: map<K, Props>, mid: map<K, Props>, init: seq<R>, last: R, at: R -> K,
                                      props: R -> Props, matches: K -> bool, k: K)
    requires Overlaid(before, mid, init, at, props, matches) && SayTheSame(init + [last], at, props)
    ensures var after := Overlay(at, props, matches)(mid, last);
            && (k in after <==> k in before || (matches(k) && Named(init + [last], at, k)))
            && (k in after ==> if matches(k) && Named(init + [last], at, k)
                then OverlaidAt(before, after, init + [last], at, props, k)
                               else after[k] == before[k])
  {
    var after, rows := Overlay(at, props, matches)(mid, last), init + [last];
    NamedStep(init, last, at, props);
    if matches(k) && Named(init, at, k) {
      var p :| Says(init, at, props, k, p) && mid[k] == PropsAt(before, k) + p;
      assert Says(rows, at, props, k, p);
      if at(last) == k {
        var r :| r in init && at(r) == k && props(r) == p;
        assert r in rows && last in rows && props(last) == p;
        assert PropsAt(before, k) + p + p == PropsAt(before, k) + p;
      }
    } else if matches(k) && at(last) == k {
      assert PropsAt(mid, k) == PropsAt(before, k);
      assert Says(rows, at, props, k, props(last));
    }
  }

  lemma {:induction false} FoldOfOverlays<K(!new), R(!new)>(before: map<K, Props>, rows: seq<R>, at: R -> K,
                                                            props: R -> Props, matches: K -> bool)
    requires SayTheSame(rows, at, props)
    ensures Overlaid(before, GraphBatch.Fold(Overlay(at, props, matches), before, rows), rows, at, props, matches)
  {
    if rows != [] {
      var init, last := rows[..|rows| - 1], rows[|rows| - 1];
      assert rows == init + [last] && forall r :: r in init ==> r in rows;
      FoldOfOverlays(before, init, at, props, matches);
      forall k { OverlayStep(before, GraphBatch.Fold(Overlay(at, props, matches), before, init), init, last, at, props,
                             matches, k); }
    }
  }

  type Edges = map<(Key, string), Props>

  predicate Stale(p: PkgRow, e: (Key, string)) { e.0 == p.key && (p.ids.None? || e.1 !in p.ids.value) }

  function DropStale(edges: Edges, p: PkgRow): Edges { map e | e in edges && !Stale(p, e) :: edges[e] }

  lemma {:induction false} FoldOfDrops(edges: Edges, rows: seq<PkgRow>)
    ensures GraphBatch.Fold(DropStale, edges, rows)
            == map e | e in edges && (forall p | p in rows :: !Stale(p, e)) :: edges[e]
  {
    if rows != [] {
      var init, last := rows[..|rows| - 1], rows[|rows| - 1];
      assert rows == init + [last];
      FoldOfDrops(edges, init);
      assert forall p :: p in rows <==> p in init || p == last;
    }
  }

  datatype VulnRow = VulnRow(vid: string, id: string, rank: nat)

  function VulnAt(r: VulnRow): string { r.id }
  function VulnRank(r: VulnRow): nat { r.rank }
  function AnyId(): string -> bool { (id: string) => true }
  function EdgeAt(e: EdgeRow): (Key, string) { (e.key, e.id) }
  function EdgeProps(tell: Telling): EdgeRow -> Props { (e: EdgeRow) => FindingProps(tell, e.finding) }
  function BothIn(packages: set<Key>, vulns: set<string>): ((Key, string)) -> bool {
    (e: (Key, string)) => e.0 in packages && e.1 in vulns
  }
  function PkgAt(p: PkgRow): Key { p.key }
  function PkgProps(p: PkgRow): Props { StatusProps(p.status) }
  function IsIn(packages: set<Key>): Key -> bool { (k: Key) => k in packages }

  /** One row per advisory, in this order. */
  function VulnRows(order: seq<string>, ranks: map<string, nat>, good: map<string, Record>): seq<VulnRow>
    requires forall id | id in order :: id in ranks && id in good
  {
    seq(|order|, i requires 0 <= i < |order| => VulnRow(order[i], good[order[i]].id, ranks[order[i]]))
  }

  /** No later row names the same node. */
  ghost predicate IsLastRow(rows: seq<VulnRow>, i: nat)
    requires i < |rows|
  {
    forall j | i < j < |rows| :: rows[j].id != rows[i].id
  }

  ghost predicate LastRowsStand(after: map<string, nat>, rows: seq<VulnRow>) {
    forall i | 0 <= i < |rows| && IsLastRow(rows, i) :: rows[i].id in after && after[rows[i].id] == rows[i].rank
  }

  // ---------- what a run leaves in the graph ----------

  /** A package looked up has an edge to each kept advisory of its own query that has a node, with what
      the record says about that query over what it had; an unsupported one has none; the others keep theirs. */
  ghost predicate SaysTheFeed(before: Edges, after: Edges, targets: map<Key, Query>, unsupported: set<Key>,
                              nodes: set<string>, feed: Feed, good: map<string, Record>, tell: Telling) {
    && (forall k, id | k in targets :: (k, id) in after <==> id in Kept(feed, good, targets[k]) && id in nodes)
    && (forall k, id | k in targets && (k, id) in after && id in good ::
          after[(k, id)] == PropsAt(before, (k, id)) + FindingProps(tell, Finding(good[id], targets[k])))
    && (forall k, id | k in unsupported :: (k, id) !in after)
    && (forall e: (Key, string) | e.0 !in targets && e.0 !in unsupported ::
          (e in after <==> e in before) && (e in after ==> after[e] == before[e]))
  }

  /** Package rows: those of the packages looked up, and None for the unsupported ones. */
  ghost predicate AllPackages(pkgs: seq<PkgRow>, targets: map<Key, Query>, unsupported: map<Key, string>, feed: Feed,
                              good: map<string, Record>, tell: Telling) {
    && (forall p | p in pkgs ::
          || (p.key in targets && Tells(p, targets[p.key], feed, good, tell))
          || (p.key in unsupported && p.ids == None && p.status == NotSupported(unsupported[p.key])))
    && (forall k | k in targets || k in unsupported :: Named(pkgs, PkgAt, k))
  }

  lemma MergedEdge(before: Edges, merged: Edges, rows: seq<EdgeRow>, packages: set<Key>, nodes: set<string>,
                   targets: map<Key, Query>, qs: seq<Query>, feed: Feed, good: map<string, Record>, tell: Telling,
                   e: (Key, string))
    requires Overlaid(before, merged, rows, EdgeAt, EdgeProps(tell), BothIn(packages, nodes))
    requires PlannedEdges(rows, targets, qs, feed, good)
    requires forall k | k in targets :: k in packages && targets[k] in qs
    ensures e.0 in targets && e.1 in Kept(feed, good, targets[e.0]) && e.1 in nodes ==>
              e in merged && merged[e] == PropsAt(before, e) + FindingProps(tell, Finding(good[e.1], targets[e.0]))
    ensures !(e.0 in targets && e.1 in Kept(feed, good, targets[e.0]) && e.1 in nodes) ==>
              (e in merged <==> e in before) && (e in merged ==> merged[e] == before[e])
  {
    if e.0 in targets && e.1 in Kept(feed, good, targets[e.0]) && e.1 in nodes {
      var row := EdgeRow(e.0, e.1, Finding(good[e.1], targets[e.0]));
      assert row in rows && EdgeAt(row) == e;
      assert Named(rows, EdgeAt, e) && BothIn(packages, nodes)(e);
      var p :| Says(rows, EdgeAt, EdgeProps(tell), e, p) && merged[e] == PropsAt(before, e) + p;
      var r :| r in rows && EdgeAt(r) == e && EdgeProps(tell)(r) == p;
    } else {
      assert !(Named(rows, EdgeAt, e) && BothIn(packages, nodes)(e));
    }
  }

  lemma {:induction false} KeptOrStale(pkgs: seq<PkgRow>, targets: map<Key, Query>, unsupported: map<Key, string>,
                                       feed: Feed, good: map<string, Record>, tell: Telling, e: (Key, string))
    requires AllPackages(pkgs, targets, unsupported, feed, good, tell) && targets.Keys !! unsupported.Keys
    ensures e.0 in targets ==> ((forall p | p in pkgs :: !Stale(p, e)) <==> e.1 in Kept(feed, good, targets[e.0]))
    ensures e.0 in unsupported ==> exists p :: p in pkgs && Stale(p, e)
    ensures e.0 !in targets && e.0 !in unsupported ==> forall p | p in pkgs :: !Stale(p, e)
  {
    if e.0 in targets || e.0 in unsupported {
      assert Named(pkgs, PkgAt, e.0);
      var p :| p in pkgs && PkgAt(p) == e.0;
      assert Stale(p, e) <==> e.0 in unsupported || e.1 !in Kept(feed, good, targets[e.0]);
    }
  }

  lemma {:induction false} EdgesSayTheFeed(before: Edges, merged: Edges, after: Edges, rows: seq<EdgeRow>,
                                           pkgs: seq<PkgRow>, packages: set<Key>, nodes: set<string>,
                                           targets: map<Key, Query>, unsupported: map<Key, string>, qs: seq<Query>,
                                           feed: Feed, good: map<string, Record>, tell: Telling)
    requires forall e | e in before :: e.1 in nodes
    requires Overlaid(before, merged, rows, EdgeAt, EdgeProps(tell), BothIn(packages, nodes))
    requires PlannedEdges(rows, targets, qs, feed, good)
    requires forall k | k in targets :: k in packages && targets[k] in qs
    requires AllPackages(pkgs, targets, unsupported, feed, good, tell) && targets.Keys !! unsupported.Keys
    requires after == map e | e in merged && (forall p | p in pkgs :: !Stale(p, e)) :: merged[e]
    ensures SaysTheFeed(before, after, targets, unsupported.Keys, nodes, feed, good, tell)
  {
    forall e: (Key, string)
      ensures e in after <==> e in merged && forall p | p in pkgs :: !Stale(p, e)
      ensures e.0 in targets ==> (e in after <==> e.1 in Kept(feed, good, targets[e.0]) && e.1 in nodes)
      ensures e.0 in targets && e in after
              ==> after[e] == PropsAt(before, e) + FindingProps(tell, Finding(good[e.1], targets[e.0]))
      ensures e.0 in unsupported ==> e !in after
      ensures e.0 !in targets && e.0 !in unsupported ==>
                (e in after <==> e in before) && (e in after ==> after[e] == before[e])
    {
      MergedEdge(before, merged, rows, packages, nodes, targets, qs, feed, good, tell, e);
      KeptOrStale(pkgs, targets, unsupported, feed, good, tell, e);
    }
  }

  ghost predicate HasState(before: map<Key, Props>, after: map<Key, Props>, k: Key, kept: set<string>, q: Query,
                           good: map<string, Record>, tell: Telling)
    requires kept <= good.Keys
  {
    k in after && exists st :: IsState(st, kept, q, good, tell) && after[k] == PropsAt(before, k) + StatusProps(st)
  }

  /** Each considered package has the state of its own query, or that it is unsupported, over the
      properties it had; the others keep theirs. */
  ghost predicate StatusTells(before: map<Key, Props>, after: map<Key, Props>, targets: map<Key, Query>,
                              unsupported: map<Key, string>, feed: Feed, good: map<string, Record>, tell: Telling) {
    && (forall k | k in targets :: HasState(before, after, k, Kept(feed, good, targets[k]), targets[k], good, tell))
    && (forall k | k in unsupported ::
          k in after && after[k] == PropsAt(before, k) + StatusProps(NotSupported(unsupported[k])))
    && (forall k | k !in targets && k !in unsupported ::
          (k in after <==> k in before) && (k in after ==> after[k] == before[k]))
  }

  lemma RowsSayTheSame(pkgs: seq<PkgRow>, targets: map<Key, Query>, unsupported: map<Key, string>, feed: Feed,
                       good: map<string, Record>, tell: Telling)
    requires AllPackages(pkgs, targets, unsupported, feed, good, tell) && targets.Keys !! unsupported.Keys
    ensures SayTheSame(pkgs, PkgAt, PkgProps)
  {
    forall p, t | p in pkgs && t in pkgs && PkgAt(p) == PkgAt(t) ensures PkgProps(p) == PkgProps(t) {
      if p.key in targets { StateIsUnique(p.status, t.status, Kept(feed, good, targets[p.key]), targets[p.key], good,
                                          tell); }
    }
  }

  lemma {:induction false} StatusIsTold(before: map<Key, Props>, after: map<Key, Props>, pkgs: seq<PkgRow>,
                                        packages: set<Key>, targets: map<Key, Query>, unsupported: map<Key, string>,
                                        feed: Feed, good: map<string, Record>, tell: Telling)
    requires Overlaid(before, after, pkgs, PkgAt, PkgProps, IsIn(packages))
    requires forall k | k in targets || k in unsupported :: k in packages
    requires AllPackages(pkgs, targets, unsupported, feed, good, tell) && targets.Keys !! unsupported.Keys
    ensures StatusTells(before, after, targets, unsupported, feed, good, tell)
  {
    forall k | k in targets || k in unsupported
      ensures k in targets ==> HasState(before, after, k, Kept(feed, good, targets[k]), targets[k], good, tell)
      ensures k in unsupported ==>
                k in after && after[k] == PropsAt(before, k) + StatusProps(NotSupported(unsupported[k]))
    {
      var p := NamedStatus(before, after, pkgs, packages, k);
      if k in targets {
        assert IsState(p.status, Kept(feed, good, targets[k]), targets[k], good, tell);
        assert HasState(before, after, k, Kept(feed, good, targets[k]), targets[k], good, tell);
      }
    }
    forall k | k !in targets && k !in unsupported ensures !Named(pkgs, PkgAt, k) {
    }
  }

  lemma NamedStatus(before: map<Key, Props>, after: map<Key, Props>, pkgs: seq<PkgRow>, packages: set<Key>, k: Key)
    returns (p: PkgRow)
    requires Overlaid(before, after, pkgs, PkgAt, PkgProps, IsIn(packages)) && k in packages && Named(pkgs, PkgAt, k)
    ensures p in pkgs && p.key == k && k in after && after[k] == PropsAt(before, k) + StatusProps(p.status)
  {
    assert IsIn(packages)(k);
    var v :| Says(pkgs, PkgAt, PkgProps, k, v) && after[k] == PropsAt(before, k) + v;
    p :| p in pkgs && PkgAt(p) == k && PkgProps(p) == v;
  }

  /** The rank of the most severe finding any considered package's query has for this advisory. */
  ghost predicate IsSeverestOf(r: nat, id: string, targets: map<Key, Query>, feed: Feed, good: map<string, Record>,
                               tell: Telling)
    requires id in good
  {
    && (forall k | k in targets && id in Kept(feed, good, targets[k]) ::
          r <= tell(Finding(good[id], targets[k])).level)
    && (exists k ::
          k in targets && id in Kept(feed, good, targets[k]) && r == tell(Finding(good[id], targets[k])).level)
  }

  /** Each read record calls itself by the id it was asked for by. */
  ghost predicate OwnIds(good: map<string, Record>) { forall id | id in good :: good[id].id == id }

  ghost predicate IsKept(id: string, targets: map<Key, Query>, feed: Feed, good: map<string, Record>) {
    exists k :: k in targets && id in Kept(feed, good, targets[k])
  }

  /** The kept record of this advisory calls itself `n`. */
  ghost predicate GoesBy(id: string, n: string, targets: map<Key, Query>, feed: Feed, good: map<string, Record>) {
    id in good && good[id].id == n && IsKept(id, targets, feed, good)
  }

  ghost predicate IsOwnId(n: string, targets: map<Key, Query>, feed: Feed, good: map<string, Record>) {
    exists id :: GoesBy(id, n, targets, feed, good)
  }

  /** The nodes gained are those the kept records call themselves. */
  ghost predicate NodesGained(before: set<string>, after: set<string>, targets: map<Key, Query>, feed: Feed,
                              good: map<string, Record>) {
    forall n :: n in after <==> n in before || IsOwnId(n, targets, feed, good)
  }

  /** Of the advisories in this order whose record calls itself `n`, the last. */
  ghost predicate IsLastOf(id: string, n: string, order: seq<string>, good: map<string, Record>) {
    exists i :: 0 <= i < |order| && order[i] == id && CallsItself(order[i], n, good)
      && forall j | i < j < |order| :: !CallsItself(order[j], n, good)
  }

  ghost predicate CallsItself(id: string, n: string, good: map<string, Record>) { id in good && good[id].id == n }

  /** A node that kept records call themselves has the severest rank of the last of them; other nodes keep theirs. */
  ghost predicate RanksTell(before: map<string, nat>, after: map<string, nat>, order: seq<string>,
                            targets: map<Key, Query>, feed: Feed, good: map<string, Record>, tell: Telling) {
    forall n | n in after ::
      if IsOwnId(n, targets, feed, good) then TellsLast(after[n], n, order, targets, feed, good, tell)
      else n in before && after[n] == before[n]
  }

  ghost predicate TellsLast(r: nat, n: string, order: seq<string>, targets: map<Key, Query>, feed: Feed,
                            good: map<string, Record>, tell: Telling) {
    exists id :: IsLastOf(id, n, order, good) && id in good && IsSeverestOf(r, id, targets, feed, good, tell)
  }

  lemma ReturnedIsKept(id: string, targets: map<Key, Query>, qs: seq<Query>, feed: Feed, good: map<string, Record>)
    requires forall q :: q in qs <==> q in targets.Values
    ensures Returned(id, qs, feed, good) <==> IsKept(id, targets, feed, good)
  {
    if q :| q in qs && id in Kept(feed, good, q) {
      var k :| k in targets && targets[k] == q;
      assert id in Kept(feed, good, targets[k]);
    }
    if k :| k in targets && id in Kept(feed, good, targets[k]) {
      assert targets[k] in qs;
    }
  }

  lemma SeverestOfTargets(r: nat, id: string, targets: map<Key, Query>, qs: seq<Query>, feed: Feed,
                          good: map<string, Record>, tell: Telling)
    requires forall q :: q in qs <==> q in targets.Values
    requires id in good && IsSeverest(r, id, qs, feed, good, tell)
    ensures IsSeverestOf(r, id, targets, feed, good, tell)
  {
    var q :| q in qs && id in Kept(feed, good, q) && r == tell(Finding(good[id], q)).level;
    var k :| k in targets && targets[k] == q;
    assert id in Kept(feed, good, targets[k]);
  }

  lemma RanksAreKept(ranks: map<string, nat>, targets: map<Key, Query>, qs: seq<Query>, feed: Feed,
                     good: map<string, Record>, tell: Telling)
    requires forall q :: q in qs <==> q in targets.Values
    requires MostSevere(ranks, qs, feed, good, tell)
    ensures ranks.Keys <= good.Keys && forall id :: id in ranks <==> IsKept(id, targets, feed, good)
  {
    forall id ensures id in ranks <==> IsKept(id, targets, feed, good) {
      ReturnedIsKept(id, targets, qs, feed, good);
    }
  }

  /** The kept advisories, each once. */
  ghost predicate ListsKept(order: seq<string>, targets: map<Key, Query>, feed: Feed, good: map<string, Record>) {
    AllDistinct(order) && forall id :: id in order <==> IsKept(id, targets, feed, good)
  }

  lemma KeptAreGood(order: seq<string>, targets: map<Key, Query>, feed: Feed, good: map<string, Record>)
    requires ListsKept(order, targets, feed, good)
    ensures forall id | id in order :: id in good
  {
    forall id | id in order ensures id in good { assert IsKept(id, targets, feed, good); }
  }

  lemma OwnIdsAreNamed(n: string, order: seq<string>, ranks: map<string, nat>, targets: map<Key, Query>, feed: Feed,
                       good: map<string, Record>)
    requires ListsKept(order, targets, feed, good) && forall id | id in order :: id in ranks && id in good
    ensures Named(VulnRows(order, ranks, good), VulnAt, n) <==> IsOwnId(n, targets, feed, good)
  {
    var rows := VulnRows(order, ranks, good);
    if id :| GoesBy(id, n, targets, feed, good) {
      var i :| 0 <= i < |order| && order[i] == id;
      assert rows[i] in rows && VulnAt(rows[i]) == n;
    }
    if Named(rows, VulnAt, n) {
      var r :| r in rows && VulnAt(r) == n;
      var i :| 0 <= i < |rows| && rows[i] == r;
      assert order[i] in order && GoesBy(order[i], n, targets, feed, good);
    }
  }

  lemma NodesAreGained(before: map<string, nat>, after: map<string, nat>, order: seq<string>, ranks: map<string, nat>,
                       targets: map<Key, Query>, feed: Feed, good: map<string, Record>)
    requires ListsKept(order, targets, feed, good) && forall id | id in order :: id in ranks && id in good
    requires Upserted(before, after, VulnRows(order, ranks, good), VulnAt, VulnRank, AnyId())
    ensures NodesGained(before.Keys, after.Keys, targets, feed, good)
  {
    forall n ensures n in after <==> n in before || IsOwnId(n, targets, feed, good) {
      OwnIdsAreNamed(n, order, ranks, targets, feed, good);
      assert AnyId()(n);
    }
  }

  lemma {:induction false} LastExists(order: seq<string>, n: string, good: map<string, Record>) returns (i: nat)
    requires exists k :: 0 <= k < |order| && CallsItself(order[k], n, good)
    ensures i < |order| && CallsItself(order[i], n, good)
            && forall j | i < j < |order| :: !CallsItself(order[j], n, good)
  {
    i := |order| - 1;
    if !CallsItself(order[i], n, good) {
      var init := order[..i];
      var k :| 0 <= k < |order| && CallsItself(order[k], n, good);
      assert init[k] == order[k];
      i := LastExists(init, n, good);
    }
  }

  lemma LastIsARow(order: seq<string>, ranks: map<string, nat>, n: string, i: nat, good: map<string, Record>)
    requires forall id | id in order :: id in ranks && id in good
    requires i < |order| && CallsItself(order[i], n, good)
             && forall j | i < j < |order| :: !CallsItself(order[j], n, good)
    ensures var rows := VulnRows(order, ranks, good);
            IsLastRow(rows, i) && rows[i] == VulnRow(order[i], n, ranks[order[i]])
  {
    assert forall j | 0 <= j < |order| :: order[j] in order;
  }

  /** The node `n` has the rank of the last row that names it. */
  lemma LastIsTold(after: map<string, nat>, order: seq<string>, ranks: map<string, nat>, n: string,
                   targets: map<Key, Query>, qs: seq<Query>, feed: Feed, good: map<string, Record>, tell: Telling)
    requires MostSevere(ranks, qs, feed, good, tell) && forall q :: q in qs <==> q in targets.Values
    requires ListsKept(order, targets, feed, good) && forall id | id in order :: id in ranks && id in good
    requires LastRowsStand(after, VulnRows(order, ranks, good)) && IsOwnId(n, targets, feed, good)
    ensures n in after && TellsLast(after[n], n, order, targets, feed, good, tell)
  {
    var id :| GoesBy(id, n, targets, feed, good);
    var k :| 0 <= k < |order| && order[k] == id;
    assert CallsItself(order[k], n, good);
    var i := LastExists(order, n, good);
    LastIsARow(order, ranks, n, i, good);
    var last := order[i];
    assert last in order && IsLastOf(last, n, order, good);
    RankIsSeverest(ranks, last, targets, qs, feed, good, tell);
  }

  lemma RankIsSeverest(ranks: map<string, nat>, id: string, targets: map<Key, Query>, qs: seq<Query>, feed: Feed,
                       good: map<string, Record>, tell: Telling)
    requires MostSevere(ranks, qs, feed, good, tell) && (forall q :: q in qs <==> q in targets.Values) && id in ranks
    ensures id in good && IsSeverestOf(ranks[id], id, targets, feed, good, tell)
  {
    SeverestOfTargets(ranks[id], id, targets, qs, feed, good, tell);
  }

  lemma RanksAreTold(before: map<string, nat>, after: map<string, nat>, order: seq<string>, ranks: map<string, nat>,
                     targets: map<Key, Query>, qs: seq<Query>, feed: Feed, good: map<string, Record>, tell: Telling)
    requires MostSevere(ranks, qs, feed, good, tell) && forall q :: q in qs <==> q in targets.Values
    requires ListsKept(order, targets, feed, good) && forall id | id in order :: id in ranks && id in good
    requires Upserted(before, after, VulnRows(order, ranks, good), VulnAt, VulnRank, AnyId())
    requires LastRowsStand(after, VulnRows(order, ranks, good))
    ensures RanksTell(before, after, order, targets, feed, good, tell)
  {
    forall n | n in after
      ensures if IsOwnId(n, targets, feed, good) then TellsLast(after[n], n, order, targets, feed, good, tell)
              else n in before && after[n] == before[n]
    {
      OwnIdsAreNamed(n, order, ranks, targets, feed, good);
      assert AnyId()(n);
      if IsOwnId(n, targets, feed, good) {
        LastIsTold(after, order, ranks, n, targets, qs, feed, good, tell);
      }
    }
  }

  // ---------- whether a node tells the severest of its findings ----------

  /** The severest rank of all kept findings whose record calls itself `n`. */
  ghost predicate IsSeverestBy(r: nat, n: string, targets: map<Key, Query>, feed: Feed, good: map<string, Record>,
                               tell: Telling) {
    && (forall k, id | k in targets && id in Kept(feed, good, targets[k]) && good[id].id == n ::
          r <= tell(Finding(good[id], targets[k])).level)
    && (exists k, id :: k in targets && id in Kept(feed, good, targets[k]) && good[id].id == n
                        && r == tell(Finding(good[id], targets[k])).level)
  }

  /** Every finding of `b` has one of `a` that is as severe. */
  ghost predicate AsSevere(a: string, b: string, targets: map<Key, Query>, feed: Feed, good: map<string, Record>,
                           tell: Telling)
    requires a in good && b in good
  {
    forall l | l in targets && b in Kept(feed, good, targets[l]) ::
      exists k :: k in targets && a in Kept(feed, good, targets[k])
                  && tell(Finding(good[a], targets[k])).level <= tell(Finding(good[b], targets[l])).level
  }

  /** The last advisory in this order that goes by `n` is as severe as every other one that does. */
  ghost predicate LastIsSeverest(n: string, order: seq<string>, targets: map<Key, Query>, feed: Feed,
                                 good: map<string, Record>, tell: Telling) {
    forall id, other | IsLastOf(id, n, order, good) && id in good && GoesBy(other, n, targets, feed, good) ::
      AsSevere(id, other, targets, feed, good, tell)
  }

  lemma AsSevereMeans(r: nat, id: string, other: string, targets: map<Key, Query>, feed: Feed,
                      good: map<string, Record>, tell: Telling)
    requires id in good && other in good && IsSeverestOf(r, id, targets, feed, good, tell)
    ensures AsSevere(id, other, targets, feed, good, tell) <==>
            Bounds(r, other, targets, feed, good, tell)
  {
    var k :| k in targets && id in Kept(feed, good, targets[k]) && r == tell(Finding(good[id], targets[k])).level;
  }

  lemma OneLast(a: string, b: string, n: string, order: seq<string>, good: map<string, Record>)
    requires IsLastOf(a, n, order, good) && IsLastOf(b, n, order, good)
    ensures a == b
  {
  }

  /** Each node that kept records call themselves has the severest rank of their findings exactly when the
      last of those advisories is as severe as the others. */
  ghost predicate SeverestIffLast(ranks: map<string, nat>, order: seq<string>, targets: map<Key, Query>, feed: Feed,
                                  good: map<string, Record>, tell: Telling) {
    forall n | IsOwnId(n, targets, feed, good) ::
      n in ranks && (IsSeverestBy(ranks[n], n, targets, feed, good, tell)
                     <==> LastIsSeverest(n, order, targets, feed, good, tell))
  }

  /** At most as large as the rank of every finding of this advisory. */
  ghost predicate Bounds(r: nat, id: string, targets: map<Key, Query>, feed: Feed, good: map<string, Record>,
                         tell: Telling)
    requires id in good
  {
    forall k | k in targets && id in Kept(feed, good, targets[k]) :: r <= tell(Finding(good[id], targets[k])).level
  }

  lemma SeverestByMeans(r: nat, id: string, n: string, targets: map<Key, Query>, feed: Feed, good: map<string, Record>,
                        tell: Telling)
    requires id in good && good[id].id == n && IsSeverestOf(r, id, targets, feed, good, tell)
    ensures IsSeverestBy(r, n, targets, feed, good, tell) <==>
            forall other | GoesBy(other, n, targets, feed, good) :: Bounds(r, other, targets, feed, good, tell)
  {
    if forall other | GoesBy(other, n, targets, feed, good) :: Bounds(r, other, targets, feed, good, tell) {
      forall k, other | k in targets && other in Kept(feed, good, targets[k]) && good[other].id == n
        ensures r <= tell(Finding(good[other], targets[k])).level
      {
        assert GoesBy(other, n, targets, feed, good);
      }
    }
  }

  /** A node carries the severest rank of all kept findings that go by its id exactly when the last
      advisory that goes by it is as severe as the others. */
  lemma NodeIsSeverestIff(r: nat, n: string, order: seq<string>, targets: map<Key, Query>, feed: Feed,
                          good: map<string, Record>, tell: Telling)
    requires TellsLast(r, n, order, targets, feed, good, tell)
    ensures IsSeverestBy(r, n, targets, feed, good, tell) <==> LastIsSeverest(n, order, targets, feed, good, tell)
  {
    var id :| IsLastOf(id, n, order, good) && id in good && IsSeverestOf(r, id, targets, feed, good, tell);
    forall other | GoesBy(other, n, targets, feed, good)
      ensures AsSevere(id, other, targets, feed, good, tell) <==> Bounds(r, other, targets, feed, good, tell)
    {
      AsSevereMeans(r, id, other, targets, feed, good, tell);
    }
    SeverestByMeans(r, id, n, targets, feed, good, tell);
    forall a | IsLastOf(a, n, order, good) ensures a == id { OneLast(a, id, n, order, good); }
  }

  /** All kept records that call themselves `n` are equally severe. */
  ghost predicate Agree(n: string, targets: map<Key, Query>, feed: Feed, good: map<string, Record>, tell: Telling) {
    forall a, b | GoesBy(a, n, targets, feed, good) && GoesBy(b, n, targets, feed, good) ::
        AsSevere(a, b, targets, feed, good, tell)
  }

  /** In whatever order the advisories are met, the node carries the severest rank, exactly when they agree. */
  lemma AnyOrderIff(n: string, targets: map<Key, Query>, feed: Feed, good: map<string, Record>, tell: Telling)
    ensures (forall order | ListsKept(order, targets, feed, good) ::
               LastIsSeverest(n, order, targets, feed, good, tell))
            <==> Agree(n, targets, feed, good, tell)
  {
    if Agree(n, targets, feed, good, tell) {
      forall order | ListsKept(order, targets, feed, good) ensures LastIsSeverest(n, order, targets, feed, good, tell) {
        LastGoesBy(n, order, targets, feed, good);
      }
    }
    if forall order | ListsKept(order, targets, feed, good) :: LastIsSeverest(n, order, targets, feed, good, tell) {
      forall a, b | GoesBy(a, n, targets, feed, good) && GoesBy(b, n, targets, feed, good)
        ensures AsSevere(a, b, targets, feed, good, tell)
      {
        var order := EndingWith(a, targets, feed, good);
        assert CallsItself(order[|order| - 1], n, good);
        assert IsLastOf(a, n, order, good);
      }
    }
  }

  lemma LastGoesBy(n: string, order: seq<string>, targets: map<Key, Query>, feed: Feed, good: map<string, Record>)
    requires ListsKept(order, targets, feed, good)
    ensures forall id | IsLastOf(id, n, order, good) :: GoesBy(id, n, targets, feed, good)
  {
  }

  /** An order of the kept advisories with this one at the end. */
  lemma EndingWith(a: string, targets: map<Key, Query>, feed: Feed, good: map<string, Record>)
    returns (order: seq<string>)
    requires IsKept(a, targets, feed, good)
    ensures ListsKept(order, targets, feed, good) && order != [] && order[|order| - 1] == a
  {
    var others := set id | id in good && IsKept(id, targets, feed, good) && id != a;
    var list := SetAsList(others);
    assert a !in list;
    order := list + [a];
    assert forall i | 0 <= i < |list| :: list[i] in list && order[i] == list[i];
    forall id ensures id in order <==> IsKept(id, targets, feed, good) {
      if IsKept(id, targets, feed, good) { var k :| k in targets && id in Kept(feed, good, targets[k]); }
    }
  }

  /** Records that go by the ids they were asked for by always agree: each kept advisory has its own
      severest rank, and the other nodes keep theirs. */
  lemma OwnIdsTellRanks(before: map<string, nat>, after: map<string, nat>, order: seq<string>, targets: map<Key, Query>,
                        feed: Feed, good: map<string, Record>, tell: Telling, id: string)
    requires OwnIds(good) && RanksTell(before, after, order, targets, feed, good, tell) && id in after
    ensures if IsKept(id, targets, feed, good) then id in good && IsSeverestOf(after[id], id, targets, feed, good, tell)
            else id in before && after[id] == before[id]
    ensures Agree(id, targets, feed, good, tell)
  {
    OwnIsKept(id, targets, feed, good);
  }

  lemma OwnIsKept(id: string, targets: map<Key, Query>, feed: Feed, good: map<string, Record>)
    requires OwnIds(good)
    ensures IsOwnId(id, targets, feed, good) <==> IsKept(id, targets, feed, good)
    ensures IsKept(id, targets, feed, good) ==> id in good
  {
    if IsKept(id, targets, feed, good) {
      var k :| k in targets && id in Kept(feed, good, targets[k]);
      assert GoesBy(id, id, targets, feed, good);
    }
  }

  lemma EdgesByOwnIds(nodes: set<string>, nodesBefore: set<string>, targets: map<Key, Query>, feed: Feed,
                      good: map<string, Record>)
    requires NodesGained(nodesBefore, nodes, targets, feed, good)
    ensures OwnIds(good) ==> forall k, id | k in targets && id in Kept(feed, good, targets[k]) :: id in nodes
  {
    if OwnIds(good) {
      forall k, id | k in targets && id in Kept(feed, good, targets[k]) ensures id in nodes {
        OwnIsKept(id, targets, feed, good);
      }
    }
  }

  lemma RanksAreSeverestIff(before: map<string, nat>, after: map<string, nat>, order: seq<string>,
                            targets: map<Key, Query>, feed: Feed, good: map<string, Record>, tell: Telling)
    requires RanksTell(before, after, order, targets, feed, good, tell)
             && NodesGained(before.Keys, after.Keys, targets, feed, good)
    ensures SeverestIffLast(after, order, targets, feed, good, tell)
  {
    forall n | IsOwnId(n, targets, feed, good)
      ensures n in after
      ensures IsSeverestBy(after[n], n, targets, feed, good, tell)
              <==> LastIsSeverest(n, order, targets, feed, good, tell)
    {
      NodeIsSeverestIff(after[n], n, order, targets, feed, good, tell);
    }
  }

  lemma StayJoined(before: Edges, after: Edges, packages: set<Key>, nodesBefore: set<string>, targets: map<Key, Query>,
                   unsupported: set<Key>, nodes: set<string>, feed: Feed, good: map<string, Record>, tell: Telling)
    requires forall e | e in before :: e.0 in packages && e.1 in nodesBefore
    requires nodesBefore <= nodes && targets.Keys <= packages
    requires SaysTheFeed(before, after, targets, unsupported, nodes, feed, good, tell)
    ensures forall e | e in after :: e.0 in packages && e.1 in nodes
  {
    forall e | e in after ensures e.0 in packages && e.1 in nodes {
      assert e == (e.0, e.1);
    }
  }

  /** The kept advisories in the order a run meets them: by the first supported row of their packages,
      and in string order within a query. */
  ghost function FeedOrder(rows: seq<Row>, targets: map<Key, Query>, feed: Feed, good: map<string, Record>): seq<string>
    requires forall k :: k in Firsts(SupportedKeys(rows)) <==> k in targets
  {
    Firsts(Returning(feed, good, Firsts(QueriesOf(targets, Firsts(SupportedKeys(rows))))))
  }

  /** The package and vulnerability part of the graph. */
  class Graph {
    var packages: set<Key>
    var vulns: map<string, nat>
    var affected: Edges
    var status: map<Key, Props>

    /** Edges join nodes. */
    ghost predicate Valid()
      reads this
    {
      forall e | e in affected :: e.0 in packages && e.1 in vulns
    }

    method MergeVulnerabilities(rows: seq<VulnRow>)
      modifies this`vulns
      ensures Upserted(old(vulns), vulns, rows, VulnAt, VulnRank, AnyId()) && LastRowsStand(vulns, rows)
    {
      FoldOfUpserts(vulns, rows, VulnAt, VulnRank, AnyId());
      forall i | 0 <= i < |rows| && IsLastRow(rows, i) {
        LastRowDecides(vulns, rows, VulnAt, VulnRank, AnyId(), i);
      }
      vulns := GraphBatch.WriteRows(Upsert(VulnAt, VulnRank, AnyId()), vulns, rows);
    }

    method MergeEdges(rows: seq<EdgeRow>, tell: Telling)
      requires SayTheSame(rows, EdgeAt, EdgeProps(tell))
      modifies this`affected
      ensures Overlaid(old(affected), affected, rows, EdgeAt, EdgeProps(tell), BothIn(packages, vulns.Keys))
    {
      var stmt := Overlay(EdgeAt, EdgeProps(tell), BothIn(packages, vulns.Keys));
      FoldOfOverlays(affected, rows, EdgeAt, EdgeProps(tell), BothIn(packages, vulns.Keys));
      affected := GraphBatch.WriteRows(stmt, affected, rows);
    }

    method SetStatus(rows: seq<PkgRow>)
      requires SayTheSame(rows, PkgAt, PkgProps)
      modifies this`status
      ensures Overlaid(old(status), status, rows, PkgAt, PkgProps, IsIn(packages))
    {
      FoldOfOverlays(status, rows, PkgAt, PkgProps, IsIn(packages));
      status := GraphBatch.WriteRows(Overlay(PkgAt, PkgProps, IsIn(packages)), status, rows);
    }

    method DeleteStale(rows: seq<PkgRow>)
      modifies this`affected
      ensures affected == map e | e in old(affected) && (forall p | p in rows :: !Stale(p, e)) :: old(affected)[e]
    {
      FoldOfDrops(affected, rows);
      affected := GraphBatch.WriteRows(DropStale, affected, rows);
    }

    /** One enrichment run over the packages read from this graph. Each considered package ends with edges
        to exactly the advisories the feed returned for its query whose record was read, whatever edges
        existed before, provided the records go by their own ids; in any case with those of them that
        have a node. */
    method Enrich(rows: seq<Row>, cap: nat, feed: Feed, answers: string -> Option<Record>, tell: Telling)
      returns (targets: map<Key, Query>, unsupported: map<Key, string>, first: set<string>, good: map<string, Record>)
      requires Valid() && Considered(rows) <= packages
      modifies this`vulns, this`affected, this`status
      ensures Valid()
      ensures Partitions(rows, targets, unsupported) && targets.Keys !! unsupported.Keys
      ensures IsFirst(first, Returns(feed, targets), cap) && IsRead(good, first, answers)
      ensures NodesGained(old(vulns).Keys, vulns.Keys, targets, feed, good)
      ensures (forall k :: k in Firsts(SupportedKeys(rows)) <==> k in targets)
      ensures RanksTell(old(vulns), vulns, FeedOrder(rows, targets, feed, good), targets, feed, good, tell)
      ensures SeverestIffLast(vulns, FeedOrder(rows, targets, feed, good), targets, feed, good, tell)
      ensures SaysTheFeed(old(affected), affected, targets, unsupported.Keys, vulns.Keys, feed, good, tell)
      ensures OwnIds(good)
              ==> forall k, id | k in targets :: (k, id) in affected <==> id in Kept(feed, good, targets[k])
      ensures StatusTells(old(status), status, targets, unsupported, feed, good, tell)
    {
      var qlist, plan, pkgs;
      targets, unsupported, qlist, first, good, plan, pkgs := Gather(rows, cap, feed, answers, tell);
      WriteAll(plan, pkgs, targets, unsupported, qlist, feed, good, tell);
      EdgesByOwnIds(vulns.Keys, old(vulns).Keys, targets, feed, good);
      RanksAreSeverestIff(old(vulns), vulns, FeedOrder(rows, targets, feed, good), targets, feed, good, tell);
    }

    method WriteVulnerabilities(order: seq<string>, ranks: map<string, nat>, ghost targets: map<Key, Query>,
                                ghost qs: seq<Query>, ghost feed: Feed, good: map<string, Record>, ghost tell: Telling)
      requires forall q :: q in qs <==> q in targets.Values
      requires MostSevere(ranks, qs, feed, good, tell) && AllDistinct(order)
               && forall id :: id in order <==> id in ranks
      modifies this`vulns
      ensures NodesGained(old(vulns).Keys, vulns.Keys, targets, feed, good)
      ensures RanksTell(old(vulns), vulns, order, targets, feed, good, tell)
    {
      RanksAreKept(ranks, targets, qs, feed, good, tell);
      var rows := VulnRows(order, ranks, good);
      MergeVulnerabilities(rows);
      NodesAreGained(old(vulns), vulns, order, ranks, targets, feed, good);
      RanksAreTold(old(vulns), vulns, order, ranks, targets, qs, feed, good, tell);
    }

    method WriteEdges(rows: seq<EdgeRow>, ghost targets: map<Key, Query>, ghost qs: seq<Query>, ghost feed: Feed,
                      ghost good: map<string, Record>, tell: Telling)
      requires PlannedEdges(rows, targets, qs, feed, good)
      modifies this`affected
      ensures Overlaid(old(affected), affected, rows, EdgeAt, EdgeProps(tell), BothIn(packages, vulns.Keys))
    {
      assert SayTheSame(rows, EdgeAt, EdgeProps(tell));
      MergeEdges(rows, tell);
    }

    method WriteStatus(pkgs: seq<PkgRow>, ghost targets: map<Key, Query>, ghost unsupported: map<Key, string>,
                       ghost feed: Feed, ghost good: map<string, Record>, ghost tell: Telling)
      requires targets.Keys + unsupported.Keys <= packages && targets.Keys !! unsupported.Keys
      requires AllPackages(pkgs, targets, unsupported, feed, good, tell)
      modifies this`status
      ensures StatusTells(old(status), status, targets, unsupported, feed, good, tell)
    {
      RowsSayTheSame(pkgs, targets, unsupported, feed, good, tell);
      SetStatus(pkgs);
      StatusIsTold(old(status), status, pkgs, packages, targets, unsupported, feed, good, tell);
    }

    /** The four writes of a run, in order: vulnerabilities, edges, package states, stale edges. */
    method WriteAll(plan: Plan, pkgs: seq<PkgRow>, ghost targets: map<Key, Query>, ghost unsupported: map<Key, string>,
                    ghost qs: seq<Query>, ghost feed: Feed, good: map<string, Record>, tell: Telling)
      requires Valid() && targets.Keys + unsupported.Keys <= packages && targets.Keys !! unsupported.Keys
      requires forall q :: q in qs <==> q in targets.Values
      requires Planned(plan, targets, qs, feed, good, tell)
      requires AllPackages(pkgs, targets, unsupported, feed, good, tell)
      modifies this`vulns, this`affected, this`status
      ensures Valid()
      ensures NodesGained(old(vulns).Keys, vulns.Keys, targets, feed, good)
      ensures RanksTell(old(vulns), vulns, plan.order, targets, feed, good, tell)
      ensures SaysTheFeed(old(affected), affected, targets, unsupported.Keys, vulns.Keys, feed, good, tell)
      ensures StatusTells(old(status), status, targets, unsupported, feed, good, tell)
    {
      FirstsAreDistinct(Returning(feed, good, qs));
      WriteVulnerabilities(plan.order, plan.ranks, targets, qs, feed, good, tell);
      WriteLinks(plan.edges, pkgs, old(vulns).Keys, targets, unsupported, qs, feed, good, tell);
    }

    /** The last three of them, once every vulnerability has its node. */
    method WriteLinks(edges: seq<EdgeRow>, pkgs: seq<PkgRow>, ghost nodesBefore: set<string>,
                      ghost targets: map<Key, Query>, ghost unsupported: map<Key, string>, ghost qs: seq<Query>,
                      ghost feed: Feed, ghost good: map<string, Record>, tell: Telling)
      requires targets.Keys + unsupported.Keys <= packages && targets.Keys !! unsupported.Keys
      requires nodesBefore <= vulns.Keys && forall e | e in affected :: e.0 in packages && e.1 in nodesBefore
      requires (forall q :: q in qs <==> q in targets.Values) && PlannedEdges(edges, targets, qs, feed, good)
      requires AllPackages(pkgs, targets, unsupported, feed, good, tell)
      modifies this`affected, this`status
      ensures Valid()
      ensures SaysTheFeed(old(affected), affected, targets, unsupported.Keys, vulns.Keys, feed, good, tell)
      ensures StatusTells(old(status), status, targets, unsupported, feed, good, tell)
    {
      WriteEdges(edges, targets, qs, feed, good, tell);
      ghost var merged := affected;
      WriteStatus(pkgs, targets, unsupported, feed, good, tell);
      DeleteStale(pkgs);
      EdgesSayTheFeed(old(affected), merged, affected, edges, pkgs, packages, vulns.Keys, targets, unsupported,
                      qs, feed, good, tell);
      StayJoined(old(affected), affected, packages, nodesBefore, targets, unsupported.Keys, vulns.Keys, feed, good,
                 tell);
    }
  }

  /** Everything a run works out before it writes. */
  method Gather(rows: seq<Row>, cap: nat, feed: Feed, answers: string -> Option<Record>, tell: Telling)
    returns (targets: map<Key, Query>, unsupported: map<Key, string>, qlist: seq<Query>, first: set<string>,
             good: map<string, Record>, plan: Plan, pkgs: seq<PkgRow>)
    ensures Partitions(rows, targets, unsupported) && targets.Keys !! unsupported.Keys
    ensures forall q :: q in qlist <==> q in targets.Values
    ensures forall k :: k in Firsts(SupportedKeys(rows)) <==> k in targets
    ensures qlist == Firsts(QueriesOf(targets, Firsts(SupportedKeys(rows))))
    ensures IsFirst(first, Returns(feed, targets), cap) && IsRead(good, first, answers)
    ensures Planned(plan, targets, qlist, feed, good, tell)
    ensures AllPackages(pkgs, targets, unsupported, feed, good, tell)
  {
    var order, groups;
    targets, unsupported, order := Partition(rows);
    groups, qlist := GroupQueries(targets, order);
    var ids := OsvQueryBatch(feed, qlist);
    UnionIsReturned(ids, qlist, targets, feed);
    first, good := ReadRecords(ids, cap, answers);
    plan := PlanRows(targets, groups, qlist, ids, good, tell, feed);
    pkgs := AddUnsupported(plan.pkgs, targets, unsupported, qlist, good, tell, feed);
  }

  /** All advisories the feed returns for the packages looked up. */
  ghost function Returns(feed: Feed, targets: map<Key, Query>): set<string> {
    set k, id | k in targets && id in AdvisoryIds(feed, targets[k]) :: id
  }

  lemma UnionIsReturned(ids: seq<seq<string>>, qlist: seq<Query>, targets: map<Key, Query>, feed: Feed)
    requires |ids| == |qlist| && forall i | 0 <= i < |ids| :: ids[i] == SortedIds(feed, qlist[i])
    requires forall q :: q in qlist <==> q in targets.Values
    ensures Union(ids) == Returns(feed, targets)
  {
    forall id | id in Union(ids) ensures id in Returns(feed, targets) {
      var i :| 0 <= i < |ids| && id in ids[i];
      assert qlist[i] in qlist;
      IdsAreSorted(feed, qlist[i]);
      var k :| k in targets && targets[k] == qlist[i];
    }
    forall id | id in Returns(feed, targets) ensures id in Union(ids) {
      var k :| k in targets && id in AdvisoryIds(feed, targets[k]);
      assert targets[k] in qlist;
      var i :| 0 <= i < |qlist| && qlist[i] == targets[k];
      IdsAreSorted(feed, qlist[i]);
      assert id in ids[i];
    }
  }

  method AddUnsupported(checked: seq<PkgRow>, targets: map<Key, Query>, unsupported: map<Key, string>,
                        ghost qs: seq<Query>, good: map<string, Record>, tell: Telling, ghost feed: Feed)
    returns (pkgs: seq<PkgRow>)
    requires PlannedPackages(checked, targets, qs, feed, good, tell)
    requires forall k | k in targets :: targets[k] in qs
    ensures AllPackages(pkgs, targets, unsupported, feed, good, tell)
  {
    var list := ListSet(unsupported.Keys);
    assert forall i | 0 <= i < |list| :: list[i] in list;
    var more := seq(|list|, i requires 0 <= i < |list| => PkgRow(list[i], None, NotSupported(unsupported[list[i]])));
    pkgs := checked + more;
    forall k | k in targets ensures Named(pkgs, PkgAt, k) {
      assert targets[k] in qs;
      var p :| p in checked && p.key == k;
      assert p in pkgs && PkgAt(p) == k;
    }
    forall k | k in unsupported ensures Named(pkgs, PkgAt, k) {
      var i :| 0 <= i < |list| && list[i] == k;
      assert more[i] in pkgs && PkgAt(more[i]) == k;
    }
  }

  /** What is kept is all that the feed returned exactly when the cap covers it and every record answers. */
  lemma KeptIsAllIff(feed: Feed, targets: map<Key, Query>, cap: nat, answers: string -> Option<Record>,
                     first: set<string>, good: map<string, Record>)
    requires IsFirst(first, Returns(feed, targets), cap) && IsRead(good, first, answers)
    ensures (forall k | k in targets :: Kept(feed, good, targets[k]) == AdvisoryIds(feed, targets[k]))
            <==> |Returns(feed, targets)| <= cap && forall id | id in Returns(feed, targets) :: answers(id).Some?
  {
    var all := Returns(feed, targets);
    if |all| <= cap {
      SameSize(first, all);
    }
    assert forall k | k in targets :: AdvisoryIds(feed, targets[k]) <= all;
    if forall k | k in targets :: Kept(feed, good, targets[k]) == AdvisoryIds(feed, targets[k]) {
      forall id | id in all ensures id in first && answers(id).Some? {
        var k :| k in targets && id in AdvisoryIds(feed, targets[k]);
        assert id in Kept(feed, good, targets[k]);
      }
      assert first == all;
    }
  }

  // ---------- which properties are exact ----------

  ghost function Had(p: Props, name: Name): Option<Value> { if name in p then Some(p[name]) else None }

  /** The property has this value, or is absent. */
  ghost predicate Has(p: Props, name: Name, v: Option<Value>) { Had(p, name) == v }

  /** The text is the name of the level. */
  ghost predicate IsLevelWord(l: nat, word: string) {
    && (l == 0 ==> word == "critical") && (l == 1 ==> word == "high") && (l == 2 ==> word == "medium")
    && (l == 3 ==> word == "low") && (l == 4 ==> word == "negligible") && (l == 5 ==> word == "none")
    && (l == 6 ==> word == "unknown")
  }

  ghost predicate HasWord(p: Props, name: Name, l: nat) { name in p && p[name].Str? && IsLevelWord(l, p[name].s) }

  /** What an edge says of a finding, property by property: whether and in which version there is a
      fix, the query's ecosystem and package, the name of the level and the source. The urgency is the
      record's, or what it was if the record has none; everything else is what it was. */
  ghost predicate TellsFinding(had: Props, has: Props, d: Detail, q: Query) {
    && Has(has, FixAvailable, Some(Flag(d.fixed != ""))) && Has(has, FixedVersion, Some(Str(d.fixed)))
    && Has(has, Ecosystem, Some(Str(q.ecosystem))) && Has(has, SourcePackage, Some(Str(q.source)))
    && HasWord(has, Severity, d.level) && Has(has, Source, Some(Str("osv.dev")))
    && Has(has, Urgency, if d.urgency.Some? then Some(Str(d.urgency.value)) else Had(had, Urgency))
    && forall name | name !in {FixAvailable, FixedVersion, Ecosystem, SourcePackage, Severity, Source, Urgency} ::
         Has(has, name, Had(had, name))
  }

  lemma FindingIsTold(had: Props, tell: Telling, f: Finding)
    ensures TellsFinding(had, had + FindingProps(tell, f), tell(f), f.query)
  {
    LevelHasName(tell(f).level);
  }

  lemma LevelHasName(l: nat)
    requires l < 7
    ensures IsLevelWord(l, LevelName(l))
  {
  }

  lemma EdgeTellsExactly(before: Edges, after: Edges, targets: map<Key, Query>, unsupported: set<Key>,
                         nodes: set<string>, feed: Feed, good: map<string, Record>, tell: Telling, k: Key, id: string)
    requires SaysTheFeed(before, after, targets, unsupported, nodes, feed, good, tell)
    requires k in targets && (k, id) in after && id in good
    ensures var had := if (k, id) in before then before[(k, id)] else map[];
            TellsFinding(had, after[(k, id)], tell(Finding(good[id], targets[k])), targets[k])
  {
    FindingIsTold(PropsAt(before, (k, id)), tell, Finding(good[id], targets[k]));
  }

  /** So an edge tells the urgency of its record exactly when the record has one or the edge had none. */
  lemma UrgencyIsToldIff(had: Props, has: Props, d: Detail, q: Query)
    requires TellsFinding(had, has, d, q)
    ensures Has(has, Urgency, if d.urgency.Some? then Some(Str(d.urgency.value)) else None) <==>
            d.urgency.Some? || Urgency !in had
  {
  }

  /** The most severe level of the kept findings of a query. */
  ghost predicate IsWorstLevel(l: nat, kept: set<string>, q: Query, good: map<string, Record>, tell: Telling)
    requires kept <= good.Keys
  {
    && (exists id :: id in kept && tell(Finding(good[id], q)).level == l)
    && forall id | id in kept :: l <= tell(Finding(good[id], q)).level
  }

  /** What a package that was looked up says, property by property. */
  ghost predicate TellsChecked(had: Props, has: Props, kept: set<string>, q: Query, good: map<string, Record>,
                               tell: Telling)
    requires kept <= good.Keys
  {
    && Has(has, VulnStatus, Some(Str("checked"))) && Has(has, VulnEcosystem, Some(Str(q.ecosystem)))
    && Has(has, SourcePackage, Some(Str(q.source))) && Has(has, VulnNote, Some(Str("")))
    && Has(has, VulnCount, Some(Number(|kept|)))
    && Has(has, VulnFixable, Some(Number(|set id | id in kept && tell(Finding(good[id], q)).fixed != ""|)))
    && (if kept == {} then Has(has, VulnMaxSeverity, Some(Str("none")))
        else exists l: nat :: IsWorstLevel(l, kept, q, good, tell) && HasWord(has, VulnMaxSeverity, l))
    && forall name | name !in {VulnStatus, VulnEcosystem, SourcePackage, VulnNote, VulnCount, VulnFixable,
                               VulnMaxSeverity} :: Has(has, name, Had(had, name))
  }

  lemma StateIsTold(had: Props, st: Status, kept: set<string>, q: Query, good: map<string, Record>, tell: Telling)
    requires kept <= good.Keys && IsState(st, kept, q, good, tell)
    ensures TellsChecked(had, had + StatusProps(st), kept, q, good, tell)
  {
    var has := had + StatusProps(st);
    assert Fixable(kept, q, good, tell) == set id | id in kept && tell(Finding(good[id], q)).fixed != "";
    if kept != {} {
      var l := st.worst.value;
      assert IsWorstLevel(l, kept, q, good, tell);
      LevelHasName(l);
      assert HasWord(has, VulnMaxSeverity, l);
    }
  }

  lemma CheckedTellsExactly(before: map<Key, Props>, after: map<Key, Props>, targets: map<Key, Query>,
                            unsupported: map<Key, string>, feed: Feed, good: map<string, Record>, tell: Telling, k: Key)
    requires StatusTells(before, after, targets, unsupported, feed, good, tell) && k in targets
    ensures k in after
    ensures TellsChecked(if k in before then before[k] else map[], after[k], AdvisoryIds(feed, targets[k]) * good.Keys,
                         targets[k], good, tell)
  {
    var q := targets[k];
    var kept := Kept(feed, good, q);
    assert HasState(before, after, k, kept, q, good, tell);
    var st :| IsState(st, kept, q, good, tell) && k in after && after[k] == PropsAt(before, k) + StatusProps(st);
    StateIsTold(PropsAt(before, k), st, kept, q, good, tell);
  }

  /** A package that is found unsupported says so and why, and keeps every other property of an earlier run. */
  ghost predicate TellsUnsupported(had: Props, has: Props, reason: string) {
    && Has(has, VulnStatus, Some(Str("unsupported"))) && Has(has, VulnNote, Some(Str(reason)))
    && forall name | name !in {VulnStatus, VulnNote} :: Has(has, name, Had(had, name))
  }

  lemma ReasonIsTold(had: Props, reason: string)
    ensures TellsUnsupported(had, had + StatusProps(NotSupported(reason)), reason)
  {
  }

  lemma UnsupportedTellsExactly(before: map<Key, Props>, after: map<Key, Props>, targets: map<Key, Query>,
                                unsupported: map<Key, string>, feed: Feed, good: map<string, Record>, tell: Telling,
                                k: Key)
    requires StatusTells(before, after, targets, unsupported, feed, good, tell) && k in unsupported
    ensures k in after
    ensures TellsUnsupported(if k in before then before[k] else map[], after[k], unsupported[k])
  {
    ReasonIsTold(PropsAt(before, k), unsupported[k]);
  }

  /** The advisories of a query are the non-empty ids on the first page and up to twenty more. */
  lemma IdsAreThoseOnPages(feed: Feed, q: Query, id: string)
    ensures id in AdvisoryIds(feed, q) <==> id != "" && exists p :: 0 <= p < |feed(q)| && p <= 20 && id in feed(q)[p]
  {
  }

  // ---------- the order of a run, row by row ----------

  function WasRead(good: map<string, Record>): string -> bool { (id: string) => id in good }

  lemma {:induction false} KeptIsFilter(ids: seq<string>, good: map<string, Record>)
    ensures KeptIds(ids, good) == Filter(ids, WasRead(good))
  {
    if ids != [] { KeptIsFilter(ids[..|ids| - 1], good); }
  }

  /** For each row of a package that is looked up, the advisories of its query that were read, sorted. */
  ghost function MetByRows(rows: seq<Row>, targets: map<Key, Query>, feed: Feed, good: map<string, Record>)
    : seq<string>
  {
    if rows == [] then []
    else
      var init, r := rows[..|rows| - 1], rows[|rows| - 1];
      MetByRows(init, targets, feed, good)
      + if r.Supported? && r.key in targets then Filter(SortedIds(feed, targets[r.key]), WasRead(good)) else []
  }

  lemma ReturningStep(feed: Feed, good: map<string, Record>, qs: seq<Query>, q: Query)
    ensures Returning(feed, good, qs + [q]) == Returning(feed, good, qs) + KeptIds(SortedIds(feed, q), good)
  {
    assert (qs + [q])[..|qs|] == qs;
  }

  lemma {:induction false} ReturningHas(feed: Feed, good: map<string, Record>, qs: seq<Query>, q: Query, id: string)
    requires q in qs && id in KeptIds(SortedIds(feed, q), good)
    ensures id in Returning(feed, good, qs)
  {
    var init, last := qs[..|qs| - 1], qs[|qs| - 1];
    assert qs == init + [last];
    if q != last { ReturningHas(feed, good, init, q, id); }
  }

  /** A query asked again returns nothing new. */
  lemma {:induction false} EachQueryOnce(feed: Feed, good: map<string, Record>, qs: seq<Query>)
    ensures Firsts(Returning(feed, good, Firsts(qs))) == Firsts(Returning(feed, good, qs))
  {
    if qs != [] {
      var init, last := qs[..|qs| - 1], qs[|qs| - 1];
      var ids := KeptIds(SortedIds(feed, last), good);
      assert qs == init + [last];
      EachQueryOnce(feed, good, init);
      ReturningStep(feed, good, init, last);
      FirstsStep(init, last);
      FirstsAreDistinct(init);
      if last in init {
        forall id | id in ids { ReturningHas(feed, good, init, last, id); }
        AddsNothing(Returning(feed, good, init), ids);
      } else {
        ReturningStep(feed, good, Firsts(init), last);
        FirstsThen(Returning(feed, good, Firsts(init)), Returning(feed, good, init), ids);
      }
    }
  }

  /** A package met again adds no query. */
  lemma {:induction false} EachPackageOnce(targets: map<Key, Query>, keys: seq<Key>)
    requires forall k | k in keys :: k in targets
    ensures forall k | k in Firsts(keys) :: k in targets
    ensures Firsts(QueriesOf(targets, Firsts(keys))) == Firsts(QueriesOf(targets, keys))
  {
    FirstsAreDistinct(keys);
    if keys != [] {
      var init, last := keys[..|keys| - 1], keys[|keys| - 1];
      assert keys == init + [last];
      EachPackageOnce(targets, init);
      FirstsStep(init, last);
      FirstsAreDistinct(init);
      QueryStep(targets, init, last);
      if last in init {
        var i :| 0 <= i < |init| && init[i] == last;
        assert QueriesOf(targets, init)[i] == targets[last];
        FirstsAreDistinct(QueriesOf(targets, init));
      } else {
        QueryStep(targets, Firsts(init), last);
      }
    }
  }

  lemma {:induction false} RowsReturn(rows: seq<Row>, targets: map<Key, Query>, feed: Feed, good: map<string, Record>)
    requires forall k | k in SupportedKeys(rows) :: k in targets
    ensures Returning(feed, good, QueriesOf(targets, SupportedKeys(rows))) == MetByRows(rows, targets, feed, good)
  {
    if rows != [] {
      var init, r := rows[..|rows| - 1], rows[|rows| - 1];
      var keys := SupportedKeys(init);
      assert SupportedKeys(rows) == keys + if r.Supported? then [r.key] else [];
      assert forall k | k in keys :: k in SupportedKeys(rows);
      RowsReturn(init, targets, feed, good);
      if r.Supported? {
        assert r.key in SupportedKeys(rows);
        OneMoreReturns(targets, keys, r.key, feed, good);
      } else {
        assert SupportedKeys(rows) == keys;
      }
    }
  }

  lemma OneMoreReturns(targets: map<Key, Query>, keys: seq<Key>, k: Key, feed: Feed, good: map<string, Record>)
    requires (forall j | j in keys :: j in targets) && k in targets
    ensures Returning(feed, good, QueriesOf(targets, keys + [k]))
            == Returning(feed, good, QueriesOf(targets, keys)) + Filter(SortedIds(feed, targets[k]), WasRead(good))
  {
    assert QueriesOf(targets, keys + [k]) == QueriesOf(targets, keys) + [targets[k]];
    ReturningStep(feed, good, QueriesOf(targets, keys), targets[k]);
    KeptIsFilter(SortedIds(feed, targets[k]), good);
  }

  /** A run meets the advisories in the order of the rows, and in string order within one. */
  lemma OrderIsByRows(rows: seq<Row>, targets: map<Key, Query>, feed: Feed, good: map<string, Record>)
    requires forall k :: k in Firsts(SupportedKeys(rows)) <==> k in targets
    ensures FeedOrder(rows, targets, feed, good) == Firsts(MetByRows(rows, targets, feed, good))
  {
    var keys := SupportedKeys(rows);
    FirstsAreDistinct(keys);
    forall k | k in keys ensures k in targets { assert k in Firsts(keys); }
    EachPackageOnce(targets, keys);
    EachQueryOnce(feed, good, QueriesOf(targets, Firsts(keys)));
    EachQueryOnce(feed, good, QueriesOf(targets, keys));
    RowsReturn(rows, targets, feed, good);
  }

  // ---------- records that go by another id ----------

  /** The edges are exactly the kept advisories if and only if each of them had a node or is what some
      kept record calls itself. */
  lemma EdgesAreKeptIff(before: Edges, after: Edges, targets: map<Key, Query>, unsupported: set<Key>,
                        nodesBefore: set<string>, nodes: set<string>, feed: Feed, good: map<string, Record>,
                        tell: Telling)
    requires SaysTheFeed(before, after, targets, unsupported, nodes, feed, good, tell)
    requires NodesGained(nodesBefore, nodes, targets, feed, good)
    ensures (forall k, id | k in targets :: (k, id) in after <==> id in Kept(feed, good, targets[k])) <==>
            forall id | IsKept(id, targets, feed, good) :: id in nodesBefore || IsOwnId(id, targets, feed, good)
  {
    if forall k, id | k in targets :: (k, id) in after <==> id in Kept(feed, good, targets[k]) {
      forall id | IsKept(id, targets, feed, good) ensures id in nodesBefore || IsOwnId(id, targets, feed, good) {
        var k :| k in targets && id in Kept(feed, good, targets[k]);
        assert (k, id) in after;
      }
    }
    if forall id | IsKept(id, targets, feed, good) :: id in nodesBefore || IsOwnId(id, targets, feed, good) {
      forall k, id | k in targets && id in Kept(feed, good, targets[k]) ensures id in nodes {
        assert IsKept(id, targets, feed, good);
      }
    }
  }

  const A_KEY: Key := ("zlib", "1.2")
  const A_QUERY := Query("Debian:12", "zlib", "1.2")

  /** A run in which the feed names CVE-1 for the one package and the record that answers calls itself
      DSA-1 leaves the package without an edge. */
  lemma RenamedRecordLosesItsEdge(before: Edges, after: Edges, nodesBefore: set<string>, nodes: set<string>, feed: Feed,
                                  tell: Telling)
    requires feed(A_QUERY) == [["CVE-1"]] && "CVE-1" !in nodesBefore
    requires NodesGained(nodesBefore, nodes, map[A_KEY := A_QUERY], feed, map["CVE-1" := Record("DSA-1", "")])
    requires SaysTheFeed(before, after, map[A_KEY := A_QUERY], {}, nodes, feed, map["CVE-1" := Record("DSA-1", "")],
                         tell)
    ensures "CVE-1" in Kept(feed, map["CVE-1" := Record("DSA-1", "")], A_QUERY)
    ensures forall id :: (A_KEY, id) !in after
  {
    var good := map["CVE-1" := Record("DSA-1", "")];
    assert feed(A_QUERY)[0] == ["CVE-1"] && "CVE-1" in feed(A_QUERY)[0];
    assert "CVE-1" in AdvisoryIds(feed, A_QUERY);
    assert "CVE-1" !in nodes;
    assert forall id | id in Kept(feed, good, A_QUERY) :: id == "CVE-1";
  }

  // ---------- records that share another id ----------

  const TWO_IDS: map<string, Record> := map["CVE-1" := Record("DSA-1", "critical"), "CVE-2" := Record("DSA-1", "low")]

  lemma FirstsOfPair<T>(a: T, b: T)
    requires a != b
    ensures Firsts([a]) == [a] && Firsts([a, b]) == [a, b]
  {
    assert [a][..0] == [] && [a, b][..1] == [a];
  }

  lemma OnePage(feed: Feed, q: Query, a: string, b: string)
    requires feed(q) == [[a, b]] && a != b && a != "" && b != "" && Text.Leq(a, b)
    ensures SortedIds(feed, q) == [a, b]
  {
    var pages, ids := feed(q), [a, b];
    assert ids[1..] == [b] && [b][1..] == [];
    assert NonEmpty([b]) == [b];
    assert NonEmpty(ids) == ids;
    assert Listed(pages, 0) == [];
    assert Listed(pages, 1) == ids;
    FirstsOfPair(a, b);
    assert Text.Sort([b]) == [b];
  }

  lemma OneQuery(feed: Feed, good: map<string, Record>, q: Query, a: string, b: string)
    requires SortedIds(feed, q) == [a, b] && a != b && a in good && b in good
    ensures Firsts(Returning(feed, good, [q])) == [a, b]
  {
    var ids := [a, b];
    assert ids[..1] == [a] && [a][..0] == [];
    assert KeptIds([a], good) == [a];
    assert KeptIds(ids, good) == ids;
    assert [q][..0] == [];
    assert Returning(feed, good, [q]) == ids;
    FirstsOfPair(a, b);
  }

  lemma OneRow(k: Key, q: Query)
    ensures Firsts(SupportedKeys([Supported(k, q)])) == [k] && Firsts(QueriesOf(map[k := q], [k])) == [q]
  {
    var rows := [Supported(k, q)];
    assert rows[..0] == [] && [k][..0] == [] && [q][..0] == [];
    assert SupportedKeys(rows) == [k];
    assert QueriesOf(map[k := q], [k]) == [q];
  }

  lemma OnePackageOrder(feed: Feed)
    requires feed(A_QUERY) == [["CVE-1", "CVE-2"]]
    ensures var rows, targets := [Supported(A_KEY, A_QUERY)], map[A_KEY := A_QUERY];
            && (forall k :: k in Firsts(SupportedKeys(rows)) <==> k in targets)
            && FeedOrder(rows, targets, feed, TWO_IDS) == ["CVE-1", "CVE-2"]
    ensures Kept(feed, TWO_IDS, A_QUERY) == {"CVE-1", "CVE-2"}
  {
    Text.LeqBehind("CVE-", "1", "2");
    assert "CVE-" + "1" == "CVE-1" && "CVE-" + "2" == "CVE-2";
    OnePage(feed, A_QUERY, "CVE-1", "CVE-2");
    OneQuery(feed, TWO_IDS, A_QUERY, "CVE-1", "CVE-2");
    OneRow(A_KEY, A_QUERY);
    IdsAreSorted(feed, A_QUERY);
    assert forall id :: id in ["CVE-1", "CVE-2"] <==> id in {"CVE-1", "CVE-2"};
  }

  /** Of two advisories of one package that go by one id, the second decides. */
  lemma LastOfTwo(k: Key, q: Query, a: string, b: string, n: string, before: map<string, nat>, after: map<string, nat>,
                  feed: Feed, good: map<string, Record>, tell: Telling)
    requires a in good && b in good && good[b].id == n && b in Kept(feed, good, q)
    requires RanksTell(before, after, [a, b], map[k := q], feed, good, tell)
    requires NodesGained(before.Keys, after.Keys, map[k := q], feed, good)
    ensures n in after && after[n] == tell(Finding(good[b], q)).level
  {
    var targets, order := map[k := q], [a, b];
    assert k in targets && b in Kept(feed, good, targets[k]);
    assert GoesBy(b, n, targets, feed, good);
    assert IsOwnId(n, targets, feed, good);
    var id :| IsLastOf(id, n, order, good) && id in good && IsSeverestOf(after[n], id, targets, feed, good, tell);
    assert CallsItself(order[1], n, good);
    assert id == b;
  }

  /** The severest of the findings that go by the id is that of `a`, if no level is below its. */
  lemma SeverestOfTwo(k: Key, q: Query, a: string, n: string, feed: Feed, good: map<string, Record>, tell: Telling)
    requires a in good && good[a].id == n && a in Kept(feed, good, q) && tell(Finding(good[a], q)).level == 0
    ensures IsSeverestBy(0, n, map[k := q], feed, good, tell)
  {
    var targets := map[k := q];
    assert k in targets && a in Kept(feed, good, targets[k]) && good[a].id == n
           && 0 == tell(Finding(good[a], targets[k])).level;
  }

  /** A run in which the feed names a critical and a low advisory and both records call themselves DSA-1:
      the node ends low. */
  lemma SharedIdHidesSeverity(before: map<string, nat>, after: map<string, nat>, feed: Feed, tell: Telling)
    requires feed(A_QUERY) == [["CVE-1", "CVE-2"]]
    requires tell(Finding(Record("DSA-1", "critical"), A_QUERY)).level == 0
    requires tell(Finding(Record("DSA-1", "low"), A_QUERY)).level == 3
    requires RanksTell(before, after, ["CVE-1", "CVE-2"], map[A_KEY := A_QUERY], feed, TWO_IDS, tell)
    requires NodesGained(before.Keys, after.Keys, map[A_KEY := A_QUERY], feed, TWO_IDS)
    ensures var rows, targets := [Supported(A_KEY, A_QUERY)], map[A_KEY := A_QUERY];
            && (forall k :: k in Firsts(SupportedKeys(rows)) <==> k in targets)
            && FeedOrder(rows, targets, feed, TWO_IDS) == ["CVE-1", "CVE-2"]
            && "DSA-1" in after && after["DSA-1"] == 3 && IsSeverestBy(0, "DSA-1", targets, feed, TWO_IDS, tell)
  {
    var targets := map[A_KEY := A_QUERY];
    OnePackageOrder(feed);
    assert A_KEY in targets && "CVE-1" in Kept(feed, TWO_IDS, A_QUERY) && "CVE-2" in Kept(feed, TWO_IDS, A_QUERY);
    LastOfTwo(A_KEY, A_QUERY, "CVE-1", "CVE-2", "DSA-1", before, after, feed, TWO_IDS, tell);
    SeverestOfTwo(A_KEY, A_QUERY, "CVE-1", "DSA-1", feed, TWO_IDS, tell);
  }
}
