/** Reading a host's packages page by page and reconciling the graph with them
    (tools/package-inventory/src/main.rs:22-36, tools/librarian/collect_inventory.py:171-216,
    tools/librarian/ingest_inventory.py:154-232). */
module Inventory {
  import Collections
  import GraphBatch
  import opened Wrappers

  datatype Pkg = Pkg(name: string, version: string, source: string)

  /** A package node's merge key. */
  type Key = (string, string)

  const PKG_PAGE := 500
  const SMALL := "abcdefghijklmnopqrstuvwxyz"
  const DIGITS := "0123456789"
  const CAPITALS := "ABCDEFGHIJKLMNOPQRSTUVWXYZ"
  const PREFIX_CHARS := SMALL + DIGITS + CAPITALS
  const MAX_PREFIX_DEPTH := 3

  function KeyOf(p: Pkg): Key { (p.name, p.version) }

  function KeysOf(ps: seq<Pkg>): set<Key> { set p | p in ps && p.name != "" :: KeyOf(p) }

  // ---------- the node's tool ----------

  datatype Output = Output(total: nat, truncated: bool, packages: seq<Pkg>)

  function Matching(installed: seq<Pkg>, prefix: string): seq<Pkg> {
    if installed == [] then []
    else (if prefix <= installed[0].name then [installed[0]] else []) + Matching(installed[1..], prefix)
  }

  /** `package-inventory`: the packages whose name has the prefix, cut at `max`. */
  function PackageInventory(installed: seq<Pkg>, max: nat, prefix: string): Output {
    var pkgs := Matching(installed, prefix);
    Output(|installed|, |pkgs| > max, if |pkgs| > max then pkgs[..max] else pkgs)
  }

  function HasPrefix(prefix: string): Pkg -> bool { (p: Pkg) => prefix <= p.name }

  lemma {:induction false} MatchingFilters(installed: seq<Pkg>, prefix: string)
    ensures Matching(installed, prefix) == Collections.Filter(installed, HasPrefix(prefix))
  {
    var keep := HasPrefix(prefix);
    if installed != [] {
      MatchingFilters(installed[1..], prefix);
      assert installed == [installed[0]] + installed[1..];
      Collections.FilterAppend([installed[0]], installed[1..], keep);
      Collections.FilterOne(installed[0], keep);
    }
  }

  /** The contract the collector relies on: the answer lists the first `max` of the installed packages
      with the prefix, tells whether there are more, and gives the total of the whole host. */
  lemma NodeContract(installed: seq<Pkg>, max: nat, prefix: string)
    ensures var out, all := PackageInventory(installed, max, prefix), Collections.Filter(installed, HasPrefix(prefix));
            && out.total == |installed| && (out.truncated <==> |all| > max)
            && out.packages <= all && |out.packages| == (if |all| > max then max else |all|)
            && (forall p | p in out.packages :: p in installed && prefix <= p.name)
            && (!out.truncated ==> forall p | p in installed && prefix <= p.name :: p in out.packages)
  {
    MatchingFilters(installed, prefix);
    forall p { Collections.FilterKeeps(installed, HasPrefix(prefix), p); }
    var out, all := PackageInventory(installed, max, prefix), Collections.Filter(installed, HasPrefix(prefix));
    assert forall p | p in out.packages :: p in all;
  }

  /** The one-page call of a host with at most 500 packages lists them all. */
  lemma SmallHostFits(installed: seq<Pkg>)
    requires |installed| <= 500
    ensures PackageInventory(installed, PKG_PAGE, "") == Output(|installed|, false, installed)
  {
    NodeContract(installed, PKG_PAGE, "");
    WholeHost(installed);
  }

  lemma {:induction false} WholeHost(installed: seq<Pkg>)
    ensures Collections.Filter(installed, HasPrefix("")) == installed
  {
    if installed != [] {
      WholeHost(installed[..|installed| - 1]);
      assert installed == installed[..|installed| - 1] + [installed[|installed| - 1]];
    }
  }

  // ---------- the prefix-tree walk ----------

  /** Every name in `rows` is that of an installed package under its own key. */
  ghost predicate FromHost(rows: map<Key, Pkg>, installed: seq<Pkg>) {
    forall k | k in rows :: k.0 != "" && rows[k] in installed && KeyOf(rows[k]) == k
  }

  /** The walk from `prefix` comes to the page that lists `name`: at each truncated page above the
      depth limit the next character has to be one the walk tries. */
  ghost predicate Reached(installed: seq<Pkg>, chars: string, name: string, prefix: string)
    decreases MAX_PREFIX_DEPTH - |prefix|
  {
    && prefix <= name
    && (Descends(installed, prefix) ==>
          |name| > |prefix| && name[|prefix|] in chars && Reached(installed, chars, name, prefix + [name[|prefix|]]))
  }

  predicate Descends(installed: seq<Pkg>, prefix: string) {
    |prefix| < MAX_PREFIX_DEPTH && PackageInventory(installed, PKG_PAGE, prefix).truncated
  }

  /** Every named package the walk from `prefix` reaches is among the rows. */
  ghost predicate Holds(rows: map<Key, Pkg>, installed: seq<Pkg>, chars: string, prefix: string) {
    forall p | p in installed && p.name != "" && Reached(installed, chars, p.name, prefix) :: KeyOf(p) in rows
  }

  ghost predicate HoldsChildren(rows: map<Key, Pkg>, installed: seq<Pkg>, chars: string, prefix: string, n: nat) {
    n <= |chars| && forall j | 0 <= j < n :: Holds(rows, installed, chars, prefix + [chars[j]])
  }

  lemma HoldsChildrenGrows(a: map<Key, Pkg>, b: map<Key, Pkg>, installed: seq<Pkg>, chars: string, prefix: string,
                           n: nat)
    requires HoldsChildren(a, installed, chars, prefix, n) && a.Keys <= b.Keys
    ensures HoldsChildren(b, installed, chars, prefix, n)
  {
    forall j | 0 <= j < n ensures Holds(b, installed, chars, prefix + [chars[j]]) {
      assert Holds(a, installed, chars, prefix + [chars[j]]);
    }
  }

  lemma HoldsFromChildren(rows: map<Key, Pkg>, installed: seq<Pkg>, chars: string, prefix: string)
    requires HoldsChildren(rows, installed, chars, prefix, |chars|) && Descends(installed, prefix)
    ensures Holds(rows, installed, chars, prefix)
  {
    forall p | p in installed && p.name != "" && Reached(installed, chars, p.name, prefix) ensures KeyOf(p) in rows {
      var j :| 0 <= j < |chars| && chars[j] == p.name[|prefix|];
      assert Holds(rows, installed, chars, prefix + [chars[j]]);
    }
  }

  /** A text that lists `n` characters in a row. */
  ghost predicate IsRange(s: string, first: char, n: nat) {
    |s| == n && forall i | 0 <= i < n :: s[i] as int == first as int + i
  }

  lemma RangeHolds(s: string, first: char, n: nat, c: char)
    requires IsRange(s, first, n)
    ensures c in s <==> first as int <= c as int < first as int + n
  {
    if first as int <= c as int < first as int + n { assert s[c as int - first as int] == c; }
  }

  /** The next characters tried are the ASCII letters and digits. */
  lemma PrefixCharsAreAlphanumeric(c: char)
    ensures c in PREFIX_CHARS <==> 'a' <= c <= 'z' || 'A' <= c <= 'Z' || '0' <= c <= '9'
  {
    RangeHolds(SMALL, 'a', 26, c);
    RangeHolds(DIGITS, '0', 10, c);
    RangeHolds(CAPITALS, 'A', 26, c);
    assert c in PREFIX_CHARS <==> c in SMALL || c in DIGITS || c in CAPITALS;
  }

  /** The walk from `prefix` reads a page that lists the package. */
  ghost predicate Seen(installed: seq<Pkg>, answers: string -> bool, chars: string, p: Pkg, prefix: string)
    decreases MAX_PREFIX_DEPTH - |prefix|
  {
    && answers(prefix) && prefix <= p.name
    && if Descends(installed, prefix)
       then |p.name| > |prefix| && p.name[|prefix|] in chars
            && Seen(installed, answers, chars, p, prefix + [p.name[|prefix|]])
       else p in PackageInventory(installed, PKG_PAGE, prefix).packages
  }

  /** Every named package that such a page lists is among the rows, whatever other pages do. */
  ghost predicate HoldsSeen(rows: map<Key, Pkg>, installed: seq<Pkg>, answers: string -> bool, chars: string,
                            prefix: string) {
    forall p | p in installed && p.name != "" && Seen(installed, answers, chars, p, prefix) :: KeyOf(p) in rows
  }

  ghost predicate HoldsSeenBelow(rows: map<Key, Pkg>, installed: seq<Pkg>, answers: string -> bool, chars: string,
                                 prefix: string, n: nat) {
    n <= |chars| && forall j | 0 <= j < n :: HoldsSeen(rows, installed, answers, chars, prefix + [chars[j]])
  }

  lemma HoldsSeenGrows(a: map<Key, Pkg>, b: map<Key, Pkg>, installed: seq<Pkg>, answers: string -> bool, chars: string,
                       prefix: string, n: nat)
    requires HoldsSeenBelow(a, installed, answers, chars, prefix, n) && a.Keys <= b.Keys
    ensures HoldsSeenBelow(b, installed, answers, chars, prefix, n)
  {
    forall j | 0 <= j < n ensures HoldsSeen(b, installed, answers, chars, prefix + [chars[j]]) {
      assert HoldsSeen(a, installed, answers, chars, prefix + [chars[j]]);
    }
  }

  lemma SeenFromBelow(rows: map<Key, Pkg>, installed: seq<Pkg>, answers: string -> bool, chars: string, prefix: string)
    requires HoldsSeenBelow(rows, installed, answers, chars, prefix, |chars|) && Descends(installed, prefix)
    ensures HoldsSeen(rows, installed, answers, chars, prefix)
  {
    forall p | p in installed && p.name != "" && Seen(installed, answers, chars, p, prefix) ensures KeyOf(p) in rows {
      var j :| 0 <= j < |chars| && chars[j] == p.name[|prefix|];
      assert HoldsSeen(rows, installed, answers, chars, prefix + [chars[j]]);
    }
  }

  /** Every page the walk from `prefix` asks for is answered and lists all it should. */
  ghost predicate Fits(installed: seq<Pkg>, answers: string -> bool, chars: string, prefix: string)
    decreases MAX_PREFIX_DEPTH - |prefix|
  {
    && answers(prefix)
    && if Descends(installed, prefix)
       then forall j | 0 <= j < |chars| :: Fits(installed, answers, chars, prefix + [chars[j]])
       else !PackageInventory(installed, PKG_PAGE, prefix).truncated
  }

  /** A host that answers, lists every package once by a name that begins with three letters or digits,
      and has at most 500 packages for every three first characters. */
  ghost predicate Pageable(installed: seq<Pkg>, answers: string -> bool) {
    && (forall prefix :: answers(prefix)) && AllNamedOnce(installed)
    && (forall p | p in installed :: |p.name| >= 3 && forall i | 0 <= i < 3 :: p.name[i] in PREFIX_CHARS)
    && (forall x: string | |x| == 3 :: |Collections.Filter(installed, HasPrefix(x))| <= 500)
  }

  lemma {:induction false} PageableFits(installed: seq<Pkg>, answers: string -> bool, prefix: string)
    requires Pageable(installed, answers) && |prefix| <= 3
    ensures Fits(installed, answers, PREFIX_CHARS, prefix)
    decreases 3 - |prefix|
  {
    NodeContract(installed, PKG_PAGE, prefix);
    if Descends(installed, prefix) {
      forall j | 0 <= j < |PREFIX_CHARS| ensures Fits(installed, answers, PREFIX_CHARS, prefix + [PREFIX_CHARS[j]]) {
        PageableFits(installed, answers, prefix + [PREFIX_CHARS[j]]);
      }
    }
  }

  lemma {:induction false} PageableIsReached(installed: seq<Pkg>, chars: string, name: string, prefix: string)
    requires |name| >= 3 && (forall i | 0 <= i < 3 :: name[i] in chars) && prefix <= name && |prefix| <= 3
    ensures Reached(installed, chars, name, prefix)
    decreases 3 - |prefix|
  {
    if Descends(installed, prefix) {
      PageableIsReached(installed, chars, name, prefix + [name[|prefix|]]);
    }
  }

  lemma PageableIsComplete(installed: seq<Pkg>, answers: string -> bool)
    requires Pageable(installed, answers)
    ensures AllNamedOnce(installed) && Fits(installed, answers, PREFIX_CHARS, "")
    ensures forall p | p in installed :: Reached(installed, PREFIX_CHARS, p.name, "")
  {
    PageableFits(installed, answers, "");
    forall p | p in installed { PageableIsReached(installed, PREFIX_CHARS, p.name, ""); }
  }

  /** One package list collected from a host. `answers` tells which pages the host answers. */
  class Collector {
    const installed: seq<Pkg>
    const answers: string -> bool
    const chars: string
    var rows: map<Key, Pkg>
    var incomplete: seq<string>

    constructor (installed: seq<Pkg>, answers: string -> bool)
      ensures this.installed == installed && this.answers == answers && chars == PREFIX_CHARS
      ensures rows == map[] && incomplete == []
    {
      this.installed, this.answers, chars := installed, answers, PREFIX_CHARS;
      rows, incomplete := map[], [];
    }

    method Invoke(prefix: string) returns (out: Option<Output>)
      ensures out == if answers(prefix) then Some(PackageInventory(installed, PKG_PAGE, prefix)) else None
    {
      out := if answers(prefix) then Some(PackageInventory(installed, PKG_PAGE, prefix)) else None;
    }

    /** Adds only installed packages, loses none, and unless it notes an incomplete page holds every
        named package it reaches. */
    method Walk(prefix: string)
      requires FromHost(rows, installed)
      modifies this
      ensures FromHost(rows, installed) && old(rows).Keys <= rows.Keys && old(incomplete) <= incomplete
      ensures incomplete == old(incomplete) ==> Holds(rows, installed, chars, prefix)
      ensures HoldsSeen(rows, installed, answers, chars, prefix)
      ensures Fits(installed, answers, chars, prefix) ==> incomplete == old(incomplete)
      decreases MAX_PREFIX_DEPTH - |prefix|, 1
    {
      var answer := Invoke(prefix);
      if answer.None? {
        incomplete := incomplete + [prefix];
        return;
      }
      var out := answer.value;
      if out.truncated && |prefix| < MAX_PREFIX_DEPTH {
        WalkChildren(prefix);
        if incomplete == old(incomplete) { HoldsFromChildren(rows, installed, chars, prefix); }
        SeenFromBelow(rows, installed, answers, chars, prefix);
        return;
      }
      if out.truncated {
        incomplete := incomplete + [prefix];
      }
      NodeContract(installed, PKG_PAGE, prefix);
      AddPage(out.packages);
    }

    /** One page per next character. */
    method WalkChildren(prefix: string)
      requires |prefix| < MAX_PREFIX_DEPTH && FromHost(rows, installed)
      modifies this
      ensures FromHost(rows, installed) && old(rows).Keys <= rows.Keys && old(incomplete) <= incomplete
      ensures incomplete == old(incomplete) ==> HoldsChildren(rows, installed, chars, prefix, |chars|)
      ensures HoldsSeenBelow(rows, installed, answers, chars, prefix, |chars|)
      ensures (forall j | 0 <= j < |chars| :: Fits(installed, answers, chars, prefix + [chars[j]])) ==>
                incomplete == old(incomplete)
      decreases MAX_PREFIX_DEPTH - |prefix|, 0, 1
    {
      for i := 0 to |chars|
        invariant FromHost(rows, installed) && old(rows).Keys <= rows.Keys && old(incomplete) <= incomplete
        invariant incomplete == old(incomplete) ==> HoldsChildren(rows, installed, chars, prefix, i)
        invariant HoldsSeenBelow(rows, installed, answers, chars, prefix, i)
        invariant (forall j | 0 <= j < |chars| :: Fits(installed, answers, chars, prefix + [chars[j]])) ==>
                    incomplete == old(incomplete)
      {
        WalkNext(prefix, i, old(incomplete));
      }
    }

    /** The body of that loop; `noted` are the pages noted before it. */
    method WalkNext(prefix: string, i: nat, ghost noted: seq<string>)
      requires |prefix| < MAX_PREFIX_DEPTH && i < |chars| && FromHost(rows, installed) && noted <= incomplete
      requires incomplete == noted ==> HoldsChildren(rows, installed, chars, prefix, i)
      requires HoldsSeenBelow(rows, installed, answers, chars, prefix, i)
      modifies this
      ensures FromHost(rows, installed) && old(rows).Keys <= rows.Keys && old(incomplete) <= incomplete
      ensures incomplete == noted ==> HoldsChildren(rows, installed, chars, prefix, i + 1)
      ensures HoldsSeenBelow(rows, installed, answers, chars, prefix, i + 1)
      ensures Fits(installed, answers, chars, prefix + [chars[i]]) ==> incomplete == old(incomplete)
      decreases MAX_PREFIX_DEPTH - |prefix|, 0, 0
    {
      Walk(prefix + [chars[i]]);
      HoldsSeenGrows(old(rows), rows, installed, answers, chars, prefix, i);
      if incomplete == noted {
        assert old(incomplete) == incomplete;
        HoldsChildrenGrows(old(rows), rows, installed, chars, prefix, i);
      }
    }

    method AddPage(packages: seq<Pkg>)
      requires FromHost(rows, installed) && forall p | p in packages :: p in installed
      modifies this`rows
      ensures FromHost(rows, installed) && old(rows).Keys <= rows.Keys
      ensures forall p | p in packages && p.name != "" :: KeyOf(p) in rows
    {
      for i := 0 to |packages|
        invariant FromHost(rows, installed) && old(rows).Keys <= rows.Keys
        invariant forall p | p in packages[..i] && p.name != "" :: KeyOf(p) in rows
      {
        var p := packages[i];
        assert packages[..i + 1] == packages[..i] + [p];
        if p.name != "" {
          rows := rows[KeyOf(p) := p];
        }
      }
      assert packages[..|packages|] == packages;
    }

    /** The whole list in one page if it fits, else page by page; None when the first call fails. A
        snapshot that is not marked truncated is the whole host, and one that is lists all the same
        what the pages read list. */
    method CollectPackages() returns (snap: Option<Output>)
      requires rows == map[] && incomplete == []
      modifies this
      ensures snap.Some? <==> answers("")
      ensures chars == PREFIX_CHARS && Pageable(installed, answers) ==> !snap.value.truncated
      ensures snap.Some? ==> forall p | p in snap.value.packages :: p in installed
      ensures snap.Some? ==> ListsSeen(snap.value.packages, installed, answers, chars)
      ensures snap.Some? && |installed| <= 500 ==> snap.value == Output(|installed|, false, installed)
      ensures snap.Some? ==> snap.value.total == |installed|
      ensures snap.Some? && !snap.value.truncated ==> KeysOf(snap.value.packages) == KeysOf(installed)
      ensures snap.Some? && |Matching(installed, "")| > PKG_PAGE && incomplete == [] ==>
                (!snap.value.truncated <==> AllNamedOnce(installed) && KeysOf(snap.value.packages) == KeysOf(installed))
      ensures snap.Some? && |Matching(installed, "")| > PKG_PAGE && incomplete == []
              && AllNamedOnce(installed) && (forall p | p in installed :: Reached(installed, chars, p.name, "")) ==>
                !snap.value.truncated
    {
      NodeContract(installed, PKG_PAGE, "");
      if chars == PREFIX_CHARS && Pageable(installed, answers) { PageableIsComplete(installed, answers); }
      var first := Invoke("");
      if first.None? || !first.value.truncated {
        if first.Some? {
          SameMembersSameKeys(first.value.packages, installed);
          OnePageListsSeen(installed, answers, chars);
        }
        if |installed| <= 500 { SmallHostFits(installed); }
        return first;
      }
      if |installed| <= 500 { SmallHostFits(installed); }
      var merged := CollectPages(first.value.total);
      snap := Some(merged);
    }

    /** The list page by page. */
    method CollectPages(total: nat) returns (snap: Output)
      requires rows == map[] && incomplete == [] && total == |installed| && answers("") && Descends(installed, "")
      modifies this
      ensures snap.total == total && forall p | p in snap.packages :: p in installed
      ensures ListsSeen(snap.packages, installed, answers, chars)
      ensures !snap.truncated ==> KeysOf(snap.packages) == KeysOf(installed)
      ensures incomplete == [] ==>
                (!snap.truncated <==> AllNamedOnce(installed) && KeysOf(snap.packages) == KeysOf(installed))
      ensures incomplete == [] && AllNamedOnce(installed)
              && (forall p | p in installed :: Reached(installed, chars, p.name, "")) ==>
                !snap.truncated
      ensures Fits(installed, answers, chars, "") ==> incomplete == []
    {
      WalkChildren("");
      if incomplete == [] {
        HoldsFromChildren(rows, installed, chars, "");
        AllReachedAreHeld(rows, installed, chars);
      }
      var packages := Values(rows);
      SeenFromBelow(rows, installed, answers, chars, "");
      ListedByKey(rows, packages);
      ShortCountIsTruncated(rows, installed);
      snap := Output(total, incomplete != [] || |rows| < total, packages);
    }
  }

  /** Every named package on a page that is read is listed. */
  ghost predicate ListsSeen(ps: seq<Pkg>, installed: seq<Pkg>, answers: string -> bool, chars: string) {
    forall p | p in installed && p.name != "" && Seen(installed, answers, chars, p, "") :: IsListed(ps, p)
  }

  lemma OnePageListsSeen(installed: seq<Pkg>, answers: string -> bool, chars: string)
    requires !Descends(installed, "")
    ensures ListsSeen(PackageInventory(installed, PKG_PAGE, "").packages, installed, answers, chars)
  {
    forall p | p in installed && Seen(installed, answers, chars, p, "")
      ensures IsListed(PackageInventory(installed, PKG_PAGE, "").packages, p)
    {
      assert p in PackageInventory(installed, PKG_PAGE, "").packages;
    }
  }

  lemma AllReachedAreHeld(rows: map<Key, Pkg>, installed: seq<Pkg>, chars: string)
    requires FromHost(rows, installed) && Holds(rows, installed, chars, "")
    ensures AllNamedOnce(installed) && (forall p | p in installed :: Reached(installed, chars, p.name, "")) ==>
              rows.Keys == KeysOf(installed)
  {
    ShortCountIsTruncated(rows, installed);
  }

  /** The name and version are listed. */
  ghost predicate IsListed(ps: seq<Pkg>, p: Pkg) { exists q :: q in ps && q.name == p.name && q.version == p.version }

  lemma ListedByKey(rows: map<Key, Pkg>, packages: seq<Pkg>)
    requires KeysOf(packages) == rows.Keys
    ensures forall p | KeyOf(p) in rows :: IsListed(packages, p)
  {
    forall p | KeyOf(p) in rows ensures IsListed(packages, p) {
      var q :| q in packages && q.name != "" && KeyOf(q) == KeyOf(p);
    }
  }

  lemma SameMembersSameKeys(a: seq<Pkg>, b: seq<Pkg>)
    requires forall p | p in a :: p in b
    requires forall p | p in b && "" <= p.name :: p in a
    ensures KeysOf(a) == KeysOf(b)
  {
  }

  ghost predicate AllNamedOnce(ps: seq<Pkg>) {
    && (forall p | p in ps :: p.name != "")
    && forall i, j | 0 <= i < j < |ps| :: KeyOf(ps[i]) != KeyOf(ps[j])
  }

  /** `list(rows.values())`. */
  method Values(rows: map<Key, Pkg>) returns (r: seq<Pkg>)
    requires forall k | k in rows :: KeyOf(rows[k]) == k && k.0 != ""
    ensures forall p | p in r :: p.name != "" && KeyOf(p) in rows && rows[KeyOf(p)] == p
    ensures KeysOf(r) == rows.Keys
  {
    var entries := Collections.Entries(rows);
    r := seq(|entries|, i requires 0 <= i < |entries| => entries[i].1);
    forall p ensures p in r <==> KeyOf(p) in rows && rows[KeyOf(p)] == p {
      if p in r {
        var i :| 0 <= i < |r| && r[i] == p;
        assert (entries[i].0, entries[i].1) in entries;
      }
      if KeyOf(p) in rows && rows[KeyOf(p)] == p {
        assert (KeyOf(p), p) in entries;
        var i :| 0 <= i < |entries| && entries[i] == (KeyOf(p), p);
        assert r[i] == p;
      }
    }
    forall k ensures k in KeysOf(r) <==> k in rows {
      if k in rows { assert rows[k] in r; }
    }
  }

  // ---------- subset and cardinality ----------

  lemma AllNamedOnceStep(init: seq<Pkg>, last: Pkg)
    ensures AllNamedOnce(init + [last]) <==> AllNamedOnce(init) && last.name != "" && KeyOf(last) !in KeysOf(init)
  {
    var ps := init + [last];
    if AllNamedOnce(ps) {
      assert forall i | 0 <= i < |init| :: ps[i] == init[i];
      assert last in ps && forall p | p in init :: p in ps;
      assert forall i | 0 <= i < |init| :: KeyOf(ps[i]) != KeyOf(ps[|init|]);
    }
    if AllNamedOnce(init) && last.name != "" && KeyOf(last) !in KeysOf(init) {
      forall i, j | 0 <= i < j < |ps| ensures KeyOf(ps[i]) != KeyOf(ps[j]) {
        assert ps[i] == init[i] && init[i] in init && (j < |init| ==> ps[j] == init[j]);
      }
    }
  }

  lemma {:induction false} KeyCount(ps: seq<Pkg>)
    ensures |KeysOf(ps)| <= |ps|
    ensures |KeysOf(ps)| == |ps| <==> AllNamedOnce(ps)
  {
    if ps == [] {
      assert KeysOf(ps) == {};
    } else {
      var init, last := ps[..|ps| - 1], ps[|ps| - 1];
      KeyCount(init);
      assert ps == init + [last];
      AllNamedOnceStep(init, last);
      assert KeysOf(ps) == KeysOf(init) + if last.name != "" then {KeyOf(last)} else {};
    }
  }

  /** Collected rows as many as the host's total are all of the host's packages, and they are that
      many exactly when the host lists every package once, by name, and all were collected. */
  lemma ShortCountIsTruncated(rows: map<Key, Pkg>, installed: seq<Pkg>)
    requires FromHost(rows, installed)
    ensures rows.Keys <= KeysOf(installed)
    ensures |rows| >= |installed| <==> AllNamedOnce(installed) && rows.Keys == KeysOf(installed)
  {
    forall k | k in rows ensures k in KeysOf(installed) { assert rows[k] in installed; }
    KeyCount(installed);
    Collections.SubsetSize(rows.Keys, KeysOf(installed));
    assert |rows| == |rows.Keys|;
    if |rows| >= |installed| { Collections.SameSize(rows.Keys, KeysOf(installed)); }
  }

  // ---------- recording a snapshot ----------

  /** The host part of the graph: host nodes by id, package nodes by merge key, and the
      HAS_PACKAGE edges between them. */
  class Graph {
    var hosts: set<string>
    var packages: map<Key, string>
    var edges: set<(string, Key)>

    constructor (hosts: set<string>, packages: map<Key, string>, edges: set<(string, Key)>)
      ensures this.hosts == hosts && this.packages == packages && this.edges == edges
    {
      this.hosts, this.packages, this.edges := hosts, packages, edges;
    }

    /** Merges every package of the rows, sets its manager and merges its edge. */
    method WriteRows(host: string, rows: seq<(Key, string)>)
      modifies this`packages, this`edges
      ensures packages == MergedPackages(old(packages), rows)
      ensures edges == old(edges) + EdgesTo(host, rows)
    {
      FoldOfMerges(host, packages, edges, rows);
      var written := GraphBatch.WriteRows(MergeStatement(host), (packages, edges), rows);
      packages, edges := written.0, written.1;
    }

    /** Records a package snapshot of a known host; an empty or truncated one removes nothing. */
    method IngestPackages(host: string, snap: Output) returns (ok: bool)
      modifies this`packages, this`edges
      ensures ok <==> host in hosts
      ensures !ok ==> packages == old(packages) && edges == old(edges)
      ensures ok ==> edges == Reconciled(old(edges), host, KeysOf(snap.packages), snap.truncated)
      ensures ok ==> Recorded(old(packages), packages, snap.packages)
    {
      if host !in hosts { return false; }
      var rows := Rows(snap.packages);
      var keys := set r | r in rows :: r.0;
      ok := true;
      if rows == [] {
        assert keys == {};
        return;
      }
      WriteRows(host, rows);
      RowsAreRecorded(old(packages), rows, snap.packages);
      assert EdgesTo(host, rows) == set k | k in keys :: (host, k);
      assert rows[0].0 in keys;
      if snap.truncated { return; }
      DeleteStale(host, keys);
    }

    /** Deletes the host's edges to packages whose joined key is not listed. */
    method DeleteStale(host: string, keys: set<Key>)
      modifies this`edges
      ensures edges == set e | e in old(edges) && (e.0 != host || JoinKey(e.1) in Joined(keys))
    {
      var joined := set k | k in keys :: JoinKey(k);
      edges := set e | e in edges && (e.0 != host || JoinKey(e.1) in joined);
      assert joined == Joined(keys);
    }
  }

  function EdgesTo(host: string, rows: seq<(Key, string)>): set<(string, Key)> {
    set r | r in rows :: (host, r.0)
  }

  function MergedPackages(packages: map<Key, string>, rows: seq<(Key, string)>): map<Key, string> {
    if rows == [] then packages
    else MergedPackages(packages, rows[..|rows| - 1])[rows[|rows| - 1].0 := rows[|rows| - 1].1]
  }

  function MergeStatement(host: string)
    : ((map<Key, string>, set<(string, Key)>), (Key, string)) -> (map<Key, string>, set<(string, Key)>)
  {
    (g: (map<Key, string>, set<(string, Key)>), row: (Key, string)) => (g.0[row.0 := row.1], g.1 + {(host, row.0)})
  }

  lemma {:induction false} FoldOfMerges(host: string, packages: map<Key, string>, edges: set<(string, Key)>,
                                        rows: seq<(Key, string)>)
    ensures GraphBatch.Fold(MergeStatement(host), (packages, edges), rows)
            == (MergedPackages(packages, rows), edges + EdgesTo(host, rows))
  {
    if rows != [] {
      var init, last := rows[..|rows| - 1], rows[|rows| - 1];
      FoldOfMerges(host, packages, edges, init);
      assert rows == init + [last];
      assert edges + EdgesTo(host, rows) == edges + EdgesTo(host, init) + {(host, last.0)};
    } else {
      assert edges + EdgesTo(host, rows) == edges;
    }
  }

  lemma {:induction false} MergedValues(packages: map<Key, string>, rows: seq<(Key, string)>, k: Key)
    ensures k in RowKeys(rows) ==> k in MergedPackages(packages, rows) && (k, MergedPackages(packages, rows)[k]) in rows
    ensures k !in RowKeys(rows) ==>
              (k in MergedPackages(packages, rows) <==> k in packages)
              && (k in packages ==> MergedPackages(packages, rows)[k] == packages[k])
  {
    if rows != [] {
      var init, last := rows[..|rows| - 1], rows[|rows| - 1];
      MergedValues(packages, init, k);
      assert rows == init + [last];
      assert RowKeys(rows) == RowKeys(init) + {last.0};
    }
  }

  ghost function RowKeys(rows: seq<(Key, string)>): set<Key> { set r | r in rows :: r.0 }

  ghost predicate IsLastListing(ps: seq<Pkg>, i: int, row: (Key, string)) {
    && 0 <= i < |ps| && ps[i].name != "" && (KeyOf(ps[i]), ps[i].source) == row
    && forall j | i < j < |ps| :: ps[j].name == "" || KeyOf(ps[j]) != row.0
  }

  /** Every listed package has a node with the manager of its last listing; no other node changed. */
  ghost predicate Recorded(before: map<Key, string>, after: map<Key, string>, ps: seq<Pkg>) {
    && after.Keys == before.Keys + KeysOf(ps)
    && forall k | k in after :: if k in KeysOf(ps) then exists i :: IsLastListing(ps, i, (k, after[k]))
                                else after[k] == before[k]
  }

  lemma RowsAreRecorded(packages: map<Key, string>, rows: seq<(Key, string)>, ps: seq<Pkg>)
    requires RowKeys(rows) == KeysOf(ps) && forall r | r in rows :: exists i :: IsLastListing(ps, i, r)
    ensures Recorded(packages, MergedPackages(packages, rows), ps)
  {
    forall k { MergedValues(packages, rows, k); }
  }

  ghost predicate LastManagers(m: map<Key, string>, ps: seq<Pkg>) {
    m.Keys == KeysOf(ps) && forall k | k in m :: exists i :: IsLastListing(ps, i, (k, m[k]))
  }

  lemma LastManagersStep(m: map<Key, string>, ps: seq<Pkg>, p: Pkg)
    requires LastManagers(m, ps)
    ensures LastManagers(if p.name != "" then m[KeyOf(p) := p.source] else m, ps + [p])
  {
    var n, qs := if p.name != "" then m[KeyOf(p) := p.source] else m, ps + [p];
    forall k | k in n ensures exists i :: IsLastListing(qs, i, (k, n[k])) {
      if p.name != "" && k == KeyOf(p) {
        assert IsLastListing(qs, |ps|, (k, n[k]));
      } else {
        var i :| IsLastListing(ps, i, (k, m[k]));
        assert IsLastListing(qs, i, (k, n[k]));
      }
    }
  }

  /** One row per (name, version) with a name, with the manager of its last listing. */
  method Rows(ps: seq<Pkg>) returns (rows: seq<(Key, string)>)
    ensures RowKeys(rows) == KeysOf(ps)
    ensures forall r | r in rows :: exists i :: IsLastListing(ps, i, r)
  {
    var managers: map<Key, string> := map[];
    for i := 0 to |ps|
      invariant LastManagers(managers, ps[..i])
    {
      assert ps[..i + 1] == ps[..i] + [ps[i]];
      LastManagersStep(managers, ps[..i], ps[i]);
      if ps[i].name != "" {
        managers := managers[KeyOf(ps[i]) := ps[i].source];
      }
    }
    assert ps[..|ps|] == ps;
    rows := Collections.Entries(managers);
    forall k ensures k in RowKeys(rows) <==> k in managers {
      if k in managers { assert (k, managers[k]) in rows; }
    }
    forall r | r in rows ensures exists i :: IsLastListing(ps, i, r) { assert (r.0, r.1) in rows; }
  }

  // ---------- which edges reconciling keeps ----------

  /** Stale edges are told apart by name and version joined with a NUL. */
  function JoinKey(k: Key): string { k.0 + "\0" + k.1 }

  ghost function Joined(keys: set<Key>): set<string> { set k | k in keys :: JoinKey(k) }

  /** The edges after recording a snapshot with these package keys. */
  ghost function Reconciled(edges: set<(string, Key)>, host: string, keys: set<Key>, truncated: bool)
    : set<(string, Key)>
  {
    var all := edges + set k | k in keys :: (host, k);
    if keys == {} || truncated then all
    else set e | e in all && (e.0 != host || JoinKey(e.1) in Joined(keys))
  }

  ghost function KeysAt(edges: set<(string, Key)>, host: string): set<Key> {
    set e | e in edges && e.0 == host :: e.1
  }

  /** An edge the graph had before whose package is not listed but joins to the same text as a listed one. */
  ghost predicate Mistaken(edges: set<(string, Key)>, host: string, keys: set<Key>) {
    exists k :: (host, k) in edges && k !in keys && JoinKey(k) in Joined(keys)
  }

  /** Recording never touches another host and never drops a listed package; a complete, non-empty
      snapshot leaves exactly the listed packages unless an old edge is mistaken for a listed one. */
  lemma ReconcilingIsExact(edges: set<(string, Key)>, host: string, keys: set<Key>, truncated: bool)
    ensures var after := Reconciled(edges, host, keys, truncated);
            && (forall e: (string, Key) | e.0 != host :: e in after <==> e in edges)
            && keys <= KeysAt(after, host) <= keys + KeysAt(edges, host)
            && (keys == {} || truncated ==> edges <= after)
            && (keys != {} && !truncated ==> (KeysAt(after, host) == keys <==> !Mistaken(edges, host, keys)))
  {
    var after := Reconciled(edges, host, keys, truncated);
    forall k | k in keys ensures k in KeysAt(after, host) {
      assert (host, k) in after;
    }
    forall k | k in KeysAt(after, host) ensures k in keys + KeysAt(edges, host) {
      var e :| e in after && e.0 == host && e.1 == k;
      assert e == (host, k);
    }
    if keys != {} && !truncated {
      if k :| (host, k) in edges && k !in keys && JoinKey(k) in Joined(keys) {
        assert (host, k) in after;
        assert k in KeysAt(after, host);
      }
      if !Mistaken(edges, host, keys) {
        forall k | k in KeysAt(after, host) ensures k in keys {
          var e :| e in after && e.0 == host && e.1 == k;
          assert e == (host, k);
        }
      }
    }
  }

  predicate NulFree(s: string) { '\0' !in s }

  lemma FirstNul(k: Key)
    requires NulFree(k.0)
    ensures |JoinKey(k)| > |k.0| && JoinKey(k)[|k.0|] == '\0'
    ensures forall i | 0 <= i < |k.0| :: JoinKey(k)[i] != '\0'
    ensures JoinKey(k)[..|k.0|] == k.0 && JoinKey(k)[|k.0| + 1..] == k.1
  {
  }

  /** Names without NUL make the joined text unambiguous. */
  lemma JoinIsInjective(a: Key, b: Key)
    requires NulFree(a.0) && NulFree(b.0) && JoinKey(a) == JoinKey(b)
    ensures a == b
  {
    FirstNul(a);
    FirstNul(b);
  }

  lemma NulFreeNamesAreNeverMistaken(edges: set<(string, Key)>, host: string, keys: set<Key>)
    requires forall k | k in keys || (host, k) in edges :: NulFree(k.0)
    ensures !Mistaken(edges, host, keys)
  {
    forall k | (host, k) in edges && JoinKey(k) in Joined(keys) ensures k in keys {
      var l :| l in keys && JoinKey(l) == JoinKey(k);
      JoinIsInjective(l, k);
    }
  }

  /** With NUL in names the stale edge of one package can survive for another's sake. */
  lemma NulNamesCanBeMistaken()
    ensures Mistaken({("h", ("a\0b", "c"))}, "h", {("a", "b\0c")})
  {
    assert JoinKey(("a\0b", "c")) == "a\0b\0c" == JoinKey(("a", "b\0c"));
    assert JoinKey(("a", "b\0c")) in Joined({("a", "b\0c")});
  }

  // ---------- collecting, then ingesting ----------

  /** For a host whose package list does not change meanwhile: no edge of an installed package is
      removed, whatever pages fail; other hosts keep their edges; and a snapshot that is neither
      empty nor truncated makes the host's edges the installed packages. */
  method CollectAndIngest(g: Graph, host: string, installed: seq<Pkg>, answers: string -> bool)
    returns (snap: Option<Output>, ok: bool)
    modifies g
    ensures g.hosts == old(g.hosts)
    ensures (snap.Some? <==> answers("")) && (ok <==> host in old(g.hosts) && answers(""))
    ensures !ok ==> g.edges == old(g.edges) && g.packages == old(g.packages)
    ensures ok ==> forall p | p in snap.value.packages && p.name != "" ::
              (p.name, p.version) in g.packages && (host, (p.name, p.version)) in g.edges
    ensures ok ==> forall p: Pkg | p.name != "" && IsListed(snap.value.packages, p) ::
              (host, (p.name, p.version)) in g.edges
    ensures ok ==> ListsSeen(snap.value.packages, installed, answers, PREFIX_CHARS)
    ensures ok ==> Recorded(old(g.packages), g.packages, snap.value.packages)
    ensures ok && |installed| <= 500 ==> snap.value == Output(|installed|, false, installed)
    ensures ok && snap.value.truncated ==> old(g.edges) <= g.edges
    ensures ok && Pageable(installed, answers) ==> !snap.value.truncated
    ensures forall p | p in installed && p.name != "" && (host, KeyOf(p)) in old(g.edges) :: (host, KeyOf(p)) in g.edges
    ensures forall e: (string, Key) | e.0 != host :: e in g.edges <==> e in old(g.edges)
    ensures forall e | e in g.edges && e !in old(g.edges) :: e.0 == host && e.1 in KeysOf(installed)
    ensures ok ==> snap.Some?
    ensures ok && !snap.value.truncated && KeysOf(snap.value.packages) != {} ==>
              (KeysAt(g.edges, host) == KeysOf(installed) <==> !Mistaken(old(g.edges), host, KeysOf(installed)))
  {
    var collector := new Collector(installed, answers);
    snap := collector.CollectPackages();
    if snap.None? { return None, false; }
    ok := g.IngestPackages(host, snap.value);
    if ok {
      var keys := KeysOf(snap.value.packages);
      ReconcilingIsExact(old(g.edges), host, keys, snap.value.truncated);
      SnapshotKeepsInstalled(old(g.edges), host, snap.value, installed);
      ListedAreLinked(g.edges, host, keys, snap.value.packages);
    }
  }

  lemma ListedAreLinked(edges: set<(string, Key)>, host: string, keys: set<Key>, ps: seq<Pkg>)
    requires keys == KeysOf(ps) && keys <= KeysAt(edges, host)
    ensures forall p | p in ps && p.name != "" :: (host, (p.name, p.version)) in edges
    ensures forall p: Pkg | p.name != "" && IsListed(ps, p) :: (host, (p.name, p.version)) in edges
  {
    forall p | p in ps && p.name != "" ensures (host, (p.name, p.version)) in edges {
      assert (p.name, p.version) in keys;
      var e :| e in edges && e.0 == host && e.1 == (p.name, p.version);
      assert e == (host, (p.name, p.version));
    }
  }

  lemma {:induction false} SnapshotKeepsInstalled(edges: set<(string, Key)>, host: string, snap: Output,
                                                  installed: seq<Pkg>)
    requires forall p | p in snap.packages :: p in installed
    requires !snap.truncated ==> KeysOf(snap.packages) == KeysOf(installed)
    ensures var after := Reconciled(edges, host, KeysOf(snap.packages), snap.truncated);
            && (forall p | p in installed && p.name != "" && (host, KeyOf(p)) in edges :: (host, KeyOf(p)) in after)
            && (forall e | e in after && e !in edges :: e.0 == host && e.1 in KeysOf(installed))
  {
    var keys := KeysOf(snap.packages);
    var after := Reconciled(edges, host, keys, snap.truncated);
    forall p | p in installed && p.name != "" && (host, KeyOf(p)) in edges ensures (host, KeyOf(p)) in after {
      assert KeyOf(p) in KeysOf(installed);
    }
  }
}
