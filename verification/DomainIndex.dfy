/** Looking an observed domain up in an indicator index by its parent domains, against the linear
    suffix test (tools/librarian/match_iocs.py:144-160, 225-229; tools/ioc-match/src/main.rs:39-43). */
module DomainIndex {
  import opened Wrappers

  // ---------- splitting at dots ----------

  function FirstDot(d: string): (i: nat)
    ensures i <= |d| && '.' !in d[..i]
    ensures i < |d| ==> d[i] == '.'
    ensures i == |d| <==> '.' !in d
  {
    if d == "" || d[0] == '.' then 0
    else
      var i := FirstDot(d[1..]);
      assert d[..i + 1] == [d[0]] + d[1..][..i] && d == [d[0]] + d[1..];
      i + 1
  }

  /** What follows the first dot. */
  function Parent(d: string): (p: string)
    requires '.' in d
    ensures |p| < |d|
  {
    d[FirstDot(d) + 1..]
  }

  /** `domain.split(".")`. */
  function Labels(d: string): (parts: seq<string>)
    ensures parts != []
    decreases |d|
  {
    if '.' !in d then [d] else [d[..FirstDot(d)]] + Labels(Parent(d))
  }

  /** `".".join(parts)`. */
  function Join(parts: seq<string>): string {
    if parts == [] then "" else if |parts| == 1 then parts[0] else parts[0] + "." + Join(parts[1..])
  }

  lemma {:induction false} JoinUndoesLabels(d: string)
    ensures Join(Labels(d)) == d
    decreases |d|
  {
    if '.' in d {
      var head, rest := d[..FirstDot(d)], Labels(Parent(d));
      JoinUndoesLabels(Parent(d));
      assert ([head] + rest)[1..] == rest;
      assert d == head + "." + Parent(d);
    }
  }

  /** The domain and its parents down to two labels. */
  function Candidates(d: string): seq<string> { Tails(Labels(d)) }

  function Tails(parts: seq<string>): (r: seq<string>)
    requires parts != []
    ensures |r| == |parts| - 1 && forall i | 0 <= i < |r| :: r[i] == Join(parts[i..])
  {
    seq(|parts| - 1, i requires 0 <= i < |parts| => Join(parts[i..]))
  }

  lemma TailsStep(parts: seq<string>)
    requires |parts| > 1
    ensures Tails(parts) == [Join(parts)] + Tails(parts[1..])
  {
    assert parts[0..] == parts;
    var a, b := Tails(parts), [Join(parts)] + Tails(parts[1..]);
    forall k | 0 <= k < |a| ensures a[k] == b[k] {
      if k > 0 { assert parts[k..] == parts[1..][k - 1..]; }
    }
  }

  /** The domain, its parent, and so on while a dot is left. */
  function Ancestors(d: string): seq<string>
    decreases |d|
  {
    if '.' !in d then [] else [d] + Ancestors(Parent(d))
  }

  lemma {:induction false} CandidatesAreAncestors(d: string)
    ensures Candidates(d) == Ancestors(d)
    decreases |d|
  {
    if '.' in d {
      CandidatesAreAncestors(Parent(d));
      JoinUndoesLabels(d);
      TailsStep(Labels(d));
      assert Labels(d)[1..] == Labels(Parent(d));
    }
  }

  // ---------- the linear test ----------

  predicate EndsWith(s: string, t: string) { |t| <= |s| && s[|s| - |t|..] == t }

  predicate DomainHits(observed: string, ioc: string) {
    observed == ioc || EndsWith(observed, "." + ioc)
  }

  /** `ioc` is what follows the dot at position `k`. */
  predicate FollowsDot(d: string, k: int, ioc: string) { 0 <= k < |d| && d[k] == '.' && d[k + 1..] == ioc }

  lemma EndsWithDotted(d: string, ioc: string)
    ensures EndsWith(d, "." + ioc) <==> FollowsDot(d, |d| - |ioc| - 1, ioc)
  {
    var k := |d| - |ioc| - 1;
    if k >= 0 { assert d[k..] == [d[k]] + d[k + 1..]; }
  }

  /** A longer domain hits exactly what its parent hits, except itself. */
  lemma HitsOfParent(d: string, ioc: string)
    requires '.' in d && ioc != d
    ensures DomainHits(d, ioc) <==> DomainHits(Parent(d), ioc)
  {
    var i, p := FirstDot(d), Parent(d);
    EndsWithDotted(d, ioc);
    EndsWithDotted(p, ioc);
    var k := |d| - |ioc| - 1;
    if k < i {
      assert 0 <= k ==> d[k] == d[..i][k];
    } else if k > i {
      assert p[k - i - 1] == d[k] && p[k - i..] == d[k + 1..];
    }
  }

  lemma NoDotHitsNothingDotted(d: string, c: string)
    requires '.' !in d && '.' in c
    ensures !DomainHits(d, c)
  {
    EndsWithDotted(d, c);
  }

  lemma {:induction false} AncestorsAreDottedHits(d: string, c: string)
    ensures c in Ancestors(d) <==> DomainHits(d, c) && '.' in c
    decreases |d|
  {
    if '.' !in d {
      if '.' in c { NoDotHitsNothingDotted(d, c); }
    } else if c != d {
      AncestorsAreDottedHits(Parent(d), c);
      HitsOfParent(d, c);
    }
  }

  /** The candidates are exactly the dotted domains the linear test accepts. */
  lemma CandidatesAreDottedHits(d: string, c: string)
    ensures c in Candidates(d) <==> DomainHits(d, c) && '.' in c
  {
    CandidatesAreAncestors(d);
    AncestorsAreDottedHits(d, c);
  }

  lemma {:induction false} AncestorsShrink(d: string, i: nat, j: nat)
    requires i < j < |Ancestors(d)|
    ensures |Ancestors(d)[j]| < |Ancestors(d)[i]|
    decreases |d|
  {
    if i > 0 {
      AncestorsShrink(Parent(d), i - 1, j - 1);
    } else {
      AncestorsAreParts(Parent(d), j - 1);
    }
  }

  lemma {:induction false} AncestorsAreParts(d: string, j: nat)
    requires j < |Ancestors(d)|
    ensures |Ancestors(d)[j]| <= |d|
    decreases |d|
  {
    if j > 0 { AncestorsAreParts(Parent(d), j - 1); }
  }

  /** Candidates get strictly shorter. */
  lemma CandidatesShrink(d: string, i: nat, j: nat)
    requires i < j < |Candidates(d)|
    ensures |Candidates(d)[j]| < |Candidates(d)[i]|
  {
    CandidatesAreAncestors(d);
    AncestorsShrink(d, i, j);
  }

  // ---------- the index and the lookup ----------

  /** An indicator after lower-casing; `ip` values are in canonical form where they parse. */
  datatype Indicator = Indicator(kind: string, value: string, feed: string)

  type Index = map<(string, string), Indicator>

  ghost predicate FirstWith(list: seq<Indicator>, n: nat, key: (string, string), i: Indicator) {
    exists k :: 0 <= k < n <= |list| && list[k] == i && (i.kind, i.value) == key
      && forall j | 0 <= j < k :: (list[j].kind, list[j].value) != key
  }

  /** Keeps, per kind and non-empty value, the first indicator of the feeds. */
  method IndexIndicators(list: seq<Indicator>) returns (idx: Index)
    ensures forall key :: key in idx <==> key.1 != "" && exists i :: i in list && (i.kind, i.value) == key
    ensures forall key | key in idx :: FirstWith(list, |list|, key, idx[key])
  {
    idx := map[];
    for n := 0 to |list|
      invariant forall key :: key in idx <==> key.1 != "" && exists i :: i in list[..n] && (i.kind, i.value) == key
      invariant forall key | key in idx :: FirstWith(list, n, key, idx[key])
    {
      var i := list[n];
      var key := (i.kind, i.value);
      assert list[..n + 1] == list[..n] + [i];
      if i.value != "" && key !in idx {
        assert FirstWith(list, n + 1, key, i) by {
          forall j | 0 <= j < n ensures (list[j].kind, list[j].value) != key { assert list[..n][j] == list[j]; }
        }
        idx := idx[key := i];
      }
    }
    assert list[..|list|] == list;
  }

  ghost predicate IsDomain(idx: Index, v: string) { ("domain", v) in idx }

  /** The first candidate in the index is the longest dotted indicator the linear test accepts, and
      none is found exactly when the linear test accepts no dotted indicator. */
  method Lookup(idx: Index, d: string) returns (hit: Option<string>)
    ensures hit.None? <==> forall v | IsDomain(idx, v) && '.' in v :: !DomainHits(d, v)
    ensures hit.Some? ==> IsDomain(idx, hit.value) && '.' in hit.value && DomainHits(d, hit.value)
    ensures hit.Some? ==> forall v | IsDomain(idx, v) && '.' in v && DomainHits(d, v) :: |v| <= |hit.value|
  {
    var cs := Candidates(d);
    for k := 0 to |cs|
      invariant forall j | 0 <= j < k :: !IsDomain(idx, cs[j])
    {
      if ("domain", cs[k]) in idx {
        CandidatesAreDottedHits(d, cs[k]);
        forall v | IsDomain(idx, v) && '.' in v && DomainHits(d, v) ensures |v| <= |cs[k]| {
          CandidatesAreDottedHits(d, v);
          var j :| 0 <= j < |cs| && cs[j] == v;
          if k < j { CandidatesShrink(d, k, j); }
        }
        return Some(cs[k]);
      }
    }
    hit := None;
    forall v | IsDomain(idx, v) && '.' in v ensures !DomainHits(d, v) { CandidatesAreDottedHits(d, v); }
  }

  ghost predicate IndexedHit(domains: set<string>, d: string) { exists c :: c in Candidates(d) && c in domains }

  ghost predicate LinearHit(domains: set<string>, d: string) { exists v :: v in domains && DomainHits(d, v) }

  /** A collection of indicator domains gives the same answer both ways on every observed domain
      exactly when each of its domains contains a dot. */
  lemma IndexAgreesIffDotted(domains: set<string>)
    ensures (forall d :: IndexedHit(domains, d) <==> LinearHit(domains, d)) <==> forall v | v in domains :: '.' in v
  {
    if forall v | v in domains :: '.' in v {
      forall d ensures IndexedHit(domains, d) <==> LinearHit(domains, d) {
        forall v | v in domains ensures v in Candidates(d) <==> DomainHits(d, v) { CandidatesAreDottedHits(d, v); }
      }
    } else {
      var v :| v in domains && '.' !in v;
      assert LinearHit(domains, v);
      CandidatesAreAncestors(v);
      assert !IndexedHit(domains, v);
    }
  }
}
