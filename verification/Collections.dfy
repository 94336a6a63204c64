/** Listing sets and maps, counting, and regrouping sequences. */
module Collections {

  ghost function Elems<T>(s: seq<T>): set<T> { set x | x in s }

  ghost predicate AllDistinct<T>(s: seq<T>) { forall i, j | 0 <= i < j < |s| :: s[i] != s[j] }

  /** The elements of a set in some order. */
  method ListSet<T>(all: set<T>) returns (list: seq<T>)
    ensures AllDistinct(list) && |list| == |all|
    ensures forall x :: x in list <==> x in all
  {
    var left := all;
    list := [];
    while left != {}
      invariant left <= all && AllDistinct(list) && |list| == |all| - |left|
      invariant forall x :: x in list <==> x in all && x !in left
      decreases left
    {
      var x :| x in left;
      left, list := left - {x}, list + [x];
    }
  }

  lemma {:induction false} SetAsList<T>(all: set<T>) returns (list: seq<T>)
    ensures AllDistinct(list) && forall x :: x in list <==> x in all
  {
    list := [];
    if all != {} {
      var x :| x in all;
      var rest := SetAsList(all - {x});
      list := rest + [x];
    }
  }

  /** The entries of a map in some order. */
  method Entries<K, V>(m: map<K, V>) returns (list: seq<(K, V)>)
    ensures forall k, v :: (k, v) in list <==> k in m && m[k] == v
  {
    var keys := ListSet(m.Keys);
    assert forall k :: k in keys <==> k in m;
    list := seq(|keys|, i requires 0 <= i < |keys| => (keys[i], m[keys[i]]));
    forall k, v ensures (k, v) in list <==> k in m && m[k] == v {
      if k in m && m[k] == v {
        var i :| 0 <= i < |keys| && keys[i] == k;
        assert list[i] == (k, v);
      }
    }
  }

  lemma {:induction false} DistinctSize<T>(s: seq<T>)
    requires AllDistinct(s)
    ensures |Elems(s)| == |s| && forall x :: multiset(s)[x] <= 1
  {
    if s != [] {
      var init, last := s[..|s| - 1], s[|s| - 1];
      assert s == init + [last];
      DistinctSize(init);
      assert Elems(s) == Elems(init) + {last};
      assert last !in Elems(init) && last !in multiset(init);
    }
  }

  lemma {:induction false} SubsetSize<T>(a: set<T>, b: set<T>)
    requires a <= b
    ensures |a| <= |b|
  {
    if a != {} {
      var x :| x in a;
      SubsetSize(a - {x}, b - {x});
    }
  }

  lemma SameSize<T>(a: set<T>, b: set<T>)
    requires a <= b && |a| >= |b|
    ensures a == b
  {
    SubsetSize(a, b);
    assert b == a + (b - a);
    assert |b| == |a| + |b - a|;
  }

  /** Adds an element that is not there yet. */
  function Added<T(==)>(s: seq<T>, x: T): seq<T> { if x in s then s else s + [x] }

  /** Each element once, in the order of first occurrence: what a dictionary keeps of its insertions. */
  function Firsts<T(==)>(s: seq<T>): seq<T> {
    if s == [] then [] else Added(Firsts(s[..|s| - 1]), s[|s| - 1])
  }

  lemma FirstsStep<T>(s: seq<T>, x: T)
    ensures Firsts(s + [x]) == Added(Firsts(s), x)
  {
    assert (s + [x])[..|s|] == s;
  }

  lemma {:induction false} FirstsAreDistinct<T>(s: seq<T>)
    ensures AllDistinct(Firsts(s)) && forall x :: x in Firsts(s) <==> x in s
  {
    if s != [] {
      FirstsAreDistinct(s[..|s| - 1]);
      assert s == s[..|s| - 1] + [s[|s| - 1]];
    }
  }

  /** What comes later again adds nothing. */
  lemma {:induction false} AddsNothing<T>(s: seq<T>, t: seq<T>)
    requires forall x | x in t :: x in s
    ensures Firsts(s + t) == Firsts(s)
    decreases |t|
  {
    if t == [] {
      assert s + t == s;
    } else {
      var init, last := t[..|t| - 1], t[|t| - 1];
      assert t == init + [last] && s + t == (s + init) + [last];
      AddsNothing(s, init);
      FirstsStep(s + init, last);
      FirstsAreDistinct(s);
      assert last in t;
    }
  }

  lemma {:induction false} FirstsThen<T>(a: seq<T>, b: seq<T>, t: seq<T>)
    requires Firsts(a) == Firsts(b)
    ensures Firsts(a + t) == Firsts(b + t)
    decreases |t|
  {
    if t == [] {
      assert a + t == a && b + t == b;
    } else {
      var init, last := t[..|t| - 1], t[|t| - 1];
      assert a + t == (a + init) + [last] && b + t == (b + init) + [last];
      FirstsThen(a, b, init);
      FirstsStep(a + init, last);
      FirstsStep(b + init, last);
    }
  }

  /** The first occurrence of `x` comes before any of `y`. */
  ghost predicate ComesFirst<T>(s: seq<T>, x: T, y: T) {
    exists k :: 0 <= k < |s| && s[k] == x && forall l | 0 <= l <= k :: s[l] != y
  }

  lemma StillFirst<T>(init: seq<T>, last: T, x: T, y: T)
    requires ComesFirst(init, x, y)
    ensures ComesFirst(init + [last], x, y)
  {
    var s := init + [last];
    var k :| 0 <= k < |init| && init[k] == x && forall l | 0 <= l <= k :: init[l] != y;
    assert s[k] == x && forall l | 0 <= l <= k :: s[l] == init[l];
  }

  lemma AbsentComesLater<T>(s: seq<T>, x: T, y: T)
    requires x in s && y !in s
    ensures ComesFirst(s, x, y)
  {
    var k :| 0 <= k < |s| && s[k] == x;
    assert forall l | 0 <= l <= k :: s[l] in s;
  }

  lemma {:induction false} FirstsHas<T>(s: seq<T>, i: nat)
    requires i < |Firsts(s)|
    ensures Firsts(s)[i] in s
  {
    var init, last := s[..|s| - 1], s[|s| - 1];
    assert s == init + [last];
    if i < |Firsts(init)| { FirstsHas(init, i); }
  }

  /** The list of first occurrences is in their order. */
  lemma {:induction false} FirstsAreInOrder<T>(s: seq<T>, i: nat, j: nat)
    requires i < j < |Firsts(s)|
    ensures ComesFirst(s, Firsts(s)[i], Firsts(s)[j])
  {
    var init, last := s[..|s| - 1], s[|s| - 1];
    assert s == init + [last];
    FirstsAreDistinct(init);
    if j < |Firsts(init)| {
      FirstsAreInOrder(init, i, j);
    } else {
      var x, y := Firsts(s)[i], Firsts(s)[j];
      assert y == last && last !in Firsts(init);
      assert x == Firsts(init)[i];
      FirstsHas(init, i);
      AbsentComesLater(init, x, y);
    }
    StillFirst(init, last, Firsts(s)[i], Firsts(s)[j]);
  }

  /** Those that pass the test, in their order and as often as they occur. */
  function Filter<T>(s: seq<T>, keep: T -> bool): seq<T> {
    if s == [] then [] else Filter(s[..|s| - 1], keep) + if keep(s[|s| - 1]) then [s[|s| - 1]] else []
  }

  lemma {:induction false} FilterAppend<T>(a: seq<T>, b: seq<T>, keep: T -> bool)
    ensures Filter(a + b, keep) == Filter(a, keep) + Filter(b, keep)
    decreases |b|
  {
    if b == [] {
      assert a + b == a;
    } else {
      assert (a + b)[..|a + b| - 1] == a + b[..|b| - 1];
      FilterAppend(a, b[..|b| - 1], keep);
    }
  }

  lemma FilterOne<T>(x: T, keep: T -> bool)
    ensures Filter([x], keep) == if keep(x) then [x] else []
  {
    assert [x][..0] == [];
  }

  lemma {:induction false} FilterKeeps<T>(s: seq<T>, keep: T -> bool, x: T)
    ensures multiset(Filter(s, keep))[x] == if keep(x) then multiset(s)[x] else 0
    ensures x in Filter(s, keep) <==> x in s && keep(x)
  {
    if s != [] {
      FilterKeeps(s[..|s| - 1], keep, x);
      assert s == s[..|s| - 1] + [s[|s| - 1]];
    }
  }

  lemma {:induction false} FilterSplits<T>(s: seq<T>, keep: T -> bool)
    ensures |Filter(s, keep)| + |Filter(s, x => !keep(x))| == |s|
  {
    if s != [] { FilterSplits(s[..|s| - 1], keep); }
  }

  lemma Regroup<T>(a: seq<T>, b: seq<T>, c: seq<T>)
    ensures (a + b) + c == a + (b + c)
  {
  }
}
