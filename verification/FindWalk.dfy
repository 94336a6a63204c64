/** The capped, depth-limited file search (tools/fs-find/src/main.rs:56-185). */
module FindWalk {
  import Collections
  import Glob
  import opened Wasm
  import opened Wrappers

  /** What reading one directory answers; entries come in the order the host lists them. */
  datatype Listing = Unreadable | Listed(entries: seq<Node>)

  datatype Kind = File | Directory | Other

  /** A directory entry, or one whose metadata cannot be read. Sizes count for files only. */
  datatype Node =
    | Broken
    | Entry(name: string, path: string, kind: Kind, length: nat, mtime: Option<nat>, listing: Listing)

  datatype Filter = Filter(nameGlob: Option<string>, minSize: Option<nat>, maxSize: Option<nat>,
                           after: Option<nat>, before: Option<nat>, kind: string)

  datatype Hit = Hit(path: string, kind: Kind, size: nat, mtime: Option<nat>)

  function KindName(k: Kind): string {
    match k case File => "file" case Directory => "dir" case Other => "other"
  }

  predicate Passes(f: Filter, n: Node)
    requires n.Entry?
  {
    && (f.nameGlob.Some? ==> Glob.Accepts(f.nameGlob.value, n.name))
    && (f.kind != "any" ==> f.kind == KindName(n.kind))
    && (f.minSize.Some? ==> n.kind == File && n.length >= f.minSize.value)
    && (f.maxSize.Some? ==> n.kind == File && n.length <= f.maxSize.value)
    && (f.after.Some? ==> n.mtime.Some? && n.mtime.value > f.after.value)
    && (f.before.Some? ==> n.mtime.Some? && n.mtime.value < f.before.value)
  }

  function HitOf(n: Node): Hit
    requires n.Entry?
  {
    Hit(n.path, n.kind, if n.kind == File then n.length else 0, n.mtime)
  }

  // ---------- the uncapped walk ----------

  ghost predicate AllEntries(nodes: seq<Node>) { forall n | n in nodes :: n.Entry? }

  /** Every entry below a listing, parents before their children, down to the depth limit. */
  function PreOrder(l: Listing, depth: nat, maxDepth: nat): (r: seq<Node>)
    ensures AllEntries(r)
    decreases l, 0
  {
    if l.Unreadable? || depth > maxDepth then [] else PreOrderAll(l.entries, depth, maxDepth)
  }

  function PreOrderAll(entries: seq<Node>, depth: nat, maxDepth: nat): (r: seq<Node>)
    ensures AllEntries(r)
    decreases entries, 1
  {
    if entries == [] then []
    else PreOrderOne(entries[0], depth, maxDepth) + PreOrderAll(entries[1..], depth, maxDepth)
  }

  function PreOrderOne(n: Node, depth: nat, maxDepth: nat): (r: seq<Node>)
    ensures AllEntries(r)
    decreases n, 2
  {
    if n.Broken? then []
    else [n] + if n.kind == Directory then PreOrder(n.listing, depth + 1, maxDepth) else []
  }

  /** The filter as a test of entries. */
  function Keep(f: Filter): Node -> bool { (n: Node) => n.Entry? && Passes(f, n) }

  /** The entries that pass the filter, in order. */
  function Select(keep: Node -> bool, nodes: seq<Node>): seq<Hit>
    requires AllEntries(nodes)
  {
    if nodes == [] then []
    else (if keep(nodes[0]) then [HitOf(nodes[0])] else []) + Select(keep, nodes[1..])
  }

  function Own(keep: Node -> bool, n: Node): seq<Hit>
    requires n.Entry?
  {
    if keep(n) then [HitOf(n)] else []
  }

  lemma SelectCons(keep: Node -> bool, n: Node, below: seq<Node>)
    requires n.Entry? && AllEntries(below)
    ensures Select(keep, [n] + below) == Own(keep, n) + Select(keep, below)
  {
    assert ([n] + below)[1..] == below;
  }

  lemma EntriesOfParts(a: seq<Node>, b: seq<Node>)
    ensures AllEntries(a + b) <==> AllEntries(a) && AllEntries(b)
  {
    assert forall n :: n in a + b <==> n in a || n in b;
  }

  lemma {:induction false} SelectAppend(keep: Node -> bool, a: seq<Node>, b: seq<Node>)
    requires AllEntries(a) && AllEntries(b)
    ensures AllEntries(a + b) && Select(keep, a + b) == Select(keep, a) + Select(keep, b)
  {
    EntriesOfParts(a, b);
    if a == [] {
      assert a + b == b;
    } else {
      var n, rest := a[0], a[1..];
      assert a == [n] + rest;
      EntriesOfParts([n], rest);
      EntriesOfParts(rest, b);
      assert n in a;
      SelectAppend(keep, rest, b);
      SelectCons(keep, n, rest);
      SelectCons(keep, n, rest + b);
      Collections.Regroup([n], rest, b);
      Collections.Regroup(Own(keep, n), Select(keep, rest), Select(keep, b));
    }
  }

  // ---------- the capped walk ----------

  /** Appends until `cap` hits are held. */
  function Capped(out: seq<Hit>, more: seq<Hit>, cap: nat): seq<Hit> {
    if |out| >= cap then out
    else out + more[..if |more| < cap - |out| then |more| else cap - |out|]
  }

  lemma CappedAppend(out: seq<Hit>, a: seq<Hit>, b: seq<Hit>, cap: nat)
    ensures Capped(Capped(out, a, cap), b, cap) == Capped(out, a + b, cap)
  {
  }

  class Results {
    var out: seq<Hit>

    constructor ()
      ensures out == []
    {
      out := [];
    }
  }

  /** Pushes into the shared result until the cap, and stops descending there. */
  method Walk(l: Listing, depth: nat, maxDepth: nat, keep: Node -> bool, results: Results, cap: nat)
    modifies results
    ensures results.out == Capped(old(results.out), Select(keep, PreOrder(l, depth, maxDepth)), cap)
    decreases l, 0
  {
    if |results.out| >= cap || depth > maxDepth || l.Unreadable? {
      return;
    }
    var entries := l.entries;
    ghost var goal := Capped(results.out, Select(keep, PreOrderAll(entries, depth, maxDepth)), cap);
    for i := 0 to |entries|
      invariant Capped(results.out, Select(keep, PreOrderAll(entries[i..], depth, maxDepth)), cap) == goal
    {
      if |results.out| >= cap { return; }
      StepOverEntry(keep, entries[i..], depth, maxDepth, results.out, cap);
      assert entries[i..][1..] == entries[i + 1..];
      WalkEntry(entries[i], depth, maxDepth, keep, results, cap);
    }
  }

  /** The body of the loop: one entry and, for a directory, what lies below it. */
  method WalkEntry(n: Node, depth: nat, maxDepth: nat, keep: Node -> bool, results: Results, cap: nat)
    requires |results.out| < cap
    modifies results
    ensures results.out == Capped(old(results.out), Select(keep, PreOrderOne(n, depth, maxDepth)), cap)
    decreases n, 1
  {
    if n.Broken? { return; }
    ghost var below := if n.kind == Directory then PreOrder(n.listing, depth + 1, maxDepth) else [];
    StepInto(keep, n, below, results.out, cap);
    if keep(n) {
      results.out := results.out + [HitOf(n)];
    }
    if n.kind == Directory {
      Walk(n.listing, depth + 1, maxDepth, keep, results, cap);
    }
  }

  lemma CappedStep(out: seq<Hit>, own: seq<Hit>, more: seq<Hit>, cap: nat)
    requires |out| < cap && |own| <= 1
    ensures Capped(out + own, more, cap) == Capped(out, own + more, cap) && Capped(out + own, [], cap) == out + own
  {
  }

  /** Pushing an entry, then what lies below it, is one capped append. */
  lemma StepInto(keep: Node -> bool, n: Node, below: seq<Node>, out: seq<Hit>, cap: nat)
    requires n.Entry? && |out| < cap && AllEntries(below)
    ensures var out1 := if keep(n) then out + [HitOf(n)] else out;
            && Capped(out1, Select(keep, below), cap) == Capped(out, Select(keep, [n] + below), cap)
            && (below == [] ==> Capped(out1, Select(keep, below), cap) == out1)
  {
    SelectCons(keep, n, below);
    CappedStep(out, Own(keep, n), Select(keep, below), cap);
    assert out + [] == out;
  }

  /** Walking the first entry, then the later ones, is one capped append. */
  lemma StepOverEntry(keep: Node -> bool, entries: seq<Node>, depth: nat, maxDepth: nat, out: seq<Hit>, cap: nat)
    requires entries != []
    ensures Capped(Capped(out, Select(keep, PreOrderOne(entries[0], depth, maxDepth)), cap),
                   Select(keep, PreOrderAll(entries[1..], depth, maxDepth)), cap)
            == Capped(out, Select(keep, PreOrderAll(entries, depth, maxDepth)), cap)
  {
    var one, later := PreOrderOne(entries[0], depth, maxDepth), PreOrderAll(entries[1..], depth, maxDepth);
    SelectAppend(keep, one, later);
    CappedAppend(out, Select(keep, one), Select(keep, later), cap);
  }

  // ---------- the tool's answer ----------

  function Min(a: nat, b: nat): nat { if a < b then a else b }

  /** The selected entries of the uncapped walk down to a depth. */
  function Walked(root: Listing, f: Filter, maxDepth: nat): seq<Hit> { Select(Keep(f), PreOrder(root, 0, maxDepth)) }

  /** What is answered, given a whole walk and the `max_results` argument. */
  function Answer(full: seq<Hit>, arg: nat): (seq<Hit>, bool) {
    var max := arg % USIZE;
    var got := Capped([], full, (max + 1) % USIZE);
    if |got| > max then (got[..max], true) else (got, false)
  }

  function Promised(full: seq<Hit>, arg: nat): (seq<Hit>, bool) { (full[..Min(arg, |full|)], |full| > arg) }

  /** The promise: the first `max_results` entries down to `max_depth`, flagged exactly when there are more. */
  ghost predicate Keeps(root: Listing, f: Filter, depthArg: nat, arg: nat) {
    Answer(Walked(root, f, depthArg % USIZE), arg) == Promised(Walked(root, f, depthArg), arg)
  }

  lemma AnswerBelow(full: seq<Hit>, arg: nat)
    requires arg < USIZE - 1
    ensures Answer(full, arg) == Promised(full, arg)
  {
    assert arg % USIZE == arg && (arg + 1) % USIZE == arg + 1;
    var got := full[..Min(|full|, arg + 1)];
    assert [] + got == got && Capped([], full, arg + 1) == got;
    assert |got| > arg ==> got[..arg] == full[..arg];
  }

  method CappedWalk(root: Listing, f: Filter, maxDepth: nat, cap: nat) returns (out: seq<Hit>)
    ensures out == Capped([], Walked(root, f, maxDepth), cap)
  {
    var results := new Results();
    Walk(root, 0, maxDepth, Keep(f), results, cap);
    out := results.out;
  }

  method Run(root: Listing, f: Filter, depthArg: nat, arg: nat) returns (found: seq<Hit>, truncated: bool)
    ensures (found, truncated) == Answer(Walked(root, f, depthArg % USIZE), arg)
    ensures arg < USIZE - 1 && depthArg < USIZE ==> (found, truncated) == Promised(Walked(root, f, depthArg), arg)
  {
    var maxDepth, max := depthArg % USIZE, arg % USIZE;
    found := CappedWalk(root, f, maxDepth, (max + 1) % USIZE);
    truncated := |found| > max;
    if truncated {
      found := found[..max];
    }
    if arg < USIZE - 1 { AnswerBelow(Walked(root, f, maxDepth), arg); }
  }

  /** The whole tool: refused unless the kind is a known one and the root is there. */
  method FindFiles(root: Option<Listing>, f: Filter, depthArg: nat, arg: nat) returns (r: Option<(seq<Hit>, bool)>)
    ensures r.Some? <==> root.Some? && (f.kind == "any" || f.kind == "file" || f.kind == "dir")
    ensures r.Some? ==> r.value == Answer(Walked(root.value, f, depthArg % USIZE), arg)
    ensures r.Some? && arg < 0xFFFF_FFFF && depthArg < 0x1_0000_0000 ==>
              r.value == Promised(Walked(root.value, f, depthArg), arg)
  {
    if f.kind !in ["any", "file", "dir"] || root.None? { return None; }
    var found, truncated := Run(root.value, f, depthArg, arg);
    r := Some((found, truncated));
  }

  // ---------- what the walk visits, by position ----------

  /** The positions in the listings on the way from the root to an entry. */
  type Path = seq<nat>

  ghost predicate IsAt(l: Listing, path: Path, n: Node)
    decreases |path|
  {
    && path != [] && l.Listed? && path[0] < |l.entries|
    && if |path| == 1 then l.entries[path[0]] == n
       else l.entries[path[0]].Entry? && l.entries[path[0]].kind == Directory
            && IsAt(l.entries[path[0]].listing, path[1..], n)
  }

  /** A directory comes before what it holds, and entries come in the order of their listing. */
  ghost predicate Precedes(p: Path, q: Path)
    decreases |p|
  {
    q != [] && (p == [] || p[0] < q[0] || (p[0] == q[0] && Precedes(p[1..], q[1..])))
  }

  ghost predicate AllAt(visited: seq<Node>, paths: seq<Path>, l: Listing, from: nat, limit: int) {
    |visited| == |paths| && forall i | 0 <= i < |paths| ::
      IsAt(l, paths[i], visited[i]) && |paths[i]| <= limit && paths[i][0] >= from
  }

  ghost predicate Ordered(paths: seq<Path>) { forall i, j | 0 <= i < j < |paths| :: Precedes(paths[i], paths[j]) }

  ghost predicate Complete(paths: seq<Path>, l: Listing, from: nat, limit: int) {
    forall path, n | IsAt(l, path, n) && n.Entry? && |path| <= limit && path[0] >= from :: path in paths
  }

  /** The visited entries are those at these paths, in this order: all from the given place in the
      listing on, with paths up to this length. */
  ghost predicate Visits(visited: seq<Node>, paths: seq<Path>, l: Listing, from: nat, limit: int) {
    AllAt(visited, paths, l, from, limit) && Ordered(paths) && Complete(paths, l, from, limit)
  }

  function Below(k: nat, paths: seq<Path>): seq<Path> {
    seq(|paths|, i requires 0 <= i < |paths| => [k] + paths[i])
  }

  /** The walk visits every entry that can be read within the depth limit exactly once, a directory
      before what it holds, and otherwise in the order of the listings. */
  lemma {:induction false} WalkVisits(l: Listing, depth: nat, maxDepth: nat) returns (paths: seq<Path>)
    ensures Visits(PreOrder(l, depth, maxDepth), paths, l, 0, maxDepth + 1 - depth)
    decreases l, 2
  {
    paths := [];
    if l.Listed? && depth <= maxDepth {
      paths := WalkVisitsFrom(l, 0, depth, maxDepth);
      assert l.entries[0..] == l.entries;
    }
  }

  lemma NothingLeft(l: Listing, limit: int)
    requires l.Listed?
    ensures Visits([], [], l, |l.entries|, limit)
  {
  }

  lemma OneByOne(entries: seq<Node>, k: nat, depth: nat, maxDepth: nat)
    requires k < |entries|
    ensures PreOrderAll(entries[k..], depth, maxDepth)
            == PreOrderOne(entries[k], depth, maxDepth) + PreOrderAll(entries[k + 1..], depth, maxDepth)
  {
    assert entries[k..][0] == entries[k] && entries[k..][1..] == entries[k + 1..];
  }

  lemma {:induction false} WalkVisitsFrom(l: Listing, k: nat, depth: nat, maxDepth: nat) returns (paths: seq<Path>)
    requires l.Listed? && k <= |l.entries| && depth <= maxDepth
    ensures Visits(PreOrderAll(l.entries[k..], depth, maxDepth), paths, l, k, maxDepth + 1 - depth)
    decreases l, 1, |l.entries| - k
  {
    if k == |l.entries| {
      paths := [];
      NothingLeft(l, maxDepth + 1 - depth);
    } else {
      var n := l.entries[k];
      var inner := [];
      if n.Entry? && n.kind == Directory { inner := WalkVisits(n.listing, depth + 1, maxDepth); }
      var later := WalkVisitsFrom(l, k + 1, depth, maxDepth);
      OneByOne(l.entries, k, depth, maxDepth);
      paths := OneMoreIsVisited(l, k, depth, maxDepth, inner, PreOrderAll(l.entries[k + 1..], depth, maxDepth), later);
    }
  }

  lemma OneMoreIsVisited(l: Listing, k: nat, depth: nat, maxDepth: nat, inner: seq<Path>, after: seq<Node>,
                         later: seq<Path>) returns (paths: seq<Path>)
    requires l.Listed? && k < |l.entries| && depth <= maxDepth && Visits(after, later, l, k + 1, maxDepth + 1 - depth)
    requires var n := l.entries[k];
             if n.Entry? && n.kind == Directory
             then Visits(PreOrder(n.listing, depth + 1, maxDepth), inner, n.listing, 0, maxDepth - depth)
             else inner == []
    ensures Visits(PreOrderOne(l.entries[k], depth, maxDepth) + after, paths, l, k, maxDepth + 1 - depth)
  {
    var n, limit := l.entries[k], maxDepth + 1 - depth;
    if n.Broken? {
      paths := later;
      BrokenIsSkipped(after, later, l, k, limit);
      assert [] + after == after;
    } else {
      var below := if n.kind == Directory then PreOrder(n.listing, depth + 1, maxDepth) else [];
      paths := [[k]] + Below(k, inner) + later;
      EntryIsVisited(below, inner, after, later, l, k, limit);
    }
  }

  lemma BrokenIsSkipped(visited: seq<Node>, paths: seq<Path>, l: Listing, k: nat, limit: int)
    requires l.Listed? && k < |l.entries| && l.entries[k].Broken? && Visits(visited, paths, l, k + 1, limit)
    ensures Visits(visited, paths, l, k, limit)
  {
    forall path, n | IsAt(l, path, n) && n.Entry? && |path| <= limit && path[0] >= k ensures path in paths {
      assert path[0] != k;
    }
  }

  /** One entry, what it holds, and the entries after it. */
  lemma EntryIsVisited(below: seq<Node>, inner: seq<Path>, after: seq<Node>, later: seq<Path>, l: Listing, k: nat,
                       limit: int)
    requires l.Listed? && k < |l.entries| && l.entries[k].Entry? && limit >= 1
    requires if l.entries[k].kind == Directory then Visits(below, inner, l.entries[k].listing, 0, limit - 1)
             else below == [] && inner == []
    requires Visits(after, later, l, k + 1, limit)
    ensures Visits([l.entries[k]] + below + after, [[k]] + Below(k, inner) + later, l, k, limit)
  {
    EachIsThere(below, inner, after, later, l, k, limit);
    var paths := [[k]] + Below(k, inner) + later;
    forall i, j | 0 <= i < j < |paths| ensures Precedes(paths[i], paths[j]) {
      InOrder(inner, later, k, i, j);
    }
    forall path, n | IsAt(l, path, n) && n.Entry? && |path| <= limit && path[0] >= k ensures path in paths {
      EachIsVisited(inner, later, l, k, limit, path, n);
    }
  }

  lemma EachIsThere(below: seq<Node>, inner: seq<Path>, after: seq<Node>, later: seq<Path>, l: Listing, k: nat,
                    limit: int)
    requires l.Listed? && k < |l.entries| && l.entries[k].Entry? && limit >= 1
    requires if l.entries[k].kind == Directory then AllAt(below, inner, l.entries[k].listing, 0, limit - 1)
             else below == [] && inner == []
    requires AllAt(after, later, l, k + 1, limit)
    ensures AllAt([l.entries[k]] + below + after, [[k]] + Below(k, inner) + later, l, k, limit)
  {
    var visited, paths := [l.entries[k]] + below + after, [[k]] + Below(k, inner) + later;
    forall i | 0 <= i < |paths|
      ensures IsAt(l, paths[i], visited[i]) && |paths[i]| <= limit && paths[i][0] >= k
    {
      if i == 0 {
        assert paths[i] == [k] && visited[i] == l.entries[k];
      } else if i <= |inner| {
        assert paths[i] == [k] + inner[i - 1] && paths[i][1..] == inner[i - 1] && visited[i] == below[i - 1];
      } else {
        assert paths[i] == later[i - 1 - |inner|] && visited[i] == after[i - 1 - |inner|];
      }
    }
  }

  lemma InOrder(inner: seq<Path>, later: seq<Path>, k: nat, i: nat, j: nat)
    requires i < j < 1 + |inner| + |later|
    requires forall a, b | 0 <= a < b < |inner| :: Precedes(inner[a], inner[b])
    requires forall a, b | 0 <= a < b < |later| :: Precedes(later[a], later[b])
    requires forall a | 0 <= a < |later| :: later[a] != [] && later[a][0] > k
    requires forall a | 0 <= a < |inner| :: inner[a] != []
    ensures var paths := [[k]] + Below(k, inner) + later; Precedes(paths[i], paths[j])
  {
    var paths := [[k]] + Below(k, inner) + later;
    if j <= |inner| {
      assert paths[j] == [k] + inner[j - 1] && paths[j][1..] == inner[j - 1];
      if i == 0 {
        assert paths[i] == [k] && [k][1..] == [];
      } else {
        assert paths[i] == [k] + inner[i - 1] && paths[i][1..] == inner[i - 1];
      }
    } else {
      assert paths[j] == later[j - 1 - |inner|];
      if i == 0 {
        assert paths[i] == [k];
      } else if i <= |inner| {
        assert paths[i] == [k] + inner[i - 1];
      } else {
        assert paths[i] == later[i - 1 - |inner|];
      }
    }
  }

  lemma EachIsVisited(inner: seq<Path>, later: seq<Path>, l: Listing, k: nat, limit: int, path: Path, n: Node)
    requires l.Listed? && k < |l.entries| && IsAt(l, path, n) && n.Entry? && |path| <= limit && path[0] >= k
    requires l.entries[k].Entry? && l.entries[k].kind == Directory ==>
               Complete(inner, l.entries[k].listing, 0, limit - 1)
    requires Complete(later, l, k + 1, limit)
    ensures path in [[k]] + Below(k, inner) + later
  {
    if path[0] > k {
      assert path in later;
    } else if |path| == 1 {
      assert path == [k];
    } else {
      assert IsAt(l.entries[k].listing, path[1..], n);
      var i :| 0 <= i < |inner| && inner[i] == path[1..];
      assert path == [k] + path[1..];
      assert Below(k, inner)[i] == path;
    }
  }

  // ---------- what is found ----------

  /** The name fits the pattern, the kind is the one asked for, a file's size lies within the bounds, and
      the time of the last change strictly between the two times; each as far as it is asked for. */
  ghost predicate Wanted(f: Filter, n: Node)
    requires n.Entry?
  {
    && (f.nameGlob.None? || Glob.Accepts(f.nameGlob.value, n.name))
    && (f.kind == "any" || (f.kind == "file" && n.kind == File) || (f.kind == "dir" && n.kind == Directory)
        || (f.kind == "other" && n.kind == Other))
    && (f.minSize.None? || (n.kind == File && f.minSize.value <= n.length))
    && (f.maxSize.None? || (n.kind == File && n.length <= f.maxSize.value))
    && (f.after.None? || (n.mtime.Some? && f.after.value < n.mtime.value))
    && (f.before.None? || (n.mtime.Some? && n.mtime.value < f.before.value))
  }

  lemma KeepMeans(f: Filter, n: Node)
    requires n.Entry?
    ensures Keep(f)(n) <==> Wanted(f, n)
    ensures HitOf(n).path == n.path && HitOf(n).kind == n.kind && HitOf(n).mtime == n.mtime
    ensures n.kind == File ==> HitOf(n).size == n.length
    ensures n.kind != File ==> HitOf(n).size == 0
  {
  }

  /** The hit names the entry, with its size if it is a file. */
  ghost predicate IsHit(h: Hit, n: Node)
    requires n.Entry?
  {
    && h.path == n.path && h.kind == n.kind && h.mtime == n.mtime
    && (n.kind == File ==> h.size == n.length) && (n.kind != File ==> h.size == 0)
  }

  ghost function WantedBy(f: Filter): Node -> bool { (n: Node) => n.Entry? && Wanted(f, n) }

  /** One hit per wanted entry, in their order. */
  ghost predicate HitsAre(hits: seq<Hit>, wanted: seq<Node>) {
    |hits| == |wanted| && forall i | 0 <= i < |hits| :: wanted[i].Entry? && IsHit(hits[i], wanted[i])
  }

  lemma OwnIsWanted(f: Filter, n: Node)
    requires n.Entry?
    ensures HitsAre(Own(Keep(f), n), Collections.Filter([n], WantedBy(f)))
  {
    KeepMeans(f, n);
    Collections.FilterOne(n, WantedBy(f));
  }

  lemma HitsAdd(a: seq<Hit>, x: seq<Node>, b: seq<Hit>, y: seq<Node>)
    requires HitsAre(a, x) && HitsAre(b, y)
    ensures HitsAre(a + b, x + y)
  {
  }

  lemma {:induction false} WantedAreFound(f: Filter, nodes: seq<Node>)
    requires AllEntries(nodes)
    ensures HitsAre(Select(Keep(f), nodes), Collections.Filter(nodes, WantedBy(f)))
  {
    if nodes != [] {
      var n, rest := nodes[0], nodes[1..];
      WantedAreFound(f, rest);
      assert nodes == [n] + rest;
      Collections.FilterAppend([n], rest, WantedBy(f));
      SelectCons(Keep(f), n, rest);
      OwnIsWanted(f, n);
      HitsAdd(Own(Keep(f), n), Collections.Filter([n], WantedBy(f)), Select(Keep(f), rest),
              Collections.Filter(rest, WantedBy(f)));
    }
  }

  /** What the whole walk finds: the wanted ones of the entries it visits, which are all that can be
      read down to the depth limit, in the order of their positions. */
  lemma WalkFinds(root: Listing, f: Filter, maxDepth: nat) returns (visited: seq<Node>, paths: seq<Path>)
    ensures Visits(visited, paths, root, 0, maxDepth + 1)
    ensures HitsAre(Walked(root, f, maxDepth), Collections.Filter(visited, WantedBy(f)))
  {
    visited := PreOrder(root, 0, maxDepth);
    paths := WalkVisits(root, 0, maxDepth);
    WantedAreFound(f, visited);
  }

  // ---------- exactly which arguments keep the promise ----------

  const A_FILE := Entry("f", "f", File, 0, None, Unreadable)
  const FILES_ONLY := Filter(None, None, None, None, None, "file")

  /** A directory of `n` files. */
  function Flat(n: nat): seq<Node> { if n == 0 then [] else [A_FILE] + Flat(n - 1) }

  /** One file below `n` nested directories. */
  function Chain(n: nat): Listing {
    Listed([if n == 0 then A_FILE else Entry("d", "d", Directory, 0, None, Chain(n - 1))])
  }

  lemma {:induction false} FlatIsWhole(n: nat, maxDepth: nat)
    ensures |Select(Keep(FILES_ONLY), PreOrderAll(Flat(n), 0, maxDepth))| == n
  {
    if n > 0 {
      FlatIsWhole(n - 1, maxDepth);
      var rest := PreOrderAll(Flat(n - 1), 0, maxDepth);
      assert Flat(n)[1..] == Flat(n - 1);
      assert PreOrderOne(A_FILE, 0, maxDepth) == [A_FILE];
      assert PreOrderAll(Flat(n), 0, maxDepth) == [A_FILE] + rest;
      SelectCons(Keep(FILES_ONLY), A_FILE, rest);
    }
  }

  lemma {:induction false} ChainIsReached(n: nat, depth: nat, maxDepth: nat)
    ensures |Select(Keep(FILES_ONLY), PreOrder(Chain(n), depth, maxDepth))| == if depth + n <= maxDepth then 1 else 0
    decreases n
  {
    if depth <= maxDepth {
      var node := Chain(n).entries[0];
      var below := if n == 0 then [] else PreOrder(Chain(n - 1), depth + 1, maxDepth);
      assert [node][1..] == [] && [node] + below + [] == [node] + below;
      assert PreOrderAll([node], depth, maxDepth) == [node] + below;
      SelectCons(Keep(FILES_ONLY), node, below);
      if n > 0 { ChainIsReached(n - 1, depth + 1, maxDepth); }
    }
  }

  /** The wrapped cap loses the only entry, or the last of one more than the wrapped maximum. */
  lemma TooLargeLosesSome(full: seq<Hit>, arg: nat)
    requires arg >= USIZE - 1 && |full| == if arg % USIZE == USIZE - 1 then 1 else arg % USIZE + 1
    ensures |Answer(full, arg).0| < |full| <= arg
  {
    var max := arg % USIZE;
    assert (max + 1) % USIZE == if max == USIZE - 1 then 0 else max + 1;
  }

  lemma ManyFilesBreakIt(depthArg: nat, arg: nat) returns (root: Listing)
    requires arg >= USIZE - 1
    ensures !Keeps(root, FILES_ONLY, depthArg, arg)
  {
    var max := arg % USIZE;
    var n := if max == USIZE - 1 then 1 else max + 1;
    root := Listed(Flat(n));
    FlatIsWhole(n, depthArg);
    FlatIsWhole(n, depthArg % USIZE);
    TooLargeLosesSome(Walked(root, FILES_ONLY, depthArg % USIZE), arg);
  }

  lemma DeepFileBreaksIt(depthArg: nat, arg: nat) returns (root: Listing)
    requires depthArg >= USIZE
    ensures !Keeps(root, FILES_ONLY, depthArg, arg)
  {
    var n := depthArg % USIZE + 1;
    root := Chain(n);
    ChainIsReached(n, 0, depthArg);
    ChainIsReached(n, 0, depthArg % USIZE);
    assert |Walked(root, FILES_ONLY, depthArg)| == 1 && Walked(root, FILES_ONLY, depthArg % USIZE) == [];
  }

  /** The promise is kept on every tree and for every filter exactly when `max_results` is below
      2^32 - 1 and `max_depth` below 2^32. */
  lemma PromiseKeptBelowUsizeMax(depthArg: nat, arg: nat)
    ensures (forall root, f :: Keeps(root, f, depthArg, arg)) <==> arg < USIZE - 1 && depthArg < USIZE
  {
    if arg >= USIZE - 1 {
      var root := ManyFilesBreakIt(depthArg, arg);
    } else if depthArg >= USIZE {
      var root := DeepFileBreaksIt(depthArg, arg);
    } else {
      forall root, f ensures Keeps(root, f, depthArg, arg) { AnswerBelow(Walked(root, f, depthArg), arg); }
    }
  }
}
