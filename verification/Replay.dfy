/** Running commissions against the store, and replaying the pending ones
    (tools/librarian/upsert_node.py:76-155, tools/librarian/upsert_edge.py:100-175,
    tools/librarian/apply_pending.py:31-152, tools/_shared/write_journal.py:88-98, 168-176). */
module Replay {
  import opened Collections
  import opened GraphStore
  import opened Wrappers
  import opened WriteJournal
  import Endpoints
  import Text

  /** The graph and the journal's files. */
  datatype World = World(graph: Graph, files: State)

  /** The tools beside the two upserts that a pending entry can be replayed through. */
  predicate HasReplayer(tool: string) {
    || tool == "librarian.purge_session" || tool == "librarian.ingest_inventory"
       || tool == "librarian.enrich_vulnerabilities"
    || tool == "librarian.enrich_eol" || tool == "librarian.match_iocs"
  }

  predicate IsOtherReplay(c: Commission) { c.Other? && HasReplayer(c.tool) }

  /** How a run of one of those tools ends, as far as the journal sees it. */
  datatype Outcome = Took | StoreFailed | Refused

  /** Anything such a run may leave in the graph, and how it ends. */
  datatype Effect = Effect(graph: Graph, outcome: Outcome)

  /** What one write meets: whether the store takes it, the error text if not, the clock, the journal's
      I/O errors, and what it does if it is a run of another tool. */
  datatype Env = Env(up: bool, error: string, now: int, stamp: string, faults: Faults, other: Effect)

  predicate Accepted(c: Commission) {
    match c
    case NodeWrite(n) => NodeAccepted(n)
    case EdgeWrite(e) => EdgeAccepted(e)
    case Other(_, _) => false
  }

  /** The store takes the write and finds what it matches on. */
  predicate Takes(g: Graph, c: Commission)
    requires Accepted(c)
  {
    c.EdgeWrite? ==> EndpointsFound(g, c.edge)
  }

  function Written(g: Graph, c: Commission, stamp: string): Graph
    requires Accepted(c) && !c.Other?
  {
    if c.NodeWrite? then WriteNode(g, c.node, stamp) else WriteEdge(g, c.edge, stamp)
  }

  /** One run of another replayable tool: it records its own success or store failure, if any. */
  function OtherRun(w: World, c: Commission, env: Env): (World, bool) {
    var files := match env.other.outcome
                 case Took => Recorded(w.files, Success(c, env.now), env.faults)
                 case StoreFailed => Recorded(w.files, Failure(c, env.now, env.error), env.faults)
                 case Refused => w.files;
    (World(env.other.graph, files), env.other.outcome == Took)
  }

  /** One run of a write tool and whether it reports success. A refused input and a missing endpoint
      are the caller's to fix and leave the journal alone; a store error is journaled; an entry of a
      tool without a replayer is left as it is. */
  function Attempt(w: World, c: Commission, env: Env): (World, bool) {
    if IsOtherReplay(c) then OtherRun(w, c, env)
    else if !Accepted(c) then (w, false)
    else if !env.up then (w.(files := Recorded(w.files, Failure(c, env.now, env.error), env.faults)), false)
    else if !Takes(w.graph, c) then (w, false)
    else (World(Written(w.graph, c, env.stamp), Recorded(w.files, Success(c, env.now), env.faults)), true)
  }

  // ---------- the order of the files ----------

  /** The tool's name as it stands in a file name. */
  function SafeTool(c: Commission): string { Text.Swapped(Text.Without(ToolOf(c), "librarian."), '.', '_') }

  lemma {:induction false} SwapsNothing(s: string, a: char, b: char)
    requires a !in s
    ensures Text.Swapped(s, a, b) == s
  {
    if s != "" {
      assert s == [s[0]] + s[1..];
      SwapsNothing(s[1..], a, b);
    }
  }

  /** A part that begins with a character the text lacks is not in it. */
  lemma {:induction false} NothingToRemove(s: string, part: string)
    requires part != "" && part[0] !in s
    ensures Text.Without(s, part) == s
  {
    if s != "" {
      assert s == [s[0]] + s[1..] && s[0] in s;
      NothingToRemove(s[1..], part);
    }
  }

  lemma SafeNameOf(c: Commission, name: string)
    requires ToolOf(c) == "librarian." + name && 'l' !in name && '.' !in name
    ensures SafeTool(c) == name
  {
    var part := "librarian.";
    assert part <= ToolOf(c) && ToolOf(c)[|part|..] == name;
    NothingToRemove(name, part);
    SwapsNothing(name, '.', '_');
  }

  /** The two names, derived from the tools'. */
  lemma UpsertNames(n: NodeInput, e: EdgeInput)
    ensures SafeTool(NodeWrite(n)) == "upsert_" + "node" && SafeTool(EdgeWrite(e)) == "upsert_" + "edge"
  {
    SafeNameOf(NodeWrite(n), "upsert_" + "node");
    SafeNameOf(EdgeWrite(e), "upsert_" + "edge");
  }

  /** Tool and digest of the commission. */
  function FileName(c: Commission, digest: Commission -> string): string { SafeTool(c) + ("-" + digest(c) + ".json") }

  /** Different pending commissions have different files. */
  ghost predicate FilesApart(cs: set<Commission>, digest: Commission -> string) {
    forall c, d | c in cs && d in cs && FileName(c, digest) == FileName(d, digest) :: c == d
  }

  /** Every pending entry once, and every edge before every node. */
  ghost predicate EdgesFirst(order: seq<Commission>, pending: map<Commission, Entry>) {
    && (forall c :: c in order <==> c in pending)
    && AllDistinct(order)
    && (forall i, j | 0 <= i < j < |order| :: !(order[i].NodeWrite? && order[j].EdgeWrite?))
  }

  /** The pending entries in the order of their file names. */
  ghost predicate FileOrder(order: seq<Commission>, pending: map<Commission, Entry>, digest: Commission -> string) {
    && (forall c :: c in order <==> c in pending)
    && AllDistinct(order)
    && (forall i, j | 0 <= i < j < |order| :: Text.Leq(FileName(order[i], digest), FileName(order[j], digest)))
  }

  /** `upsert_edge-` sorts before `upsert_node-`, whatever follows. */
  lemma EdgeFilesFirst(n: NodeInput, e: EdgeInput, digest: Commission -> string)
    ensures var node, edge := FileName(NodeWrite(n), digest), FileName(EdgeWrite(e), digest);
            Text.Leq(edge, node) && !Text.Leq(node, edge)
  {
    var x, y := "-" + digest(EdgeWrite(e)) + ".json", "-" + digest(NodeWrite(n)) + ".json";
    UpsertNames(n, e);
    Regroup("upsert_", "edge", x);
    Regroup("upsert_", "node", y);
    Text.LeqBehind("upsert_", "edge" + x, "node" + y);
    Text.LeqBehind("upsert_", "node" + y, "edge" + x);
    assert ("edge" + x)[0] == 'e' && ("node" + y)[0] == 'n';
  }

  lemma FileOrderPutsEdgesFirst(order: seq<Commission>, pending: map<Commission, Entry>, digest: Commission -> string)
    requires FileOrder(order, pending, digest)
    ensures EdgesFirst(order, pending)
  {
    forall i, j | 0 <= i < j < |order| && order[i].NodeWrite? && order[j].EdgeWrite? ensures false {
      EdgeFilesFirst(order[i].node, order[j].edge, digest);
    }
  }

  /** The merge keys of both endpoints are given and no provenance name is set. */
  ghost predicate Sound(e: EdgeInput) {
    Given(e.from.mergeKeys, e.from.match_) && Given(e.to.mergeKeys, e.to.match_) && Unreserved(e.props)
  }

  /** A success clears the entry of this very commission, a store failure keeps one, anything else
      leaves the entries alone. */
  ghost predicate Journals(before: map<Commission, Entry>, after: map<Commission, Entry>, c: Commission, ok: bool,
                           storeFailed: bool) {
    && (forall d | d != c :: (d in after <==> d in before) && (d in before ==> after[d] == before[d]))
    && (ok ==> c !in after)
    && (storeFailed ==> c in after)
    && (!ok && !storeFailed ==> after == before)
  }

  // ---------- the librarian ----------

  class Librarian {
    var graph: Graph
    const journal: Journal
    const digest: Commission -> string

    constructor (graph: Graph, journal: Journal, digest: Commission -> string)
      ensures this.graph == graph && this.journal == journal && this.digest == digest
    {
      this.graph, this.journal, this.digest := graph, journal, digest;
    }

    function Now(): World
      reads this, journal
    {
      World(graph, journal.Files())
    }

    /** `upsert_node.run`. */
    method UpsertNode(n: NodeInput, env: Env) returns (ok: bool)
      modifies this, journal
      ensures (Now(), ok) == Attempt(old(Now()), NodeWrite(n), env)
      ensures ok <==> Given(n.mergeKeys, n.props) && Unreserved(n.props) && env.up
      ensures ok && ValidGraph(old(graph)) ==> NodeRecorded(old(graph), graph, n, env.stamp)
      ensures !ok ==> graph == old(graph)
      ensures env.faults == NO_FAULTS ==>
                Journals(old(journal.pending), journal.pending, NodeWrite(n), ok,
                         Given(n.mergeKeys, n.props) && Unreserved(n.props) && !env.up)
    {
      ghost var before := graph;
      AcceptedMeans(n, SELF_EDGE);
      if !NodeAccepted(n) { return false; }
      if !env.up {
        var _ := journal.RecordFailure(NodeWrite(n), env.error, env.now, env.faults);
        return false;
      }
      if ValidGraph(before) { NodeWriteMeans(before, n, env.stamp); }
      graph := WriteNode(graph, n, env.stamp);
      journal.RecordSuccess(NodeWrite(n), env.now, env.faults);
      ok := true;
    }

    /** `upsert_edge.run`. */
    method UpsertEdge(e: EdgeInput, env: Env) returns (ok: bool)
      modifies this, journal
      ensures (Now(), ok) == Attempt(old(Now()), EdgeWrite(e), env)
      ensures ok <==> Sound(e) && env.up && IsThere(old(graph), e.from) && IsThere(old(graph), e.to)
      ensures ok ==> EdgeJoined(old(graph), graph, e, env.stamp)
      ensures !ok ==> graph == old(graph)
      ensures env.faults == NO_FAULTS ==>
                Journals(old(journal.pending), journal.pending, EdgeWrite(e), ok, Sound(e) && !env.up)
    {
      AcceptedMeans(MOVED_HOST, e);
      if !EdgeAccepted(e) { return false; }
      if !env.up {
        var _ := journal.RecordFailure(EdgeWrite(e), env.error, env.now, env.faults);
        return false;
      }
      EndpointsAreThere(graph, e);
      if !EndpointsFound(graph, e) { return false; }
      EdgeWriteMeans(graph, e, env.stamp);
      graph := WriteEdge(graph, e, env.stamp);
      journal.RecordSuccess(EdgeWrite(e), env.now, env.faults);
      ok := true;
    }

    /** `pending_entries`: the files sorted by name. */
    method PendingEntries() returns (order: seq<Commission>)
      requires FilesApart(journal.pending.Keys, digest)
      ensures FileOrder(order, journal.pending, digest)
    {
      order := Text.SortedBy(journal.pending.Keys, c => FileName(c, digest));
    }

    /** A run of one of the other replayable tools. */
    method RunOther(c: Commission, env: Env) returns (ok: bool)
      modifies this, journal
      ensures (Now(), ok) == OtherRun(old(Now()), c, env)
      ensures graph == env.other.graph && (ok <==> env.other.outcome == Took)
    {
      graph := env.other.graph;
      match env.other.outcome {
        case Took => journal.RecordSuccess(c, env.now, env.faults);
        case StoreFailed => var _ := journal.RecordFailure(c, env.error, env.now, env.faults);
        case Refused =>
      }
      ok := env.other.outcome == Took;
    }

    /** The tool's run for one entry; an unknown tool fails. */
    method ReplayOne(c: Commission, env: Env) returns (ok: bool)
      modifies this, journal
      ensures (Now(), ok) == Attempt(old(Now()), c, env)
    {
      match c {
        case NodeWrite(node) => ok := UpsertNode(node, env);
        case EdgeWrite(edge) => ok := UpsertEdge(edge, env);
        case Other(tool, _) => if HasReplayer(tool) { ok := RunOther(c, env); } else { ok := false; }
      }
    }

    method ReplayFirst(entries: seq<Commission>, n: nat, envs: seq<Env>) returns (applied: nat, failing: nat)
      requires n <= |entries| <= |envs|
      modifies this, journal
      ensures Now() == Replayed(old(Now()), entries, envs, n)
      ensures applied == Successful(old(Now()), entries, envs, n) && applied + failing == n
    {
      applied, failing := 0, 0;
      for i := 0 to n
        invariant Now() == Replayed(old(Now()), entries, envs, i)
        invariant applied == Successful(old(Now()), entries, envs, i) && applied + failing == i
      {
        var ok := ReplayOne(entries[i], envs[i]);
        if ok { applied := applied + 1; } else { failing := failing + 1; }
      }
    }

    /** `apply_pending.run`: lists the entries, or replays the first `limit` of them in file order. */
    method ApplyPending(confirm: bool, limit: nat, envs: seq<Env>)
      returns (pendingBefore: nat, applied: nat, stillFailing: nat, remaining: nat, ghost order: seq<Commission>)
      requires |journal.pending| <= |envs| && FilesApart(journal.pending.Keys, digest)
      modifies this, journal
      ensures FileOrder(order, old(journal.pending), digest) && EdgesFirst(order, old(journal.pending))
              && |order| == pendingBefore == |old(journal.pending)|
      ensures var n := if !confirm then 0 else if limit < |order| then limit else |order|;
              && Now() == Replayed(old(Now()), order, envs, n)
              && applied == Successful(old(Now()), order, envs, n) && applied + stillFailing == n
      ensures remaining == |journal.pending|
    {
      var entries := PendingEntries();
      order := entries;
      FileOrderPutsEdgesFirst(entries, journal.pending, digest);
      OrderLength(entries, journal.pending);
      pendingBefore := |entries|;
      applied, stillFailing := 0, 0;
      if confirm {
        applied, stillFailing := ReplayFirst(entries, if limit < |entries| then limit else |entries|, envs);
        NoEntryAppears(old(Now()), entries, envs, if limit < |entries| then limit else |entries|);
      }
      var left := PendingEntries();
      FileOrderPutsEdgesFirst(left, journal.pending, digest);
      OrderLength(left, journal.pending);
      remaining := |left|;
    }
  }

  lemma OrderLength(order: seq<Commission>, pending: map<Commission, Entry>)
    requires EdgesFirst(order, pending)
    ensures |order| == |pending|
  {
    DistinctSize(order);
    assert Elems(order) == pending.Keys;
  }

  // ---------- a replay pass ----------

  /** The world after the first `n` replays. */
  function Replayed(w: World, order: seq<Commission>, envs: seq<Env>, n: nat): World
    requires n <= |order| && |order| <= |envs|
  {
    if n == 0 then w else Attempt(Replayed(w, order, envs, n - 1), order[n - 1], envs[n - 1]).0
  }

  /** How many of the first `n` replays report success. */
  function Successful(w: World, order: seq<Commission>, envs: seq<Env>, n: nat): nat
    requires n <= |order| && |order| <= |envs|
  {
    if n == 0 then 0
    else Successful(w, order, envs, n - 1)
         + if Attempt(Replayed(w, order, envs, n - 1), order[n - 1], envs[n - 1]).1 then 1 else 0
  }

  lemma AttemptTouchesOwnEntry(w: World, c: Commission, env: Env, d: Commission)
    requires d != c
    ensures var after := Attempt(w, c, env).0.files.pending;
            (d in after <==> d in w.files.pending) && (d in after ==> after[d] == w.files.pending[d])
  {
  }

  lemma NotBefore(order: seq<Commission>, i: nat)
    requires i < |order| && AllDistinct(order)
    ensures order[i] !in order[..i]
  {
    forall k | 0 <= k < i ensures order[..i][k] != order[i] {}
  }

  /** A commission not among the first `n` keeps its entry. */
  lemma {:induction false} EntryBeforeItsTurn(w: World, order: seq<Commission>, envs: seq<Env>, n: nat, c: Commission)
    requires n <= |order| && |order| <= |envs| && c !in order[..n]
    ensures var after := Replayed(w, order, envs, n).files.pending;
            (c in after <==> c in w.files.pending) && (c in after ==> after[c] == w.files.pending[c])
  {
    if n > 0 {
      assert order[..n] == order[..n - 1] + [order[n - 1]];
      EntryBeforeItsTurn(w, order, envs, n - 1, c);
      AttemptTouchesOwnEntry(Replayed(w, order, envs, n - 1), order[n - 1], envs[n - 1], c);
    }
  }

  /** After its turn an entry is as its own replay left it. */
  lemma {:induction false} EntryAfterItsTurn(w: World, order: seq<Commission>, envs: seq<Env>, i: nat, n: nat)
    requires i < n <= |order| && |order| <= |envs|
    requires AllDistinct(order)
    ensures var c := order[i];
            var own, after := Replayed(w, order, envs, i + 1).files.pending, Replayed(w, order, envs, n).files.pending;
            (c in after <==> c in own) && (c in after ==> after[c] == own[c])
    decreases n
  {
    if n > i + 1 {
      EntryAfterItsTurn(w, order, envs, i, n - 1);
      AttemptTouchesOwnEntry(Replayed(w, order, envs, n - 1), order[n - 1], envs[n - 1], order[i]);
    }
  }

  /** Nothing is lost: whatever the store and the disk do during a pass, an entry is gone afterwards
      only if the store took its commission, and no entry appears. */
  lemma {:induction false} NothingIsLost(w: World, order: seq<Commission>, envs: seq<Env>, n: nat, c: Commission)
    requires EdgesFirst(order, w.files.pending) && n <= |order| && |order| <= |envs|
    ensures var after := Replayed(w, order, envs, n);
            && (c in after.files.pending ==> c in w.files.pending)
            && (c in w.files.pending && c !in after.files.pending ==>
                  exists i :: 0 <= i < n && order[i] == c && Attempt(Replayed(w, order, envs, i), c, envs[i]).1)
  {
    if c in order[..n] {
      var i :| 0 <= i < n && order[..n][i] == c;
      assert order[i] == c && c in order;
      EntryAfterItsTurn(w, order, envs, i, n);
      NotBefore(order, i);
      EntryBeforeItsTurn(w, order, envs, i, c);
    } else {
      EntryBeforeItsTurn(w, order, envs, n, c);
    }
  }

  lemma NoEntryAppears(w: World, order: seq<Commission>, envs: seq<Env>, n: nat)
    requires EdgesFirst(order, w.files.pending) && n <= |order| && |order| <= |envs|
    ensures Replayed(w, order, envs, n).files.pending.Keys <= w.files.pending.Keys
  {
    forall c | c in Replayed(w, order, envs, n).files.pending ensures c in w.files.pending {
      NothingIsLost(w, order, envs, n, c);
    }
  }

  // ---------- passes on a healthy store ----------

  ghost predicate Healthy(envs: seq<Env>) { forall e | e in envs :: e.up && e.faults == NO_FAULTS }

  /** No entry of the other replayable tools, whose runs may do anything to the graph. */
  ghost predicate OnlyUpserts(pending: map<Commission, Entry>) { forall c | c in pending :: !IsOtherReplay(c) }

  /** A replay on a healthy store does nothing to this commission: its input is refused or an endpoint is missing. */
  predicate Stuck(g: Graph, c: Commission) { !Accepted(c) || !Takes(g, c) }

  lemma EdgesKeepNodes(w: World, c: Commission, env: Env)
    requires (!c.NodeWrite? || !Accepted(c)) && !IsOtherReplay(c)
    ensures Attempt(w, c, env).0.graph.nodes == w.graph.nodes
  {
    if c.EdgeWrite? && Accepted(c) { EdgeWriteIsLocal(w.graph, c.edge, env.stamp); }
  }

  lemma {:induction false} NodesBeforeFirstNodeWrite(w: World, order: seq<Commission>, envs: seq<Env>, n: nat)
    requires n <= |order| && |order| <= |envs|
    requires forall i | 0 <= i < n :: (!order[i].NodeWrite? || !Accepted(order[i])) && !IsOtherReplay(order[i])
    ensures Replayed(w, order, envs, n).graph.nodes == w.graph.nodes
  {
    if n > 0 {
      NodesBeforeFirstNodeWrite(w, order, envs, n - 1);
      EdgesKeepNodes(Replayed(w, order, envs, n - 1), order[n - 1], envs[n - 1]);
    }
  }

  lemma StuckDependsOnNodes(g: Graph, h: Graph, c: Commission)
    requires g.nodes == h.nodes
    ensures Stuck(g, c) == Stuck(h, c)
  {
  }

  /** At its turn an entry meets the nodes it met before the pass, if it is an edge. */
  lemma StuckAtItsTurn(w: World, order: seq<Commission>, envs: seq<Env>, i: nat)
    requires EdgesFirst(order, w.files.pending) && OnlyUpserts(w.files.pending) && i < |order| <= |envs|
    ensures Stuck(Replayed(w, order, envs, i).graph, order[i]) == Stuck(w.graph, order[i])
  {
    if order[i].EdgeWrite? {
      assert forall j | 0 <= j < i :: order[j] in order;
      NodesBeforeFirstNodeWrite(w, order, envs, i);
      StuckDependsOnNodes(w.graph, Replayed(w, order, envs, i).graph, order[i]);
    }
  }

  lemma HealthyAttempt(w: World, c: Commission, env: Env)
    requires env.up && env.faults == NO_FAULTS && !IsOtherReplay(c)
    ensures var after := Attempt(w, c, env).0;
            && (Stuck(w.graph, c) ==> after == w && !Attempt(w, c, env).1)
            && (!Stuck(w.graph, c) ==> c !in after.files.pending && Attempt(w, c, env).1)
  {
  }

  /** One pass leaves pending, unchanged, exactly the entries stuck on the graph before it: edges are
      replayed first, so they do not see the nodes of the same pass. */
  lemma {:induction false} OnePass(w: World, order: seq<Commission>, envs: seq<Env>, c: Commission)
    requires EdgesFirst(order, w.files.pending) && OnlyUpserts(w.files.pending) && |order| <= |envs| && Healthy(envs)
    ensures var after := Replayed(w, order, envs, |order|).files.pending;
            && (c in after <==> c in w.files.pending && Stuck(w.graph, c))
            && (c in after ==> after[c] == w.files.pending[c])
  {
    if c in order {
      var i :| 0 <= i < |order| && order[i] == c;
      NotBefore(order, i);
      EntryBeforeItsTurn(w, order, envs, i, c);
      EntryAfterItsTurn(w, order, envs, i, |order|);
      StuckAtItsTurn(w, order, envs, i);
      assert envs[i] in envs;
      HealthyAttempt(Replayed(w, order, envs, i), c, envs[i]);
    } else {
      assert order[..|order|] == order;
      EntryBeforeItsTurn(w, order, envs, |order|, c);
    }
  }

  /** A pass over entries that are all stuck changes nothing at all. */
  lemma {:induction false} StuckPass(w: World, order: seq<Commission>, envs: seq<Env>, n: nat)
    requires n <= |order| && |order| <= |envs| && Healthy(envs)
    requires forall c | c in order :: Stuck(w.graph, c) && !IsOtherReplay(c)
    ensures Replayed(w, order, envs, n) == w
  {
    if n > 0 {
      StuckPass(w, order, envs, n - 1);
      assert order[n - 1] in order && envs[n - 1] in envs;
    }
  }

  /** A whole confirmed pass on a healthy store leads from `w` to `after`. */
  ghost predicate Pass(w: World, order: seq<Commission>, envs: seq<Env>, after: World) {
    && EdgesFirst(order, w.files.pending) && |order| <= |envs| && Healthy(envs) && OnlyUpserts(w.files.pending)
    && after == Replayed(w, order, envs, |order|)
  }

  /** The second pass writes no node: the first left no accepted node commission pending. */
  lemma SecondPassKeepsNodes(w: World, o1: seq<Commission>, e1: seq<Env>, w1: World, o2: seq<Commission>, e2: seq<Env>,
                             w2: World)
    requires Pass(w, o1, e1, w1) && Pass(w1, o2, e2, w2)
    ensures w2.graph.nodes == w1.graph.nodes
  {
    forall i | 0 <= i < |o2| ensures (!o2[i].NodeWrite? || !Accepted(o2[i])) && !IsOtherReplay(o2[i]) {
      assert o2[i] in w1.files.pending;
      OnePass(w, o1, e1, o2[i]);
    }
    NodesBeforeFirstNodeWrite(w1, o2, e2, |o2|);
  }

  lemma TwoPasses(w: World, o1: seq<Commission>, e1: seq<Env>, w1: World, o2: seq<Commission>, e2: seq<Env>, w2: World,
                  c: Commission)
    requires Pass(w, o1, e1, w1) && Pass(w1, o2, e2, w2)
    ensures c in w2.files.pending <==> c in w.files.pending && Stuck(w.graph, c) && Stuck(w2.graph, c)
    ensures c in w2.files.pending ==> w2.files.pending[c] == w.files.pending[c]
  {
    OnePass(w, o1, e1, c);
    OnePass(w1, o2, e2, c);
    SecondPassKeepsNodes(w, o1, e1, w1, o2, e2, w2);
    StuckDependsOnNodes(w1.graph, w2.graph, c);
  }

  /** Two passes settle: what is then pending, with its entry unchanged, is exactly what was refused
      or, for edges, found no endpoints on the first graph and finds none on the last; and a third
      pass changes neither journal nor graph. */
  lemma TwoPassesSettle(w: World, o1: seq<Commission>, e1: seq<Env>, w1: World, o2: seq<Commission>, e2: seq<Env>,
                        w2: World, o3: seq<Commission>, e3: seq<Env>, w3: World)
    requires Pass(w, o1, e1, w1) && Pass(w1, o2, e2, w2) && Pass(w2, o3, e3, w3)
    ensures forall c :: c in w2.files.pending <==> c in w.files.pending && Stuck(w.graph, c) && Stuck(w2.graph, c)
    ensures forall c | c in w2.files.pending :: w2.files.pending[c] == w.files.pending[c]
    ensures w3 == w2
  {
    forall c { TwoPasses(w, o1, e1, w1, o2, e2, w2, c); }
    StuckPass(w2, o3, e3, |o3|);
  }

  // ---------- passes with a limit ----------

  /** The first `n` replays change nothing exactly when all their entries are stuck. */
  lemma IdleIffStuck(w: World, order: seq<Commission>, envs: seq<Env>, n: nat)
    requires EdgesFirst(order, w.files.pending) && OnlyUpserts(w.files.pending) && n <= |order| <= |envs|
             && Healthy(envs)
    ensures Replayed(w, order, envs, n) == w <==> forall i | 0 <= i < n :: Stuck(w.graph, order[i])
  {
    if forall i | 0 <= i < n :: Stuck(w.graph, order[i]) {
      forall i | 0 <= i < n ensures !IsOtherReplay(order[i]) { assert order[i] in w.files.pending; }
      StuckPrefix(w, order, envs, n);
    } else {
      var i :| 0 <= i < n && !Stuck(w.graph, order[i]);
      assert order[i] in order && envs[i] in envs;
      StuckAtItsTurn(w, order, envs, i);
      HealthyAttempt(Replayed(w, order, envs, i), order[i], envs[i]);
      EntryAfterItsTurn(w, order, envs, i, n);
    }
  }

  lemma {:induction false} StuckPrefix(w: World, order: seq<Commission>, envs: seq<Env>, n: nat)
    requires n <= |order| && |order| <= |envs| && Healthy(envs)
    requires forall i | 0 <= i < n :: Stuck(w.graph, order[i]) && !IsOtherReplay(order[i])
    ensures Replayed(w, order, envs, n) == w
  {
    if n > 0 {
      StuckPrefix(w, order, envs, n - 1);
      assert envs[n - 1] in envs;
    }
  }

  function Least(a: nat, b: nat): nat { if a < b then a else b }

  /** A confirmed pass over the first `limit` entries, on a healthy store, leads from `w` to `after`. */
  ghost predicate LimitedPass(w: World, limit: nat, digest: Commission -> string, order: seq<Commission>,
                              envs: seq<Env>, after: World) {
    && FileOrder(order, w.files.pending, digest) && |order| <= |envs| && Healthy(envs) && OnlyUpserts(w.files.pending)
    && after == Replayed(w, order, envs, Least(limit, |order|))
  }

  /** The first `limit` entries in file order are stuck. */
  ghost predicate Blocked(w: World, limit: nat, order: seq<Commission>) {
    forall i | 0 <= i < Least(limit, |order|) :: Stuck(w.graph, order[i])
  }

  /** There is one file order. */
  lemma OneFileOrder(a: seq<Commission>, b: seq<Commission>, pending: map<Commission, Entry>,
                     digest: Commission -> string)
    requires FilesApart(pending.Keys, digest) && FileOrder(a, pending, digest) && FileOrder(b, pending, digest)
    ensures a == b
  {
    var name := (c: Commission) => FileName(c, digest);
    Text.OneOrder(pending.Keys, a, b, name);
  }

  /** A pass makes no progress exactly when the entries at the front are stuck, and then no later pass
      with this limit does: every entry behind them waits for good, the nodes they wait for included. */
  lemma {:induction false} BlockedForGood(ws: seq<World>, limit: nat, digest: Commission -> string,
                                          orders: seq<seq<Commission>>, envs: seq<seq<Env>>)
    requires |ws| == |orders| + 1 == |envs| + 1 && |orders| > 0 && FilesApart(ws[0].files.pending.Keys, digest)
    requires forall i | 0 <= i < |orders| :: LimitedPass(ws[i], limit, digest, orders[i], envs[i], ws[i + 1])
    ensures ws[1] == ws[0] <==> Blocked(ws[0], limit, orders[0])
    ensures ws[1] == ws[0] ==> ws[|orders|] == ws[0]
    decreases |orders|
  {
    assert LimitedPass(ws[0], limit, digest, orders[0], envs[0], ws[1]);
    FileOrderPutsEdgesFirst(orders[0], ws[0].files.pending, digest);
    IdleIffStuck(ws[0], orders[0], envs[0], Least(limit, |orders[0]|));
    if ws[1] == ws[0] && |orders| > 1 {
      assert LimitedPass(ws[1], limit, digest, orders[1], envs[1], ws[2]);
      OneFileOrder(orders[0], orders[1], ws[0].files.pending, digest);
      BlockedForGood(ws[1..], limit, digest, orders[1..], envs[1..]);
    }
  }

  lemma NoNodeFirst(order: seq<Commission>, pending: map<Commission, Entry>, c: Commission)
    requires EdgesFirst(order, pending) && c.EdgeWrite? && c in order
    ensures !order[0].NodeWrite?
  {
    var i :| 0 <= i < |order| && order[i] == c;
  }

  /** An edge without its endpoints and a node commission: with a limit of one the edge is tried at every
      pass and the node never, although the store would take it. */
  lemma StarvedRun(g: Graph, e: EdgeInput, n: NodeInput, digest: Commission -> string, order: seq<Commission>,
                   envs: seq<Env>, after: World)
    requires EdgeAccepted(e) && NodeAccepted(n) && !EndpointsFound(g, e)
    requires LimitedPass(Awaiting(g, e, n), 1, digest, order, envs, after)
    ensures after == Awaiting(g, e, n) && NodeWrite(n) in after.files.pending && !Stuck(after.graph, NodeWrite(n))
  {
    var w := Awaiting(g, e, n);
    FileOrderPutsEdgesFirst(order, w.files.pending, digest);
    assert EdgeWrite(e) in order && NodeWrite(n) in order;
    NoNodeFirst(order, w.files.pending, EdgeWrite(e));
    assert order[0] in w.files.pending;
    IdleIffStuck(w, order, envs, 1);
  }

  const A_HOST := NodeInput("Host", ["id"], map["id" := "h"], "x", "s")
  const BY_ID := Endpoint("Host", ["id"], map["id" := "h"])
  const WAITING_EDGE := EdgeInput("KNOWS", BY_ID, BY_ID, map[], "x", "s")
  const NO_GRAPH := Graph(map[], map[], 0)

  /** So the edge waits for good for a host that is itself pending and would give it its endpoints. */
  lemma StarvedHost(digest: Commission -> string, order: seq<Commission>, envs: seq<Env>, after: World, stamp: string)
    requires LimitedPass(Awaiting(NO_GRAPH, WAITING_EDGE, A_HOST), 1, digest, order, envs, after)
    ensures after == Awaiting(NO_GRAPH, WAITING_EDGE, A_HOST)
    ensures NodeAccepted(A_HOST) && EdgeAccepted(WAITING_EDGE) && !EndpointsFound(NO_GRAPH, WAITING_EDGE)
    ensures EndpointsFound(WriteNode(NO_GRAPH, A_HOST, stamp), WAITING_EDGE)
  {
    assert NodeAccepted(A_HOST);
    HostIsFound(stamp);
    StarvedRun(NO_GRAPH, WAITING_EDGE, A_HOST, digest, order, envs, after);
  }

  lemma HostIsFound(stamp: string)
    requires NodeAccepted(A_HOST) && EdgeAccepted(WAITING_EDGE)
    ensures EndpointsFound(WriteNode(NO_GRAPH, A_HOST, stamp), WAITING_EDGE)
  {
    assert Matching(NO_GRAPH.nodes, "Host", A_HOST.mergeKeys, A_HOST.props) == {};
    assert 0 in Froms(WriteNode(NO_GRAPH, A_HOST, stamp), WAITING_EDGE);
    assert 0 in Tos(WriteNode(NO_GRAPH, A_HOST, stamp), WAITING_EDGE);
  }

  // ---------- when the endpoints on the last graph alone decide ----------

  ghost predicate AllAccepted(pending: map<Commission, Entry>) { forall c | c in pending :: Accepted(c) }

  /** No pending node commission, written at one of these times, can lose a pending edge its endpoints. */
  ghost predicate NothingLost(g: Graph, pending: map<Commission, Entry>, envs: seq<Env>) {
    forall c, d, env | c in pending && d in pending && env in envs && c.EdgeWrite? && d.NodeWrite? && Accepted(c)
      && Accepted(d) ::
      !Endpoints.LosesOn(g.nodes, d.node, c.edge, env.stamp)
  }

  /** An edge one of whose endpoints matches no node. */
  predicate Unmatched(g: Graph, c: Commission) { c.EdgeWrite? && EdgeAccepted(c.edge) && !EndpointsFound(g, c.edge) }

  ghost predicate LabelsApart(g: Graph, h: Graph) {
    forall a, b :: Endpoints.Meet(h.nodes, a, b) ==> Endpoints.Meet(g.nodes, a, b)
  }

  lemma AttemptKeepsEndpoints(w: World, g: Graph, c: Commission, env: Env, e: EdgeInput)
    requires ValidGraph(w.graph) && EdgeAccepted(e) && !IsOtherReplay(c) && LabelsApart(g, w.graph)
    requires c.NodeWrite? && Accepted(c) ==> !Endpoints.LosesOn(g.nodes, c.node, e, env.stamp)
    ensures var after := Attempt(w, c, env).0.graph;
            ValidGraph(after) && LabelsApart(g, after) && (EndpointsFound(w.graph, e) ==> EndpointsFound(after, e))
  {
    if c.NodeWrite? && Accepted(c) && env.up {
      MatchedAfterWrite(w.graph, c.node, env.stamp);
      if EndpointsFound(w.graph, e) { Endpoints.EndpointsSurvive(w.graph, c.node, e, env.stamp); }
      forall a, b | Endpoints.Meet(WriteNode(w.graph, c.node, env.stamp).nodes, a, b)
        ensures Endpoints.Meet(g.nodes, a, b) {
        Endpoints.LabelsStayApart(w.graph, c.node, env.stamp, a, b);
      }
    } else {
      EdgesStayValid(w, c, env);
    }
  }

  lemma EdgesStayValid(w: World, c: Commission, env: Env)
    requires ValidGraph(w.graph) && !(c.NodeWrite? && Accepted(c) && env.up) && !IsOtherReplay(c)
    ensures ValidGraph(Attempt(w, c, env).0.graph) && Attempt(w, c, env).0.graph.nodes == w.graph.nodes
  {
    if c.EdgeWrite? && Accepted(c) { EdgeWriteIsLocal(w.graph, c.edge, env.stamp); }
  }

  /** Endpoints found before a pass are found after it if no node commission loses them. */
  lemma {:induction false} FoundStaysFound(w: World, order: seq<Commission>, envs: seq<Env>, n: nat, e: EdgeInput)
    requires n <= |order| && |order| <= |envs| && ValidGraph(w.graph) && EdgeAccepted(e)
    requires forall i | 0 <= i < n :: !IsOtherReplay(order[i])
    requires forall i | 0 <= i < n && order[i].NodeWrite? && Accepted(order[i]) ::
               !Endpoints.LosesOn(w.graph.nodes, order[i].node, e, envs[i].stamp)
    ensures ValidGraph(Replayed(w, order, envs, n).graph) && LabelsApart(w.graph, Replayed(w, order, envs, n).graph)
    ensures EndpointsFound(w.graph, e) ==> EndpointsFound(Replayed(w, order, envs, n).graph, e)
  {
    if n > 0 {
      FoundStaysFound(w, order, envs, n - 1, e);
      AttemptKeepsEndpoints(Replayed(w, order, envs, n - 1), w.graph, order[n - 1], envs[n - 1], e);
    }
  }

  lemma StuckMeansUnmatched(g: Graph, c: Commission)
    requires Accepted(c)
    ensures Stuck(g, c) <==> Unmatched(g, c)
  {
  }

  lemma UnmatchedFromTheStart(w: World, o1: seq<Commission>, e1: seq<Env>, w1: World, c: Commission)
    requires Pass(w, o1, e1, w1) && ValidGraph(w.graph) && NothingLost(w.graph, w.files.pending, e1)
             && c in w.files.pending
    requires Unmatched(w1.graph, c)
    ensures Unmatched(w.graph, c)
  {
    forall i | 0 <= i < |o1|
      ensures !IsOtherReplay(o1[i])
      ensures o1[i].NodeWrite? && Accepted(o1[i]) ==> !Endpoints.LosesOn(w.graph.nodes, o1[i].node, c.edge, e1[i].stamp)
    {
      assert o1[i] in w.files.pending && e1[i] in e1;
    }
    FoundStaysFound(w, o1, e1, |o1|, c.edge);
  }

  /** The node commissions of a list, written in its order. */
  function NodesWritten(g: Graph, order: seq<Commission>, envs: seq<Env>, n: nat): Graph
    requires n <= |order| && |order| <= |envs|
  {
    if n == 0 then g else NodeWritten(NodesWritten(g, order, envs, n - 1), order[n - 1], envs[n - 1].stamp)
  }

  lemma SameNodesSameWrite(g: Graph, h: Graph, n: NodeInput, stamp: string)
    requires NodeAccepted(n) && g.nodes == h.nodes && g.next == h.next
    ensures WriteNode(g, n, stamp).nodes == WriteNode(h, n, stamp).nodes
            && WriteNode(g, n, stamp).next == WriteNode(h, n, stamp).next
  {
  }

  predicate SameNodes(g: Graph, h: Graph) { g.nodes == h.nodes && g.next == h.next }

  function NodeWritten(g: Graph, c: Commission, stamp: string): Graph {
    if c.NodeWrite? && Accepted(c) then WriteNode(g, c.node, stamp) else g
  }

  lemma AttemptWritesNode(w: World, c: Commission, env: Env, g: Graph)
    requires env.up && !IsOtherReplay(c) && SameNodes(w.graph, g)
    ensures SameNodes(Attempt(w, c, env).0.graph, NodeWritten(g, c, env.stamp))
  {
    if c.NodeWrite? && Accepted(c) { SameNodesSameWrite(w.graph, g, c.node, env.stamp); }
  }

  /** A pass leaves the nodes that its node commissions make of those before it. */
  lemma {:induction false} PassWritesNodes(w: World, order: seq<Commission>, envs: seq<Env>, n: nat)
    requires n <= |order| && |order| <= |envs| && Healthy(envs) && forall c | c in order :: !IsOtherReplay(c)
    ensures SameNodes(Replayed(w, order, envs, n).graph, NodesWritten(w.graph, order, envs, n))
  {
    if n > 0 {
      PassWritesNodes(w, order, envs, n - 1);
      assert order[n - 1] in order && envs[n - 1] in envs;
      AttemptWritesNode(Replayed(w, order, envs, n - 1), order[n - 1], envs[n - 1],
                        NodesWritten(w.graph, order, envs, n - 1));
    }
  }

  /** What is pending after two passes are exactly the edges whose endpoints no node of the last graph matches. */
  ghost predicate LeavesUnmatchedEdges(w: World, w2: World) {
    forall c :: c in w2.files.pending <==> c in w.files.pending && Unmatched(w2.graph, c)
  }

  /** With only accepted node and edge commissions pending, that is so exactly when the pending node
      commissions, written in file order on the graph before, take no edge's endpoints away. */
  lemma TwoPassesExactly(w: World, o1: seq<Commission>, e1: seq<Env>, w1: World, o2: seq<Commission>, e2: seq<Env>,
                         w2: World)
    requires AllAccepted(w.files.pending) && Pass(w, o1, e1, w1) && Pass(w1, o2, e2, w2)
    ensures LeavesUnmatchedEdges(w, w2) <==>
            forall c | c in w.files.pending && Unmatched(NodesWritten(w.graph, o1, e1, |o1|), c) ::
                Unmatched(w.graph, c)
  {
    PassWritesNodes(w, o1, e1, |o1|);
    TwoPassesByGraph(w, o1, e1, w1, o2, e2, w2);
    forall c ensures Unmatched(NodesWritten(w.graph, o1, e1, |o1|), c) == Unmatched(w1.graph, c) {
      UnmatchedDependsOnNodes(NodesWritten(w.graph, o1, e1, |o1|), w1.graph, c);
    }
  }

  lemma UnmatchedDependsOnNodes(g: Graph, h: Graph, c: Commission)
    requires g.nodes == h.nodes
    ensures Unmatched(g, c) == Unmatched(h, c)
  {
  }

  lemma TwoPassesByGraph(w: World, o1: seq<Commission>, e1: seq<Env>, w1: World, o2: seq<Commission>, e2: seq<Env>,
                         w2: World)
    requires AllAccepted(w.files.pending) && Pass(w, o1, e1, w1) && Pass(w1, o2, e2, w2)
    ensures LeavesUnmatchedEdges(w, w2) <==>
            forall c | c in w.files.pending && Unmatched(w1.graph, c) :: Unmatched(w.graph, c)
  {
    SecondPassKeepsNodes(w, o1, e1, w1, o2, e2, w2);
    forall c | c in w.files.pending
      ensures c in w2.files.pending <==> Unmatched(w.graph, c) && Unmatched(w2.graph, c)
      ensures Unmatched(w2.graph, c) == Unmatched(w1.graph, c)
    {
      TwoPasses(w, o1, e1, w1, o2, e2, w2, c);
      StuckMeansUnmatched(w.graph, c);
      StuckMeansUnmatched(w2.graph, c);
      UnmatchedDependsOnNodes(w1.graph, w2.graph, c);
    }
    forall c | c in w2.files.pending ensures c in w.files.pending { TwoPasses(w, o1, e1, w1, o2, e2, w2, c); }
  }

  /** So it is whenever no pending node commission can lose a pending edge. */
  lemma TwoPassesLeaveUnmatchedEdges(w: World, o1: seq<Commission>, e1: seq<Env>, w1: World,
                                     o2: seq<Commission>, e2: seq<Env>, w2: World)
    requires ValidGraph(w.graph) && AllAccepted(w.files.pending) && NothingLost(w.graph, w.files.pending, e1)
    requires Pass(w, o1, e1, w1) && Pass(w1, o2, e2, w2)
    ensures LeavesUnmatchedEdges(w, w2)
  {
    TwoPassesByGraph(w, o1, e1, w1, o2, e2, w2);
    forall c | c in w.files.pending && Unmatched(w1.graph, c) ensures Unmatched(w.graph, c) {
      UnmatchedFromTheStart(w, o1, e1, w1, c);
    }
  }

  // ---------- exactly which node commissions spoil it for an edge ----------

  function Awaiting(g: Graph, e: EdgeInput, n: NodeInput): World {
    World(g, State(NO_STATUS, map[EdgeWrite(e) := Entry(0, 0, 1, ""), NodeWrite(n) := Entry(0, 0, 1, "")]))
  }

  /** Two passes over this edge and this node commission do as promised, on every graph and at every time. */
  ghost predicate AlwaysLeaves(e: EdgeInput, n: NodeInput) {
    forall g, o1, e1, w1, o2, e2, w2 |
      ValidGraph(g) && Pass(Awaiting(g, e, n), o1, e1, w1) && Pass(w1, o2, e2, w2) ::
          LeavesUnmatchedEdges(Awaiting(g, e, n), w2)
  }

  /** They do exactly when the node commission can never lose the edge. */
  lemma PairIsExactIff(e: EdgeInput, n: NodeInput)
    requires EdgeAccepted(e) && NodeAccepted(n)
    ensures AlwaysLeaves(e, n) <==> forall stamp :: !Endpoints.Loses(n, e, stamp)
  {
    if stamp :| Endpoints.Loses(n, e, stamp) {
      var g := Endpoints.LostIsNotFound(n, e, stamp, false);
      var o1, e1, w1 := LosingRun(g, e, n, stamp);
      assert Pass(Awaiting(g, e, n), o1, e1, w1) && Pass(w1, [], [], w1);
    } else {
      forall g, o1, e1, w1, o2, e2, w2 |
        ValidGraph(g) && Pass(Awaiting(g, e, n), o1, e1, w1) && Pass(w1, o2, e2, w2)
        ensures LeavesUnmatchedEdges(Awaiting(g, e, n), w2)
      {
        PairIsSafe(g, e, n, e1);
        TwoPassesLeaveUnmatchedEdges(Awaiting(g, e, n), o1, e1, w1, o2, e2, w2);
      }
    }
  }

  lemma PairIsSafe(g: Graph, e: EdgeInput, n: NodeInput, envs: seq<Env>)
    requires EdgeAccepted(e) && NodeAccepted(n) && forall stamp :: !Endpoints.Loses(n, e, stamp)
    ensures var pending := Awaiting(g, e, n).files.pending; AllAccepted(pending) && NothingLost(g, pending, envs)
  {
    forall stamp ensures !Endpoints.LosesOn(g.nodes, n, e, stamp) {
      assert !Endpoints.Loses(n, e, stamp);
    }
  }

  lemma TwoSteps(w: World, c: Commission, d: Commission, env: Env)
    ensures Replayed(w, [c, d], [env, env], 2) == Attempt(Attempt(w, c, env).0, d, env).0
  {
    assert Replayed(w, [c, d], [env, env], 0) == w;
    assert Replayed(w, [c, d], [env, env], 1) == Attempt(w, c, env).0;
  }

  /** The first pass writes the edge and then takes its endpoints away: the edge is not pending
      although no node of the last graph matches. */
  lemma LosingRun(g: Graph, e: EdgeInput, n: NodeInput, stamp: string)
    returns (o1: seq<Commission>, e1: seq<Env>, w1: World)
    requires EdgeAccepted(e) && NodeAccepted(n) && ValidGraph(g) && !Endpoints.KeepsFound(g, n, e, stamp)
    ensures Pass(Awaiting(g, e, n), o1, e1, w1) && Pass(w1, [], [], w1) && !LeavesUnmatchedEdges(Awaiting(g, e, n), w1)
  {
    var c, d, w := EdgeWrite(e), NodeWrite(n), Awaiting(g, e, n);
    var env := Env(true, "", 0, stamp, NO_FAULTS, Effect(g, Refused));
    o1, e1 := [c, d], [env, env];
    w1 := Replayed(w, o1, e1, 2);
    PairIsAPass(w, c, d, env);
    NothingIsPending(w, o1, e1, w1);
    TwoSteps(w, c, d, env);
    LosesInTwoSteps(w, e, n, env);
  }

  lemma PairIsAPass(w: World, c: Commission, d: Commission, env: Env)
    requires c.EdgeWrite? && d.NodeWrite? && w.files.pending.Keys == {c, d} && env.up && env.faults == NO_FAULTS
    ensures Pass(w, [c, d], [env, env], Replayed(w, [c, d], [env, env], 2))
  {
  }

  lemma LosesInTwoSteps(w: World, e: EdgeInput, n: NodeInput, env: Env)
    requires EdgeAccepted(e) && NodeAccepted(n) && env.up && !Endpoints.KeepsFound(w.graph, n, e, env.stamp)
    ensures Unmatched(Attempt(Attempt(w, EdgeWrite(e), env).0, NodeWrite(n), env).0.graph, EdgeWrite(e))
  {
    var mid := Attempt(w, EdgeWrite(e), env).0;
    EdgeWriteIsLocal(w.graph, e, env.stamp);
    SameNodesSameWrite(mid.graph, w.graph, n, env.stamp);
    assert Attempt(mid, NodeWrite(n), env).0.graph == WriteNode(mid.graph, n, env.stamp);
  }

  lemma NothingIsPending(w: World, order: seq<Commission>, envs: seq<Env>, w1: World)
    requires Pass(w, order, envs, w1) && forall c | c in w.files.pending :: !Stuck(w.graph, c)
    ensures w1.files.pending == map[]
  {
    forall c ensures c !in w1.files.pending { OnePass(w, order, envs, c); }
  }

  // ---------- an instance ----------

  const MOVED_HOST := NodeInput("Host", ["id"], map["id" := "h", "ip" := "2"], "x", "s")
  const OLD_ADDRESS := Endpoint("Host", ["ip"], map["ip" := "1"])
  const SELF_EDGE := EdgeInput("KNOWS", OLD_ADDRESS, OLD_ADDRESS, map[], "x", "s")

  /** A host that changed its address loses an edge that goes by the old one. */
  lemma MovedHostLosesItsEdge(stamp: string)
    ensures NodeAccepted(MOVED_HOST) && EdgeAccepted(SELF_EDGE) && Endpoints.Loses(MOVED_HOST, SELF_EDGE, stamp)
  {
    assert "ip" in OLD_ADDRESS.mergeKeys && Endpoints.SetBy(MOVED_HOST, stamp)["ip"] == "2";
    assert Endpoints.Changes(MOVED_HOST, OLD_ADDRESS, stamp);
  }

  /** Node commissions that merge on the id, whatever else they set, never spoil an edge whose
      endpoints go by their ids. */
  lemma HostsAndTheirEdgeAreSafe(n: NodeInput, e: EdgeInput, stamp: string)
    requires NodeAccepted(n) && EdgeAccepted(e) && "id" in n.mergeKeys
    requires e.from.mergeKeys == ["id"] && e.to.mergeKeys == ["id"]
    ensures !Endpoints.Loses(n, e, stamp)
  {
    Endpoints.SharedKeysNeverMove(n, e.from, stamp);
    Endpoints.SharedKeysNeverMove(n, e.to, stamp);
  }

  // ---------- what a pass leaves of the edges ----------

  /** The commission is written to this edge, among others. */
  ghost predicate Touches(g: Graph, c: Commission, env: Env, e: EdgeId) {
    c.EdgeWrite? && Sound(c.edge) && env.up && IsNamed(g, c.edge, e)
  }

  ghost predicate Sets(c: EdgeInput, k: string) {
    k in c.props || k == "commissioned_by" || k == "commissioned_at" || k == "session_id"
  }

  ghost function SetTo(c: EdgeInput, stamp: string, k: string): string
    requires Sets(c, k)
  {
    if k == "commissioned_by" then c.author
    else if k == "commissioned_at" then stamp
    else if k == "session_id" then c.session
    else c.props[k]
  }

  /** Of the first `n` entries the i-th is the last that sets this property of this edge. */
  ghost predicate LastSets(g: Graph, order: seq<Commission>, envs: seq<Env>, n: nat, e: EdgeId, k: string, i: nat)
    requires n <= |order| && |order| <= |envs|
  {
    && i < n && Touches(g, order[i], envs[i], e) && Sets(order[i].edge, k)
    && forall j | i < j < n :: !(Touches(g, order[j], envs[j], e) && Sets(order[j].edge, k))
  }

  ghost predicate IsTouched(g: Graph, order: seq<Commission>, envs: seq<Env>, n: nat, e: EdgeId)
    requires n <= |order| && |order| <= |envs|
  {
    exists i :: 0 <= i < n && Touches(g, order[i], envs[i], e)
  }

  /** An edge is there if it was or some replayed commission is written to it; each of its properties
      is what the last commission to set it says, or what it was. */
  ghost predicate EdgeTells(g: Graph, edges: map<EdgeId, Props>, order: seq<Commission>, envs: seq<Env>, n: nat,
                            e: EdgeId)
    requires n <= |order| && |order| <= |envs|
  {
    && (e in edges <==> e in g.edges || IsTouched(g, order, envs, n, e))
    && (e in edges ==> forall k :: PropertyTells(g, edges[e], order, envs, n, e, k))
  }

  ghost predicate PropertyTells(g: Graph, has: Props, order: seq<Commission>, envs: seq<Env>, n: nat, e: EdgeId,
                                k: string)
    requires n <= |order| && |order| <= |envs|
  {
    && (forall i: nat | LastSets(g, order, envs, n, e, k, i) ::
          k in has && has[k] == SetTo(order[i].edge, envs[i].stamp, k))
    && ((forall i: nat :: !LastSets(g, order, envs, n, e, k, i)) ==>
          (k in has <==> e in g.edges && k in g.edges[e]) && (k in has ==> has[k] == g.edges[e][k]))
  }

  /** What replaying one commission does to this edge. */
  ghost predicate Steps(g: Graph, before: map<EdgeId, Props>, after: map<EdgeId, Props>, c: Commission, env: Env,
                        e: EdgeId) {
    if Touches(g, c, env, e)
    then e in after && IsWritten(after[e], if e in before then before[e] else map[], c.edge.props, c.edge.author,
                                 c.edge.session, env.stamp)
    else (e in after <==> e in before) && (e in before ==> after[e] == before[e])
  }

  lemma EdgeAttempt(w: World, c: Commission, env: Env, g: Graph, e: EdgeId)
    requires !IsOtherReplay(c) && (c.EdgeWrite? ==> w.graph.nodes == g.nodes)
    ensures Steps(g, w.graph.edges, Attempt(w, c, env).0.graph.edges, c, env, e)
  {
    if c.EdgeWrite? {
      AcceptedMeans(MOVED_HOST, c.edge);
      if Accepted(c) {
        EdgeWriteMeans(w.graph, c.edge, env.stamp);
        EndpointsAreThere(w.graph, c.edge);
        assert IsNamed(g, c.edge, e) == IsNamed(w.graph, c.edge, e);
      }
    }
  }

  lemma LastSetsStep(g: Graph, order: seq<Commission>, envs: seq<Env>, n: nat, m: nat, e: EdgeId, k: string)
    requires n < |order| && |order| <= |envs| && m == n + 1
    ensures var sets := Touches(g, order[n], envs[n], e) && Sets(order[n].edge, k);
            && (sets ==> LastSets(g, order, envs, m, e, k, n)
                         && forall i: nat | LastSets(g, order, envs, m, e, k, i) :: i == n)
            && (!sets ==> forall i: nat ::
                  LastSets(g, order, envs, m, e, k, i) <==> LastSets(g, order, envs, n, e, k, i))
  {
  }

  lemma PropertyStep(g: Graph, had: Props, has: Props, order: seq<Commission>, envs: seq<Env>, n: nat, m: nat,
                     e: EdgeId, k: string)
    requires n < |order| && |order| <= |envs| && m == n + 1 && PropertyTells(g, had, order, envs, n, e, k)
    requires if Touches(g, order[n], envs[n], e)
             then IsWritten(has, had, order[n].edge.props, order[n].edge.author, order[n].edge.session, envs[n].stamp)
             else has == had
    ensures PropertyTells(g, has, order, envs, m, e, k)
  {
    LastSetsStep(g, order, envs, n, m, e, k);
  }

  lemma NothingTouchedYet(g: Graph, order: seq<Commission>, envs: seq<Env>, n: nat, e: EdgeId, k: string)
    requires n <= |order| && |order| <= |envs| && !IsTouched(g, order, envs, n, e) && e !in g.edges
    ensures PropertyTells(g, map[], order, envs, n, e, k)
  {
  }

  /** At its turn an edge commission meets the nodes from before the pass. */
  lemma NodesAtItsTurn(w: World, order: seq<Commission>, envs: seq<Env>, i: nat)
    requires EdgesFirst(order, w.files.pending) && OnlyUpserts(w.files.pending) && i < |order| <= |envs|
    ensures !IsOtherReplay(order[i])
    ensures order[i].EdgeWrite? ==> Replayed(w, order, envs, i).graph.nodes == w.graph.nodes
  {
    assert order[i] in order;
    if order[i].EdgeWrite? {
      assert forall j | 0 <= j < i :: order[j] in order;
      NodesBeforeFirstNodeWrite(w, order, envs, i);
    }
  }

  lemma OneMoreSteps(w: World, order: seq<Commission>, envs: seq<Env>, i: nat, e: EdgeId)
    requires EdgesFirst(order, w.files.pending) && OnlyUpserts(w.files.pending) && i < |order| <= |envs|
    ensures Steps(w.graph, Replayed(w, order, envs, i).graph.edges, Replayed(w, order, envs, i + 1).graph.edges,
                  order[i], envs[i], e)
  {
    NodesAtItsTurn(w, order, envs, i);
    EdgeAttempt(Replayed(w, order, envs, i), order[i], envs[i], w.graph, e);
  }

  lemma TouchedStep(g: Graph, order: seq<Commission>, envs: seq<Env>, n: nat, e: EdgeId)
    requires n < |order| && |order| <= |envs|
    ensures IsTouched(g, order, envs, n + 1, e) <==> IsTouched(g, order, envs, n, e) || Touches(g, order[n], envs[n], e)
  {
  }

  lemma EdgeStep(g: Graph, before: map<EdgeId, Props>, after: map<EdgeId, Props>, order: seq<Commission>,
                 envs: seq<Env>, n: nat, e: EdgeId)
    requires n < |order| && |order| <= |envs| && EdgeTells(g, before, order, envs, n, e)
    requires Steps(g, before, after, order[n], envs[n], e)
    ensures EdgeTells(g, after, order, envs, n + 1, e)
  {
    TouchedStep(g, order, envs, n, e);
    if e in after {
      var m, had := n + 1, if e in before then before[e] else map[];
      forall k ensures PropertyTells(g, after[e], order, envs, m, e, k) {
        if e !in before { NothingTouchedYet(g, order, envs, n, e, k); }
        assert PropertyTells(g, had, order, envs, n, e, k);
        PropertyStep(g, had, after[e], order, envs, n, m, e, k);
      }
    }
  }

  ghost predicate TellsAfter(w: World, order: seq<Commission>, envs: seq<Env>, n: nat, e: EdgeId)
    requires n <= |order| && |order| <= |envs|
  {
    EdgeTells(w.graph, Replayed(w, order, envs, n).graph.edges, order, envs, n, e)
  }

  lemma TellsAtFirst(w: World, order: seq<Commission>, envs: seq<Env>, e: EdgeId)
    requires |order| <= |envs|
    ensures TellsAfter(w, order, envs, 0, e)
  {
    assert !IsTouched(w.graph, order, envs, 0, e);
    assert forall k: string, i: nat :: !LastSets(w.graph, order, envs, 0, e, k, i);
  }

  lemma TellsOneMore(w: World, order: seq<Commission>, envs: seq<Env>, i: nat, e: EdgeId)
    requires EdgesFirst(order, w.files.pending) && OnlyUpserts(w.files.pending) && i < |order| <= |envs|
    requires TellsAfter(w, order, envs, i, e)
    ensures TellsAfter(w, order, envs, i + 1, e)
  {
    OneMoreSteps(w, order, envs, i, e);
    EdgeStep(w.graph, Replayed(w, order, envs, i).graph.edges, Replayed(w, order, envs, i + 1).graph.edges, order,
             envs, i, e);
  }

  /** Whatever the store does, a pass leaves exactly the edges from before and those its commissions are
      written to, each property as the last of them says. */
  lemma PassWritesEdges(w: World, order: seq<Commission>, envs: seq<Env>, n: nat, e: EdgeId)
    requires EdgesFirst(order, w.files.pending) && OnlyUpserts(w.files.pending) && n <= |order| <= |envs|
    ensures EdgeTells(w.graph, Replayed(w, order, envs, n).graph.edges, order, envs, n, e)
  {
    TellsAtFirst(w, order, envs, e);
    for i := 0 to n
      invariant TellsAfter(w, order, envs, i, e)
    {
      TellsOneMore(w, order, envs, i, e);
    }
  }

  /** Every edge commission that a healthy pass clears is in the graph after it, between all endpoints
      found before it. */
  lemma ClearedEdgeIsThere(w: World, order: seq<Commission>, envs: seq<Env>, c: Commission, e: EdgeId)
    requires EdgesFirst(order, w.files.pending) && OnlyUpserts(w.files.pending) && |order| <= |envs| && Healthy(envs)
    requires c.EdgeWrite? && c in w.files.pending && c !in Replayed(w, order, envs, |order|).files.pending
    ensures Sound(c.edge) && IsThere(w.graph, c.edge.from) && IsThere(w.graph, c.edge.to)
    ensures IsNamed(w.graph, c.edge, e) ==> e in Replayed(w, order, envs, |order|).graph.edges
  {
    OnePass(w, order, envs, c);
    AcceptedMeans(MOVED_HOST, c.edge);
    EndpointsAreThere(w.graph, c.edge);
    if IsNamed(w.graph, c.edge, e) {
      var i :| 0 <= i < |order| && order[i] == c;
      assert envs[i] in envs && Touches(w.graph, order[i], envs[i], e);
      PassWritesEdges(w, order, envs, |order|, e);
    }
  }

  /** What is stuck: a refused input, an edge without its endpoints, and every entry of a tool without a
      replayer. */
  lemma StuckMeans(g: Graph, c: Commission)
    ensures Stuck(g, c) <==>
            match c
            case NodeWrite(n) => !(Given(n.mergeKeys, n.props) && Unreserved(n.props))
            case EdgeWrite(e) => !(Sound(e) && IsThere(g, e.from) && IsThere(g, e.to))
            case Other(_, _) => true
  {
    match c {
      case NodeWrite(n) => AcceptedMeans(n, SELF_EDGE);
      case EdgeWrite(e) =>
        AcceptedMeans(MOVED_HOST, e);
        if EdgeAccepted(e) { EndpointsAreThere(g, e); }
      case Other(_, _) =>
    }
  }

  ghost predicate IsReplayed(tool: string) {
    tool in {"librarian.purge_session", "librarian.ingest_inventory", "librarian.enrich_vulnerabilities",
             "librarian.enrich_eol", "librarian.match_iocs"}
  }

  /** An entry of one of five further tools is replayed, whatever that does to the graph; one of any other
      tool fails and leaves everything as it is. */
  lemma OtherEntries(w: World, tool: string, payload: string, env: Env)
    ensures var (after, ok) := Attempt(w, Other(tool, payload), env);
            if IsReplayed(tool) then after.graph == env.other.graph && (ok <==> env.other.outcome == Took)
            else after == w && !ok
  {
  }

  ghost function Free(g: Graph, order: seq<Commission>, n: nat): set<nat>
    requires n <= |order|
  {
    set i: nat | i < n && !Stuck(g, order[i])
  }

  lemma FreeStep(g: Graph, order: seq<Commission>, n: nat)
    requires n < |order|
    ensures |Free(g, order, n + 1)| == |Free(g, order, n)| + if Stuck(g, order[n]) then 0 else 1
  {
    assert Free(g, order, n + 1) == Free(g, order, n) + if Stuck(g, order[n]) then {} else {n};
  }

  lemma FreeAreApplied(w: World, order: seq<Commission>, envs: seq<Env>, i: nat)
    requires EdgesFirst(order, w.files.pending) && OnlyUpserts(w.files.pending) && i < |order| <= |envs|
             && Healthy(envs)
    ensures Attempt(Replayed(w, order, envs, i), order[i], envs[i]).1 <==> !Stuck(w.graph, order[i])
  {
    NodesAtItsTurn(w, order, envs, i);
    StuckAtItsTurn(w, order, envs, i);
    assert envs[i] in envs;
    HealthyAttempt(Replayed(w, order, envs, i), order[i], envs[i]);
  }

  lemma OneMoreCounted(w: World, order: seq<Commission>, envs: seq<Env>, i: nat)
    requires EdgesFirst(order, w.files.pending) && OnlyUpserts(w.files.pending) && i < |order| <= |envs|
             && Healthy(envs)
    ensures Successful(w, order, envs, i + 1)
            == Successful(w, order, envs, i) + if Stuck(w.graph, order[i]) then 0 else 1
  {
    FreeAreApplied(w, order, envs, i);
  }

  /** On a healthy store the applied entries are those that were not stuck before the pass, and are
      counted exactly. */
  lemma AppliedAreCounted(w: World, order: seq<Commission>, envs: seq<Env>, n: nat)
    requires EdgesFirst(order, w.files.pending) && OnlyUpserts(w.files.pending) && n <= |order| <= |envs|
             && Healthy(envs)
    ensures Successful(w, order, envs, n) == |Free(w.graph, order, n)|
  {
    assert Free(w.graph, order, 0) == {};
    for i := 0 to n
      invariant Successful(w, order, envs, i) == |Free(w.graph, order, i)|
    {
      OneMoreCounted(w, order, envs, i);
      FreeStep(w.graph, order, i);
    }
  }
}
