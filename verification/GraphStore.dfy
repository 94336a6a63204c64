/** Commissioned writes of one node or one relationship as MERGE followed by SET
    (tools/librarian/upsert_node.py:76-193, tools/librarian/upsert_edge.py:100-224,
    tools/_shared/provenance.py:20-45). Nodes and relationships are kept in a small graph state in
    place of the database; property values are opaque strings and never null. */
module GraphStore {

  type Props = map<string, string>

  datatype Node = Node(labels: set<string>, props: Props)

  /** A relationship is identified by its ends and type: writes merge, so there is at most one. */
  type EdgeId = (nat, string, nat)

  /** Element ids below `next` have been given out. */
  datatype Graph = Graph(nodes: map<nat, Node>, edges: map<EdgeId, Props>, next: nat)

  ghost predicate ValidGraph(g: Graph) { forall id | id in g.nodes :: id < g.next }

  datatype NodeInput = NodeInput(nodeLabel: string, mergeKeys: seq<string>, props: Props, author: string,
                                 session: string)

  datatype Endpoint = Endpoint(nodeLabel: string, mergeKeys: seq<string>, match_: Props)

  datatype EdgeInput = EdgeInput(relType: string, from: Endpoint, to: Endpoint, props: Props, author: string,
                                 session: string)

  const RESERVED := {"commissioned_by", "commissioned_at", "session_id"}

  function Stamp(author: string, session: string, now: string): Props {
    map["commissioned_by" := author, "commissioned_at" := now, "session_id" := session]
  }

  // ---------- matching ----------

  predicate MatchesOn(n: Node, nodeLabel: string, keys: seq<string>, vals: Props)
    requires forall k | k in keys :: k in vals
  {
    nodeLabel in n.labels && forall k | k in keys :: k in n.props && n.props[k] == vals[k]
  }

  function Matching(nodes: map<nat, Node>, nodeLabel: string, keys: seq<string>, vals: Props): set<nat>
    requires forall k | k in keys :: k in vals
  {
    set id | id in nodes && MatchesOn(nodes[id], nodeLabel, keys, vals)
  }

  predicate KeysGiven(keys: seq<string>, vals: Props) { forall k | k in keys :: k in vals }

  /** What the tool checks before it writes: merge keys given, no reserved provenance name set. */
  predicate NodeAccepted(c: NodeInput) {
    KeysGiven(c.mergeKeys, c.props) && c.props.Keys !! RESERVED
  }

  predicate EdgeAccepted(c: EdgeInput) {
    KeysGiven(c.from.mergeKeys, c.from.match_) && KeysGiven(c.to.mergeKeys, c.to.match_) && c.props.Keys !! RESERVED
  }

  // ---------- MERGE then SET ----------

  /** Sets the properties and the provenance on top of what is there. */
  function Overlaid(before: Props, props: Props, stamp: Props): Props { before + props + stamp }

  function UpdatedNodes(nodes: map<nat, Node>, ids: set<nat>, props: Props, stamp: Props): map<nat, Node> {
    map id | id in nodes ::
      if id in ids then Node(nodes[id].labels, Overlaid(nodes[id].props, props, stamp)) else nodes[id]
  }

  function MergedEdges(edges: map<EdgeId, Props>, ids: set<EdgeId>, props: Props, stamp: Props): map<EdgeId, Props> {
    map e | e in edges.Keys + ids ::
      if e in ids then Overlaid(if e in edges then edges[e] else map[], props, stamp) else edges[e]
  }

  function WriteNode(g: Graph, c: NodeInput, now: string): Graph
    requires NodeAccepted(c)
  {
    var ids := Matching(g.nodes, c.nodeLabel, c.mergeKeys, c.props);
    var stamp := Stamp(c.author, c.session, now);
    if ids == {} then
      g.(nodes := g.nodes[g.next := Node({c.nodeLabel}, Overlaid(map[], c.props, stamp))], next := g.next + 1)
    else
      g.(nodes := UpdatedNodes(g.nodes, ids, c.props, stamp))
  }

  function Froms(g: Graph, c: EdgeInput): set<nat>
    requires EdgeAccepted(c)
  {
    Matching(g.nodes, c.from.nodeLabel, c.from.mergeKeys, c.from.match_)
  }

  function Tos(g: Graph, c: EdgeInput): set<nat>
    requires EdgeAccepted(c)
  {
    Matching(g.nodes, c.to.nodeLabel, c.to.mergeKeys, c.to.match_)
  }

  predicate EndpointsFound(g: Graph, c: EdgeInput)
    requires EdgeAccepted(c)
  {
    Froms(g, c) != {} && Tos(g, c) != {}
  }

  function EdgeIds(g: Graph, c: EdgeInput): set<EdgeId>
    requires EdgeAccepted(c)
  {
    set a, b | a in Froms(g, c) && b in Tos(g, c) :: (a, c.relType, b)
  }

  /** Matches the endpoints, never creates them; without a matching pair nothing is written. */
  function WriteEdge(g: Graph, c: EdgeInput, now: string): Graph
    requires EdgeAccepted(c)
  {
    g.(edges := MergedEdges(g.edges, EdgeIds(g, c), c.props, Stamp(c.author, c.session, now)))
  }

  // ---------- idempotence ----------

  /** Writing never changes a merge key of a node it matched: the properties hold the matched
      values and the stamp sets reserved names only. */
  lemma {:induction false} MergeKeysKept(n: Node, c: NodeInput, now: string)
    requires NodeAccepted(c) && MatchesOn(n, c.nodeLabel, c.mergeKeys, c.props)
    ensures MatchesOn(Node(n.labels, Overlaid(n.props, c.props, Stamp(c.author, c.session, now))), c.nodeLabel,
                      c.mergeKeys, c.props)
  {
    assert Stamp(c.author, c.session, now).Keys == RESERVED;
  }

  /** The nodes a commission matches after it was written: those it matched before, or the new one. */
  lemma {:induction false} MatchedAfterWrite(g: Graph, c: NodeInput, now: string)
    requires NodeAccepted(c) && ValidGraph(g)
    ensures ValidGraph(WriteNode(g, c, now))
    ensures var ids := Matching(g.nodes, c.nodeLabel, c.mergeKeys, c.props);
            Matching(WriteNode(g, c, now).nodes, c.nodeLabel, c.mergeKeys, c.props)
            == if ids == {} then {g.next} else ids
  {
    var ids := Matching(g.nodes, c.nodeLabel, c.mergeKeys, c.props);
    var after := WriteNode(g, c, now);
    if ids == {} {
      assert after.nodes[g.next].props == c.props + Stamp(c.author, c.session, now);
      assert Stamp(c.author, c.session, now).Keys == RESERVED;
      assert g.next in Matching(after.nodes, c.nodeLabel, c.mergeKeys, c.props);
      forall id | id in Matching(after.nodes, c.nodeLabel, c.mergeKeys, c.props) ensures id == g.next {
        assert id != g.next ==> id in ids;
      }
    } else {
      forall id | id in ids ensures id in Matching(after.nodes, c.nodeLabel, c.mergeKeys, c.props) {
        MergeKeysKept(g.nodes[id], c, now);
      }
    }
  }

  lemma OverlayTwice(before: Props, props: Props, s1: Props, s2: Props)
    requires s1.Keys == s2.Keys && props.Keys !! s1.Keys
    ensures Overlaid(Overlaid(before, props, s1), props, s2) == Overlaid(before, props, s2)
  {
  }

  lemma UpdatedTwice(nodes: map<nat, Node>, ids: set<nat>, props: Props, s1: Props, s2: Props)
    requires s1.Keys == s2.Keys && props.Keys !! s1.Keys
    ensures UpdatedNodes(UpdatedNodes(nodes, ids, props, s1), ids, props, s2) == UpdatedNodes(nodes, ids, props, s2)
  {
    forall id | id in nodes { OverlayTwice(nodes[id].props, props, s1, s2); }
  }

  lemma CreatedThenUpdated(nodes: map<nat, Node>, id: nat, labels: set<string>, props: Props, s1: Props, s2: Props)
    requires s1.Keys == s2.Keys && props.Keys !! s1.Keys && id !in nodes
    ensures UpdatedNodes(nodes[id := Node(labels, Overlaid(map[], props, s1))], {id}, props, s2)
            == nodes[id := Node(labels, Overlaid(map[], props, s2))]
  {
    OverlayTwice(map[], props, s1, s2);
  }

  lemma MergedTwice(edges: map<EdgeId, Props>, ids: set<EdgeId>, props: Props, s1: Props, s2: Props)
    requires s1.Keys == s2.Keys && props.Keys !! s1.Keys
    ensures MergedEdges(MergedEdges(edges, ids, props, s1), ids, props, s2) == MergedEdges(edges, ids, props, s2)
  {
    forall e | e in ids { OverlayTwice(if e in edges then edges[e] else map[], props, s1, s2); }
  }

  /** Writing a node commission again leaves what writing it once at the later time leaves. */
  lemma NodeWriteIsIdempotent(g: Graph, c: NodeInput, t1: string, t2: string)
    requires NodeAccepted(c) && ValidGraph(g)
    ensures WriteNode(WriteNode(g, c, t1), c, t2) == WriteNode(g, c, t2)
  {
    var s1, s2 := Stamp(c.author, c.session, t1), Stamp(c.author, c.session, t2);
    assert s1.Keys == s2.Keys == RESERVED;
    MatchedAfterWrite(g, c, t1);
    var ids := Matching(g.nodes, c.nodeLabel, c.mergeKeys, c.props);
    if ids == {} {
      CreatedThenUpdated(g.nodes, g.next, {c.nodeLabel}, c.props, s1, s2);
    } else {
      UpdatedTwice(g.nodes, ids, c.props, s1, s2);
    }
  }

  lemma SameNodesSameIds(g: Graph, h: Graph, c: EdgeInput)
    requires EdgeAccepted(c) && g.nodes == h.nodes
    ensures EdgeIds(g, c) == EdgeIds(h, c)
  {
  }

  /** The same for a relationship. */
  lemma EdgeWriteIsIdempotent(g: Graph, c: EdgeInput, t1: string, t2: string)
    requires EdgeAccepted(c)
    ensures WriteEdge(WriteEdge(g, c, t1), c, t2) == WriteEdge(g, c, t2)
  {
    var s1, s2 := Stamp(c.author, c.session, t1), Stamp(c.author, c.session, t2);
    assert s1.Keys == s2.Keys == RESERVED;
    SameNodesSameIds(WriteEdge(g, c, t1), g, c);
    MergedTwice(g.edges, EdgeIds(g, c), c.props, s1, s2);
  }

  /** An edge write touches no node, and nothing at all when an endpoint matches no node. */
  lemma {:induction false} EdgeWriteIsLocal(g: Graph, c: EdgeInput, now: string)
    requires EdgeAccepted(c)
    ensures WriteEdge(g, c, now).nodes == g.nodes && WriteEdge(g, c, now).next == g.next
    ensures !EndpointsFound(g, c) ==> WriteEdge(g, c, now) == g
    ensures forall e | e in g.edges && e !in EdgeIds(g, c) ::
              e in WriteEdge(g, c, now).edges && WriteEdge(g, c, now).edges[e] == g.edges[e]
    ensures EndpointsFound(g, c) ==>
              exists a, b :: (a, c.relType, b) in WriteEdge(g, c, now).edges && a in Froms(g, c) && b in Tos(g, c)
  {
    if EndpointsFound(g, c) {
      var a :| a in Froms(g, c);
      var b :| b in Tos(g, c);
      assert (a, c.relType, b) in EdgeIds(g, c);
    } else {
      assert EdgeIds(g, c) == {};
      assert WriteEdge(g, c, now).edges == g.edges;
    }
  }

  /** A node write touches no edge and no node it does not match, and removes neither nodes nor properties. */
  lemma NodeWriteIsLocal(g: Graph, c: NodeInput, now: string, id: nat)
    requires NodeAccepted(c) && ValidGraph(g) && id in g.nodes
    ensures WriteNode(g, c, now).edges == g.edges
    ensures var after := WriteNode(g, c, now).nodes;
            && id in after && after[id].labels == g.nodes[id].labels && g.nodes[id].props.Keys <= after[id].props.Keys
            && (!MatchesOn(g.nodes[id], c.nodeLabel, c.mergeKeys, c.props) ==> after[id] == g.nodes[id])
  {
  }

  /** A set of properties after a write: the commissioned ones and the provenance, over those from before. */
  ghost predicate IsWritten(after: Props, before: Props, props: Props, author: string, session: string, now: string) {
    && after.Keys == before.Keys + props.Keys + RESERVED
    && (forall k | k in props :: after[k] == props[k])
    && after["commissioned_by"] == author && after["commissioned_at"] == now && after["session_id"] == session
    && (forall k | k in before && k !in props && k !in RESERVED :: after[k] == before[k])
  }

  lemma OverlaidIsWritten(before: Props, props: Props, author: string, session: string, now: string)
    requires props.Keys !! RESERVED
    ensures IsWritten(Overlaid(before, props, Stamp(author, session, now)), before, props, author, session, now)
  {
    assert Stamp(author, session, now).Keys == RESERVED;
  }

  /** After a node write every node the commission matches holds all it says, over what it held
      before; a node that did not exist is labelled and holds just that. */
  lemma NodeWriteSays(g: Graph, c: NodeInput, now: string, id: nat)
    requires NodeAccepted(c) && ValidGraph(g)
    requires id in Matching(WriteNode(g, c, now).nodes, c.nodeLabel, c.mergeKeys, c.props)
    ensures var n := WriteNode(g, c, now).nodes[id];
            && IsWritten(n.props, if id in g.nodes then g.nodes[id].props else map[], c.props, c.author, c.session, now)
            && n.labels == if id in g.nodes then g.nodes[id].labels else {c.nodeLabel}
  {
    MatchedAfterWrite(g, c, now);
    OverlaidIsWritten(if id in g.nodes then g.nodes[id].props else map[], c.props, c.author, c.session, now);
  }

  /** After an edge write each pair of matched endpoints is joined by an edge that holds all the
      commission says, over what it held before. */
  lemma EdgeWriteSays(g: Graph, c: EdgeInput, now: string, a: nat, b: nat)
    requires EdgeAccepted(c) && a in Froms(g, c) && b in Tos(g, c)
    ensures var e, after := (a, c.relType, b), WriteEdge(g, c, now).edges;
            e in after
            && IsWritten(after[e], if e in g.edges then g.edges[e] else map[], c.props, c.author, c.session, now)
  {
    var e := (a, c.relType, b);
    assert e in EdgeIds(g, c);
    OverlaidIsWritten(if e in g.edges then g.edges[e] else map[], c.props, c.author, c.session, now);
  }

  // ---------- what a write does, node by node and edge by edge ----------

  /** The node carries the label and, under each merge key, the value given for it. */
  ghost predicate Carries(n: Node, nodeLabel: string, keys: seq<string>, vals: Props) {
    nodeLabel in n.labels && forall k | k in keys :: k in vals && k in n.props && n.props[k] == vals[k]
  }

  /** Every node that carries label and merge keys is overlaid with what the commission sets, all others
      stay, and if there is none exactly one is created. */
  ghost predicate NodeRecorded(before: Graph, after: Graph, c: NodeInput, now: string) {
    && after.edges == before.edges
    && before.nodes.Keys <= after.nodes.Keys
    && (forall id | id in before.nodes ::
          && after.nodes[id].labels == before.nodes[id].labels
          && if Carries(before.nodes[id], c.nodeLabel, c.mergeKeys, c.props)
             then IsWritten(after.nodes[id].props, before.nodes[id].props, c.props, c.author, c.session, now)
             else after.nodes[id] == before.nodes[id])
    && if exists id | id in before.nodes :: Carries(before.nodes[id], c.nodeLabel, c.mergeKeys, c.props)
       then after.nodes.Keys == before.nodes.Keys
       else exists id :: id !in before.nodes && after.nodes.Keys == before.nodes.Keys + {id}
                         && after.nodes[id].labels == {c.nodeLabel}
                         && IsWritten(after.nodes[id].props, map[], c.props, c.author, c.session, now)
  }

  /** The edge is of the commission's type and leads between nodes that carry its endpoints' keys. */
  ghost predicate IsNamed(g: Graph, c: EdgeInput, e: EdgeId) {
    && e.1 == c.relType && e.0 in g.nodes && e.2 in g.nodes
    && Carries(g.nodes[e.0], c.from.nodeLabel, c.from.mergeKeys, c.from.match_)
    && Carries(g.nodes[e.2], c.to.nodeLabel, c.to.mergeKeys, c.to.match_)
  }

  /** Exactly the edges named are there and overlaid, all others stay, and so does every node. */
  ghost predicate EdgeJoined(before: Graph, after: Graph, c: EdgeInput, now: string) {
    && after.nodes == before.nodes && after.next == before.next
    && (forall e | IsNamed(before, c, e) ::
          && e in after.edges
          && IsWritten(after.edges[e], if e in before.edges then before.edges[e] else map[], c.props, c.author,
                       c.session, now))
    && (forall e | !IsNamed(before, c, e) ::
          (e in after.edges <==> e in before.edges) && (e in before.edges ==> after.edges[e] == before.edges[e]))
  }

  /** A node of the graph carries the endpoint's label and merge keys. */
  ghost predicate IsThere(g: Graph, p: Endpoint) {
    exists id :: id in g.nodes && Carries(g.nodes[id], p.nodeLabel, p.mergeKeys, p.match_)
  }

  /** Every merge key has a value. */
  ghost predicate Given(keys: seq<string>, vals: Props) { forall i | 0 <= i < |keys| :: keys[i] in vals }

  /** No provenance name is among the properties. */
  ghost predicate Unreserved(props: Props) {
    "commissioned_by" !in props && "commissioned_at" !in props && "session_id" !in props
  }

  lemma AcceptedMeans(n: NodeInput, e: EdgeInput)
    ensures NodeAccepted(n) <==> Given(n.mergeKeys, n.props) && Unreserved(n.props)
    ensures EdgeAccepted(e) <==>
            Given(e.from.mergeKeys, e.from.match_) && Given(e.to.mergeKeys, e.to.match_) && Unreserved(e.props)
  {
  }

  lemma MatchingCarries(g: Graph, nodeLabel: string, keys: seq<string>, vals: Props)
    requires KeysGiven(keys, vals)
    ensures forall id :: id in Matching(g.nodes, nodeLabel, keys, vals) <==>
                         id in g.nodes && Carries(g.nodes[id], nodeLabel, keys, vals)
  {
  }

  lemma NodeWriteMeans(g: Graph, c: NodeInput, now: string)
    requires NodeAccepted(c) && ValidGraph(g)
    ensures NodeRecorded(g, WriteNode(g, c, now), c, now)
  {
    MatchingCarries(g, c.nodeLabel, c.mergeKeys, c.props);
    MatchedAfterWrite(g, c, now);
    var after := WriteNode(g, c, now);
    var ids := Matching(g.nodes, c.nodeLabel, c.mergeKeys, c.props);
    forall id | id in g.nodes
      ensures id in after.nodes && after.nodes[id].labels == g.nodes[id].labels
      ensures if Carries(g.nodes[id], c.nodeLabel, c.mergeKeys, c.props)
              then IsWritten(after.nodes[id].props, g.nodes[id].props, c.props, c.author, c.session, now)
              else after.nodes[id] == g.nodes[id]
    {
      NodeWriteIsLocal(g, c, now, id);
      if id in ids { NodeWriteSays(g, c, now, id); }
    }
    if ids == {} {
      NodeWriteSays(g, c, now, g.next);
      assert g.next !in g.nodes;
    }
  }

  lemma EndpointIsThere(g: Graph, p: Endpoint)
    requires KeysGiven(p.mergeKeys, p.match_)
    ensures Matching(g.nodes, p.nodeLabel, p.mergeKeys, p.match_) != {} <==> IsThere(g, p)
  {
    MatchingCarries(g, p.nodeLabel, p.mergeKeys, p.match_);
    if id :| id in g.nodes && Carries(g.nodes[id], p.nodeLabel, p.mergeKeys, p.match_) {
      assert id in Matching(g.nodes, p.nodeLabel, p.mergeKeys, p.match_);
    }
  }

  lemma EndpointsAreThere(g: Graph, c: EdgeInput)
    requires EdgeAccepted(c)
    ensures EndpointsFound(g, c) <==> IsThere(g, c.from) && IsThere(g, c.to)
  {
    EndpointIsThere(g, c.from);
    EndpointIsThere(g, c.to);
  }

  lemma EdgeWriteMeans(g: Graph, c: EdgeInput, now: string)
    requires EdgeAccepted(c)
    ensures EdgeJoined(g, WriteEdge(g, c, now), c, now)
  {
    MatchingCarries(g, c.from.nodeLabel, c.from.mergeKeys, c.from.match_);
    MatchingCarries(g, c.to.nodeLabel, c.to.mergeKeys, c.to.match_);
    forall e: EdgeId ensures e in EdgeIds(g, c) <==> IsNamed(g, c, e) {
      assert e == (e.0, e.1, e.2);
    }
    forall e | IsNamed(g, c, e)
      ensures e in WriteEdge(g, c, now).edges
      ensures IsWritten(WriteEdge(g, c, now).edges[e], if e in g.edges then g.edges[e] else map[], c.props, c.author,
                        c.session, now)
    {
      assert e == (e.0, c.relType, e.2);
      EdgeWriteSays(g, c, now, e.0, e.2);
    }
  }
}
