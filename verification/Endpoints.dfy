/** When writing one node takes an edge commission's endpoints away
    (tools/librarian/upsert_node.py:160-193, tools/librarian/upsert_edge.py:178-224). */
module Endpoints {
  import opened GraphStore

  /** Some node can be matched by both: the values of the merge keys they share are the same. */
  predicate Agree(n: NodeInput, p: Endpoint)
    requires NodeAccepted(n) && KeysGiven(p.mergeKeys, p.match_)
  {
    forall k | k in p.mergeKeys && k in n.mergeKeys :: n.props[k] == p.match_[k]
  }

  /** What a node write sets. */
  function SetBy(n: NodeInput, stamp: string): Props { n.props + Stamp(n.author, n.session, stamp) }

  /** The write sets a property the endpoint matches on to another value. */
  predicate Changes(n: NodeInput, p: Endpoint, stamp: string)
    requires KeysGiven(p.mergeKeys, p.match_)
  {
    exists k | k in p.mergeKeys :: k in SetBy(n, stamp) && SetBy(n, stamp)[k] != p.match_[k]
  }

  predicate Moves(n: NodeInput, p: Endpoint, stamp: string)
    requires NodeAccepted(n) && KeysGiven(p.mergeKeys, p.match_)
  {
    Agree(n, p) && Changes(n, p, stamp)
  }

  /** Some node of the graph carries, or a new one can carry, both labels. */
  predicate Meet(nodes: map<nat, Node>, a: string, b: string) {
    a == b || exists id | id in nodes :: a in nodes[id].labels && b in nodes[id].labels
  }

  ghost predicate OneLabel(g: Graph) {
    forall id, a, b | id in g.nodes && a in g.nodes[id].labels && b in g.nodes[id].labels :: a == b
  }

  function MatchedBy(g: Graph, p: Endpoint): set<nat>
    requires KeysGiven(p.mergeKeys, p.match_)
  {
    Matching(g.nodes, p.nodeLabel, p.mergeKeys, p.match_)
  }

  // ---------- one endpoint ----------

  /** A write overlays what it sets on the nodes it matches and leaves the others. */
  lemma AfterWrite(g: Graph, n: NodeInput, stamp: string, id: nat)
    requires NodeAccepted(n) && ValidGraph(g) && id in g.nodes
    ensures var after := WriteNode(g, n, stamp).nodes;
            id in after && after[id] == if MatchesOn(g.nodes[id], n.nodeLabel, n.mergeKeys, n.props)
                                        then Node(g.nodes[id].labels, g.nodes[id].props + SetBy(n, stamp))
                                          else g.nodes[id]
  {
    var before, ids := g.nodes[id].props, Matching(g.nodes, n.nodeLabel, n.mergeKeys, n.props);
    assert id in ids <==> MatchesOn(g.nodes[id], n.nodeLabel, n.mergeKeys, n.props);
    assert Overlaid(before, n.props, Stamp(n.author, n.session, stamp)) == before + SetBy(n, stamp);
  }

  lemma MovedIsLost(g: Graph, n: NodeInput, stamp: string, p: Endpoint, id: nat)
    requires NodeAccepted(n) && ValidGraph(g) && KeysGiven(p.mergeKeys, p.match_) && id in g.nodes
    requires MatchesOn(g.nodes[id], n.nodeLabel, n.mergeKeys, n.props) && Changes(n, p, stamp)
    ensures id !in MatchedBy(WriteNode(g, n, stamp), p)
  {
    AfterWrite(g, n, stamp, id);
  }

  lemma UnmovedStaysMatched(g: Graph, n: NodeInput, stamp: string, p: Endpoint)
    requires NodeAccepted(n) && ValidGraph(g) && KeysGiven(p.mergeKeys, p.match_)
    requires !(Moves(n, p, stamp) && Meet(g.nodes, n.nodeLabel, p.nodeLabel))
    ensures MatchedBy(g, p) <= MatchedBy(WriteNode(g, n, stamp), p)
  {
    forall id | id in MatchedBy(g, p) ensures id in MatchedBy(WriteNode(g, n, stamp), p) {
      AfterWrite(g, n, stamp, id);
      if MatchesOn(g.nodes[id], n.nodeLabel, n.mergeKeys, n.props) {
        assert Agree(n, p) && Meet(g.nodes, n.nodeLabel, p.nodeLabel);
        assert !Changes(n, p, stamp);
      }
    }
  }

  /** A node matched by the commission and by the endpoint. */
  function Joint(n: NodeInput, p: Endpoint): Node
    requires NodeAccepted(n) && KeysGiven(p.mergeKeys, p.match_)
  {
    Node({n.nodeLabel, p.nodeLabel},
         (map k | k in n.mergeKeys :: n.props[k]) + (map k | k in p.mergeKeys :: p.match_[k]))
  }

  lemma JointMatchesBoth(n: NodeInput, p: Endpoint)
    requires NodeAccepted(n) && KeysGiven(p.mergeKeys, p.match_) && Agree(n, p)
    ensures MatchesOn(Joint(n, p), n.nodeLabel, n.mergeKeys, n.props)
            && MatchesOn(Joint(n, p), p.nodeLabel, p.mergeKeys, p.match_)
  {
  }

  ghost predicate KeepsAll(g: Graph, n: NodeInput, stamp: string, p: Endpoint)
    requires NodeAccepted(n) && KeysGiven(p.mergeKeys, p.match_)
  {
    MatchedBy(g, p) <= MatchedBy(WriteNode(g, n, stamp), p)
  }

  /** On every graph the endpoint goes on matching what it matched exactly when the write does not
      move it; on graphs whose nodes carry one label each, exactly when it does not or the labels differ. */
  lemma MovesIff(n: NodeInput, p: Endpoint, stamp: string)
    requires NodeAccepted(n) && KeysGiven(p.mergeKeys, p.match_)
    ensures (forall g | ValidGraph(g) :: KeepsAll(g, n, stamp, p)) <==> !Moves(n, p, stamp)
    ensures (forall g | ValidGraph(g) && OneLabel(g) :: KeepsAll(g, n, stamp, p)) <==>
            !(Moves(n, p, stamp) && n.nodeLabel == p.nodeLabel)
  {
    forall g | ValidGraph(g) && (!Moves(n, p, stamp) || (OneLabel(g) && n.nodeLabel != p.nodeLabel))
      ensures KeepsAll(g, n, stamp, p) {
      UnmovedStaysMatched(g, n, stamp, p);
    }
    if Moves(n, p, stamp) { var g := MovedBreaksIt(n, p, stamp); }
  }

  lemma MovedBreaksIt(n: NodeInput, p: Endpoint, stamp: string) returns (g: Graph)
    requires NodeAccepted(n) && KeysGiven(p.mergeKeys, p.match_) && Moves(n, p, stamp)
    ensures ValidGraph(g) && (n.nodeLabel == p.nodeLabel ==> OneLabel(g)) && !KeepsAll(g, n, stamp, p)
  {
    g := Graph(map[0 := Joint(n, p)], map[], 1);
    JointMatchesBoth(n, p);
    assert 0 in MatchedBy(g, p);
    MovedIsLost(g, n, stamp, p, 0);
  }

  /** A commission that merges on every key an endpoint matches on never moves that endpoint, whatever
      else it sets. */
  lemma SharedKeysNeverMove(n: NodeInput, p: Endpoint, stamp: string)
    requires NodeAccepted(n) && KeysGiven(p.mergeKeys, p.match_) && forall k | k in p.mergeKeys :: k in n.mergeKeys
    ensures !Moves(n, p, stamp)
  {
    if Agree(n, p) {
      forall k | k in p.mergeKeys ensures k in SetBy(n, stamp) && SetBy(n, stamp)[k] == p.match_[k] {
        assert k in n.mergeKeys && k in n.props && k !in RESERVED;
      }
    }
  }

  // ---------- both endpoints of an edge ----------

  /** Every node matched by `q` is matched by `p`. */
  predicate StandsIn(q: Endpoint, p: Endpoint)
    requires KeysGiven(p.mergeKeys, p.match_) && KeysGiven(q.mergeKeys, q.match_)
  {
    q.nodeLabel == p.nodeLabel && forall k | k in p.mergeKeys :: k in q.mergeKeys && q.match_[k] == p.match_[k]
  }

  /** The write can take away `p`, when `q` is the other endpoint: the nodes of `q` do not stand in
      for `p`, or the write can move them too. */
  predicate LosesSide(n: NodeInput, p: Endpoint, q: Endpoint, stamp: string)
    requires NodeAccepted(n) && KeysGiven(p.mergeKeys, p.match_) && KeysGiven(q.mergeKeys, q.match_)
  {
    Moves(n, p, stamp) && (!StandsIn(q, p) || Agree(n, q))
  }

  predicate Loses(n: NodeInput, e: EdgeInput, stamp: string)
    requires NodeAccepted(n) && EdgeAccepted(e)
  {
    LosesSide(n, e.from, e.to, stamp) || LosesSide(n, e.to, e.from, stamp)
  }

  /** The same with the labels that the nodes of this graph carry. */
  predicate LosesOn(nodes: map<nat, Node>, n: NodeInput, e: EdgeInput, stamp: string)
    requires NodeAccepted(n) && EdgeAccepted(e)
  {
    || (Meet(nodes, n.nodeLabel, e.from.nodeLabel) && LosesSide(n, e.from, e.to, stamp))
    || (Meet(nodes, n.nodeLabel, e.to.nodeLabel) && LosesSide(n, e.to, e.from, stamp))
  }

  lemma SideSurvives(g: Graph, n: NodeInput, p: Endpoint, q: Endpoint, stamp: string)
    requires NodeAccepted(n) && KeysGiven(p.mergeKeys, p.match_) && KeysGiven(q.mergeKeys, q.match_) && ValidGraph(g)
    requires !(Meet(g.nodes, n.nodeLabel, p.nodeLabel) && LosesSide(n, p, q, stamp))
    requires MatchedBy(g, p) != {} && MatchedBy(g, q) != {}
    ensures MatchedBy(WriteNode(g, n, stamp), p) != {}
  {
    if Moves(n, p, stamp) && Meet(g.nodes, n.nodeLabel, p.nodeLabel) {
      var b :| b in MatchedBy(g, q);
      assert !MatchesOn(g.nodes[b], n.nodeLabel, n.mergeKeys, n.props);
      AfterWrite(g, n, stamp, b);
      assert b in MatchedBy(WriteNode(g, n, stamp), p);
    } else {
      UnmovedStaysMatched(g, n, stamp, p);
    }
  }

  lemma EndpointsSurvive(g: Graph, n: NodeInput, e: EdgeInput, stamp: string)
    requires NodeAccepted(n) && EdgeAccepted(e) && ValidGraph(g) && EndpointsFound(g, e)
             && !LosesOn(g.nodes, n, e, stamp)
    ensures EndpointsFound(WriteNode(g, n, stamp), e)
  {
    SideSurvives(g, n, e.from, e.to, stamp);
    SideSurvives(g, n, e.to, e.from, stamp);
  }

  /** A node matched by nothing but what the endpoint asks for. */
  function Alone(q: Endpoint): Node
    requires KeysGiven(q.mergeKeys, q.match_)
  {
    Node({q.nodeLabel}, map k | k in q.mergeKeys :: q.match_[k])
  }

  /** A graph on which both endpoints are found before the write and `p` is not after it. */
  ghost predicate IsLost(g: Graph, n: NodeInput, p: Endpoint, q: Endpoint, stamp: string)
    requires NodeAccepted(n) && KeysGiven(p.mergeKeys, p.match_) && KeysGiven(q.mergeKeys, q.match_)
  {
    MatchedBy(g, p) != {} && MatchedBy(g, q) != {} && MatchedBy(WriteNode(g, n, stamp), p) == {}
  }

  lemma SideIsLost(n: NodeInput, p: Endpoint, q: Endpoint, stamp: string) returns (g: Graph)
    requires NodeAccepted(n) && KeysGiven(p.mergeKeys, p.match_) && KeysGiven(q.mergeKeys, q.match_)
    requires LosesSide(n, p, q, stamp)
    ensures ValidGraph(g) && IsLost(g, n, p, q, stamp) && (n.nodeLabel == p.nodeLabel ==> OneLabel(g))
  {
    if StandsIn(q, p) { g := OneNodeForBoth(n, p, q, stamp); } else { g := OneNodeForEach(n, p, q, stamp); }
  }

  lemma OneNodeForBoth(n: NodeInput, p: Endpoint, q: Endpoint, stamp: string) returns (g: Graph)
    requires NodeAccepted(n) && KeysGiven(p.mergeKeys, p.match_) && KeysGiven(q.mergeKeys, q.match_)
    requires StandsIn(q, p) && Agree(n, q) && Changes(n, p, stamp)
    ensures ValidGraph(g) && IsLost(g, n, p, q, stamp) && (n.nodeLabel == p.nodeLabel ==> OneLabel(g))
  {
    g := Graph(map[0 := Joint(n, q)], map[], 1);
    JointMatchesBoth(n, q);
    assert MatchesOn(g.nodes[0], p.nodeLabel, p.mergeKeys, p.match_);
    assert 0 in MatchedBy(g, p) && 0 in MatchedBy(g, q);
    NothingIsLeft(g, n, p, stamp);
  }

  lemma OneNodeForEach(n: NodeInput, p: Endpoint, q: Endpoint, stamp: string) returns (g: Graph)
    requires NodeAccepted(n) && KeysGiven(p.mergeKeys, p.match_) && KeysGiven(q.mergeKeys, q.match_)
    requires !StandsIn(q, p) && Agree(n, p) && Changes(n, p, stamp)
    ensures ValidGraph(g) && IsLost(g, n, p, q, stamp) && (n.nodeLabel == p.nodeLabel ==> OneLabel(g))
  {
    g := Graph(map[0 := Joint(n, p), 1 := Alone(q)], map[], 2);
    JointMatchesBoth(n, p);
    AloneMatches(q, p);
    PairIsLost(n, p, q, stamp, Joint(n, p), Alone(q));
    if n.nodeLabel == p.nodeLabel { PairLabels(Joint(n, p), Alone(q), p.nodeLabel, q.nodeLabel); }
  }

  lemma PairLabels(a: Node, b: Node, la: string, lb: string)
    requires a.labels == {la} && b.labels == {lb}
    ensures OneLabel(Graph(map[0 := a, 1 := b], map[], 2))
  {
  }

  lemma PairIsLost(n: NodeInput, p: Endpoint, q: Endpoint, stamp: string, a: Node, b: Node)
    requires NodeAccepted(n) && KeysGiven(p.mergeKeys, p.match_) && KeysGiven(q.mergeKeys, q.match_)
             && Changes(n, p, stamp)
    requires MatchesOn(a, n.nodeLabel, n.mergeKeys, n.props) && MatchesOn(a, p.nodeLabel, p.mergeKeys, p.match_)
    requires MatchesOn(b, q.nodeLabel, q.mergeKeys, q.match_) && !MatchesOn(b, p.nodeLabel, p.mergeKeys, p.match_)
    ensures var g := Graph(map[0 := a, 1 := b], map[], 2); ValidGraph(g) && IsLost(g, n, p, q, stamp)
  {
    var g := Graph(map[0 := a, 1 := b], map[], 2);
    assert 0 in MatchedBy(g, p) && 1 in MatchedBy(g, q);
    NothingIsLeft(g, n, p, stamp);
  }

  lemma AloneMatches(q: Endpoint, p: Endpoint)
    requires KeysGiven(p.mergeKeys, p.match_) && KeysGiven(q.mergeKeys, q.match_)
    ensures MatchesOn(Alone(q), q.nodeLabel, q.mergeKeys, q.match_)
    ensures MatchesOn(Alone(q), p.nodeLabel, p.mergeKeys, p.match_) <==> StandsIn(q, p)
  {
  }

  lemma NothingIsLeft(g: Graph, n: NodeInput, p: Endpoint, stamp: string)
    requires NodeAccepted(n) && KeysGiven(p.mergeKeys, p.match_) && ValidGraph(g) && Changes(n, p, stamp)
    requires 0 in g.nodes && MatchesOn(g.nodes[0], n.nodeLabel, n.mergeKeys, n.props)
    requires forall id | id in g.nodes && id != 0 :: !MatchesOn(g.nodes[id], p.nodeLabel, p.mergeKeys, p.match_)
    ensures MatchedBy(WriteNode(g, n, stamp), p) == {}
  {
    assert 0 in Matching(g.nodes, n.nodeLabel, n.mergeKeys, n.props);
    forall id | id in WriteNode(g, n, stamp).nodes ensures id !in MatchedBy(WriteNode(g, n, stamp), p) {
      AfterWrite(g, n, stamp, id);
      if MatchesOn(g.nodes[id], n.nodeLabel, n.mergeKeys, n.props) { MovedIsLost(g, n, stamp, p, id); }
    }
  }

  ghost predicate KeepsFound(g: Graph, n: NodeInput, e: EdgeInput, stamp: string)
    requires NodeAccepted(n) && EdgeAccepted(e)
  {
    EndpointsFound(g, e) ==> EndpointsFound(WriteNode(g, n, stamp), e)
  }

  lemma LostIsNotFound(n: NodeInput, e: EdgeInput, stamp: string, alike: bool) returns (g: Graph)
    requires NodeAccepted(n) && EdgeAccepted(e) && Loses(n, e, stamp) && (alike ==> LosesOn(map[], n, e, stamp))
    ensures ValidGraph(g) && !KeepsFound(g, n, e, stamp) && (alike ==> OneLabel(g))
  {
    if LosesSide(n, e.from, e.to, stamp) && (alike ==> n.nodeLabel == e.from.nodeLabel) {
      g := SideIsLost(n, e.from, e.to, stamp);
    } else {
      g := SideIsLost(n, e.to, e.from, stamp);
    }
    assert EndpointsFound(g, e);
  }

  /** On every graph where both endpoints are found they are found after the write exactly when the
      write does not lose the edge; on graphs whose nodes carry one label each, exactly when it does
      not do so to an endpoint of its own label. */
  lemma EndpointsSurviveIff(n: NodeInput, e: EdgeInput, stamp: string)
    requires NodeAccepted(n) && EdgeAccepted(e)
    ensures (forall g | ValidGraph(g) :: KeepsFound(g, n, e, stamp)) <==> !Loses(n, e, stamp)
    ensures (forall g | ValidGraph(g) && OneLabel(g) :: KeepsFound(g, n, e, stamp)) <==> !LosesOn(map[], n, e, stamp)
  {
    if Loses(n, e, stamp) { var g := LostIsNotFound(n, e, stamp, false); }
    if LosesOn(map[], n, e, stamp) { var g := LostIsNotFound(n, e, stamp, true); }
    forall g | ValidGraph(g) && (!Loses(n, e, stamp) || (OneLabel(g) && !LosesOn(map[], n, e, stamp)))
      ensures KeepsFound(g, n, e, stamp)
    {
      if EndpointsFound(g, e) {
        assert OneLabel(g) ==> forall l :: Meet(g.nodes, n.nodeLabel, l) ==> n.nodeLabel == l;
        EndpointsSurvive(g, n, e, stamp);
      }
    }
  }

  /** Writing a node brings no two labels together that were apart. */
  lemma LabelsStayApart(g: Graph, n: NodeInput, stamp: string, a: string, b: string)
    requires NodeAccepted(n) && ValidGraph(g) && Meet(WriteNode(g, n, stamp).nodes, a, b)
    ensures Meet(g.nodes, a, b)
  {
    if a != b {
      var after := WriteNode(g, n, stamp).nodes;
      var id :| id in after && a in after[id].labels && b in after[id].labels;
      if id in g.nodes { AfterWrite(g, n, stamp, id); }
    }
  }
}
