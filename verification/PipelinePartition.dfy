/** What the grouping means: every pipeline and every valid edge has one place, a flow is one
    connected component, and an acyclic flow is in its least topological order. */
module PipelinePartition {
  import opened Graph
  import opened PipelineOrder
  import opened PipelineFlows
  import opened Sequences

  ghost predicate UniqueNames(nodes: seq<Node>) {
    NoDup(Names(nodes))
  }

  lemma SameName(nodes: seq<Node>, m: Node, n: Node)
    requires UniqueNames(nodes) && m in nodes && n in nodes && m.name == n.name
    ensures m == n
  {
    var i :| 0 <= i < |nodes| && nodes[i] == m;
    var j :| 0 <= j < |nodes| && nodes[j] == n;
    assert Names(nodes)[i] == Names(nodes)[j];
  }

  lemma FlowHoldsItsComponent(nodes: seq<Node>, valid: Edges, found: seq<Name>, flow: Flow, n: Node)
    requires UniqueNames(nodes) && FlowFits(nodes, valid, found, flow) && n in nodes
    ensures n in flow.nodes <==> n.name in found
  {
    var ordered := Names(flow.nodes);
    if n in flow.nodes {
      var k :| 0 <= k < |flow.nodes| && flow.nodes[k] == n;
      assert ordered[k] == n.name && ordered[k] in ordered;
    }
    if n.name in found {
      assert n.name in ordered;
      var k :| 0 <= k < |ordered| && ordered[k] == n.name;
      assert flow.nodes[k] in nodes;
      SameName(nodes, flow.nodes[k], n);
    }
  }

  lemma MembersAreTouched(nodes: seq<Node>, valid: Edges, flows: seq<Flow>, independent: seq<Node>,
                          found: seq<seq<Name>>, starts: seq<int>, f: nat, x: Name)
    requires Grouped(nodes, valid, flows, independent, found, starts) && f < |found| && x in found[f]
    ensures Neighbours(valid, x) != []
  {
    assert FlowFits(nodes, valid, found[f], flows[f]);
    MemberHasNeighbour(valid, x, found[f]);
  }

  /** The place of a pipeline: independent, or one flow and no other. */
  ghost predicate HasOnePlace(n: Node, flows: seq<Flow>, independent: seq<Node>) {
    if n in independent then forall f | 0 <= f < |flows| :: n !in flows[f].nodes
    else exists f | 0 <= f < |flows| ::
      n in flows[f].nodes && forall g | 0 <= g < |flows| && n in flows[g].nodes :: g == f
  }

  lemma FlowRepeatsNoNode(nodes: seq<Node>, valid: Edges, found: seq<Name>, flow: Flow)
    requires FlowFits(nodes, valid, found, flow)
    ensures NoDup(flow.nodes) && forall n <- flow.nodes :: n in nodes
  {
    var ordered := Names(flow.nodes);
    assert NoDup(ordered);
    forall i, j | 0 <= i < j < |flow.nodes| ensures flow.nodes[i] != flow.nodes[j] {
      assert ordered[i] != ordered[j];
    }
  }

  lemma {:induction false} UntouchedHasNoDup(nodes: seq<Node>, valid: Edges)
    requires NoDup(nodes)
    ensures NoDup(Untouched(nodes, valid))
    decreases |nodes|
  {
    if nodes != [] {
      UntouchedHasNoDup(nodes[..|nodes| - 1], valid);
      assert nodes[|nodes| - 1] !in nodes[..|nodes| - 1];
    }
  }

  /** No list of the grouping has a node twice, or one that was not given. */
  lemma NoNodeIsRepeated(nodes: seq<Node>, valid: Edges, flows: seq<Flow>, independent: seq<Node>,
                         found: seq<seq<Name>>, starts: seq<int>)
    requires Grouped(nodes, valid, flows, independent, found, starts) && UniqueNames(nodes)
    ensures forall f | 0 <= f < |flows| :: NoDup(flows[f].nodes) && forall n <- flows[f].nodes :: n in nodes
    ensures NoDup(independent) && forall n <- independent :: n in nodes
  {
    forall f | 0 <= f < |flows| ensures NoDup(flows[f].nodes) && forall n <- flows[f].nodes :: n in nodes {
      FlowRepeatsNoNode(nodes, valid, found[f], flows[f]);
    }
    forall i, j | 0 <= i < j < |nodes| ensures nodes[i] != nodes[j] {
      assert Names(nodes)[i] != Names(nodes)[j];
    }
    UntouchedHasNoDup(nodes, valid);
  }

  /** With unique names the nodes are partitioned; independent ones are exactly those no valid edge touches. */
  lemma EachNodeHasOnePlace(nodes: seq<Node>, valid: Edges, flows: seq<Flow>, independent: seq<Node>,
                            found: seq<seq<Name>>, starts: seq<int>, n: Node)
    requires Grouped(nodes, valid, flows, independent, found, starts) && UniqueNames(nodes) && n in nodes
    ensures HasOnePlace(n, flows, independent)
    ensures n in independent <==> forall e <- valid :: e.0 != n.name && e.1 != n.name
  {
    forall f | 0 <= f < |flows| ensures n in flows[f].nodes <==> n.name in found[f] {
      FlowHoldsItsComponent(nodes, valid, found[f], flows[f], n);
    }
    if n in independent {
      forall f | 0 <= f < |flows| ensures n !in flows[f].nodes {
        if n.name in found[f] {
          MembersAreTouched(nodes, valid, flows, independent, found, starts, f, n.name);
        }
      }
    } else {
      var f :| 0 <= f < |found| && n.name in found[f];
      forall g | 0 <= g < |flows| && n in flows[g].nodes ensures g == f {
        assert n.name in found[g];
      }
    }
    TouchedMeans(valid, n.name);
  }

  lemma TouchedMeans(valid: Edges, x: Name)
    ensures Neighbours(valid, x) == [] <==> forall e <- valid :: e.0 != x && e.1 != x
  {
    if Neighbours(valid, x) != [] {
      assert Neighbours(valid, x)[0] in Neighbours(valid, x);
    }
    if e :| e in valid && (e.0 == x || e.1 == x) {
      var b := if e.0 == x then e.1 else e.0;
      assert (e.0, e.1) in valid && Linked(valid, x, b);
      assert b in Neighbours(valid, x);
    }
  }

  /** Two touched pipelines share a flow exactly when a chain of valid edges joins them. */
  lemma SameFlowIffJoined(nodes: seq<Node>, valid: Edges, flows: seq<Flow>, independent: seq<Node>,
                          found: seq<seq<Name>>, starts: seq<int>, f: nat, g: nat, x: Name, y: Name)
    requires Grouped(nodes, valid, flows, independent, found, starts)
    requires f < |found| && x in found[f] && g < |found| && y in found[g]
    ensures f == g <==> Joined(valid, x, y)
  {
    assert FlowFits(nodes, valid, found[f], flows[f]);
    AnyMemberIsARoot(valid, found[f][0], found[f], x);
    assert y in found[f] <==> Joined(valid, x, y);
  }

  /** What the edge claim needs of a grouping. */
  ghost predicate EdgesFit(valid: Edges, flows: seq<Flow>, found: seq<seq<Name>>) {
    && |found| == |flows|
    && (forall f | 0 <= f < |flows| :: flows[f].edges == Inside(valid, found[f]))
    && (forall f | 0 <= f < |flows| :: found[f] != [] && IsComponent(valid, found[f][0], found[f]))
    && (forall e <- valid :: exists f | 0 <= f < |found| :: e.0 in found[f])
  }

  lemma GroupedEdgesFit(nodes: seq<Node>, edges: Edges, flows: seq<Flow>, independent: seq<Node>,
                        found: seq<seq<Name>>, starts: seq<int>)
    requires Grouped(nodes, ValidEdges(Names(nodes), edges), flows, independent, found, starts)
    ensures EdgesFit(ValidEdges(Names(nodes), edges), flows, found)
  {
    var valid := ValidEdges(Names(nodes), edges);
    forall f | 0 <= f < |flows|
      ensures flows[f].edges == Inside(valid, found[f]) && found[f] != [] && IsComponent(valid, found[f][0], found[f])
    {
      assert FlowFits(nodes, valid, found[f], flows[f]);
    }
    forall e <- valid ensures exists f | 0 <= f < |found| :: e.0 in found[f] {
      TouchedMeans(valid, e.0);
      NamedNode(nodes, e.0);
    }
  }

  lemma NamedNode(nodes: seq<Node>, x: Name)
    requires x in Names(nodes)
    ensures exists n <- nodes :: n.name == x
  {
    var i :| 0 <= i < |nodes| && Names(nodes)[i] == x;
    assert nodes[i] in nodes;
  }

  lemma FlowOfEdge(valid: Edges, flows: seq<Flow>, found: seq<seq<Name>>, e: Edge<Name>) returns (f: nat)
    requires EdgesFit(valid, flows, found) && e in valid
    ensures f < |flows| && e in flows[f].edges
  {
    f :| f < |found| && e.0 in found[f];
    assert IsComponent(valid, found[f][0], found[f]);
    assert Linked(valid, e.0, e.1);
    JoinedStep(valid, found[f][0], e.0, e.1);
  }

  lemma OneFlowPerEdge(valid: Edges, flows: seq<Flow>, found: seq<seq<Name>>, e: Edge<Name>)
    requires EdgesFit(valid, flows, found) && Separate(found)
    ensures e in valid <==> exists f | 0 <= f < |flows| :: e in flows[f].edges
    ensures forall f, g | 0 <= f < |flows| && 0 <= g < |flows| && e in flows[f].edges && e in flows[g].edges :: f == g
  {
    if e in valid {
      var f := FlowOfEdge(valid, flows, found, e);
    }
    forall f, g | 0 <= f < g < |flows| && e in flows[f].edges ensures e !in flows[g].edges {
      assert e.0 in found[f];
    }
  }

  /** Every valid edge lies in one flow and no other, and flows hold no other edges. */
  lemma EachEdgeHasOneFlow(nodes: seq<Node>, edges: Edges, flows: seq<Flow>, independent: seq<Node>,
                           found: seq<seq<Name>>, starts: seq<int>, e: Edge<Name>)
    requires Grouped(nodes, ValidEdges(Names(nodes), edges), flows, independent, found, starts)
    ensures e in edges && Valid(Names(nodes), e) <==> exists f | 0 <= f < |flows| :: e in flows[f].edges
    ensures forall f, g | 0 <= f < |flows| && 0 <= g < |flows| && e in flows[f].edges && e in flows[g].edges :: f == g
  {
    GroupedEdgesFit(nodes, edges, flows, independent, found, starts);
    OneFlowPerEdge(ValidEdges(Names(nodes), edges), flows, found, e);
  }

  lemma {:induction false} ValidKeepsEdges(names: seq<Name>, es: Edges, e: Edge<Name>)
    ensures multiset(ValidEdges(names, es))[e] == if Valid(names, e) then multiset(es)[e] else 0
    decreases |es|
  {
    if es != [] {
      ValidKeepsEdges(names, es[..|es| - 1], e);
      assert es == es[..|es| - 1] + [es[|es| - 1]];
    }
  }

  lemma {:induction false} InsideKeepsEdges(es: Edges, group: seq<Name>, e: Edge<Name>)
    ensures multiset(Inside(es, group))[e] == if e.0 in group && e.1 in group then multiset(es)[e] else 0
    decreases |es|
  {
    if es != [] {
      InsideKeepsEdges(es[..|es| - 1], group, e);
      assert es == es[..|es| - 1] + [es[|es| - 1]];
    }
  }

  /** A valid edge is listed in its flow as often as it was given. */
  lemma EdgesKeepTheirNumber(nodes: seq<Node>, edges: Edges, flows: seq<Flow>, independent: seq<Node>,
                             found: seq<seq<Name>>, starts: seq<int>, f: nat, e: Edge<Name>)
    requires Grouped(nodes, ValidEdges(Names(nodes), edges), flows, independent, found, starts)
    requires f < |flows| && e in flows[f].edges
    ensures multiset(flows[f].edges)[e] == multiset(edges)[e]
  {
    var valid := ValidEdges(Names(nodes), edges);
    GroupedEdgesFit(nodes, edges, flows, independent, found, starts);
    InsideKeepsEdges(valid, found[f], e);
    ValidKeepsEdges(Names(nodes), edges, e);
  }

  /** Without a cycle the whole flow is what Kahn's loop places. */
  lemma AcyclicFlowIsGreedy(nodes: seq<Node>, valid: Edges, found: seq<Name>, flow: Flow)
    requires FlowFits(nodes, valid, found, flow) && !Cyclic(flow.edges)
    ensures Within(flow.edges, found) && Greedy(found, flow.edges, Names(flow.nodes)) && |flow.nodes| == |found|
    ensures TopologicalOrder(found, flow.edges, Names(flow.nodes))
    ensures forall x <- found :: x in Names(nodes)
  {
    var ordered := Names(flow.nodes);
    var placed: seq<Name> :| Greedy(found, flow.edges, placed) && Exhausted(found, flow.edges, placed)
                             && ordered == placed + Leftover(found, placed);
    ExhaustedMeans(found, flow.edges, placed);
    assert placed == ordered;
    forall x <- found ensures x in Names(nodes) {
      assert x in ordered;
    }
  }

  /** An acyclic flow is listed upstream first, in the least such order by discovery rank. */
  lemma AcyclicFlowIsInLeastOrder(nodes: seq<Node>, valid: Edges, found: seq<Name>, flow: Flow, other: seq<Name>)
    requires FlowFits(nodes, valid, found, flow) && !Cyclic(flow.edges)
    requires TopologicalOrder(found, flow.edges, other)
    ensures TopologicalOrder(found, flow.edges, Names(flow.nodes))
    ensures (forall x <- Names(flow.nodes) :: x in found) && (forall x <- other :: x in found)
    ensures NoLater(found, Names(flow.nodes), other)
  {
    AcyclicFlowIsGreedy(nodes, valid, found, flow);
    GreedyIsLeast(found, flow.edges, Names(flow.nodes), other);
  }
}
