/** Ties between pipelines of one flow (web/lib/pipeline-graph.ts). They follow the order in which the breadth-first
    search finds the pipelines. This module says when that is the order in which the pipelines were given. */
module PipelineTies {
  import opened Sequences
  import opened Graph
  import opened PipelineOrder
  import opened PipelineFlows
  import opened PipelinePartition

  /** No topological order of the flow is earlier by input order. */
  ghost predicate LeastByInput(names: seq<Name>, found: seq<Name>, es: Edges, ordered: seq<Name>) {
    forall o | TopologicalOrder(found, es, o) :: Comparable(names, ordered, o) && NoLater(names, ordered, o)
  }

  predicate Comparable(names: seq<Name>, r: seq<Name>, o: seq<Name>) {
    (forall x <- r :: x in names) && forall x <- o :: x in names
  }

  /** Whenever several pipelines of the flow are available, the first one found is the first one given. */
  ghost predicate AgreeOnTies(names: seq<Name>, found: seq<Name>, es: Edges)
    requires forall x <- found :: x in names
  {
    forall p, x, y | Greedy(found, es, p) && LeastAvailable(found, es, p, x) && Available(found, es, p, y) ::
      Rank(names, x) <= Rank(names, y)
  }

  lemma {:induction false} GreedyIsUnique(found: seq<Name>, es: Edges, p: seq<Name>, r: seq<Name>)
    requires Greedy(found, es, p) && Greedy(found, es, r) && |p| <= |r|
    ensures p == r[..|p|]
    decreases |p|
  {
    if p != [] {
      var n := |p| - 1;
      GreedyPrefix(found, es, p, n);
      GreedyIsUnique(found, es, p[..n], r);
      assert LeastAvailable(found, es, p[..n], p[n]) && LeastAvailable(found, es, r[..n], r[n]);
      assert found[Rank(found, p[n])] == found[Rank(found, r[n])];
      assert p == p[..n] + [p[n]] && r[..n + 1] == r[..n] + [r[n]];
    }
  }

  lemma GreedyPrefix(found: seq<Name>, es: Edges, p: seq<Name>, n: nat)
    requires Greedy(found, es, p) && n <= |p|
    ensures Greedy(found, es, p[..n])
  {
    assert forall j | 0 <= j < n :: p[..n][..j] == p[..j];
  }

  lemma AgreementWins(names: seq<Name>, found: seq<Name>, es: Edges, ordered: seq<Name>, o: seq<Name>)
    requires Within(es, found) && forall x <- found :: x in names
    requires Greedy(found, es, ordered) && TopologicalOrder(found, es, ordered) && TopologicalOrder(found, es, o)
    requires AgreeOnTies(names, found, es)
    ensures Comparable(names, ordered, o) && NoLater(names, ordered, o)
  {
    var k := FirstDifference(ordered, o);
    if k < |o| {
      OrderedNodeIsAvailable(found, es, o, k);
      assert LeastAvailable(found, es, ordered[..k], ordered[k]);
      GreedyPrefix(found, es, ordered, k);
      assert names[Rank(names, ordered[k])] != names[Rank(names, o[k])];
    }
  }

  /** `ordered` with its node at `j` moved up to `k`. */
  function MovedUp(ordered: seq<Name>, k: nat, j: nat): (o: seq<Name>)
    requires k < j < |ordered|
    ensures |o| == |ordered| && forall i | 0 <= i < |o| :: o[i] == ordered[CameFrom(k, j, i)]
  {
    ordered[..k] + [ordered[j]] + ordered[k..j] + ordered[j + 1..]
  }

  function CameFrom(k: nat, j: nat, i: nat): nat {
    if i == k then j else if k < i <= j then i - 1 else i
  }

  lemma MovedUpIsTopological(found: seq<Name>, es: Edges, ordered: seq<Name>, k: nat, j: nat)
    requires TopologicalOrder(found, es, ordered) && k < j < |ordered|
    requires Available(found, es, ordered[..k], ordered[j])
    ensures TopologicalOrder(found, es, MovedUp(ordered, k, j))
  {
    var o := MovedUp(ordered, k, j);
    forall a, b | 0 <= a < b < |o| ensures o[a] != o[b] {
      assert CameFrom(k, j, a) != CameFrom(k, j, b);
    }
    forall x ensures x in o <==> x in ordered {
      if x in ordered {
        var i :| 0 <= i < |ordered| && ordered[i] == x;
        assert o[if i == j then k else if k <= i < j then i + 1 else i] == x;
      }
    }
    forall a, b | 0 <= a < |o| && 0 <= b < |o| && (o[a], o[b]) in es ensures a < b {
      assert CameFrom(k, j, a) < CameFrom(k, j, b);
      if b == k {
        assert (o[a], o[b]).0 in ordered[..k];
        var i :| 0 <= i < k && ordered[..k][i] == o[a];
        assert ordered[i] == ordered[CameFrom(k, j, a)];
      }
    }
  }

  lemma DisagreementLoses(names: seq<Name>, found: seq<Name>, es: Edges, ordered: seq<Name>, k: nat, y: Name)
    requires Within(es, found) && forall x <- found :: x in names
    requires TopologicalOrder(found, es, ordered) && k < |ordered| && ordered[k] in names && y in names
    requires Available(found, es, ordered[..k], y) && Rank(names, y) < Rank(names, ordered[k])
    ensures !LeastByInput(names, found, es, ordered)
  {
    assert y in ordered;
    var j :| 0 <= j < |ordered| && ordered[j] == y;
    assert forall i | 0 <= i < k :: ordered[..k][i] == ordered[i];
    MovedUpIsTopological(found, es, ordered, k, j);
    var o := MovedUp(ordered, k, j);
    assert o[k] == y && o != ordered;
    assert forall d | k < d <= |ordered| :: ordered[..d][k] == ordered[k] && o[..d][k] == o[k];
    assert forall d | 0 <= d < k :: ordered[d] == o[d];
  }

  /** An acyclic flow is in its least order by input order if and only if, wherever there is a choice, the search
      has found first what was given first. A greedy prefix is a prefix of the flow's own order, so to check this
      condition is to replay the sort; FoundAsGivenIsEnough has one on the graph and the search order alone, which
      is sufficient only. */
  lemma LeastByInputIff(nodes: seq<Node>, valid: Edges, found: seq<Name>, flow: Flow)
    requires FlowFits(nodes, valid, found, flow) && !Cyclic(flow.edges)
    ensures forall x <- found :: x in Names(nodes)
    ensures LeastByInput(Names(nodes), found, flow.edges, Names(flow.nodes)) <==> AgreeOnTies(Names(nodes), found, flow.edges)
  {
    hide Cyclic;
    var names, es, ordered := Names(nodes), flow.edges, Names(flow.nodes);
    AcyclicFlowIsGreedy(nodes, valid, found, flow);
    if AgreeOnTies(names, found, es) {
      forall o | TopologicalOrder(found, es, o) ensures Comparable(names, ordered, o) && NoLater(names, ordered, o) {
        AgreementWins(names, found, es, ordered, o);
      }
    } else {
      var p, x, y :| Greedy(found, es, p) && LeastAvailable(found, es, p, x) && Available(found, es, p, y)
                     && Rank(names, y) < Rank(names, x);
      ChoiceIsInOrder(found, es, ordered, p, x);
      DisagreementLoses(names, found, es, ordered, |p|, y);
    }
  }

  lemma ChoiceIsInOrder(found: seq<Name>, es: Edges, ordered: seq<Name>, p: seq<Name>, x: Name)
    requires Greedy(found, es, ordered) && |ordered| == |found|
    requires Greedy(found, es, p) && LeastAvailable(found, es, p, x)
    ensures |p| < |ordered| && ordered[..|p|] == p && ordered[|p|] == x
  {
    assert Greedy(found, es, p + [x]) by {
      assert forall j | 0 <= j < |p| :: (p + [x])[..j] == p[..j];
      assert (p + [x])[..|p|] == p;
    }
    GreedyFits(found, es, p + [x]);
    GreedyIsUnique(found, es, p + [x], ordered);
    assert ordered[..|p| + 1][..|p|] == ordered[..|p|] && (p + [x])[..|p|] == p;
    assert ordered[|p|] == ordered[..|p| + 1][|p|] == (p + [x])[|p|];
  }

  // ---------------------------------------------- a condition on the graph alone

  /** Some chain of edges leads downstream from `a` to `b`. */
  ghost predicate Leads(es: Edges, a: Name, b: Name) {
    exists p: seq<Name> :: |p| >= 2 && IsPath(es, p) && p[0] == a && p[|p| - 1] == b
  }

  /** Pipelines of which neither is downstream of the other are found in the order in which they are given. */
  ghost predicate FoundAsGiven(names: seq<Name>, found: seq<Name>, es: Edges)
    requires forall x <- found :: x in names
  {
    forall x <- found, y <- found | Rank(found, x) < Rank(found, y) ::
      Rank(names, x) < Rank(names, y) || Leads(es, x, y) || Leads(es, y, x)
  }

  lemma {:induction false} UpstreamIsPlaced(es: Edges, found: seq<Name>, placed: seq<Name>, p: seq<Name>)
    requires Greedy(found, es, placed) && |p| >= 2 && IsPath(es, p)
    requires Available(found, es, placed, p[|p| - 1])
    ensures p[0] in placed
    decreases |p|
  {
    var n := |p| - 1;
    assert (p[n - 1], p[n]) in es;
    assert (p[n - 1], p[n]).0 in placed;
    if n > 1 {
      var k :| 0 <= k < |placed| && placed[k] == p[n - 1];
      assert LeastAvailable(found, es, placed[..k], placed[k]);
      var q := p[..n];
      forall i | 0 <= i < |q| - 1 ensures (q[i], q[i + 1]) in es {
        assert (p[i], p[i + 1]) in es;
      }
      GreedyPrefix(found, es, placed, k);
      UpstreamIsPlaced(es, found, placed[..k], q);
    }
  }

  /** Then the flow is in its least order by input order. */
  lemma FoundAsGivenIsEnough(nodes: seq<Node>, valid: Edges, found: seq<Name>, flow: Flow)
    requires FlowFits(nodes, valid, found, flow) && !Cyclic(flow.edges)
    requires (forall x <- found :: x in Names(nodes)) && FoundAsGiven(Names(nodes), found, flow.edges)
    ensures LeastByInput(Names(nodes), found, flow.edges, Names(flow.nodes))
  {
    hide Cyclic;
    hide FlowFits;
    hide LeastAvailable;
    hide Available;
    hide Rank;
    var names, es := Names(nodes), flow.edges;
    forall p, x, y | Greedy(found, es, p) && LeastAvailable(found, es, p, x) && Available(found, es, p, y)
      ensures x in names && y in names && Rank(names, x) <= Rank(names, y)
    {
      AgreesOnTie(names, found, es, p, x, y);
    }
    LeastByInputIff(nodes, valid, found, flow);
  }

  lemma AgreesOnTie(names: seq<Name>, found: seq<Name>, es: Edges, p: seq<Name>, x: Name, y: Name)
    requires (forall z <- found :: z in names) && FoundAsGiven(names, found, es)
    requires Greedy(found, es, p) && LeastAvailable(found, es, p, x) && Available(found, es, p, y)
    ensures x in names && y in names && Rank(names, x) <= Rank(names, y)
  {
    NotUpstream(found, es, p, x, y);
    NotUpstream(found, es, p, y, x);
    if x != y {
      assert found[Rank(found, x)] != found[Rank(found, y)];
      assert x in found && y in found && Rank(found, x) < Rank(found, y);
    }
  }

  /** Of two available nodes neither is upstream of the other. */
  lemma NotUpstream(found: seq<Name>, es: Edges, p: seq<Name>, x: Name, y: Name)
    requires Greedy(found, es, p) && Available(found, es, p, x) && Available(found, es, p, y)
    ensures !Leads(es, x, y)
  {
    forall q: seq<Name> | |q| >= 2 && IsPath(es, q) && q[|q| - 1] == y ensures q[0] in p {
      UpstreamIsPlaced(es, found, p, q);
    }
  }

  // ------------------------------------------------------------- the counterexample

  /** Three pipelines given as x, p, q of which the first feeds q and then p. */
  ghost predicate FeedsBackwards(nodes: seq<Node>, edges: Edges, x: Name, p: Name, q: Name) {
    Names(nodes) == [x, p, q] && edges == [(x, q), (x, p)] && x != p && x != q && p != q
  }

  lemma EdgesOfX(nodes: seq<Node>, edges: Edges, x: Name, p: Name, q: Name)
    requires FeedsBackwards(nodes, edges, x, p, q)
    ensures ValidEdges([x, p, q], edges) == edges
    ensures Neighbours(edges, x) == [q, p] && Neighbours(edges, p) == [x] && Neighbours(edges, q) == [x]
  {
    NeighboursOf(x, p, q, x);
    NeighboursOf(x, p, q, p);
    NeighboursOf(x, p, q, q);
    hide Neighbours;
    BothEdgesAreValid(x, p, q);
  }

  lemma BothEdgesAreValid(x: Name, p: Name, q: Name)
    requires x != p && x != q && p != q
    ensures ValidEdges([x, p, q], [(x, q), (x, p)]) == [(x, q), (x, p)]
  {
    var edges := [(x, q), (x, p)];
    assert edges[..1] == [(x, q)] && edges[..0] == [];
    assert ValidEdges([x, p, q], []) == [];
    assert ValidEdges([x, p, q], [(x, q)]) == [(x, q)];
  }

  lemma NeighboursOf(x: Name, p: Name, q: Name, y: Name)
    requires x != p && x != q && p != q && y in {x, p, q}
    ensures Neighbours([(x, q), (x, p)], y) == if y == x then [q, p] else [x]
  {
    var one, two := [(x, q)], [(x, q), (x, p)];
    assert two[..1] == one && one[..0] == [];
    assert Neighbours([], y) == [];
    assert Neighbours(one, y) == if y == x then [q] else if y == q then [x] else [];
  }

  /** The search from x finds q before p. */
  lemma FindsQFirst(edges: Edges, found: seq<Name>, x: Name, p: Name, q: Name)
    requires edges == [(x, q), (x, p)] && x != p && x != q && p != q && Neighbours(edges, x) == [q, p]
    requires NoDup(found) && found != [] && found[0] == x && IsComponent(edges, x, found)
    requires exists from: seq<int> :: BreadthFirst(edges, found, from)
    ensures found == [x, q, p]
  {
    var from: seq<int> :| BreadthFirst(edges, found, from);
    hide Joined;
    ComponentOfX(edges, found, x, p, q);
    assert FoundFrom(edges, found, from[1], 1) && FoundFrom(edges, found, from[2], 2);
    assert InOrder(edges, found, from, 1, 2);
    assert Linked(edges, x, found[2]);
    assert found == [found[0], found[1], found[2]];
  }

  lemma ComponentOfX(edges: Edges, found: seq<Name>, x: Name, p: Name, q: Name)
    requires edges == [(x, q), (x, p)] && x != p && x != q && p != q
    requires NoDup(found) && found != [] && found[0] == x && IsComponent(edges, x, found)
    ensures |found| == 3 && forall y :: y in found <==> y in {x, p, q}
  {
    JoinedToItself(edges, x);
    JoinedStep(edges, x, x, p);
    JoinedStep(edges, x, x, q);
    forall y | Joined(edges, x, y) ensures y in {x, p, q} {
      JoinedStaysInside(edges, {x, p, q}, x, y);
    }
    NoDupSize(found, {x, p, q});
    assert Elements(found) == {x, p, q};
  }

  lemma OneFlow(nodes: seq<Node>, edges: Edges, x: Name, p: Name, q: Name, flows: seq<Flow>, independent: seq<Node>,
                found: seq<seq<Name>>, starts: seq<int>)
    requires FeedsBackwards(nodes, edges, x, p, q)
    requires Grouped(nodes, edges, flows, independent, found, starts)
    ensures |flows| == 1 && found[0] == [x, q, p] && FlowFits(nodes, edges, found[0], flows[0])
  {
    hide FlowFits;
    hide Joined;
    hide Neighbours;
    EdgesOfX(nodes, edges, x, p, q);
    assert nodes[0] in nodes && nodes[0].name == x;
    var f :| 0 <= f < |found| && x in found[f];
    FirstFlow(Names(nodes), found, starts, f);
    FlowHead(nodes, edges, found[0], flows[0]);
    FindsQFirst(edges, found[0], x, p, q);
    OnlyFlow(Names(nodes), found, starts);
  }

  /** The first node given, if it is in a flow, starts the first one. */
  lemma FirstFlow(names: seq<Name>, found: seq<seq<Name>>, starts: seq<int>, f: nat)
    requires StartsInOrder(names, found, starts) && f < |found| && names != [] && names[0] in found[f]
    ensures f == 0 && found[0] != [] && found[0][0] == names[0]
  {
    assert starts[f] == 0;
    assert forall g | 0 < g < |found| :: starts[0] < starts[g];
  }

  lemma OnlyFlow(names: seq<Name>, found: seq<seq<Name>>, starts: seq<int>)
    requires StartsInOrder(names, found, starts) && Separate(found) && found != []
    requires forall y <- names :: y in found[0]
    ensures |found| == 1
  {
    if |found| > 1 {
      StartsElsewhere(names, found, starts, 1);
    }
  }

  lemma StartsElsewhere(names: seq<Name>, found: seq<seq<Name>>, starts: seq<int>, g: nat)
    requires StartsInOrder(names, found, starts) && Separate(found) && 0 < g < |found|
    ensures exists y <- names :: y !in found[0]
  {
    var y := found[g][0];
    assert y == names[starts[g]] && y in names && y in found[g];
    assert forall z <- found[0] :: z !in found[g];
  }

  lemma FlowHead(nodes: seq<Node>, valid: Edges, found: seq<Name>, flow: Flow)
    requires FlowFits(nodes, valid, found, flow)
    ensures NoDup(found) && |found| >= 2 && IsComponent(valid, found[0], found)
    ensures exists from: seq<int> :: BreadthFirst(valid, found, from)
  {
  }

  lemma OrdersOfX(edges: Edges, x: Name, p: Name, q: Name)
    requires edges == [(x, q), (x, p)] && x != p && x != q && p != q
    ensures !Cyclic(edges) && Greedy([x, q, p], edges, [x, q, p])
    ensures TopologicalOrder([x, q, p], edges, [x, p, q]) && TopologicalOrder([x, q, p], edges, [x, q, p])
  {
    var r := [x, q, p];
    RanksOf(x, q, p);
    hide Rank;
    assert (x, q) in edges && (x, p) in edges;
    assert !Available(r, edges, [], q) && !Available(r, edges, [], p);
    assert LeastAvailable(r, edges, [], x) && LeastAvailable(r, edges, [x], q) && LeastAvailable(r, edges, [x, q], p);
    assert r[..0] == [] && r[..1] == [x] && r[..2] == [x, q];
    OrderMeansAcyclic(edges, r);
  }

  lemma RanksOf(a: Name, b: Name, c: Name)
    requires a != b && a != c && b != c
    ensures Rank([a, b, c], a) == 0 && Rank([a, b, c], b) == 1 && Rank([a, b, c], c) == 2
  {
  }

  /** The flow of these three is listed as x, q, p, although x, p, q also goes downstream only and is earlier by
      input order. */
  lemma TiesNeedNotFollowTheInput(nodes: seq<Node>, edges: Edges, x: Name, p: Name, q: Name,
                                  flows: seq<Flow>, independent: seq<Node>)
    requires FeedsBackwards(nodes, edges, x, p, q) && IsGrouping(nodes, edges, flows, independent)
    ensures |flows| == 1 && Names(flows[0].nodes) == [x, q, p]
    ensures TopologicalOrder([x, q, p], flows[0].edges, [x, p, q])
    ensures !NoLater(Names(nodes), [x, q, p], [x, p, q])
  {
    hide FlowFits;
    EdgesOfX(nodes, edges, x, p, q);
    var found: seq<seq<Name>>, starts: seq<int> :| Grouped(nodes, edges, flows, independent, found, starts);
    OneFlow(nodes, edges, x, p, q, flows, independent, found, starts);
    EdgesInside(nodes, edges, x, p, q, found[0], flows[0]);
    OrdersOfX(edges, x, p, q);
    AcyclicFlowIsGreedy(nodes, edges, found[0], flows[0]);
    var ordered := Names(flows[0].nodes);
    GreedyIsUnique(found[0], edges, ordered, found[0]);
    assert ordered == found[0];
    EarlierByInput(x, p, q);
  }

  lemma EdgesInside(nodes: seq<Node>, edges: Edges, x: Name, p: Name, q: Name, found: seq<Name>, flow: Flow)
    requires FeedsBackwards(nodes, edges, x, p, q) && FlowFits(nodes, edges, found, flow) && found == [x, q, p]
    ensures flow.edges == edges
  {
    hide OrdersFlow;
    hide BreadthFirst;
    hide Joined;
    assert flow.edges == Inside(edges, found);
    assert edges[..1] == [(x, q)] && edges[..0] == [];
    assert Inside([], found) == [] && Inside([(x, q)], found) == [(x, q)];
  }

  lemma EarlierByInput(x: Name, p: Name, q: Name)
    requires x != p && x != q && p != q
    ensures !NoLater([x, p, q], [x, q, p], [x, p, q])
  {
    var names := [x, p, q];
    RanksOf(x, p, q);
    assert [x, q, p][..2][1] != [x, p, q][..2][1];
  }
}
