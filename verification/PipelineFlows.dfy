/** Splits the pipelines of a project into dependency flows and independent pipelines
    (web/lib/pipeline-graph.ts). */
module PipelineFlows {
  import opened Graph
  import opened PipelineOrder
  import opened Sequences

  datatype Node = Node(name: Name, info: string)

  datatype Flow = Flow(first: Name, last: Name, nodes: seq<Node>, edges: Edges)

  function Names(nodes: seq<Node>): (names: seq<Name>)
    ensures |names| == |nodes| && forall k | 0 <= k < |nodes| :: names[k] == nodes[k].name
  {
    seq(|nodes|, k requires 0 <= k < |nodes| => nodes[k].name)
  }

  predicate Valid(names: seq<Name>, e: Edge<Name>) {
    e.0 != e.1 && e.0 in names && e.1 in names
  }

  /** Edges between two different known pipelines. */
  function ValidEdges(names: seq<Name>, es: Edges): (valid: Edges)
    ensures forall e :: e in valid <==> e in es && Valid(names, e)
  {
    if es == [] then []
    else ValidEdges(names, es[..|es| - 1]) + (if Valid(names, es[|es| - 1]) then [es[|es| - 1]] else [])
  }

  function Inside(es: Edges, group: seq<Name>): (inside: Edges)
    ensures forall e :: e in inside <==> e in es && e.0 in group && e.1 in group
  {
    if es == [] then []
    else
      var e := es[|es| - 1];
      Inside(es[..|es| - 1], group) + (if e.0 in group && e.1 in group then [e] else [])
  }

  // ---------------------------------------------------- connected components

  predicate Linked(es: Edges, a: Name, b: Name) {
    (a, b) in es || (b, a) in es
  }

  ghost predicate IsWalk(es: Edges, p: seq<Name>) {
    |p| > 0 && forall k | 0 <= k < |p| - 1 :: Linked(es, p[k], p[k + 1])
  }

  /** Some chain of edges, in either direction, leads from `a` to `b`. */
  ghost predicate Joined(es: Edges, a: Name, b: Name) {
    exists p: seq<Name> :: IsWalk(es, p) && p[0] == a && p[|p| - 1] == b
  }

  ghost predicate IsComponent(es: Edges, root: Name, group: seq<Name>) {
    forall x :: x in group <==> Joined(es, root, x)
  }

  ghost predicate Closed(es: Edges, seen: set<Name>) {
    forall a, b | a in seen && Linked(es, a, b) :: b in seen
  }

  lemma JoinedToItself(es: Edges, a: Name)
    ensures Joined(es, a, a)
  {
    assert IsWalk(es, [a]);
  }

  lemma JoinedStep(es: Edges, a: Name, b: Name, c: Name)
    requires Joined(es, a, b) && Linked(es, b, c)
    ensures Joined(es, a, c)
  {
    var p :| IsWalk(es, p) && p[0] == a && p[|p| - 1] == b;
    assert IsWalk(es, p + [c]);
  }

  lemma {:induction false} WalkStaysInside(es: Edges, seen: set<Name>, p: seq<Name>)
    requires Closed(es, seen) && IsWalk(es, p) && p[0] in seen
    ensures p[|p| - 1] in seen
    decreases |p|
  {
    if |p| > 1 {
      assert Linked(es, p[0], p[1]);
      forall k | 0 <= k < |p[1..]| - 1 ensures Linked(es, p[1..][k], p[1..][k + 1]) {
        assert Linked(es, p[k + 1], p[k + 2]);
      }
      WalkStaysInside(es, seen, p[1..]);
    }
  }

  lemma JoinedStaysInside(es: Edges, seen: set<Name>, a: Name, b: Name)
    requires Closed(es, seen) && a in seen && Joined(es, a, b)
    ensures b in seen
  {
    var p :| IsWalk(es, p) && p[0] == a && p[|p| - 1] == b;
    WalkStaysInside(es, seen, p);
  }

  lemma {:induction false} WalkBack(es: Edges, p: seq<Name>)
    requires IsWalk(es, p)
    ensures Joined(es, p[|p| - 1], p[0])
    decreases |p|
  {
    if |p| == 1 {
      JoinedToItself(es, p[0]);
    } else {
      forall k | 0 <= k < |p[1..]| - 1 ensures Linked(es, p[1..][k], p[1..][k + 1]) {
        assert Linked(es, p[k + 1], p[k + 2]);
      }
      WalkBack(es, p[1..]);
      assert Linked(es, p[0], p[1]);
      JoinedStep(es, p[|p| - 1], p[1], p[0]);
    }
  }

  lemma JoinedSymmetric(es: Edges, a: Name, b: Name)
    requires Joined(es, a, b)
    ensures Joined(es, b, a)
  {
    var p :| IsWalk(es, p) && p[0] == a && p[|p| - 1] == b;
    WalkBack(es, p);
  }

  lemma JoinedTransitive(es: Edges, a: Name, b: Name, c: Name)
    requires Joined(es, a, b) && Joined(es, b, c)
    ensures Joined(es, a, c)
  {
    var p :| IsWalk(es, p) && p[0] == a && p[|p| - 1] == b;
    var q :| IsWalk(es, q) && q[0] == b && q[|q| - 1] == c;
    var w := p + q[1..];
    forall k | 0 <= k < |w| - 1 ensures Linked(es, w[k], w[k + 1]) {
      if k >= |p| - 1 {
        assert Linked(es, q[k + 1 - |p|], q[k + 2 - |p|]);
      } else {
        assert Linked(es, p[k], p[k + 1]);
      }
    }
    assert IsWalk(es, w);
  }

  /** A component is the same seen from any of its members. */
  lemma AnyMemberIsARoot(es: Edges, root: Name, group: seq<Name>, x: Name)
    requires IsComponent(es, root, group) && x in group
    ensures IsComponent(es, x, group)
  {
    forall y ensures y in group <==> Joined(es, x, y) {
      JoinedSymmetric(es, root, x);
      if y in group {
        JoinedTransitive(es, x, root, y);
      }
      if Joined(es, x, y) {
        JoinedTransitive(es, root, x, y);
      }
    }
  }

  // ------------------------------------------------------- adjacency, in order

  function AddOnce(xs: seq<Name>, x: Name): seq<Name> {
    if x in xs then xs else xs + [x]
  }

  /** The neighbours of `a`, each once, in the order the edges mention them. */
  function Neighbours(es: Edges, a: Name): (nb: seq<Name>)
    ensures NoDup(nb) && forall b :: b in nb <==> Linked(es, a, b)
  {
    if es == [] then []
    else
      var e := es[|es| - 1];
      assert es == es[..|es| - 1] + [e];
      var nb := Neighbours(es[..|es| - 1], a);
      var nb' := if e.0 == a then AddOnce(nb, e.1) else nb;
      if e.1 == a then AddOnce(nb', e.0) else nb'
  }

  ghost predicate Adjacent(es: Edges, adj: map<Name, seq<Name>>) {
    forall a :: Neighbours(es, a) == if a in adj then adj[a] else []
  }

  function Link(adj: map<Name, seq<Name>>, a: Name, b: Name): map<Name, seq<Name>> {
    adj[a := AddOnce(if a in adj then adj[a] else [], b)]
  }

  lemma LinkBoth(es: Edges, e: Edge<Name>, adj: map<Name, seq<Name>>)
    requires Adjacent(es, adj)
    ensures Adjacent(es + [e], Link(Link(adj, e.0, e.1), e.1, e.0))
  {
    assert (es + [e])[..|es|] == es;
  }

  lemma TouchBoth(es: Edges, e: Edge<Name>, touched: set<Name>)
    requires forall a :: a in touched <==> Neighbours(es, a) != []
    ensures forall a :: a in touched + {e.0, e.1} <==> Neighbours(es + [e], a) != []
  {
    assert (es + [e])[..|es|] == es;
  }

  method BuildAdjacency(valid: Edges) returns (adj: map<Name, seq<Name>>, touched: set<Name>)
    ensures Adjacent(valid, adj)
    ensures forall a :: a in touched <==> Neighbours(valid, a) != []
  {
    hide Neighbours;
    hide Adjacent;
    adj, touched := map[], {};
    NothingLinked();
    for i := 0 to |valid|
      invariant Adjacent(valid[..i], adj)
      invariant forall a :: a in touched <==> Neighbours(valid[..i], a) != []
    {
      var e := valid[i];
      assert valid[..i + 1] == valid[..i] + [e];
      LinkBoth(valid[..i], e, adj);
      TouchBoth(valid[..i], e, touched);
      touched := touched + {e.0, e.1};
      adj := Link(adj, e.0, e.1);
      adj := Link(adj, e.1, e.0);
    }
    assert valid[..|valid|] == valid;
  }

  lemma NothingLinked()
    ensures Adjacent([], map[]) && forall a :: Neighbours([], a) == []
  {
  }

  // ------------------------------------------------------ breadth-first search

  predicate Before(xs: seq<Name>, x: Name, y: Name) {
    exists i, j | 0 <= i < j < |xs| :: xs[i] == x && xs[j] == y
  }

  ghost predicate FoundFrom(es: Edges, found: seq<Name>, from: int, p: nat)
    requires p < |found|
  {
    && 0 <= from < p && Linked(es, found[from], found[p])
    && forall q | 0 <= q < from :: !Linked(es, found[q], found[p])
  }

  ghost predicate InOrder(es: Edges, found: seq<Name>, from: seq<int>, p: nat, q: nat)
    requires p < q < |found| == |from| && 0 <= from[p] < |found|
  {
    from[p] < from[q] || (from[p] == from[q] && Before(Neighbours(es, found[from[p]]), found[p], found[q]))
  }

  /** Every node but the first was found from the earliest node next to it, and the nodes
      found from one node keep the order of its neighbour list. */
  ghost predicate BreadthFirst(es: Edges, found: seq<Name>, from: seq<int>) {
    && |from| == |found|
    && (forall p | 1 <= p < |found| :: FoundFrom(es, found, from[p], p))
    && (forall p, q | 1 <= p < q < |found| :: InOrder(es, found, from, p, q))
  }

  /** The first `c` found nodes have had all their neighbours looked at. */
  ghost predicate Explored(es: Edges, root: Name, before: set<Name>, found: seq<Name>, from: seq<int>, c: nat) {
    && |found| > 0 && found[0] == root && NoDup(found) && c <= |found|
    && (forall x <- found :: x !in before && Joined(es, root, x))
    && (forall k, b | 0 <= k < c && Linked(es, found[k], b) :: b in found)
    && BreadthFirst(es, found, from)
    && (forall p | 1 <= p < |from| :: from[p] < c)
  }

  /** The same while the neighbours `j..` of found[c] are still to be looked at. */
  ghost predicate Exploring(es: Edges, root: Name, before: set<Name>, found: seq<Name>, from: seq<int>, c: nat, j: nat) {
    && |found| > 0 && found[0] == root && NoDup(found) && c < |found|
    && (forall x <- found :: x !in before && Joined(es, root, x))
    && (forall k, b | 0 <= k < c && Linked(es, found[k], b) :: b in found)
    && BreadthFirst(es, found, from)
    && j <= |Neighbours(es, found[c])|
    && (forall b <- Neighbours(es, found[c])[..j] :: b in found)
    && (forall p | 1 <= p < |from| :: from[p] <= c)
    && (forall p {:trigger from[p]} | 1 <= p < |from| && from[p] == c :: found[p] in Neighbours(es, found[c])[..j])
  }

  lemma StartNode(es: Edges, root: Name, before: set<Name>, found: seq<Name>, from: seq<int>, c: nat)
    requires Explored(es, root, before, found, from, c) && c < |found|
    ensures Exploring(es, root, before, found, from, c, 0)
  {
  }

  lemma EndNode(es: Edges, root: Name, before: set<Name>, found: seq<Name>, from: seq<int>, c: nat, j: nat)
    requires Exploring(es, root, before, found, from, c, j) && j == |Neighbours(es, found[c])|
    ensures Explored(es, root, before, found, from, c + 1)
  {
    assert Neighbours(es, found[c])[..j] == Neighbours(es, found[c]);
  }

  /** A neighbour that was seen already was seen in this search: no edge leads into `before`. */
  lemma SeenNeighbour(es: Edges, root: Name, before: set<Name>, found: seq<Name>, from: seq<int>, c: nat, j: nat)
    requires Exploring(es, root, before, found, from, c, j) && j < |Neighbours(es, found[c])|
    requires Closed(es, before) && Neighbours(es, found[c])[j] in before + Elements(found)
    ensures Exploring(es, root, before, found, from, c, j + 1)
  {
    var nb := Neighbours(es, found[c]);
    assert nb[j] in nb;
    assert Linked(es, nb[j], found[c]);
    assert found[c] in found;
    assert nb[j] in found;
    assert nb[..j + 1] == nb[..j] + [nb[j]];
  }

  lemma NewNeighbour(es: Edges, root: Name, before: set<Name>, found: seq<Name>, from: seq<int>, c: nat, j: nat)
    requires Exploring(es, root, before, found, from, c, j) && j < |Neighbours(es, found[c])|
    requires Neighbours(es, found[c])[j] !in before + Elements(found)
    ensures Exploring(es, root, before, found + [Neighbours(es, found[c])[j]], from + [c], c, j + 1)
  {
    var nb := Neighbours(es, found[c]);
    var m := nb[j];
    assert m in nb && m !in found;
    assert nb[..j + 1] == nb[..j] + [m];
    assert found[c] in found;
    JoinedStep(es, root, found[c], m);
    FoundNext(es, found, from, c, j);
  }

  lemma FoundNext(es: Edges, found: seq<Name>, from: seq<int>, c: nat, j: nat)
    requires BreadthFirst(es, found, from) && c < |found| && j < |Neighbours(es, found[c])|
    requires forall p | 1 <= p < |from| :: from[p] <= c
    requires forall p {:trigger from[p]} | 1 <= p < |from| && from[p] == c :: found[p] in Neighbours(es, found[c])[..j]
    requires forall q | 0 <= q < c :: !Linked(es, found[q], Neighbours(es, found[c])[j])
    ensures BreadthFirst(es, found + [Neighbours(es, found[c])[j]], from + [c])
  {
    var m := Neighbours(es, found[c])[j];
    var found', from' := found + [m], from + [c];
    NewestComesLast(es, found, from, c, j);
    assert m in Neighbours(es, found[c]);
    forall p | 1 <= p < |found'| ensures FoundFrom(es, found', from'[p], p) {
      if p < |found| {
        assert FoundFrom(es, found, from[p], p);
      }
    }
    forall p, q | 1 <= p < q < |found'| ensures InOrder(es, found', from', p, q) {
      assert FoundFrom(es, found, from[p], p);
      if q < |found| {
        assert InOrder(es, found, from, p, q);
      }
    }
  }

  lemma NewestComesLast(es: Edges, found: seq<Name>, from: seq<int>, c: nat, j: nat)
    requires BreadthFirst(es, found, from) && c < |found| && j < |Neighbours(es, found[c])|
    requires forall p | 1 <= p < |from| :: from[p] <= c
    requires forall p {:trigger from[p]} | 1 <= p < |from| && from[p] == c :: found[p] in Neighbours(es, found[c])[..j]
    ensures forall p | 1 <= p < |from| ::
              from[p] < c || (from[p] == c && Before(Neighbours(es, found[c]), found[p], Neighbours(es, found[c])[j]))
  {
    var nb := Neighbours(es, found[c]);
    forall p | 1 <= p < |from| && from[p] == c ensures Before(nb, found[p], nb[j]) {
      var i :| 0 <= i < j && nb[..j][i] == found[p];
      assert nb[i] == found[p];
    }
  }

  lemma SearchIsComplete(es: Edges, root: Name, before: set<Name>, found: seq<Name>, from: seq<int>)
    requires Explored(es, root, before, found, from, |found|) && Closed(es, before)
    ensures IsComponent(es, root, found) && Closed(es, before + Elements(found))
  {
    var all := Elements(found);
    forall a, b | a in all && Linked(es, a, b) ensures b in all {
      var k :| 0 <= k < |found| && found[k] == a;
    }
    assert root in all;
    forall x ensures x in found <==> Joined(es, root, x) {
      if Joined(es, root, x) {
        JoinedStaysInside(es, all, root, x);
      }
    }
  }

  /** The search from one touched node. */
  method Explore(ghost es: Edges, adj: map<Name, seq<Name>>, ghost names: seq<Name>, name: Name, before: set<Name>)
    returns (comp: seq<Name>, seen: set<Name>, ghost from: seq<int>)
    requires Adjacent(es, adj) && Closed(es, before) && name !in before
    requires name in names && Within(es, names)
    ensures IsComponent(es, name, comp) && NoDup(comp) && comp != [] && comp[0] == name
    ensures BreadthFirst(es, comp, from)
    ensures seen == before + Elements(comp) && Closed(es, seen)
    ensures forall x <- comp :: x !in before && x in names
  {
    comp := [];
    var queue := [name];
    seen := before + {name};
    ghost var found := [name];
    from := [-1];
    JoinedToItself(es, name);
    while |queue| > 0
      invariant found == comp + queue && seen == before + Elements(found)
      invariant Explored(es, name, before, found, from, |comp|)
      invariant forall x <- found :: x in names
      decreases |names| - |comp|
    {
      var n := queue[0];
      ghost var c := |comp|;
      assert found[c] == n;
      StartNode(es, name, before, found, from, c);
      assert found == comp + [n] + queue[1..];
      queue := queue[1..];
      comp := comp + [n];
      Bounded(names, found, comp);
      queue, seen, found, from := Visit(es, names, name, before, comp, queue, seen, from, if n in adj then adj[n] else []);
    }
    assert found == comp;
    SearchIsComplete(es, name, before, comp, from);
  }

  /** The inner loop: queues the neighbours of the last taken node that were not seen yet. */
  method Visit(ghost es: Edges, ghost names: seq<Name>, ghost root: Name, ghost before: set<Name>, ghost comp: seq<Name>,
               were: seq<Name>, seens: set<Name>, ghost froms: seq<int>, nb: seq<Name>)
    returns (queue: seq<Name>, seen: set<Name>, ghost found: seq<Name>, ghost from: seq<int>)
    requires |comp| > 0 && nb == Neighbours(es, comp[|comp| - 1]) && Within(es, names) && Closed(es, before)
    requires Exploring(es, root, before, comp + were, froms, |comp| - 1, 0)
    requires seens == before + Elements(comp + were) && forall x <- comp + were :: x in names
    ensures found == comp + queue && seen == before + Elements(found) && forall x <- found :: x in names
    ensures Explored(es, root, before, found, from, |comp|)
  {
    queue, seen, found, from := were, seens, comp + were, froms;
    ghost var c := |comp| - 1;
    for j := 0 to |nb|
      invariant found == comp + queue && seen == before + Elements(found)
      invariant Exploring(es, root, before, found, from, c, j)
      invariant forall x <- found :: x in names
    {
      var m := nb[j];
      if m !in seen {
        NewNeighbour(es, root, before, found, from, c, j);
        KnownNeighbour(es, names, comp[c], j);
        Grow(before, found, m);
        seen := seen + {m};
        queue := queue + [m];
        found, from := found + [m], from + [c];
      } else {
        SeenNeighbour(es, root, before, found, from, c, j);
      }
    }
    EndNode(es, root, before, found, from, c, |nb|);
  }

  lemma KnownNeighbour(es: Edges, names: seq<Name>, a: Name, j: nat)
    requires Within(es, names) && j < |Neighbours(es, a)|
    ensures Neighbours(es, a)[j] in names
  {
    assert Neighbours(es, a)[j] in Neighbours(es, a);
  }

  lemma Grow(before: set<Name>, found: seq<Name>, m: Name)
    ensures before + Elements(found) + {m} == before + Elements(found + [m])
  {
  }

  lemma Bounded(names: seq<Name>, found: seq<Name>, comp: seq<Name>)
    requires NoDup(found) && comp <= found && forall x <- found :: x in names
    ensures |comp| <= |names|
  {
    NoDupSize(found, Elements(names));
    ElementsAtMost(names);
  }

  // ------------------------------------------------------------------- flows

  function NodeNamed(nodes: seq<Node>, x: Name): Node
    requires x in Names(nodes)
  {
    nodes[Rank(Names(nodes), x)]
  }

  /** `ordered` is the order of the flow that was found as `found`. */
  ghost predicate OrdersFlow(found: seq<Name>, es: Edges, ordered: seq<Name>) {
    && Permutes(ordered, found)
    && (Cyclic(es) || TopologicalOrder(found, es, ordered))
    && exists placed: seq<Name> ::
         Greedy(found, es, placed) && Exhausted(found, es, placed) && ordered == placed + Leftover(found, placed)
  }

  /** What `flow` must be when the search from found[0] found `found`. */
  ghost predicate FlowFits(nodes: seq<Node>, valid: Edges, found: seq<Name>, flow: Flow) {
    && |found| >= 2 && NoDup(found) && IsComponent(valid, found[0], found)
    && (exists from: seq<int> :: BreadthFirst(valid, found, from))
    && flow.edges == Inside(valid, found)
    && |flow.nodes| == |found|
    && OrdersFlow(found, flow.edges, Names(flow.nodes))
    && (forall k | 0 <= k < |found| ::
          flow.nodes[k].name in Names(nodes) && flow.nodes[k] == NodeNamed(nodes, flow.nodes[k].name))
    && flow.first == flow.nodes[0].name && flow.last == flow.nodes[|found| - 1].name
  }

  /** Each search starts at the first listed node of its flow; the flows follow that order. */
  ghost predicate StartsInOrder(names: seq<Name>, found: seq<seq<Name>>, starts: seq<int>) {
    && |starts| == |found|
    && (forall f | 0 <= f < |found| ::
          0 <= starts[f] < |names| && found[f] != [] && found[f][0] == names[starts[f]]
          && forall i | 0 <= i < starts[f] :: names[i] !in found[f])
    && forall f, g | 0 <= f < g < |found| :: starts[f] < starts[g]
  }

  function Untouched(nodes: seq<Node>, valid: Edges): (rest: seq<Node>)
    ensures forall n :: n in rest <==> n in nodes && Neighbours(valid, n.name) == []
  {
    if nodes == [] then []
    else
      var last := nodes[|nodes| - 1];
      Untouched(nodes[..|nodes| - 1], valid) + (if Neighbours(valid, last.name) == [] then [last] else [])
  }

  ghost predicate Separate(found: seq<seq<Name>>) {
    forall f, g, x | 0 <= f < g < |found| && x in found[f] :: x !in found[g]
  }

  ghost predicate AllFound(found: seq<seq<Name>>, seen: set<Name>) {
    forall x :: x in seen <==> exists f | 0 <= f < |found| :: x in found[f]
  }

  /** The whole grouping; flow `f` was found as found[f] from node starts[f]. */
  ghost predicate Grouped(nodes: seq<Node>, valid: Edges, flows: seq<Flow>, independent: seq<Node>,
                          found: seq<seq<Name>>, starts: seq<int>)
  {
    && |found| == |flows|
    && (forall f | 0 <= f < |flows| :: FlowFits(nodes, valid, found[f], flows[f]))
    && StartsInOrder(Names(nodes), found, starts)
    && Separate(found)
    && (forall n <- nodes | Neighbours(valid, n.name) != [] :: exists f | 0 <= f < |found| :: n.name in found[f])
    && independent == Untouched(nodes, valid)
  }

  /** The flows and the independent nodes, with some record of how they were found. */
  ghost predicate IsGrouping(nodes: seq<Node>, edges: Edges, flows: seq<Flow>, independent: seq<Node>) {
    exists found: seq<seq<Name>>, starts: seq<int> ::
      Grouped(nodes, ValidEdges(Names(nodes), edges), flows, independent, found, starts)
  }

  method GroupByDependency(nodes: seq<Node>, edges: Edges) returns (flows: seq<Flow>, independent: seq<Node>)
    ensures IsGrouping(nodes, edges, flows, independent)
  {
    hide FlowsSoFar;
    hide FlowFits;
    hide Grouped;
    hide Neighbours;
    hide Closed;
    var names := Names(nodes);
    var byName := IndexNodes(nodes);
    var valid := FilterEdges(names, edges);
    var adj, touched := BuildAdjacency(valid);
    var seen: set<Name> := {};
    flows := [];
    ghost var found: seq<seq<Name>>, starts: seq<int> := [], [];
    NoFlowsYet(nodes, valid);
    for i := 0 to |nodes|
      invariant FlowsSoFar(nodes, valid, flows, found, starts, seen, i)
    {
      var name := nodes[i].name;
      if name in touched && name !in seen {
        SeenIsClosed(nodes, valid, flows, found, starts, seen, i);
        var flow, seen', comp := FlowFrom(nodes, byName, valid, adj, seen, i);
        AddFlow(nodes, valid, flows, found, starts, seen, seen', i, comp, flow);
        flows, seen := flows + [flow], seen';
        found, starts := found + [comp], starts + [i];
      } else {
        SkipNode(nodes, valid, flows, found, starts, seen, i);
      }
    }
    independent := FilterUntouched(nodes, valid, touched);
    NothingMissed(nodes, valid, flows, found, starts, seen);
  }

  /** The flow of node `i`, which is in none of the flows so far. */
  method FlowFrom(nodes: seq<Node>, byName: map<Name, Node>, valid: Edges, adj: map<Name, seq<Name>>, before: set<Name>, i: nat)
    returns (flow: Flow, seen: set<Name>, ghost comp: seq<Name>)
    requires i < |nodes| && nodes[i].name !in before && Neighbours(valid, nodes[i].name) != []
    requires forall x <- Names(nodes) :: x in byName && byName[x] == NodeNamed(nodes, x)
    requires forall e <- valid :: Valid(Names(nodes), e)
    requires Adjacent(valid, adj) && Closed(valid, before)
    ensures FlowFits(nodes, valid, comp, flow) && comp != [] && comp[0] == nodes[i].name
    ensures forall x <- comp :: x !in before
    ensures seen == before + Elements(comp) && Closed(valid, seen)
  {
    var component;
    ghost var from;
    component, seen, from := Explore(valid, adj, Names(nodes), nodes[i].name, before);
    comp := component;
    HasCompany(valid, nodes[i].name, comp);
    flow := MakeFlow(nodes, byName, valid, component, from);
  }

  ghost predicate FlowsSoFar(nodes: seq<Node>, valid: Edges, flows: seq<Flow>, found: seq<seq<Name>>, starts: seq<int>,
                             seen: set<Name>, i: nat)
  {
    && i <= |nodes| && |found| == |flows|
    && (forall f | 0 <= f < |flows| :: FlowFits(nodes, valid, found[f], flows[f]))
    && StartsInOrder(Names(nodes), found, starts)
    && (forall f | 0 <= f < |starts| :: starts[f] < i)
    && Separate(found) && AllFound(found, seen) && Closed(valid, seen)
    && (forall k | 0 <= k < i && Neighbours(valid, nodes[k].name) != [] :: nodes[k].name in seen)
  }

  lemma NothingMissed(nodes: seq<Node>, valid: Edges, flows: seq<Flow>, found: seq<seq<Name>>, starts: seq<int>, seen: set<Name>)
    requires FlowsSoFar(nodes, valid, flows, found, starts, seen, |nodes|)
    ensures Grouped(nodes, valid, flows, Untouched(nodes, valid), found, starts)
  {
    hide FlowFits;
    hide Neighbours;
    forall n <- nodes | Neighbours(valid, n.name) != [] ensures n.name in seen {
    }
  }

  lemma AddFlow(nodes: seq<Node>, valid: Edges, flows: seq<Flow>, found: seq<seq<Name>>, starts: seq<int>,
                before: set<Name>, seen: set<Name>, i: nat, comp: seq<Name>, flow: Flow)
    requires FlowsSoFar(nodes, valid, flows, found, starts, before, i) && i < |nodes|
    requires FlowFits(nodes, valid, comp, flow) && comp != [] && comp[0] == nodes[i].name
    requires forall x <- comp :: x !in before
    requires seen == before + Elements(comp) && Closed(valid, seen)
    ensures FlowsSoFar(nodes, valid, flows + [flow], found + [comp], starts + [i], seen, i + 1)
  {
    hide FlowFits;
    hide Neighbours;
    hide Joined;
    FlowFacts(nodes, valid, comp, flow);
    forall x <- comp ensures Neighbours(valid, x) != [] {
      MemberHasNeighbour(valid, x, comp);
    }
    AddFound(Names(nodes), found, starts, before, comp, i);
    assert comp[0] in comp;
  }

  lemma FlowFacts(nodes: seq<Node>, valid: Edges, comp: seq<Name>, flow: Flow)
    requires FlowFits(nodes, valid, comp, flow)
    ensures |comp| >= 2 && NoDup(comp) && IsComponent(valid, comp[0], comp)
  {
  }

  lemma SeenIsClosed(nodes: seq<Node>, valid: Edges, flows: seq<Flow>, found: seq<seq<Name>>, starts: seq<int>,
                      seen: set<Name>, i: nat)
    requires FlowsSoFar(nodes, valid, flows, found, starts, seen, i)
    ensures Closed(valid, seen)
  {
  }

  lemma NoFlowsYet(nodes: seq<Node>, valid: Edges)
    ensures FlowsSoFar(nodes, valid, [], [], [], {}, 0)
  {
  }

  lemma SkipNode(nodes: seq<Node>, valid: Edges, flows: seq<Flow>, found: seq<seq<Name>>, starts: seq<int>, seen: set<Name>, i: nat)
    requires FlowsSoFar(nodes, valid, flows, found, starts, seen, i) && i < |nodes|
    requires Neighbours(valid, nodes[i].name) == [] || nodes[i].name in seen
    ensures FlowsSoFar(nodes, valid, flows, found, starts, seen, i + 1)
  {
  }

  lemma MemberHasNeighbour(valid: Edges, x: Name, comp: seq<Name>)
    requires x in comp && |comp| >= 2 && NoDup(comp) && IsComponent(valid, comp[0], comp)
    ensures Neighbours(valid, x) != []
  {
    AnyMemberIsARoot(valid, comp[0], comp, x);
    var y := if comp[0] == x then comp[1] else comp[0];
    assert y in comp && y != x;
    var p :| IsWalk(valid, p) && p[0] == x && p[|p| - 1] == y;
    assert Linked(valid, x, p[1]);
    assert p[1] in Neighbours(valid, x);
  }

  method FilterUntouched(nodes: seq<Node>, ghost valid: Edges, touched: set<Name>) returns (independent: seq<Node>)
    requires forall a :: a in touched <==> Neighbours(valid, a) != []
    ensures independent == Untouched(nodes, valid)
  {
    independent := [];
    for i := 0 to |nodes|
      invariant independent == Untouched(nodes[..i], valid)
    {
      assert nodes[..i + 1][..i] == nodes[..i];
      if nodes[i].name !in touched {
        independent := independent + [nodes[i]];
      }
    }
    assert nodes[..|nodes|] == nodes;
  }

  /** A touched node always has a neighbour, so a flow has at least two nodes. */
  lemma HasCompany(valid: Edges, name: Name, comp: seq<Name>)
    requires Neighbours(valid, name) != [] && IsComponent(valid, name, comp)
    requires forall e <- valid :: e.0 != e.1
    ensures |comp| >= 2
  {
    var b := Neighbours(valid, name)[0];
    assert b in Neighbours(valid, name) && Linked(valid, name, b);
    JoinedToItself(valid, name);
    JoinedStep(valid, name, name, b);
    assert name in comp && b in comp && b != name;
  }

  lemma AddFound(names: seq<Name>, found: seq<seq<Name>>, starts: seq<int>, before: set<Name>, comp: seq<Name>, i: nat)
    requires StartsInOrder(names, found, starts) && Separate(found) && AllFound(found, before)
    requires (forall f | 0 <= f < |starts| :: starts[f] < i) && i < |names|
    requires comp != [] && comp[0] == names[i]
    requires forall x <- comp :: x !in before
    requires forall k | 0 <= k < i :: names[k] !in comp
    ensures StartsInOrder(names, found + [comp], starts + [i])
    ensures Separate(found + [comp]) && AllFound(found + [comp], before + Elements(comp))
  {
    var found' := found + [comp];
    forall f, g, x | 0 <= f < g < |found'| && x in found'[f] ensures x !in found'[g] {
      if g == |found| {
        assert x in found[f];
        assert x in before;
      }
    }
    forall x ensures x in before + Elements(comp) <==> exists f | 0 <= f < |found'| :: x in found'[f] {
      if x in before {
        var f :| 0 <= f < |found| && x in found[f];
        assert x in found'[f];
      }
      if x in comp {
        assert x in found'[|found|];
      }
    }
  }

  method MakeFlow(nodes: seq<Node>, byName: map<Name, Node>, valid: Edges, comp: seq<Name>, ghost from: seq<int>)
    returns (flow: Flow)
    requires forall x <- Names(nodes) :: x in byName && byName[x] == NodeNamed(nodes, x)
    requires |comp| >= 2 && NoDup(comp) && IsComponent(valid, comp[0], comp) && BreadthFirst(valid, comp, from)
    requires forall x <- comp :: x in Names(nodes)
    ensures FlowFits(nodes, valid, comp, flow)
  {
    hide Rank;
    hide Neighbours;
    hide Leftover;
    hide BreadthFirst;
    hide IsComponent;
    hide Cyclic;
    hide Greedy;
    hide Exhausted;
    var compEdges := Inside(valid, comp);
    var ordered, placed := TopoOrder(comp, compEdges);
    assert OrdersFlow(comp, compEdges, ordered);
    forall x <- ordered ensures x in Names(nodes) {
      assert x in comp;
    }
    var flowNodes := NodesNamed(nodes, byName, ordered);
    flow := Flow(ordered[0], ordered[|ordered| - 1], flowNodes, compEdges);
  }

  method NodesNamed(ghost nodes: seq<Node>, byName: map<Name, Node>, ordered: seq<Name>) returns (named: seq<Node>)
    requires forall x <- Names(nodes) :: x in byName && byName[x] == NodeNamed(nodes, x)
    requires forall x <- ordered :: x in Names(nodes)
    ensures Names(named) == ordered
    ensures forall k | 0 <= k < |named| :: named[k].name in Names(nodes) && named[k] == NodeNamed(nodes, named[k].name)
  {
    forall k | 0 <= k < |ordered| ensures ordered[k] in Names(nodes) {
      assert ordered[k] in ordered;
    }
    named := seq(|ordered|, k requires 0 <= k < |ordered| && ordered[k] in byName => byName[ordered[k]]);
    assert forall k | 0 <= k < |ordered| :: named[k] == NodeNamed(nodes, ordered[k]);
    assert Names(named) == ordered;
  }

  method IndexNodes(nodes: seq<Node>) returns (byName: map<Name, Node>)
    ensures forall x <- Names(nodes) :: x in byName && byName[x] == NodeNamed(nodes, x)
  {
    byName := map[];
    for i := 0 to |nodes|
      invariant forall x <- Names(nodes[..i]) :: x in byName && byName[x] == NodeNamed(nodes[..i], x)
    {
      assert Names(nodes[..i + 1])[..i] == Names(nodes[..i]);
      byName := byName[nodes[i].name := nodes[i]];
    }
    assert nodes[..|nodes|] == nodes;
  }

  method FilterEdges(names: seq<Name>, edges: Edges) returns (valid: Edges)
    ensures valid == ValidEdges(names, edges)
  {
    valid := [];
    for i := 0 to |edges|
      invariant valid == ValidEdges(names, edges[..i])
    {
      assert edges[..i + 1][..i] == edges[..i];
      if Valid(names, edges[i]) {
        valid := valid + [edges[i]];
      }
    }
    assert edges[..|edges|] == edges;
  }
}
