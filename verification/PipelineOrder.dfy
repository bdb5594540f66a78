/** Upstream-to-downstream order of one dependency flow: Kahn's algorithm that always takes
    the ready node of least rank, with a fallback for cycles (web/lib/pipeline-graph.ts). */
module PipelineOrder {
  import opened Graph
  import opened Sequences

  type Name = string

  type Edges = seq<Edge<Name>>

  /** The rank of a node is its position in the given list. */
  function Rank(nodes: seq<Name>, x: Name): (r: nat)
    requires x in nodes
    ensures r < |nodes| && nodes[r] == x
  {
    if nodes[|nodes| - 1] == x then |nodes| - 1 else Rank(nodes[..|nodes| - 1], x)
  }

  function Leftover(nodes: seq<Name>, done: seq<Name>): (rest: seq<Name>)
    ensures forall x :: x in rest <==> x in nodes && x !in done
  {
    if nodes == [] then []
    else
      var last := nodes[|nodes| - 1];
      Leftover(nodes[..|nodes| - 1], done) + (if last in done then [] else [last])
  }

  // --------------------------------------------------------- what is promised

  /** Not placed yet, and everything upstream of it is. */
  ghost predicate Available(nodes: seq<Name>, es: Edges, placed: seq<Name>, x: Name) {
    x in nodes && x !in placed && forall e <- es | e.1 == x :: e.0 in placed
  }

  ghost predicate LeastAvailable(nodes: seq<Name>, es: Edges, placed: seq<Name>, x: Name) {
    && Available(nodes, es, placed, x)
    && forall y {:trigger Available(nodes, es, placed, y)} | Available(nodes, es, placed, y) :: Rank(nodes, x) <= Rank(nodes, y)
  }

  ghost predicate Greedy(nodes: seq<Name>, es: Edges, r: seq<Name>) {
    forall k | 0 <= k < |r| :: LeastAvailable(nodes, es, r[..k], r[k])
  }

  ghost predicate Exhausted(nodes: seq<Name>, es: Edges, r: seq<Name>) {
    forall y :: !Available(nodes, es, r, y)
  }

  /** A topological order of the nodes. */
  ghost predicate TopologicalOrder(nodes: seq<Name>, es: Edges, o: seq<Name>) {
    Permutes(o, nodes) && Respects(es, o)
  }

  /** `r` comes no later than `o`: at the first difference it has the smaller rank. */
  ghost predicate NoLater(nodes: seq<Name>, r: seq<Name>, o: seq<Name>)
    requires forall x <- r :: x in nodes
    requires forall x <- o :: x in nodes
  {
    r == o || exists k | 0 <= k < |r| && k < |o| ::
      r[..k] == o[..k] && Rank(nodes, r[k]) < Rank(nodes, o[k])
  }

  lemma GreedyHasNoDup(nodes: seq<Name>, es: Edges, r: seq<Name>)
    requires Greedy(nodes, es, r)
    ensures NoDup(r) && forall x <- r :: x in nodes
  {
    forall i, j | 0 <= i < j < |r| ensures r[i] != r[j] {
      assert Available(nodes, es, r[..j], r[j]);
      assert r[..j][i] == r[i];
    }
    forall k | 0 <= k < |r| ensures r[k] in nodes {
      assert Available(nodes, es, r[..k], r[k]);
    }
  }

  lemma GreedyRespects(nodes: seq<Name>, es: Edges, r: seq<Name>)
    requires Greedy(nodes, es, r)
    ensures Respects(es, r)
  {
    GreedyHasNoDup(nodes, es, r);
    forall i, j | 0 <= i < |r| && 0 <= j < |r| && (r[i], r[j]) in es
      ensures i < j
    {
      assert Available(nodes, es, r[..j], r[j]);
      assert (r[i], r[j]).0 in r[..j];
      var k :| 0 <= k < j && r[k] == r[i];
      assert k == i;
    }
  }

  lemma OrderedNodeIsAvailable(nodes: seq<Name>, es: Edges, o: seq<Name>, k: nat)
    requires TopologicalOrder(nodes, es, o) && Within(es, nodes) && k < |o|
    ensures Available(nodes, es, o[..k], o[k])
  {
    assert o[k] in o;
    forall e <- es | e.1 == o[k] ensures e.0 in o[..k] {
      assert e.0 in o;
      var i :| 0 <= i < |o| && o[i] == e.0;
      assert (o[i], o[k]) in es;
    }
  }

  lemma FirstDifference(r: seq<Name>, o: seq<Name>) returns (k: nat)
    requires |r| == |o|
    ensures k <= |r| && r[..k] == o[..k]
    ensures k < |r| ==> r[k] != o[k]
    ensures k == |r| ==> r == o
  {
    k := 0;
    while k < |r| && r[k] == o[k]
      invariant k <= |r| && r[..k] == o[..k]
    {
      assert r[..k + 1] == r[..k] + [r[k]] && o[..k + 1] == o[..k] + [o[k]];
      k := k + 1;
    }
    assert r[..|r|] == r && o[..|o|] == o;
  }

  lemma LeastWins(nodes: seq<Name>, es: Edges, placed: seq<Name>, x: Name, y: Name)
    requires LeastAvailable(nodes, es, placed, x) && Available(nodes, es, placed, y) && x != y
    ensures Rank(nodes, x) < Rank(nodes, y)
  {
  }

  /** A complete greedy order is the rank-lexicographically least topological order. */
  lemma GreedyIsLeast(nodes: seq<Name>, es: Edges, r: seq<Name>, o: seq<Name>)
    requires Within(es, nodes)
    requires Greedy(nodes, es, r) && |r| == |nodes|
    requires TopologicalOrder(nodes, es, o)
    ensures (forall x <- r :: x in nodes) && (forall x <- o :: x in nodes) && NoLater(nodes, r, o)
  {
    GreedyHasNoDup(nodes, es, r);
    var k := FirstDifference(r, o);
    if k < |r| {
      OrderedNodeIsAvailable(nodes, es, o, k);
      LeastWins(nodes, es, r[..k], r[k], o[k]);
    }
  }

  lemma NothingLeft(nodes: seq<Name>, es: Edges, r: seq<Name>)
    requires NoDup(nodes) && Within(es, nodes) && Greedy(nodes, es, r) && Leftover(nodes, r) == []
    ensures !Cyclic(es)
  {
    forall x <- nodes ensures x in r {
      assert x !in Leftover(nodes, r);
    }
    GreedyRespects(nodes, es, r);
    OrderMeansAcyclic(es, r);
  }

  lemma SomethingLeft(nodes: seq<Name>, es: Edges, r: seq<Name>)
    requires Within(es, nodes) && Exhausted(nodes, es, r) && Leftover(nodes, r) != []
    ensures Cyclic(es)
  {
    var stuck := Elements(Leftover(nodes, r));
    assert Leftover(nodes, r)[0] in stuck;
    forall b | b in stuck ensures HasPredecessor(es, stuck, b) {
      assert b in nodes && !Available(nodes, es, r, b);
      var e :| e in es && e.1 == b && e.0 !in r;
      assert e.0 in Leftover(nodes, r);
      assert (e.0, b) in es;
    }
    StuckMeansCycle(es, stuck);
  }

  /** When nothing is available any more, either everything is placed or there is a cycle. */
  lemma ExhaustedMeans(nodes: seq<Name>, es: Edges, r: seq<Name>)
    requires NoDup(nodes) && Within(es, nodes)
    requires Greedy(nodes, es, r) && Exhausted(nodes, es, r)
    ensures Cyclic(es) <==> Leftover(nodes, r) != []
  {
    if Leftover(nodes, r) == [] {
      NothingLeft(nodes, es, r);
    } else {
      SomethingLeft(nodes, es, r);
    }
  }

  lemma {:induction false} LeftoverKeepsOrder(nodes: seq<Name>, done: seq<Name>)
    requires NoDup(nodes)
    ensures NoDup(Leftover(nodes, done))
    ensures forall i, j | 0 <= i < j < |Leftover(nodes, done)| ::
              Rank(nodes, Leftover(nodes, done)[i]) < Rank(nodes, Leftover(nodes, done)[j])
    decreases |nodes|
  {
    if nodes != [] {
      var init := nodes[..|nodes| - 1];
      LeftoverKeepsOrder(init, done);
      assert forall x <- Leftover(init, done) :: x in init;
    }
  }

  lemma AppendedIsPermutation(nodes: seq<Name>, r: seq<Name>)
    requires NoDup(nodes) && NoDup(r) && forall x <- r :: x in nodes
    ensures Permutes(r + Leftover(nodes, r), nodes)
  {
    var rest := Leftover(nodes, r);
    LeftoverKeepsOrder(nodes, r);
    assert forall k | 0 <= k < |rest| :: rest[k] in rest;
    assert forall k | 0 <= k < |r| :: r[k] in r;
    assert NoDup(r + rest);
    forall x ensures x in r + rest <==> x in nodes {
    }
    NoDupSize(r + rest, Elements(nodes));
    NoDupSize(nodes, Elements(r + rest));
  }

  // ------------------------------------------------------------------ the loop

  ghost predicate Counted(nodes: seq<Name>, es: Edges, placed: seq<Name>, indeg: map<Name, int>, pending: seq<Name>) {
    forall m <- nodes :: m in indeg && indeg[m] == Incoming(es, Elements(placed), m) + Count(pending, m)
  }

  ghost predicate ReadyAreListed(nodes: seq<Name>, all: seq<Name>, indeg: map<Name, int>) {
    NoDup(all) && forall m :: m in all <==> m in nodes && m in indeg && indeg[m] == 0
  }

  lemma ReadyAreAvailable(nodes: seq<Name>, es: Edges, placed: seq<Name>, ready: seq<Name>, indeg: map<Name, int>, x: Name)
    requires Counted(nodes, es, placed, indeg, []) && ReadyAreListed(nodes, placed + ready, indeg)
    ensures x in ready <==> Available(nodes, es, placed, x)
  {
    if x in ready {
      var k :| 0 <= k < |ready| && ready[k] == x;
      assert (placed + ready)[|placed| + k] == x;
      assert x in placed + ready;
      forall i | 0 <= i < |placed| ensures placed[i] != x {
        assert (placed + ready)[i] != (placed + ready)[|placed| + k];
      }
    }
    IncomingZero(es, Elements(placed), x);
    if x in nodes && x !in placed {
      assert x in placed + ready <==> indeg[x] == 0;
    }
  }

  lemma PlaceNext(nodes: seq<Name>, es: Edges, placed: seq<Name>, ready: seq<Name>, indeg: map<Name, int>)
    requires Counted(nodes, es, placed, indeg, []) && ReadyAreListed(nodes, placed + ready, indeg) && ready != []
    ensures Counted(nodes, es, placed + [ready[0]], indeg, Targets(es, ready[0]))
    ensures ReadyAreListed(nodes, placed + [ready[0]] + ready[1..], indeg)
    ensures ready[0] in nodes && ready[0] !in placed
  {
    var n := ready[0];
    assert placed + [n] + ready[1..] == placed + ready;
    ReadyAreAvailable(nodes, es, placed, ready, indeg, n);
    assert Elements(placed + [n]) == Elements(placed) + {n};
    forall m <- nodes
      ensures indeg[m] == Incoming(es, Elements(placed + [n]), m) + Count(Targets(es, n), m)
    {
      FinishCounts(es, Elements(placed), n, m);
    }
  }

  lemma NextIsLeast(nodes: seq<Name>, es: Edges, placed: seq<Name>, ready: seq<Name>, indeg: map<Name, int>)
    requires Counted(nodes, es, placed, indeg, []) && ReadyAreListed(nodes, placed + ready, indeg) && ready != []
    requires Greedy(nodes, es, placed)
    requires forall x <- ready :: x in nodes
    requires forall k | 0 <= k < |ready| :: Rank(nodes, ready[0]) <= Rank(nodes, ready[k])
    ensures Greedy(nodes, es, placed + [ready[0]])
  {
    var n := ready[0];
    ReadyAreAvailable(nodes, es, placed, ready, indeg, n);
    forall y | Available(nodes, es, placed, y) ensures Rank(nodes, n) <= Rank(nodes, y) {
      ReadyAreAvailable(nodes, es, placed, ready, indeg, y);
    }
    forall k | 0 <= k < |placed + [n]|
      ensures LeastAvailable(nodes, es, (placed + [n])[..k], (placed + [n])[k])
    {
      assert (placed + [n])[..k] == placed[..k];
      assert placed[..|placed|] == placed;
    }
  }

  /** One pass of the inner loop. */
  lemma LowerOne(nodes: seq<Name>, es: Edges, placed: seq<Name>, all: seq<Name>, indeg: map<Name, int>,
                 targets: seq<Name>, j: nat)
    requires j < |targets| && targets[j] in nodes
    requires Counted(nodes, es, placed, indeg, targets[j..]) && ReadyAreListed(nodes, all, indeg)
    ensures var m := targets[j];
            && m in indeg && indeg[m] > 0 && m !in all
            && Counted(nodes, es, placed, indeg[m := indeg[m] - 1], targets[j + 1..])
            && ReadyAreListed(nodes, if indeg[m] == 1 then all + [m] else all, indeg[m := indeg[m] - 1])
  {
    var m := targets[j];
    CountTail(targets, j, m);
    forall x <- nodes | x != m
      ensures indeg[x] == Incoming(es, Elements(placed), x) + Count(targets[j + 1..], x)
    {
      CountTail(targets, j, x);
    }
    assert m !in all;
  }

  /** Array.sort by rank; ranks are distinct, so there is one result. */
  method SortByRank(ghost nodes: seq<Name>, rank: map<Name, nat>, ready: seq<Name>) returns (sorted: seq<Name>)
    requires forall x <- nodes :: x in rank && rank[x] == Rank(nodes, x)
    requires NoDup(ready) && forall x <- ready :: x in nodes
    ensures NoDup(sorted) && |sorted| == |ready| && (forall x :: x in sorted <==> x in ready)
    ensures forall p, q | 0 <= p < q < |sorted| :: Rank(nodes, sorted[p]) < Rank(nodes, sorted[q])
  {
    hide Rank;
    sorted := [];
    for i := 0 to |ready|
      invariant |sorted| == i
      invariant forall x :: x in sorted <==> x in ready[..i]
      invariant forall p | 0 <= p < i :: sorted[p] in nodes
      invariant forall p, q | 0 <= p < q < i :: Rank(nodes, sorted[p]) < Rank(nodes, sorted[q])
    {
      var x := ready[i];
      assert x !in ready[..i];
      var k := 0;
      while k < i && rank[sorted[k]] < rank[x]
        invariant k <= i
        invariant forall p | 0 <= p < k :: Rank(nodes, sorted[p]) < Rank(nodes, x)
      {
        k := k + 1;
      }
      ghost var before := sorted;
      Splice(nodes, before, x, k);
      sorted := sorted[..k] + [x] + sorted[k..];
      assert ready[..i + 1] == ready[..i] + [x];
    }
    assert ready[..|ready|] == ready;
  }

  lemma Splice(nodes: seq<Name>, s: seq<Name>, x: Name, k: nat)
    requires k <= |s| && x in nodes && x !in s && forall p | 0 <= p < |s| :: s[p] in nodes
    requires forall p, q | 0 <= p < q < |s| :: Rank(nodes, s[p]) < Rank(nodes, s[q])
    requires forall p | 0 <= p < k :: Rank(nodes, s[p]) < Rank(nodes, x)
    requires k < |s| ==> Rank(nodes, s[k]) >= Rank(nodes, x)
    ensures var t := s[..k] + [x] + s[k..];
            && (forall y :: y in t <==> y in s || y == x)
            && (forall p | 0 <= p < |t| :: t[p] in nodes)
            && (forall p, q | 0 <= p < q < |t| :: Rank(nodes, t[p]) < Rank(nodes, t[q]))
  {
    hide Rank;
    var t := s[..k] + [x] + s[k..];
    assert s == s[..k] + s[k..];
    forall q | k <= q < |s| ensures Rank(nodes, x) < Rank(nodes, s[q]) {
      assert s[q] in s;
      assert nodes[Rank(nodes, s[q])] != nodes[Rank(nodes, x)];
    }
  }

  method RankMap(nodes: seq<Name>) returns (rank: map<Name, nat>)
    ensures forall x <- nodes :: x in rank && rank[x] == Rank(nodes, x)
  {
    rank := map[];
    for i := 0 to |nodes|
      invariant forall x <- nodes[..i] :: x in rank && rank[x] == Rank(nodes[..i], x)
    {
      assert nodes[..i + 1][..i] == nodes[..i];
      rank := rank[nodes[i] := i];
    }
    assert nodes[..|nodes|] == nodes;
  }

  /** The in-degrees and the successor lists. */
  method CountEdges(nodes: seq<Name>, es: Edges) returns (indeg: map<Name, int>, out: map<Name, seq<Name>>)
    requires Within(es, nodes)
    ensures Counted(nodes, es, [], indeg, []) && ListsTargets(es, out)
  {
    indeg := map x | x in nodes :: 0;
    out := map x | x in nodes :: [];
    for i := 0 to |es|
      invariant Counted(nodes, es[..i], [], indeg, []) && ListsTargets(es[..i], out)
    {
      var e := es[i];
      assert es[..i + 1][..i] == es[..i];
      out := out[e.0 := (if e.0 in out then out[e.0] else []) + [e.1]];
      indeg := indeg[e.1 := (if e.1 in indeg then indeg[e.1] else 0) + 1];
    }
    assert es[..|es|] == es;
  }

  method Roots(nodes: seq<Name>, ghost es: Edges, indeg: map<Name, int>) returns (ready: seq<Name>)
    requires NoDup(nodes) && Counted(nodes, es, [], indeg, [])
    ensures ReadyAreListed(nodes, [] + ready, indeg)
  {
    ready := [];
    for i := 0 to |nodes|
      invariant NoDup(ready)
      invariant forall m :: m in ready <==> m in nodes[..i] && m in indeg && indeg[m] == 0
    {
      assert nodes[..i + 1] == nodes[..i] + [nodes[i]];
      assert nodes[i] in nodes && nodes[i] !in nodes[..i];
      if indeg[nodes[i]] == 0 {
        ready := ready + [nodes[i]];
      }
    }
    assert nodes[..|nodes|] == nodes && [] + ready == ready;
  }

  lemma ReadyFacts(nodes: seq<Name>, placed: seq<Name>, ready: seq<Name>, indeg: map<Name, int>)
    requires ReadyAreListed(nodes, placed + ready, indeg)
    ensures NoDup(ready) && forall x <- ready :: x in nodes
  {
    forall i, j | 0 <= i < j < |ready| ensures ready[i] != ready[j] {
      assert (placed + ready)[|placed| + i] != (placed + ready)[|placed| + j];
    }
    forall x <- ready ensures x in nodes {
      assert x in placed + ready;
    }
  }

  lemma Reordered(nodes: seq<Name>, placed: seq<Name>, ready: seq<Name>, sorted: seq<Name>, indeg: map<Name, int>)
    requires ReadyAreListed(nodes, placed + ready, indeg)
    requires NoDup(sorted) && forall x :: x in sorted <==> x in ready
    ensures ReadyAreListed(nodes, placed + sorted, indeg)
  {
    forall p, q | 0 <= p < q < |placed + sorted| ensures (placed + sorted)[p] != (placed + sorted)[q] {
      if p < |placed| {
        if q < |placed| {
          assert (placed + ready)[p] != (placed + ready)[q];
        } else {
          assert sorted[q - |placed|] in ready;
          var k :| 0 <= k < |ready| && ready[k] == sorted[q - |placed|];
          assert (placed + ready)[p] != (placed + ready)[|placed| + k];
        }
      }
    }
    forall m ensures m in placed + sorted <==> m in placed + ready {
    }
  }

  lemma GreedyFits(nodes: seq<Name>, es: Edges, r: seq<Name>)
    requires Greedy(nodes, es, r)
    ensures |r| <= |nodes|
  {
    GreedyHasNoDup(nodes, es, r);
    NoDupSize(r, Elements(nodes));
    assert |Elements(nodes)| <= |nodes| by {
      ElementsAtMost(nodes);
    }
  }

  /** The inner loop: lowers the in-degrees of the placed node's successors. */
  method Lower(ghost nodes: seq<Name>, ghost es: Edges, ghost placed: seq<Name>, were: seq<Name>,
               indegs: map<Name, int>, targets: seq<Name>)
    returns (ready: seq<Name>, indeg: map<Name, int>)
    requires Counted(nodes, es, placed, indegs, targets) && ReadyAreListed(nodes, placed + were, indegs)
    requires forall m <- targets :: m in nodes
    ensures Counted(nodes, es, placed, indeg, []) && ReadyAreListed(nodes, placed + ready, indeg)
  {
    hide Counted;
    hide ReadyAreListed;
    ready, indeg := were, indegs;
    assert targets[0..] == targets;
    for j := 0 to |targets|
      invariant Counted(nodes, es, placed, indeg, targets[j..]) && ReadyAreListed(nodes, placed + ready, indeg)
    {
      var m := targets[j];
      LowerOne(nodes, es, placed, placed + ready, indeg, targets, j);
      assert m in nodes;
      assert placed + (ready + [m]) == placed + ready + [m];
      indeg := indeg[m := indeg[m] - 1];
      if indeg[m] == 0 {
        ready := ready + [m];
      }
    }
    assert targets[|targets|..] == [];
  }

  lemma PlaceLeast(nodes: seq<Name>, es: Edges, placed: seq<Name>, ready: seq<Name>, indeg: map<Name, int>)
    requires Within(es, nodes) && Greedy(nodes, es, placed)
    requires Counted(nodes, es, placed, indeg, []) && ReadyAreListed(nodes, placed + ready, indeg) && ready != []
    requires forall x <- ready :: x in nodes
    requires forall p, q | 0 <= p < q < |ready| :: Rank(nodes, ready[p]) < Rank(nodes, ready[q])
    ensures Greedy(nodes, es, placed + [ready[0]]) && |placed| < |nodes|
    ensures Counted(nodes, es, placed + [ready[0]], indeg, Targets(es, ready[0]))
    ensures ReadyAreListed(nodes, placed + [ready[0]] + ready[1..], indeg)
    ensures ready[0] !in placed && Elements(placed) + {ready[0]} == Elements(placed + [ready[0]])
    ensures forall m <- Targets(es, ready[0]) :: m in nodes
  {
    NextIsLeast(nodes, es, placed, ready, indeg);
    PlaceNext(nodes, es, placed, ready, indeg);
    GreedyFits(nodes, es, placed + [ready[0]]);
    TargetsAre(es, ready[0]);
  }

  /** The order of one flow. `placed` is the part that Kahn's loop places; the rest, in input order,
      is there exactly when the flow has a cycle. */
  method TopoOrder(nodes: seq<Name>, edges: Edges) returns (result: seq<Name>, ghost placed: seq<Name>)
    requires NoDup(nodes) && Within(edges, nodes)
    ensures Permutes(result, nodes)
    ensures result == placed + Leftover(nodes, placed)
    ensures Greedy(nodes, edges, placed) && Exhausted(nodes, edges, placed)
    ensures Cyclic(edges) <==> placed != result
    ensures !Cyclic(edges) ==> TopologicalOrder(nodes, edges, result)
  {
    var rank := RankMap(nodes);
    var indeg, out := CountEdges(nodes, edges);
    var ready := Roots(nodes, edges, indeg);
    var done: set<Name> := {};
    result, placed := [], [];
    while |ready| > 0
      invariant placed == result && done == Elements(result)
      invariant Counted(nodes, edges, result, indeg, []) && ReadyAreListed(nodes, result + ready, indeg)
      invariant Greedy(nodes, edges, result)
      decreases |nodes| - |result|
    {
      ReadyFacts(nodes, result, ready, indeg);
      var sorted := SortByRank(nodes, rank, ready);
      Reordered(nodes, result, ready, sorted, indeg);
      ready := sorted;
      ReadyFacts(nodes, result, ready, indeg);
      var n := ready[0];
      PlaceLeast(nodes, edges, result, ready, indeg);
      assert n !in done;    // so the loop's own check never skips a node
      done := done + {n};
      result, placed := result + [n], placed + [n];
      ready, indeg := Lower(nodes, edges, result, ready[1..], indeg, if n in out then out[n] else []);
    }
    assert result + ready == result;
    NoneReady(nodes, edges, result, indeg);
    result := AppendLeftover(nodes, edges, result, done);
  }

  lemma NoneReady(nodes: seq<Name>, es: Edges, placed: seq<Name>, indeg: map<Name, int>)
    requires Counted(nodes, es, placed, indeg, []) && ReadyAreListed(nodes, placed, indeg)
    ensures Exhausted(nodes, es, placed)
  {
    assert placed + [] == placed;
    forall y ensures !Available(nodes, es, placed, y) {
      ReadyAreAvailable(nodes, es, placed, [], indeg, y);
    }
  }

  /** The cycle fallback. */
  method AppendLeftover(nodes: seq<Name>, ghost es: Edges, placed: seq<Name>, done: set<Name>)
    returns (result: seq<Name>)
    requires NoDup(nodes) && Within(es, nodes) && done == Elements(placed)
    requires Greedy(nodes, es, placed) && Exhausted(nodes, es, placed)
    ensures Permutes(result, nodes)
    ensures result == placed + Leftover(nodes, placed)
    ensures Cyclic(es) <==> placed != result
    ensures !Cyclic(es) ==> TopologicalOrder(nodes, es, result)
  {
    result := placed;
    for i := 0 to |nodes|
      invariant result == placed + Leftover(nodes[..i], placed)
    {
      assert nodes[..i + 1][..i] == nodes[..i];
      if nodes[i] !in done {
        result := result + [nodes[i]];
      }
    }
    assert nodes[..|nodes|] == nodes;
    GreedyHasNoDup(nodes, es, placed);
    ExhaustedMeans(nodes, es, placed);
    AppendedIsPermutation(nodes, placed);
    GreedyRespects(nodes, es, placed);
  }
}
