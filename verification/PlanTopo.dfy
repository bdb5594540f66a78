/** The local runner's job order inside one stage: Kahn's algorithm over `needs`
    with a FIFO queue (cli/internal/runlocal/plan.go). */
module PlanTopo {
  import opened Wrappers
  import opened Graph
  import opened Sequences

  datatype Job = Job(name: string, needs: seq<string>)

  /** The name index; a repeated name keeps its last position. */
  function Index(jobs: seq<Job>): (index: map<string, nat>)
    ensures forall s <- index :: index[s] < |jobs| && jobs[index[s]].name == s
  {
    if jobs == [] then map[]
    else
      Index(jobs[..|jobs| - 1])[jobs[|jobs| - 1].name := |jobs| - 1]
  }

  lemma {:induction false} Indexed(jobs: seq<Job>, i: nat)
    requires i < |jobs|
    ensures jobs[i].name in Index(jobs)
    decreases |jobs|
  {
    if i < |jobs| - 1 {
      Indexed(jobs[..|jobs| - 1], i);
    }
  }

  /** One edge per need that names a job of the stage; other needs are ignored. */
  function NeedEdges(index: map<string, nat>, needs: seq<string>, i: nat): seq<Edge<nat>> {
    if needs == [] then []
    else
      var last := needs[|needs| - 1];
      NeedEdges(index, needs[..|needs| - 1], i) + (if last in index then [(index[last], i)] else [])
  }

  function EdgesFrom(index: map<string, nat>, jobs: seq<Job>): seq<Edge<nat>> {
    if jobs == [] then []
    else EdgesFrom(index, jobs[..|jobs| - 1]) + NeedEdges(index, jobs[|jobs| - 1].needs, |jobs| - 1)
  }

  function Edges(jobs: seq<Job>): seq<Edge<nat>> {
    EdgesFrom(Index(jobs), jobs)
  }

  function Positions(n: nat): seq<nat> {
    seq(n, k => k)
  }

  // ------------------------------------------------------- what the edges say

  lemma {:induction false} NeedEdgesAre(index: map<string, nat>, needs: seq<string>, i: nat)
    ensures forall e :: e in NeedEdges(index, needs, i) <==>
                        e.1 == i && exists s <- needs :: s in index && index[s] == e.0
    decreases |needs|
  {
    if needs != [] {
      var init := needs[..|needs| - 1];
      NeedEdgesAre(index, init, i);
      assert needs == init + [needs[|needs| - 1]];
    }
  }

  lemma {:induction false} EdgesFromAre(index: map<string, nat>, jobs: seq<Job>)
    ensures forall e :: e in EdgesFrom(index, jobs) <==>
                        e.1 < |jobs| && exists s <- jobs[e.1].needs :: s in index && index[s] == e.0
    decreases |jobs|
  {
    if jobs != [] {
      var n := |jobs| - 1;
      EdgesFromAre(index, jobs[..n]);
      NeedEdgesAre(index, jobs[n].needs, n);
    }
  }

  ghost predicate SortedByTarget(es: seq<Edge<nat>>) {
    forall i, j | 0 <= i < j < |es| :: es[i].1 <= es[j].1
  }

  lemma {:induction false} EdgesAreSorted(index: map<string, nat>, jobs: seq<Job>)
    ensures SortedByTarget(EdgesFrom(index, jobs))
    decreases |jobs|
  {
    if jobs != [] {
      var n := |jobs| - 1;
      EdgesAreSorted(index, jobs[..n]);
      EdgesFromAre(index, jobs[..n]);
      NeedEdgesAre(index, jobs[n].needs, n);
      var a, b := EdgesFrom(index, jobs[..n]), NeedEdges(index, jobs[n].needs, n);
      assert forall k | 0 <= k < |a| :: a[k] in a;
      assert forall k | 0 <= k < |b| :: b[k] in b;
    }
  }

  lemma {:induction false} TargetsClimb(es: seq<Edge<nat>>, v: nat)
    requires SortedByTarget(es)
    ensures forall i, j | 0 <= i < j < |Targets(es, v)| :: Targets(es, v)[i] <= Targets(es, v)[j]
    decreases |es|
  {
    if es != [] {
      var init := es[..|es| - 1];
      TargetsClimb(init, v);
      TargetsAre(init, v);
      forall t <- Targets(init, v) ensures t <= es[|es| - 1].1 {
        var k :| 0 <= k < |init| && init[k] == (v, t);
        assert es[k].1 <= es[|es| - 1].1;
      }
      assert forall k | 0 <= k < |Targets(init, v)| :: Targets(init, v)[k] in Targets(init, v);
    }
  }

  // ------------------------------------------------------------ the FIFO order

  /** `k` is the position of the last need of `v` in `order`, -1 when it has none. */
  ghost predicate LastNeed(es: seq<Edge<nat>>, order: seq<nat>, v: nat, k: int) {
    && -1 <= k < |order|
    && (k >= 0 ==> (order[k], v) in es)
    && forall e <- es | e.1 == v :: e.0 in order[..k + 1]
  }

  /** Jobs come in the order in which their last need finished; ties keep the declaration order. */
  ghost predicate Fifo(es: seq<Edge<nat>>, order: seq<nat>, all: seq<nat>, last: seq<int>) {
    && |last| == |all|
    && (forall p | 0 <= p < |all| :: LastNeed(es, order, all[p], last[p]) && last[p] < p)
    && (forall p, q | 0 <= p < q < |all| :: last[p] < last[q] || (last[p] == last[q] && all[p] < all[q]))
  }

  ghost predicate FifoOrder(es: seq<Edge<nat>>, n: nat, order: seq<nat>) {
    Permutes(order, Positions(n)) && exists last: seq<int> :: Fifo(es, order, order, last)
  }

  lemma FifoRespects(es: seq<Edge<nat>>, order: seq<nat>, last: seq<int>)
    requires NoDup(order) && Fifo(es, order, order, last)
    ensures Respects(es, order)
  {
    forall i, j | 0 <= i < |order| && 0 <= j < |order| && (order[i], order[j]) in es
      ensures i < j
    {
      assert LastNeed(es, order, order[j], last[j]);
      assert (order[i], order[j]).0 in order[..last[j] + 1];
      var k :| 0 <= k <= last[j] && order[k] == order[i];
      assert k == i;
    }
  }

  // ------------------------------------------------------------------ the loop

  ghost predicate Counted(es: seq<Edge<nat>>, order: seq<nat>, indeg: seq<int>, pending: seq<nat>) {
    forall m: nat | m < |indeg| :: indeg[m] == Incoming(es, Elements(order), m) + Count(pending, m)
  }

  ghost predicate ReadyAreListed(all: seq<nat>, indeg: seq<int>) {
    NoDup(all) && forall m: nat :: m in all <==> m < |indeg| && indeg[m] == 0
  }

  /** The state between two dequeues. */
  ghost predicate Between(es: seq<Edge<nat>>, order: seq<nat>, queue: seq<nat>, indeg: seq<int>, last: seq<int>) {
    && Counted(es, order, indeg, [])
    && ReadyAreListed(order + queue, indeg)
    && Fifo(es, order, order + queue, last)
  }

  /** The jobs listed since order's last job was taken are among its first `j` dependents. */
  ghost predicate NewestAmong(order: seq<nat>, all: seq<nat>, last: seq<int>, targets: seq<nat>, j: nat)
    requires |all| == |last| && j <= |targets|
  {
    forall p | 0 <= p < |last| && last[p] == |order| - 1 :: all[p] in targets[..j]
  }

  /** The state while the dependents of order's last job are being released. */
  ghost predicate Releasing(es: seq<Edge<nat>>, order: seq<nat>, queue: seq<nat>, indeg: seq<int>, last: seq<int>,
                            targets: seq<nat>, j: nat)
  {
    && |order| > 0 && j <= |targets|
    && targets == Targets(es, order[|order| - 1])
    && Counted(es, order, indeg, targets[j..])
    && ReadyAreListed(order + queue, indeg)
    && Fifo(es, order, order + queue, last)
    && NewestAmong(order, order + queue, last, targets, j)
  }

  lemma DequeuedCounts(es: seq<Edge<nat>>, order: seq<nat>, indeg: seq<int>, v: nat)
    requires Counted(es, order, indeg, []) && v !in order
    ensures Counted(es, order + [v], indeg, Targets(es, v))
  {
    assert Elements(order + [v]) == Elements(order) + {v};
    forall m: nat | m < |indeg|
      ensures indeg[m] == Incoming(es, Elements(order + [v]), m) + Count(Targets(es, v), m)
    {
      FinishCounts(es, Elements(order), v, m);
    }
  }

  lemma DequeuedFifo(es: seq<Edge<nat>>, order: seq<nat>, all: seq<nat>, last: seq<int>, v: nat)
    requires Fifo(es, order, all, last)
    ensures Fifo(es, order + [v], all, last) && NewestAmong(order + [v], all, last, [], 0)
  {
    forall p | 0 <= p < |last|
      ensures LastNeed(es, order + [v], all[p], last[p]) && last[p] < |order|
    {
      assert LastNeed(es, order, all[p], last[p]);
      assert (order + [v])[..last[p] + 1] == order[..last[p] + 1];
    }
  }

  lemma Dequeued(es: seq<Edge<nat>>, order: seq<nat>, queue: seq<nat>, indeg: seq<int>, last: seq<int>)
    requires Between(es, order, queue, indeg, last) && queue != []
    ensures Releasing(es, order + [queue[0]], queue[1..], indeg, last, Targets(es, queue[0]), 0)
  {
    var v := queue[0];
    assert order + [v] + queue[1..] == order + queue;
    assert v !in order by {
      forall k | 0 <= k < |order| ensures order[k] != v {
        assert (order + queue)[k] != (order + queue)[|order|];
      }
    }
    DequeuedCounts(es, order, indeg, v);
    DequeuedFifo(es, order, order + queue, last, v);
    assert Targets(es, v)[0..] == Targets(es, v);
  }

  lemma Released(es: seq<Edge<nat>>, order: seq<nat>, queue: seq<nat>, indeg: seq<int>, last: seq<int>,
                 targets: seq<nat>, j: nat)
    requires Releasing(es, order, queue, indeg, last, targets, j) && j == |targets|
    ensures Between(es, order, queue, indeg, last)
  {
    assert targets[j..] == [];
  }

  lemma ReleaseCounts(es: seq<Edge<nat>>, order: seq<nat>, indeg: seq<int>, targets: seq<nat>, j: nat)
    requires j < |targets| && targets[j] < |indeg|
    requires Counted(es, order, indeg, targets[j..])
    ensures Counted(es, order, indeg[targets[j] := indeg[targets[j]] - 1], targets[j + 1..])
    ensures indeg[targets[j]] > 0
    ensures indeg[targets[j]] == 1 ==> Incoming(es, Elements(order), targets[j]) == 0
  {
    CountTail(targets, j, targets[j]);
    forall m: nat | m < |indeg| && m != targets[j]
      ensures indeg[m] == Incoming(es, Elements(order), m) + Count(targets[j + 1..], m)
    {
      CountTail(targets, j, m);
    }
  }

  /** A job whose last need is order's last job joins the list behind everything else. */
  lemma ReleaseFifo(es: seq<Edge<nat>>, order: seq<nat>, all: seq<nat>, last: seq<int>, targets: seq<nat>, j: nat)
    requires SortedByTarget(es) && j < |targets| && 0 < |order| <= |all|
    requires targets == Targets(es, order[|order| - 1]) && targets[j] !in all
    requires Incoming(es, Elements(order), targets[j]) == 0
    requires Fifo(es, order, all, last) && NewestAmong(order, all, last, targets, j)
    ensures Fifo(es, order, all + [targets[j]], last + [|order| - 1])
  {
    var d := targets[j];
    LastIsNewest(es, order, d);
    TargetsAre(es, order[|order| - 1]);
    assert d in targets;
    assert LastNeed(es, order, d, |order| - 1);
    TargetsClimb(es, order[|order| - 1]);
    forall p | 0 <= p < |all|
      ensures last[p] < |order| - 1 || (last[p] == |order| - 1 && all[p] < targets[j])
    {
      assert LastNeed(es, order, all[p], last[p]);
      if last[p] == |order| - 1 {
        var k :| 0 <= k < j && targets[k] == all[p];
      }
    }
  }

  lemma LastIsNewest(es: seq<Edge<nat>>, order: seq<nat>, d: nat)
    requires Incoming(es, Elements(order), d) == 0 && order != []
    ensures forall e <- es | e.1 == d :: e.0 in order[..|order| - 1 + 1]
  {
    IncomingZero(es, Elements(order), d);
    assert order[..|order| - 1 + 1] == order;
  }

  /** One pass of the inner loop. */
  lemma ReleaseOne(es: seq<Edge<nat>>, order: seq<nat>, queue: seq<nat>, indeg: seq<int>, last: seq<int>,
                   targets: seq<nat>, j: nat)
    requires Releasing(es, order, queue, indeg, last, targets, j) && j < |targets|
    requires SortedByTarget(es) && targets[j] < |indeg|
    ensures
      var d := targets[j];
      var indeg' := indeg[d := indeg[d] - 1];
      if indeg'[d] == 0 then Releasing(es, order, queue + [d], indeg', last + [|order| - 1], targets, j + 1)
      else Releasing(es, order, queue, indeg', last, targets, j + 1)
  {
    var d, all := targets[j], order + queue;
    var indeg' := indeg[d := indeg[d] - 1];
    ReleaseCounts(es, order, indeg, targets, j);
    assert d !in all;
    assert targets[..j + 1] == targets[..j] + [d];
    if indeg'[d] == 0 {
      assert order + (queue + [d]) == all + [d];
      ReleaseFifo(es, order, all, last, targets, j);
      assert ReadyAreListed(all + [d], indeg');
    } else {
      assert ReadyAreListed(all, indeg');
    }
  }

  // ------------------------------------------------------------- when it stops

  lemma PositionsFacts(n: nat)
    ensures forall m: nat :: m in Positions(n) <==> m < n
    ensures |Elements(Positions(n))| == n
  {
    forall m: nat | m < n ensures m in Positions(n) {
      assert Positions(n)[m] == m;
    }
    NoDupSize(Positions(n), Elements(Positions(n)));
  }

  lemma BoundedOrder(n: nat, order: seq<nat>)
    requires NoDup(order) && forall v <- order :: v < n
    ensures |order| <= n
    ensures |order| == n ==> Permutes(order, Positions(n))
    ensures |order| < n ==> Elements(Positions(n)) - Elements(order) != {}
  {
    var every := Elements(Positions(n));
    PositionsFacts(n);
    NoDupSize(order, every);
    assert Elements(order) <= every;
    assert every == Elements(order) + (every - Elements(order));
    if |order| == n {
      assert |every - Elements(order)| == 0;
      forall x <- Positions(n) ensures x in order {
        assert x in every;
      }
    }
  }

  /** The jobs that were never listed wait for each other. */
  lemma LeftoverIsStuck(es: seq<Edge<nat>>, order: seq<nat>, indeg: seq<int>)
    requires Within(es, Positions(|indeg|)) && |order| < |indeg|
    requires Counted(es, order, indeg, []) && ReadyAreListed(order, indeg)
    ensures Cyclic(es)
  {
    var n := |indeg|;
    PositionsFacts(n);
    BoundedOrder(n, order);
    var stuck := Elements(Positions(n)) - Elements(order);
    forall b | b in stuck
      ensures HasPredecessor(es, stuck, b)
    {
      IncomingZero(es, Elements(order), b);
      var e :| e in es && e.1 == b && e.0 !in Elements(order);
      assert (e.0, b) in es;
    }
    StuckMeansCycle(es, stuck);
  }

  lemma Stopped(es: seq<Edge<nat>>, order: seq<nat>, indeg: seq<int>, last: seq<int>)
    requires Between(es, order, [], indeg, last) && Within(es, Positions(|indeg|))
    ensures |order| <= |indeg|
    ensures |order| == |indeg| ==> FifoOrder(es, |indeg|, order) && Respects(es, order) && !Cyclic(es)
    ensures |order| < |indeg| ==> Cyclic(es)
  {
    assert order + [] == order;
    BoundedOrder(|indeg|, order);
    if |order| == |indeg| {
      FifoRespects(es, order, last);
      OrderMeansAcyclic(es, order);
    } else {
      LeftoverIsStuck(es, order, indeg);
    }
  }

  /** `picked` holds the jobs at the positions `order`. */
  ghost predicate Picks(jobs: seq<Job>, order: seq<nat>, picked: seq<Job>) {
    |picked| == |order| && forall k | 0 <= k < |order| :: order[k] < |jobs| && picked[k] == jobs[order[k]]
  }

  /** Sorts the jobs of a stage. It fails exactly when the needs form a cycle; otherwise `out`
      lists the jobs at the positions `order`, each after its needs, first ready first out. */
  method TopoSort(jobs: seq<Job>) returns (out: Result<seq<Job>, string>, ghost order: seq<nat>)
    ensures out.Err? <==> Cyclic(Edges(jobs))
    ensures out.Ok? ==> FifoOrder(Edges(jobs), |jobs|, order) && Respects(Edges(jobs), order)
    ensures out.Ok? ==> Picks(jobs, order, out.value)
  {
    hide Counted;
    hide Fifo;
    hide FifoOrder;
    hide Cyclic;
    hide Respects;
    hide Targets;
    hide NewestAmong;
    hide Index;
    hide Within;
    ghost var es := Edges(jobs);
    var index := BuildIndex(jobs);
    var indeg, dependents := CountNeeds(jobs, index);
    EdgesAreSorted(Index(jobs), jobs);
    EdgesStayInside(jobs);

    order := [];
    ghost var last: seq<int>;
    var queue: seq<nat>;
    queue, last := Roots(es, indeg);
    var sorted: seq<Job> := [];
    while |queue| > 0
      invariant Between(es, order, queue, indeg[..], last)
      invariant Picks(jobs, order, sorted)
      decreases |jobs| - |order|
    {
      Dequeued(es, order, queue, indeg[..], last);
      var i := queue[0];
      assert i in order + queue;
      queue := queue[1..];
      order := order + [i];
      sorted := sorted + [jobs[i]];
      ListedOnce(es, order, queue, indeg[..], last, i);
      queue, last := Release(es, order, queue, indeg, last, if i in dependents then dependents[i] else []);
    }
    assert queue == [];
    Stopped(es, order, indeg[..], last);
    if |sorted| != |jobs| {
      out := Err("needs cycle detected");
    } else {
      out := Ok(sorted);
    }
  }

  lemma ListedOnce(es: seq<Edge<nat>>, order: seq<nat>, queue: seq<nat>, indeg: seq<int>, last: seq<int>, i: nat)
    requires Releasing(es, order, queue, indeg, last, Targets(es, i), 0)
    ensures |order| <= |indeg|
  {
    forall k | 0 <= k < |order| ensures order[k] < |indeg| {
      assert (order + queue)[k] in order + queue;
    }
    assert NoDup(order) by {
      forall p, q | 0 <= p < q < |order| ensures order[p] != order[q] {
        assert (order + queue)[p] != (order + queue)[q];
      }
    }
    BoundedOrder(|indeg|, order);
  }

  /** The inner loop: tells the dependents of order's last job, queueing those it frees. */
  method Release(ghost es: seq<Edge<nat>>, ghost order: seq<nat>, queue: seq<nat>, indeg: array<int>,
                 ghost last: seq<int>, targets: seq<nat>)
    returns (queue': seq<nat>, ghost last': seq<int>)
    requires Releasing(es, order, queue, indeg[..], last, targets, 0)
    requires SortedByTarget(es) && Within(es, Positions(indeg.Length))
    modifies indeg
    ensures Between(es, order, queue', indeg[..], last')
  {
    queue', last' := queue, last;
    ReleaseStarts(es, order, queue, indeg[..], last, targets);
    hide Releasing;
    hide Between;
    hide SortedByTarget;
    hide Within;
    hide Targets;
    hide Positions;
    for j := 0 to |targets|
      invariant Releasing(es, order, queue', indeg[..], last', targets, j)
    {
      var d := targets[j];
      assert d in targets;
      ghost var were := indeg[..];
      ReleaseOne(es, order, queue', were, last', targets, j);
      indeg[d] := indeg[d] - 1;
      ghost var now := were[d := were[d] - 1];
      assert indeg[..] == now && indeg[d] == now[d];
      if indeg[d] == 0 {
        queue' := queue' + [d];
        last' := last' + [|order| - 1];
      }
    }
    Released(es, order, queue', indeg[..], last', targets, |targets|);
  }

  lemma ReleaseStarts(es: seq<Edge<nat>>, order: seq<nat>, queue: seq<nat>, indeg: seq<int>, last: seq<int>, targets: seq<nat>)
    requires Releasing(es, order, queue, indeg, last, targets, 0) && Within(es, Positions(|indeg|))
    ensures |order| > 0 && forall m: nat | m in targets :: m < |indeg|
  {
    TargetsStayInside(es, order[|order| - 1], |indeg|);
  }

  lemma TargetsStayInside(es: seq<Edge<nat>>, v: nat, n: nat)
    requires Within(es, Positions(n))
    ensures forall m: nat | m in Targets<nat>(es, v) :: m < n
  {
    TargetsAre<nat>(es, v);
    PositionsFacts(n);
    forall m: nat | m in Targets<nat>(es, v) ensures m < n {
      assert (v, m) in es;
    }
  }

  lemma EdgesStayInside(jobs: seq<Job>)
    ensures Within(Edges(jobs), Positions(|jobs|))
  {
    EdgesFromAre(Index(jobs), jobs);
    PositionsFacts(|jobs|);
  }

  method BuildIndex(jobs: seq<Job>) returns (index: map<string, nat>)
    ensures index == Index(jobs)
  {
    index := map[];
    for i := 0 to |jobs|
      invariant index == Index(jobs[..i])
    {
      assert jobs[..i + 1][..i] == jobs[..i];
      index := index[jobs[i].name := i];
    }
    assert jobs[..|jobs|] == jobs;
  }

  lemma AddEdge(es: seq<Edge<nat>>, indeg: seq<int>, dependents: map<nat, seq<nat>>, di: nat, i: nat)
    requires Counted(es, [], indeg, []) && ListsTargets(es, dependents) && i < |indeg|
    ensures Counted(es + [(di, i)], [], indeg[i := indeg[i] + 1], [])
    ensures ListsTargets(es + [(di, i)], dependents[di := (if di in dependents then dependents[di] else []) + [i]])
  {
    assert (es + [(di, i)])[..|es|] == es;
  }

  /** The in-degrees and the adjacency lists of the stage. */
  method CountNeeds(jobs: seq<Job>, index: map<string, nat>) returns (indeg: array<int>, dependents: map<nat, seq<nat>>)
    requires index == Index(jobs)
    ensures fresh(indeg) && indeg.Length == |jobs|
    ensures Counted(Edges(jobs), [], indeg[..], []) && ListsTargets(Edges(jobs), dependents)
  {
    indeg := new int[|jobs|](_ => 0);
    dependents := map[];
    ghost var es: seq<Edge<nat>> := [];
    for i := 0 to |jobs|
      invariant es == EdgesFrom(index, jobs[..i])
      invariant Counted(es, [], indeg[..], []) && ListsTargets(es, dependents)
    {
      assert jobs[..i + 1][..i] == jobs[..i];
      es, dependents := CountNeedsOf(index, jobs[i].needs, i, es, indeg, dependents);
    }
    assert jobs[..|jobs|] == jobs;
  }

  method CountNeedsOf(index: map<string, nat>, needs: seq<string>, i: nat, ghost start: seq<Edge<nat>>,
                      indeg: array<int>, were: map<nat, seq<nat>>)
    returns (ghost es: seq<Edge<nat>>, dependents: map<nat, seq<nat>>)
    requires Counted(start, [], indeg[..], []) && ListsTargets(start, were) && i < indeg.Length
    modifies indeg
    ensures es == start + NeedEdges(index, needs, i)
    ensures Counted(es, [], indeg[..], []) && ListsTargets(es, dependents)
  {
    hide Counted;
    hide ListsTargets;
    es, dependents := start, were;
    for k := 0 to |needs|
      invariant es == start + NeedEdges(index, needs[..k], i)
      invariant Counted(es, [], indeg[..], []) && ListsTargets(es, dependents)
    {
      assert needs[..k + 1][..k] == needs[..k];
      if needs[k] in index {
        var di := index[needs[k]];
        AddEdge(es, indeg[..], dependents, di, i);
        ghost var before := indeg[..];
        indeg[i] := indeg[i] + 1;
        assert indeg[..] == before[i := before[i] + 1];
        dependents := dependents[di := (if di in dependents then dependents[di] else []) + [i]];
        es := es + [(di, i)];
      }
    }
    assert needs[..|needs|] == needs;
  }

  ghost predicate NoNeeds(es: seq<Edge<nat>>, v: nat) {
    forall e <- es :: e.1 != v
  }

  /** The first queue: the jobs with no need in the stage, in declaration order. */
  method Roots(ghost es: seq<Edge<nat>>, indeg: array<int>) returns (queue: seq<nat>, ghost last: seq<int>)
    requires Counted(es, [], indeg[..], [])
    ensures Between(es, [], queue, indeg[..], last)
  {
    hide Between;
    hide Counted;
    hide NoNeeds;
    hide Incoming;
    queue, last := [], [];
    for i := 0 to indeg.Length
      invariant |last| == |queue| && forall p | 0 <= p < |queue| :: last[p] == -1
      invariant forall m: nat :: m in queue <==> m < i && indeg[m] == 0
      invariant forall p | 0 <= p < |queue| :: queue[p] < i && NoNeeds(es, queue[p])
      invariant forall p, q | 0 <= p < q < |queue| :: queue[p] < queue[q]
    {
      if indeg[i] == 0 {
        ZeroMeansNoNeeds(es, indeg[..], i);
        queue := queue + [i];
        last := last + [-1];
      }
    }
    RootsAreReady(es, queue, indeg[..], last);
  }

  lemma ZeroMeansNoNeeds(es: seq<Edge<nat>>, indeg: seq<int>, v: nat)
    requires Counted(es, [], indeg, []) && v < |indeg| && indeg[v] == 0
    ensures NoNeeds(es, v)
  {
    IncomingZero<nat>(es, Elements<nat>([]), v);
  }

  lemma RootsAreReady(es: seq<Edge<nat>>, queue: seq<nat>, indeg: seq<int>, last: seq<int>)
    requires Counted(es, [], indeg, [])
    requires |last| == |queue| && forall p | 0 <= p < |queue| :: last[p] == -1
    requires forall m: nat :: m in queue <==> m < |indeg| && indeg[m] == 0
    requires forall p | 0 <= p < |queue| :: NoNeeds(es, queue[p])
    requires forall p, q | 0 <= p < q < |queue| :: queue[p] < queue[q]
    ensures Between(es, [], queue, indeg, last)
  {
    assert [] + queue == queue;
    forall p | 0 <= p < |queue| ensures LastNeed(es, [], queue[p], -1) {
      assert NoNeeds(es, queue[p]);
    }
  }

  // ------------------------------------------------- what a plan's reader sees

  /** The first-in-first-out rule leaves no choice: there is only one such order. */
  lemma FifoOrderIsUnique(es: seq<Edge<nat>>, n: nat, one: seq<nat>, two: seq<nat>)
    requires FifoOrder(es, n, one) && FifoOrder(es, n, two)
    ensures one == two
  {
    var last1: seq<int> :| Fifo(es, one, one, last1);
    var last2: seq<int> :| Fifo(es, two, two, last2);
    SamePrefix(es, one, last1, two, last2, n);
    assert one[..n] == one && two[..n] == two;
  }

  lemma {:induction false} SamePrefix(es: seq<Edge<nat>>, one: seq<nat>, last1: seq<int>,
                                      two: seq<nat>, last2: seq<int>, k: nat)
    requires k <= |one| == |two| && Permutes(one, Positions(|one|)) && Permutes(two, Positions(|two|))
    requires Fifo(es, one, one, last1) && Fifo(es, two, two, last2)
    ensures one[..k] == two[..k]
    decreases k
  {
    if k > 0 {
      SamePrefix(es, one, last1, two, last2, k - 1);
      var p := Locate(one, two, k - 1);
      var q := Locate(two, one, k - 1);
      SameNext(es, one, last1, two, last2, k - 1, p, q);
      assert one[..k] == one[..k - 1] + [one[k - 1]];
      assert two[..k] == two[..k - 1] + [two[k - 1]];
    }
  }

  lemma Locate(one: seq<nat>, two: seq<nat>, k: nat) returns (p: nat)
    requires Permutes(one, Positions(|one|)) && Permutes(two, Positions(|one|)) && k < |two|
    ensures p < |one| && one[p] == two[k]
  {
    assert two[k] in two;
    assert two[k] in one;
    p :| p < |one| && one[p] == two[k];
  }

  lemma NotEarlier(one: seq<nat>, two: seq<nat>, k: nat, p: nat)
    requires k < |one| == |two| && one[..k] == two[..k] && NoDup(two)
    requires p < |one| && one[p] == two[k]
    ensures p >= k
  {
    forall i | 0 <= i < k ensures one[i] == two[i] {
      assert one[..k][i] == two[..k][i];
    }
  }

  lemma SameNext(es: seq<Edge<nat>>, one: seq<nat>, last1: seq<int>, two: seq<nat>, last2: seq<int>, k: nat, p: nat, q: nat)
    requires k < |one| == |two| && one[..k] == two[..k] && NoDup(one) && NoDup(two)
    requires p < |one| && one[p] == two[k] && q < |two| && two[q] == one[k]
    requires Fifo(es, one, one, last1) && Fifo(es, two, two, last2)
    ensures one[k] == two[k]
  {
    NotEarlier(one, two, k, p);
    NotEarlier(two, one, k, q);
    if p != k && q != k {
      assert last1[k] < last1[p] || (last1[k] == last1[p] && one[k] < one[p]);
      assert last2[k] < last2[q] || (last2[k] == last2[q] && two[k] < two[q]);
      LastNeedAgrees(es, one, two, k, one[k], last1[k], last2[q]);
      LastNeedAgrees(es, two, one, k, two[k], last2[k], last1[p]);
    }
  }

  lemma LastNeedAgrees(es: seq<Edge<nat>>, one: seq<nat>, two: seq<nat>, k: nat, v: nat, a: int, b: int)
    requires k <= |one| == |two| && one[..k] == two[..k] && NoDup(one) && NoDup(two)
    requires LastNeed(es, one, v, a) && LastNeed(es, two, v, b) && a < k
    ensures a == b
  {
    assert one[..a + 1] == one[..k][..a + 1] == two[..k][..a + 1] == two[..a + 1];
    if b >= 0 {
      assert (two[b], v).0 in one[..a + 1];
      var i :| 0 <= i <= a && two[..a + 1][i] == two[b];
      assert i == b;
    }
    if a >= 0 {
      assert one[a] == two[..k][a] == two[a];
      assert (one[a], v).0 in two[..b + 1];
      var i :| 0 <= i <= b && two[i] == two[a];
      assert i == a;
    }
  }

  ghost predicate UniqueNames(jobs: seq<Job>) {
    forall i, j | 0 <= i < j < |jobs| :: jobs[i].name != jobs[j].name
  }

  /** With unique names the planned stage holds every job once, each after all its needs. */
  lemma PlannedJobsFollowTheirNeeds(jobs: seq<Job>, order: seq<nat>, planned: seq<Job>)
    requires UniqueNames(jobs) && Picks(jobs, order, planned)
    requires Permutes(order, Positions(|jobs|)) && Respects(Edges(jobs), order)
    ensures Permutes(planned, jobs)
    ensures forall a, b | 0 <= a < |planned| && 0 <= b < |planned| && planned[a].name in planned[b].needs :: a < b
  {
    PositionsFacts(|jobs|);
    EdgesFromAre(Index(jobs), jobs);
    forall j <- jobs ensures j in planned {
      var i: nat :| i < |jobs| && jobs[i] == j;
      assert i in Positions(|jobs|) && i in order;
      var k :| 0 <= k < |order| && order[k] == i;
      assert planned[k] == j;
    }
    forall a, b | 0 <= a < |planned| && 0 <= b < |planned| && planned[a].name in planned[b].needs
      ensures a < b
    {
      PositionOf(jobs, planned[a]);
      assert (order[a], order[b]) in Edges(jobs);
    }
  }

  /** Jobs that need each other in a circle. */
  ghost predicate NeedsCircle(jobs: seq<Job>, p: seq<Job>) {
    && |p| >= 2 && p[0] == p[|p| - 1]
    && (forall k | 0 <= k < |p| :: p[k] in jobs)
    && (forall k | 0 <= k < |p| - 1 :: p[k].name in p[k + 1].needs)
  }

  /** So the sort fails exactly when some jobs of the stage need each other in a circle. */
  lemma CyclesAreCircles(jobs: seq<Job>)
    requires UniqueNames(jobs)
    ensures Cyclic(Edges(jobs)) <==> exists p: seq<Job> :: NeedsCircle(jobs, p)
  {
    var es := Edges(jobs);
    EdgesFromAre(Index(jobs), jobs);
    if Cyclic(es) {
      var p: seq<nat> :| IsCycle(es, p);
      forall k | 0 <= k < |p| ensures p[k] < |jobs| {
        if k < |p| - 1 {
          assert (p[k], p[k + 1]) in es;
        } else {
          assert (p[k - 1], p[k]) in es;
        }
      }
      var circle := seq(|p|, k requires 0 <= k < |p| => jobs[p[k]]);
      forall k | 0 <= k < |circle| - 1 ensures circle[k].name in circle[k + 1].needs {
        assert (p[k], p[k + 1]) in es;
      }
      assert NeedsCircle(jobs, circle);
    }
    if p: seq<Job> :| NeedsCircle(jobs, p) {
      var index := Index(jobs);
      forall k | 0 <= k < |p| ensures p[k].name in index && jobs[index[p[k].name]] == p[k] {
        PositionOf(jobs, p[k]);
      }
      var walk := seq(|p|, k requires 0 <= k < |p| => index[p[k].name]);
      forall k | 0 <= k < |walk| - 1 ensures (walk[k], walk[k + 1]) in es {
        assert p[k].name in jobs[walk[k + 1]].needs;
      }
      assert IsCycle(es, walk);
    }
  }

  lemma PositionOf(jobs: seq<Job>, job: Job)
    requires UniqueNames(jobs) && job in jobs
    ensures job.name in Index(jobs) && jobs[Index(jobs)[job.name]] == job
  {
    var i: nat :| i < |jobs| && jobs[i] == job;
    Indexed(jobs, i);
    assert jobs[Index(jobs)[job.name]].name == jobs[i].name;
  }
}
