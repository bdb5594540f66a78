/** Directed multigraphs as edge lists: paths, cycles, topological orders and the
    counting facts behind Kahn's algorithm. */
module Graph {
  import opened Sequences

  type Edge<T> = (T, T)

  ghost predicate IsPath<T>(es: seq<Edge<T>>, p: seq<T>) {
    forall k | 0 <= k < |p| - 1 :: (p[k], p[k + 1]) in es
  }

  ghost predicate IsCycle<T>(es: seq<Edge<T>>, p: seq<T>) {
    |p| >= 2 && p[0] == p[|p| - 1] && IsPath(es, p)
  }

  ghost predicate Cyclic<T(!new)>(es: seq<Edge<T>>) {
    exists p: seq<T> :: IsCycle(es, p)
  }

  /** No edge points backwards. */
  ghost predicate Respects<T>(es: seq<Edge<T>>, order: seq<T>) {
    forall i, j | 0 <= i < |order| && 0 <= j < |order| && (order[i], order[j]) in es :: i < j
  }

  ghost predicate Permutes<T(!new)>(xs: seq<T>, ys: seq<T>) {
    |xs| == |ys| && NoDup(xs) && forall x :: x in xs <==> x in ys
  }

  ghost predicate Within<T>(es: seq<Edge<T>>, nodes: seq<T>) {
    forall e <- es :: e.0 in nodes && e.1 in nodes
  }

  // ------------------------------------------------------ orders and cycles

  /** Along a path the positions in a topological order only grow. */
  lemma {:induction false} PathClimbs<T>(es: seq<Edge<T>>, order: seq<T>, p: seq<T>, i: nat, j: nat)
    requires Respects(es, order) && IsPath(es, p) && |p| >= 2
    requires i < |order| && j < |order| && order[i] == p[0] && order[j] == p[|p| - 1]
    requires forall x <- p :: x in order
    ensures i < j
    decreases |p|
  {
    if |p| > 2 {
      var rest := p[1..];
      assert rest[0] in p;
      var k :| 0 <= k < |order| && order[k] == rest[0];
      assert (order[i], order[k]) in es;
      forall m | 0 <= m < |rest| - 1 ensures (rest[m], rest[m + 1]) in es {
        assert (p[m + 1], p[m + 2]) in es;
      }
      PathClimbs(es, order, rest, k, j);
    } else {
      assert (p[0], p[1]) in es;
    }
  }

  lemma OrderMeansAcyclic<T(!new)>(es: seq<Edge<T>>, order: seq<T>)
    requires Respects(es, order) && Within(es, order)
    ensures !Cyclic(es)
  {
    if Cyclic(es) {
      var p: seq<T> :| IsCycle(es, p);
      forall k | 0 <= k < |p| ensures p[k] in order {
        if k < |p| - 1 {
          assert (p[k], p[k + 1]) in es;
        } else {
          assert (p[k - 1], p[k]) in es;
        }
      }
      var i :| 0 <= i < |order| && order[i] == p[0];
      PathClimbs(es, order, p, i, i);
    }
  }

  ghost predicate HasPredecessor<T>(es: seq<Edge<T>>, stuck: set<T>, b: T) {
    exists a <- stuck :: (a, b) in es
  }

  ghost predicate AllHavePredecessors<T>(es: seq<Edge<T>>, stuck: set<T>) {
    forall b {:trigger HasPredecessor(es, stuck, b)} | b in stuck :: HasPredecessor(es, stuck, b)
  }

  /** A walk of any length backwards through nodes that all have a predecessor. */
  lemma {:induction false} BackWalk<T>(es: seq<Edge<T>>, stuck: set<T>, n: nat) returns (w: seq<T>)
    requires stuck != {} && AllHavePredecessors(es, stuck)
    ensures |w| == n + 1 && IsPath(es, w) && forall x <- w :: x in stuck
  {
    if n == 0 {
      var b :| b in stuck;
      w := [b];
    } else {
      var v := BackWalk(es, stuck, n - 1);
      assert v[0] in stuck;
      assert HasPredecessor(es, stuck, v[0]);
      var a :| a in stuck && (a, v[0]) in es;
      w := [a] + v;
      forall k | 0 <= k < |w| - 1 ensures (w[k], w[k + 1]) in es {
        if k > 0 { assert (v[k - 1], v[k]) in es; }
      }
    }
  }

  /** If some nodes all have a predecessor among themselves there is a cycle: walking
      back one step more than there are nodes must meet one of them twice. */
  lemma StuckMeansCycle<T(!new)>(es: seq<Edge<T>>, stuck: set<T>)
    requires stuck != {} && AllHavePredecessors(es, stuck)
    ensures Cyclic(es)
  {
    var w := BackWalk(es, stuck, |stuck|);
    if NoDup(w) {
      NoDupSize(w, stuck);
    } else {
      var i, j :| 0 <= i < j < |w| && w[i] == w[j];
      var p := w[i..j + 1];
      forall k | 0 <= k < |p| - 1 ensures (p[k], p[k + 1]) in es {
        assert (w[i + k], w[i + k + 1]) in es;
      }
      assert IsCycle(es, p);
    }
  }

  // ------------------------------------------------------- counting edges

  /** How many edges into `m` come from nodes that are not done yet. */
  function Incoming<T(==)>(es: seq<Edge<T>>, done: set<T>, m: T): nat {
    if es == [] then 0
    else Incoming(es[..|es| - 1], done, m) + (if es[|es| - 1].1 == m && es[|es| - 1].0 !in done then 1 else 0)
  }

  /** The targets of the edges out of `n`, in edge order, duplicates included. */
  function Targets<T(==)>(es: seq<Edge<T>>, n: T): seq<T> {
    if es == [] then []
    else Targets(es[..|es| - 1], n) + (if es[|es| - 1].0 == n then [es[|es| - 1].1] else [])
  }

  /** The adjacency lists of all nodes; a node without successors may be missing. */
  ghost predicate ListsTargets<T(!new)>(es: seq<Edge<T>>, out: map<T, seq<T>>) {
    forall v: T :: Targets(es, v) == if v in out then out[v] else []
  }

  function Count<T(==)>(xs: seq<T>, x: T): nat {
    multiset(xs)[x]
  }

  /** Finishing `n` removes exactly its edges from the counts. */
  lemma {:induction false} FinishCounts<T>(es: seq<Edge<T>>, done: set<T>, n: T, m: T)
    requires n !in done
    ensures Incoming(es, done, m) == Incoming(es, done + {n}, m) + Count(Targets(es, n), m)
    decreases |es|
  {
    if es != [] {
      FinishCounts(es[..|es| - 1], done, n, m);
    }
  }

  lemma {:induction false} IncomingZero<T>(es: seq<Edge<T>>, done: set<T>, m: T)
    ensures Incoming(es, done, m) == 0 <==> forall e <- es | e.1 == m :: e.0 in done
    decreases |es|
  {
    if es != [] {
      var init := es[..|es| - 1];
      IncomingZero(init, done, m);
      assert es == init + [es[|es| - 1]];
    }
  }

  lemma {:induction false} TargetsAre<T(!new)>(es: seq<Edge<T>>, n: T)
    ensures forall m :: m in Targets(es, n) <==> (n, m) in es
    decreases |es|
  {
    if es != [] {
      var init := es[..|es| - 1];
      TargetsAre(init, n);
      assert es == init + [es[|es| - 1]];
    }
  }

  lemma CountTail<T>(xs: seq<T>, j: nat, x: T)
    requires j < |xs|
    ensures Count(xs[j..], x) == Count(xs[j + 1..], x) + (if xs[j] == x then 1 else 0)
  {
    assert xs[j..] == [xs[j]] + xs[j + 1..];
  }
}
