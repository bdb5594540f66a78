/** Library sorting, as insertion into an ascending list: what counts is that the result is the one
    ascending arrangement. */
module Sorting {
  import opened Sequences

  type Before<!T> = (T, T) -> bool

  function Insert<T>(x: T, xs: seq<T>, less: Before<T>): seq<T> {
    if xs == [] || less(x, xs[0]) then [x] + xs else [xs[0]] + Insert(x, xs[1..], less)
  }

  function Sort<T>(xs: seq<T>, less: Before<T>): seq<T> {
    if xs == [] then [] else Insert(xs[0], Sort(xs[1..], less), less)
  }

  ghost predicate Ascending<T>(xs: seq<T>, less: Before<T>) {
    forall i, j | 0 <= i < j < |xs| :: less(xs[i], xs[j])
  }

  /** `less` orders the elements of `dom` strictly and totally. */
  ghost predicate Orders<T>(less: Before<T>, dom: seq<T>) {
    && (forall x <- dom, y <- dom | x != y :: less(x, y) || less(y, x))
    && (forall x <- dom, y <- dom :: !(less(x, y) && less(y, x)))
    && (forall x <- dom, y <- dom, z <- dom | less(x, y) && less(y, z) :: less(x, z))
  }

  ghost predicate Among<T>(xs: seq<T>, dom: seq<T>) {
    forall x <- xs :: x in dom
  }

  lemma {:induction false} InsertIntoSorted<T>(x: T, xs: seq<T>, less: Before<T>, dom: seq<T>)
    requires Orders(less, dom) && x in dom && Among(xs, dom)
    requires Ascending(xs, less) && x !in xs
    ensures Ascending(Insert(x, xs, less), less)
    ensures forall y <- dom :: y in Insert(x, xs, less) <==> y == x || y in xs
    ensures Among(Insert(x, xs, less), dom)
    decreases |xs|
  {
    if xs != [] && !less(x, xs[0]) {
      var rest := Insert(x, xs[1..], less);
      assert xs[0] in xs && less(xs[0], x);
      InsertIntoSorted(x, xs[1..], less, dom);
      forall y <- rest ensures less(xs[0], y) {
        assert y in dom;
        if y != x {
          var k :| 0 <= k < |xs[1..]| && xs[1..][k] == y;
          assert xs[k + 1] == y;
        }
      }
      assert forall k | 0 <= k < |rest| :: rest[k] in rest;
      assert xs == [xs[0]] + xs[1..];
    } else if xs != [] {
      forall k | 1 <= k < |xs| ensures less(x, xs[k]) {
        assert xs[0] in xs && xs[k] in xs && less(xs[0], xs[k]);
      }
    }
  }

  lemma {:induction false} SortSorts<T>(xs: seq<T>, less: Before<T>, dom: seq<T>)
    requires Orders(less, dom) && Among(xs, dom) && NoDup(xs)
    ensures Ascending(Sort(xs, less), less) && Among(Sort(xs, less), dom)
    ensures forall y <- dom :: y in Sort(xs, less) <==> y in xs
    ensures |Sort(xs, less)| == |xs|
    decreases |xs|
  {
    if xs != [] {
      assert NoDup(xs[1..]) && xs[0] !in xs[1..] && xs[0] in xs;
      SortSorts(xs[1..], less, dom);
      InsertIntoSorted(xs[0], Sort(xs[1..], less), less, dom);
      InsertKeepsLength(xs[0], Sort(xs[1..], less), less);
      assert xs == [xs[0]] + xs[1..];
    }
  }

  lemma {:induction false} InsertKeepsLength<T>(x: T, xs: seq<T>, less: Before<T>)
    ensures |Insert(x, xs, less)| == |xs| + 1
    decreases |xs|
  {
    if xs != [] && !less(x, xs[0]) {
      InsertKeepsLength(x, xs[1..], less);
    }
  }

  lemma FirstIsMember<T>(xs: seq<T>)
    ensures xs == [] || xs[0] in xs
  {
  }

  lemma LeastIsFirst<T>(xs: seq<T>, ys: seq<T>, less: Before<T>, dom: seq<T>)
    requires Orders(less, dom) && Among(xs, dom) && Among(ys, dom)
    requires Ascending(xs, less) && Ascending(ys, less) && xs != [] && ys != []
    requires xs[0] in ys && ys[0] in xs
    ensures xs[0] == ys[0]
  {
    var i :| 0 <= i < |ys| && ys[i] == xs[0];
    var j :| 0 <= j < |xs| && xs[j] == ys[0];
    assert xs[0] in dom && ys[0] in dom;
  }

  lemma TailMembers<T>(xs: seq<T>, y: T, less: Before<T>, dom: seq<T>)
    requires Orders(less, dom) && Among(xs, dom) && Ascending(xs, less) && xs != []
    ensures y in xs[1..] <==> y in xs && y != xs[0]
  {
    assert xs[0] in xs && xs[0] in dom;
    assert !less(xs[0], xs[0]);
    if y in xs && y != xs[0] {
      var k :| 0 <= k < |xs| && xs[k] == y;
      assert xs[1..][k - 1] == y;
    }
    if y in xs[1..] {
      var k :| 0 <= k < |xs[1..]| && xs[1..][k] == y;
      assert xs[k + 1] == y && less(xs[0], xs[k + 1]);
    }
  }

  /** There is one ascending arrangement of given elements. */
  lemma {:induction false} AscendingIsUnique<T>(xs: seq<T>, ys: seq<T>, less: Before<T>, dom: seq<T>)
    requires Orders(less, dom) && Among(xs, dom) && Among(ys, dom)
    requires Ascending(xs, less) && Ascending(ys, less) && forall y <- dom :: y in xs <==> y in ys
    ensures xs == ys
    decreases |xs|
  {
    FirstIsMember(xs);
    FirstIsMember(ys);
    if xs != [] && ys != [] {
      LeastIsFirst(xs, ys, less, dom);
      forall y <- dom ensures y in xs[1..] <==> y in ys[1..] {
        TailMembers(xs, y, less, dom);
        TailMembers(ys, y, less, dom);
      }
      AscendingIsUnique(xs[1..], ys[1..], less, dom);
      assert xs == [xs[0]] + xs[1..] && ys == [ys[0]] + ys[1..];
    }
  }
}
