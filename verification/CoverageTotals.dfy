/** Coverage summaries: totals, the per-package breakdown and its cap (agent/internal/runner/coverage.go).
    Summaries are exact; Wrapped is what 64-bit counters make of one. */
module CoverageTotals {
  import opened Decimal
  import opened MapSums
  import opened Sorting
  import opened Strings
  import opened Sequences

  // ------------------------------------------------------------------ summaries

  datatype Counts = Counts(covered: int, total: int)

  /** A summary before the breakdown is capped. */
  datatype Summary = Summary(covered: int, total: int, perPkg: map<string, Counts>)

  const NOTHING := Summary(0, 0, map[])

  function PkgCounts(s: Summary, p: string): Counts {
    if p in s.perPkg then s.perPkg[p] else Counts(0, 0)
  }

  function Totals(perPkg: map<string, Counts>): map<string, int> {
    map p | p in perPkg :: perPkg[p].total
  }

  function Covereds(perPkg: map<string, Counts>): map<string, int> {
    map p | p in perPkg :: perPkg[p].covered
  }

  /** Adds some lines to a package and to the totals. */
  function AddLines(s: Summary, p: string, covered: int, total: int): Summary {
    var c := PkgCounts(s, p);
    Summary(s.covered + covered, s.total + total, s.perPkg[p := Counts(c.covered + covered, c.total + total)])
  }

  /** Covered never exceeds the total, in a package or overall, and the totals are the sums over all packages. */
  ghost predicate Consistent(s: Summary) {
    && (forall p <- s.perPkg :: 0 <= s.perPkg[p].covered <= s.perPkg[p].total)
    && s.covered == SumMap(Covereds(s.perPkg)) && s.total == SumMap(Totals(s.perPkg))
  }

  lemma NothingIsConsistent()
    ensures Consistent(NOTHING)
  {
  }

  lemma ColumnsOfWrite(perPkg: map<string, Counts>, p: string, c: Counts)
    ensures Totals(perPkg[p := c]) == Totals(perPkg)[p := c.total]
    ensures Covereds(perPkg[p := c]) == Covereds(perPkg)[p := c.covered]
  {
  }

  lemma AddKeepsConsistent(s: Summary, p: string, covered: int, total: int)
    requires Consistent(s) && 0 <= covered <= total
    ensures Consistent(AddLines(s, p, covered, total))
  {
    hide SumMap;
    var c := PkgCounts(s, p);
    var c' := Counts(c.covered + covered, c.total + total);
    SumWrite(Totals(s.perPkg), p, c'.total);
    SumWrite(Covereds(s.perPkg), p, c'.covered);
    ColumnsOfWrite(s.perPkg, p, c');
  }

  lemma ConsistentMeans(s: Summary)
    requires Consistent(s)
    ensures 0 <= s.covered <= s.total
  {
    SumMonotone(Covereds(s.perPkg), Totals(s.perPkg));
  }

  // ------------------------------------------------------------ 64-bit sums

  /** Two's complement. */
  function Wrap(x: int): int {
    (x + INT64_MAX + 1) % (2 * (INT64_MAX + 1)) - INT64_MAX - 1
  }

  function WrapCounts(c: Counts): Counts {
    Counts(Wrap(c.covered), Wrap(c.total))
  }

  /** The summary as 64-bit counters hold it. */
  function Wrapped(s: Summary): Summary {
    Summary(Wrap(s.covered), Wrap(s.total), map p | p in s.perPkg :: WrapCounts(s.perPkg[p]))
  }

  /** AddLines on 64-bit counters. */
  function AddLines64(s: Summary, p: string, covered: int, total: int): Summary {
    var c := PkgCounts(s, p);
    Summary(Wrap(s.covered + covered), Wrap(s.total + total),
            s.perPkg[p := Counts(Wrap(c.covered + covered), Wrap(c.total + total))])
  }

  lemma WrapAbsorbs(a: int, b: int)
    ensures Wrap(Wrap(a) + b) == Wrap(a + b)
  {
  }

  lemma WrapIsExactIff(x: int)
    ensures Wrap(x) == x <==> InInt64(x)
  {
  }

  /** Wrapping at every addition is wrapping the exact sum once. */
  lemma AddThenWrap(s: Summary, p: string, covered: int, total: int)
    ensures AddLines64(Wrapped(s), p, covered, total) == Wrapped(AddLines(s, p, covered, total))
  {
    var c := PkgCounts(s, p);
    WrapAbsorbs(s.covered, covered);
    WrapAbsorbs(s.total, total);
    WrapAbsorbs(c.covered, covered);
    WrapAbsorbs(c.total, total);
    hide Wrap;
    NothingWraps();
    assert PkgCounts(Wrapped(s), p) == WrapCounts(c);
  }

  lemma NothingWraps()
    ensures Wrap(0) == 0 && Wrapped(NOTHING) == NOTHING
  {
  }

  /** A package never has more lines than all packages together. */
  lemma PackageIsPart(s: Summary, p: string)
    requires Consistent(s) && p in s.perPkg
    ensures 0 <= s.perPkg[p].covered <= s.perPkg[p].total <= s.total
  {
    hide SumMap;
    var m := Totals(s.perPkg);
    SumTake(m, p);
    SumMonotone(m - {p}, m - {p});
  }

  /** The 64-bit summary is the exact one, in every package and overall, exactly when the exact total fits. */
  lemma WrappedIsExactIff(s: Summary)
    requires Consistent(s)
    ensures Wrapped(s) == s <==> InInt64(s.total)
    ensures InInt64(s.total) ==> Consistent(Wrapped(s))
  {
    hide Consistent;
    ConsistentMeans(s);
    WrapIsExactIff(s.total);
    WrapIsExactIff(s.covered);
    if InInt64(s.total) {
      forall p | p in s.perPkg ensures WrapCounts(s.perPkg[p]) == s.perPkg[p] {
        PackageIsPart(s, p);
        WrapIsExactIff(s.perPkg[p].total);
        WrapIsExactIff(s.perPkg[p].covered);
      }
      hide Wrap;
      assert Wrapped(s).perPkg == s.perPkg;
    }
  }

  // ------------------------------------------------------------- the breakdown

  const MAX_PACKAGES := 200

  datatype Pkg = Pkg(name: string, counts: Counts)

  /** The float64 of a real number: an unknown function that makes no whole number but 0 into 0. */
  type Rounding = fl: real -> real | forall n: int :: IsZero(fl, n) ==> n == 0
    witness x => x

  predicate IsZero(fl: real -> real, n: int) {
    fl(n as real) == 0.0
  }

  /** float64(covered) / float64(total) */
  function Quotient(covered: int, total: int, fl: Rounding): real
    requires total != 0
  {
    assert !IsZero(fl, total);
    fl(fl(covered as real) / fl(total as real))
  }

  function Ratio(c: Counts, fl: Rounding): real {
    if c.total == 0 then 1.0 else Quotient(c.covered, c.total, fl)
  }

  /** Worst coverage first, ties by name. */
  function WorseThan(fl: Rounding): Before<Pkg> {
    (a: Pkg, b: Pkg) =>
      Ratio(a.counts, fl) < Ratio(b.counts, fl) || (Ratio(a.counts, fl) == Ratio(b.counts, fl) && Less(a.name, b.name))
  }

  /** The packages of a breakdown, in some order. */
  ghost predicate Listing(perPkg: map<string, Counts>, ps: seq<Pkg>) {
    && NoDup(ps)
    && forall p :: p in ps <==> p.name in perPkg && p.counts == perPkg[p.name]
  }

  lemma WorseThanOrders(perPkg: map<string, Counts>, ps: seq<Pkg>, fl: Rounding)
    requires Listing(perPkg, ps)
    ensures Orders(WorseThan(fl), ps)
  {
    hide Ratio;
    var worse := WorseThan(fl);
    forall a <- ps, b <- ps ensures (a != b ==> worse(a, b) || worse(b, a)) && !(worse(a, b) && worse(b, a)) {
      LessIsTotal(a.name, b.name);
    }
    forall a <- ps, b <- ps, c <- ps | worse(a, b) && worse(b, c) ensures worse(a, c) {
      if Less(a.name, b.name) && Less(b.name, c.name) {
        LessIsTransitive(a.name, b.name, c.name);
      }
    }
  }

  /** capPackages: the breakdown, worst first, cut after 200; `all` is what it would be without the cap. */
  method CapPackages(perPkg: map<string, Counts>, fl: Rounding) returns (kept: seq<Pkg>, truncated: bool, ghost all: seq<Pkg>)
    ensures Listing(perPkg, all) && Ascending(all, WorseThan(fl))
    ensures |all| == |perPkg.Keys|
    ensures truncated <==> |perPkg.Keys| > MAX_PACKAGES
    ensures kept == if truncated then all[..MAX_PACKAGES] else all
  {
    var ps: seq<Pkg> := [];
    var items := perPkg.Keys;
    while items != {}
      invariant items <= perPkg.Keys && |ps| == |perPkg.Keys| - |items|
      invariant NoDup(ps)
      invariant forall p :: p in ps <==> p.name in perPkg && p.name !in items && p.counts == perPkg[p.name]
      decreases |items|
    {
      var n :| n in items;
      assert Pkg(n, perPkg[n]) !in ps;
      items := items - {n};
      ps := ps + [Pkg(n, perPkg[n])];
    }
    WorseThanOrders(perPkg, ps, fl);
    SortSorts(ps, WorseThan(fl), ps);
    kept := Sort(ps, WorseThan(fl));
    all := kept;
    AscendingHasNoDup(all, ps, fl);
    truncated := |kept| > MAX_PACKAGES;
    if truncated {
      kept := kept[..MAX_PACKAGES];
    }
  }

  lemma AscendingHasNoDup(all: seq<Pkg>, ps: seq<Pkg>, fl: Rounding)
    requires Ascending(all, WorseThan(fl)) && Orders(WorseThan(fl), ps) && Among(all, ps)
    ensures NoDup(all)
  {
    forall i, j | 0 <= i < j < |all| ensures all[i] != all[j] {
      assert all[i] in all && WorseThan(fl)(all[i], all[j]);
    }
  }

  /** Nothing that was cut is worse than anything that was kept, and there is only one such breakdown. */
  lemma WorstAreKept(perPkg: map<string, Counts>, all: seq<Pkg>, other: seq<Pkg>, p: Pkg, q: Pkg, fl: Rounding)
    requires Listing(perPkg, all) && Ascending(all, WorseThan(fl))
    requires Listing(perPkg, other) && Ascending(other, WorseThan(fl))
    requires |all| > MAX_PACKAGES && p in all[..MAX_PACKAGES] && q in all[MAX_PACKAGES..]
    ensures WorseThan(fl)(p, q) && other == all
  {
    var i :| 0 <= i < MAX_PACKAGES && all[i] == p;
    var j :| 0 <= j < |all| - MAX_PACKAGES && all[MAX_PACKAGES..][j] == q;
    assert all[MAX_PACKAGES + j] == q;
    WorseThanOrders(perPkg, all, fl);
    AscendingIsUnique(other, all, WorseThan(fl), all);
  }

  // ------------------------------------------------------------------ the gate

  const FLOAT_EXACT := 0x20_0000_0000_0000

  predicate IsExact(fl: real -> real, n: int) {
    fl(n as real) == n as real
  }

  /** What makes a rounding a float64: it is monotone and keeps whole numbers of up to 2^53. */
  ghost predicate IsFloat64(fl: Rounding) {
    && (forall x: real, y: real {:trigger fl(x), fl(y)} | x <= y :: fl(x) <= fl(y))
    && forall n: int | -FLOAT_EXACT <= n <= FLOAT_EXACT :: IsExact(fl, n)
  }

  /** 100 * float64(covered) / float64(total) */
  function Percent(covered: int, total: int, fl: Rounding): real
    requires total != 0
  {
    assert !IsZero(fl, total);
    fl(fl(100.0 * fl(covered as real)) / fl(total as real))
  }

  /** Percentages compare as products. */
  lemma PercentBelow(covered: real, total: real, limit: real)
    requires total > 0.0
    ensures 100.0 * covered / total < limit <==> 100.0 * covered < limit * total
  {
    var pct := 100.0 * covered / total;
    assert pct * total == 100.0 * covered;
    if pct < limit {
      assert (limit - pct) * total > 0.0;
    } else {
      assert (pct - limit) * total >= 0.0;
    }
  }

  /** Below the threshold, and not so close to it that the percentage rounds up to it. */
  predicate BelowThreshold(failUnder: real, covered: int, total: int, fl: Rounding)
    requires total > 0
  {
    100.0 * covered as real < failUnder * total as real && fl(100.0 * covered as real / total as real) != failUnder
  }

  lemma RoundedBelow(failUnder: real, covered: int, total: int, fl: Rounding)
    requires IsFloat64(fl) && fl(failUnder) == failUnder
    requires 0 <= 100 * covered <= FLOAT_EXACT && 0 < total <= FLOAT_EXACT
    ensures Percent(covered, total, fl) < failUnder <==> BelowThreshold(failUnder, covered, total, fl)
  {
    var pct := 100.0 * covered as real / total as real;
    assert 100.0 * covered as real == (100 * covered) as real;
    assert IsExact(fl, covered) && IsExact(fl, total) && IsExact(fl, 100 * covered);
    assert Percent(covered, total, fl) == fl(pct);
    PercentBelow(covered as real, total as real, failUnder);
    if pct < failUnder {
      assert fl(pct) <= fl(failUnder);
    } else {
      assert fl(failUnder) <= fl(pct);
    }
  }

  /** coverageGate: without lines no threshold can be met. For reports of up to 2^53 / 100 covered lines a
      threshold that is met never fails the gate, and one that is missed always does unless the percentage
      rounds up to it. */
  method CoverageGate(failUnder: real, covered: int, total: int, fl: Rounding) returns (failed: bool)
    ensures failUnder <= 0.0 ==> !failed
    ensures failUnder > 0.0 && total <= 0 ==> failed
    ensures failUnder > 0.0 && total > 0 ==> (failed <==> Percent(covered, total, fl) < failUnder)
    ensures failUnder > 0.0 && 0 < total <= FLOAT_EXACT && 0 <= 100 * covered <= FLOAT_EXACT
            && IsFloat64(fl) && fl(failUnder) == failUnder
            ==> (failed <==> BelowThreshold(failUnder, covered, total, fl))
  {
    if failUnder <= 0.0 {
      return false;
    }
    if total <= 0 {
      return true;
    }
    if 0 <= 100 * covered <= FLOAT_EXACT && total <= FLOAT_EXACT && IsFloat64(fl) && fl(failUnder) == failUnder {
      RoundedBelow(failUnder, covered, total, fl);
    }
    var pct := Percent(covered, total, fl);
    return pct < failUnder;
  }
}
