/** go test coverage profiles: blocks listed several times merge into one
    (agent/internal/runner/coverage.go). */
module GoCover {
  import opened Wrappers
  import opened Decimal
  import opened CoverageTotals
  import opened MapSums
  import opened Scanner
  import opened Sequences

  datatype Rec = Rec(key: string, stmts: int, count: int)

  datatype Block = Block(stmts: int, covered: bool)

  type Blocks = map<string, Block>

  /** path.Dir, as an unknown function. */
  type Dir = string -> string

  /** strings.LastIndexByte */
  function LastIndex(s: string, c: char): (i: int)
    ensures -1 <= i < |s| && (i >= 0 ==> s[i] == c) && forall k | i < k < |s| :: s[k] != c
  {
    if s == [] then -1
    else if s[|s| - 1] == c then |s| - 1
    else LastIndex(s[..|s| - 1], c)
  }

  /** `file.go:SL.SC,EL.EC numStmts count` */
  function ParseLine(line: string): Option<Rec> {
    var lastSpace := LastIndex(line, ' ');
    if lastSpace < 0 then None else
    var rest, countStr := line[..lastSpace], line[lastSpace + 1..];
    var midSpace := LastIndex(rest, ' ');
    if midSpace < 0 then None else
    var stmts, count := ParseInt(rest[midSpace + 1..]), ParseInt(countStr);
    if stmts.None? || count.None? || stmts.value < 0 then None
    else Some(Rec(rest[..midSpace], stmts.value, count.value))
  }

  lemma LastIndexOf(a: string, c: char, b: string)
    requires c !in b
    ensures var s := a + ([c] + b); LastIndex(s, c) == |a| && s[..|a|] == a && s[|a| + 1..] == b
  {
    hide LastIndex;
    var s := a + ([c] + b);
    assert s[|a|] == c;
    forall k | |a| < k < |s| ensures s[k] != c {
      assert s[k] == b[k - |a| - 1];
    }
  }

  lemma NumbersHaveNoSpaces(n: int)
    ensures ' ' !in FormatInt(n)
  {
    FormatNonEmpty(n);
    forall k | 0 <= k < |FormatInt(n)| ensures FormatInt(n)[k] != ' ' {
      assert k > 0 ==> IsDigit(FormatInt(n)[k]);
      assert AllDigits(Digits(if n < 0 then -n else n));
    }
  }

  /** A written record is read back, whatever spaces and colons its key holds. */
  lemma LineRoundTrip(r: Rec)
    requires 0 <= r.stmts && InInt64(r.stmts) && InInt64(r.count)
    ensures ParseLine((r.key + ([' '] + FormatInt(r.stmts))) + ([' '] + FormatInt(r.count))) == Some(r)
  {
    hide FormatInt;
    hide ParseInt;
    hide LastIndex;
    var stmts, count := FormatInt(r.stmts), FormatInt(r.count);
    NumbersHaveNoSpaces(r.stmts);
    NumbersHaveNoSpaces(r.count);
    ReadFormat(r.stmts);
    ReadFormat(r.count);
    LastIndexOf(r.key + ([' '] + stmts), ' ', count);
    LastIndexOf(r.key, ' ', stmts);
  }

  function PkgOf(key: string, dir: Dir): string {
    var i := LastIndex(key, ':');
    dir(if i > 0 then key[..i] else key)
  }

  // ----------------------------------------------------------------- merging

  /** The first listing fixes the size; any listing that ran makes the block covered. */
  function Merge(blocks: Blocks, r: Rec): Blocks {
    if r.key in blocks then blocks[r.key := Block(blocks[r.key].stmts, blocks[r.key].covered || r.count > 0)]
    else blocks[r.key := Block(r.stmts, r.count > 0)]
  }

  function MergeAll(recs: seq<Rec>): Blocks {
    if recs == [] then map[] else Merge(MergeAll(recs[..|recs| - 1]), recs[|recs| - 1])
  }

  function Union(a: Blocks, b: Blocks): Blocks {
    map k | k in a.Keys + b.Keys ::
      if k in a then Block(a[k].stmts, a[k].covered || (k in b && b[k].covered)) else b[k]
  }

  lemma MergeIntoUnion(a: Blocks, b: Blocks, r: Rec)
    ensures Merge(Union(a, b), r) == Union(a, Merge(b, r))
  {
    var x, y := Merge(Union(a, b), r), Union(a, Merge(b, r));
    forall k ensures k in x <==> k in y {
    }
    forall k | k in x ensures x[k] == y[k] {
    }
  }

  /** Concatenating two profile bodies joins their blocks. */
  lemma {:induction false} ConcatenationIsUnion(a: seq<Rec>, b: seq<Rec>)
    ensures MergeAll(a + b) == Union(MergeAll(a), MergeAll(b))
    decreases |b|
  {
    if b == [] {
      assert a + b == a;
      assert Union(MergeAll(a), map[]) == MergeAll(a);
    } else {
      hide Merge;
      hide Union;
      var init, r := b[..|b| - 1], b[|b| - 1];
      ConcatenationIsUnion(a, init);
      assert (a + b)[..|a + b| - 1] == a + init;
      MergeIntoUnion(MergeAll(a), MergeAll(init), r);
    }
  }

  /** The bodies give a block they share the same size. */
  predicate AgreeOnSizes(a: Blocks, b: Blocks) {
    forall k | k in a && k in b :: a[k].stmts == b[k].stmts
  }

  /** The order of two bodies does not matter exactly when they agree on block sizes. */
  lemma CommutesIffSizesAgree(a: seq<Rec>, b: seq<Rec>)
    ensures MergeAll(a + b) == MergeAll(b + a) <==> AgreeOnSizes(MergeAll(a), MergeAll(b))
  {
    var x, y := MergeAll(a), MergeAll(b);
    ConcatenationIsUnion(a, b);
    ConcatenationIsUnion(b, a);
    if Union(x, y) == Union(y, x) {
      forall k | k in x && k in y ensures x[k].stmts == y[k].stmts {
        assert Union(x, y)[k] == Union(y, x)[k];
      }
    }
    if AgreeOnSizes(x, y) {
      assert Union(x, y) == Union(y, x);
    }
  }

  /** Listing a body twice changes nothing. */
  lemma ConcatenationIsIdempotent(a: seq<Rec>)
    ensures MergeAll(a + a) == MergeAll(a)
  {
    ConcatenationIsUnion(a, a);
    assert Union(MergeAll(a), MergeAll(a)) == MergeAll(a);
  }

  lemma {:induction false} SizesAreNatural(recs: seq<Rec>)
    requires forall r <- recs :: r.stmts >= 0
    ensures NaturalSizes(MergeAll(recs))
    decreases |recs|
  {
    if recs != [] {
      assert recs[|recs| - 1] in recs;
      SizesAreNatural(recs[..|recs| - 1]);
    }
  }

  // ------------------------------------------------------------------- totals

  function Stmts(blocks: Blocks): map<string, int> {
    map k | k in blocks :: blocks[k].stmts
  }

  function Ran(b: Block): int {
    if b.covered then b.stmts else 0
  }

  function RanStmts(blocks: Blocks): map<string, int> {
    map k | k in blocks :: Ran(blocks[k])
  }

  function OfPackage(blocks: Blocks, dir: Dir, p: string): Blocks {
    map k | k in blocks && PkgOf(k, dir) == p :: blocks[k]
  }

  ghost function CountsFor(blocks: Blocks): Counts {
    Counts(SumMap(RanStmts(blocks)), SumMap(Stmts(blocks)))
  }

  /** The summary of these blocks: each package sums its own, the totals sum all. */
  ghost predicate Sums(blocks: Blocks, dir: Dir, s: Summary) {
    && Counts(s.covered, s.total) == CountsFor(blocks)
    && (forall p :: p in s.perPkg <==> OfPackage(blocks, dir, p) != map[])
    && (forall p <- s.perPkg :: s.perPkg[p] == CountsFor(OfPackage(blocks, dir, p)))
  }

  lemma CountsForOneMore(blocks: Blocks, k: string, b: Block)
    requires k !in blocks
    ensures CountsFor(blocks[k := b]) == Counts(CountsFor(blocks).covered + Ran(b), CountsFor(blocks).total + b.stmts)
  {
    SumWrite(Stmts(blocks), k, b.stmts);
    SumWrite(RanStmts(blocks), k, Ran(b));
    assert Stmts(blocks[k := b]) == Stmts(blocks)[k := b.stmts];
    assert RanStmts(blocks[k := b]) == RanStmts(blocks)[k := Ran(b)];
  }

  lemma OfPackageOneMore(blocks: Blocks, dir: Dir, k: string, b: Block, p: string)
    requires k !in blocks
    ensures OfPackage(blocks[k := b], dir, p)
            == if PkgOf(k, dir) == p then OfPackage(blocks, dir, p)[k := b] else OfPackage(blocks, dir, p)
  {
    hide PkgOf;
  }

  lemma EmptyCounts()
    ensures CountsFor(map[]) == Counts(0, 0)
  {
  }

  lemma AddBlock(blocks: Blocks, dir: Dir, s: Summary, k: string, b: Block)
    requires Sums(blocks, dir, s) && k !in blocks
    ensures Sums(blocks[k := b], dir, AddLines(s, PkgOf(k, dir), Ran(b), b.stmts))
  {
    hide PkgOf;
    hide CountsFor;
    hide Ran;
    var p := PkgOf(k, dir);
    var t := AddLines(s, p, Ran(b), b.stmts);
    CountsForOneMore(blocks, k, b);
    CountsForOneMore(OfPackage(blocks, dir, p), k, b);
    EmptyCounts();
    forall q ensures (q in t.perPkg <==> OfPackage(blocks[k := b], dir, q) != map[])
                     && (q in t.perPkg ==> t.perPkg[q] == CountsFor(OfPackage(blocks[k := b], dir, q)))
    {
      OfPackageOneMore(blocks, dir, k, b, q);
      assert k in OfPackage(blocks, dir, p)[k := b];
    }
  }

  /** Blocks determine the summary. */
  lemma SumsAreUnique(blocks: Blocks, dir: Dir, s: Summary, t: Summary)
    requires Sums(blocks, dir, s) && Sums(blocks, dir, t)
    ensures s == t
  {
    hide OfPackage;
    hide CountsFor;
    assert s.perPkg.Keys == t.perPkg.Keys;
    assert s.perPkg == t.perPkg;
  }

  // ---------------------------------------------------------- 64-bit totals

  predicate NaturalSizes(blocks: Blocks) {
    forall k <- blocks :: blocks[k].stmts >= 0
  }

  /** The keys of the blocks, each once: an order in which the map may be visited. */
  ghost predicate Enumerates(order: seq<string>, blocks: Blocks) {
    NoDup(order) && forall k :: k in order <==> k in blocks
  }

  /** The 64-bit counters after visiting these blocks in this order. */
  function Visit(order: seq<string>, blocks: Blocks, dir: Dir): Summary
    requires forall k <- order :: k in blocks
  {
    if order == [] then NOTHING
    else
      var k := order[|order| - 1];
      AddLines64(Visit(order[..|order| - 1], blocks, dir), PkgOf(k, dir), Ran(blocks[k]), blocks[k].stmts)
  }

  function Restrict(blocks: Blocks, order: seq<string>): Blocks {
    map k | k in blocks && k in order :: blocks[k]
  }

  /** Any prefix of a visit holds the exact sums of its blocks, wrapped. */
  lemma {:induction false} VisitWraps(order: seq<string>, blocks: Blocks, dir: Dir) returns (exact: Summary)
    requires NoDup(order) && NaturalSizes(blocks) && forall k <- order :: k in blocks
    ensures Sums(Restrict(blocks, order), dir, exact) && Consistent(exact)
    ensures Visit(order, blocks, dir) == Wrapped(exact)
    decreases |order|
  {
    hide Sums;
    hide Consistent;
    hide PkgOf;
    if order == [] {
      NothingSums(dir);
      NothingIsConsistent();
      NothingWraps();
      assert Restrict(blocks, order) == map[];
      exact := NOTHING;
    } else {
      var init, k := order[..|order| - 1], order[|order| - 1];
      assert order == init + [k];
      var b := blocks[k];
      var before := VisitWraps(init, blocks, dir);
      assert Restrict(blocks, order) == Restrict(blocks, init)[k := b];
      AddBlock(Restrict(blocks, init), dir, before, k, b);
      AddKeepsConsistent(before, PkgOf(k, dir), Ran(b), b.stmts);
      AddThenWrap(before, PkgOf(k, dir), Ran(b), b.stmts);
      exact := AddLines(before, PkgOf(k, dir), Ran(b), b.stmts);
    }
  }

  /** In whatever order the map is visited, the 64-bit summary is the wrapped exact one, and it is the exact one
      (in every package and overall) if and only if the total number of statements fits in 64 bits. */
  lemma ExactIffTheTotalFits(order: seq<string>, blocks: Blocks, dir: Dir, exact: Summary)
    requires Enumerates(order, blocks) && NaturalSizes(blocks) && Sums(blocks, dir, exact)
    ensures Visit(order, blocks, dir) == Wrapped(exact) && Consistent(exact)
    ensures Visit(order, blocks, dir) == exact <==> InInt64(SumMap(Stmts(blocks)))
    ensures InInt64(SumMap(Stmts(blocks))) ==> Consistent(Visit(order, blocks, dir))
  {
    var same := VisitWraps(order, blocks, dir);
    assert Restrict(blocks, order) == blocks;
    SumsAreUnique(blocks, dir, exact, same);
    WrappedIsExactIff(exact);
  }

  /** When it does not fit, more can be covered than there is: a profile of one huge block that did not run and
      one statement that did, in either order of visiting. */
  lemma OverflowPaintsMoreThanAll(a: string, b: string, dir: Dir, order: seq<string>)
    requires a != b && Enumerates(order, MergeAll([Rec(a, INT64_MAX, 0), Rec(b, 1, 1)]))
    ensures Visit(order, MergeAll([Rec(a, INT64_MAX, 0), Rec(b, 1, 1)]), dir).covered == 1
    ensures Visit(order, MergeAll([Rec(a, INT64_MAX, 0), Rec(b, 1, 1)]), dir).total == -INT64_MAX - 1
  {
    hide Sums;
    hide Visit;
    hide MergeAll;
    hide SumMap;
    hide Consistent;
    TwoRecords(a, b);
    var exact := TwoBlocks(a, b, dir);
    ExactIffTheTotalFits(order, MergeAll([Rec(a, INT64_MAX, 0), Rec(b, 1, 1)]), dir, exact);
  }

  lemma TwoBlocks(a: string, b: string, dir: Dir) returns (exact: Summary)
    requires a != b
    ensures Sums(map[a := Block(INT64_MAX, false)][b := Block(1, true)], dir, exact)
    ensures exact.covered == 1 && exact.total == INT64_MAX + 1
  {
    hide Sums;
    hide PkgOf;
    var huge, small := Block(INT64_MAX, false), Block(1, true);
    NothingSums(dir);
    AddBlock(map[], dir, NOTHING, a, huge);
    var one := AddLines(NOTHING, PkgOf(a, dir), 0, INT64_MAX);
    AddBlock(map[a := huge], dir, one, b, small);
    exact := AddLines(one, PkgOf(b, dir), 1, 1);
  }

  lemma TwoRecords(a: string, b: string)
    requires a != b
    ensures MergeAll([Rec(a, INT64_MAX, 0), Rec(b, 1, 1)]) == map[a := Block(INT64_MAX, false)][b := Block(1, true)]
  {
    var r, t := Rec(a, INT64_MAX, 0), Rec(b, 1, 1);
    assert [r, t][..1] == [r] && [r][..0] == [];
    assert MergeAll([]) == map[];
    assert MergeAll([r]) == map[a := Block(INT64_MAX, false)];
  }

  /** Sums the blocks, in any order; `exact` is what the counters would be with unbounded integers. */
  method Summarise(blocks: Blocks, dir: Dir) returns (s: Summary, ghost exact: Summary)
    requires NaturalSizes(blocks)
    ensures Sums(blocks, dir, exact) && Consistent(exact)
    ensures s == Wrapped(exact) && (s == exact <==> InInt64(exact.total))
  {
    hide Consistent;
    hide Sums;
    hide PkgOf;
    hide AddLines64;
    s := NOTHING;
    var items := blocks.Keys;
    ghost var order: seq<string> := [];
    while items != {}
      invariant items <= blocks.Keys
      invariant NoDup(order) && forall k :: k in order <==> k in blocks && k !in items
      invariant s == Visit(order, blocks, dir)
      decreases |items|
    {
      var k :| k in items;
      var b := blocks[k];
      items := items - {k};
      assert (order + [k])[..|order|] == order;
      order := order + [k];
      s := AddLines64(s, PkgOf(k, dir), if b.covered then b.stmts else 0, b.stmts);
    }
    exact := VisitWraps(order, blocks, dir);
    assert Restrict(blocks, order) == blocks;
    WrappedIsExactIff(exact);
  }

  lemma NothingSums(dir: Dir)
    ensures Sums(map[], dir, NOTHING)
  {
  }

  // --------------------------------------------------------------- the parser

  /** The records of a profile, None for a missing header or a malformed line. */
  function Records(lines: seq<string>): Option<seq<Rec>> {
    if lines == [] then Some([])
    else
      var init, line := Records(lines[..|lines| - 1]), lines[|lines| - 1];
      if init.None? || line == "" then init
      else if !HasHeader(lines[..|lines| - 1]) then (if "mode:" <= line then init else None)
      else
        var r := ParseLine(line);
        if r.None? then None else Some(init.value + [r.value])
  }

  /** Some line is not blank: the header has been seen. */
  predicate HasHeader(lines: seq<string>) {
    exists k | 0 <= k < |lines| :: lines[k] != ""
  }

  /** A line too long for the scanner and an empty profile are errors. `exact` is the summary in unbounded
      integers. */
  method ParseGoCover(raw: seq<string>, trim: Trim, dir: Dir) returns (r: Option<Summary>, ghost exact: Summary)
    ensures var recs := Records(Trimmed(raw, trim));
            r.Some? <==> Scannable(raw) && recs.Some? && recs.value != []
    ensures r.Some? ==> Sums(MergeAll(Records(Trimmed(raw, trim)).value), dir, exact) && Consistent(exact)
    ensures r.Some? ==> r.value == Wrapped(exact) && (r.value == exact <==> InInt64(exact.total))
  {
    hide ParseLine;
    hide Sums;
    hide Consistent;
    hide Wrapped;
    NothingRead();
    hide HasHeader;
    hide Records;
    hide MergeAll;
    hide Merge;
    var blocks: Blocks := map[];
    var first := true;
    ghost var recs: seq<Rec> := [];
    ghost var lines := Trimmed(raw, trim);
    for i := 0 to |raw|
      invariant forall k | 0 <= k < i :: |raw[k]| < MAX_LINE
      invariant first <==> !HasHeader(lines[..i])
      invariant Records(lines[..i]) == Some(recs)
      invariant blocks == MergeAll(recs) && (recs != [] <==> blocks != map[])
      invariant forall x <- recs :: x.stmts >= 0
    {
      if |raw[i]| >= MAX_LINE {
        return None, NOTHING;
      }
      var line := trim(raw[i]);
      OneMoreLine(lines, i);
      OneMoreRecord(lines, i, recs);
      if line == "" {
        continue;
      }
      if first {
        first := false;
        if !("mode:" <= line) {
          BadPrefixIsBad(lines, i + 1);
          return None, NOTHING;
        }
        continue;
      }
      var rec := ParseLine(line);
      if rec.None? {
        BadPrefixIsBad(lines, i + 1);
        return None, NOTHING;
      }
      SizeIsNatural(line);
      OneMoreMerged(recs, rec.value);
      recs := recs + [rec.value];
      blocks := Merge(blocks, rec.value);
    }
    assert lines[..|lines|] == lines;
    if blocks == map[] {
      return None, NOTHING;
    }
    SizesAreNatural(recs);
    var s;
    s, exact := Summarise(blocks, dir);
    r := Some(s);
  }

  lemma NothingRead()
    ensures Records([]) == Some([]) && !HasHeader([]) && MergeAll([]) == map[]
  {
  }

  lemma OneMoreRecord(lines: seq<string>, i: nat, recs: seq<Rec>)
    requires i < |lines| && Records(lines[..i]) == Some(recs)
    ensures Records(lines[..i + 1])
            == if lines[i] == "" then Some(recs)
               else if !HasHeader(lines[..i]) then (if "mode:" <= lines[i] then Some(recs) else None)
               else if ParseLine(lines[i]).None? then None
               else Some(recs + [ParseLine(lines[i]).value])
  {
    hide ParseLine;
    hide HasHeader;
    assert lines[..i + 1][..i] == lines[..i] && lines[..i + 1][i] == lines[i];
  }

  lemma OneMoreMerged(recs: seq<Rec>, r: Rec)
    ensures MergeAll(recs + [r]) == Merge(MergeAll(recs), r) && MergeAll(recs + [r]) != map[]
  {
    assert (recs + [r])[..|recs|] == recs;
    assert r.key in Merge(MergeAll(recs), r);
  }

  lemma OneMoreLine(lines: seq<string>, i: nat)
    requires i < |lines|
    ensures lines[..i + 1][..i] == lines[..i] && lines[..i + 1][i] == lines[i]
    ensures HasHeader(lines[..i + 1]) <==> HasHeader(lines[..i]) || lines[i] != ""
  {
    assert lines[..i + 1] == lines[..i] + [lines[i]];
    if HasHeader(lines[..i]) {
      var k :| 0 <= k < i && lines[..i][k] != "";
      assert lines[..i + 1][k] != "";
    }
    if lines[i] != "" {
      assert lines[..i + 1][i] != "";
    }
    if HasHeader(lines[..i + 1]) && lines[i] == "" {
      var k :| 0 <= k < i + 1 && lines[..i + 1][k] != "";
      assert lines[..i][k] != "";
    }
  }

  lemma SizeIsNatural(line: string)
    requires ParseLine(line).Some?
    ensures ParseLine(line).value.stmts >= 0
  {
  }

  lemma {:induction false} BadPrefixIsBad(lines: seq<string>, n: nat)
    requires n <= |lines| && Records(lines[..n]).None?
    ensures Records(lines).None?
    decreases |lines| - n
  {
    hide ParseLine;
    hide HasHeader;
    if n < |lines| {
      assert lines[..n + 1][..n] == lines[..n];
      BadPrefixIsBad(lines, n + 1);
    } else {
      assert lines[..n] == lines;
    }
  }
}
