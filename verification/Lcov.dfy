/** lcov tracefiles (agent/internal/runner/coverage.go). */
module Lcov {
  import opened Wrappers
  import opened Decimal
  import opened Strings
  import opened CoverageTotals
  import opened Scanner

  /** A line of a tracefile; an LF or LH that is no 64-bit number has no value. */
  datatype Line = SF(path: string) | LF(v: Option<int>) | LH(v: Option<int>) | DA(hit: bool) | End | Other

  /** DA:line,hits[,checksum] */
  predicate IsHit(rest: string) {
    var parts := Split(rest, ',');
    |parts| >= 2 && ParseInt(parts[1]).Some? && ParseInt(parts[1]).value > 0
  }

  function Classify(line: string): Line {
    if "SF:" <= line then SF(line[3..])
    else if "LF:" <= line then LF(ParseInt(line[3..]))
    else if "LH:" <= line then LH(ParseInt(line[3..]))
    else if "DA:" <= line then DA(IsHit(line[3..]))
    else if line == "end_of_record" then End
    else Other
  }

  /** The lines as tools write them are read for what they say. */
  lemma ClassifyReads(path: string, n: int, line: int, count: int)
    requires InInt64(n) && InInt64(count)
    ensures Classify("SF:" + path) == SF(path)
    ensures Classify("LF:" + FormatInt(n)) == LF(Some(n))
    ensures Classify("LH:" + FormatInt(n)) == LH(Some(n))
    ensures Classify("DA:" + (FormatInt(line) + ([','] + FormatInt(count)))) == DA(count > 0)
    ensures Classify("end_of_record") == End
  {
    hide FormatInt;
    hide ParseInt;
    hide IsHit;
    ReadFormat(n);
    HitReads(line, count);
    ThreeLetters("SF:", path);
    ThreeLetters("LF:", FormatInt(n));
    ThreeLetters("LH:", FormatInt(n));
    ThreeLetters("DA:", FormatInt(line) + ([','] + FormatInt(count)));
  }

  lemma ThreeLetters(p: string, rest: string)
    requires |p| == 3
    ensures (p + rest)[3..] == rest && p <= p + rest
    ensures (p + rest)[0] == p[0] && (p + rest)[1] == p[1]
  {
  }

  lemma HitReads(line: int, count: int)
    requires InInt64(count)
    ensures IsHit(FormatInt(line) + ([','] + FormatInt(count))) <==> count > 0
  {
    hide FormatInt;
    hide ParseInt;
    hide Split;
    var a, b := FormatInt(line), FormatInt(count);
    NumbersHaveNoCommas(line);
    NumbersHaveNoCommas(count);
    SplitFirst(a, ',', b);
    SplitWhole(b, ',');
    ReadFormat(count);
  }

  lemma NumbersHaveNoCommas(n: int)
    ensures ',' !in FormatInt(n)
  {
    FormatNonEmpty(n);
    forall k | 0 <= k < |FormatInt(n)| ensures FormatInt(n)[k] != ',' {
      assert k > 0 ==> IsDigit(FormatInt(n)[k]);
      assert AllDigits(Digits(if n < 0 then -n else n));
    }
  }

  type Dir = string -> string

  /** How a record is added to the totals: AddLines with exact numbers, AddLines64 with the program's counters. */
  type Adder = (Summary, string, int, int) -> Summary

  /** The variables of the parser. */
  datatype State = State(sum: Summary, curFile: string, lf: int, lh: int, daTotal: int, daCover: int, sawLF: bool,
                         records: nat, bad: bool)

  const START := State(NOTHING, "", 0, 0, 0, 0, false, 0, false)

  /** Closes the current record, if there is one. */
  function Flush(st: State, dir: Dir, add: Adder): State {
    if st.curFile == "" || st.bad then st
    else
      var total := if st.sawLF then st.lf else st.daTotal;
      var covered := if st.sawLF then st.lh else st.daCover;
      if total < 0 || covered < 0 || covered > total then st.(records := st.records + 1, bad := true)
      else START.(sum := add(st.sum, dir(st.curFile), covered, total), records := st.records + 1)
  }

  function Feed(st: State, line: Line, dir: Dir, add: Adder): State {
    match line
    case SF(path) => Flush(st, dir, add).(curFile := path)
    case LF(v) => st.(lf := if v.Some? then v.value else 0, sawLF := true, bad := st.bad || v.None?)
    case LH(v) => st.(lh := if v.Some? then v.value else 0, sawLF := true, bad := st.bad || v.None?)
    case DA(hit) => st.(daTotal := st.daTotal + 1, daCover := st.daCover + (if hit then 1 else 0))
    case End => Flush(st, dir, add)
    case Other => st
  }

  function FeedAll(st: State, lines: seq<Line>, dir: Dir, add: Adder): State {
    if lines == [] then st else Feed(FeedAll(st, lines[..|lines| - 1], dir, add), lines[|lines| - 1], dir, add)
  }

  function Lines(raw: seq<string>): (lines: seq<Line>)
    ensures |lines| == |raw| && forall k | 0 <= k < |raw| :: lines[k] == Classify(raw[k])
  {
    seq(|raw|, k requires 0 <= k < |raw| => Classify(raw[k]))
  }

  function Result(lines: seq<Line>, dir: Dir, add: Adder): Option<Summary> {
    var end := Flush(FeedAll(START, lines, dir, add), dir, add);
    if end.bad || end.records == 0 then None else Some(end.sum)
  }

  /** The state with 64-bit totals. */
  function Narrow(st: State): State {
    st.(sum := Wrapped(st.sum))
  }

  lemma FlushNarrows(st: State, dir: Dir)
    ensures Flush(Narrow(st), dir, AddLines64) == Narrow(Flush(st, dir, AddLines))
  {
    hide Wrapped;
    hide AddLines;
    hide AddLines64;
    var total := if st.sawLF then st.lf else st.daTotal;
    var covered := if st.sawLF then st.lh else st.daCover;
    AddThenWrap(st.sum, dir(st.curFile), covered, total);
  }

  lemma FeedNarrows(st: State, line: Line, dir: Dir)
    ensures Feed(Narrow(st), line, dir, AddLines64) == Narrow(Feed(st, line, dir, AddLines))
  {
    hide Flush;
    hide Wrapped;
    FlushNarrows(st, dir);
  }

  lemma {:induction false} FeedAllNarrows(lines: seq<Line>, dir: Dir)
    ensures FeedAll(START, lines, dir, AddLines64) == Narrow(FeedAll(START, lines, dir, AddLines))
    decreases |lines|
  {
    hide Feed;
    if lines == [] {
      NothingWraps();
    } else {
      FeedAllNarrows(lines[..|lines| - 1], dir);
      FeedNarrows(FeedAll(START, lines[..|lines| - 1], dir, AddLines), lines[|lines| - 1], dir);
    }
  }

  lemma FlushKeepsConsistent(st: State, dir: Dir)
    requires Consistent(st.sum)
    ensures Consistent(Flush(st, dir, AddLines).sum)
  {
    hide Consistent;
    hide AddLines;
    var total := if st.sawLF then st.lf else st.daTotal;
    var covered := if st.sawLF then st.lh else st.daCover;
    if 0 <= covered <= total {
      AddKeepsConsistent(st.sum, dir(st.curFile), covered, total);
    }
  }

  lemma {:induction false} FeedAllIsConsistent(lines: seq<Line>, dir: Dir)
    ensures Consistent(FeedAll(START, lines, dir, AddLines).sum)
    decreases |lines|
  {
    hide Consistent;
    hide Flush;
    if lines == [] {
      NothingIsConsistent();
    } else {
      FeedAllIsConsistent(lines[..|lines| - 1], dir);
      FlushKeepsConsistent(FeedAll(START, lines[..|lines| - 1], dir, AddLines), dir);
    }
  }

  /** What the program reports for any lines at all: it accepts what exact arithmetic accepts, its counters are
      the exact ones wrapped, and they are the exact, consistent ones if and only if the exact total fits. */
  lemma ExactIffTheTotalFits(lines: seq<Line>, dir: Dir)
    ensures
      match Result(lines, dir, AddLines)
      case None => Result(lines, dir, AddLines64) == None
      case Some(exact) =>
        && Consistent(exact)
        && Result(lines, dir, AddLines64) == Some(Wrapped(exact))
        && (Wrapped(exact) == exact <==> InInt64(exact.total))
  {
    hide Flush;
    hide FeedAll;
    hide Consistent;
    hide Wrapped;
    var end := FeedAll(START, lines, dir, AddLines);
    FeedAllNarrows(lines, dir);
    FlushNarrows(end, dir);
    FeedAllIsConsistent(lines, dir);
    FlushKeepsConsistent(end, dir);
    WrappedIsExactIff(Flush(end, dir, AddLines).sum);
  }

  /** Reads any lines, with 64-bit counters; a line too long for the scanner is an error. */
  method ParseLcov(raw: seq<string>, trim: Trim, dir: Dir) returns (r: Option<Summary>)
    ensures r == if Scannable(raw) then Result(Lines(Trimmed(raw, trim)), dir, AddLines64) else None
    ensures r.Some? <==> Scannable(raw) && Result(Lines(Trimmed(raw, trim)), dir, AddLines).Some?
    ensures r.Some? ==>
              var exact := Result(Lines(Trimmed(raw, trim)), dir, AddLines).value;
              && Consistent(exact) && r.value == Wrapped(exact)
              && (r.value == exact <==> InInt64(exact.total))
  {
    hide Consistent;
    hide Feed;
    hide Flush;
    hide Wrapped;
    var st := START;
    ghost var lines := Lines(Trimmed(raw, trim));
    for i := 0 to |raw|
      invariant forall k | 0 <= k < i :: |raw[k]| < MAX_LINE
      invariant st == FeedAll(START, lines[..i], dir, AddLines64)
    {
      if |raw[i]| >= MAX_LINE {
        return None;
      }
      assert lines[..i + 1][..i] == lines[..i];
      assert lines[i] == Classify(trim(raw[i]));
      st := Feed(st, Classify(trim(raw[i])), dir, AddLines64);
    }
    assert lines[..|raw|] == lines;
    ExactIffTheTotalFits(lines, dir);
    st := Flush(st, dir, AddLines64);
    if st.bad || st.records == 0 {
      return None;
    }
    return Some(st.sum);
  }

  // ------------------------------------------------------ what a tracefile says

  /** A source file's record: one entry per line and its own totals, which win, or entries alone. */
  datatype Record = Summarised(path: string, hits: seq<bool>, found: int, hit: int) | Counted(path: string, hits: seq<bool>)

  function HitLines(hits: seq<bool>): seq<Line> {
    if hits == [] then [] else HitLines(hits[..|hits| - 1]) + [DA(hits[|hits| - 1])]
  }

  function HitCount(hits: seq<bool>): nat {
    if hits == [] then 0 else HitCount(hits[..|hits| - 1]) + (if hits[|hits| - 1] then 1 else 0)
  }

  function Body(r: Record): seq<Line> {
    match r
    case Summarised(_, hits, found, hit) => HitLines(hits) + [LF(Some(found))] + [LH(Some(hit))]
    case Counted(_, hits) => HitLines(hits)
  }

  function Written(rs: seq<Record>): seq<Line> {
    if rs == [] then []
    else Written(rs[..|rs| - 1]) + ([SF(rs[|rs| - 1].path)] + Body(rs[|rs| - 1]) + [End])
  }

  function Covered(r: Record): int {
    match r case Summarised(_, _, _, hit) => hit case Counted(_, hits) => HitCount(hits)
  }

  function Total(r: Record): int {
    match r case Summarised(_, _, found, _) => found case Counted(_, hits) => |hits|
  }

  predicate Plausible(r: Record) {
    0 <= Covered(r) <= Total(r)
  }

  /** The sum of all records, each under its file's directory. */
  function SumOf(rs: seq<Record>, dir: Dir, add: Adder): Summary {
    if rs == [] then NOTHING
    else add(SumOf(rs[..|rs| - 1], dir, add), dir(rs[|rs| - 1].path), Covered(rs[|rs| - 1]), Total(rs[|rs| - 1]))
  }

  lemma {:induction false} FeedConcat(st: State, a: seq<Line>, b: seq<Line>, dir: Dir, add: Adder)
    ensures FeedAll(st, a + b, dir, add) == FeedAll(FeedAll(st, a, dir, add), b, dir, add)
    decreases |b|
  {
    hide Feed;
    if b == [] {
      assert a + b == a;
    } else {
      assert (a + b)[..|a + b| - 1] == a + b[..|b| - 1];
      FeedConcat(st, a, b[..|b| - 1], dir, add);
    }
  }

  lemma FeedOne(st: State, line: Line, dir: Dir, add: Adder)
    ensures FeedAll(st, [line], dir, add) == Feed(st, line, dir, add)
  {
    hide Feed;
    assert [line][..0] == [];
    assert FeedAll(st, [line][..0], dir, add) == st;
  }

  lemma {:induction false} FeedHits(st: State, hits: seq<bool>, dir: Dir, add: Adder)
    ensures FeedAll(st, HitLines(hits), dir, add)
            == st.(daTotal := st.daTotal + |hits|, daCover := st.daCover + HitCount(hits))
    decreases |hits|
  {
    if hits != [] {
      FeedHits(st, hits[..|hits| - 1], dir, add);
      assert HitLines(hits)[..|HitLines(hits)| - 1] == HitLines(hits[..|hits| - 1]);
    }
  }

  lemma {:induction false} HitsAreBounded(hits: seq<bool>)
    ensures HitCount(hits) <= |hits|
    decreases |hits|
  {
    if hits != [] {
      HitsAreBounded(hits[..|hits| - 1]);
    }
  }

  lemma FeedBody(st: State, r: Record, dir: Dir, add: Adder)
    requires !st.sawLF && st.lf == st.lh == st.daTotal == st.daCover == 0
    ensures var t := FeedAll(st, Body(r), dir, add);
            && t.sum == st.sum && t.curFile == st.curFile && t.records == st.records && t.bad == st.bad
            && (if t.sawLF then t.lf else t.daTotal) == Total(r) && (if t.sawLF then t.lh else t.daCover) == Covered(r)
  {
    hide FeedAll;
    hide HitLines;
    hide HitCount;
    match r
    case Summarised(_, hits, found, hit) =>
      var a, b, c := HitLines(hits), [LF(Some(found))], [LH(Some(hit))];
      FeedConcat(st, a + b, c, dir, add);
      FeedConcat(st, a, b, dir, add);
      FeedHits(st, hits, dir, add);
      FeedOne(FeedAll(st, a, dir, add), LF(Some(found)), dir, add);
      FeedOne(FeedAll(st, a + b, dir, add), LH(Some(hit)), dir, add);
    case Counted(_, hits) =>
      FeedHits(st, hits, dir, add);
  }

  /** Between records the parser only remembers the sum and the number of records. */
  predicate Between(st: State) {
    st == START.(sum := st.sum, records := st.records)
  }

  lemma FeedRecord(st: State, r: Record, dir: Dir, add: Adder)
    requires Between(st) && r.path != ""
    ensures var t := FeedAll(st, [SF(r.path)] + Body(r) + [End], dir, add);
            if Plausible(r) then t == st.(sum := add(st.sum, dir(r.path), Covered(r), Total(r)), records := st.records + 1)
            else t.bad
  {
    hide Body;
    var head, body := [SF(r.path)], Body(r);
    FeedConcat(st, head + body, [End], dir, add);
    FeedConcat(st, head, body, dir, add);
    FeedOne(st, SF(r.path), dir, add);
    var s1 := FeedAll(st, head, dir, add);
    FeedBody(s1, r, dir, add);
    FeedOne(FeedAll(s1, body, dir, add), End, dir, add);
  }

  lemma {:induction false} BadStays(st: State, lines: seq<Line>, dir: Dir, add: Adder)
    requires st.bad
    ensures FeedAll(st, lines, dir, add).bad
    decreases |lines|
  {
    if lines != [] {
      BadStays(st, lines[..|lines| - 1], dir, add);
    }
  }

  lemma {:induction false} FeedRecords(rs: seq<Record>, dir: Dir, add: Adder)
    requires forall r <- rs :: r.path != ""
    ensures var t := FeedAll(START, Written(rs), dir, add);
            if forall r <- rs :: Plausible(r) then t == START.(sum := SumOf(rs, dir, add), records := |rs|)
            else t.bad
    decreases |rs|
  {
    if rs != [] {
      hide Feed;
      hide Plausible;
      hide Covered;
      hide Total;
      var init, r := rs[..|rs| - 1], rs[|rs| - 1];
      assert rs == init + [r] && r in rs;
      FeedRecords(init, dir, add);
      var lines := [SF(r.path)] + Body(r) + [End];
      FeedConcat(START, Written(init), lines, dir, add);
      var st := FeedAll(START, Written(init), dir, add);
      if forall x <- init :: Plausible(x) {
        FeedRecord(st, r, dir, add);
      } else {
        BadStays(st, lines, dir, add);
      }
    }
  }

  /** A record that only lists its lines is always plausible. */
  lemma CountedIsPlausible(r: Record)
    requires r.Counted?
    ensures Plausible(r)
  {
    HitsAreBounded(r.hits);
  }

  /** Reading back a written tracefile gives exactly the sum of its records; it is refused exactly when it has no
      record, or one whose own totals claim more hit lines than lines. */
  lemma ReadsItsRecords(rs: seq<Record>, dir: Dir, add: Adder)
    requires forall r <- rs :: r.path != ""
    ensures Result(Written(rs), dir, add) ==
            if rs != [] && forall r <- rs | r.Summarised? :: Plausible(r) then Some(SumOf(rs, dir, add)) else None
  {
    hide Feed;
    hide Plausible;
    hide Written;
    FeedRecords(rs, dir, add);
    forall r <- rs | r.Counted? ensures Plausible(r) {
      CountedIsPlausible(r);
    }
  }

  /** Totals do wrap: two files of which one claims 2^63 - 1 lines that did not run and the other one line that did. */
  lemma OverflowPaintsMoreThanAll(a: string, b: string, dir: Dir)
    requires a != "" && b != ""
    ensures var r := Result(Written([Summarised(a, [], INT64_MAX, 0), Summarised(b, [], 1, 1)]), dir, AddLines64);
            r.Some? && r.value.covered == 1 && r.value.total == -INT64_MAX - 1
  {
    hide Written;
    hide SumOf;
    ReadsItsRecords([Summarised(a, [], INT64_MAX, 0), Summarised(b, [], 1, 1)], dir, AddLines64);
    HugeThenOne(a, b, dir);
  }

  lemma WrapSteps()
    ensures Wrap(0) == 0 && Wrap(1) == 1 && Wrap(INT64_MAX) == INT64_MAX && Wrap(INT64_MAX + 1) == -INT64_MAX - 1
  {
  }

  lemma HugeThenOne(a: string, b: string, dir: Dir)
    ensures var s := SumOf([Summarised(a, [], INT64_MAX, 0), Summarised(b, [], 1, 1)], dir, AddLines64);
            s.covered == 1 && s.total == -INT64_MAX - 1
  {
    var one, two := Summarised(a, [], INT64_MAX, 0), Summarised(b, [], 1, 1);
    hide Wrap;
    WrapSteps();
    assert [one, two][..1] == [one] && [one][..0] == [];
    assert SumOf([], dir, AddLines64) == NOTHING;
    var s := SumOf([one], dir, AddLines64);
    assert s == AddLines64(NOTHING, dir(a), 0, INT64_MAX);
    assert s.covered == 0 && s.total == INT64_MAX;
    assert SumOf([one, two], dir, AddLines64) == AddLines64(s, dir(b), 1, 1);
  }
}
