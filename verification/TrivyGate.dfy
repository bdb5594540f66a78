/** The gate policy over findings and a loaded baseline (plugins/scripts/trivy_gate.py). */
module TrivyGate {
  import opened Wrappers
  import opened TrivyBaseline
  import opened MapSums

  // --------------------------------------------------------------- load_findings

  /** A finding's identity and severity; the fix is metadata and not part of it. */
  function RowKey(f: Finding): Key {
    [f.trivyTarget, f.origin, f.resultClass, f.cve, f.package, f.installed, f.severity]
  }

  /** Two rows have the same key exactly when they differ in the fix at most. */
  lemma RowKeyIsIdentity(a: Finding, b: Finding)
    ensures RowKey(a) == RowKey(b) <==> a.(fixed := "") == b.(fixed := "")
  {
    var j, k := RowKey(a), RowKey(b);
    if j == k {
      assert forall i | 0 <= i < 7 :: j[i] == k[i];
    }
  }

  ghost predicate HasKey(rows: seq<Finding>, key: Key) {
    exists k | 0 <= k < |rows| :: RowKey(rows[k]) == key
  }

  ghost predicate KeptAt(rows: seq<Finding>, f: Finding, i: int) {
    0 <= i < |rows| && f == rows[i] && !HasKey(rows[..i], RowKey(f))
  }

  /** `out` keeps of each identity its first row, in order; at[k] is where row k was. */
  ghost predicate FirstOfEach(rows: seq<Finding>, out: seq<Finding>, at: seq<int>) {
    && |at| == |out|
    && (forall k | 0 <= k < |out| :: KeptAt(rows, out[k], at[k]))
    && (forall k, m | 0 <= k < m < |out| :: at[k] < at[m])
    && (forall key :: HasKey(rows, key) <==> HasKey(out, key))
  }

  ghost predicate IsDeduped(rows: seq<Finding>, out: seq<Finding>) {
    exists at: seq<int> :: FirstOfEach(rows, out, at)
  }

  ghost predicate AreKeys(seen: set<Key>, out: seq<Finding>) {
    forall key :: key in seen <==> HasKey(out, key)
  }

  lemma HasKeyAppend(rows: seq<Finding>, row: Finding, key: Key)
    ensures HasKey(rows + [row], key) <==> HasKey(rows, key) || RowKey(row) == key
  {
    hide RowKey;
    var all := rows + [row];
    if HasKey(rows, key) {
      var k :| 0 <= k < |rows| && RowKey(rows[k]) == key;
      assert RowKey(all[k]) == key;
    }
    assert all[|rows|] == row;
  }

  /** A report that lists a finding twice counts it once. */
  method DedupeFindings(rows: seq<Finding>) returns (findings: seq<Finding>)
    ensures IsDeduped(rows, findings)
  {
    hide HasKey;
    hide KeptAt;
    hide RowKey;
    findings := [];
    ghost var at: seq<int> := [];
    var seen: set<Key> := {};
    NoRows();
    for i := 0 to |rows|
      invariant FirstOfEach(rows[..i], findings, at) && AreKeys(seen, findings)
    {
      AddRow(rows[..i], rows[i], findings, at, seen);
      assert rows[..i + 1] == rows[..i] + [rows[i]];
      if RowKey(rows[i]) in seen {
        continue;
      }
      seen := seen + {RowKey(rows[i])};
      findings := findings + [rows[i]];
      at := at + [i];
    }
    assert rows[..|rows|] == rows;
  }

  lemma NoRows()
    ensures FirstOfEach([], [], []) && AreKeys({}, [])
  {
  }

  lemma StillKept(rows: seq<Finding>, row: Finding, f: Finding, i: int)
    requires KeptAt(rows, f, i)
    ensures KeptAt(rows + [row], f, i)
  {
    assert (rows + [row])[..i] == rows[..i];
  }

  lemma AddRow(rows: seq<Finding>, row: Finding, out: seq<Finding>, at: seq<int>, seen: set<Key>)
    requires FirstOfEach(rows, out, at) && AreKeys(seen, out)
    ensures RowKey(row) in seen ==> FirstOfEach(rows + [row], out, at)
    ensures RowKey(row) !in seen ==> FirstOfEach(rows + [row], out + [row], at + [|rows|])
    ensures AreKeys(seen + {RowKey(row)}, out + [row])
  {
    hide RowKey;
    hide HasKey;
    forall key ensures HasKey(rows + [row], key) <==> HasKey(rows, key) || RowKey(row) == key {
      HasKeyAppend(rows, row, key);
    }
    forall key ensures HasKey(out + [row], key) <==> HasKey(out, key) || RowKey(row) == key {
      HasKeyAppend(out, row, key);
    }
    forall k | 0 <= k < |out| ensures KeptAt(rows + [row], out[k], at[k]) {
      StillKept(rows, row, out[k], at[k]);
    }
    assert (rows + [row])[..|rows|] == rows;
  }

  // ------------------------------------------------------------------- the index

  function Index(ps: seq<Pair>): map<Key, Exc> {
    if ps == [] then map[]
    else Index(ps[..|ps| - 1])[PairKey(ps[|ps| - 1]) := ps[|ps| - 1].exc]
  }

  /** The index holds what is listed; with unique keys it holds exactly that. */
  lemma {:induction false} IndexHolds(ps: seq<Pair>, key: Key)
    ensures key in Index(ps) ==> exists i | 0 <= i < |ps| :: PairKey(ps[i]) == key && ps[i].exc == Index(ps)[key]
    ensures (exists i | 0 <= i < |ps| :: PairKey(ps[i]) == key) ==> key in Index(ps)
    decreases |ps|
  {
    hide PairKey;
    if ps != [] {
      var init, last := ps[..|ps| - 1], ps[|ps| - 1];
      IndexHolds(init, key);
      assert forall i | 0 <= i < |init| :: init[i] == ps[i];
      if key == PairKey(last) {
        assert PairKey(ps[|ps| - 1]) == key;
      } else if key in Index(init) {
        var i :| 0 <= i < |init| && PairKey(init[i]) == key && init[i].exc == Index(init)[key];
        assert PairKey(ps[i]) == key && ps[i].exc == Index(ps)[key];
      }
      if exists i | 0 <= i < |ps| :: PairKey(ps[i]) == key {
        var i :| 0 <= i < |ps| && PairKey(ps[i]) == key;
        if i < |init| {
          assert PairKey(init[i]) == key;
        }
      }
    }
  }

  // ---------------------------------------------------------------- the judgement

  datatype Kind = Failed | Warned | Matched

  predicate Relevant(f: Finding) {
    f.severity == CRITICAL || f.severity == HIGH
  }

  /** What one CRITICAL or HIGH finding comes to. */
  function Judge(index: map<Key, Exc>, target: string, f: Finding, today: int, enforce: bool): Kind {
    var key := FindingKey(target, f);
    if !KnownReportClass(f.resultClass) then Failed
    else if key !in index then (if f.severity == CRITICAL || enforce then Failed else Warned)
    else
      var e := index[key];
      if e.expires < today then Failed
      else if e.cls == OS_NO_FIX && f.severity != CRITICAL then Failed
      else if e.cls == OS_NO_FIX && f.fixed != "" then Failed
      else if f.severity == CRITICAL && e.cls != EMERGENCY && e.cls != OS_NO_FIX then Failed
      else Matched
  }

  /** The exception can hold the finding open, as long as it has not expired. */
  predicate Allows(e: Exc, f: Finding) {
    if f.severity == CRITICAL then e.cls == EMERGENCY || (e.cls == OS_NO_FIX && f.fixed == "")
    else e.cls != OS_NO_FIX
  }

  /** The policy, finding by finding: an unknown report class always fails; an uncovered finding fails when it
      is CRITICAL or HIGH is enforced and only warns otherwise; a covered one passes exactly when its
      exception has not expired and allows it. */
  lemma PolicyPerFinding(index: map<Key, Exc>, target: string, f: Finding, today: int, enforce: bool)
    requires Relevant(f)
    ensures var kind, key := Judge(index, target, f, today, enforce), FindingKey(target, f);
            && (!KnownReportClass(f.resultClass) ==> kind == Failed)
            && (KnownReportClass(f.resultClass) && key !in index ==>
                  kind == (if f.severity == HIGH && !enforce then Warned else Failed))
            && (KnownReportClass(f.resultClass) && key in index ==>
                  kind == if today <= index[key].expires && Allows(index[key], f) then Matched else Failed)
  {
    assert CRITICAL[0] != HIGH[0];
  }

  /** The finding draws on an exception. */
  predicate Uses(index: map<Key, Exc>, target: string, f: Finding) {
    Relevant(f) && KnownReportClass(f.resultClass) && FindingKey(target, f) in index
  }

  /** What an unused (exception, target) pair comes to. */
  function JudgeUnused(p: Pair, scanned: bool, today: int): Option<Kind> {
    if p.exc.expires < today then Some(Failed) else if scanned then Some(Warned) else None
  }

  datatype Line = OfFinding(target: string, f: Finding) | OfPair(p: Pair)

  datatype Counts = Counts(failures: nat, warnings: nat, matched: nat)

  datatype Report = Report(failures: seq<Line>, warnings: seq<Line>, matched: seq<Line>, byTarget: map<string, Counts>)

  function CountsOf(byTarget: map<string, Counts>, target: string): Counts {
    if target in byTarget then byTarget[target] else Counts(0, 0, 0)
  }

  function Bump(byTarget: map<string, Counts>, target: string, kind: Kind): map<string, Counts> {
    var c := CountsOf(byTarget, target);
    byTarget[target := match kind
                       case Failed => c.(failures := c.failures + 1)
                       case Warned => c.(warnings := c.warnings + 1)
                       case Matched => c.(matched := c.matched + 1)]
  }

  /** All that is counted for a target. */
  function Tally(r: Report, target: string): nat {
    var c := CountsOf(r.byTarget, target);
    c.failures + c.warnings + c.matched
  }

  function Counter(c: Counts, kind: Kind): nat {
    match kind case Failed => c.failures case Warned => c.warnings case Matched => c.matched
  }

  /** The report's list of one kind. */
  function LinesOf(r: Report, kind: Kind): seq<Line> {
    match kind case Failed => r.failures case Warned => r.warnings case Matched => r.matched
  }

  function TargetOf(line: Line): string {
    match line case OfFinding(target, _) => target case OfPair(p) => p.target
  }

  function CountFor(lines: seq<Line>, target: string): nat {
    if lines == [] then 0
    else CountFor(lines[..|lines| - 1], target) + (if TargetOf(lines[|lines| - 1]) == target then 1 else 0)
  }

  /** Each counter of each target is the number of that target's lines in the list of its kind. */
  ghost predicate WellCounted(r: Report) {
    && (forall line: Line, kind: Kind | line in LinesOf(r, kind) :: TargetOf(line) in r.byTarget)
    && forall t: string, kind: Kind :: Counter(CountsOf(r.byTarget, t), kind) == CountFor(LinesOf(r, kind), t)
  }

  /** Records one line and bumps the target's counter of that kind. */
  function Add(r: Report, target: string, kind: Kind, line: Line): Report {
    Report(if kind == Failed then r.failures + [line] else r.failures,
           if kind == Warned then r.warnings + [line] else r.warnings,
           if kind == Matched then r.matched + [line] else r.matched,
           Bump(r.byTarget, target, kind))
  }

  lemma AddLists(r: Report, target: string, kind: Kind, line: Line)
    ensures forall k: Kind :: LinesOf(Add(r, target, kind, line), k) == LinesOf(r, k) + if k == kind then [line] else []
    ensures WellCounted(r) && TargetOf(line) == target ==> WellCounted(Add(r, target, kind, line))
  {
    var s := Add(r, target, kind, line);
    forall k: Kind ensures LinesOf(s, k) == LinesOf(r, k) + if k == kind then [line] else [] {
    }
    if WellCounted(r) && TargetOf(line) == target {
      BumpCounts(r.byTarget, target, kind);
      hide Bump;
      hide Counter;
      hide CountsOf;
      hide CountFor;
      forall t: string, k: Kind ensures Counter(CountsOf(s.byTarget, t), k) == CountFor(LinesOf(s, k), t) {
        assert Counter(CountsOf(r.byTarget, t), k) == CountFor(LinesOf(r, k), t);
        CountOneMore(LinesOf(r, k), line, t);
      }
    }
  }

  lemma BumpCounts(byTarget: map<string, Counts>, target: string, kind: Kind)
    ensures Bump(byTarget, target, kind).Keys == byTarget.Keys + {target}
    ensures forall t: string, k: Kind :: Counter(CountsOf(Bump(byTarget, target, kind), t), k)
                                         == Counter(CountsOf(byTarget, t), k) + if t == target && k == kind then 1 else 0
  {
  }

  lemma CountOneMore(lines: seq<Line>, line: Line, t: string)
    ensures CountFor(lines + [line], t) == CountFor(lines, t) + if TargetOf(line) == t then 1 else 0
  {
    assert (lines + [line])[..|lines|] == lines;
  }

  lemma {:induction false} CountConcat(a: seq<Line>, b: seq<Line>, t: string)
    ensures CountFor(a + b, t) == CountFor(a, t) + CountFor(b, t)
    decreases |b|
  {
    if b == [] {
      assert a + b == a;
    } else {
      assert (a + b)[..|a + b| - 1] == a + b[..|b| - 1];
      CountConcat(a, b[..|b| - 1], t);
    }
  }

  lemma AddCounts(r: Report, target: string, kind: Kind, line: Line)
    ensures forall t {:trigger Tally(Add(r, target, kind, line), t)} ::
              Tally(Add(r, target, kind, line), t) == Tally(r, t) + (if t == target then 1 else 0)
    ensures Add(r, target, kind, line).failures == [] <==> r.failures == [] && kind != Failed
  {
    var s := Add(r, target, kind, line);
    forall t ensures Tally(s, t) == Tally(r, t) + (if t == target then 1 else 0) {
      assert t != target ==> CountsOf(s.byTarget, t) == CountsOf(r.byTarget, t);
    }
  }

  // -------------------------------------------------------------- the evaluation

  type Scan = map<string, seq<Finding>>

  function RelevantCount(fs: seq<Finding>): nat {
    if fs == [] then 0 else RelevantCount(fs[..|fs| - 1]) + (if Relevant(fs[|fs| - 1]) then 1 else 0)
  }

  /** The lines of one kind that a target's findings come to, in order. */
  function JudgedLines(index: map<Key, Exc>, target: string, fs: seq<Finding>, today: int, enforce: bool, kind: Kind): seq<Line> {
    if fs == [] then []
    else
      var f := fs[|fs| - 1];
      JudgedLines(index, target, fs[..|fs| - 1], today, enforce, kind)
      + (if Relevant(f) && Judge(index, target, f, today, enforce) == kind then [OfFinding(target, f)] else [])
  }

  /** The same for all scanned targets. */
  function ScanLines(index: map<Key, Exc>, names: seq<string>, scan: Scan, today: int, enforce: bool, kind: Kind): seq<Line> {
    if names == [] then []
    else
      var n := names[|names| - 1];
      ScanLines(index, names[..|names| - 1], scan, today, enforce, kind)
      + (if n in scan then JudgedLines(index, n, scan[n], today, enforce, kind) else [])
  }

  /** The lines of one kind that the unused pairs come to. */
  function UnusedLines(ps: seq<Pair>, used: set<Key>, scanned: set<string>, today: int, kind: Kind): seq<Line> {
    if ps == [] then []
    else
      var p := ps[|ps| - 1];
      UnusedLines(ps[..|ps| - 1], used, scanned, today, kind)
      + (if PairKey(p) !in used && JudgeUnused(p, p.target in scanned, today) == Some(kind) then [OfPair(p)] else [])
  }

  ghost predicate FindingsPass(index: map<Key, Exc>, target: string, fs: seq<Finding>, today: int, enforce: bool) {
    forall k | 0 <= k < |fs| && Relevant(fs[k]) :: Judge(index, target, fs[k], today, enforce) != Failed
  }

  ghost predicate UsedIn(index: map<Key, Exc>, target: string, fs: seq<Finding>, key: Key) {
    exists k | 0 <= k < |fs| :: Uses(index, target, fs[k]) && FindingKey(target, fs[k]) == key
  }

  ghost predicate Used(index: map<Key, Exc>, names: seq<string>, scan: Scan, key: Key) {
    exists i | 0 <= i < |names| && names[i] in scan :: UsedIn(index, names[i], scan[names[i]], key)
  }

  /** The pairs of one target that nothing used and that are expired or were scanned for. */
  function UnusedCount(ps: seq<Pair>, used: set<Key>, scanned: set<string>, today: int, t: string): nat {
    if ps == [] then 0
    else
      var p := ps[|ps| - 1];
      UnusedCount(ps[..|ps| - 1], used, scanned, today, t)
      + (if p.target == t && PairKey(p) !in used && JudgeUnused(p, p.target in scanned, today).Some? then 1 else 0)
  }

  function NamesCount(names: seq<string>, scan: Scan, t: string): nat {
    if names == [] then 0
    else
      var n := names[|names| - 1];
      NamesCount(names[..|names| - 1], scan, t) + (if n == t && n in scan then RelevantCount(scan[n]) else 0)
  }

  lemma {:induction false} NamesCountIs(names: seq<string>, scan: Scan, t: string)
    requires forall i, j | 0 <= i < j < |names| :: names[i] != names[j]
    requires forall n <- names :: n in scan
    ensures NamesCount(names, scan, t) == if t in names then RelevantCount(scan[t]) else 0
    decreases |names|
  {
    if names != [] {
      var init, n := names[..|names| - 1], names[|names| - 1];
      assert names == init + [n];
      NamesCountIs(init, scan, t);
    }
  }

  /** The policy: no finding is judged a failure, and no expired exception is left over. */
  ghost predicate Passes(names: seq<string>, scan: Scan, es: seq<Exc>, today: int, enforce: bool) {
    var index := Index(AllPairs(es));
    && (forall i | 0 <= i < |names| && names[i] in scan :: FindingsPass(index, names[i], scan[names[i]], today, enforce))
    && (forall p <- AllPairs(es) | p.exc.expires < today :: Used(index, names, scan, PairKey(p)))
  }

  /** `r` and `used` are `before` and `were` with the findings `fs` of a target judged. */
  ghost predicate Judged(index: map<Key, Exc>, target: string, fs: seq<Finding>, today: int, enforce: bool,
                         before: Report, were: set<Key>, r: Report, used: set<Key>)
  {
    && (forall t {:trigger Tally(r, t)} :: Tally(r, t) == Tally(before, t) + (if t == target then RelevantCount(fs) else 0))
    && (r.failures == [] <==> before.failures == [] && FindingsPass(index, target, fs, today, enforce))
    && (forall kind: Kind :: LinesOf(r, kind) == LinesOf(before, kind) + JudgedLines(index, target, fs, today, enforce, kind))
    && (WellCounted(before) ==> WellCounted(r))
    && (forall key :: key in used <==> key in were || UsedIn(index, target, fs, key))
  }

  /** The findings of one target. */
  method JudgeTarget(index: map<Key, Exc>, target: string, fs: seq<Finding>, today: int, enforce: bool,
                     before: Report, were: set<Key>)
    returns (r: Report, used: set<Key>)
    ensures Judged(index, target, fs, today, enforce, before, were, r, used)
  {
    hide Judge;
    hide Relevant;
    hide FindingKey;
    hide Add;
    r, used := before, were;
    NothingJudged(index, target, today, enforce, r, used);
    hide Judged;
    for i := 0 to |fs|
      invariant Judged(index, target, fs[..i], today, enforce, before, were, r, used)
    {
      var f := fs[i];
      assert fs[..i + 1] == fs[..i] + [f];
      JudgeOne(index, target, fs[..i], f, today, enforce, before, were, r, used);
      if !Relevant(f) {
        continue;
      }
      r := Add(r, target, Judge(index, target, f, today, enforce), OfFinding(target, f));
      if Uses(index, target, f) {
        used := used + {FindingKey(target, f)};
      }
    }
    assert fs[..|fs|] == fs;
  }

  lemma NothingJudged(index: map<Key, Exc>, target: string, today: int, enforce: bool, r: Report, used: set<Key>)
    ensures Judged(index, target, [], today, enforce, r, used, r, used)
  {
    hide Tally;
    hide LinesOf;
    hide WellCounted;
    assert RelevantCount([]) == 0;
    assert forall kind: Kind :: JudgedLines(index, target, [], today, enforce, kind) == [];
    assert forall kind: Kind :: LinesOf(r, kind) + JudgedLines(index, target, [], today, enforce, kind) == LinesOf(r, kind);
    assert forall key :: !UsedIn(index, target, [], key);
    assert FindingsPass(index, target, [], today, enforce);
  }

  lemma JudgeOne(index: map<Key, Exc>, target: string, fs: seq<Finding>, f: Finding, today: int, enforce: bool,
                 before: Report, were: set<Key>, r: Report, used: set<Key>)
    requires Judged(index, target, fs, today, enforce, before, were, r, used)
    ensures var kind := Judge(index, target, f, today, enforce);
            Judged(index, target, fs + [f], today, enforce, before, were,
                   if Relevant(f) then Add(r, target, kind, OfFinding(target, f)) else r,
                   if Uses(index, target, f) then used + {FindingKey(target, f)} else used)
  {
    hide Judge;
    hide Relevant;
    hide FindingKey;
    hide Tally;
    hide Add;
    hide LinesOf;
    hide WellCounted;
    hide RelevantCount;
    hide FindingsPass;
    hide UsedIn;
    var kind := Judge(index, target, f, today, enforce);
    var line := OfFinding(target, f);
    OneMore(index, target, fs, f, today, enforce);
    assert (fs + [f])[..|fs|] == fs;
    AddCounts(r, target, kind, line);
    AddLists(r, target, kind, line);
    var r' := if Relevant(f) then Add(r, target, kind, line) else r;
    forall k: Kind ensures LinesOf(r', k) == LinesOf(before, k) + JudgedLines(index, target, fs + [f], today, enforce, k) {
      var more: seq<Line> := if Relevant(f) && kind == k then [line] else [];
      assert LinesOf(r', k) == LinesOf(r, k) + more;
      assert JudgedLines(index, target, fs + [f], today, enforce, k) == JudgedLines(index, target, fs, today, enforce, k) + more;
    }
  }

  lemma OneMore(index: map<Key, Exc>, target: string, fs: seq<Finding>, f: Finding, today: int, enforce: bool)
    ensures Uses(index, target, f) ==> Relevant(f)
    ensures RelevantCount(fs + [f]) == RelevantCount(fs) + (if Relevant(f) then 1 else 0)
    ensures FindingsPass(index, target, fs + [f], today, enforce) <==>
            FindingsPass(index, target, fs, today, enforce) && (Relevant(f) ==> Judge(index, target, f, today, enforce) != Failed)
    ensures forall key :: UsedIn(index, target, fs + [f], key) <==>
                          UsedIn(index, target, fs, key)
                                               || (Uses(index, target, f) && FindingKey(target, f) == key)
  {
    hide Judge;
    hide Relevant;
    hide FindingKey;
    assert Uses(index, target, f) ==> Relevant(f);
    hide Uses;
    var gs := fs + [f];
    assert gs[..|fs|] == fs && gs[|fs|] == f;
    assert forall k | 0 <= k < |fs| :: gs[k] == fs[k];
    forall key ensures UsedIn(index, target, gs, key) <==>
              (UsedIn(index, target, fs, key) || (Uses(index, target, f) && FindingKey(target, f) == key)) {
      if UsedIn(index, target, fs, key) {
        var k :| 0 <= k < |fs| && Uses(index, target, fs[k]) && FindingKey(target, fs[k]) == key;
        assert Uses(index, target, gs[k]) && FindingKey(target, gs[k]) == key;
      }
    }
  }

  /** The pairs no finding has used. */
  method JudgeLeftovers(ps: seq<Pair>, used: set<Key>, scanned: set<string>, today: int, before: Report) returns (r: Report)
    ensures forall t {:trigger Tally(r, t)} :: Tally(r, t) == Tally(before, t) + UnusedCount(ps, used, scanned, today, t)
    ensures r.failures == [] <==>
                (before.failures == [] && forall k | 0 <= k < |ps| && ps[k].exc.expires < today :: PairKey(ps[k]) in used)
    ensures forall kind: Kind :: LinesOf(r, kind) == LinesOf(before, kind) + UnusedLines(ps, used, scanned, today, kind)
    ensures WellCounted(before) ==> WellCounted(r)
  {
    hide PairKey;
    hide Tally;
    hide Add;
    hide LinesOf;
    hide WellCounted;
    r := before;
    assert forall t :: UnusedCount(ps[..0], used, scanned, today, t) == 0;
    for i := 0 to |ps|
      invariant forall t {:trigger Tally(r, t)} :: Tally(r, t) == Tally(before, t) + UnusedCount(ps[..i], used, scanned, today, t)
      invariant r.failures == [] <==>
                (before.failures == [] && forall k | 0 <= k < i && ps[k].exc.expires < today :: PairKey(ps[k]) in used)
      invariant forall kind: Kind :: LinesOf(r, kind) == LinesOf(before, kind) + UnusedLines(ps[..i], used, scanned, today, kind)
      invariant WellCounted(before) ==> WellCounted(r)
    {
      var p := ps[i];
      assert ps[..i + 1][..i] == ps[..i];
      if PairKey(p) in used {
        continue;
      }
      var kind := JudgeUnused(p, p.target in scanned, today);
      if kind.Some? {
        AddCounts(r, p.target, kind.value, OfPair(p));
        AddLists(r, p.target, kind.value, OfPair(p));
        r := Add(r, p.target, kind.value, OfPair(p));
      }
    }
    assert ps[..|ps|] == ps;
  }

  /** Evaluates the policy. The report fails exactly when the policy is not met; each list holds exactly the lines
      judged of its kind, in order, and each target's counters count its lines in them; together they add up to
      its CRITICAL and HIGH findings plus its expired or obsolete exceptions. */
  method Evaluate(names: seq<string>, scan: Scan, es: seq<Exc>, today: int, enforce: bool)
    returns (r: Report, ghost used: set<Key>)
    requires forall i, j | 0 <= i < j < |names| :: names[i] != names[j]
    requires forall n :: n in names <==> n in scan
    ensures r.failures == [] <==> Passes(names, scan, es, today, enforce)
    ensures forall key :: key in used <==> Used(Index(AllPairs(es)), names, scan, key)
    ensures Lists(r, names, scan, es, used, today, enforce) && WellCounted(r)
    ensures forall t {:trigger Tally(r, t)} :: Tally(r, t) == (if t in scan then RelevantCount(scan[t]) else 0)
                                              + UnusedCount(AllPairs(es), used, scan.Keys, today, t)
  {
    hide Tally;
    hide FindingsPass;
    hide UsedIn;
    hide Index;
    hide AllPairs;
    hide UnusedCount;
    hide RelevantCount;
    hide PairKey;
    hide LinesOf;
    hide WellCounted;
    hide JudgedLines;
    hide UnusedLines;
    var index := BuildIndex(es);
    r := Report([], [], [], map[]);
    NothingCounted();
    var usedKeys: set<Key> := {};
    for i := 0 to |names|
      invariant forall t {:trigger Tally(r, t)} :: Tally(r, t) == NamesCount(names[..i], scan, t)
      invariant forall kind: Kind :: LinesOf(r, kind) == ScanLines(index, names[..i], scan, today, enforce, kind)
      invariant WellCounted(r)
      invariant r.failures == [] <==> forall k | 0 <= k < i && names[k] in scan
                                     :: FindingsPass(index, names[k], scan[names[k]], today, enforce)
      invariant forall key :: key in usedKeys <==> exists k | 0 <= k < i && names[k] in scan
                                                   :: UsedIn(index, names[k], scan[names[k]], key)
    {
      assert names[i] in names && names[..i + 1][..i] == names[..i];
      r, usedKeys := JudgeTarget(index, names[i], scan[names[i]], today, enforce, r, usedKeys);
    }
    assert names[..|names|] == names;
    forall t ensures NamesCount(names, scan, t) == if t in names then RelevantCount(scan[t]) else 0 {
      NamesCountIs(names, scan, t);
    }
    used := usedKeys;
    r := JudgeLeftovers(AllPairs(es), usedKeys, scan.Keys, today, r);
  }

  lemma {:induction false} CountJudged(index: map<Key, Exc>, target: string, fs: seq<Finding>, today: int, enforce: bool, kind: Kind,
                                       t: string)
    ensures var lines := JudgedLines(index, target, fs, today, enforce, kind);
            CountFor(lines, t) == if t == target then |lines| else 0
    decreases |fs|
  {
    hide Judge;
    hide Relevant;
    if fs != [] {
      CountJudged(index, target, fs[..|fs| - 1], today, enforce, kind, t);
      var before := JudgedLines(index, target, fs[..|fs| - 1], today, enforce, kind);
      assert before + [] == before;
      CountOneMore(before, OfFinding(target, fs[|fs| - 1]), t);
    }
  }

  lemma {:induction false} CountScanned(index: map<Key, Exc>, names: seq<string>, scan: Scan, today: int, enforce: bool, kind: Kind,
                                        t: string)
    requires forall i, j | 0 <= i < j < |names| :: names[i] != names[j]
    requires forall n <- names :: n in scan
    ensures CountFor(ScanLines(index, names, scan, today, enforce, kind), t)
            == if t in names then |JudgedLines(index, t, scan[t], today, enforce, kind)| else 0
    decreases |names|
  {
    hide JudgedLines;
    hide CountFor;
    if names != [] {
      var init, n := names[..|names| - 1], names[|names| - 1];
      assert names == init + [n];
      CountScanned(index, init, scan, today, enforce, kind, t);
      CountJudged(index, n, scan[n], today, enforce, kind, t);
      CountConcat(ScanLines(index, init, scan, today, enforce, kind), JudgedLines(index, n, scan[n], today, enforce, kind), t);
    } else {
      assert CountFor([], t) == 0 by {
        NothingCounted();
      }
    }
  }

  /** The lists of an evaluation: what the findings come to, then what the unused pairs come to. */
  ghost predicate Lists(r: Report, names: seq<string>, scan: Scan, es: seq<Exc>, used: set<Key>, today: int, enforce: bool) {
    forall kind: Kind :: LinesOf(r, kind) == ScanLines(Index(AllPairs(es)), names, scan, today, enforce, kind)
                                             + UnusedLines(AllPairs(es), used, scan.Keys, today, kind)
  }

  /** Failures, warnings and matches of a target, each on its own: the target's findings that are judged so, and
      its unused pairs that are. */
  lemma CountersPerTarget(r: Report, names: seq<string>, scan: Scan, es: seq<Exc>, used: set<Key>, today: int, enforce: bool,
                          t: string, kind: Kind)
    requires forall i, j | 0 <= i < j < |names| :: names[i] != names[j]
    requires forall n :: n in names <==> n in scan
    requires Lists(r, names, scan, es, used, today, enforce) && WellCounted(r)
    ensures Counter(CountsOf(r.byTarget, t), kind)
            == (if t in scan then |JudgedLines(Index(AllPairs(es)), t, scan[t], today, enforce, kind)| else 0)
               + CountFor(UnusedLines(AllPairs(es), used, scan.Keys, today, kind), t)
  {
    hide JudgedLines;
    hide UnusedLines;
    hide CountFor;
    var index := Index(AllPairs(es));
    hide Index;
    assert LinesOf(r, kind) == ScanLines(index, names, scan, today, enforce, kind)
                               + UnusedLines(AllPairs(es), used, scan.Keys, today, kind);
    CountScanned(index, names, scan, today, enforce, kind, t);
    CountConcat(ScanLines(index, names, scan, today, enforce, kind), UnusedLines(AllPairs(es), used, scan.Keys, today, kind), t);
  }

  /** One counter of all targets, or the number of lines of each target. */
  function Column(byTarget: map<string, Counts>, kind: Kind): map<string, int> {
    map t | t in byTarget :: Counter(byTarget[t], kind)
  }

  function PerTarget(lines: seq<Line>, targets: set<string>): map<string, int> {
    map t | t in targets :: CountFor(lines, t)
  }

  lemma {:induction false} SumPerTarget(lines: seq<Line>, targets: set<string>)
    requires forall line <- lines :: TargetOf(line) in targets
    ensures SumMap(PerTarget(lines, targets)) == |lines|
    decreases |lines|
  {
    hide SumMap;
    hide CountFor;
    if lines == [] {
      NothingCounted();
      AllZero(PerTarget([], targets));
    } else {
      var init, line := lines[..|lines| - 1], lines[|lines| - 1];
      assert lines == init + [line] && line in lines;
      SumPerTarget(init, targets);
      var t := TargetOf(line);
      forall u | u in targets ensures CountFor(lines, u) == CountFor(init, u) + if u == t then 1 else 0 {
        CountOneMore(init, line, u);
      }
      assert PerTarget(lines, targets) == PerTarget(init, targets)[t := CountFor(init, t) + 1];
      SumWrite(PerTarget(init, targets), t, CountFor(init, t) + 1);
    }
  }

  lemma {:induction false} AllZero(m: map<string, int>)
    requires forall k <- m :: m[k] == 0
    ensures SumMap(m) == 0
    decreases |m.Keys|
  {
    if m.Keys != {} {
      var k :| k in m.Keys;
      SumTake(m, k);
      assert (m - {k}).Keys == m.Keys - {k};
      AllZero(m - {k});
    }
  }

  /** Over all targets each counter adds up to the number of lines in the report's list of that kind. */
  lemma CountersAddUp(r: Report, kind: Kind)
    requires WellCounted(r)
    ensures SumMap(Column(r.byTarget, kind)) == |LinesOf(r, kind)|
  {
    hide SumMap;
    hide CountFor;
    hide Counter;
    forall t | t in r.byTarget ensures Counter(r.byTarget[t], kind) == CountFor(LinesOf(r, kind), t) {
      assert Counter(CountsOf(r.byTarget, t), kind) == CountFor(LinesOf(r, kind), t);
    }
    assert Column(r.byTarget, kind) == PerTarget(LinesOf(r, kind), r.byTarget.Keys);
    SumPerTarget(LinesOf(r, kind), r.byTarget.Keys);
  }

  lemma NothingCounted()
    ensures forall t :: CountFor([], t) == 0
    ensures forall t :: Tally(Report([], [], [], map[]), t) == 0
    ensures WellCounted(Report([], [], [], map[])) && forall kind: Kind :: LinesOf(Report([], [], [], map[]), kind) == []
  {
  }

  method BuildIndex(es: seq<Exc>) returns (index: map<Key, Exc>)
    ensures index == Index(AllPairs(es))
  {
    var ps := AllPairs(es);
    index := map[];
    for i := 0 to |ps|
      invariant index == Index(ps[..i])
    {
      assert ps[..i + 1][..i] == ps[..i];
      index := index[PairKey(ps[i]) := ps[i].exc];
    }
    assert ps[..|ps|] == ps;
  }

  // ------------------------------------------------------------- what it means

  /** The finding is held open by an exception of its own identity that was approved recently. */
  predicate Holds(e: Exc, target: string, f: Finding, today: int) {
    && target in e.targets && FindingKey(target, f) == ExcKey(target, e)
    && e.approved <= today <= e.expires
    && (if e.cls == EMERGENCY then today - e.approved <= 7
        else e.cls == OS_NO_FIX && f.resultClass == CLASS_OS && f.fixed == "" && today - e.approved <= 90)
  }

  /** A gate that reports no failure over a loaded baseline lets no CRITICAL finding through uncovered:
      each has an exception of the same identity, not expired, approved within the last 7 days for an
      emergency or the last 90 for an OS package without a fix. */
  lemma NoCriticalSlipsThrough(names: seq<string>, scan: Scan, es: seq<Exc>, today: int, enforce: bool,
                               target: string, f: Finding)
    requires Passes(names, scan, es, today, enforce) && forall e <- es :: Sound(e, today)
    requires target in names && target in scan && f in scan[target] && f.severity == CRITICAL
    ensures exists e <- es :: Holds(e, target, f, today)
  {
    hide FindingKey;
    hide ExcKey;
    hide Judge;
    var ps := AllPairs(es);
    var index, key := Index(ps), FindingKey(target, f);
    var i :| 0 <= i < |names| && names[i] == target;
    var k :| 0 <= k < |scan[target]| && scan[target][k] == f;
    assert FindingsPass(index, names[i], scan[names[i]], today, enforce);
    assert CRITICAL[0] != HIGH[0];
    PolicyPerFinding(index, target, f, today, enforce);
    IndexHolds(ps, key);
    var m :| 0 <= m < |ps| && PairKey(ps[m]) == key && ps[m].exc == index[key];
    PairsAre(es);
    assert ps[m] in ps;
    SameKey(target, f, ps[m].target, ps[m].exc);
    assert Holds(ps[m].exc, target, f, today);
  }

  /** The exception is for this finding. */
  predicate Covers(e: Exc, target: string, f: Finding) {
    && target in e.targets
    && f.cve == e.cve && f.package == e.package && f.installed == e.installed
    && f.origin == e.origin && f.resultClass == e.resultClass
    && (f.resultClass == CLASS_OS || f.trivyTarget == e.trivyTarget)
  }

  /** What is asked of a CRITICAL or HIGH finding, without the index. */
  ghost predicate IsHeld(es: seq<Exc>, target: string, f: Finding, enforce: bool) {
    && KnownReportClass(f.resultClass)
    && (if exists e <- es :: Covers(e, target, f) then exists e <- es :: Covers(e, target, f) && Allows(e, f)
        else f.severity == HIGH && !enforce)
  }

  /** The index finds the one exception that covers a finding, if there is one. */
  lemma IndexFinds(es: seq<Exc>, target: string, f: Finding)
    requires UniqueKeys(AllPairs(es))
    ensures var index, key := Index(AllPairs(es)), FindingKey(target, f);
            && (key in index <==> exists e <- es :: Covers(e, target, f))
            && forall e <- es | Covers(e, target, f) :: key in index && index[key] == e
  {
    hide FindingKey;
    hide ExcKey;
    var ps, key := AllPairs(es), FindingKey(target, f);
    PairsAre(es);
    IndexHolds(ps, key);
    if key in Index(ps) {
      var m :| 0 <= m < |ps| && PairKey(ps[m]) == key && ps[m].exc == Index(ps)[key];
      SameKey(target, f, ps[m].target, ps[m].exc);
      assert ps[m] in ps;
      assert Covers(ps[m].exc, target, f);
    }
    forall e <- es | Covers(e, target, f) ensures key in Index(ps) && Index(ps)[key] == e {
      SameKey(target, f, target, e);
      UniqueIndex(ps, Pair(target, e));
    }
  }

  lemma HeldIffNotFailed(es: seq<Exc>, target: string, f: Finding, today: int, enforce: bool)
    requires UniqueKeys(AllPairs(es)) && Relevant(f)
    requires forall e <- es | e.targets != [] :: today <= e.expires
    ensures Judge(Index(AllPairs(es)), target, f, today, enforce) != Failed <==> IsHeld(es, target, f, enforce)
  {
    IndexFinds(es, target, f);
    PolicyPerFinding(Index(AllPairs(es)), target, f, today, enforce);
    hide Judge;
    hide FindingKey;
    hide Index;
    hide AllPairs;
    hide Covers;
    if e :| e in es && Covers(e, target, f) {
      CoversATarget(e, target, f);
    }
  }

  lemma CoversATarget(e: Exc, target: string, f: Finding)
    requires Covers(e, target, f)
    ensures e.targets != []
  {
  }

  /** When the gate passes, in terms of the loaded exceptions and the findings alone: no exception that names a target
      has expired, and every CRITICAL or HIGH finding is of a known class and covered by an exception that allows
      it, or it is an uncovered HIGH that is only observed. */
  lemma PassesIff(names: seq<string>, scan: Scan, es: seq<Exc>, today: int, enforce: bool)
    requires UniqueKeys(AllPairs(es))
    ensures Passes(names, scan, es, today, enforce) <==>
              && (forall e <- es | e.targets != [] :: today <= e.expires)
              && (forall i, k | 0 <= i < |names| && names[i] in scan && 0 <= k < |scan[names[i]]|
                    && scan[names[i]][k].severity in {CRITICAL, HIGH} :: IsHeld(es, names[i], scan[names[i]][k], enforce))
  {
    hide Judge;
    hide IsHeld;
    hide Index;
    hide Used;
    hide PairKey;
    if Passes(names, scan, es, today, enforce) {
      forall e <- es | e.targets != [] ensures today <= e.expires {
        ExpiredFails(names, scan, es, today, enforce, e);
      }
    }
    if forall e <- es | e.targets != [] :: today <= e.expires {
      forall i, k | 0 <= i < |names| && names[i] in scan && 0 <= k < |scan[names[i]]| && Relevant(scan[names[i]][k])
        ensures Judge(Index(AllPairs(es)), names[i], scan[names[i]][k], today, enforce) != Failed
                <==> IsHeld(es, names[i], scan[names[i]][k], enforce)
      {
        HeldIffNotFailed(es, names[i], scan[names[i]][k], today, enforce);
      }
      PairsAre(es);
      NoPairExpired(es, today);
      PassesByFinding(names, scan, es, today, enforce);
    }
  }

  lemma NoPairExpired(es: seq<Exc>, today: int)
    requires forall e <- es | e.targets != [] :: today <= e.expires
    ensures forall p <- AllPairs(es) :: today <= p.exc.expires
  {
    PairsAre(es);
    hide AllPairs;
  }

  lemma PassesByFinding(names: seq<string>, scan: Scan, es: seq<Exc>, today: int, enforce: bool)
    requires forall p <- AllPairs(es) :: today <= p.exc.expires
    ensures Passes(names, scan, es, today, enforce) <==>
              forall i, k | 0 <= i < |names| && names[i] in scan && 0 <= k < |scan[names[i]]| && Relevant(scan[names[i]][k]) ::
                Judge(Index(AllPairs(es)), names[i], scan[names[i]][k], today, enforce) != Failed
  {
    hide Judge;
    hide Index;
    hide Used;
    hide Relevant;
    var index := Index(AllPairs(es));
    assert forall i | 0 <= i < |names| && names[i] in scan ::
        FindingsPass(index, names[i], scan[names[i]], today, enforce) <==>
        forall k | 0 <= k < |scan[names[i]]| && Relevant(scan[names[i]][k]) ::
          Judge(index, names[i], scan[names[i]][k], today, enforce) != Failed;
  }

  /** What becomes of the unused pairs: the expired ones fail, the others warn where their target was scanned. */
  lemma {:induction false} LeftoversAre(ps: seq<Pair>, used: set<Key>, scanned: set<string>, today: int, p: Pair)
    ensures OfPair(p) in UnusedLines(ps, used, scanned, today, Failed) <==>
              p in ps && PairKey(p) !in used && p.exc.expires < today
    ensures OfPair(p) in UnusedLines(ps, used, scanned, today, Warned) <==>
              p in ps && PairKey(p) !in used && today <= p.exc.expires && p.target in scanned
    ensures UnusedLines(ps, used, scanned, today, Matched) == []
    decreases |ps|
  {
    hide PairKey;
    if ps != [] {
      var init, last := ps[..|ps| - 1], ps[|ps| - 1];
      LeftoversAre(init, used, scanned, today, p);
      assert ps == init + [last];
    }
  }

  lemma JudgedWorseLater(index: map<Key, Exc>, target: string, f: Finding, today: int, later: int, enforce: bool)
    requires today <= later && Judge(index, target, f, later, enforce) != Failed
    ensures Judge(index, target, f, today, enforce) != Failed
  {
  }

  /** Passing only ever gets harder: what passes on a later day passes on an earlier one. */
  lemma PassingIsAntitone(names: seq<string>, scan: Scan, es: seq<Exc>, today: int, later: int, enforce: bool)
    requires today <= later && Passes(names, scan, es, later, enforce)
    ensures Passes(names, scan, es, today, enforce)
  {
    hide Judge;
    hide Used;
    var index := Index(AllPairs(es));
    forall i | 0 <= i < |names| && names[i] in scan ensures FindingsPass(index, names[i], scan[names[i]], today, enforce) {
      var fs := scan[names[i]];
      assert FindingsPass(index, names[i], fs, later, enforce);
      forall k | 0 <= k < |fs| && Relevant(fs[k]) ensures Judge(index, names[i], fs[k], today, enforce) != Failed {
        JudgedWorseLater(index, names[i], fs[k], today, later, enforce);
      }
    }
  }

  lemma ExpiredIsJudgedFailed(index: map<Key, Exc>, target: string, f: Finding, today: int, enforce: bool)
    requires Uses(index, target, f) && index[FindingKey(target, f)].expires < today
    ensures Judge(index, target, f, today, enforce) == Failed
  {
  }

  lemma UniqueIndex(ps: seq<Pair>, p: Pair)
    requires UniqueKeys(ps) && p in ps
    ensures PairKey(p) in Index(ps) && Index(ps)[PairKey(p)] == p.exc
  {
    hide PairKey;
    var i :| 0 <= i < |ps| && ps[i] == p;
    IndexHolds(ps, PairKey(p));
    var j :| 0 <= j < |ps| && PairKey(ps[j]) == PairKey(p) && ps[j].exc == Index(ps)[PairKey(p)];
    assert i == j;
  }

  /** An expired exception fails the gate whether or not anything still matches it, as soon as it names a
      target. */
  lemma ExpiredFails(names: seq<string>, scan: Scan, es: seq<Exc>, today: int, enforce: bool, e: Exc)
    requires Passes(names, scan, es, today, enforce) && UniqueKeys(AllPairs(es)) && e in es
    ensures e.targets == [] || today <= e.expires
  {
    hide Judge;
    hide FindingKey;
    hide PairKey;
    if e.targets != [] && e.expires < today {
      var p, index := Pair(e.targets[0], e), Index(AllPairs(es));
      PairsAre(es);
      UniqueIndex(AllPairs(es), p);
      assert Used(index, names, scan, PairKey(p));
      var i :| 0 <= i < |names| && names[i] in scan && UsedIn(index, names[i], scan[names[i]], PairKey(p));
      var fs := scan[names[i]];
      var k :| 0 <= k < |fs| && Uses(index, names[i], fs[k]) && FindingKey(names[i], fs[k]) == PairKey(p);
      assert FindingsPass(index, names[i], fs, today, enforce);
      ExpiredIsJudgedFailed(index, names[i], fs[k], today, enforce);
    }
  }

  /** The validation does accept an exception without targets, and such a one never fails the gate. */
  lemma NoTargetsNeverFails(names: seq<string>, scan: Scan, es: seq<Exc>, e: Exc, today: int, enforce: bool)
    requires e.targets == []
    ensures Passes(names, scan, es + [e], today, enforce) <==> Passes(names, scan, es, today, enforce)
  {
    assert (es + [e])[..|es|] == es;
    assert PairsOf(e) == [];
    assert AllPairs(es + [e]) == AllPairs(es);
  }
}
