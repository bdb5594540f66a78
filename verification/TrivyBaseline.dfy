/** The baseline of justified exceptions and the findings of a scan (plugins/scripts/trivy_gate.py).
    Dates are day numbers. */
module TrivyBaseline {
  import opened Sequences
  import opened Wrappers

  const CRITICAL := "CRITICAL"
  const HIGH := "HIGH"
  const CLASS_OS := "os-pkgs"
  const CLASS_LANG := "lang-pkgs"
  const EMERGENCY := "emergency"
  const OS_NO_FIX := "os-no-fix"

  predicate KnownReportClass(s: string) {
    s == CLASS_OS || s == CLASS_LANG
  }

  /** A YAML value; lists of anything but non-empty strings are Scalars here. */
  datatype Value = Null | Text(s: string) | Texts(ts: seq<string>) | Scalar(repr: string)

  type Item = map<string, Value>

  const REQUIRED_FIELDS: seq<string> := [
    "targets", "cve", "package", "installed", "origin", "result_class", "class",
    "justification", "mitigation", "advisory", "upstream_issue", "approved_pr",
    "owner", "approved_at", "expires"
  ]

  /** A validated exception. */
  datatype Exc = Exc(targets: seq<string>, trivyTarget: string, cve: string, package: string, installed: string,
                     origin: string, resultClass: string, cls: string, approved: int, expires: int)

  datatype Finding = Finding(trivyTarget: string, origin: string, resultClass: string, cve: string, package: string,
                             installed: string, fixed: string, severity: string)

  type Key = seq<string>

  /** The longest life of an exception in days, None for an unknown class. */
  function MaxWindow(cls: string): Option<int> {
    if cls == EMERGENCY then Some(7)
    else if cls == "high-fixable" then Some(14)
    else if cls == "upstream-bound" || cls == "no-fix" || cls == OS_NO_FIX then Some(90)
    else None
  }

  /** What must match for a finding to inherit an exception: the binary too, unless it is an OS package. */
  function Identity(target: string, trivyTarget: string, cve: string, package: string, installed: string,
                    origin: string, resultClass: string): Key
  {
    if resultClass == CLASS_OS then [target, cve, package, installed, origin, resultClass]
    else [target, trivyTarget, cve, package, installed, origin, resultClass]
  }

  function FindingKey(target: string, f: Finding): Key {
    Identity(target, f.trivyTarget, f.cve, f.package, f.installed, f.origin, f.resultClass)
  }

  function ExcKey(target: string, e: Exc): Key {
    Identity(target, e.trivyTarget, e.cve, e.package, e.installed, e.origin, e.resultClass)
  }

  /** Equal keys mean exactly the same target, package, version, origin and report class, and the same binary
      for everything but OS packages. */
  lemma SameKey(t: string, f: Finding, u: string, e: Exc)
    ensures FindingKey(t, f) == ExcKey(u, e) <==>
              && t == u && f.cve == e.cve && f.package == e.package && f.installed == e.installed
              && f.origin == e.origin && f.resultClass == e.resultClass
              && (f.resultClass == CLASS_OS || f.trivyTarget == e.trivyTarget)
  {
    var a, b := FindingKey(t, f), ExcKey(u, e);
    if a == b {
      assert |a| == |b|;
      assert forall k | 0 <= k < |a| :: a[k] == b[k];
    }
  }

  // ------------------------------------------------------------- one exception

  predicate Missing(item: Item, field: string) {
    field !in item || item[field] == Null || item[field] == Text("")
  }

  /** Python's str(). */
  function Str(item: Item, field: string): string {
    if field !in item then ""
    else match item[field]
      case Null => "None"
      case Text(s) => s
      case Texts(ts) => ListText(ts)
      case Scalar(repr) => repr
  }

  function ListText(ts: seq<string>): string {
    if ts == [] then "[]" else "['" + ts[0] + "'] + " + ListText(ts[1..])
  }

  predicate IsSpace(c: char) {
    c == ' ' || '\t' <= c <= '\r'
  }

  /** A non-empty string sign-off. */
  predicate SignedOff(item: Item) {
    "risk_accepted_by" in item && item["risk_accepted_by"].Text?
    && exists c <- item["risk_accepted_by"].s :: !IsSpace(c)
  }

  predicate Truthy(item: Item, field: string) {
    field in item && match item[field]
      case Null => false
      case Text(s) => s != ""
      case Texts(ts) => ts != []
      case Scalar(repr) => repr !in {"0", "False", "0.0", "{}"}
  }

  /** date.fromisoformat, as an unknown function. */
  type Calendar = string -> Option<int>

  function DateOf(item: Item, field: string, date: Calendar): Option<int> {
    if field in item && item[field].Text? then date(item[field].s) else None
  }

  /** The classes fit each other: an OS package names no binary, anything else does, and a cover for lack of a fix is
      for OS packages, says that there is no fix, and is signed. */
  predicate ClassesFit(item: Item) {
    var cls, rc := Str(item, "class"), Str(item, "result_class");
    && MaxWindow(cls).Some? && KnownReportClass(rc)
    && (if rc == CLASS_OS then "trivy_target" !in item else Truthy(item, "trivy_target"))
    && (cls == OS_NO_FIX ==>
          rc == CLASS_OS && "fixed_version" in item && item["fixed_version"] == Text("") && SignedOff(item))
  }

  /** Approved by now, for no longer than its class allows. */
  predicate DatesFit(item: Item, today: int, date: Calendar)
    requires MaxWindow(Str(item, "class")).Some?
  {
    var expires, approved := DateOf(item, "expires", date), DateOf(item, "approved_at", date);
    && expires.Some? && approved.Some?
    && approved.value <= today && approved.value <= expires.value
    && expires.value <= approved.value + MaxWindow(Str(item, "class")).value
  }

  predicate Acceptable(item: Item, today: int, date: Calendar) {
    && (forall f <- REQUIRED_FIELDS :: !Missing(item, f))
    && "targets" in item && item["targets"].Texts? && "" !in item["targets"].ts
    && ClassesFit(item) && DatesFit(item, today, date)
  }

  /** What one entry of the baseline is read as. An empty list of targets passes. */
  function Validate(item: Item, today: int, date: Calendar): Option<Exc> {
    if !Acceptable(item, today, date) then None
    else Some(Exc(item["targets"].ts, Str(item, "trivy_target"), Str(item, "cve"), Str(item, "package"),
                  Str(item, "installed"), Str(item, "origin"), Str(item, "result_class"), Str(item, "class"),
                  DateOf(item, "approved_at", date).value, DateOf(item, "expires", date).value))
  }

  /** The checks of one entry, in their order. */
  method CheckException(item: Item, today: int, date: Calendar) returns (r: Option<Exc>)
    ensures r == Validate(item, today, date)
  {
    for k := 0 to |REQUIRED_FIELDS|
      invariant forall j | 0 <= j < k :: !Missing(item, REQUIRED_FIELDS[j])
    {
      if Missing(item, REQUIRED_FIELDS[k]) {
        assert REQUIRED_FIELDS[k] in REQUIRED_FIELDS;
        return None;
      }
    }
    assert "targets" == REQUIRED_FIELDS[0];
    if !item["targets"].Texts? {
      return None;
    }
    var targets := item["targets"].ts;
    for k := 0 to |targets|
      invariant "" !in targets[..k]
    {
      if targets[k] == "" {
        return None;
      }
      assert targets[..k + 1] == targets[..k] + [targets[k]];
    }
    assert targets[..|targets|] == targets;
    var cls, rc := Str(item, "class"), Str(item, "result_class");
    var limit := MaxWindow(cls);
    if limit == None {
      return None;
    }
    if !KnownReportClass(rc) {
      return None;
    }
    if rc == CLASS_OS {
      if "trivy_target" in item {
        return None;
      }
    } else if !Truthy(item, "trivy_target") {
      return None;
    }
    if cls == OS_NO_FIX {
      if rc != CLASS_OS {
        return None;
      }
      if "fixed_version" !in item || item["fixed_version"] != Text("") {
        return None;
      }
      if !SignedOff(item) {
        return None;
      }
    }
    var expires, approved := DateOf(item, "expires", date), DateOf(item, "approved_at", date);
    if expires == None || approved == None {
      return None;
    }
    if approved.value > today {
      return None;
    }
    var span := expires.value - approved.value;
    if span < 0 {
      return None;
    }
    if span > limit.value {
      return None;
    }
    return Some(Exc(targets, Str(item, "trivy_target"), Str(item, "cve"), Str(item, "package"),
                    Str(item, "installed"), Str(item, "origin"), rc, cls, approved.value, expires.value));
  }

  /** What the evaluation may rely on. */
  predicate Sound(e: Exc, today: int) {
    && MaxWindow(e.cls).Some?
    && e.approved <= today && e.approved <= e.expires <= e.approved + MaxWindow(e.cls).value
    && KnownReportClass(e.resultClass) && (e.cls == OS_NO_FIX ==> e.resultClass == CLASS_OS)
  }

  lemma ValidatedIsSound(item: Item, today: int, date: Calendar)
    requires Validate(item, today, date).Some?
    ensures Sound(Validate(item, today, date).value, today)
  {
  }

  /** Contrary to its error text, the validation accepts an entry with an empty list of targets. */
  lemma NoTargetsIsAccepted(item: Item, today: int, date: Calendar)
    requires Validate(item, today, date).Some?
    ensures Validate(item["targets" := Texts([])], today, date) == Some(Validate(item, today, date).value.(targets := []))
  {
    var changed := item["targets" := Texts([])];
    forall f | f != "targets" ensures SameField(item, changed, f) && Str(changed, f) == Str(item, f) {
    }
    OtherChecksAgree(item, changed, today, date);
    hide Str;
    hide ClassesFit;
    hide DatesFit;
    forall f <- REQUIRED_FIELDS ensures !Missing(changed, f) {
      assert !Missing(item, f);
    }
    assert DateOf(changed, "approved_at", date) == DateOf(item, "approved_at", date);
    assert DateOf(changed, "expires", date) == DateOf(item, "expires", date);
  }

  predicate SameField(a: Item, b: Item, f: string) {
    if f in a then f in b && b[f] == a[f] else f !in b
  }

  lemma OtherChecksAgree(a: Item, b: Item, today: int, date: Calendar)
    requires forall f | f != "targets" :: SameField(a, b, f) && Str(b, f) == Str(a, f)
    ensures ClassesFit(a) <==> ClassesFit(b)
    ensures MaxWindow(Str(a, "class")).Some? ==>
              MaxWindow(Str(b, "class")).Some? && (DatesFit(a, today, date) <==> DatesFit(b, today, date))
  {
    hide Str;
    hide MaxWindow;
    assert SameField(a, b, "class") && SameField(a, b, "result_class") && SameField(a, b, "trivy_target");
    assert SameField(a, b, "fixed_version") && SameField(a, b, "risk_accepted_by");
    assert SameField(a, b, "approved_at") && SameField(a, b, "expires");
  }

  // -------------------------------------------------------------- the whole list

  datatype Pair = Pair(target: string, exc: Exc)

  function PairKey(p: Pair): Key {
    ExcKey(p.target, p.exc)
  }

  function PairsOf(e: Exc): (ps: seq<Pair>)
    ensures |ps| == |e.targets| && forall j | 0 <= j < |ps| :: ps[j] == Pair(e.targets[j], e)
  {
    seq(|e.targets|, j requires 0 <= j < |e.targets| => Pair(e.targets[j], e))
  }

  /** Every exception with each of its targets, in order. */
  function AllPairs(es: seq<Exc>): seq<Pair> {
    if es == [] then [] else AllPairs(es[..|es| - 1]) + PairsOf(es[|es| - 1])
  }

  ghost predicate UniqueKeys(ps: seq<Pair>) {
    forall i, j | 0 <= i < j < |ps| :: PairKey(ps[i]) != PairKey(ps[j])
  }

  ghost predicate AreKeysOf(seen: set<Key>, ps: seq<Pair>) {
    forall key :: key in seen <==> exists i | 0 <= i < |ps| :: PairKey(ps[i]) == key
  }

  lemma {:induction false} PairsAre(es: seq<Exc>)
    ensures forall p :: p in AllPairs(es) <==> p.exc in es && p.target in p.exc.targets
    decreases |es|
  {
    if es != [] {
      var init, e := es[..|es| - 1], es[|es| - 1];
      PairsAre(init);
      assert es == init + [e];
      forall p ensures p in PairsOf(e) <==> p.exc == e && p.target in e.targets {
        if p.exc == e && p.target in e.targets {
          var j :| 0 <= j < |e.targets| && e.targets[j] == p.target;
          assert PairsOf(e)[j] == p;
        }
      }
    }
  }

  lemma {:induction false} PairsOfPrefix(es: seq<Exc>, n: nat)
    requires n <= |es|
    ensures AllPairs(es[..n]) <= AllPairs(es)
    decreases |es|
  {
    if n < |es| {
      PairsOfPrefix(es[..|es| - 1], n);
      assert es[..|es| - 1][..n] == es[..n];
    } else {
      assert es[..n] == es;
    }
  }

  lemma NewKey(ps: seq<Pair>, p: Pair, seen: set<Key>)
    requires UniqueKeys(ps) && AreKeysOf(seen, ps)
    ensures UniqueKeys(ps + [p]) <==> PairKey(p) !in seen
    ensures AreKeysOf(seen + {PairKey(p)}, ps + [p])
  {
    var qs := ps + [p];
    if PairKey(p) in seen {
      var i :| 0 <= i < |ps| && PairKey(ps[i]) == PairKey(p);
      assert PairKey(qs[i]) == PairKey(qs[|ps|]);
    }
    forall key ensures key in seen + {PairKey(p)} <==> exists i | 0 <= i < |qs| :: PairKey(qs[i]) == key {
      if key in seen {
        var i :| 0 <= i < |ps| && PairKey(ps[i]) == key;
        assert PairKey(qs[i]) == key;
      }
      assert PairKey(qs[|ps|]) == PairKey(p);
    }
  }

  lemma DuplicateStays(ps: seq<Pair>, qs: seq<Pair>)
    requires ps <= qs && UniqueKeys(qs)
    ensures UniqueKeys(ps)
  {
    forall i, j | 0 <= i < j < |ps| ensures PairKey(ps[i]) != PairKey(ps[j]) {
      assert PairKey(qs[i]) != PairKey(qs[j]);
    }
  }

  /** All entries are valid and no (exception, target) pair has another's key. */
  ghost predicate Loads(items: seq<Item>, today: int, date: Calendar, es: seq<Exc>) {
    && |es| == |items|
    && (forall k | 0 <= k < |items| :: Validate(items[k], today, date) == Some(es[k]))
    && UniqueKeys(AllPairs(es))
  }

  /** Adds the keys of one exception; stops at a key that was there. */
  method AddKeys(e: Exc, ghost before: seq<Pair>, were: set<Key>) returns (dup: bool, seen: set<Key>)
    requires UniqueKeys(before) && AreKeysOf(were, before)
    ensures dup <==> !UniqueKeys(before + PairsOf(e))
    ensures !dup ==> AreKeysOf(seen, before + PairsOf(e))
  {
    hide AreKeysOf;
    hide UniqueKeys;
    seen := were;
    assert before + PairsOf(e)[..0] == before;
    for j := 0 to |e.targets|
      invariant UniqueKeys(before + PairsOf(e)[..j]) && AreKeysOf(seen, before + PairsOf(e)[..j])
    {
      var p := Pair(e.targets[j], e);
      ghost var ps := before + PairsOf(e)[..j];
      assert before + PairsOf(e)[..j + 1] == ps + [p];
      NewKey(ps, p, seen);
      if PairKey(p) in seen {
        if UniqueKeys(before + PairsOf(e)) {
          DuplicateStays(ps + [p], before + PairsOf(e));
        }
        return true, seen;
      }
      seen := seen + {PairKey(p)};
    }
    assert PairsOf(e)[..|e.targets|] == PairsOf(e);
    return false, seen;
  }

  lemma SameValidation(items: seq<Item>, today: int, date: Calendar, out: seq<Exc>, es: seq<Exc>)
    requires |out| <= |items| && forall k | 0 <= k < |out| :: Validate(items[k], today, date) == Some(out[k])
    requires Loads(items, today, date, es)
    ensures out <= es && UniqueKeys(AllPairs(out))
  {
    hide Validate;
    assert forall k | 0 <= k < |out| :: Some(out[k]) == Some(es[k]);
    assert es[..|out|] == out;
    PairsOfPrefix(es, |out|);
    DuplicateStays(AllPairs(out), AllPairs(es));
  }

  /** Loads exactly the exceptions that are all valid and all different; what is loaded is sound. */
  method LoadExceptions(items: seq<Item>, today: int, date: Calendar) returns (r: Option<seq<Exc>>)
    ensures r.Some? ==> Loads(items, today, date, r.value)
    ensures r.None? ==> forall es :: !Loads(items, today, date, es)
    ensures r.Some? ==> forall e <- r.value :: Sound(e, today)
  {
    hide Validate;
    hide UniqueKeys;
    hide AreKeysOf;
    var out: seq<Exc> := [];
    var seen: set<Key> := {};
    NoKeys();
    for i := 0 to |items|
      invariant |out| == i
      invariant forall k | 0 <= k < i :: Validate(items[k], today, date) == Some(out[k])
      invariant UniqueKeys(AllPairs(out)) && AreKeysOf(seen, AllPairs(out))
    {
      var exc := CheckException(items[i], today, date);
      if exc.None? {
        return None;
      }
      ghost var before := AllPairs(out);
      assert (out + [exc.value])[..i] == out;
      out := out + [exc.value];
      var dup;
      dup, seen := AddKeys(exc.value, before, seen);
      if dup {
        forall es ensures !Loads(items, today, date, es) {
          if Loads(items, today, date, es) {
            SameValidation(items, today, date, out, es);
          }
        }
        return None;
      }
    }
    forall e <- out ensures Sound(e, today) {
      var k :| 0 <= k < |out| && out[k] == e;
      ValidatedIsSound(items[k], today, date);
    }
    return Some(out);
  }

  lemma NoKeys()
    ensures UniqueKeys(AllPairs([])) && AreKeysOf({}, AllPairs([]))
  {
  }

  // ---------------------------------------------------------- unpublished targets

  const UNPUBLISHED_MAX_DAYS := 30

  const UNPUBLISHED_FIELDS: seq<string> := ["target", "reason", "approved_at", "approved_pr", "expires"]

  /** Python can put the value into a set: lists and mappings it cannot. */
  predicate IsHashable(v: Value) {
    !v.Texts? && !(v.Scalar? && v.repr != "" && v.repr[0] in "[{")
  }

  /** Approved by now, not expired, for at most 30 days. */
  predicate IsCurrent(item: Item, today: int, date: Calendar) {
    var approved, expires := DateOf(item, "approved_at", date), DateOf(item, "expires", date);
    && approved.Some? && expires.Some?
    && approved.value <= today <= expires.value <= approved.value + UNPUBLISHED_MAX_DAYS
  }

  /** The target of one entry that takes a plugin out of the expected inventory. */
  function ValidateUnpublished(item: Item, today: int, date: Calendar): Option<Value> {
    if (forall f <- UNPUBLISHED_FIELDS :: Truthy(item, f)) && IsCurrent(item, today, date)
       && "target" in item && IsHashable(item["target"]) then Some(item["target"])
    else None
  }

  /** The checks of one such entry, in their order. */
  method CheckUnpublished(item: Item, today: int, date: Calendar) returns (r: Option<Value>)
    ensures r == ValidateUnpublished(item, today, date)
  {
    for k := 0 to |UNPUBLISHED_FIELDS|
      invariant forall j | 0 <= j < k :: Truthy(item, UNPUBLISHED_FIELDS[j])
    {
      if !Truthy(item, UNPUBLISHED_FIELDS[k]) {
        assert UNPUBLISHED_FIELDS[k] in UNPUBLISHED_FIELDS;
        return None;
      }
    }
    assert "target" == UNPUBLISHED_FIELDS[0];
    var approved, expires := DateOf(item, "approved_at", date), DateOf(item, "expires", date);
    if approved == None || expires == None {
      return None;
    }
    if approved.value > today {
      return None;
    }
    if expires.value < today {
      return None;
    }
    var span := expires.value - approved.value;
    if span < 0 || span > UNPUBLISHED_MAX_DAYS {
      return None;
    }
    if !IsHashable(item["target"]) {
      return None;
    }
    return Some(item["target"]);
  }

  /** No entry can hide a target for more than 30 days: thirty-one days after any day on which it is valid the
      whole baseline is refused. */
  lemma UnpublishedLapses(item: Item, today: int, later: int, date: Calendar)
    requires ValidateUnpublished(item, today, date).Some? && later > today + UNPUBLISHED_MAX_DAYS
    ensures ValidateUnpublished(item, later, date).None?
  {
  }

  /** All entries are valid and no target is listed twice. */
  ghost predicate UnpublishedOk(items: seq<Item>, today: int, date: Calendar, targets: seq<Value>) {
    && |targets| == |items|
    && (forall k | 0 <= k < |items| :: ValidateUnpublished(items[k], today, date) == Some(targets[k]))
    && NoDup(targets)
  }

  method LoadUnpublishedTargets(items: seq<Item>, today: int, date: Calendar)
    returns (r: Option<set<Value>>, ghost targets: seq<Value>)
    ensures r.Some? ==> UnpublishedOk(items, today, date, targets) && r.value == Elements(targets)
    ensures r.None? ==> forall ts :: !UnpublishedOk(items, today, date, ts)
  {
    hide ValidateUnpublished;
    targets := [];
    var seen: set<Value> := {};
    for i := 0 to |items|
      invariant |targets| == i && seen == Elements(targets) && NoDup(targets)
      invariant forall k | 0 <= k < i :: ValidateUnpublished(items[k], today, date) == Some(targets[k])
    {
      var target := CheckUnpublished(items[i], today, date);
      if target.None? {
        return None, [];
      }
      if target.value in seen {
        SeenTwice(items, today, date, targets, i);
        return None, [];
      }
      seen := seen + {target.value};
      targets := targets + [target.value];
    }
    return Some(seen), targets;
  }

  lemma SeenTwice(items: seq<Item>, today: int, date: Calendar, targets: seq<Value>, i: nat)
    requires i == |targets| < |items| && ValidateUnpublished(items[i], today, date).Some?
    requires forall k | 0 <= k < i :: ValidateUnpublished(items[k], today, date) == Some(targets[k])
    requires ValidateUnpublished(items[i], today, date).value in targets
    ensures forall ts :: !UnpublishedOk(items, today, date, ts)
  {
    var k :| 0 <= k < i && targets[k] == ValidateUnpublished(items[i], today, date).value;
    forall ts: seq<Value> | |ts| == |items|
      ensures !UnpublishedOk(items, today, date, ts)
    {
      if ValidateUnpublished(items[k], today, date) == Some(ts[k]) && ValidateUnpublished(items[i], today, date) == Some(ts[i]) {
        assert ts[k] == ts[i];
      }
    }
  }

  // ------------------------------------------------------------- the document

  /** The baseline file: a mapping with these three entries. */
  datatype Document = Document(version: Value, unpublished: seq<Item>, exceptions: seq<Item>)

  /** What Python finds equal to 1. */
  predicate IsVersionOne(v: Value) {
    v.Scalar? && v.repr in {"1", "1.0", "True"}
  }

  /** The whole document is valid, and these are its exceptions. */
  ghost predicate LoadsDocument(doc: Document, today: int, date: Calendar, es: seq<Exc>) {
    && IsVersionOne(doc.version)
    && (exists targets :: UnpublishedOk(doc.unpublished, today, date, targets))
    && Loads(doc.exceptions, today, date, es)
  }

  /** Loads exactly the valid baselines; what is loaded is sound. */
  method LoadBaseline(doc: Document, today: int, date: Calendar) returns (r: Option<seq<Exc>>)
    ensures r.Some? ==> LoadsDocument(doc, today, date, r.value)
    ensures r.None? ==> forall es :: !LoadsDocument(doc, today, date, es)
    ensures r.Some? ==> forall e <- r.value :: Sound(e, today)
  {
    hide Loads;
    hide UnpublishedOk;
    if !IsVersionOne(doc.version) {
      return None;
    }
    var unpublished, targets := LoadUnpublishedTargets(doc.unpublished, today, date);
    if unpublished.None? {
      return None;
    }
    r := LoadExceptions(doc.exceptions, today, date);
  }
}
