/** Service pods under several agents at once: creators, accepted cleanups and the
    list-then-delete-by-name of every cleanup interleave. Runs are revived under the
    same id with a higher generation. */
module ServiceRace {
  import opened Wrappers
  import opened Decimal
  import opened ServicePods

  /** An entry of a listing: the name, and the object that had it at that moment. */
  datatype Entry = Entry(name: string, uid: nat, generation: int)

  datatype Call = Call(run: string, ceiling: int, listing: seq<Entry>, todo: seq<Entry>, visited: seq<Entry>, failed: bool)

  /** `accepted` and `lost` are history: the cleanups accepted by some agent, and
      the pods deletes have removed with the cleanup that removed each. */
  datatype State = State(pods: map<string, Pod>, nextUid: nat, accepted: set<(string, int)>,
                         calls: seq<Call>, lost: seq<(Pod, Call)>)

  const INIT := State(map[], 0, {}, [], [])

  datatype Event =
    | CreatePod(run: string, generation: int, service: string)
    | Adopt(run: string, generation: int, service: string)
    | AcceptCleanup(run: string, ceiling: int)
    | List(run: string, ceiling: int, order: seq<string>)
    | DeleteNext(call: nat, denied: bool)

  predicate IsListing(pods: map<string, Pod>, run: string, order: seq<string>) {
    && (forall n <- order :: n in pods && Selected(pods[n].labels, run))
    && (forall n <- pods | Selected(pods[n].labels, run) :: n in order)
  }

  function Snapshot(pods: map<string, Pod>, order: seq<string>): (es: seq<Entry>)
    requires forall n <- order :: n in pods
    ensures |es| == |order|
    ensures forall k | 0 <= k < |es| :: es[k] == Entry(order[k], pods[order[k]].uid, PodGeneration(pods[order[k]].labels))
  {
    seq(|order|, k requires 0 <= k < |order| =>
      assert order[k] in order; Entry(order[k], pods[order[k]].uid, PodGeneration(pods[order[k]].labels)))
  }

  function Step(s: State, e: Event): Option<State> {
    match e
    case CreatePod(run, g, svc) =>
      var name := PodName(ShortId(run), g, svc);
      if !ValidLabel(run) || !InInt64(g) || name in s.pods then None
      else Some(s.(pods := s.pods[name := Pod(s.nextUid, BuildLabels(run, g, svc))], nextUid := s.nextUid + 1))
    case Adopt(run, g, svc) =>
      var name := PodName(ShortId(run), g, svc);
      if name in s.pods && IsOurPod(s.pods[name].labels, run, svc, g) then Some(s) else None
    case AcceptCleanup(run, g) => Some(s.(accepted := s.accepted + {(run, g)}))
    case List(run, g, order) =>
      if (run, g) in s.accepted && ValidLabel(run) && IsListing(s.pods, run, order)
      then Some(s.(calls := s.calls + [Call(run, g, Snapshot(s.pods, order), Snapshot(s.pods, order), [], false)])) else None
    case DeleteNext(i, denied) =>
      if !(i < |s.calls| && s.calls[i].todo != []) then None
      else
        var c := s.calls[i];
        var x := c.todo[0];
        var c' := c.(todo := c.todo[1..], visited := c.visited + [x]);
        if x.generation > c.ceiling then Some(s.(calls := s.calls[i := c']))
        else if denied then Some(s.(calls := s.calls[i := c'.(failed := true)]))
        else if x.name !in s.pods then Some(s.(calls := s.calls[i := c']))
        else Some(s.(calls := s.calls[i := c'], pods := s.pods - {x.name}, lost := s.lost + [(s.pods[x.name], c)]))
  }

  function Exec(s: State, es: seq<Event>): Option<State>
    decreases |es|
  {
    if es == [] then Some(s)
    else match Step(s, es[0])
      case None => None
      case Some(next) => Exec(next, es[1..])
  }

  /** Every pod created by the run belongs to one of the given runs. */
  predicate UsesOnly(runs: set<string>, es: seq<Event>) {
    forall e <- es | e.CreatePod? :: e.run in runs
  }

  /** Some accepted cleanup of the pod's own run covers its generation. */
  predicate Licensed(accepted: set<(string, int)>, p: Pod) {
    exists a <- accepted :: a.0 == Label(p.labels, RUN_ID) && PodGeneration(p.labels) <= a.1
  }

  predicate Distinct(runs: set<string>) {
    forall a, b | a in runs && b in runs && ShortId(a) == ShortId(b) :: a == b
  }

  // ------------------------------------------------------------- invariant

  /** A pod's name, labels and generation agree. */
  ghost predicate PodOk(runs: set<string>, name: string, p: Pod) {
    exists run, g, svc :: run in runs && ValidLabel(run) && InInt64(g)
      && name == PodName(ShortId(run), g, svc) && p.labels == BuildLabels(run, g, svc)
  }

  /** What a listing remembers of a pod is still true of its name. */
  ghost predicate EntryOk(runs: set<string>, run: string, x: Entry) {
    exists svc :: run in runs && InInt64(x.generation) && x.name == PodName(ShortId(run), x.generation, svc)
  }

  ghost predicate Inv(runs: set<string>, s: State) {
    && (forall n <- s.pods :: PodOk(runs, n, s.pods[n]))
    && (forall c <- s.calls :: (c.run, c.ceiling) in s.accepted && forall x <- c.todo :: EntryOk(runs, c.run, x))
    && (Distinct(runs) ==> forall l <- s.lost :: Licensed(s.accepted, l.0))
  }

  lemma PodFacts(runs: set<string>, name: string, p: Pod, run: string)
    requires PodOk(runs, name, p) && Selected(p.labels, run)
    ensures EntryOk(runs, run, Entry(name, p.uid, PodGeneration(p.labels)))
  {
    var r, g, svc :| r in runs && ValidLabel(r) && InInt64(g)
      && name == PodName(ShortId(r), g, svc) && p.labels == BuildLabels(r, g, svc);
    BuiltPodIsOurs(r, g, svc, run, svc, g);
  }

  /** With distinct short ids the pod under a listed name is of the listed run and
      generation, even when it is not the pod that was listed. */
  lemma NameDetermines(runs: set<string>, x: Entry, run: string, p: Pod)
    requires Distinct(runs) && EntryOk(runs, run, x) && PodOk(runs, x.name, p)
    ensures Label(p.labels, RUN_ID) == run && PodGeneration(p.labels) == x.generation
  {
    var svc :| run in runs && InInt64(x.generation) && x.name == PodName(ShortId(run), x.generation, svc);
    var r, g, svc2 :| r in runs && ValidLabel(r) && InInt64(g)
      && x.name == PodName(ShortId(r), g, svc2) && p.labels == BuildLabels(r, g, svc2);
    PodNameInjective(ShortId(run), x.generation, svc, ShortId(r), g, svc2);
    BuiltPodIsOurs(r, g, svc2, r, svc2, g);
  }

  lemma StepKeepsInv(runs: set<string>, s: State, e: Event, t: State)
    requires Inv(runs, s) && Step(s, e) == Some(t) && (e.CreatePod? ==> e.run in runs)
    ensures Inv(runs, t)
  {
    match e
    case CreatePod(run, g, svc) =>
      var name := PodName(ShortId(run), g, svc);
      assert PodOk(runs, name, t.pods[name]);
    case Adopt(_, _, _) =>
    case AcceptCleanup(run, g) =>
      forall l <- t.lost | Distinct(runs) ensures Licensed(t.accepted, l.0) {
        var a :| a in s.accepted && a.0 == Label(l.0.labels, RUN_ID) && PodGeneration(l.0.labels) <= a.1;
        assert a in t.accepted;
      }
    case List(run, g, order) =>
      var started := t.calls[|s.calls|];
      forall x <- started.todo ensures EntryOk(runs, run, x) {
        var k :| 0 <= k < |started.todo| && started.todo[k] == x;
        assert order[k] in order;
        PodFacts(runs, order[k], s.pods[order[k]], run);
      }
    case DeleteNext(i, denied) =>
      DeleteKeepsInv(runs, s, i, denied, t);
  }

  lemma DeleteKeepsInv(runs: set<string>, s: State, i: nat, denied: bool, t: State)
    requires Inv(runs, s) && Step(s, DeleteNext(i, denied)) == Some(t)
    ensures Inv(runs, t)
  {
    hide PodName;
    hide BuildLabels;
    var c := s.calls[i];
    var x := c.todo[0];
    assert c in s.calls && x in c.todo;
    forall c2 <- t.calls ensures (c2.run, c2.ceiling) in t.accepted && forall y <- c2.todo :: EntryOk(runs, c2.run, y) {
      var k :| 0 <= k < |t.calls| && t.calls[k] == c2;
      assert s.calls[k] in s.calls;
      forall y <- c2.todo ensures EntryOk(runs, c2.run, y) {
        assert y in s.calls[k].todo;
      }
    }
    if t.lost != s.lost && Distinct(runs) {
      NameDetermines(runs, x, c.run, s.pods[x.name]);
      assert (c.run, c.ceiling) in s.accepted;
      assert Licensed(t.accepted, s.pods[x.name]);
    }
  }

  lemma {:induction false} ExecKeepsInv(runs: set<string>, s: State, es: seq<Event>, t: State)
    requires Inv(runs, s) && Exec(s, es) == Some(t) && UsesOnly(runs, es)
    ensures Inv(runs, t)
    decreases |es|
  {
    hide Step;
    hide Inv;
    if es != [] {
      assert es[0] in es && forall e <- es[1..] :: e in es;
      StepKeepsInv(runs, s, es[0], Step(s, es[0]).value);
      ExecKeepsInv(runs, Step(s, es[0]).value, es[1..], t);
    }
  }

  function Creators(es: seq<Event>): set<string> {
    set e | e in es && e.CreatePod? :: e.run
  }

  /** EnsureServices reuses the pod that has its name. Over every interleaving, with colliding short ids too, it
      does so exactly when the pod was built for the adopter's own full run id, service and generation. */
  lemma AdoptedPodIsTheAdopters(es: seq<Event>, s: State, run: string, g: int, svc: string)
    requires Exec(INIT, es) == Some(s)
    ensures
      var name := PodName(ShortId(run), g, svc);
      && (Step(s, Adopt(run, g, svc)).Some? <==> name in s.pods && s.pods[name].labels == BuildLabels(run, g, svc))
      && (Step(s, Adopt(run, g, svc)).Some? ==>
            && Label(s.pods[name].labels, RUN_ID) == run && Label(s.pods[name].labels, SERVICE) == svc
            && PodGeneration(s.pods[name].labels) == g)
  {
    var name := PodName(ShortId(run), g, svc);
    ExecKeepsInv(Creators(es), INIT, es, s);
    hide PodName;
    if name in s.pods {
      assert PodOk(Creators(es), name, s.pods[name]);
      var r, g2, svc2 :| r in Creators(es) && ValidLabel(r) && InInt64(g2)
        && name == PodName(ShortId(r), g2, svc2) && s.pods[name].labels == BuildLabels(r, g2, svc2);
      BuiltPodIsOurs(r, g2, svc2, run, svc, g);
      SameLabels(run, g, svc, r, g2, svc2);
    }
  }

  /** A create whose name is free makes a pod that every agent of the same run and generation then adopts; when the
      name is taken, nothing is created. */
  lemma CreatedPodCanBeAdopted(s: State, run: string, g: int, svc: string)
    requires ValidLabel(run) && InInt64(g)
    ensures var name := PodName(ShortId(run), g, svc);
            && (Step(s, CreatePod(run, g, svc)).Some? <==> name !in s.pods)
            && (name !in s.pods ==>
                  var t := Step(s, CreatePod(run, g, svc)).value;
                  && t.pods == s.pods[name := Pod(s.nextUid, BuildLabels(run, g, svc))] && t.nextUid == s.nextUid + 1
                  && t.calls == s.calls && t.accepted == s.accepted && t.lost == s.lost
                  && Step(t, Adopt(run, g, svc)) == Some(t))
  {
    BuiltPodIsOurs(run, g, svc, run, svc, g);
  }

  lemma SameLabels(run: string, g: int, svc: string, r: string, g2: int, svc2: string)
    requires ValidLabel(r)
    ensures BuildLabels(run, g, svc) == BuildLabels(r, g2, svc2) <==> run == r && g == g2 && svc == svc2
  {
    hide ValidLabel;
    var (a, b) := (BuildLabels(run, g, svc), BuildLabels(r, g2, svc2));
    if a == b {
      assert a[SERVICE] == b[SERVICE] && a[GENERATION] == b[GENERATION] && RUN_ID in b && a[RUN_ID] == b[RUN_ID];
      FormatInjective(g, g2);
    }
  }

  /** Over every interleaving of runs with distinct short ids: a service pod is only
      deleted if an accepted cleanup of its own run covers its generation. */
  lemma DeletesAreLicensed(runs: set<string>, es: seq<Event>, t: State)
    requires Distinct(runs) && Exec(INIT, es) == Some(t) && UsesOnly(runs, es)
    ensures forall l <- t.lost :: Licensed(t.accepted, l.0)
  {
    ExecKeepsInv(runs, INIT, es, t);
  }

  // ------------------------------------------- the collision, and the iff

  /** Two run ids with the same short id: agent 0 and agent 1 list a's pod, agent 0
      deletes it, b takes the name, and agent 1's delete by name removes b's pod. */
  lemma CollisionLosesAPod(a: string, b: string) returns (es: seq<Event>, t: State)
    requires a != b && ShortId(a) == ShortId(b) && ValidLabel(a) && ValidLabel(b)
    ensures Exec(INIT, es) == Some(t) && UsesOnly({a, b}, es)
    ensures exists l <- t.lost :: !Licensed(t.accepted, l.0)
  {
    var n := PodName(ShortId(a), 0, "db");
    var (la, lb) := (BuildLabels(a, 0, "db"), BuildLabels(b, 0, "db"));
    BuiltPodIsOurs(a, 0, "db", a, "db", 0);
    BuiltPodIsOurs(b, 0, "db", b, "db", 0);
    es := [CreatePod(a, 0, "db"), AcceptCleanup(a, 0), List(a, 0, [n]), List(a, 0, [n]),
           DeleteNext(0, false), CreatePod(b, 0, "db"), DeleteNext(1, false)];
    var x := Entry(n, 0, 0);
    var open, shut := Call(a, 0, [x], [x], [], false), Call(a, 0, [x], [], [x], false);
    var mid := State(map[n := Pod(0, la)], 1, {(a, 0)}, [open, open], []);
    t := State(map[], 2, {(a, 0)}, [shut, shut], [(Pod(0, la), open), (Pod(1, lb), open)]);
    BothList(a, es, mid);
    BothDelete(a, b, es[4..], mid, t);
    ExecAppend(INIT, es[..4], es[4..]);
    assert es[..4] + es[4..] == es;
    assert (Pod(1, lb), open) in t.lost && !Licensed(t.accepted, Pod(1, lb));
  }

  lemma BothList(a: string, es: seq<Event>, mid: State)
    requires ValidLabel(a) && |es| >= 4
    requires
      var (n, la, x) := (PodName(ShortId(a), 0, "db"), BuildLabels(a, 0, "db"), Entry(PodName(ShortId(a), 0, "db"), 0, 0));
      var open := Call(a, 0, [x], [x], [], false);
      && es[..4] == [CreatePod(a, 0, "db"), AcceptCleanup(a, 0), List(a, 0, [n]), List(a, 0, [n])]
      && mid == State(map[n := Pod(0, la)], 1, {(a, 0)}, [open, open], [])
    ensures Exec(INIT, es[..4]) == Some(mid)
  {
    var fs := es[..4];
    var open, n, la := mid.calls[0], PodName(ShortId(a), 0, "db"), BuildLabels(a, 0, "db");
    BuiltPodIsOurs(a, 0, "db", a, "db", 0);
    assert Snapshot(map[n := Pod(0, la)], [n]) == open.listing;
    var s1 := State(map[n := Pod(0, la)], 1, {}, [], []);
    var s2 := State(map[n := Pod(0, la)], 1, {(a, 0)}, [], []);
    var s3 := State(map[n := Pod(0, la)], 1, {(a, 0)}, [open], []);
    FirstStep(INIT, fs, s1);
    FirstStep(s1, fs[1..], s2);
    FirstStep(s2, fs[2..], s3);
    FirstStep(s3, fs[3..], mid);
  }

  lemma BothDelete(a: string, b: string, fs: seq<Event>, mid: State, t: State)
    requires a != b && ShortId(a) == ShortId(b) && ValidLabel(a) && ValidLabel(b)
    requires
      var (n, la, lb) := (PodName(ShortId(a), 0, "db"), BuildLabels(a, 0, "db"), BuildLabels(b, 0, "db"));
      var x := Entry(n, 0, 0);
      var (open, shut) := (Call(a, 0, [x], [x], [], false), Call(a, 0, [x], [], [x], false));
      && fs == [DeleteNext(0, false), CreatePod(b, 0, "db"), DeleteNext(1, false)]
      && mid == State(map[n := Pod(0, la)], 1, {(a, 0)}, [open, open], [])
      && t == State(map[], 2, {(a, 0)}, [shut, shut], [(Pod(0, la), open), (Pod(1, lb), open)])
    ensures Exec(mid, fs) == Some(t)
  {
    var (n, la, lb) := (PodName(ShortId(a), 0, "db"), BuildLabels(a, 0, "db"), BuildLabels(b, 0, "db"));
    var open, shut := mid.calls[0], t.calls[0];
    var s5 := State(map[], 1, {(a, 0)}, [shut, open], [(Pod(0, la), open)]);
    var s6 := State(map[n := Pod(1, lb)], 2, {(a, 0)}, [shut, open], [(Pod(0, la), open)]);
    assert open.todo[1..] == shut.todo && open.visited + [open.todo[0]] == shut.visited;
    assert open.(todo := open.todo[1..], visited := open.visited + [open.todo[0]]) == shut;
    FirstStep(mid, fs, s5);
    FirstStep(s5, fs[1..], s6);
    FirstStep(s6, fs[2..], t);
  }

  lemma {:induction false} ExecAppend(s: State, es: seq<Event>, fs: seq<Event>)
    requires Exec(s, es).Some?
    ensures Exec(s, es + fs) == Exec(Exec(s, es).value, fs)
    decreases |es|
  {
    hide Step;
    if es == [] {
      assert es + fs == fs;
    } else {
      ExecAppend(Step(s, es[0]).value, es[1..], fs);
      assert (es + fs)[1..] == es[1..] + fs;
    }
  }

  predicate Same(s: State, t: State) {
    s.pods == t.pods && s.nextUid == t.nextUid && s.accepted == t.accepted && s.calls == t.calls && s.lost == t.lost
  }

  lemma FirstStep(s: State, es: seq<Event>, t: State)
    requires es != [] && Step(s, es[0]).Some? && Same(Step(s, es[0]).value, t)
    ensures Exec(s, es) == Exec(t, es[1..])
  {
  }

  /** For any set of valid run ids: deletes are licensed in every interleaving if and
      only if no two of the ids share a short id. */
  lemma DeletesAreLicensedIff(runs: set<string>)
    requires forall r <- runs :: ValidLabel(r)
    ensures Distinct(runs) <==>
            (forall es, t | Exec(INIT, es) == Some(t) && UsesOnly(runs, es) :: forall l <- t.lost :: Licensed(t.accepted, l.0))
  {
    if Distinct(runs) {
      forall es, t | Exec(INIT, es) == Some(t) && UsesOnly(runs, es) ensures forall l <- t.lost :: Licensed(t.accepted, l.0) {
        DeletesAreLicensed(runs, es, t);
      }
    } else {
      var a, b :| a in runs && b in runs && ShortId(a) == ShortId(b) && a != b;
      var es, t := CollisionLosesAPod(a, b);
      assert UsesOnly(runs, es);
    }
  }

  // ------------------------------------------ a cleanup that nobody disturbs

  /** The names that the rest of a call is going to delete. */
  function ToDelete(todo: seq<Entry>, ceiling: int): set<string> {
    set k | 0 <= k < |todo| && todo[k].generation <= ceiling :: todo[k].name
  }

  lemma ToDeleteFirst(todo: seq<Entry>, ceiling: int)
    requires todo != []
    ensures ToDelete(todo, ceiling)
            == ToDelete(todo[1..], ceiling) + if todo[0].generation <= ceiling then {todo[0].name} else {}
  {
    forall n ensures n in ToDelete(todo, ceiling) <==>
                     n in ToDelete(todo[1..], ceiling) + if todo[0].generation <= ceiling then {todo[0].name} else {}
    {
      if n in ToDelete(todo, ceiling) {
        var k :| 0 <= k < |todo| && todo[k].generation <= ceiling && todo[k].name == n;
        assert k > 0 ==> todo[1..][k - 1] == todo[k];
      }
      if n in ToDelete(todo[1..], ceiling) {
        var k :| 0 <= k < |todo[1..]| && todo[1..][k].generation <= ceiling && todo[1..][k].name == n;
        assert todo[k + 1] == todo[1..][k];
      }
    }
  }

  lemma DeleteOne(s: State, i: nat)
    requires i < |s.calls| && s.calls[i].todo != []
    ensures var (c, t) := (s.calls[i], Step(s, DeleteNext(i, false)));
      && t.Some? && |t.value.calls| == |s.calls| && t.value.nextUid == s.nextUid && t.value.accepted == s.accepted
      && t.value.calls[i].todo == c.todo[1..] && t.value.calls[i].ceiling == c.ceiling && t.value.calls[i].failed == c.failed
      && t.value.pods == s.pods - if c.todo[0].generation <= c.ceiling then {c.todo[0].name} else {}
  {
  }

  lemma {:induction false} DeletesRun(s: State, i: nat) returns (es: seq<Event>, t: State)
    requires i < |s.calls|
    ensures Exec(s, es) == Some(t) && |t.calls| == |s.calls|
    ensures t.calls[i].todo == [] && t.calls[i].failed == s.calls[i].failed
    ensures t.pods == s.pods - ToDelete(s.calls[i].todo, s.calls[i].ceiling)
    decreases |s.calls[i].todo|
  {
    var c := s.calls[i];
    if c.todo == [] {
      es, t := [], s;
      assert ToDelete([], c.ceiling) == {};
    } else {
      DeleteOne(s, i);
      ToDeleteFirst(c.todo, c.ceiling);
      hide Step;
      hide ToDelete;
      var next := Step(s, DeleteNext(i, false)).value;
      var rest;
      rest, t := DeletesRun(next, i);
      es := [DeleteNext(i, false)] + rest;
      assert es[1..] == rest;
    }
  }

  /** From any state: an accepted cleanup that lists and deletes without interference or error removes exactly the
      run's pods up to its ceiling, as it does for one caller. */
  lemma UndisturbedCleanup(s: State, run: string, g: int, order: seq<string>) returns (es: seq<Event>, t: State)
    requires (run, g) in s.accepted && ValidLabel(run) && IsListing(s.pods, run, order)
    ensures Exec(s, [List(run, g, order)] + es) == Some(t)
    ensures t.pods == s.pods - Doomed(s.pods, run, g)
    ensures |t.calls| == |s.calls| + 1 && t.calls[|s.calls|].todo == [] && !t.calls[|s.calls|].failed
  {
    var listed := Step(s, List(run, g, order)).value;
    var todo := listed.calls[|s.calls|].todo;
    es, t := DeletesRun(listed, |s.calls|);
    assert ([List(run, g, order)] + es)[1..] == es;
    ListingIsDoomed(s.pods, run, g, order);
  }

  lemma ListingIsDoomed(pods: map<string, Pod>, run: string, g: int, order: seq<string>)
    requires IsListing(pods, run, order)
    ensures ToDelete(Snapshot(pods, order), g) == Doomed(pods, run, g)
  {
    hide PodGeneration;
    hide Selected;
    var todo := Snapshot(pods, order);
    forall n ensures n in ToDelete(todo, g) <==> n in Doomed(pods, run, g) {
      if n in ToDelete(todo, g) {
        var k :| 0 <= k < |todo| && todo[k].generation <= g && todo[k].name == n;
        assert order[k] in order;
      }
      if n in Doomed(pods, run, g) {
        assert n in order;
        var k :| 0 <= k < |order| && order[k] == n;
        assert todo[k].name == n;
      }
    }
  }

  // ---------------------------------------- an error-free cleanup is thorough

  ghost predicate UidsOk(s: State) {
    && (forall n <- s.pods :: s.pods[n].uid < s.nextUid)
    && (forall m, n | m in s.pods && n in s.pods && s.pods[m].uid == s.pods[n].uid :: m == n)
  }

  /** A listed object is still under its name or gone for good; once visited within
      the ceiling and without an error, it is gone. */
  ghost predicate CallOk(s: State, c: Call) {
    && c.visited + c.todo == c.listing
    && (forall x <- c.listing :: x.uid < s.nextUid)
    && (forall x <- c.listing, n <- s.pods | s.pods[n].uid == x.uid :: n == x.name)
    && (!c.failed ==> forall x <- c.visited, n <- s.pods | x.generation <= c.ceiling :: s.pods[n].uid != x.uid)
  }

  ghost predicate Thorough(s: State) {
    UidsOk(s) && forall c <- s.calls :: CallOk(s, c)
  }

  lemma CallOkKept(s: State, t: State, c: Call)
    requires UidsOk(s) && CallOk(s, c) && s.nextUid <= t.nextUid
    requires forall n <- t.pods :: (n in s.pods && t.pods[n] == s.pods[n]) || t.pods[n].uid == s.nextUid
    ensures CallOk(t, c)
  {
    assert forall x <- c.visited :: x in c.listing;
  }

  lemma VisitNext(t: State, c: Call, d: Call)
    requires CallOk(t, c) && c.todo != []
    requires d == c.(todo := c.todo[1..], visited := c.visited + [c.todo[0]], failed := d.failed) && (c.failed ==> d.failed)
    requires !d.failed && c.todo[0].generation <= c.ceiling ==> c.todo[0].name !in t.pods
    ensures CallOk(t, d)
  {
    var x := c.todo[0];
    assert c.todo == [x] + d.todo;
    assert d.visited + d.todo == c.visited + c.todo;
    assert x in c.listing by { assert x == c.listing[|c.visited|]; }
  }

  lemma VisitKeeps(s: State, i: nat, denied: bool, t: State)
    requires Thorough(s) && Step(s, DeleteNext(i, denied)) == Some(t)
    ensures CallOk(t, t.calls[i])
  {
    var c := s.calls[i];
    assert c in s.calls;
    CallOkKept(s, t, c);
    hide CallOk;
    VisitNext(t, c, t.calls[i]);
  }

  lemma UidsKeep(s: State, e: Event, t: State)
    requires UidsOk(s) && Step(s, e) == Some(t)
    ensures UidsOk(t)
  {
    hide PodName;
    hide BuildLabels;
  }

  lemma NewCallIsOk(s: State, e: Event, t: State)
    requires Thorough(s) && e.List? && Step(s, e) == Some(t)
    ensures CallOk(t, t.calls[|s.calls|])
  {
    var c := t.calls[|s.calls|];
    forall x <- c.listing ensures x.name in s.pods && x.uid == s.pods[x.name].uid {
      var j :| 0 <= j < |c.listing| && c.listing[j] == x;
      assert e.order[j] in e.order;
    }
  }

  lemma StepKeepsThorough(s: State, e: Event, t: State)
    requires Thorough(s) && Step(s, e) == Some(t)
    ensures Thorough(t)
  {
    hide CallOk;
    hide UidsOk;
    hide PodName;
    hide BuildLabels;
    UidsKeep(s, e, t);
    forall c <- t.calls ensures CallOk(t, c) {
      var k :| 0 <= k < |t.calls| && t.calls[k] == c;
      if e.DeleteNext? && e.call == k {
        VisitKeeps(s, k, e.denied, t);
      } else if k < |s.calls| {
        assert s.calls[k] in s.calls;
        CallOkKept(s, t, c);
      } else {
        NewCallIsOk(s, e, t);
      }
    }
  }

  lemma {:induction false} ExecKeepsThorough(s: State, es: seq<Event>, t: State)
    requires Thorough(s) && Exec(s, es) == Some(t)
    ensures Thorough(t)
    decreases |es|
  {
    hide Step;
    hide Thorough;
    if es != [] {
      StepKeepsThorough(s, es[0], Step(s, es[0]).value);
      ExecKeepsThorough(Step(s, es[0]).value, es[1..], t);
    }
  }

  /** Whatever other agents and creators do meanwhile: once a cleanup has finished
      without an error, none of the pods it listed with a generation up to its ceiling
      is left. (A pod created later under the same name is another object.) */
  lemma ErrorFreeCleanupIsThorough(es: seq<Event>, t: State, c: Call, x: Entry)
    requires Exec(INIT, es) == Some(t) && c in t.calls && c.todo == [] && !c.failed
    requires x in c.listing && x.generation <= c.ceiling
    ensures forall n <- t.pods :: t.pods[n].uid != x.uid
  {
    ExecKeepsThorough(INIT, es, t);
    assert c.visited + c.todo == c.visited;
  }
}
