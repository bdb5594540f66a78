/** The coalescing cleanup pool: the bounded queue of run ids, the pending set, the
    generation ceilings, the workers and the engine they call. */
module CleanupPool {
  import opened Wrappers

  type RunId = string

  const QUEUE_CAP := 256

  /** What cleanupMu guards, and the channel. `accepted` is a history variable: the
      ceilings accepted (enqueued or coalesced) since the run's entry was created. */
  datatype Pool = Pool(queue: seq<RunId>, pending: set<RunId>, maxGen: map<RunId, int>, accepted: map<RunId, seq<int>>)

  /** Whether a worker returns to its select or to the shutdown drain. */
  datatype Mode = Steady | Shutdown

  /** `ceilings` are the generations the worker has passed to the engine, all of
      them successfully, since it took the run. */
  datatype Worker =
    | Waiting                                                    // select of cleanupWorkerLoop
    | Draining                                                   // top of drainCleanupQueue
    | Selecting                                                  // past the pre-pop budget gate
    | Taken(run: RunId)                                          // received, ctx not re-checked yet
    | Popped(run: RunId)                                         // received in the drain, budget not re-checked yet
    | Holding(run: RunId, ceilings: seq<int>, mode: Mode)        // top of runCleanup's loop
    | Calling(run: RunId, ceilings: seq<int>, gen: int, mode: Mode)
    | Failing(run: RunId, ceilings: seq<int>, gen: int, mode: Mode)   // engine error, entry not cleared yet
    | Stopped

  /** `pushing` is set while the dispatcher, inside the lock, has sent a run on the
      channel but not recorded it yet. */
  datatype State = State(pool: Pool, workers: seq<Worker>, pushing: Option<(RunId, int)>,
                         hasEngine: bool, cancelled: bool, budgetFired: bool)

  /** What a worker does next. */
  datatype Act =
    | Receive | Begin | NoticeCancel
    | BudgetGate | DrainReceive | PostPopGate
    | CheckCeiling | EngineOk | EngineError | Clear

  datatype Event =
    | Accept(run: RunId, gen: int)
    | Record
    | CancelWorkers
    | BudgetFires
    | Work(w: nat, act: Act)

  function Get<V>(m: map<RunId, V>, k: RunId, zero: V): V {
    if k in m then m[k] else zero
  }

  function Coalesce(p: Pool, run: RunId, gen: int): Pool {
    p.(maxGen := if gen > Get(p.maxGen, run, 0) then p.maxGen[run := gen] else p.maxGen,
       accepted := p.accepted[run := Get(p.accepted, run, []) + [gen]])
  }

  function RecordEntry(p: Pool, run: RunId, gen: int): Pool {
    p.(pending := p.pending + {run}, maxGen := p.maxGen[run := gen], accepted := p.accepted[run := [gen]])
  }

  function DeleteEntry(p: Pool, run: RunId): Pool {
    p.(pending := p.pending - {run}, maxGen := p.maxGen - {run})
  }

  /** enqueueRunCleanup as a whole, the lock held throughout. */
  function EnqueueSpec(p: Pool, run: RunId, gen: int): Pool {
    if run == "" then p
    else if run in p.pending then Coalesce(p, run, gen)
    else if |p.queue| < QUEUE_CAP then RecordEntry(p.(queue := p.queue + [run]), run, gen)
    else p
  }

  function LastOr(xs: seq<int>, otherwise: int): int {
    if xs == [] then otherwise else xs[|xs| - 1]
  }

  function Leave(m: Mode): Worker {
    if m.Steady? then Waiting else Draining
  }

  function Init(workers: nat, hasEngine: bool): State {
    State(Pool([], {}, map[], map[]), seq(workers, _ => Waiting), None, hasEngine, false, false)
  }

  function Move(s: State, w: nat, pc: Worker): State
    requires w < |s.workers|
  {
    s.(workers := s.workers[w := pc])
  }

  function WorkerStep(s: State, w: nat, act: Act): Option<State>
    requires w < |s.workers|
  {
    var pc, p, free := s.workers[w], s.pool, s.pushing == None;
    match act
    case Receive =>
      if pc.Waiting? && p.queue != [] then Some(Move(s.(pool := p.(queue := p.queue[1..])), w, Taken(p.queue[0]))) else None
    case Begin =>
      if pc.Taken? then Some(Move(s, w, Holding(pc.run, [], if s.cancelled then Shutdown else Steady))) else None
    case NoticeCancel =>
      if pc.Waiting? && s.cancelled then Some(Move(s, w, Draining)) else None
    case BudgetGate =>
      if pc.Draining? then Some(Move(s, w, if s.budgetFired then Stopped else Selecting)) else None
    case DrainReceive =>
      if !pc.Selecting? then None
      else if p.queue == [] then Some(Move(s, w, Stopped))
      else Some(Move(s.(pool := p.(queue := p.queue[1..])), w, Popped(p.queue[0])))
    case PostPopGate =>
      if !(pc.Popped? && free) then None
      else if s.budgetFired then Some(Move(s.(pool := p.(pending := p.pending - {pc.run})), w, Draining))
      else Some(Move(s, w, Holding(pc.run, [], Shutdown)))
    case CheckCeiling =>
      if !(pc.Holding? && free) then None
      else
        var gen := Get(p.maxGen, pc.run, 0);
        if !s.hasEngine || gen <= LastOr(pc.ceilings, -1)
        then Some(Move(s.(pool := DeleteEntry(p, pc.run)), w, Leave(pc.mode)))
        else Some(Move(s, w, Calling(pc.run, pc.ceilings, gen, pc.mode)))
    case EngineOk =>
      if pc.Calling? then Some(Move(s, w, Holding(pc.run, pc.ceilings + [pc.gen], pc.mode))) else None
    case EngineError =>
      if pc.Calling? then Some(Move(s, w, Failing(pc.run, pc.ceilings, pc.gen, pc.mode))) else None
    case Clear =>
      if pc.Failing? && free then Some(Move(s.(pool := DeleteEntry(p, pc.run)), w, Leave(pc.mode))) else None
  }

  function Step(s: State, e: Event): Option<State> {
    var p := s.pool;
    match e
    case Accept(run, gen) =>
      if s.pushing.Some? then None
      else if run == "" then Some(s)
      else if run in p.pending then Some(s.(pool := Coalesce(p, run, gen)))
      else if |p.queue| < QUEUE_CAP then Some(s.(pool := p.(queue := p.queue + [run]), pushing := Some((run, gen))))
      else Some(s)
    case Record =>
      if s.pushing.None? then None
      else Some(s.(pool := RecordEntry(p, s.pushing.value.0, s.pushing.value.1), pushing := None))
    case CancelWorkers => Some(s.(cancelled := true))
    case BudgetFires => Some(s.(budgetFired := true))
    case Work(w, act) => if w < |s.workers| then WorkerStep(s, w, act) else None
  }

  ghost predicate Reachable(s: State) {
    exists n: nat, engine: bool, es: seq<Event> :: Exec(Init(n, engine), es) == Some(s)
  }

  function Exec(s: State, es: seq<Event>): Option<State>
    decreases |es|
  {
    if es == [] then Some(s)
    else match Step(s, es[0])
      case None => None
      case Some(next) => Exec(next, es[1..])
  }

  /** enqueueRunCleanup is what the dispatcher does in this transition system: Accept, then Record where
      Accept has sent the run on the channel. */
  lemma EnqueueIsAcceptAndRecord(s: State, run: RunId, gen: int)
    requires s.pushing.None?
    ensures var t := Step(s, Accept(run, gen));
            && t.Some?
            && (if t.value.pushing.Some? then Step(t.value, Record) else t) == Some(s.(pool := EnqueueSpec(s.pool, run, gen)))
  {
  }

  // ------------------------------------------------------------- invariant

  predicate Holds(pc: Worker) {
    pc.Taken? || pc.Popped? || pc.Holding? || pc.Calling? || pc.Failing?
  }

  /** Some worker is processing the run. */
  predicate Held(workers: seq<Worker>, run: RunId) {
    exists w :: 0 <= w < |workers| && Holds(workers[w]) && workers[w].run == run
  }

  /** No run is queued twice, held by two workers, or queued while held. */
  predicate NoDuplicates(queue: seq<RunId>, workers: seq<Worker>) {
    && (forall a, b | 0 <= a < b < |queue| :: queue[a] != queue[b])
    && (forall v, w | 0 <= v < w < |workers| && Holds(workers[v]) && Holds(workers[w]) :: workers[v].run != workers[w].run)
    && (forall w | 0 <= w < |workers| && Holds(workers[w]) :: workers[w].run !in queue)
  }

  function Entered(pending: set<RunId>, pushing: Option<(RunId, int)>): set<RunId> {
    pending + (if pushing.Some? then {pushing.value.0} else {})
  }

  /** The runs entered are exactly the queued ones plus the ones being processed. */
  ghost predicate EnteredExactly(entered: set<RunId>, queue: seq<RunId>, workers: seq<Worker>) {
    forall run: RunId :: run in entered <==> run in queue || Held(workers, run)
  }

  predicate IsMax(m: int, xs: seq<int>) {
    m in xs && forall x <- xs :: x <= m
  }

  /** The ceiling of a pending run is the highest one accepted for its entry. */
  ghost predicate CeilingIsMax(p: Pool) {
    forall run <- p.pending :: run in p.maxGen && run in p.accepted && IsMax(p.maxGen[run], p.accepted[run])
  }

  predicate Increasing(xs: seq<int>) {
    forall a, b | 0 <= a < b < |xs| :: xs[a] < xs[b]
  }

  /** The ceilings passed to the engine during this hold, the failed one included. */
  function Attempts(pc: Worker): seq<int> {
    if pc.Holding? then pc.ceilings else if pc.Calling? || pc.Failing? then pc.ceilings + [pc.gen] else []
  }

  /** Each engine call of one hold uses a higher ceiling than the one before, and
      every ceiling used was accepted for the entry. */
  ghost predicate CallsOk(p: Pool, pc: Worker) {
    Attempts(pc) != [] ==>
      && pc.run in p.pending
      && Increasing(Attempts(pc))
      && forall g <- Attempts(pc) :: g > -1 && g in Get(p.accepted, pc.run, [])
  }

  ghost predicate Inv(s: State) {
    && NoDuplicates(s.pool.queue, s.workers)
    && EnteredExactly(Entered(s.pool.pending, s.pushing), s.pool.queue, s.workers)
    && (s.pushing.Some? ==> s.pushing.value.0 !in s.pool.pending)
    && CeilingIsMax(s.pool)
    && (forall w | 0 <= w < |s.workers| :: CallsOk(s.pool, s.workers[w]))
  }

  /** A worker receives the head of the queue. */
  lemma TakeKeeps(entered: set<RunId>, queue: seq<RunId>, workers: seq<Worker>, w: nat, pc: Worker)
    requires NoDuplicates(queue, workers) && EnteredExactly(entered, queue, workers)
    requires w < |workers| && !Holds(workers[w]) && queue != [] && Holds(pc) && pc.run == queue[0]
    ensures NoDuplicates(queue[1..], workers[w := pc]) && EnteredExactly(entered, queue[1..], workers[w := pc])
  {
    var after := workers[w := pc];
    assert queue == [queue[0]] + queue[1..];
    forall run: RunId ensures run in entered <==> run in queue[1..] || Held(after, run) {
      if Held(workers, run) {
        var v :| 0 <= v < |workers| && Holds(workers[v]) && workers[v].run == run;
        assert Holds(after[v]);
      }
      assert Holds(after[w]);
    }
  }

  /** A worker goes on with the run it holds, or stays empty-handed. */
  lemma CarryKeeps(entered: set<RunId>, queue: seq<RunId>, workers: seq<Worker>, w: nat, pc: Worker)
    requires NoDuplicates(queue, workers) && EnteredExactly(entered, queue, workers)
    requires w < |workers| && Holds(workers[w]) == Holds(pc) && (Holds(pc) ==> pc.run == workers[w].run)
    ensures NoDuplicates(queue, workers[w := pc]) && EnteredExactly(entered, queue, workers[w := pc])
  {
    var after := workers[w := pc];
    forall run: RunId ensures Held(workers, run) <==> Held(after, run) {
      if Held(workers, run) {
        var v :| 0 <= v < |workers| && Holds(workers[v]) && workers[v].run == run;
        assert Holds(after[v]);
      }
      if Held(after, run) {
        var v :| 0 <= v < |after| && Holds(after[v]) && after[v].run == run;
        assert Holds(workers[v]);
      }
    }
  }

  /** A worker lets go of its run, whose entry is deleted. */
  lemma DropKeeps(entered: set<RunId>, queue: seq<RunId>, workers: seq<Worker>, w: nat, pc: Worker)
    requires NoDuplicates(queue, workers) && EnteredExactly(entered, queue, workers)
    requires w < |workers| && Holds(workers[w]) && !Holds(pc)
    ensures NoDuplicates(queue, workers[w := pc])
    ensures EnteredExactly(entered - {workers[w].run}, queue, workers[w := pc])
  {
    var after := workers[w := pc];
    forall run: RunId ensures Held(after, run) <==> Held(workers, run) && run != workers[w].run {
      if Held(workers, run) && run != workers[w].run {
        var v :| 0 <= v < |workers| && Holds(workers[v]) && workers[v].run == run;
        assert Holds(after[v]);
      }
      if Held(after, run) {
        var v :| 0 <= v < |after| && Holds(after[v]) && after[v].run == run;
        assert Holds(workers[v]);
      }
    }
  }

  lemma PushKeeps(entered: set<RunId>, queue: seq<RunId>, workers: seq<Worker>, run: RunId)
    requires NoDuplicates(queue, workers) && EnteredExactly(entered, queue, workers) && run !in entered
    ensures NoDuplicates(queue + [run], workers) && EnteredExactly(entered + {run}, queue + [run], workers)
  {
    forall w | 0 <= w < |workers| && Holds(workers[w]) ensures workers[w].run != run {
      assert Held(workers, workers[w].run);
    }
  }

  /** A worker's action takes the head of the queue, lets go of its entry, or
      leaves the pool alone. */
  lemma WorkShape(s: State, w: nat, act: Act, t: State)
    requires w < |s.workers| && WorkerStep(s, w, act) == Some(t)
    ensures t.workers == s.workers[w := t.workers[w]] && t.pushing == s.pushing
    ensures t.pool.accepted == s.pool.accepted
    ensures
      var (was, now) := (s.workers[w], t.workers[w]);
      if Holds(was) && !Holds(now) then
        && s.pushing == None && t.pool.queue == s.pool.queue && t.pool.pending == s.pool.pending - {was.run}
        && t.pool.maxGen in {s.pool.maxGen, s.pool.maxGen - {was.run}}
      else if !Holds(was) && Holds(now) then
        && s.pool.queue != [] && now.run == s.pool.queue[0] && Attempts(now) == []
        && t.pool == s.pool.(queue := s.pool.queue[1..])
      else t.pool == s.pool && (Holds(now) ==> now.run == was.run)
  {
  }

  ghost predicate EntriesOk(s: State) {
    && NoDuplicates(s.pool.queue, s.workers)
    && EnteredExactly(Entered(s.pool.pending, s.pushing), s.pool.queue, s.workers)
    && (s.pushing.Some? ==> s.pushing.value.0 !in s.pool.pending)
  }

  lemma WorkKeepsEntries(s: State, w: nat, act: Act, t: State)
    requires EntriesOk(s) && w < |s.workers| && WorkerStep(s, w, act) == Some(t)
    ensures EntriesOk(t)
  {
    var entered, queue, ws, now := Entered(s.pool.pending, s.pushing), s.pool.queue, s.workers, t.workers[w];
    WorkShape(s, w, act, t);
    if Holds(ws[w]) && !Holds(now) {
      DropKeeps(entered, queue, ws, w, now);
      assert Entered(t.pool.pending, t.pushing) == entered - {ws[w].run};
    } else if !Holds(ws[w]) && Holds(now) {
      TakeKeeps(entered, queue, ws, w, now);
    } else {
      CarryKeeps(entered, queue, ws, w, now);
    }
  }

  lemma DispatchKeepsEntries(s: State, e: Event, t: State)
    requires EntriesOk(s) && !e.Work? && Step(s, e) == Some(t)
    ensures EntriesOk(t)
  {
    var entered := Entered(s.pool.pending, s.pushing);
    if e.Accept? && t.pushing.Some? {
      PushKeeps(entered, s.pool.queue, s.workers, e.run);
      assert Entered(t.pool.pending, t.pushing) == entered + {e.run};
    } else {
      assert Entered(t.pool.pending, t.pushing) == entered;
    }
  }

  lemma StepKeepsCeilings(s: State, e: Event, t: State)
    requires CeilingIsMax(s.pool) && Step(s, e) == Some(t)
    ensures CeilingIsMax(t.pool)
  {
    if e.Work? { WorkShape(s, e.w, e.act, t); }
  }

  /** The ceiling check starts a call above all earlier ones, at an accepted ceiling. */
  lemma NextCallOk(p: Pool, was: Worker)
    requires was.Holding? && CeilingIsMax(p) && CallsOk(p, was) && was.run in p.pending
    requires p.maxGen[was.run] > LastOr(was.ceilings, -1)
    ensures CallsOk(p, Calling(was.run, was.ceilings, p.maxGen[was.run], was.mode))
  {
    var gen, calls := p.maxGen[was.run], was.ceilings + [p.maxGen[was.run]];
    forall a, b | 0 <= a < b < |calls| ensures calls[a] < calls[b] {
      if a < |was.ceilings| - 1 { assert was.ceilings[a] < was.ceilings[|was.ceilings| - 1]; }
    }
    if was.ceilings != [] { assert was.ceilings[|was.ceilings| - 1] in was.ceilings; }
  }

  /** The calls of the acting worker itself. */
  lemma ActorKeepsCalls(s: State, w: nat, act: Act, t: State)
    requires Inv(s) && w < |s.workers| && WorkerStep(s, w, act) == Some(t)
    ensures CallsOk(t.pool, t.workers[w])
  {
    hide NoDuplicates;
    hide IsMax;
    hide Increasing;
    var was := s.workers[w];
    assert CallsOk(s.pool, was);
    match act
    case CheckCeiling =>
      assert Held(s.workers, was.run);
      assert was.run in Entered(s.pool.pending, s.pushing);
      if t.workers[w].Calling? { NextCallOk(s.pool, was); }
    case EngineOk => assert Attempts(t.workers[w]) == Attempts(was);
    case EngineError => assert Attempts(t.workers[w]) == Attempts(was);
    case _ => assert Attempts(t.workers[w]) == [];
  }

  lemma WorkKeepsCalls(s: State, w: nat, act: Act, t: State)
    requires Inv(s) && w < |s.workers| && WorkerStep(s, w, act) == Some(t)
    ensures forall v | 0 <= v < |t.workers| :: CallsOk(t.pool, t.workers[v])
  {
    WorkShape(s, w, act, t);
    ActorKeepsCalls(s, w, act, t);
    forall v | 0 <= v < |t.workers| && v != w ensures CallsOk(t.pool, t.workers[v]) {
      assert CallsOk(s.pool, s.workers[v]);
    }
  }

  lemma DispatchKeepsCalls(s: State, e: Event, t: State)
    requires Inv(s) && !e.Work? && Step(s, e) == Some(t)
    ensures forall v | 0 <= v < |t.workers| :: CallsOk(t.pool, t.workers[v])
  {
    hide NoDuplicates;
    hide EnteredExactly;
    hide CeilingIsMax;
    hide IsMax;
    forall v | 0 <= v < |t.workers| ensures CallsOk(t.pool, t.workers[v]) {
      assert CallsOk(s.pool, s.workers[v]);
    }
  }

  lemma StepKeepsInv(s: State, e: Event, t: State)
    requires Inv(s) && Step(s, e) == Some(t)
    ensures Inv(t)
  {
    StepKeepsCeilings(s, e, t);
    if e.Work? {
      WorkKeepsEntries(s, e.w, e.act, t);
      WorkKeepsCalls(s, e.w, e.act, t);
    } else {
      DispatchKeepsEntries(s, e, t);
      DispatchKeepsCalls(s, e, t);
    }
  }

  lemma {:induction false} ExecKeepsInv(s: State, es: seq<Event>, t: State)
    requires Inv(s) && Exec(s, es) == Some(t)
    ensures Inv(t)
    decreases |es|
  {
    hide Step;
    hide Inv;
    if es != [] {
      StepKeepsInv(s, es[0], Step(s, es[0]).value);
      ExecKeepsInv(Step(s, es[0]).value, es[1..], t);
    }
  }

  lemma ReachableInv(s: State)
    requires Reachable(s)
    ensures Inv(s)
  {
    var n: nat, engine: bool, es: seq<Event> :| Exec(Init(n, engine), es) == Some(s);
    ExecKeepsInv(Init(n, engine), es, s);
  }

  // -------------------------------------------------------------- promises

  /** In every reachable state: one backlog slot or one worker per run, and pending
      is exactly those runs (plus, inside the dispatcher's critical section, the run
      it is about to record). The ceilings cover pending; they may cover more. */
  lemma PoolIsConsistent(s: State)
    requires Reachable(s)
    ensures NoDuplicates(s.pool.queue, s.workers)
    ensures EnteredExactly(Entered(s.pool.pending, s.pushing), s.pool.queue, s.workers)
    ensures s.pool.pending <= s.pool.maxGen.Keys
  {
    ReachableInv(s);
  }

  lemma {:induction false} IncreasingBounded(xs: seq<int>, within: seq<int>)
    requires Increasing(xs) && forall x <- xs :: x in within
    ensures |xs| <= |within|
    decreases |xs|
  {
    if xs != [] {
      var last := xs[|xs| - 1];
      assert last in xs;
      var k :| 0 <= k < |within| && within[k] == last;
      var rest := within[..k] + within[k + 1..];
      forall x <- xs[..|xs| - 1] ensures x in rest {
        assert x in xs && x != last;
        var j :| 0 <= j < |within| && within[j] == x;
        assert x == if j < k then rest[j] else rest[j - 1];
      }
      IncreasingBounded(xs[..|xs| - 1], rest);
    }
  }

  /** When a worker leaves a run by the success exit, no accepted ceiling is left
      behind: its last engine call used the highest one accepted since the entry was
      created, and it made at most one call per accepted ceiling. Without any call,
      every accepted ceiling was negative. */
  lemma SuccessExitCovers(s: State, w: nat, t: State)
    requires Reachable(s) && s.hasEngine && Step(s, Work(w, CheckCeiling)) == Some(t) && !Holds(t.workers[w])
    ensures s.workers[w].Holding? && s.workers[w].run in s.pool.accepted
    ensures
      var (calls, accepted) := (s.workers[w].ceilings, s.pool.accepted[s.workers[w].run]);
      && (forall g <- accepted :: g <= LastOr(calls, -1))
      && ((exists g <- accepted :: g >= 0) ==> calls != [] && IsMax(calls[|calls| - 1], accepted))
      && |calls| <= |accepted|
  {
    ReachableInv(s);
    var was := s.workers[w];
    assert Held(s.workers, was.run);
    assert was.run in Entered(s.pool.pending, s.pushing);
    assert CallsOk(s.pool, was);
    IncreasingBounded(was.ceilings, s.pool.accepted[was.run]);
    if was.ceilings != [] {
      assert was.ceilings[|was.ceilings| - 1] in Attempts(was);
    }
  }

  /** Every engine call uses a ceiling that was accepted for the run's entry, higher
      than all earlier calls of the same hold. */
  lemma CallsAreAccepted(s: State, w: nat)
    requires Reachable(s) && w < |s.workers| && s.workers[w].Calling?
    ensures s.workers[w].run in s.pool.accepted && s.workers[w].gen in s.pool.accepted[s.workers[w].run]
    ensures s.workers[w].gen >= 0 && forall g <- s.workers[w].ceilings :: g < s.workers[w].gen
    ensures |s.workers[w].ceilings| < |s.pool.accepted[s.workers[w].run]|
  {
    ReachableInv(s);
    var pc := s.workers[w];
    assert CallsOk(s.pool, pc);
    var calls := Attempts(pc);
    assert calls == pc.ceilings + [pc.gen];
    assert pc.gen == calls[|calls| - 1] && pc.gen in calls;
    assert pc.gen > -1 && pc.gen in s.pool.accepted[pc.run];
    LastIsHighest(pc.ceilings, pc.gen);
    IncreasingBounded(calls, s.pool.accepted[pc.run]);
  }

  /** A call that succeeded is followed by another one, with the raised ceiling, exactly when the ceiling was raised
      meanwhile; otherwise the entry is deleted and the worker moves on. */
  lemma RaisedCeilingIsCalled(s: State, w: nat)
    requires w < |s.workers| && s.workers[w].Calling? && s.hasEngine && s.pushing == None
    ensures
      var was := s.workers[w];
      var (ceiling, done) := (Get(s.pool.maxGen, was.run, 0), was.ceilings + [was.gen]);
      Exec(s, [Work(w, EngineOk), Work(w, CheckCeiling)])
      == Some(if ceiling > was.gen then Move(s, w, Calling(was.run, done, ceiling, was.mode))
              else Move(s.(pool := DeleteEntry(s.pool, was.run)), w, Leave(was.mode)))
  {
    var was := s.workers[w];
    var es, mid := [Work(w, EngineOk), Work(w, CheckCeiling)], Move(s, w, Holding(was.run, was.ceilings + [was.gen], was.mode));
    FirstStep(s, es, mid);
    hide Exec;
    assert es[1..] == [Work(w, CheckCeiling)];
    LastStep(mid, Work(w, CheckCeiling));
    assert LastOr(was.ceilings + [was.gen], -1) == was.gen;
    Overwrite(s.workers, w, mid.workers[w], Calling(was.run, was.ceilings + [was.gen], Get(s.pool.maxGen, was.run, 0), was.mode));
    Overwrite(s.workers, w, mid.workers[w], Leave(was.mode));
  }

  lemma Overwrite(workers: seq<Worker>, w: nat, once: Worker, twice: Worker)
    requires w < |workers|
    ensures workers[w := once][w := twice] == workers[w := twice]
  {
  }

  lemma LastStep(s: State, e: Event)
    ensures Exec(s, [e]) == Step(s, e)
  {
    hide Step;
    assert [e][1..] == [];
  }

  /** A worker in its steady state takes the first run of the queue and calls the engine with its ceiling. */
  lemma SteadyWorkerCalls(s: State, w: nat)
    requires Reachable(s) && s.pushing == None && s.hasEngine
    requires w < |s.workers| && s.workers[w].Waiting? && s.pool.queue != []
    ensures var run := s.pool.queue[0];
      && run in s.pool.maxGen
      && (s.pool.maxGen[run] >= 0 ==>
            Exec(s, [Work(w, Receive), Work(w, Begin), Work(w, CheckCeiling)])
            == Some(Move(s.(pool := s.pool.(queue := s.pool.queue[1..])), w,
                         Calling(run, [], s.pool.maxGen[run], if s.cancelled then Shutdown else Steady))))
  {
    var run, es := s.pool.queue[0], [Work(w, Receive), Work(w, Begin), Work(w, CheckCeiling)];
    QueuedHasCeiling(s);
    var popped := s.(pool := s.pool.(queue := s.pool.queue[1..]));
    var s1 := Move(popped, w, Taken(run));
    var s2 := Move(popped, w, Holding(run, [], if s.cancelled then Shutdown else Steady));
    assert s1.workers[w := s2.workers[w]] == s2.workers;
    FirstStep(s, es, s1);
    FirstStep(s1, es[1..], s2);
    hide Exec;
    assert es[1..][1..] == [Work(w, CheckCeiling)];
    LastStep(s2, Work(w, CheckCeiling));
    Overwrite(s.workers, w, s2.workers[w], Calling(run, [], Get(s.pool.maxGen, run, 0), if s.cancelled then Shutdown else Steady));
  }

  lemma QueuedHasCeiling(s: State)
    requires Reachable(s) && s.pushing == None && s.pool.queue != []
    ensures s.pool.queue[0] in s.pool.pending && s.pool.queue[0] in s.pool.maxGen
  {
    ReachableInv(s);
    assert s.pool.queue[0] in Entered(s.pool.pending, s.pushing);
  }

  /** So does a worker in the shutdown drain while its budget lasts; with an empty queue it stops. */
  lemma DrainingWorkerCalls(s: State, w: nat)
    requires Reachable(s) && s.pushing == None && s.hasEngine && !s.budgetFired
    requires w < |s.workers| && s.workers[w].Draining?
    ensures s.pool.queue == [] ==> Exec(s, [Work(w, BudgetGate), Work(w, DrainReceive)]) == Some(Move(s, w, Stopped))
    ensures s.pool.queue != [] ==>
      var run := s.pool.queue[0];
      && run in s.pool.maxGen
      && (s.pool.maxGen[run] >= 0 ==>
            Exec(s, [Work(w, BudgetGate), Work(w, DrainReceive), Work(w, PostPopGate), Work(w, CheckCeiling)])
            == Some(Move(s.(pool := s.pool.(queue := s.pool.queue[1..])), w, Calling(run, [], s.pool.maxGen[run], Shutdown))))
  {
    var s1 := Move(s, w, Selecting);
    if s.pool.queue == [] {
      var es := [Work(w, BudgetGate), Work(w, DrainReceive)];
      FirstStep(s, es, s1);
      hide Exec;
      assert es[1..] == [Work(w, DrainReceive)];
      LastStep(s1, Work(w, DrainReceive));
      assert s1.workers[w := Stopped] == s.workers[w := Stopped];
    } else {
      QueuedHasCeiling(s);
      if s.pool.maxGen[s.pool.queue[0]] >= 0 {
        DrainTakes(s, w);
      }
    }
  }

  lemma DrainTakes(s: State, w: nat)
    requires s.pushing == None && s.hasEngine && !s.budgetFired && w < |s.workers| && s.workers[w].Draining?
    requires s.pool.queue != [] && s.pool.queue[0] in s.pool.maxGen && s.pool.maxGen[s.pool.queue[0]] >= 0
    ensures var run := s.pool.queue[0];
            Exec(s, [Work(w, BudgetGate), Work(w, DrainReceive), Work(w, PostPopGate), Work(w, CheckCeiling)])
            == Some(Move(s.(pool := s.pool.(queue := s.pool.queue[1..])), w, Calling(run, [], s.pool.maxGen[run], Shutdown)))
  {
    var run, popped := s.pool.queue[0], s.(pool := s.pool.(queue := s.pool.queue[1..]));
    var es := [Work(w, BudgetGate), Work(w, DrainReceive), Work(w, PostPopGate), Work(w, CheckCeiling)];
    var s1, s2, s3 := Move(s, w, Selecting), Move(popped, w, Popped(run)), Move(popped, w, Holding(run, [], Shutdown));
    assert s1.workers[w := Popped(run)] == s2.workers && s2.workers[w := s3.workers[w]] == s3.workers;
    FirstStep(s, es, s1);
    FirstStep(s1, es[1..], s2);
    FirstStep(s2, es[2..], s3);
    hide Exec;
    assert es[3..] == [Work(w, CheckCeiling)];
    LastStep(s3, Work(w, CheckCeiling));
    Overwrite(s.workers, w, s3.workers[w], Calling(run, [], s.pool.maxGen[run], Shutdown));
  }

  /** The worker lets go of its run: by the success exit, without an engine, after an engine
      error, or because the drain budget is spent when it has just taken the run. */
  predicate Exits(s: State, w: nat, act: Act, t: State) {
    w < |s.workers| && Step(s, Work(w, act)) == Some(t) && Holds(s.workers[w]) && !Holds(t.workers[w])
  }

  /** A ceiling accepted for the run is higher than every one the engine was asked for. */
  predicate DropsACeiling(s: State, w: nat)
    requires w < |s.workers| && Holds(s.workers[w]) && s.workers[w].run in s.pool.accepted
  {
    exists g <- s.pool.accepted[s.workers[w].run] :: g > LastOr(Attempts(s.workers[w]), -1)
  }

  /** What each exit drops, in every reachable state. The success exit drops nothing. After an engine error
      a ceiling is dropped exactly when the run's ceiling was raised since the failed call began. Without an engine,
      and when the budget ends between taking a run and processing it, exactly when any ceiling is 0 or more. */
  lemma ExitDropsACeilingIff(s: State, w: nat, act: Act, t: State)
    requires Reachable(s) && Exits(s, w, act, t)
    ensures s.workers[w].run in s.pool.accepted && s.workers[w].run in s.pool.maxGen
    ensures
      var (was, ceiling) := (s.workers[w], s.pool.maxGen[s.workers[w].run]);
      DropsACeiling(s, w) <==>
        match act
        case CheckCeiling => !s.hasEngine && ceiling >= 0
        case Clear => was.Failing? && ceiling > was.gen
        case _ => act.PostPopGate? && ceiling >= 0
  {
    ReachableInv(s);
    var was := s.workers[w];
    assert Held(s.workers, was.run);
    assert was.run in Entered(s.pool.pending, s.pushing);
    ExitShape(s, w, act, t);
    MaxDecides(s.pool.maxGen[was.run], s.pool.accepted[was.run], LastOr(Attempts(was), -1));
    if !s.hasEngine {
      NoEngineNoCalls(s);
    }
  }

  lemma MaxDecides(m: int, xs: seq<int>, limit: int)
    requires IsMax(m, xs)
    ensures (exists x <- xs :: x > limit) <==> m > limit
  {
  }

  /** No worker has called an engine that is not there. */
  ghost predicate NoCalls(s: State) {
    !s.hasEngine ==> forall w | 0 <= w < |s.workers| :: Attempts(s.workers[w]) == []
  }

  lemma StepKeepsNoCalls(s: State, e: Event, t: State)
    requires NoCalls(s) && Step(s, e) == Some(t)
    ensures NoCalls(t)
  {
    hide Get;
    if e.Work? && !s.hasEngine {
      assert t.workers == s.workers[e.w := t.workers[e.w]];
      assert Attempts(s.workers[e.w]) == [];
    }
  }

  lemma {:induction false} ExecKeepsNoCalls(s: State, es: seq<Event>, t: State)
    requires NoCalls(s) && Exec(s, es) == Some(t)
    ensures NoCalls(t)
    decreases |es|
  {
    hide Step;
    hide NoCalls;
    if es != [] {
      StepKeepsNoCalls(s, es[0], Step(s, es[0]).value);
      ExecKeepsNoCalls(Step(s, es[0]).value, es[1..], t);
    }
  }

  lemma NoEngineNoCalls(s: State)
    requires Reachable(s)
    ensures NoCalls(s)
  {
    var n: nat, engine: bool, es: seq<Event> :| Exec(Init(n, engine), es) == Some(s);
    ExecKeepsNoCalls(Init(n, engine), es, s);
  }

  /** Only these three actions let go of a run, and no call is open or skipped when they do. */
  lemma ExitShape(s: State, w: nat, act: Act, t: State)
    requires Exits(s, w, act, t)
    ensures s.pushing == None
    ensures
      var was := s.workers[w];
      match act
      case CheckCeiling => was.Holding? && Attempts(was) == was.ceilings
                           && (!s.hasEngine || Get(s.pool.maxGen, was.run, 0) <= LastOr(was.ceilings, -1))
                           && t.pool == DeleteEntry(s.pool, was.run)
      case Clear => was.Failing? && LastOr(Attempts(was), -1) == was.gen && t.pool == DeleteEntry(s.pool, was.run)
      case PostPopGate => was.Popped? && s.budgetFired && Attempts(was) == []
                          && t.pool == s.pool.(pending := s.pool.pending - {was.run})
      case _ => false
  {
  }

  /** Whatever the exit, nothing is left that would process the run again: it is not pending, not queued and
      not held, so a dropped ceiling stays dropped until the run is accepted anew. */
  lemma ExitLeavesNothingBehind(s: State, w: nat, act: Act, t: State)
    requires Reachable(s) && Exits(s, w, act, t)
    ensures var run := s.workers[w].run; run !in t.pool.pending && run !in t.pool.queue && !Held(t.workers, run)
  {
    ReachableInv(s);
    ExitShape(s, w, act, t);
    StepKeepsInv(s, Work(w, act), t);
    var run := s.workers[w].run;
    assert run !in Entered(t.pool.pending, t.pushing);
  }

  /** An engine error also leaves the failed ceiling itself unprocessed: it was accepted, and every call that
      succeeded used a lower one. */
  lemma FailedCeilingIsUnprocessed(s: State, w: nat, t: State)
    requires Reachable(s) && Exits(s, w, Clear, t)
    ensures var was := s.workers[w];
            was.Failing? && was.run in s.pool.accepted && was.gen in s.pool.accepted[was.run]
            && forall g <- was.ceilings :: g < was.gen
  {
    ReachableInv(s);
    var was := s.workers[w];
    assert CallsOk(s.pool, was);
    LastIsHighest(was.ceilings, was.gen);
    assert was.gen in Attempts(was);
  }

  lemma LastIsHighest(calls: seq<int>, gen: int)
    requires Increasing(calls + [gen])
    ensures (calls + [gen])[|calls|] == gen && forall g <- calls :: g < gen
  {
    forall g <- calls ensures g < gen {
      var k :| 0 <= k < |calls| && calls[k] == g;
      assert (calls + [gen])[k] == g && (calls + [gen])[|calls|] == gen;
    }
  }

  /** The error exit does drop ceilings: a higher one arrives during a call that then fails. */
  lemma ErrorExitCanLoseACeiling(run: RunId, low: int, high: int)
    requires run != "" && 0 <= low < high
    ensures exists s :: Reachable(s) && s.pool.accepted == map[run := [low, high]]
              && s.pool.pending == {} && s.pool.queue == [] && !Held(s.workers, run)
              && (forall w | 0 <= w < |s.workers| :: Attempts(s.workers[w]) == [])
  {
    var es := [Accept(run, low), Record, Work(0, Receive), Work(0, Begin), Work(0, CheckCeiling)];
    var fs := [Accept(run, high), Work(0, EngineError), Work(0, Clear)];
    var during := Pool([], {run}, map[run := low], map[run := [low]]);
    var mid := State(during, [Calling(run, [], low, Steady)], None, true, false, false);
    var end := State(Pool([], {}, map[], map[run := [low, high]]), [Waiting], None, true, false, false);
    FirstCall(run, low, es, mid);
    FailedCall(run, low, high, fs, mid, end);
    ExecAppend(Init(1, true), es, fs);
    assert Exec(Init(1, true), es + fs) == Some(end);
  }

  /** The drain drops one as well: the budget fires after a worker has taken the run. */
  lemma PostPopCanLoseACeiling(run: RunId, gen: int)
    requires run != "" && 0 <= gen
    ensures exists s :: Reachable(s) && s.pool.accepted == map[run := [gen]]
              && s.pool.pending == {} && s.pool.queue == [] && s.workers == [Draining]
  {
    var es := [Accept(run, gen), Record, CancelWorkers, Work(0, NoticeCancel), Work(0, BudgetGate),
               Work(0, DrainReceive), BudgetFires, Work(0, PostPopGate)];
    var p := Pool([], {run}, map[run := gen], map[run := [gen]]);
    var s0 := Init(1, true);
    assert s0.workers == [Waiting];
    var s1 := State(Pool([run], {}, map[], map[]), [Waiting], Some((run, gen)), true, false, false);
    var s2 := State(p.(queue := [run]), [Waiting], None, true, false, false);
    FirstStep(s0, es, s1);
    FirstStep(s1, es[1..], s2);
    TakeInDrain(run, p, es[2..]);
  }

  lemma TakeInDrain(run: RunId, p: Pool, fs: seq<Event>)
    requires p.pending == {run} && p.queue == []
    requires fs == [CancelWorkers, Work(0, NoticeCancel), Work(0, BudgetGate), Work(0, DrainReceive),
                    BudgetFires, Work(0, PostPopGate)]
    ensures Exec(State(p.(queue := [run]), [Waiting], None, true, false, false), fs)
            == Some(State(p.(pending := {}), [Draining], None, true, true, true))
  {
    var q := p.(queue := [run]);
    var s3 := State(q, [Waiting], None, true, true, false);
    var s4 := State(q, [Draining], None, true, true, false);
    var s5 := State(q, [Selecting], None, true, true, false);
    var s6 := State(p, [Popped(run)], None, true, true, false);
    var s7 := State(p, [Popped(run)], None, true, true, true);
    FirstStep(State(q, [Waiting], None, true, false, false), fs, s3);
    FirstStep(s3, fs[1..], s4);
    FirstStep(s4, fs[2..], s5);
    FirstStep(s5, fs[3..], s6);
    FirstStep(s6, fs[4..], s7);
    FirstStep(s7, fs[5..], State(p.(pending := {}), [Draining], None, true, true, true));
  }

  lemma {:induction false} ExecAppend(s: State, es: seq<Event>, fs: seq<Event>)
    requires Exec(s, es).Some?
    ensures Exec(s, es + fs) == Exec(Exec(s, es).value, fs)
    decreases |es|
  {
    hide Step;
    if es == [] {
      assert es + fs == fs;
    } else {
      ExecAppend(Step(s, es[0]).value, es[1..], fs);
      assert (es + fs)[1..] == es[1..] + fs;
    }
  }

  /** Equality field by field. */
  predicate Same(a: State, b: State) {
    && a.pool.queue == b.pool.queue && a.pool.pending == b.pool.pending && a.pool.maxGen == b.pool.maxGen
    && a.pool.accepted == b.pool.accepted && a.workers == b.workers && a.pushing == b.pushing
    && a.hasEngine == b.hasEngine && a.cancelled == b.cancelled && a.budgetFired == b.budgetFired
  }

  lemma FirstStep(s: State, es: seq<Event>, t: State)
    requires es != [] && Step(s, es[0]).Some? && Same(Step(s, es[0]).value, t)
    ensures Exec(s, es) == Exec(t, es[1..])
  {
  }

  lemma FirstCall(run: RunId, low: int, es: seq<Event>, mid: State)
    requires run != "" && 0 <= low
    requires es == [Accept(run, low), Record, Work(0, Receive), Work(0, Begin), Work(0, CheckCeiling)]
    requires mid == State(Pool([], {run}, map[run := low], map[run := [low]]),
                          [Calling(run, [], low, Steady)], None, true, false, false)
    ensures Exec(Init(1, true), es) == Some(mid)
  {
    var p := Pool([], {run}, map[run := low], map[run := [low]]);
    var s0 := Init(1, true);
    assert s0.workers == [Waiting];
    var s1 := State(Pool([run], {}, map[], map[]), [Waiting], Some((run, low)), true, false, false);
    var s2 := State(p.(queue := [run]), [Waiting], None, true, false, false);
    var s3 := State(p, [Taken(run)], None, true, false, false);
    var s4 := State(p, [Holding(run, [], Steady)], None, true, false, false);
    FirstStep(s0, es, s1);
    FirstStep(s1, es[1..], s2);
    FirstStep(s2, es[2..], s3);
    FirstStep(s3, es[3..], s4);
    FirstStep(s4, es[4..], mid);
  }

  lemma FailedCall(run: RunId, low: int, high: int, fs: seq<Event>, mid: State, end: State)
    requires run != "" && 0 <= low < high
    requires fs == [Accept(run, high), Work(0, EngineError), Work(0, Clear)]
    requires mid == State(Pool([], {run}, map[run := low], map[run := [low]]),
                          [Calling(run, [], low, Steady)], None, true, false, false)
    requires end == State(Pool([], {}, map[], map[run := [low, high]]), [Waiting], None, true, false, false)
    ensures Exec(mid, fs) == Some(end)
  {
    var p := Pool([], {run}, map[run := high], map[run := [low, high]]);
    var s1 := State(p, [Calling(run, [], low, Steady)], None, true, false, false);
    var s2 := State(p, [Failing(run, [], low, Steady)], None, true, false, false);
    assert [low] + [high] == [low, high];
    FirstStep(mid, fs, s1);
    FirstStep(s1, fs[1..], s2);
    FirstStep(s2, fs[2..], end);
  }
}
