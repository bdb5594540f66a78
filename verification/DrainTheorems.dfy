/** What the drain protocol promises, over every interleaving. */
module DrainTheorems {
  import opened Wrappers
  import opened Drain
  import opened DrainInvariant

  // ---------------------------------------------------------------- runs

  lemma {:induction false} ExecAppend(s: State, es: seq<Event>, fs: seq<Event>)
    requires Exec(s, es).Some?
    ensures Exec(s, es + fs) == Exec(Exec(s, es).value, fs)
    decreases |es|
  {
    hide Step;
    if es == [] {
      assert es + fs == fs;
    } else {
      ExecAppend(Step(s, es[0]).value, es[1..], fs);
      assert (es + fs)[1..] == es[1..] + fs;
    }
  }

  lemma LeadsTransitive(s: State, t: State, u: State)
    requires Leads(s, t) && Leads(t, u)
    ensures Leads(s, u)
  {
    var es: seq<Event> :| Exec(s, es) == Some(t);
    var fs: seq<Event> :| Exec(t, fs) == Some(u);
    ExecAppend(s, es, fs);
  }

  // ------------------------------------------------ draining only shrinks

  /** What no event undoes once the drain has begun. */
  predicate Shrunk(s: State, t: State) {
    && t.ctl.draining
    && t.jobs.ids == s.jobs.ids
    && t.jobs.running.Keys <= s.jobs.running.Keys
    && (forall id <- t.jobs.running :: t.jobs.running[id] == Lookup(s.jobs.running, id).value)
    && s.pipe.wire <= t.pipe.wire
    && s.peer.processed <= t.peer.processed
  }

  lemma ShrinkStep(s: State, e: Event, t: State)
    requires s.ctl.draining && Step(s, e) == Some(t)
    ensures Shrunk(s, t)
  {
  }

  lemma {:induction false} ShrinkRun(s: State, es: seq<Event>, t: State)
    requires s.ctl.draining && Exec(s, es) == Some(t)
    ensures Shrunk(s, t)
    decreases |es|
  {
    hide Step;

    if es != [] {
      var next := Step(s, es[0]).value;
      ShrinkStep(s, es[0], next);
      ShrinkRun(next, es[1..], t);
    }
  }

  /** Once `draining` is set no job is dispatched and the running set only
      shrinks; what was sent stays sent and what was processed stays processed. */
  lemma RunningOnlyShrinks(s: State, t: State)
    requires s.ctl.draining && Leads(s, t)
    ensures Shrunk(s, t)
  {
    var es: seq<Event> :| Exec(s, es) == Some(t);
    ShrinkRun(s, es, t);
  }

  lemma ProcessedStays(s: State, t: State, i: Instance)
    requires Shrunk(s, t) && Processed(s, i) && t.peer.processed <= |t.pipe.wire|
    ensures Processed(t, i)
  {
    var k :| 0 <= k < s.peer.processed && s.pipe.wire[k] == JobResult(i);
    assert t.pipe.wire[..t.peer.processed][k] == JobResult(i);
  }

  // ------------------------------------------------------- honest outcomes

  lemma EofMeansProcessed(s: State, i: Instance)
    requires EofOk(s) && s.peer.recvEnd == Some(Eof)
    ensures Processed(s, i) <==> OnWire(s.pipe.wire, i)
  {
    assert s.pipe.wire[..s.peer.processed] == s.pipe.wire;
  }

  /** A drain that reports Clean leaves no dispatched job unprocessed. */
  lemma CleanIsHonest(s: State)
    requires Reachable(s) && s.ctl.pc.Done? && s.ctl.pc.outcome.clean
    ensures Unprocessed(s) == {}
  {
    ReachableInv(s);
    forall i | 0 <= i < |s.jobs.ids| ensures Processed(s, i) {
      EofMeansProcessed(s, i);
    }
  }

  /** An injective relabelling keeps the size of a set. */
  lemma {:induction false} SameSize(keys: set<JobId>, m: map<JobId, Instance>, image: set<Instance>)
    requires keys <= m.Keys
    requires forall a, b | a in keys && b in keys && m[a] == m[b] :: a == b
    requires image == set id | id in keys :: m[id]
    ensures |image| == |keys|
    decreases |keys|
  {
    if keys != {} {
      var id :| id in keys;
      SameSize(keys - {id}, m, image - {m[id]});
    }
  }

  /** A budget-expired drain that ends in the server's EOF reports exactly the
      number of dispatched jobs whose result was not processed: the suppressed
      ones, no more and no fewer. */
  lemma TimeoutEofIsExact(s: State)
    requires Reachable(s) && s.ctl.pc.Done? && CutoffPath(s.ctl.pc)
    ensures s.ctl.suppressed.Some?
    ensures (set i | i in Unprocessed(s) :: s.jobs.ids[i]) == s.ctl.suppressed.value
    ensures s.ctl.pc.outcome.running == |Unprocessed(s)|
  {
    ReachableInv(s);
    var ids, cands, dropped := s.jobs.ids, s.ctl.candidates, s.ctl.suppressed.value;
    forall i: Instance | i < |ids|
      ensures i in Unprocessed(s) <==> ids[i] in dropped && Lookup(cands, ids[i]) == Some(i)
    {
      EofMeansProcessed(s, i);
      if Departed(ids, cands, i) {
        assert OnWire(s.pipe.wire, i);
      }
    }
    assert forall id <- dropped :: cands[id] in Unprocessed(s) && ids[cands[id]] == id;
    assert Unprocessed(s) == set id | id in dropped :: cands[id];
    SameSize(dropped, cands, Unprocessed(s));
  }

  // ------------------------------------------------- the cutoff is decisive

  /** No output of an id in `ids` is past the suppression check. */
  predicate Quiet(s: State, ids: set<JobId>) {
    && s.ctl.suppressed.Some? && ids <= s.ctl.suppressed.value
    && ids <= s.ctl.candidates.Keys
    && (s.pipe.loop.Cleared? && IsOutput(s.pipe.loop.msg) && s.pipe.loop.msg.job < |s.jobs.ids| ==>
          s.jobs.ids[s.pipe.loop.msg.job] !in ids)
  }

  predicate OutputOf(ids: seq<JobId>, m: Message, set0: set<JobId>) {
    IsOutput(m) && m.job < |ids| && ids[m.job] in set0
  }

  /** Only SendOk extends the wire, by the message past the check. */
  lemma WireStep(s: State, e: Event, t: State)
    requires Step(s, e) == Some(t)
    ensures t.pipe.wire == s.pipe.wire
            || (s.pipe.loop.Cleared? && t.pipe.wire == s.pipe.wire + [s.pipe.loop.msg] && t.pipe.loop.Sent?)
  {
  }

  lemma QuietStep(s: State, e: Event, t: State, dropped: set<JobId>)
    requires ControlOk(s.ctl) && Step(s, e) == Some(t) && Quiet(s, dropped)
    ensures Quiet(t, dropped)
  {
  }

  lemma {:induction false} QuietRun(s: State, es: seq<Event>, t: State, dropped: set<JobId>)
    requires Inv(s) && Exec(s, es) == Some(t) && Quiet(s, dropped)
    ensures Quiet(t, dropped) && s.pipe.wire <= t.pipe.wire && t.jobs.ids == s.jobs.ids
    ensures forall k | |s.pipe.wire| <= k < |t.pipe.wire| :: !OutputOf(s.jobs.ids, t.pipe.wire[k], dropped)
    decreases |es|
  {
    if es != [] {
      var next := Step(s, es[0]).value;
      StepKeepsInv(s, es[0], next);
      QuietStep(s, es[0], next, dropped);
      ShrinkStep(s, es[0], next);
      WireStep(s, es[0], next);
      QuietRun(next, es[1..], t, dropped);
      assert forall k | 0 <= k < |next.pipe.wire| :: t.pipe.wire[k] == next.pipe.wire[k];
    }
  }

  /** After the cutoff is released, no JobResult, Coverage or TestResults of a
      suppressed job is ever sent again. */
  lemma SuppressedStaysSilent(s: State, t: State)
    requires Reachable(s) && CutoffPath(s.ctl.pc) && Leads(s, t)
    ensures s.ctl.suppressed.Some? && s.pipe.wire <= t.pipe.wire
    ensures forall k | |s.pipe.wire| <= k < |t.pipe.wire| :: !OutputOf(s.jobs.ids, t.pipe.wire[k], s.ctl.suppressed.value)
  {
    ReachableInv(s);
    var es: seq<Event> :| Exec(s, es) == Some(t);
    QuietRun(s, es, t, s.ctl.suppressed.value);
  }

  /** The candidates whose result had not crossed when the cutoff was reached. */
  function LateAt(s: State): set<JobId> {
    set id | id in s.ctl.candidates && !OnWire(s.pipe.wire, s.ctl.candidates[id])
  }

  /** The send loop has been parked at the cutoff since `s`, or the cutoff has been
      released with exactly the late candidates of `s` suppressed. */
  ghost predicate SinceCutoff(s: State, t: State) {
    && t.ctl.candidates == s.ctl.candidates && AfterSnapshot(t.ctl)
    && (if Cutoff in t.ctl.released then Quiet(t, LateAt(s)) && s.pipe.wire <= t.pipe.wire
        else (t.pipe.loop == Parked(Cutoff) || t.pipe.loop == Halted) && t.pipe.wire == s.pipe.wire)
    && (forall id <- s.ctl.candidates :: OnWire(t.pipe.wire, s.ctl.candidates[id]) <==> OnWire(s.pipe.wire, s.ctl.candidates[id]))
  }

  /** The drain ended in abandonAll. */
  predicate Abandoned(t: State) {
    t.ctl.pc.Done? && !t.ctl.pc.outcome.clean && t.ctl.pc.outcome.flushTimedOut && t.ctl.suppressed.Some?
  }

  lemma AfterSnapshotStep(s: State, e: Event, t: State)
    requires ControlOk(s.ctl) && AfterSnapshot(s.ctl) && Step(s, e) == Some(t)
    ensures AfterSnapshot(t.ctl) && t.ctl.candidates == s.ctl.candidates
    ensures Abandoned(t) && !Abandoned(s) ==>
              s.ctl.pc.Abandoning? && t.ctl.pc.outcome.running == |s.ctl.pc.all| && t.ctl.suppressed == Some(s.ctl.pc.all)
    ensures Abandoned(s) ==> t.ctl.pc == s.ctl.pc && t.ctl.suppressed == s.ctl.suppressed
  {
  }

  lemma ParkedStep(s: State, t: State, e: Event, u: State)
    requires SinceCutoff(s, t) && Step(t, e) == Some(u) && Cutoff !in t.ctl.released
    requires ControlOk(t.ctl) && CutoffOk(t.jobs.ids, t.pipe, t.ctl) && ControlOk(u.ctl)
    ensures SinceCutoff(s, u)
  {
    AfterSnapshotStep(t, e, u);
    if Cutoff in u.ctl.released {
      assert e == OfDrain(Release) && t.ctl.pc.Published?;
      assert u.ctl.suppressed.value == LateAt(s);
    }
  }

  lemma ReleasedStep(s: State, t: State, e: Event, u: State)
    requires SinceCutoff(s, t) && Step(t, e) == Some(u) && Cutoff in t.ctl.released
    requires ControlOk(t.ctl) && CandidatesOk(t.jobs, t.ctl)
    ensures SinceCutoff(s, u)
  {
    AfterSnapshotStep(t, e, u);
    QuietStep(t, e, u, LateAt(s));
    WireStep(t, e, u);
    if u.pipe.wire != t.pipe.wire {
      var m := t.pipe.loop.msg;
      forall id <- s.ctl.candidates
        ensures OnWire(u.pipe.wire, s.ctl.candidates[id]) <==> OnWire(s.pipe.wire, s.ctl.candidates[id])
      {
        assert t.jobs.ids[t.ctl.candidates[id]] == id;
      }
    }
  }

  lemma {:induction false} SinceCutoffRun(s: State, t: State, es: seq<Event>, u: State)
    requires Inv(s) && Inv(t) && SinceCutoff(s, t) && Exec(t, es) == Some(u)
    requires s.jobs.ids == t.jobs.ids
    ensures SinceCutoff(s, u)
    decreases |es|
  {
    if es != [] {
      var next := Step(t, es[0]).value;
      StepKeepsInv(t, es[0], next);
      ShrinkStep(t, es[0], next);
      if Cutoff in t.ctl.released { ReleasedStep(s, t, es[0], next); } else { ParkedStep(s, t, es[0], next); }
      SinceCutoffRun(s, next, es[1..], u);
    }
  }

  /** The dichotomy. `s` is the moment the cutoff barrier was reached, before or after
      the drain has given up waiting for it, `t` any later state, the cutoff released
      or not: each candidate's JobResult was sent before the cutoff, or it is not sent
      at all. On the cutoff path suppression follows the same line. */
  lemma CutoffDecides(s: State, t: State, id: JobId)
    requires Reachable(s) && s.pipe.loop == Parked(Cutoff) && Cutoff !in s.ctl.released
    requires Leads(s, t) && id in s.ctl.candidates
    ensures OnWire(t.pipe.wire, s.ctl.candidates[id]) <==> OnWire(s.pipe.wire, s.ctl.candidates[id])
    ensures CutoffPath(t.ctl.pc) ==>
              t.ctl.suppressed.Some? && (id in t.ctl.suppressed.value <==> !OnWire(s.pipe.wire, s.ctl.candidates[id]))
  {
    hide Exec;
    ReachableInv(s);
    var es: seq<Event> :| Exec(s, es) == Some(t);
    SinceCutoffRun(s, s, es, t);
    ExecKeepsInv(s, es, t);
  }

  // ------------------------------------------------------------ abandonment

  /** The messages that are output of one of `ids0`. */
  function OutputsOf(ids: seq<JobId>, msgs: seq<Message>, ids0: set<JobId>): seq<Message> {
    if msgs == [] then []
    else (if OutputOf(ids, msgs[0], ids0) then [msgs[0]] else []) + OutputsOf(ids, msgs[1..], ids0)
  }

  lemma {:induction false} NoOutputs(ids: seq<JobId>, msgs: seq<Message>, ids0: set<JobId>)
    requires forall k | 0 <= k < |msgs| :: !OutputOf(ids, msgs[k], ids0)
    ensures OutputsOf(ids, msgs, ids0) == []
    decreases |msgs|
  {
    if msgs != [] {
      NoOutputs(ids, msgs[1..], ids0);
    }
  }

  /** What may still escape: the one message already past the check. */
  function Spill(s: State, ids0: set<JobId>): seq<Message> {
    if s.pipe.loop.Cleared? && OutputOf(s.jobs.ids, s.pipe.loop.msg, ids0) then [s.pipe.loop.msg] else []
  }

  lemma SpillStep(s: State, e: Event, t: State, all: set<JobId>)
    requires ControlOk(s.ctl) && Step(s, e) == Some(t)
    requires s.ctl.pc.Done? && s.ctl.suppressed == Some(all) && Spill(s, all) != []
    ensures t.ctl.pc.Done? && t.ctl.suppressed == Some(all) && s.ctl.draining
    ensures (t.pipe.wire == s.pipe.wire && Spill(t, all) in {[], Spill(s, all)})
            || (t.pipe.wire == s.pipe.wire + Spill(s, all) && Spill(t, all) == [])
  {
    ShrinkStep(s, e, t);
  }

  lemma {:induction false} SpillRun(s: State, es: seq<Event>, t: State, all: set<JobId>)
    requires Inv(s) && Exec(s, es) == Some(t)
    requires s.ctl.pc.Done? && s.ctl.suppressed == Some(all)
    ensures s.pipe.wire <= t.pipe.wire
    ensures OutputsOf(s.jobs.ids, t.pipe.wire[|s.pipe.wire|..], all) in {[], Spill(s, all)}
    decreases |es|
  {
    hide Step;
    if Spill(s, all) == [] {
      QuietRun(s, es, t, all);
      NoOutputs(s.jobs.ids, t.pipe.wire[|s.pipe.wire|..], all);
    } else if es == [] {
      assert t.pipe.wire[|s.pipe.wire|..] == [];
    } else {
      var next := Step(s, es[0]).value;
      StepKeepsInv(s, es[0], next);
      ShrinkStep(s, es[0], next);
      SpillStep(s, es[0], next, all);
      SpillRun(next, es[1..], t, all);
      if next.pipe.wire != s.pipe.wire {
        SpillSent(s, next, t, all);
      }
    }
  }

  lemma SpillSent(s: State, next: State, t: State, all: set<JobId>)
    requires |Spill(s, all)| == 1 && next.pipe.wire == s.pipe.wire + Spill(s, all) && next.pipe.wire <= t.pipe.wire
    requires OutputsOf(s.jobs.ids, t.pipe.wire[|next.pipe.wire|..], all) == []
    ensures OutputsOf(s.jobs.ids, t.pipe.wire[|s.pipe.wire|..], all) == Spill(s, all)
  {
    var rest := t.pipe.wire[|s.pipe.wire|..];
    assert rest[0] == next.pipe.wire[|s.pipe.wire|];
    assert rest[1..] == t.pipe.wire[|next.pipe.wire|..];
  }

  /** After abandonAll has published its set at most one output of an abandoned job
      is still sent, and it is the one that had already passed the check. */
  lemma AbandonSpillsAtMostOne(s: State, t: State)
    requires Reachable(s) && s.ctl.pc.Done? && s.ctl.suppressed.Some? && Leads(s, t)
    ensures s.pipe.wire <= t.pipe.wire
    ensures OutputsOf(s.jobs.ids, t.pipe.wire[|s.pipe.wire|..], s.ctl.suppressed.value) in {[], Spill(s, s.ctl.suppressed.value)}
    ensures |Spill(s, s.ctl.suppressed.value)| <= 1
  {
    ReachableInv(s);
    var es: seq<Event> :| Exec(s, es) == Some(t);
    SpillRun(s, es, t, s.ctl.suppressed.value);
  }

  /** Jobs dispatched and already out of `running`, their result not yet processed. */
  function DepartedUnprocessed(s: State): set<Instance> {
    Unprocessed(s) - s.jobs.running.Values
  }

  function CandidateSet(t: State): set<Instance> {
    t.ctl.candidates.Values
  }

  lemma {:induction false} AfterSnapshotRun(s: State, es: seq<Event>, t: State)
    requires Inv(s) && AfterSnapshot(s.ctl) && Exec(s, es) == Some(t)
    requires Abandoned(s) ==> s.ctl.pc.outcome.running == |s.ctl.candidates| && s.ctl.suppressed.value == s.ctl.candidates.Keys
    ensures t.ctl.candidates == s.ctl.candidates
    ensures Abandoned(t) ==> t.ctl.pc.outcome.running == |s.ctl.candidates| && t.ctl.suppressed.value == s.ctl.candidates.Keys
    decreases |es|
  {
    hide Step;
    if es != [] {
      var next := Step(s, es[0]).value;
      StepKeepsInv(s, es[0], next);
      AfterSnapshotStep(s, es[0], next);
      assert |s.ctl.candidates.Keys| == |s.ctl.candidates|;
      AfterSnapshotRun(next, es[1..], t);
    }
  }

  /** `s` is the state in which the budget has expired; `t` an abandonment after it. */
  ghost predicate AbandonedFrom(s: State, t: State) {
    exists es: seq<Event> :: Exec(s, [OfDrain(Snapshot)] + es) == Some(t) && Abandoned(t)
  }

  lemma AbandonFacts(s: State, t: State)
    requires Reachable(s) && s.ctl.pc.Budget? && AbandonedFrom(s, t)
    ensures CandidateSet(t) == s.jobs.running.Values
    ensures t.ctl.pc.outcome.running == |s.jobs.running|
    ensures t.ctl.suppressed == Some(s.jobs.running.Keys) && t.jobs.ids == s.jobs.ids
    ensures Unprocessed(t) <= Unprocessed(s) && |Unprocessed(t)| <= |Unprocessed(s)|
  {
    ReachableInv(s);
    var es: seq<Event> :| Exec(s, [OfDrain(Snapshot)] + es) == Some(t);
    var next := Step(s, OfDrain(Snapshot)).value;
    assert ([OfDrain(Snapshot)] + es)[1..] == es;
    StepKeepsInv(s, OfDrain(Snapshot), next);
    AfterSnapshotRun(next, es, t);
    ShrinkRun(s, [OfDrain(Snapshot)] + es, t);
    ExecKeepsInv(next, es, t);
    forall i | i in Unprocessed(t) ensures i in Unprocessed(s) {
      if Processed(s, i) { ProcessedStays(s, t, i); }
    }
    SubsetSize(Unprocessed(t), Unprocessed(s));
  }

  /** The shortest abandonment: the flush deadline passes at once. */
  lemma ImmediateAbandon(s: State) returns (t: State)
    requires Reachable(s) && s.ctl.pc.Budget?
    ensures AbandonedFrom(s, t) && Unprocessed(t) == Unprocessed(s)
  {
    ReachableInv(s);
    var es := [OfDrain(AbandonRead), OfDrain(AbandonPublish)];
    var s1 := Step(s, OfDrain(Snapshot)).value;
    var s2 := Step(s1, OfDrain(AbandonRead)).value;
    t := Step(s2, OfDrain(AbandonPublish)).value;
    assert es[1..] == [OfDrain(AbandonPublish)] && es[1..][1..] == [];
    assert Exec(s2, es[1..]) == Some(t);
    assert Exec(s1, es) == Some(t);
    assert ([OfDrain(Snapshot)] + es)[1..] == es;
    assert Exec(s, [OfDrain(Snapshot)] + es) == Some(t);
  }

  /** The published ids cover every unprocessed job. */
  predicate NamesAll(t: State) {
    forall i <- Unprocessed(t) :: t.ctl.suppressed.Some? && t.jobs.ids[i] in t.ctl.suppressed.value
  }

  /** abandonAll publishes the id of every unprocessed job in every continuation exactly
      when, as the snapshot is taken, every unprocessed job has its id in `running`: it
      is still there itself, or a later job of the same id is. */
  lemma AbandonNamesEveryUnprocessedJobIff(s: State)
    requires Reachable(s) && s.ctl.pc.Budget?
    ensures (forall t | AbandonedFrom(s, t) :: NamesAll(t)) <==> forall i <- Unprocessed(s) :: s.jobs.ids[i] in s.jobs.running
  {
    if forall i <- Unprocessed(s) :: s.jobs.ids[i] in s.jobs.running {
      forall t | AbandonedFrom(s, t) ensures NamesAll(t) {
        AbandonFacts(s, t);
        assert forall i <- Unprocessed(t) :: i in Unprocessed(s);
      }
    } else {
      var t := ImmediateAbandon(s);
      AbandonFacts(s, t);
    }
  }

  /** The job states it goes through, to cancel them, hold every unprocessed job exactly
      when no job that has already left `running` still has an unprocessed result. Such
      a job is in neither `candidates` nor `running`. */
  lemma AbandonHoldsEveryUnprocessedJobIff(s: State)
    requires Reachable(s) && s.ctl.pc.Budget?
    ensures (forall t | AbandonedFrom(s, t) :: Unprocessed(t) <= CandidateSet(t)) <==> DepartedUnprocessed(s) == {}
  {
    if DepartedUnprocessed(s) == {} {
      forall t | AbandonedFrom(s, t) ensures Unprocessed(t) <= CandidateSet(t) {
        AbandonFacts(s, t);
        assert forall i <- Unprocessed(t) :: i !in DepartedUnprocessed(s);
      }
    } else {
      var t := ImmediateAbandon(s);
      AbandonFacts(s, t);
    }
  }

  /** The same question for the reported number: it is at least the number of
      unprocessed jobs in every continuation exactly when it is at the snapshot. */
  lemma AbandonCountCoversIff(s: State)
    requires Reachable(s) && s.ctl.pc.Budget?
    ensures (forall t | AbandonedFrom(s, t) :: |Unprocessed(t)| <= t.ctl.pc.outcome.running)
            <==> |Unprocessed(s)| <= |s.jobs.running|
  {
    if |Unprocessed(s)| <= |s.jobs.running| {
      forall t | AbandonedFrom(s, t) ensures |Unprocessed(t)| <= t.ctl.pc.outcome.running {
        AbandonFacts(s, t);
      }
    } else {
      var t := ImmediateAbandon(s);
      AbandonFacts(s, t);
    }
  }

  lemma {:induction false} SubsetSize<T>(a: set<T>, b: set<T>)
    requires a <= b
    ensures |a| <= |b|
    decreases |a|
  {
    if a != {} {
      var x :| x in a;
      SubsetSize(a - {x}, b - {x});
    }
  }

  // ------------------------------------------------ each outcome does happen

  lemma ReachNext(s: State, e: Event, t: State)
    requires Reachable(s) && Step(s, e) == Some(t)
    ensures Reachable(t)
  {
    hide Step;
    var es: seq<Event> :| Exec(INIT, es) == Some(s);
    ExecAppend(INIT, es, [e]);
    assert [e][1..] == [];
    assert Exec(t, []) == Some(t);
    assert Exec(s, [e]) == Some(t);
    assert Exec(INIT, es + [e]) == Some(t);
  }

  /** One job has left; its result waits in the FIFO. */
  const LEFT := State(Jobs(["job"], [Gone], map[]), Pipe([Item(JobResult(0), Some(0))], Idle, [], {}, {}, false),
                      Peer(0, None, false), Control(Serving, false, map[], None, {}))

  lemma JobLeaves()
    ensures Reachable(LEFT)
  {
    var s1 := Step(INIT, OfJob(Dispatch("job"))).value;
    var s2 := Step(s1, OfJob(Offer(0, JobResult(0)))).value;
    var s3 := Step(s2, OfJob(Enqueue(0))).value;
    var s4 := Step(s3, OfJob(CloseDone(0))).value;
    var s5 := Step(s4, OfJob(Leave(0))).value;
    assert s5.jobs.running == map[];
    assert s5 == LEFT;
    assert Exec(INIT, []) == Some(INIT);
    hide Step;
    ReachNext(INIT, OfJob(Dispatch("job")), s1);
    ReachNext(s1, OfJob(Offer(0, JobResult(0))), s2);
    ReachNext(s2, OfJob(Enqueue(0)), s3);
    ReachNext(s3, OfJob(CloseDone(0)), s4);
    ReachNext(s4, OfJob(Leave(0)), s5);
  }

  lemma RunReaches(s: State, es: seq<Event>, t: State)
    requires Reachable(s) && Exec(s, es) == Some(t)
    ensures Reachable(t)
  {
    hide Step;
    LeadsTransitive(INIT, s, t);
  }

  /** The failing family of abandonAll is not empty: a job that finished just before the signal, its
      result still in the FIFO, is abandoned and reported as zero jobs. */
  lemma AbandonCanUndercount()
    ensures exists t :: Reachable(t) && Abandoned(t) && t.ctl.pc.outcome.running == 0 && |Unprocessed(t)| == 1 && !NamesAll(t)
  {
    JobLeaves();
    var s := Step(LEFT, OfDrain(StartDrain)).value;
    assert Unprocessed(s) == {0};
    assert s.ctl.pc.Budget? && |s.jobs.running| == 0;
    hide Step;
    ReachNext(LEFT, OfDrain(StartDrain), s);
    var t := ImmediateAbandon(s);
    AbandonFacts(s, t);
    var es: seq<Event> :| Exec(s, [OfDrain(Snapshot)] + es) == Some(t) && Abandoned(t);
    RunReaches(s, [OfDrain(Snapshot)] + es, t);
    assert 0 in Unprocessed(t) && t.ctl.suppressed == Some(s.jobs.running.Keys);
  }

  /** Its result has been sent and processed. */
  const DELIVERED := LEFT.(pipe := Pipe([], Idle, [JobResult(0)], {0}, {}, false), peer := Peer(1, None, false))

  lemma ResultDelivered()
    ensures Reachable(DELIVERED)
  {
    JobLeaves();
    var s1 := Step(LEFT, OfLoop(Dequeue)).value;
    var s2 := Step(s1, OfLoop(CheckSuppressed)).value;
    var s3 := Step(s2, OfLoop(SendOk)).value;
    var s4 := Step(s3, OfLoop(MarkTerminal)).value;
    var s5 := Step(s4, OfPeer(Process)).value;
    assert s5 == DELIVERED;
    hide Step;
    ReachNext(LEFT, OfLoop(Dequeue), s1);
    ReachNext(s1, OfLoop(CheckSuppressed), s2);
    ReachNext(s2, OfLoop(SendOk), s3);
    ReachNext(s3, OfLoop(MarkTerminal), s4);
    ReachNext(s4, OfPeer(Process), s5);
  }

  /** The clean drain is parked at its barrier. */
  const PARKED := DELIVERED.(pipe := Pipe([], Parked(Last), [JobResult(0)], {0}, {Last}, false),
                             ctl := Control(CleanWait, true, map[], None, {}))

  lemma CleanParks()
    ensures Reachable(PARKED)
  {
    ResultDelivered();
    var s1 := Step(DELIVERED, OfDrain(StartDrain)).value;
    var s2 := Step(s1, OfDrain(AllFinished)).value;
    var s3 := Step(s2, OfDrain(EnqueueBarrier)).value;
    var s4 := Step(s3, OfLoop(Dequeue)).value;
    assert s4 == PARKED;
    hide Step;
    ReachNext(DELIVERED, OfDrain(StartDrain), s1);
    ReachNext(s1, OfDrain(AllFinished), s2);
    ReachNext(s2, OfDrain(EnqueueBarrier), s3);
    ReachNext(s3, OfLoop(Dequeue), s4);
  }

  /** A drain with a job behind it does end clean. */
  lemma CleanCanHappen()
    ensures exists t :: Reachable(t) && |t.jobs.ids| == 1 && t.ctl.pc == Done(Outcome(true, 0, false))
  {
    CleanParks();
    var s1 := Step(PARKED, OfDrain(Release)).value;
    var s2 := Step(s1, OfLoop(Resume)).value;
    var s3 := Step(s2, OfPeer(ServerEof)).value;
    var s4 := Step(s3, OfDrain(Confirm)).value;
    assert s4.ctl.pc == Done(Outcome(true, 0, false)) && s4.jobs == PARKED.jobs;
    hide Step;
    ReachNext(PARKED, OfDrain(Release), s1);
    ReachNext(s1, OfLoop(Resume), s2);
    ReachNext(s2, OfPeer(ServerEof), s3);
    ReachNext(s3, OfDrain(Confirm), s4);
  }

  /** A job still works when the cutoff barrier is reached. */
  const CUT := State(Jobs(["job"], [Working], map["job" := 0]), Pipe([], Parked(Cutoff), [], {}, {Cutoff}, false),
                     Peer(0, None, false), Control(CutoffWait, true, map["job" := 0], None, {}))

  lemma CutoffParks()
    ensures Reachable(CUT)
  {
    var s1 := Step(INIT, OfJob(Dispatch("job"))).value;
    var s2 := Step(s1, OfDrain(StartDrain)).value;
    var s3 := Step(s2, OfDrain(Snapshot)).value;
    var s4 := Step(s3, OfDrain(EnqueueBarrier)).value;
    var s5 := Step(s4, OfLoop(Dequeue)).value;
    assert s5 == CUT;
    assert Exec(INIT, []) == Some(INIT);
    hide Step;
    ReachNext(INIT, OfJob(Dispatch("job")), s1);
    ReachNext(s1, OfDrain(StartDrain), s2);
    ReachNext(s2, OfDrain(Snapshot), s3);
    ReachNext(s3, OfDrain(EnqueueBarrier), s4);
    ReachNext(s4, OfLoop(Dequeue), s5);
  }

  /** The job is suppressed and the send loop parked at the final barrier. */
  const CLOSING := CUT.(pipe := Pipe([], Parked(Last), [], {}, {Cutoff, Last}, false),
                        ctl := Control(FinalWait, true, map["job" := 0], Some({"job"}), {Cutoff}))

  /** The job's result has not crossed: it is suppressed. */
  const SUPPRESSED := CUT.(ctl := Control(Published, true, map["job" := 0], Some({"job"}), {}))

  lemma CutoffPublishes()
    ensures Reachable(SUPPRESSED)
  {
    CutoffParks();
    var t := Step(CUT, OfDrain(Publish)).value;
    var dropped := t.ctl.suppressed.value;
    assert forall id :: id in dropped <==> id in {"job"};
    assert dropped == {"job"};
    assert t == SUPPRESSED;
    hide Step;
    ReachNext(CUT, OfDrain(Publish), t);
  }

  /** The send loop runs again. */
  const RESUMED := SUPPRESSED.(pipe := Pipe([], Idle, [], {}, {Cutoff}, false),
                               ctl := Control(AwaitJobs, true, map["job" := 0], Some({"job"}), {Cutoff}))

  lemma CutoffReleased()
    ensures Reachable(RESUMED)
  {
    CutoffPublishes();
    var s1 := Step(SUPPRESSED, OfDrain(Release)).value;
    var s2 := Step(s1, OfLoop(Resume)).value;
    assert s2 == RESUMED;
    hide Step;
    ReachNext(SUPPRESSED, OfDrain(Release), s1);
    ReachNext(s1, OfLoop(Resume), s2);
  }

  lemma FinalParks()
    ensures Reachable(CLOSING)
  {
    CutoffReleased();
    var s1 := Step(RESUMED, OfDrain(JobsAwaited)).value;
    var s2 := Step(s1, OfDrain(EnqueueBarrier)).value;
    var s3 := Step(s2, OfLoop(Dequeue)).value;
    assert s3 == CLOSING;
    hide Step;
    ReachNext(RESUMED, OfDrain(JobsAwaited), s1);
    ReachNext(s1, OfDrain(EnqueueBarrier), s2);
    ReachNext(s2, OfLoop(Dequeue), s3);
  }

  /** And a timed-out drain does end in the server's EOF with a job abandoned. */
  lemma TimeoutEofCanHappen()
    ensures exists t :: Reachable(t) && CutoffPath(t.ctl.pc) && t.ctl.pc == Done(Outcome(false, 1, false))
  {
    FinalParks();
    var s1 := Step(CLOSING, OfDrain(Release)).value;
    var s2 := Step(s1, OfLoop(Resume)).value;
    var s3 := Step(s2, OfPeer(ServerEof)).value;
    var s4 := Step(s3, OfDrain(Confirm)).value;
    assert s4.ctl.pc == Done(Outcome(false, 1, false));
    hide Step;
    ReachNext(CLOSING, OfDrain(Release), s1);
    ReachNext(s1, OfLoop(Resume), s2);
    ReachNext(s2, OfPeer(ServerEof), s3);
    ReachNext(s3, OfDrain(Confirm), s4);
  }
}
