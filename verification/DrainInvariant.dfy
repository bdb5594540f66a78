/** The inductive invariant of the drain protocol: what every event keeps. */
module DrainInvariant {
  import opened Wrappers
  import opened Drain

  /** A JobResult carries its own job's state, nothing else carries one. */
  predicate WellTracked(n: nat, m: Message, tracked: Option<Instance>) {
    match m
    case JobResult(i) => i < n && tracked == Some(i)
    case Report(i) => i < n && tracked == None
    case Other => tracked == None
  }

  predicate InLoop(loop: SendLoop, i: Instance) {
    (loop.Holding? || loop.Cleared?) && loop.msg == JobResult(i)
  }

  predicate HoldsResult(loop: SendLoop) {
    (loop.Holding? || loop.Cleared?) && loop.msg.JobResult?
  }

  predicate InQueue(queue: seq<Item>, i: Instance) {
    Item(JobResult(i), Some(i)) in queue
  }

  predicate OnWire(wire: seq<Message>, i: Instance) {
    JobResult(i) in wire
  }

  /** The result of the job has not been handed to the FIFO yet. */
  predicate Pending(p: Phase) {
    p.Working? || p.Blocked?
  }

  /** Results may be missing: the stream is gone or a send has failed. */
  predicate Lossy(s: State) {
    s.peer.torn || (s.pipe.loop == Halted && !s.pipe.sendClosed)
  }

  /** The suppression set in force is the one computed at the cutoff. */
  predicate CutoffPath(pc: Controller) {
    pc.Published? || pc.AwaitJobs? || pc.FinalEnqueue? || pc.FinalWait? || pc.FinalEof?
    || (pc.Done? && !pc.outcome.clean && !pc.outcome.flushTimedOut)
  }

  predicate AfterSnapshot(c: Control) {
    c.pc.CutoffEnqueue? || c.pc.CutoffWait? || c.pc.Abandoning? || CutoffPath(c.pc) || (c.pc.Done? && c.suppressed.Some?)
  }

  predicate AfterClean(c: Control) {
    c.pc.CleanEnqueue? || c.pc.CleanWait? || c.pc.CleanEof? || (c.pc.Done? && c.suppressed == None)
  }

  /** Dispatched, and already out of `running` when the snapshot was taken. */
  predicate Departed(ids: seq<JobId>, candidates: map<JobId, Instance>, i: Instance) {
    i < |ids| && Lookup(candidates, ids[i]) != Some(i)
  }

  ghost predicate RunningOk(j: Jobs) {
    && |j.phases| == |j.ids|
    && (forall id <- j.running :: j.running[id] < |j.ids| && j.ids[j.running[id]] == id)
    && (forall i | 0 <= i < |j.phases| :: j.phases[i] != Gone <==> Lookup(j.running, j.ids[i]) == Some(i))
  }

  ghost predicate BlockedOk(j: Jobs) {
    forall i | 0 <= i < |j.phases| && j.phases[i].Blocked? ::
      IsOutput(j.phases[i].msg) && j.phases[i].msg.job == i && WellTracked(|j.ids|, j.phases[i].msg, j.phases[i].tracked)
  }

  ghost predicate TracksOk(n: nat, p: Pipe) {
    && (forall x <- p.queue | x.Item? :: WellTracked(n, x.msg, x.tracked))
    && (p.loop.Holding? || p.loop.Cleared? ==> WellTracked(n, p.loop.msg, p.loop.tracked))
    && (forall m <- p.wire | IsOutput(m) :: m.job < n)
  }

  ghost predicate WireOk(p: Pipe) {
    && (p.loop.Cleared? && p.loop.msg.JobResult? ==> p.loop.tracked == Some(p.loop.msg.job))
    && (p.loop.Cleared? && !p.loop.msg.JobResult? ==> p.loop.tracked == None)
    && (p.loop.Sent? && p.loop.tracked.Some? ==> OnWire(p.wire, p.loop.tracked.value))
    && (forall i <- p.terminalSent :: OnWire(p.wire, i))
    && (forall i: Instance | OnWire(p.wire, i) :: i in p.terminalSent || p.loop == Sent(Some(i)))
  }

  ghost predicate ResultsOnce(j: Jobs, p: Pipe) {
    forall i | 0 <= i < |j.phases| && Pending(j.phases[i]) :: !InQueue(p.queue, i) && !InLoop(p.loop, i) && !OnWire(p.wire, i)
  }

  /** A produced result is in the FIFO, in the send loop or on the wire, unless
      the stream is gone, a send failed or suppression is in force. */
  ghost predicate NothingVanishes(s: State) {
    s.ctl.suppressed == None && !Lossy(s) ==>
      forall i | 0 <= i < |s.jobs.phases| && !Pending(s.jobs.phases[i]) ::
        InQueue(s.pipe.queue, i) || InLoop(s.pipe.loop, i) || OnWire(s.pipe.wire, i)
  }

  ghost predicate CandidatesOk(j: Jobs, c: Control) {
    AfterSnapshot(c) ==>
      && (forall id <- j.running :: Lookup(c.candidates, id) == Some(j.running[id]))
      && (forall id <- c.candidates :: c.candidates[id] < |j.ids| && j.ids[c.candidates[id]] == id)
  }

  predicate ControlOk(c: Control) {
    && (c.draining <==> c.pc != Serving)
    && (c.suppressed.Some? ==>
          (AfterSnapshot(c) && !c.pc.CutoffEnqueue? && !c.pc.CutoffWait? && c.suppressed.value <= c.candidates.Keys))
    && (CutoffPath(c.pc) ==> c.suppressed.Some?)
    && (c.pc.Abandoning? ==> c.pc.all == c.candidates.Keys)
    && (Cutoff in c.released ==> c.suppressed.Some? && !c.pc.Published?)
    && (Last in c.released && c.suppressed == None ==> c.pc.CleanEof? || c.pc.Done?)
    && (Last in c.released && c.suppressed.Some? ==> Cutoff in c.released)
    && (CutoffPath(c.pc) && !c.pc.Published? ==> Cutoff in c.released)
    && (c.pc.Done? && c.pc.outcome.clean ==> c.pc.outcome == Outcome(true, 0, false) && c.suppressed == None)
    && (c.pc.Done? && CutoffPath(c.pc) ==> c.pc.outcome.running == |c.suppressed.value|)
  }

  /** When a barrier can be in the FIFO or behind it. */
  predicate BarriersOk(p: Pipe, c: Control) {
    && (p.loop.Parked? ==> p.loop.kind in p.reached)
    && (c.released <= p.reached)
    && (!AfterSnapshot(c) || c.pc.CutoffEnqueue? ==> Barrier(Cutoff) !in p.queue && Cutoff !in p.reached)
    && (c.pc.Published? ==> Cutoff in p.reached)
    && ((c.pc.CutoffWait? || c.pc.Published?) && Cutoff in p.reached ==> p.loop == Parked(Cutoff) || p.loop == Halted)
    && (c.pc.Serving? || c.pc.Budget? || c.pc.CleanEnqueue? ==> Barrier(Last) !in p.queue && Last !in p.reached)
    && (p.sendClosed ==> p.loop == Halted && Last in c.released)
  }

  predicate ResultItem(x: Item) {
    x.Item? && x.msg.JobResult?
  }

  /** No departed job's result is behind the cutoff barrier. */
  ghost predicate DepartedAhead(ids: seq<JobId>, p: Pipe, c: Control) {
    AfterSnapshot(c) ==>
      && (forall a, b | 0 <= a < b < |p.queue| && p.queue[a] == Barrier(Cutoff) && ResultItem(p.queue[b]) ::
            !Departed(ids, c.candidates, p.queue[b].msg.job))
      && (Cutoff in p.reached ==> forall i | 0 <= i < |ids| && Departed(ids, c.candidates, i)
                               :: !InQueue(p.queue, i) && !InLoop(p.loop, i))
  }

  /** On the clean path every job is gone and no result is behind the barrier. */
  ghost predicate CleanOk(j: Jobs, p: Pipe, c: Control) {
    AfterClean(c) ==>
      && (forall i | 0 <= i < |j.phases| :: j.phases[i] == Gone)
      && (forall a, b | 0 <= a < b < |p.queue| && p.queue[a] == Barrier(Last) :: !ResultItem(p.queue[b]))
      && (Last in p.reached ==> (forall b | 0 <= b < |p.queue| :: !ResultItem(p.queue[b])) && !HoldsResult(p.loop))
  }

  /** After the cutoff a candidate is suppressed exactly when its result is not on
      the wire, and nothing suppressed is past the check. */
  ghost predicate CutoffOk(ids: seq<JobId>, p: Pipe, c: Control) {
    CutoffPath(c.pc) ==>
      && c.suppressed.Some?
      && (forall id <- c.candidates :: id in c.suppressed.value <==> !OnWire(p.wire, c.candidates[id]))
      && (p.loop.Cleared? ==> !IsSuppressed(ids, c.suppressed, p.loop.msg))
  }

  ghost predicate DepartedSent(s: State) {
    CutoffPath(s.ctl.pc) && !Lossy(s) ==>
      forall i | 0 <= i < |s.jobs.ids| && Departed(s.jobs.ids, s.ctl.candidates, i) :: OnWire(s.pipe.wire, i)
  }

  /** A server EOF is only seen once everything sent has been processed. */
  ghost predicate EofOk(s: State) {
    && s.peer.processed <= |s.pipe.wire|
    && (s.peer.recvEnd == Some(Eof) ==>
          && s.pipe.sendClosed && s.peer.processed == |s.pipe.wire|
          && (s.ctl.suppressed == None ==> forall i | 0 <= i < |s.jobs.ids| :: OnWire(s.pipe.wire, i))
          && (CutoffPath(s.ctl.pc) ==>
                forall i | 0 <= i < |s.jobs.ids| && Departed(s.jobs.ids, s.ctl.candidates, i) :: OnWire(s.pipe.wire, i)))
    && (s.ctl.pc.Done? && (s.ctl.pc.outcome.clean || CutoffPath(s.ctl.pc)) ==> s.peer.recvEnd == Some(Eof))
  }

  ghost predicate Inv(s: State) {
    && RunningOk(s.jobs)
    && BlockedOk(s.jobs)
    && TracksOk(|s.jobs.ids|, s.pipe)
    && WireOk(s.pipe)
    && ResultsOnce(s.jobs, s.pipe)
    && NothingVanishes(s)
    && CandidatesOk(s.jobs, s.ctl)
    && ControlOk(s.ctl)
    && BarriersOk(s.pipe, s.ctl)
    && DepartedAhead(s.jobs.ids, s.pipe, s.ctl)
    && CleanOk(s.jobs, s.pipe, s.ctl)
    && CutoffOk(s.jobs.ids, s.pipe, s.ctl)
    && DepartedSent(s)
    && EofOk(s)
  }

  lemma HeadTail<T>(q: seq<T>)
    requires q != []
    ensures forall x :: x in q <==> x == q[0] || x in q[1..]
  {
    assert q == [q[0]] + q[1..];
  }

  lemma DispatchKeepsRunning(j: Jobs, id: JobId)
    requires RunningOk(j) && id !in j.running
    ensures RunningOk(Jobs(j.ids + [id], j.phases + [Working], j.running[id := |j.ids|]))
  {
  }

  lemma PhaseKeepsRunning(j: Jobs, i: Instance, p: Phase)
    requires RunningOk(j) && i < |j.phases| && j.phases[i] != Gone && p != Gone
    ensures RunningOk(SetPhase(j, i, p))
  {
  }

  lemma LeaveKeepsRunning(j: Jobs, i: Instance)
    requires RunningOk(j) && i < |j.phases| && j.phases[i] == Signalled
    ensures RunningOk(SetPhase(j, i, Gone).(running := j.running - {j.ids[i]}))
  {
    var r := j.running - {j.ids[i]};
    forall k | 0 <= k < |j.phases| && k != i
      ensures j.phases[k] != Gone <==> Lookup(r, j.ids[k]) == Some(k)
    {
      assert Lookup(j.running, j.ids[i]) == Some(i);
    }
  }

  lemma JobKeepsRunning(s: State, e: JobEvent, t: State)
    requires JobStep(s, e) == Some(t) && RunningOk(s.jobs)
    ensures RunningOk(t.jobs)
  {
    var j := s.jobs;
    match e
    case Dispatch(id) => if t.jobs != j { DispatchKeepsRunning(j, id); }
    case Offer(i, m) => PhaseKeepsRunning(j, i, t.jobs.phases[i]);
    case Enqueue(i) => PhaseKeepsRunning(j, i, t.jobs.phases[i]);
    case Lose(i) => PhaseKeepsRunning(j, i, t.jobs.phases[i]);
    case CloseDone(i) => PhaseKeepsRunning(j, i, Signalled);
    case Leave(i) => LeaveKeepsRunning(j, i);
    case OtherTraffic =>
  }

  lemma JobKeepsBlocked(s: State, e: JobEvent, t: State)
    requires JobStep(s, e) == Some(t)
    requires RunningOk(s.jobs)
    requires BlockedOk(s.jobs)
    requires TracksOk(|s.jobs.ids|, s.pipe)
    ensures BlockedOk(t.jobs)
    ensures TracksOk(|t.jobs.ids|, t.pipe)
  {
  }

  lemma JobKeepsResultsOnce(s: State, e: JobEvent, t: State)
    requires JobStep(s, e) == Some(t)
    requires RunningOk(s.jobs)
    requires BlockedOk(s.jobs)
    requires TracksOk(|s.jobs.ids|, s.pipe)
    requires ResultsOnce(s.jobs, s.pipe)
    ensures ResultsOnce(t.jobs, t.pipe)
  {
  }

  lemma JobKeepsVanishes(s: State, e: JobEvent, t: State)
    requires JobStep(s, e) == Some(t)
    requires Inv(s)
    ensures NothingVanishes(t)
    ensures CandidatesOk(t.jobs, t.ctl)
  {
    hide TracksOk;
    hide WireOk;
    hide ResultsOnce;
    hide BarriersOk;
    hide DepartedAhead;
    hide CleanOk;
    hide CutoffOk;
    hide DepartedSent;
    hide EofOk;
  }

  lemma JobKeepsDeparted(s: State, e: JobEvent, t: State)
    requires JobStep(s, e) == Some(t)
    requires RunningOk(s.jobs)
    requires BlockedOk(s.jobs)
    requires CandidatesOk(s.jobs, s.ctl)
    requires ControlOk(s.ctl)
    requires DepartedAhead(s.jobs.ids, s.pipe, s.ctl)
    ensures DepartedAhead(t.jobs.ids, t.pipe, t.ctl)
  {
  }

  lemma JobKeepsWire(s: State, e: JobEvent, t: State)
    requires JobStep(s, e) == Some(t)
    requires Inv(s)
    ensures WireOk(t.pipe)
    ensures ControlOk(t.ctl)
    ensures BarriersOk(t.pipe, t.ctl)
    ensures CleanOk(t.jobs, t.pipe, t.ctl)
    ensures CutoffOk(t.jobs.ids, t.pipe, t.ctl)
  {
    hide BlockedOk;
    hide TracksOk;
    hide ResultsOnce;
    hide NothingVanishes;
    hide DepartedAhead;
    hide DepartedSent;
    hide EofOk;
  }

  lemma JobKeepsSent(s: State, e: JobEvent, t: State)
    requires JobStep(s, e) == Some(t)
    requires Inv(s)
    ensures DepartedSent(t)
    ensures EofOk(t)
  {
  }

  lemma LoopKeepsRunning(s: State, e: LoopEvent, t: State)
    requires LoopStep(s, e) == Some(t)
    requires Inv(s)
    ensures RunningOk(t.jobs)
    ensures BlockedOk(t.jobs)
    ensures TracksOk(|t.jobs.ids|, t.pipe)
    ensures WireOk(t.pipe)
    ensures CandidatesOk(t.jobs, t.ctl)
    ensures ControlOk(t.ctl)
  {
    hide ResultsOnce;
    hide NothingVanishes;
    hide BarriersOk;
    hide DepartedAhead;
    hide CleanOk;
    hide CutoffOk;
    hide DepartedSent;
    hide EofOk;
    hide RunningOk;
    hide BlockedOk;
    hide CandidatesOk;
    if e.Dequeue? { HeadTail(s.pipe.queue); }
  }

  lemma LoopKeepsResultsOnce(s: State, e: LoopEvent, t: State)
    requires LoopStep(s, e) == Some(t)
    requires RunningOk(s.jobs)
    requires TracksOk(|s.jobs.ids|, s.pipe)
    requires ResultsOnce(s.jobs, s.pipe)
    ensures ResultsOnce(t.jobs, t.pipe)
  {
    if e.Dequeue? { HeadTail(s.pipe.queue); }
  }

  lemma LoopKeepsVanishes(s: State, e: LoopEvent, t: State)
    requires LoopStep(s, e) == Some(t)
    requires RunningOk(s.jobs)
    requires TracksOk(|s.jobs.ids|, s.pipe)
    requires NothingVanishes(s)
    requires BarriersOk(s.pipe, s.ctl)
    requires ControlOk(s.ctl)
    ensures NothingVanishes(t)
  {
    if e.Dequeue? { HeadTail(s.pipe.queue); }
  }

  lemma LoopKeepsBarriers(s: State, e: LoopEvent, t: State)
    requires LoopStep(s, e) == Some(t)
    requires BarriersOk(s.pipe, s.ctl)
    requires ControlOk(s.ctl)
    requires TracksOk(|s.jobs.ids|, s.pipe)
    ensures BarriersOk(t.pipe, t.ctl)
  {
    if e.Dequeue? { HeadTail(s.pipe.queue); }
  }

  lemma LoopKeepsDeparted(s: State, e: LoopEvent, t: State)
    requires LoopStep(s, e) == Some(t)
    requires DepartedAhead(s.jobs.ids, s.pipe, s.ctl)
    requires TracksOk(|s.jobs.ids|, s.pipe)
    requires BarriersOk(s.pipe, s.ctl)
    requires ControlOk(s.ctl)
    ensures DepartedAhead(t.jobs.ids, t.pipe, t.ctl)
  {
    if e.Dequeue? { HeadTail(s.pipe.queue); }
  }

  lemma LoopKeepsClean(s: State, e: LoopEvent, t: State)
    requires LoopStep(s, e) == Some(t)
    requires CleanOk(s.jobs, s.pipe, s.ctl)
    requires TracksOk(|s.jobs.ids|, s.pipe)
    requires BarriersOk(s.pipe, s.ctl)
    requires ControlOk(s.ctl)
    ensures CleanOk(t.jobs, t.pipe, t.ctl)
  {
    if e.Dequeue? { HeadTail(s.pipe.queue); }
  }

  lemma LoopKeepsCutoff(s: State, e: LoopEvent, t: State)
    requires LoopStep(s, e) == Some(t)
    requires Inv(s)
    ensures CutoffOk(t.jobs.ids, t.pipe, t.ctl)
    ensures DepartedSent(t)
    ensures EofOk(t)
  {
    if e.Dequeue? { HeadTail(s.pipe.queue); }
  }

  lemma PeerKeepsInv(s: State, e: PeerEvent, t: State)
    requires PeerStep(s, e) == Some(t)
    requires Inv(s)
    ensures RunningOk(t.jobs)
    ensures BlockedOk(t.jobs)
    ensures TracksOk(|t.jobs.ids|, t.pipe)
    ensures WireOk(t.pipe)
    ensures ResultsOnce(t.jobs, t.pipe)
    ensures NothingVanishes(t)
    ensures CandidatesOk(t.jobs, t.ctl)
    ensures ControlOk(t.ctl)
    ensures BarriersOk(t.pipe, t.ctl)
    ensures DepartedAhead(t.jobs.ids, t.pipe, t.ctl)
    ensures CleanOk(t.jobs, t.pipe, t.ctl)
    ensures CutoffOk(t.jobs.ids, t.pipe, t.ctl)
    ensures DepartedSent(t)
    ensures EofOk(t)
  {
  }

  /** The controller only ever appends a barrier to the FIFO and rewrites its own state. */
  lemma DrainShape(s: State, e: DrainEvent, t: State)
    requires DrainStep(s, e) == Some(t)
    ensures t.jobs == s.jobs && t.peer == s.peer
    ensures t.pipe == s.pipe || (e.EnqueueBarrier? && exists k :: t.pipe == Push(s.pipe, Barrier(k)))
  {
  }

  lemma DrainKeepsRunning(s: State, e: DrainEvent, t: State)
    requires DrainStep(s, e) == Some(t)
    requires RunningOk(s.jobs)
    requires BlockedOk(s.jobs)
    requires TracksOk(|s.jobs.ids|, s.pipe)
    requires WireOk(s.pipe)
    ensures RunningOk(t.jobs)
    ensures BlockedOk(t.jobs)
    ensures TracksOk(|t.jobs.ids|, t.pipe)
    ensures WireOk(t.pipe)
  {
    hide RunningOk;
    hide BlockedOk;
    hide WellTracked;
    hide DrainStep;
    DrainShape(s, e, t);
  }

  lemma DrainKeepsResultsOnce(s: State, e: DrainEvent, t: State)
    requires DrainStep(s, e) == Some(t)
    requires RunningOk(s.jobs)
    requires ResultsOnce(s.jobs, s.pipe)
    requires NothingVanishes(s)
    requires ControlOk(s.ctl)
    ensures ResultsOnce(t.jobs, t.pipe)
    ensures NothingVanishes(t)
  {
  }

  lemma DrainKeepsControl(s: State, e: DrainEvent, t: State)
    requires DrainStep(s, e) == Some(t)
    requires ControlOk(s.ctl)
    requires AfterSnapshot(s.ctl) ==> s.jobs.running.Keys <= s.ctl.candidates.Keys
    ensures ControlOk(t.ctl)
  {
  }

  lemma DrainKeepsCandidates(s: State, e: DrainEvent, t: State)
    requires DrainStep(s, e) == Some(t)
    requires RunningOk(s.jobs)
    requires CandidatesOk(s.jobs, s.ctl)
    requires ControlOk(s.ctl)
    ensures CandidatesOk(t.jobs, t.ctl)
    ensures ControlOk(t.ctl)
  {
    assert AfterSnapshot(s.ctl) ==> s.jobs.running.Keys <= s.ctl.candidates.Keys;
    DrainKeepsControl(s, e, t);
  }

  lemma DrainKeepsBarriers(s: State, e: DrainEvent, t: State)
    requires DrainStep(s, e) == Some(t)
    requires BarriersOk(s.pipe, s.ctl)
    requires ControlOk(s.ctl)
    ensures BarriersOk(t.pipe, t.ctl)
  {
  }

  lemma DrainKeepsDeparted(s: State, e: DrainEvent, t: State)
    requires DrainStep(s, e) == Some(t)
    requires RunningOk(s.jobs)
    requires TracksOk(|s.jobs.ids|, s.pipe)
    requires ControlOk(s.ctl)
    requires BarriersOk(s.pipe, s.ctl)
    requires CandidatesOk(s.jobs, s.ctl)
    requires DepartedAhead(s.jobs.ids, s.pipe, s.ctl)
    ensures DepartedAhead(t.jobs.ids, t.pipe, t.ctl)
  {
  }

  lemma DrainKeepsClean(s: State, e: DrainEvent, t: State)
    requires DrainStep(s, e) == Some(t)
    requires CleanOk(s.jobs, s.pipe, s.ctl)
    requires ControlOk(s.ctl)
    requires BarriersOk(s.pipe, s.ctl)
    requires RunningOk(s.jobs)
    ensures CleanOk(t.jobs, t.pipe, t.ctl)
  {
  }

  lemma DrainKeepsCutoff(s: State, e: DrainEvent, t: State)
    requires DrainStep(s, e) == Some(t)
    requires Inv(s)
    ensures CutoffOk(t.jobs.ids, t.pipe, t.ctl)
  {
    hide BlockedOk;
    hide TracksOk;
    hide ResultsOnce;
    hide NothingVanishes;
    hide DepartedAhead;
    hide DepartedSent;
    hide EofOk;
    hide CleanOk;
  }

  lemma DrainKeepsSent(s: State, e: DrainEvent, t: State)
    requires DrainStep(s, e) == Some(t)
    requires Inv(s)
    ensures DepartedSent(t)
  {
    hide BlockedOk;
    hide TracksOk;
    hide WireOk;
    hide ResultsOnce;
    hide CleanOk;
    hide EofOk;
  }

  lemma DrainKeepsEof(s: State, e: DrainEvent, t: State)
    requires DrainStep(s, e) == Some(t)
    requires ControlOk(s.ctl) && BarriersOk(s.pipe, s.ctl) && EofOk(s)
    ensures EofOk(t)
  {
  }

  lemma StepKeepsInv(s: State, e: Event, t: State)
    requires Inv(s) && Step(s, e) == Some(t)
    ensures Inv(t)
  {
    match e
    case OfJob(j) =>
      JobKeepsRunning(s, j, t);
      JobKeepsBlocked(s, j, t);
      JobKeepsResultsOnce(s, j, t);
      JobKeepsVanishes(s, j, t);
      JobKeepsDeparted(s, j, t);
      JobKeepsWire(s, j, t);
      JobKeepsSent(s, j, t);
    case OfLoop(l) =>
      LoopKeepsRunning(s, l, t);
      LoopKeepsResultsOnce(s, l, t);
      LoopKeepsVanishes(s, l, t);
      LoopKeepsBarriers(s, l, t);
      LoopKeepsDeparted(s, l, t);
      LoopKeepsClean(s, l, t);
      LoopKeepsCutoff(s, l, t);
    case OfPeer(p) =>
      PeerKeepsInv(s, p, t);
    case OfDrain(d) =>
      DrainKeepsRunning(s, d, t);
      DrainKeepsResultsOnce(s, d, t);
      DrainKeepsCandidates(s, d, t);
      DrainKeepsBarriers(s, d, t);
      DrainKeepsDeparted(s, d, t);
      DrainKeepsClean(s, d, t);
      DrainKeepsCutoff(s, d, t);
      DrainKeepsSent(s, d, t);
      DrainKeepsEof(s, d, t);
  }

  lemma {:induction false} ExecKeepsInv(s: State, es: seq<Event>, t: State)
    requires Inv(s) && Exec(s, es) == Some(t)
    ensures Inv(t)
    decreases |es|
  {
    hide Step;
    hide Inv;
    if es != [] {
      var next := Step(s, es[0]).value;
      StepKeepsInv(s, es[0], next);
      ExecKeepsInv(next, es[1..], t);
    }
  }

  /** The invariant holds in every state of every run. */
  lemma ReachableInv(s: State)
    requires Reachable(s)
    ensures Inv(s)
  {
    var es: seq<Event> :| Exec(INIT, es) == Some(s);
    ExecKeepsInv(INIT, es, s);
  }
}
