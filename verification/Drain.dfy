/** The agent's graceful drain: job goroutines, the single-writer send loop, the
    bounded outbound FIFO, the server end of the stream and the drain controller,
    as one transition system. Every event is one atomic action of the source and
    every interleaving of events is a run. */
module Drain {
  import opened Wrappers

  type JobId = string

  /** An in-flight job is named by the order in which it was dispatched: a job
      id may be dispatched again once its earlier instance has left. */
  type Instance = nat

  /** Report stands for Coverage and TestResults; Other for everything that is
      not job-scoped output (log lines, progress, cleanup acks, Draining). */
  datatype Message = JobResult(job: Instance) | Report(job: Instance) | Other

  /** The two barriers of the protocol. Only Last has closeSend set. */
  datatype BarrierKind = Cutoff | Last

  /** One entry of the FIFO; `tracked` is the jobState a JobResult carries. */
  datatype Item = Item(msg: Message, tracked: Option<Instance>) | Barrier(kind: BarrierKind)

  datatype Phase =
    | Working                                            // inside Execute, JobResult not produced yet
    | Blocked(msg: Message, tracked: Option<Instance>)   // past the enqueue-side check, waiting for room
    | Finished                                           // JobResult handed over, Execute returning
    | Signalled                                          // done closed
    | Gone                                               // deleted from running, WaitGroup released

  datatype SendLoop =
    | Idle
    | Holding(msg: Message, tracked: Option<Instance>)   // dequeued, suppression not checked yet
    | Cleared(msg: Message, tracked: Option<Instance>)   // past the check, not sent yet
    | Sent(tracked: Option<Instance>)                    // sent, terminalSent not stored yet
    | Parked(kind: BarrierKind)
    | Halted

  datatype Outcome = Outcome(clean: bool, running: nat, flushTimedOut: bool)

  datatype Controller =
    | Serving
    | Budget
    | CleanEnqueue | CleanWait | CleanEof
    | CutoffEnqueue | CutoffWait | Published | AwaitJobs
    | FinalEnqueue | FinalWait | FinalEof
    | Abandoning(all: set<JobId>)
    | Done(outcome: Outcome)

  /** How the receive side ended: a server EOF or anything else. */
  datatype RecvEnd = Eof | Failed

  datatype Jobs = Jobs(ids: seq<JobId>, phases: seq<Phase>, running: map<JobId, Instance>)

  /** The outbound FIFO and its only reader, the send loop. */
  datatype Pipe = Pipe(queue: seq<Item>, loop: SendLoop, wire: seq<Message>, terminalSent: set<Instance>,
                       reached: set<BarrierKind>, sendClosed: bool)

  /** The server (`processed` messages of the wire handled) and the transport. */
  datatype Peer = Peer(processed: nat, recvEnd: Option<RecvEnd>, torn: bool)

  datatype Control = Control(pc: Controller, draining: bool, candidates: map<JobId, Instance>,
                             suppressed: Option<set<JobId>>, released: set<BarrierKind>)

  datatype State = State(jobs: Jobs, pipe: Pipe, peer: Peer, ctl: Control)

  const OUTBOUND_CAP := 4096

  const INIT := State(Jobs([], [], map[]), Pipe([], Idle, [], {}, {}, false),
                      Peer(0, None, false), Control(Serving, false, map[], None, {}))

  /** The receive loop and the job goroutines, seen from the outbound FIFO. */
  datatype JobEvent =
    | Dispatch(id: JobId)
    | Offer(job: Instance, msg: Message)
    | Enqueue(job: Instance)
    | Lose(job: Instance)
    | CloseDone(job: Instance)
    | Leave(job: Instance)
    | OtherTraffic

  datatype LoopEvent =
    | Dequeue
    | CheckSuppressed
    | SendOk
    | SendError
    | MarkTerminal
    | Resume
    | LoopStop

  datatype PeerEvent =
    | Process
    | ServerEof
    | RecvFailure
    | Teardown

  datatype DrainEvent =
    | StartDrain
    | AllFinished
    | Snapshot
    | EnqueueBarrier
    | Publish
    | Release
    | JobsAwaited
    | Confirm
    | CleanFlushFailed
    | AbandonRead
    | AbandonPublish

  datatype Event =
    | OfJob(job: JobEvent)
    | OfLoop(loop: LoopEvent)
    | OfPeer(peer: PeerEvent)
    | OfDrain(drain: DrainEvent)

  predicate IsOutput(m: Message) {
    !m.Other?
  }

  /** isSuppressed, applied to the job id of an output message. */
  predicate IsSuppressed(ids: seq<JobId>, suppressed: Option<set<JobId>>, m: Message) {
    IsOutput(m) && m.job < |ids| && suppressed.Some? && ids[m.job] in suppressed.value
  }

  function Lookup(m: map<JobId, Instance>, id: JobId): Option<Instance> {
    if id in m then Some(m[id]) else None
  }

  /** What follows once a produced message has been queued, dropped or lost. */
  function AfterOffer(m: Message): Phase {
    if m.JobResult? then Finished else Working
  }

  function SetPhase(j: Jobs, i: Instance, p: Phase): Jobs
    requires i < |j.phases|
  {
    j.(phases := j.phases[i := p])
  }

  function Push(p: Pipe, x: Item): Pipe {
    p.(queue := p.queue + [x])
  }

  function JobStep(s: State, e: JobEvent): Option<State> {
    var j := s.jobs;
    match e
    case Dispatch(id) =>
      if s.ctl.draining || id in j.running then Some(s)
      else Some(s.(jobs := Jobs(j.ids + [id], j.phases + [Working], j.running[id := |j.ids|])))
    case Offer(i, m) =>
      if !(i < |j.phases| && i < |j.ids| && j.phases[i] == Working && IsOutput(m) && m.job == i) then None
      else if IsSuppressed(j.ids, s.ctl.suppressed, m) then Some(s.(jobs := SetPhase(j, i, AfterOffer(m))))
      else
        var tracked := if m.JobResult? then Lookup(j.running, j.ids[i]) else None;
        Some(s.(jobs := SetPhase(j, i, Blocked(m, tracked))))
    case Enqueue(i) =>
      if i < |j.phases| && j.phases[i].Blocked? && |s.pipe.queue| < OUTBOUND_CAP then
        var p := j.phases[i];
        Some(s.(pipe := Push(s.pipe, Item(p.msg, p.tracked)), jobs := SetPhase(j, i, AfterOffer(p.msg))))
      else None
    case Lose(i) =>
      if s.peer.torn && i < |j.phases| && j.phases[i].Blocked?
      then Some(s.(jobs := SetPhase(j, i, AfterOffer(j.phases[i].msg)))) else None
    case CloseDone(i) =>
      if i < |j.phases| && j.phases[i] == Finished then Some(s.(jobs := SetPhase(j, i, Signalled))) else None
    case Leave(i) =>
      if i < |j.phases| && i < |j.ids| && j.phases[i] == Signalled
      then Some(s.(jobs := SetPhase(j, i, Gone).(running := j.running - {j.ids[i]}))) else None
    case OtherTraffic =>
      if |s.pipe.queue| < OUTBOUND_CAP then Some(s.(pipe := Push(s.pipe, Item(Other, None)))) else Some(s)
  }

  function LoopStep(s: State, e: LoopEvent): Option<State> {
    var p := s.pipe;
    match e
    case Dequeue =>
      if p.loop != Idle || p.queue == [] then None
      else (match p.queue[0]
            case Item(m, t) => Some(s.(pipe := p.(queue := p.queue[1..], loop := Holding(m, t))))
            case Barrier(k) => Some(s.(pipe := p.(queue := p.queue[1..], loop := Parked(k), reached := p.reached + {k}))))
    case CheckSuppressed =>
      if !p.loop.Holding? then None
      else if IsSuppressed(s.jobs.ids, s.ctl.suppressed, p.loop.msg) then Some(s.(pipe := p.(loop := Idle)))
      else Some(s.(pipe := p.(loop := Cleared(p.loop.msg, p.loop.tracked))))
    case SendOk =>
      if p.loop.Cleared? then Some(s.(pipe := p.(wire := p.wire + [p.loop.msg], loop := Sent(p.loop.tracked)))) else None
    case SendError =>
      if p.loop.Cleared? then Some(s.(pipe := p.(loop := Halted))) else None
    case MarkTerminal =>
      if !p.loop.Sent? then None
      else
        var marked := if p.loop.tracked.Some? then {p.loop.tracked.value} else {};
        Some(s.(pipe := p.(loop := Idle, terminalSent := p.terminalSent + marked)))
    case Resume =>
      if !(p.loop.Parked? && p.loop.kind in s.ctl.released) then None
      else if p.loop.kind == Last then Some(s.(pipe := p.(loop := Halted, sendClosed := true)))
      else Some(s.(pipe := p.(loop := Idle)))
    case LoopStop =>
      if s.peer.torn && (p.loop.Idle? || p.loop.Parked?) then Some(s.(pipe := p.(loop := Halted))) else None
  }

  function PeerStep(s: State, e: PeerEvent): Option<State> {
    var p := s.peer;
    match e
    case Process =>
      if p.processed < |s.pipe.wire| then Some(s.(peer := p.(processed := p.processed + 1))) else None
    case ServerEof =>
      if p.recvEnd == None && s.pipe.sendClosed && p.processed == |s.pipe.wire| && !p.torn
      then Some(s.(peer := p.(recvEnd := Some(Eof)))) else None
    case RecvFailure =>
      if p.recvEnd == None then Some(s.(peer := p.(recvEnd := Some(Failed)))) else None
    case Teardown => Some(s.(peer := p.(torn := true)))
  }

  function DrainStep(s: State, e: DrainEvent): Option<State> {
    var c := s.ctl;
    match e
    case StartDrain =>
      if c.pc == Serving then Some(s.(ctl := c.(draining := true, pc := Budget))) else None
    case AllFinished =>
      if c.pc == Budget && (forall i | 0 <= i < |s.jobs.phases| :: s.jobs.phases[i] == Gone)
      then Some(s.(ctl := c.(pc := CleanEnqueue))) else None
    case Snapshot =>
      if c.pc == Budget then Some(s.(ctl := c.(candidates := s.jobs.running, pc := CutoffEnqueue))) else None
    case EnqueueBarrier =>
      if |s.pipe.queue| >= OUTBOUND_CAP then None
      else (match c.pc
            case CleanEnqueue => Some(s.(pipe := Push(s.pipe, Barrier(Last)), ctl := c.(pc := CleanWait)))
            case CutoffEnqueue => Some(s.(pipe := Push(s.pipe, Barrier(Cutoff)), ctl := c.(pc := CutoffWait)))
            case FinalEnqueue => Some(s.(pipe := Push(s.pipe, Barrier(Last)), ctl := c.(pc := FinalWait)))
            case _ => None)
    case Publish =>
      if c.pc == CutoffWait && Cutoff in s.pipe.reached then
        var dropped := set id | id in c.candidates && c.candidates[id] !in s.pipe.terminalSent;
        Some(s.(ctl := c.(suppressed := Some(dropped), pc := Published)))
      else None
    case Release =>
      (match c.pc
       case Published => Some(s.(ctl := c.(released := c.released + {Cutoff}, pc := AwaitJobs)))
       case CleanWait =>
         if Last in s.pipe.reached then Some(s.(ctl := c.(released := c.released + {Last}, pc := CleanEof))) else None
       case FinalWait =>
         if Last in s.pipe.reached then Some(s.(ctl := c.(released := c.released + {Last}, pc := FinalEof))) else None
       case _ => None)
    case JobsAwaited =>
      if c.pc == AwaitJobs then Some(s.(ctl := c.(pc := FinalEnqueue))) else None
    case Confirm =>
      if s.peer.recvEnd != Some(Eof) then None
      else (match c.pc
            case CleanEof => Some(s.(ctl := c.(pc := Done(Outcome(true, 0, false)))))
            case FinalEof =>
              if c.suppressed.Some?
              then Some(s.(ctl := c.(pc := Done(Outcome(false, |c.suppressed.value|, false))))) else None
            case _ => None)
    case CleanFlushFailed =>
      if c.pc.CleanEnqueue? || c.pc.CleanWait? || c.pc.CleanEof?
      then Some(s.(ctl := c.(pc := Done(Outcome(false, 0, true))))) else None
    case AbandonRead =>
      if c.pc.CutoffEnqueue? || c.pc.CutoffWait? || c.pc.FinalEnqueue? || c.pc.FinalWait? || c.pc.FinalEof?
      then Some(s.(ctl := c.(pc := Abandoning(c.candidates.Keys + s.jobs.running.Keys)))) else None
    case AbandonPublish =>
      if c.pc.Abandoning?
      then Some(s.(ctl := c.(suppressed := Some(c.pc.all), pc := Done(Outcome(false, |c.pc.all|, true))))) else None
  }

  function Step(s: State, e: Event): Option<State> {
    match e
    case OfJob(j) => JobStep(s, j)
    case OfLoop(l) => LoopStep(s, l)
    case OfPeer(p) => PeerStep(s, p)
    case OfDrain(d) => DrainStep(s, d)
  }

  function Exec(s: State, es: seq<Event>): Option<State>
    decreases |es|
  {
    if es == [] then Some(s)
    else match Step(s, es[0])
      case None => None
      case Some(next) => Exec(next, es[1..])
  }

  /** `t` is reached from `s` by some interleaving. */
  ghost predicate Leads(s: State, t: State) {
    exists es: seq<Event> :: Exec(s, es) == Some(t)
  }

  ghost predicate Reachable(s: State) {
    Leads(INIT, s)
  }

  /** The server has handled the JobResult of instance `i`. */
  predicate Processed(s: State, i: Instance) {
    s.peer.processed <= |s.pipe.wire| && JobResult(i) in s.pipe.wire[..s.peer.processed]
  }

  function Unprocessed(s: State): set<Instance> {
    set i: Instance | 0 <= i < |s.jobs.ids| && !Processed(s, i)
  }
}
