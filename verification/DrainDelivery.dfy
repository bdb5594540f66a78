/** What the drain protocol delivers: nothing that is handed over and not suppressed is lost or reordered on its
    way to the wire, as long as the stream lives. */
module DrainDelivery {
  import opened Wrappers
  import opened Drain
  import opened DrainInvariant
  import opened DrainTheorems

  // ----------------------------------------------------------- the FIFO law

  /** The messages of a queue, without its barriers. */
  function Messages(queue: seq<Item>): seq<Message> {
    if queue == [] then [] else (if queue[0].Item? then [queue[0].msg] else []) + Messages(queue[1..])
  }

  /** Those that the suppression in force lets through. */
  function Kept(ids: seq<JobId>, suppressed: Option<set<JobId>>, ms: seq<Message>): seq<Message> {
    if ms == [] then []
    else (if IsSuppressed(ids, suppressed, ms[0]) then [] else [ms[0]]) + Kept(ids, suppressed, ms[1..])
  }

  /** Handed over and not checked yet. */
  function Unchecked(p: Pipe): seq<Message> {
    (if p.loop.Holding? then [p.loop.msg] else []) + Messages(p.queue)
  }

  function Checked(p: Pipe): seq<Message> {
    p.wire + (if p.loop.Cleared? then [p.loop.msg] else [])
  }

  /** What is on the wire or must still get there, in order. */
  function Due(s: State): seq<Message> {
    Checked(s.pipe) + Kept(s.jobs.ids, s.ctl.suppressed, Unchecked(s.pipe))
  }

  /** What an event hands over to the FIFO. */
  function Given(s: State, e: Event): seq<Message> {
    if e.OfJob? && e.job.Enqueue? && e.job.job < |s.jobs.phases| && s.jobs.phases[e.job.job].Blocked?
    then [s.jobs.phases[e.job.job].msg]
    else if e == OfJob(OtherTraffic) && |s.pipe.queue| < OUTBOUND_CAP then [Other]
    else []
  }

  lemma Associate<T>(a: seq<T>, b: seq<T>, c: seq<T>)
    ensures a + (b + c) == (a + b) + c
  {
  }

  lemma MessagesFirst(x: Item, rest: seq<Item>)
    ensures Messages([x] + rest) == (if x.Item? then [x.msg] else []) + Messages(rest)
  {
    assert ([x] + rest)[1..] == rest;
  }

  lemma {:induction false} MessagesPush(queue: seq<Item>, x: Item)
    ensures Messages(queue + [x]) == Messages(queue) + if x.Item? then [x.msg] else []
    decreases |queue|
  {
    if queue == [] {
      MessagesFirst(x, []);
      assert [] + [x] == [x] + [];
    } else {
      var y, rest := queue[0], queue[1..];
      MessagesFirst(y, rest);
      MessagesFirst(y, rest + [x]);
      hide Messages;
      assert queue == [y] + rest && queue + [x] == [y] + (rest + [x]);
      MessagesPush(rest, x);
    }
  }

  lemma KeptCons(ids: seq<JobId>, sup: Option<set<JobId>>, m: Message, rest: seq<Message>)
    ensures Kept(ids, sup, [m] + rest) == (if IsSuppressed(ids, sup, m) then [] else [m]) + Kept(ids, sup, rest)
  {
    hide IsSuppressed;
    assert ([m] + rest)[1..] == rest;
  }

  lemma {:induction false} KeptConcat(ids: seq<JobId>, sup: Option<set<JobId>>, a: seq<Message>, b: seq<Message>)
    ensures Kept(ids, sup, a + b) == Kept(ids, sup, a) + Kept(ids, sup, b)
    decreases |a|
  {
    hide IsSuppressed;
    if a == [] {
      KeptNothing(ids, sup);
      assert a + b == b;
    } else {
      hide Kept;
      var m, rest := a[0], a[1..];
      KeptCons(ids, sup, m, rest);
      KeptCons(ids, sup, m, rest + b);
      assert a == [m] + rest && a + b == [m] + (rest + b);
      KeptConcat(ids, sup, rest, b);
      Associate(if IsSuppressed(ids, sup, m) then [] else [m], Kept(ids, sup, rest), Kept(ids, sup, b));
    }
  }

  lemma {:induction false} AllKept(ids: seq<JobId>, ms: seq<Message>)
    ensures Kept(ids, None, ms) == ms
    decreases |ms|
  {
    if ms != [] {
      AllKept(ids, ms[1..]);
    }
  }

  /** The check moves a message on, or drops it if the suppression in force names it. */
  lemma CheckKeepsDue(s: State, t: State)
    requires LoopStep(s, CheckSuppressed) == Some(t)
    ensures Due(t) == Due(s)
  {
    var p, rest := s.pipe, Messages(s.pipe.queue);
    hide Messages;
    assert Unchecked(p) == [p.loop.msg] + rest;
    assert ([p.loop.msg] + rest)[1..] == rest;
    assert t.pipe.queue == p.queue && Unchecked(t.pipe) == rest;
    hide IsSuppressed;
  }

  /** The loop loses exactly what the suppression in force names. */
  lemma LoopKeepsDue(s: State, e: LoopEvent, t: State)
    requires LoopStep(s, e) == Some(t) && !Lossy(t) && (s.pipe.sendClosed ==> s.pipe.loop == Halted)
    ensures Due(t) == Due(s)
  {
    if e == CheckSuppressed {
      CheckKeepsDue(s, t);
    } else {
      hide IsSuppressed;
      hide Kept;
      assert Checked(t.pipe) == Checked(s.pipe);
      assert Unchecked(t.pipe) == Unchecked(s.pipe);
    }
  }

  /** Jobs add what they hand over, and nothing else. */
  lemma JobExtendsDue(s: State, e: JobEvent, t: State)
    requires JobStep(s, e) == Some(t) && !Lossy(t) && (s.ctl.suppressed.Some? ==> s.ctl.draining)
    ensures Due(t) == Due(s) + Kept(t.jobs.ids, t.ctl.suppressed, Given(s, OfJob(e)))
  {
    var ids, sup := s.jobs.ids, s.ctl.suppressed;
    hide IsSuppressed;
    hide Kept;
    assert Kept(t.jobs.ids, sup, []) == [] by {
      KeptNothing(t.jobs.ids, sup);
    }
    if t.pipe != s.pipe {
      var given := Given(s, OfJob(e));
      assert t.pipe.queue[|s.pipe.queue|].Item? && given == [t.pipe.queue[|s.pipe.queue|].msg];
      MessagesPush(s.pipe.queue, t.pipe.queue[|s.pipe.queue|]);
      assert Unchecked(t.pipe) == Unchecked(s.pipe) + given;
      KeptConcat(ids, sup, Unchecked(s.pipe), given);
    } else if t.jobs.ids != s.jobs.ids {
      AllKept(s.jobs.ids, Unchecked(s.pipe));
      AllKept(t.jobs.ids, Unchecked(s.pipe));
    }
  }

  lemma KeptNothing(ids: seq<JobId>, sup: Option<set<JobId>>)
    ensures Kept(ids, sup, []) == []
  {
  }

  lemma PushBarrier(p: Pipe, k: BarrierKind)
    ensures Unchecked(Push(p, Barrier(k))) == Unchecked(p) && Checked(Push(p, Barrier(k))) == Checked(p)
  {
    MessagesPush(p.queue, Barrier(k));
    hide Messages;
  }

  lemma OthersPushBarriers(s: State, e: Event, t: State)
    requires (e.OfPeer? || e.OfDrain?) && Step(s, e) == Some(t)
    ensures t.jobs == s.jobs && (t.pipe == s.pipe || t.pipe in {Push(s.pipe, Barrier(Cutoff)), Push(s.pipe, Barrier(Last))})
  {
  }

  lemma OthersKeepDue(s: State, e: Event, t: State)
    requires (e.OfPeer? || e.OfDrain?) && Step(s, e) == Some(t) && t.ctl.suppressed == s.ctl.suppressed
    ensures Due(t) == Due(s)
  {
    OthersPushBarriers(s, e, t);
    PushBarrier(s.pipe, Cutoff);
    PushBarrier(s.pipe, Last);
    hide Step;
    hide Kept;
    hide Checked;
    hide Unchecked;
  }

  /** Every step of every part: what is due stays due, in order, and what is handed over becomes due unless it is
      suppressed. */
  lemma StepKeepsDue(s: State, e: Event, t: State)
    requires ControlOk(s.ctl) && BarriersOk(s.pipe, s.ctl)
    requires Step(s, e) == Some(t) && t.ctl.suppressed == s.ctl.suppressed && !Lossy(t)
    ensures Due(t) == Due(s) + Kept(t.jobs.ids, t.ctl.suppressed, Given(s, e))
  {
    hide Due;
    KeptNothing(t.jobs.ids, t.ctl.suppressed);
    match e
    case OfJob(j) => JobExtendsDue(s, j, t);
    case OfLoop(l) => LoopKeepsDue(s, l, t);
    case _ => OthersKeepDue(s, e, t);
  }

  /** Everything a run hands over. */
  function GivenBy(s: State, es: seq<Event>): seq<Message>
    requires Exec(s, es).Some?
    decreases |es|
  {
    if es == [] then [] else Given(s, es[0]) + GivenBy(Step(s, es[0]).value, es[1..])
  }

  lemma LossStays(s: State, e: Event, t: State)
    requires Step(s, e) == Some(t)
    ensures Lossy(s) ==> Lossy(t)
    ensures s.ctl.suppressed.Some? ==> t.ctl.suppressed.Some?
  {
  }

  lemma {:induction false} DrainingStays(s: State, es: seq<Event>, t: State)
    requires Exec(s, es) == Some(t)
    ensures Lossy(s) ==> Lossy(t)
    ensures s.ctl.suppressed.Some? ==> t.ctl.suppressed.Some?
    decreases |es|
  {
    hide Step;
    hide Lossy;
    if es != [] {
      LossStays(s, es[0], Step(s, es[0]).value);
      DrainingStays(Step(s, es[0]).value, es[1..], t);
    }
  }

  /** The FIFO law over whole runs: while nothing is suppressed and the stream lives, the wire, the message in the
      send loop and the queue together are what was there before and then, in order and exactly once, everything
      that was handed over. */
  lemma {:induction false} NothingIsLost(s: State, es: seq<Event>, t: State)
    requires Inv(s) && Exec(s, es) == Some(t) && t.ctl.suppressed == None && !Lossy(t)
    ensures Due(t) == Due(s) + GivenBy(s, es)
    decreases |es|
  {
    hide Step;
    hide Inv;
    hide Due;
    hide Lossy;
    if es != [] {
      var next := Step(s, es[0]).value;
      DrainingStays(s, [], s);
      DrainingStays(next, es[1..], t);
      StepFromQuiet(s, es[0], next);
      AllKept(next.jobs.ids, Given(s, es[0]));
      NothingIsLost(next, es[1..], t);
    }
  }

  lemma StepFromQuiet(s: State, e: Event, t: State)
    requires Inv(s) && Step(s, e) == Some(t) && t.ctl.suppressed == None && !Lossy(t)
    ensures Inv(t) && Due(t) == Due(s) + Kept(t.jobs.ids, None, Given(s, e))
  {
    LossStays(s, e, t);
    InvParts(s);
    hide Step;
    hide Due;
    hide Inv;
    hide Lossy;
    StepKeepsInv(s, e, t);
    StepKeepsDue(s, e, t);
  }

  lemma InvParts(s: State)
    requires Inv(s)
    ensures ControlOk(s.ctl) && BarriersOk(s.pipe, s.ctl) && BlockedOk(s.jobs)
  {
  }

  lemma InvAtStart()
    ensures Inv(INIT) && Due(INIT) == []
  {
    assert Exec(INIT, []) == Some(INIT);
    ReachableInv(INIT);
  }

  /** So what is sent is always a prefix of what was handed over, and all of it once the FIFO is empty. */
  lemma SentInOrder(es: seq<Event>, t: State)
    requires Exec(INIT, es) == Some(t) && t.ctl.suppressed == None && !Lossy(t)
    ensures t.pipe.wire <= GivenBy(INIT, es)
    ensures t.pipe.queue == [] && !t.pipe.loop.Holding? && !t.pipe.loop.Cleared? ==> t.pipe.wire == GivenBy(INIT, es)
  {
    InvAtStart();
    hide Exec;
    hide Inv;
    hide Due;
    NothingIsLost(INIT, es, t);
    WireIsDue(t);
  }

  lemma WireIsDue(t: State)
    ensures t.pipe.wire <= Due(t)
    ensures t.pipe.queue == [] && !t.pipe.loop.Holding? && !t.pipe.loop.Cleared? ==> t.pipe.wire == Due(t)
  {
    hide IsSuppressed;
  }

  // ------------------------------------------------- from the job to the wire

  function OfInstance(ms: seq<Message>, i: Instance): seq<Message> {
    if ms == [] then [] else (if IsOutput(ms[0]) && ms[0].job == i then [ms[0]] else []) + OfInstance(ms[1..], i)
  }

  function Waiting(j: Jobs, i: Instance): seq<Message> {
    if i < |j.phases| && j.phases[i].Blocked? then [j.phases[i].msg] else []
  }

  /** What a job has produced in a run. */
  function Produced(es: seq<Event>, i: Instance): seq<Message> {
    if es == [] then []
    else (if es[0].OfJob? && es[0].job.Offer? && es[0].job.job == i then [es[0].job.msg] else []) + Produced(es[1..], i)
  }

  lemma OfInstanceCons(m: Message, rest: seq<Message>, i: Instance)
    ensures OfInstance([m] + rest, i) == (if IsOutput(m) && m.job == i then [m] else []) + OfInstance(rest, i)
  {
    assert ([m] + rest)[1..] == rest;
  }

  lemma {:induction false} OfInstanceConcat(a: seq<Message>, b: seq<Message>, i: Instance)
    ensures OfInstance(a + b, i) == OfInstance(a, i) + OfInstance(b, i)
    decreases |a|
  {
    if a == [] {
      assert a + b == b;
    } else {
      var m, rest := a[0], a[1..];
      OfInstanceCons(m, rest, i);
      OfInstanceCons(m, rest + b, i);
      hide OfInstance;
      assert a == [m] + rest && a + b == [m] + (rest + b);
      OfInstanceConcat(rest, b, i);
      Associate(if IsOutput(m) && m.job == i then [m] else [], OfInstance(rest, i), OfInstance(b, i));
    }
  }

  /** Offering never discards, and only the job's own handing over empties its hands. */
  lemma OfferedOrHandedOver(s: State, e: Event, t: State, i: Instance)
    requires BlockedOk(s.jobs) && Step(s, e) == Some(t) && s.ctl.suppressed == None && !t.peer.torn
    ensures OfInstance(Given(s, e), i) + Waiting(t.jobs, i) == Waiting(s.jobs, i) + Produced([e], i)
  {
    hide WellTracked;
    OfOne(Given(s, e), i);
    ProducedByOne(e, i);
    hide OfInstance;
    hide Produced;
    match e
    case OfJob(j) => JobHandsOver(s, j, t, i);
    case OfLoop(_) => LoopLeavesJobs(s, e, t);
    case _ => OthersPushBarriers(s, e, t);
  }

  lemma LoopLeavesJobs(s: State, e: Event, t: State)
    requires e.OfLoop? && Step(s, e) == Some(t)
    ensures t.jobs == s.jobs
  {
  }

  /** The job's hands before and after one of the job events. */
  lemma JobHandsOver(s: State, e: JobEvent, t: State, i: Instance)
    requires BlockedOk(s.jobs) && JobStep(s, e) == Some(t) && s.ctl.suppressed == None && !t.peer.torn
    ensures
      var (given, offered) := (Given(s, OfJob(e)), e.Offer? && e.job == i);
      && |given| <= 1
      && (if given != [] && IsOutput(given[0]) && given[0].job == i then given else []) + Waiting(t.jobs, i)
         == Waiting(s.jobs, i) + (if offered then [e.msg] else [])
  {
    hide WellTracked;
  }

  lemma OfOne(given: seq<Message>, i: Instance)
    requires |given| <= 1
    ensures OfInstance(given, i) == if given != [] && IsOutput(given[0]) && given[0].job == i then given else []
  {
    if given != [] {
      assert given[1..] == [];
    }
  }

  lemma ProducedByOne(e: Event, i: Instance)
    ensures Produced([e], i) == if e.OfJob? && e.job.Offer? && e.job.job == i then [e.job.msg] else []
  {
    assert [e][1..] == [];
  }

  /** From the job to the wire: while nothing is suppressed and the stream lives, all output of a job, its reports
      as well as its result, is on the wire, on its way or in the job's hands, in the order of production and
      exactly once. */
  lemma {:induction false} OutputIsCarried(s: State, es: seq<Event>, t: State, i: Instance)
    requires Inv(s) && Exec(s, es) == Some(t) && t.ctl.suppressed == None && !Lossy(t)
    ensures OfInstance(Due(t), i) + Waiting(t.jobs, i) == OfInstance(Due(s), i) + Waiting(s.jobs, i) + Produced(es, i)
    decreases |es|
  {
    hide Step;
    hide Inv;
    hide Due;
    hide Lossy;
    hide Waiting;
    hide OfInstance;
    if es != [] {
      var next, given := Step(s, es[0]).value, Given(s, es[0]);
      DrainingStays(next, es[1..], t);
      StepFromQuiet(s, es[0], next);
      AllKept(next.jobs.ids, given);
      QuietFacts(s, es[0], next);
      OfferedOrHandedOver(s, es[0], next, i);
      OfInstanceConcat(Due(s), given, i);
      OutputIsCarried(next, es[1..], t, i);
      ProducedByOne(es[0], i);
      Regroup(OfInstance(Due(s), i), OfInstance(given, i), Waiting(next.jobs, i), Waiting(s.jobs, i),
              Produced([es[0]], i), Produced(es[1..], i));
    }
  }

  lemma Regroup<T>(due: seq<T>, given: seq<T>, now: seq<T>, before: seq<T>, one: seq<T>, rest: seq<T>)
    requires given + now == before + one
    ensures (due + given) + now + rest == due + before + (one + rest)
  {
    assert (due + given) + now + rest == due + (given + now) + rest;
    assert due + before + (one + rest) == due + (before + one) + rest;
  }

  lemma QuietFacts(s: State, e: Event, t: State)
    requires Inv(s) && Step(s, e) == Some(t) && t.ctl.suppressed == None && !Lossy(t)
    ensures BlockedOk(s.jobs) && s.ctl.suppressed == None && !t.peer.torn
  {
    LossStays(s, e, t);
    InvParts(s);
    hide Step;
    hide Inv;
  }

  /** From the start: what a job has produced is what has been sent of it, then what is on its way. */
  lemma ProducedIsDelivered(es: seq<Event>, t: State, i: Instance)
    requires Exec(INIT, es) == Some(t) && t.ctl.suppressed == None && !Lossy(t)
    ensures OfInstance(Due(t), i) + Waiting(t.jobs, i) == Produced(es, i)
    ensures t.pipe.queue == [] && !t.pipe.loop.Holding? && !t.pipe.loop.Cleared? && Waiting(t.jobs, i) == [] ==>
              OfInstance(t.pipe.wire, i) == Produced(es, i)
  {
    InvAtStart();
    hide Exec;
    hide Inv;
    hide Due;
    hide OfInstance;
    hide Produced;
    hide Waiting;
    OutputIsCarried(INIT, es, t, i);
    WireIsDue(t);
    NothingOf(i);
  }

  lemma NothingOf(i: Instance)
    ensures OfInstance([], i) == [] && Waiting(INIT.jobs, i) == []
  {
  }

  /** And a dispatched id that is not running starts, unless the drain has begun. */
  lemma DispatchStarts(s: State, id: JobId)
    requires Inv(s) && !s.ctl.draining && id !in s.jobs.running
    ensures var t := Step(s, OfJob(Dispatch(id)));
      && t.Some? && Inv(t.value)
      && t.value.jobs.running == s.jobs.running[id := |s.jobs.ids|]
      && t.value.jobs.ids == s.jobs.ids + [id] && t.value.jobs.phases[|s.jobs.ids|] == Working
      && t.value.pipe == s.pipe && t.value.peer == s.peer && t.value.ctl == s.ctl
  {
    StepKeepsInv(s, OfJob(Dispatch(id)), Step(s, OfJob(Dispatch(id))).value);
  }

  // ------------------------------------------------------- the loop gets on

  /** The send loop is never stuck on a message: it sends it, or drops it if the suppression in force names it. */
  lemma SendsNext(s: State) returns (t: State)
    requires s.pipe.loop == Idle && s.pipe.queue != [] && s.pipe.queue[0].Item?
    ensures Leads(s, t) && t.jobs == s.jobs && t.peer == s.peer && t.ctl == s.ctl
    ensures t.pipe.loop == Idle && t.pipe.queue == s.pipe.queue[1..] && t.pipe.sendClosed == s.pipe.sendClosed
    ensures var m := s.pipe.queue[0].msg;
            t.pipe.wire == s.pipe.wire + if IsSuppressed(s.jobs.ids, s.ctl.suppressed, m) then [] else [m]
  {
    var s1 := Step(s, OfLoop(Dequeue)).value;
    OneStep(s, OfLoop(Dequeue), s1);
    var s2 := Step(s1, OfLoop(CheckSuppressed)).value;
    OneStep(s1, OfLoop(CheckSuppressed), s2);
    LeadsTransitive(s, s1, s2);
    t := s2;
    if !IsSuppressed(s.jobs.ids, s.ctl.suppressed, s.pipe.queue[0].msg) {
      var s3 := Step(s2, OfLoop(SendOk)).value;
      OneStep(s2, OfLoop(SendOk), s3);
      t := Step(s3, OfLoop(MarkTerminal)).value;
      OneStep(s3, OfLoop(MarkTerminal), t);
      LeadsTransitive(s, s2, s3);
      LeadsTransitive(s, s3, t);
    }
  }

  lemma OneStep(s: State, e: Event, t: State)
    requires Step(s, e) == Some(t)
    ensures Leads(s, t)
  {
    hide Step;
    assert [e][1..] == [] && Exec(t, []) == Some(t);
    assert Exec(s, [e]) == Some(t);
  }

  /** From any state in which the loop is idle, and up to the next barrier, the whole FIFO can be sent: exactly
      what the suppression in force lets through, in order. */
  lemma {:induction false} CanFlush(s: State) returns (t: State)
    requires s.pipe.loop == Idle && forall x <- s.pipe.queue :: x.Item?
    ensures Leads(s, t) && t.jobs == s.jobs && t.peer == s.peer && t.ctl == s.ctl
    ensures t.pipe.loop == Idle && t.pipe.queue == []
    ensures t.pipe.wire == s.pipe.wire + Kept(s.jobs.ids, s.ctl.suppressed, Messages(s.pipe.queue))
    decreases |s.pipe.queue|
  {
    hide IsSuppressed;
    hide Step;
    hide Kept;
    hide Messages;
    if s.pipe.queue == [] {
      KeptNothing(s.jobs.ids, s.ctl.suppressed);
      assert Messages([]) == [] by {
        NothingQueued();
      }
      t := s;
      assert Exec(s, []) == Some(s);
    } else {
      assert s.pipe.queue[0] in s.pipe.queue;
      var next := SendsNext(s);
      t := CanFlush(next);
      LeadsTransitive(s, next, t);
      KeptFirst(s.jobs.ids, s.ctl.suppressed, s.pipe.queue);
    }
  }

  lemma NothingQueued()
    ensures Messages([]) == []
  {
  }

  lemma KeptFirst(ids: seq<JobId>, sup: Option<set<JobId>>, queue: seq<Item>)
    requires queue != [] && queue[0].Item?
    ensures Kept(ids, sup, Messages(queue))
            == (if IsSuppressed(ids, sup, queue[0].msg) then [] else [queue[0].msg]) + Kept(ids, sup, Messages(queue[1..]))
  {
    hide IsSuppressed;
    var rest := Messages(queue[1..]);
    assert Messages(queue) == [queue[0].msg] + rest;
    assert ([queue[0].msg] + rest)[1..] == rest;
  }

  /** A working job can hand over any output that is not suppressed, as soon as there is room. */
  lemma CanHandOver(s: State, i: Instance, m: Message) returns (t: State)
    requires i < |s.jobs.phases| == |s.jobs.ids| && s.jobs.phases[i] == Working && IsOutput(m) && m.job == i
    requires |s.pipe.queue| < OUTBOUND_CAP && !IsSuppressed(s.jobs.ids, s.ctl.suppressed, m)
    ensures Leads(s, t) && t.peer == s.peer && t.ctl == s.ctl
    ensures t.jobs == SetPhase(s.jobs, i, AfterOffer(m))
    ensures t.pipe == Push(s.pipe, Item(m, if m.JobResult? then Lookup(s.jobs.running, s.jobs.ids[i]) else None))
  {
    var s1 := Step(s, OfJob(Offer(i, m))).value;
    OneStep(s, OfJob(Offer(i, m)), s1);
    t := Step(s1, OfJob(Enqueue(i))).value;
    OneStep(s1, OfJob(Enqueue(i)), t);
    LeadsTransitive(s, s1, t);
  }

  // ------------------------------------------- a drain can always end confirmed

  lemma AndThen(s: State, t: State, e: Event, u: State)
    requires Leads(s, t) && Step(t, e) == Some(u)
    ensures Leads(s, u)
  {
    hide Step;
    OneStep(t, e, u);
    LeadsTransitive(s, t, u);
  }

  lemma LeadsToItself(s: State)
    ensures Leads(s, s)
  {
    assert Exec(s, []) == Some(s);
  }

  /** The loop finishes with the message it has. */
  lemma ToIdle(s: State) returns (t: State)
    requires !s.pipe.loop.Parked? && !s.pipe.loop.Halted?
    ensures Leads(s, t) && t.jobs == s.jobs && t.peer == s.peer && t.ctl == s.ctl
    ensures t.pipe.loop == Idle && t.pipe.queue == s.pipe.queue && t.pipe.sendClosed == s.pipe.sendClosed
    ensures s.pipe.wire <= t.pipe.wire && t.pipe.reached == s.pipe.reached
  {
    LeadsToItself(s);
    t := s;
    if t.pipe.loop.Holding? {
      var next := Step(t, OfLoop(CheckSuppressed)).value;
      AndThen(s, t, OfLoop(CheckSuppressed), next);
      t := next;
    }
    if t.pipe.loop.Cleared? {
      var next := Step(t, OfLoop(SendOk)).value;
      AndThen(s, t, OfLoop(SendOk), next);
      t := next;
    }
    if t.pipe.loop.Sent? {
      var next := Step(t, OfLoop(MarkTerminal)).value;
      AndThen(s, t, OfLoop(MarkTerminal), next);
      t := next;
    }
  }

  /** The server catches up with the wire. */
  lemma {:induction false} ProcessAll(s: State) returns (t: State)
    requires s.peer.processed <= |s.pipe.wire|
    ensures Leads(s, t) && t == s.(peer := s.peer.(processed := |s.pipe.wire|))
    decreases |s.pipe.wire| - s.peer.processed
  {
    if s.peer.processed == |s.pipe.wire| {
      LeadsToItself(s);
      t := s;
    } else {
      var next := Step(s, OfPeer(Process)).value;
      OneStep(s, OfPeer(Process), next);
      t := ProcessAll(next);
      LeadsTransitive(s, next, t);
    }
  }

  /** The FIFO is empty and the loop idle; the budget is still running. */
  predicate AtRest(s: State) {
    && s.ctl.pc == Budget && s.ctl.suppressed == None && s.ctl.released == {}
    && s.pipe.queue == [] && s.pipe.loop == Idle && !s.pipe.sendClosed
    && s.peer.recvEnd == None && !s.peer.torn && s.peer.processed <= |s.pipe.wire|
  }

  lemma ToRest(s: State) returns (t: State)
    requires Inv(s) && s.ctl.pc.Budget? && !Lossy(s) && s.peer.recvEnd == None
    ensures Leads(s, t) && AtRest(t) && t.jobs == s.jobs && Inv(t)
  {
    BudgetFacts(s);
    hide Inv;
    var idle := ToIdle(s);
    TwoBarriers(idle.pipe);
    t := CanFlush(idle);
    LeadsTransitive(s, idle, t);
    var es: seq<Event> :| Exec(s, es) == Some(t);
    ExecKeepsInv(s, es, t);
    BudgetFacts(t);
  }

  lemma TwoBarriers(p: Pipe)
    ensures p.loop.Parked? ==> p.loop == Parked(Cutoff) || p.loop == Parked(Last)
    ensures forall x <- p.queue :: x.Item? || x == Barrier(Cutoff) || x == Barrier(Last)
    ensures p.reached <= {Cutoff, Last}
  {
    forall k <- p.reached ensures k in {Cutoff, Last} {
      assert k == Cutoff || k == Last;
    }
    forall x <- p.queue ensures x.Item? || x == Barrier(Cutoff) || x == Barrier(Last) {
      if x.Barrier? {
        assert x.kind == Cutoff || x.kind == Last;
      }
    }
    if p.loop.Parked? {
      assert p.loop.kind == Cutoff || p.loop.kind == Last;
    }
  }

  lemma BudgetFacts(s: State)
    requires Inv(s) && s.ctl.pc.Budget? && !s.peer.torn
    ensures !s.pipe.loop.Parked? && !s.pipe.sendClosed && (!Lossy(s) ==> !s.pipe.loop.Halted?)
    ensures Barrier(Cutoff) !in s.pipe.queue && Barrier(Last) !in s.pipe.queue
    ensures s.ctl.suppressed == None && s.ctl.released == {} && s.peer.processed <= |s.pipe.wire|
  {
    assert ControlOk(s.ctl) && BarriersOk(s.pipe, s.ctl) && EofOk(s);
    assert Cutoff !in s.pipe.reached && Last !in s.pipe.reached;
    TwoBarriers(s.pipe);
    assert s.ctl.released <= {Cutoff, Last};
  }

  /** From the final barrier on: the barrier is reached and released, the loop closes its side, the server processes
      the whole wire, ends the stream, and the drain confirms. */
  lemma ClosesConfirmed(s: State) returns (t: State)
    requires s.ctl.pc in {CleanEnqueue, FinalEnqueue} && (s.ctl.pc == FinalEnqueue ==> s.ctl.suppressed.Some?)
    requires s.pipe.queue == [] && s.pipe.loop == Idle && !s.peer.torn && s.peer.recvEnd == None
    requires s.peer.processed <= |s.pipe.wire|
    ensures Leads(s, t)
    ensures t.ctl.pc == Done(if s.ctl.pc == CleanEnqueue then Outcome(true, 0, false)
                             else Outcome(false, |s.ctl.suppressed.value|, false))
  {
    LeadsToItself(s);
    var s1 := Step(s, OfDrain(EnqueueBarrier)).value;
    AndThen(s, s, OfDrain(EnqueueBarrier), s1);
    assert s1.pipe.queue == [Barrier(Last)];
    var s2 := Step(s1, OfLoop(Dequeue)).value;
    AndThen(s, s1, OfLoop(Dequeue), s2);
    var s3 := Step(s2, OfDrain(Release)).value;
    AndThen(s, s2, OfDrain(Release), s3);
    var s4 := Step(s3, OfLoop(Resume)).value;
    AndThen(s, s3, OfLoop(Resume), s4);
    t := ServerCloses(s4);
    LeadsTransitive(s, s4, t);
  }

  lemma ServerCloses(s: State) returns (t: State)
    requires s.ctl.pc in {CleanEof, FinalEof} && (s.ctl.pc == FinalEof ==> s.ctl.suppressed.Some?)
    requires s.pipe.sendClosed && !s.peer.torn && s.peer.recvEnd == None && s.peer.processed <= |s.pipe.wire|
    ensures Leads(s, t)
    ensures t.ctl.pc == Done(if s.ctl.pc == CleanEof then Outcome(true, 0, false)
                             else Outcome(false, |s.ctl.suppressed.value|, false))
  {
    var s1 := ProcessAll(s);
    var s2 := Step(s1, OfPeer(ServerEof)).value;
    AndThen(s, s1, OfPeer(ServerEof), s2);
    t := Step(s2, OfDrain(Confirm)).value;
    AndThen(s, s2, OfDrain(Confirm), t);
  }

  /** From any reachable state: as long as the stream lives, a drain whose jobs have all finished can end clean. */
  lemma CleanDrainCanFinish(s: State) returns (t: State)
    requires Reachable(s) && s.ctl.pc.Budget? && !Lossy(s) && s.peer.recvEnd == None
    requires forall i | 0 <= i < |s.jobs.phases| :: s.jobs.phases[i] == Gone
    ensures Leads(s, t) && t.ctl.pc == Done(Outcome(true, 0, false))
  {
    ReachableInv(s);
    var rest := ToRest(s);
    hide Inv;
    var s1 := Step(rest, OfDrain(AllFinished)).value;
    AndThen(s, rest, OfDrain(AllFinished), s1);
    t := ClosesConfirmed(s1);
    LeadsTransitive(s, s1, t);
  }

  /** And a drain whose budget expires can end in the server's EOF, with whatever jobs are still running. Then it
      reports exactly the jobs whose result was not processed (TimeoutEofIsExact). */
  lemma TimedOutDrainCanFinish(s: State) returns (t: State)
    requires Reachable(s) && s.ctl.pc.Budget? && !Lossy(s) && s.peer.recvEnd == None
    ensures Leads(s, t) && t.ctl.suppressed.Some? && t.ctl.pc == Done(Outcome(false, |t.ctl.suppressed.value|, false))
  {
    ReachableInv(s);
    var rest := ToRest(s);
    hide Inv;
    var final := PassesCutoff(rest);
    LeadsTransitive(s, rest, final);
    t := ClosesConfirmed(final);
    LeadsTransitive(s, final, t);
    var es: seq<Event> :| Exec(final, es) == Some(t);
    SameSuppression(s, t);
  }

  lemma SameSuppression(s: State, t: State)
    requires Reachable(s) && Leads(s, t) && t.ctl.pc.Done? && !t.ctl.pc.outcome.clean && !t.ctl.pc.outcome.flushTimedOut
    ensures t.ctl.suppressed.Some? && t.ctl.pc.outcome.running == |t.ctl.suppressed.value|
  {
    hide Exec;
    LeadsTransitive(INIT, s, t);
    ReachableInv(t);
    assert ControlOk(t.ctl);
  }

  lemma PassesCutoff(s: State) returns (t: State)
    requires AtRest(s)
    ensures Leads(s, t) && t.ctl.pc == FinalEnqueue && t.ctl.suppressed.Some?
    ensures t.pipe.queue == [] && t.pipe.loop == Idle && t.peer == s.peer && t.pipe.wire == s.pipe.wire
  {
    LeadsToItself(s);
    var s1 := Step(s, OfDrain(Snapshot)).value;
    AndThen(s, s, OfDrain(Snapshot), s1);
    var s2 := Step(s1, OfDrain(EnqueueBarrier)).value;
    AndThen(s, s1, OfDrain(EnqueueBarrier), s2);
    assert s2.pipe.queue == [Barrier(Cutoff)];
    var s3 := Step(s2, OfLoop(Dequeue)).value;
    AndThen(s, s2, OfLoop(Dequeue), s3);
    var s4 := Step(s3, OfDrain(Publish)).value;
    AndThen(s, s3, OfDrain(Publish), s4);
    t := PassesRelease(s4);
    LeadsTransitive(s, s4, t);
  }

  lemma PassesRelease(s: State) returns (t: State)
    requires s.ctl.pc == Published && s.ctl.suppressed.Some? && s.pipe.queue == [] && s.pipe.loop == Parked(Cutoff)
    ensures Leads(s, t) && t.ctl.pc == FinalEnqueue && t.ctl.suppressed == s.ctl.suppressed
    ensures t.pipe.queue == [] && t.pipe.loop == Idle && t.peer == s.peer && t.pipe.wire == s.pipe.wire
  {
    LeadsToItself(s);
    var s1 := Step(s, OfDrain(Release)).value;
    AndThen(s, s, OfDrain(Release), s1);
    var s2 := Step(s1, OfLoop(Resume)).value;
    AndThen(s, s1, OfLoop(Resume), s2);
    t := Step(s2, OfDrain(JobsAwaited)).value;
    AndThen(s, s2, OfDrain(JobsAwaited), t);
  }
}
