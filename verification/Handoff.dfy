/** SIGTERM racing with the establishment of the stream: the watcher that aborts a blocked Register or
    Connect, and the handoff that disarms it (agent/internal/rpc/client.go). Each critical section under
    estMu is one event. */
module Handoff {
  import opened Wrappers

  datatype RunPc =
    | Registering
    | Connecting
    | Connected(ok: bool)     // Connect has returned, the mutex not taken yet
    | Aborted                 // an error in hand, the trigger not looked at yet
    | Streaming
    | Ended                   // the drain or a lost connection has closed the established stream
    | Exited(clean: bool)

  datatype Watcher = Watching | Woken | Finished

  /** `cancelled` is the watcher's cancelEst, `parentDone` the end of the process context. */
  datatype State = State(run: RunPc, watcher: Watcher, established: bool, cancelled: bool, triggered: bool, parentDone: bool)

  const INIT := State(Registering, Watching, false, false, false, false)

  datatype Event =
    | Trigger | ParentEnds | Wake | Cancel
    | Registered(ok: bool) | ConnectReturns(ok: bool) | HandOver | LookAtTrigger | StreamEnds

  function Step(s: State, e: Event): Option<State> {
    match e
    case Trigger => Some(s.(triggered := true))
    case ParentEnds => Some(s.(parentDone := true))
    case Wake => if s.watcher.Watching? && s.triggered then Some(s.(watcher := Woken)) else None
    case Cancel =>
      if s.watcher.Woken? then Some(s.(watcher := Finished, cancelled := s.cancelled || !s.established)) else None
    case Registered(ok) => if s.run.Registering? then Some(s.(run := if ok then Connecting else Aborted)) else None
    case ConnectReturns(ok) => if s.run.Connecting? then Some(s.(run := Connected(ok))) else None
    case HandOver =>
      if !s.run.Connected? then None
      else if s.run.ok && !s.cancelled && !s.parentDone then Some(s.(run := Streaming, established := true))
      else Some(s.(run := Aborted))
    case LookAtTrigger => if s.run.Aborted? then Some(s.(run := Exited(s.triggered))) else None
    case StreamEnds => if s.run.Streaming? then Some(s.(run := Ended)) else None
  }

  function Exec(s: State, es: seq<Event>): Option<State>
    decreases |es|
  {
    if es == [] then Some(s)
    else match Step(s, es[0])
      case None => None
      case Some(next) => Exec(next, es[1..])
  }

  predicate Inv(s: State) {
    && (s.established <==> s.run.Streaming? || s.run.Ended?)
    && !(s.established && s.cancelled)
    && (s.cancelled || s.watcher.Woken? ==> s.triggered)
  }

  lemma {:induction false} ExecKeepsInv(s: State, es: seq<Event>, t: State)
    requires Inv(s) && Exec(s, es) == Some(t)
    ensures Inv(t)
    decreases |es|
  {
    if es != [] {
      ExecKeepsInv(Step(s, es[0]).value, es[1..], t);
    }
  }

  /** One winner in every interleaving: an established stream is never cancelled by the trigger, and a
      stream the trigger has cancelled is never established. */
  lemma OneWinner(es: seq<Event>, t: State)
    requires Exec(INIT, es) == Some(t)
    ensures !((t.run.Streaming? || t.run.Ended?) && t.cancelled)
    ensures t.cancelled ==> t.triggered
  {
    ExecKeepsInv(INIT, es, t);
  }

  /** Who wins is decided by who takes the mutex first: a connected stream is established exactly unless it has been
      cancelled before, by the trigger or by the end of the process; and the watcher that was woken cancels
      exactly unless the stream is established. */
  lemma FirstOneWins(es: seq<Event>, s: State)
    requires Exec(INIT, es) == Some(s)
    ensures s.run == Connected(true) ==>
              var t := Step(s, HandOver);
              t.Some? && (t.value.established <==> !s.cancelled && !s.parentDone)
              && (if t.value.established then t.value.run.Streaming? else t.value.run.Aborted?)
    ensures s.watcher.Woken? ==>
              var t := Step(s, Cancel);
              t.Some? && t.value.watcher.Finished? && (t.value.cancelled <==> s.cancelled || !s.established)
    ensures s.run.Aborted? ==> Step(s, LookAtTrigger).Some? && Step(s, LookAtTrigger).value.run == Exited(s.triggered)
  {
    ExecKeepsInv(INIT, es, s);
  }

  /** Without a trigger, and while the process lives, a stream that can be had is had. */
  lemma {:induction false} QuietStartStreams(s: State, es: seq<Event>, t: State)
    requires Inv(s) && Exec(s, es) == Some(t) && !s.cancelled && !s.parentDone && !s.triggered
    requires Trigger !in es && ParentEnds !in es && Registered(false) !in es && ConnectReturns(false) !in es
    requires !s.run.Aborted? && !s.run.Exited? && s.run != Connected(false)
    ensures !t.run.Aborted? && !t.run.Exited?
    decreases |es|
  {
    if es != [] {
      assert es == [es[0]] + es[1..];
      ExecKeepsInv(s, es[..1], Step(s, es[0]).value) by {
        assert es[..1] == [es[0]] && [es[0]][1..] == [];
      }
      QuietStartStreams(Step(s, es[0]).value, es[1..], t);
    }
  }

  /** Once the trigger has won, the run can only end in a clean exit. */
  lemma {:induction false} TriggerFirstExitsClean(s: State, es: seq<Event>, t: State)
    requires Inv(s) && s.cancelled && !s.run.Exited? && Exec(s, es) == Some(t)
    ensures !t.run.Streaming? && !t.run.Ended? && t.cancelled && (t.run.Exited? ==> t.run.clean)
    decreases |es|
  {
    if es != [] {
      var next := Step(s, es[0]).value;
      if next.run.Exited? {
        ExitIsFinal(next, es[1..], t);
        ExecKeepsInv(next, es[1..], t);
      } else {
        TriggerFirstExitsClean(next, es[1..], t);
      }
    }
  }

  lemma {:induction false} ExitIsFinal(s: State, es: seq<Event>, t: State)
    requires s.run.Exited? && Exec(s, es) == Some(t)
    ensures t.run == s.run && (s.cancelled ==> t.cancelled)
    decreases |es|
  {
    if es != [] {
      ExitIsFinal(Step(s, es[0]).value, es[1..], t);
    }
  }

  /** Once the stream has won no trigger cancels it, before or after it ends, and only its own end ends it. */
  lemma {:induction false} StreamFirstSurvives(s: State, es: seq<Event>, t: State)
    requires Inv(s) && s.established && Exec(s, es) == Some(t)
    ensures !t.cancelled && t.established
    ensures s.run.Streaming? ==> (t.run.Streaming? <==> StreamEnds !in es)
    decreases |es|
  {
    if es != [] {
      var next := Step(s, es[0]).value;
      StreamFirstSurvives(next, es[1..], t);
      assert es == [es[0]] + es[1..];
      if next.run.Ended? {
        EndIsFinal(next, es[1..], t);
      }
    }
  }

  lemma {:induction false} EndIsFinal(s: State, es: seq<Event>, t: State)
    requires s.run.Ended? && Exec(s, es) == Some(t)
    ensures t.run.Ended?
    decreases |es|
  {
    if es != [] {
      EndIsFinal(Step(s, es[0]).value, es[1..], t);
    }
  }
}
