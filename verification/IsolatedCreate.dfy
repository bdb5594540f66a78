/** Creates retried under ambiguous commits, and the isolated job pod built on them.
    A failed attempt may have been committed before its reply was lost. */
module IsolatedCreate {
  import opened Wrappers

  /** What one create attempt meets. Answered: the API server replies truthfully.
      Otherwise the reply is an error and `lands` says whether the server committed
      the object all the same. */
  datatype Attempt =
    | Answered
    | Transient(lands: bool)    // backpressure: retried
    | CtxError(lands: bool)     // the attempt itself ends with the context's error
    | OtherError(lands: bool)   // any other error: not retried

  /** How createWithBackoff returns. Ambiguous is an error wrapping errCreateAmbiguous,
      CtxEnded a context error without that mark. */
  datatype CreateEnd = Created | Adopted | Collision | Ambiguous | CtxEnded | OtherFailure

  /** The end, whether the object is there, and whether one of our attempts put it there. */
  datatype Tried = Tried(end: CreateEnd, present: bool, ours: bool)

  predicate Succeeded(end: CreateEnd) {
    end.Created? || end.Adopted?
  }

  /** Returned as an error the caller does not reconcile. */
  predicate Unmarked(end: CreateEnd) {
    end.Collision? || end.CtxEnded? || end.OtherFailure?
  }

  predicate Lands(a: Attempt) {
    !a.Answered? && a.lands
  }

  /** The attempts in order. When they run out the context ends during the sleep. */
  function TryCreate(present: bool, ours: bool, first: bool, ambiguous: bool, script: seq<Attempt>): Tried
    decreases |script|
  {
    var ctx := if ambiguous then Ambiguous else CtxEnded;
    if script == [] then Tried(ctx, present, ours)
    else
      var a := script[0];
      var present' := present || Lands(a);
      var ours' := ours || (Lands(a) && !present);
      match a
      case Answered => if !present then Tried(Created, true, true) else Tried(if first then Collision else Adopted, true, ours)
      case Transient(_) => TryCreate(present', ours', false, true, script[1..])
      case CtxError(_) => Tried(ctx, present', ours')
      case OtherError(_) => Tried(OtherFailure, present', ours')
  }

  /** createWithBackoff on a name that is or is not `present`. */
  function Create(present: bool, script: seq<Attempt>): Tried {
    TryCreate(present, false, true, false, script)
  }

  /** The attempts actually made: up to the first that is not retried. */
  function Made(script: seq<Attempt>): (made: seq<Attempt>)
    ensures made <= script
    ensures forall k | 0 <= k < |made| - 1 :: made[k].Transient?
    ensures script != [] ==> made != []
  {
    if script == [] then []
    else if script[0].Transient? then [script[0]] + Made(script[1..])
    else [script[0]]
  }

  predicate SomeLanded(made: seq<Attempt>) {
    exists a <- made :: Lands(a)
  }

  function Last(made: seq<Attempt>): Attempt
    requires made != []
  {
    made[|made| - 1]
  }

  // ------------------------------------------------------------- properties

  /** Everything about a call at once, from any point of it. */
  lemma {:induction false} TryFacts(present: bool, ours: bool, first: bool, ambiguous: bool, script: seq<Attempt>)
    requires ours ==> present
    ensures var (t, made) := (TryCreate(present, ours, first, ambiguous, script), Made(script));
      && (t.ours ==> t.present)
      && (Succeeded(t.end) ==> t.present)
      && ((present ==> ours) ==> (t.present ==> t.ours))
      && (present && !ours ==> !t.ours)
      && (t.end.CtxEnded? <==> !ambiguous && (made == [] || (|made| == 1 && made[0].CtxError?)))
      && (t.end.OtherFailure? <==> made != [] && Last(made).OtherError?)
      && (t.end.Collision? <==> first && present && made != [] && made[0].Answered?)
      && (Succeeded(t.end) <==> !t.end.Collision? && made != [] && Last(made).Answered?)
      && (!Succeeded(t.end) ==> (t.present <==> present || SomeLanded(made)))
    decreases |script|
  {
    if script != [] && script[0].Transient? {
      var (a, rest) := (script[0], script[1..]);
      TryFacts(present || Lands(a), ours || (Lands(a) && !present), false, true, rest);
      var made := Made(script);
      assert made == [a] + Made(rest);
      assert forall x :: x in made <==> x == a || x in Made(rest);
    }
  }

  /** A nil return for a name that was absent: the object exists and one of this
      call's own attempts committed it. */
  lemma SuccessIsOurs(script: seq<Attempt>)
    requires Succeeded(Create(false, script).end)
    ensures Create(false, script).present && Create(false, script).ours
  {
    TryFacts(false, false, true, false, script);
  }

  /** Why the name must be unique: a stranger's object is reported as our success
      exactly when an attempt was transient before the server answered. */
  lemma StrangerIsAdoptedIff(script: seq<Attempt>)
    ensures !Create(true, script).ours
    ensures Succeeded(Create(true, script).end) <==> |Made(script)| > 1 && Last(Made(script)).Answered?
  {
    TryFacts(true, false, true, false, script);
  }

  /** A context-ended error without the mark: no attempt was transient, so at most
      one was made. */
  lemma UnmarkedMeansNotTransient(present: bool, script: seq<Attempt>)
    requires Create(present, script).end.CtxEnded?
    ensures |Made(script)| <= 1 && forall a <- Made(script) :: !a.Transient?
  {
    TryFacts(present, false, true, false, script);
  }

  /** The object of a failed create that no caller reconciles. For an absent name it
      is left behind exactly when some attempt landed and the call ended with an
      ordinary error, or its only attempt was cut short by the context but landed. */
  lemma UnreconciledIff(script: seq<Attempt>)
    ensures var (t, made) := (Create(false, script), Made(script));
      Unmarked(t.end) && t.present <==>
        made != [] && SomeLanded(made) && (Last(made).OtherError? || (|made| == 1 && made[0].CtxError?))
  {
    TryFacts(false, false, true, false, script);
  }

  /** The shortest failures of both kinds: the only attempt is cut off by the context but was committed; or it was
      committed under a transient reply, and the retry meets an ordinary error. */
  lemma ObjectsAreLeftBehind()
    ensures var t := Create(false, [CtxError(true)]); t.end.CtxEnded? && t.present && t.ours
    ensures var t := Create(false, [Transient(true), OtherError(false)]); t.end.OtherFailure? && t.present && t.ours
    ensures var t := Create(false, [OtherError(true)]); t.end.OtherFailure? && t.present && t.ours
  {
    var script := [Transient(true), OtherError(false)];
    assert script[1..] == [OtherError(false)];
    assert TryCreate(true, true, false, true, script[1..]) == Tried(OtherFailure, true, true);
  }

  /** In particular nothing is left unreconciled when ordinary errors only come first
      and errors other than backpressure never land. */
  lemma NothingUnreconciled(script: seq<Attempt>)
    requires forall a <- script :: Lands(a) ==> a.Transient?
    requires forall k | 0 < k < |script| :: !script[k].OtherError?
    ensures !(Unmarked(Create(false, script).end) && Create(false, script).present)
  {
    UnreconciledIff(script);
    var made := Made(script);
    if made != [] && SomeLanded(made) {
      var a :| a in made && Lands(a);
      var k :| 0 <= k < |made| && made[k] == a;
      assert script[k] in script && Last(made) == script[|made| - 1];
    }
  }

  /** On an absent name: what is there is ours, and success means that it is there. */
  lemma CreateFacts(script: seq<Attempt>)
    ensures var t := Create(false, script);
      && (t.present <==> t.ours) && (Succeeded(t.end) ==> t.present) && !t.end.Collision?
  {
    TryFacts(false, false, true, false, script);
  }

  // ------------------------------------------------ the isolated job pod

  /** Everything CreateIsolatedJobPod meets outside the agent. A failed owner patch
      may have been applied; `deletes` says whether best-effort deletes succeed. */
  datatype World = World(isolated: bool, payloadOk: bool, secretTries: seq<Attempt>, specOk: bool,
                         podTries: seq<Attempt>, getOk: bool, patchOk: bool, patchLands: bool, deletes: bool)

  datatype JobObjects = NoPod | PodOnly(uid: nat) | PodAndSecret(uid: nat, secretName: string)

  class Cluster {
    /** Each secret with the uid of its owner, and each pod with its uid. */
    var secrets: map<string, Option<nat>>
    var pods: map<string, nat>
    var nextUid: nat

    constructor ()
      ensures secrets == map[] && pods == map[]
    {
      secrets, pods, nextUid := map[], map[], 0;
    }

    /** createWithBackoff around the secret create. */
    method CreateSecret(name: string, script: seq<Attempt>) returns (end: CreateEnd)
      modifies this`secrets
      ensures var t := Create(name in old(secrets), script);
        && end == t.end
        && secrets == if t.ours then old(secrets)[name := None] else old(secrets)
    {
      var i, ambiguous := 0, false;
      ghost var ours := false;
      while i < |script|
        invariant 0 <= i <= |script|
        invariant secrets == if ours then old(secrets)[name := None] else old(secrets)
        invariant ours ==> name !in old(secrets)
        invariant TryCreate(name in secrets, ours, i == 0, ambiguous, script[i..]) == Create(name in old(secrets), script)
      {
        var a := script[i];
        var taken := name in secrets;
        if (a.Answered? || a.lands) && !taken {
          secrets, ours := secrets[name := None], true;
        }
        match a {
          case Answered => return if !taken then Created else if i == 0 then Collision else Adopted;
          case Transient(_) => ambiguous := true;
          case CtxError(_) => return if ambiguous then Ambiguous else CtxEnded;
          case OtherError(_) => return OtherFailure;
        }
        assert script[i..][1..] == script[i + 1..];
        i := i + 1;
      }
      return if ambiguous then Ambiguous else CtxEnded;
    }

    /** createWithBackoff around the pod create; `got` is the pod of a direct reply. */
    method CreatePod(name: string, script: seq<Attempt>) returns (end: CreateEnd, got: Option<nat>)
      modifies this`pods, this`nextUid
      ensures var t := Create(name in old(pods), script);
        && end == t.end
        && pods == (if t.ours then old(pods)[name := old(nextUid)] else old(pods))
        && got == (if t.end.Created? then Some(old(nextUid)) else None)
    {
      got := None;
      var i, ambiguous := 0, false;
      ghost var ours := false;
      while i < |script|
        invariant 0 <= i <= |script| && got == None
        invariant pods == if ours then old(pods)[name := old(nextUid)] else old(pods)
        invariant ours ==> name !in old(pods)
        invariant !ours ==> nextUid == old(nextUid)
        invariant TryCreate(name in pods, ours, i == 0, ambiguous, script[i..]) == Create(name in old(pods), script)
      {
        var a := script[i];
        var taken := name in pods;
        if (a.Answered? || a.lands) && !taken {
          pods, ours := pods[name := nextUid], true;
          if a.Answered? { got := Some(nextUid); }
          nextUid := nextUid + 1;
        }
        match a {
          case Answered => return if !taken then Created else if i == 0 then Collision else Adopted, got;
          case Transient(_) => ambiguous := true;
          case CtxError(_) => return if ambiguous then Ambiguous else CtxEnded, None;
          case OtherError(_) => return OtherFailure, None;
        }
        assert script[i..][1..] == script[i + 1..];
        i := i + 1;
      }
      return if ambiguous then Ambiguous else CtxEnded, None;
    }

    method BestEffortDeleteSecret(name: string, works: bool)
      modifies this`secrets
      ensures secrets == if works then old(secrets) - {name} else old(secrets)
    {
      if works {
        secrets := secrets - {name};
      }
    }

    /** CreateIsolatedJobPod under a pod name that nobody else uses. With working
        deletes a secret without an owner is left behind exactly when the secret
        create failed unreconciled, and a pod without a caller exactly when the pod
        create did or the adopted pod could not be read back. */
    method CreateIsolatedJobPod(podName: string, w: World) returns (r: JobObjects, failed: bool)
      requires podName !in pods && podName + "-assignment" !in secrets
      modifies this
      ensures !failed ==>
                && r.PodAndSecret? && r.secretName == podName + "-assignment"
                && podName in pods && pods[podName] == r.uid
                && r.secretName in secrets && secrets[r.secretName] == Some(r.uid)
      ensures failed ==> !r.PodAndSecret?
      ensures
        var (s, p) := (Create(false, w.secretTries), Create(false, w.podTries));
        var there := && w.isolated && w.payloadOk && Succeeded(s.end) && w.specOk && Succeeded(p.end)
                     && (p.end.Created? || w.getOk);
        && (!failed <==> there && w.patchOk)
        && (r.PodOnly? <==> there && !w.patchOk)
      ensures r.PodOnly? ==> podName in pods && pods[podName] == r.uid
      ensures
        var (name, s, p) := (podName + "-assignment", Create(false, w.secretTries), Create(false, w.podTries));
        var building := w.isolated && w.payloadOk;
        w.deletes ==>
          && (name in secrets && secrets[name] == None <==> building && Unmarked(s.end) && s.present)
          && (r.NoPod? && podName in pods <==>
                building && Succeeded(s.end) && w.specOk && ((Unmarked(p.end) && p.present) || (p.end.Adopted? && !w.getOk)))
      ensures forall n <- old(secrets) :: n in secrets && secrets[n] == old(secrets)[n]
      ensures forall n <- old(pods) :: n in pods && pods[n] == old(pods)[n]
    {
      hide Create;
      if !w.isolated || !w.payloadOk {
        return NoPod, true;
      }
      var secretName := podName + "-assignment";
      CreateFacts(w.secretTries);
      CreateFacts(w.podTries);
      var end := CreateSecret(secretName, w.secretTries);
      if !Succeeded(end) {
        if end.Ambiguous? {
          BestEffortDeleteSecret(secretName, w.deletes);
        }
        return NoPod, true;
      }
      if !w.specOk {
        BestEffortDeleteSecret(secretName, w.deletes);
        return NoPod, true;
      }
      var podEnd, got := CreatePod(podName, w.podTries);
      if !Succeeded(podEnd) {
        BestEffortDeleteSecret(secretName, w.deletes);
        if podEnd.Ambiguous? && w.deletes {
          pods := pods - {podName};
        }
        return NoPod, true;
      }
      if got == None {
        if !w.getOk {
          BestEffortDeleteSecret(secretName, w.deletes);
          return NoPod, true;
        }
        got := Some(pods[podName]);
      }
      if w.patchOk || w.patchLands {
        secrets := secrets[secretName := got];
      }
      if !w.patchOk {
        BestEffortDeleteSecret(secretName, w.deletes);
        return PodOnly(got.value), true;
      }
      return PodAndSecret(got.value, secretName), false;
    }
  }
}
