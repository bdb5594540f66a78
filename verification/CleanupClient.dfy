/** The client object whose fields the cleanup pool's critical sections update in
    place. Each method is one critical section (or, for RunCleanup, one worker's hold
    of a run) and is tied to the transition functions of CleanupPool. */
module CleanupClient {
  import opened CleanupPool

  /** What happens during one engine call: the ceilings that arrive for the same run
      while it is in flight, and whether it succeeds. */
  datatype Pass = Pass(arrivals: seq<int>, ok: bool)

  class Client {
    var cleanupQueue: seq<RunId>
    var cleanupPending: set<RunId>
    var cleanupMaxGen: map<RunId, int>
    ghost var accepted: map<RunId, seq<int>>

    ghost function View(): Pool
      reads this
    {
      Pool(cleanupQueue, cleanupPending, cleanupMaxGen, accepted)
    }

    constructor ()
      ensures View() == Init(0, true).pool
    {
      cleanupQueue, cleanupPending, cleanupMaxGen, accepted := [], {}, map[], map[];
    }

    /** The cleanup is not ignored or dropped. */
    predicate Accepts(run: RunId)
      reads this
    {
      run != "" && (run in cleanupPending || |cleanupQueue| < QUEUE_CAP)
    }

    /** The dispatcher's critical section, whole: Accept and Record of CleanupPool. */
    method EnqueueRunCleanup(run: RunId, maxGeneration: int)
      modifies this
      ensures View() == EnqueueSpec(old(View()), run, maxGeneration)
      ensures old(Accepts(run)) && CeilingIsMax(old(View())) ==>
                && run in cleanupPending && run in cleanupMaxGen
                && run in accepted && maxGeneration in accepted[run] && IsMax(cleanupMaxGen[run], accepted[run])
      ensures run in old(cleanupPending) ==> cleanupQueue == old(cleanupQueue) && cleanupPending == old(cleanupPending)
      ensures !old(Accepts(run)) ==> View() == old(View())
    {
      if run == "" {
        return;
      }
      if run in cleanupPending {
        if maxGeneration > Get(cleanupMaxGen, run, 0) {
          cleanupMaxGen := cleanupMaxGen[run := maxGeneration];
        }
        accepted := accepted[run := Get(accepted, run, []) + [maxGeneration]];
        return;
      }
      if |cleanupQueue| < QUEUE_CAP {
        cleanupQueue := cleanupQueue + [run];
        cleanupPending := cleanupPending + {run};
        cleanupMaxGen := cleanupMaxGen[run := maxGeneration];
        accepted := accepted[run := [maxGeneration]];
      }
    }

    method ClearCleanupEntry(run: RunId)
      modifies this`cleanupPending, this`cleanupMaxGen
      ensures View() == DeleteEntry(old(View()), run)
    {
      cleanupPending := cleanupPending - {run};
      cleanupMaxGen := cleanupMaxGen - {run};
    }

    /** The dispatcher coalescing `gens` into a run that is being processed. */
    method Arrive(run: RunId, gens: seq<int>)
      requires run != "" && run in cleanupPending && CeilingIsMax(View())
      modifies this
      ensures CeilingIsMax(View())
      ensures cleanupQueue == old(cleanupQueue) && cleanupPending == old(cleanupPending)
      ensures cleanupMaxGen - {run} == old(cleanupMaxGen) - {run}
      ensures run in accepted && accepted[run] == old(accepted)[run] + gens && accepted - {run} == old(accepted) - {run}
    {
      for i := 0 to |gens|
        invariant cleanupQueue == old(cleanupQueue) && cleanupPending == old(cleanupPending) && CeilingIsMax(View())
        invariant cleanupMaxGen - {run} == old(cleanupMaxGen) - {run}
        invariant run in accepted && accepted[run] == old(accepted)[run] + gens[..i]
        invariant accepted - {run} == old(accepted) - {run}
      {
        EnqueueRunCleanup(run, gens[i]);
        assert gens[..i + 1] == gens[..i] + [gens[i]];
      }
      assert gens[..|gens|] == gens;
    }

    /** runCleanup: engine calls with a rising ceiling until it is stable. `passes`
        describes the calls in order; beyond it nothing arrives and calls succeed. */
    method RunCleanup(run: RunId, hasEngine: bool, passes: seq<Pass>) returns (calls: seq<int>, ok: bool)
      requires run != "" && run in cleanupPending && CeilingIsMax(View())
      modifies this
      ensures cleanupQueue == old(cleanupQueue)
      ensures cleanupPending == old(cleanupPending) - {run} && cleanupMaxGen == old(cleanupMaxGen) - {run}
      ensures CeilingIsMax(View())
      ensures run in accepted && old(accepted)[run] <= accepted[run] && accepted - {run} == old(accepted) - {run}
      ensures !hasEngine ==> calls == [] && accepted == old(accepted)
      ensures Increasing(calls) && forall g <- calls :: g in accepted[run]
      ensures hasEngine && ok ==> forall g <- accepted[run] :: g <= LastOr(calls, -1)
      ensures !ok ==> 0 < |calls| <= |passes| && !passes[|calls| - 1].ok
      ensures forall k | 0 <= k < |calls| && k < |passes| && !passes[k].ok :: !ok && k == |calls| - 1
      ensures hasEngine ==> (calls != [] <==> old(cleanupMaxGen)[run] >= 0)
      ensures calls != [] ==> calls[0] == old(cleanupMaxGen)[run]
    {
      calls, ok := [], true;
      if !hasEngine {
        ClearCleanupEntry(run);
        return;
      }
      var processed := -1;
      while true
        invariant cleanupQueue == old(cleanupQueue) && cleanupPending == old(cleanupPending)
        invariant cleanupMaxGen - {run} == old(cleanupMaxGen) - {run}
        invariant run in accepted && old(accepted)[run] <= accepted[run] && accepted - {run} == old(accepted) - {run}
        invariant CeilingIsMax(View()) && ok
        invariant processed == LastOr(calls, -1)
        invariant Increasing(calls) && forall g <- calls :: g in accepted[run]
        invariant |calls| > |passes| ==> cleanupMaxGen[run] <= processed
        invariant forall k | 0 <= k < |calls| && k < |passes| :: passes[k].ok
        invariant if calls == [] then cleanupMaxGen == old(cleanupMaxGen) else calls[0] == old(cleanupMaxGen)[run] >= 0
        decreases |passes| - |calls|
      {
        var maxGeneration := cleanupMaxGen[run];
        if maxGeneration <= processed {
          ClearCleanupEntry(run);
          return;
        }
        var n := |calls|;
        if calls != [] { assert calls[n - 1] == processed; }
        calls := calls + [maxGeneration];
        if n < |passes| {
          Arrive(run, passes[n].arrivals);
          if !passes[n].ok {
            ok := false;
            ClearCleanupEntry(run);
            return;
          }
        }
        processed := maxGeneration;
      }
    }
  }
}
