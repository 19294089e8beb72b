// What a batch's verdict says about the server: the accounting over the interleaved submissions.
module BatchRuns {
  import opened Common
  import opened Completion
  import opened Jobs
  import opened ExecuteExt

  /** A set succeeds only after its call returned; it may still fail then, while its response is built. */
  predicate Outcome(c: Client, run: Ran) { run.Succeeded? ==> c.progress.Done? }

  predicate Outcomes(s: System, runs: seq<Ran>) {
    && |runs| == |s.clients|
    && forall i :: 0 <= i < |runs| ==> Outcome(s.clients[i], runs[i])
  }

  predicate Schedules(schedule: seq<(nat, Attempt)>, n: nat) {
    forall k :: 0 <= k < |schedule| ==> schedule[k].0 < n
  }

  /** The whole call: one client per variable set under a minted id, their attempts interleaved in
      any way, then the accounting of their outcomes in any completion order. An aggregated batch
      ran every statement exactly once and saw each of them finish well. An incomplete one ran every
      statement at most once, and exactly once each of those it does not name. */
  method RunBatch(ids: seq<JobId>, retries: nat, schedule: seq<(nat, Attempt)>, runs: seq<Ran>, completion: seq<nat>)
    returns (b: Batch, jobs: seq<Job>)
    requires Distinct(ids) && Schedules(schedule, |ids|)
    requires Outcomes(TryAll(Start(ids, retries), schedule), runs)
    requires IsOrderOf(completion, |ids|)
    ensures jobs == TryAll(Start(ids, retries), schedule).jobs
    ensures b.Aggregated? <==> AllSucceed(runs)
    ensures b.Aggregated? ==> b.succeeded == |ids| && forall i :: 0 <= i < |ids| ==> Runs(jobs, i) == 1
    ensures b.Aggregated? ==> forall i :: 0 <= i < |ids| ==> SucceededOnce(Start(ids, retries), schedule, i)
    ensures b.Incomplete? ==>
      && b.failed == Failures(runs) && b.failed != {}
      && forall i :: 0 <= i < |ids| ==> Runs(jobs, i) <= 1 && (i !in b.failed ==> Runs(jobs, i) == 1)
  {
    RunsOfBatch(ids, retries, schedule, runs);
    jobs := TryAll(Start(ids, retries), schedule).jobs;
    b := ExecuteBatch(runs, completion);
  }

  /** Every statement of a batch runs at most once, and exactly once if its set succeeded. */
  lemma {:induction false} RunsOfBatch(ids: seq<JobId>, retries: nat, schedule: seq<(nat, Attempt)>, runs: seq<Ran>)
    requires Distinct(ids) && Schedules(schedule, |ids|)
    requires Outcomes(TryAll(Start(ids, retries), schedule), runs)
    ensures |runs| == |ids|
    ensures var jobs := TryAll(Start(ids, retries), schedule).jobs;
      forall i :: 0 <= i < |ids| ==> Runs(jobs, i) <= 1 && (runs[i].Succeeded? ==> Runs(jobs, i) == 1)
    ensures forall i :: 0 <= i < |ids| && runs[i].Succeeded? ==> SucceededOnce(Start(ids, retries), schedule, i)
  {
    var s' := TryAll(Start(ids, retries), schedule);
    StartIsOk(ids, retries);
    ClientsStay(Start(ids, retries), schedule);
    forall i | 0 <= i < |ids|
      ensures Runs(s'.jobs, i) <= 1
      ensures runs[i].Succeeded? ==> Runs(s'.jobs, i) == 1 && SucceededOnce(Start(ids, retries), schedule, i)
    {
      AtMostOnce(Start(ids, retries), schedule, i);
      assert Outcome(s'.clients[i], runs[i]);
    }
  }

  lemma {:induction false} ClientsStay(s: System, schedule: seq<(nat, Attempt)>)
    requires Schedules(schedule, |s.clients|)
    ensures |TryAll(s, schedule).clients| == |s.clients|
    decreases |schedule|
  {
    if schedule != [] { ClientsStay(Try(s, schedule[0].0, schedule[0].1), schedule[1..]); }
  }

  /** "At most once" cannot be improved to "not at all" for the sets a batch names: with any budget,
      a permanent error in the reply to a request that arrived fails the set although its statement ran. */
  lemma FailedSetMayHaveRun(id: JobId, retries: nat, copies: nat, error: Jobs.Error)
    requires copies > 0 && !error.retryable
    ensures var s' := TryAll(Start([id], retries), [(0, Attempt(copies, Some(error), None, None, [], false, false))]);
      |s'.clients| == 1 && s'.clients[0].progress.GaveUp? && Runs(s'.jobs, 0) == 1
  {
    var a := Attempt(copies, Some(error), None, None, [], false, false);
    var s := Start([id], retries);
    assert TryAll(s, [(0, a)]) == Try(s, 0, a) by { assert [(0, a)][1..] == []; }
    DeliverRuns([], Job(id, 0), copies, 0, id);
  }
}
