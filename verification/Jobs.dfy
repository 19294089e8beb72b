// Query submission under one stable job id, with a retry budget, over a lossy network.
module Jobs {
  import opened Common

  type JobId = string
  type Statement = nat

  datatype Job = Job(id: JobId, stmt: Statement)

  datatype Error = Error(retryable: bool, connectionReset: bool)

  /** What the network and the server do during one attempt.
      delivered: copies of the insert request that reach the server (the transport may resend)
      failure:   the reply to the last copy is lost or is an error other than 409
      attach, result: errors of `get_job` and of waiting for the result
      others:    jobs that other statements create meanwhile
      reopenFails, deadlinePassed: what happens between this attempt and the next */
  datatype Attempt = Attempt(delivered: nat, failure: Option<Error>, attach: Option<Error>, result: Option<Error>,
                             others: seq<Job>, reopenFails: bool, deadlinePassed: bool)

  predicate Exists(jobs: seq<Job>, id: JobId) {
    exists k :: 0 <= k < |jobs| && jobs[k].id == id
  }

  /** `jobs.insert`: the first request with an id creates and runs a job, later ones get 409. */
  function Insert(jobs: seq<Job>, job: Job): seq<Job> {
    if Exists(jobs, job.id) then jobs else jobs + [job]
  }

  function Deliver(jobs: seq<Job>, job: Job, copies: nat): seq<Job> {
    if copies == 0 then jobs else Insert(Deliver(jobs, job, copies - 1), job)
  }

  datatype Seen = Created | Conflict | Lost(error: Error)

  /** What the client sees of the submission. */
  function Submitted(jobs: seq<Job>, job: Job, a: Attempt): Seen {
    if a.failure.Some? then Lost(a.failure.value)
    else if a.delivered == 0 then Lost(Error(true, true))
    else if !Exists(Deliver(jobs, job, a.delivered - 1), job.id) then Created
    else Conflict
  }

  /** The jobs after an attempt. */
  function JobsAfter(jobs: seq<Job>, job: Job, a: Attempt): seq<Job> {
    Deliver(jobs, job, a.delivered) + a.others
  }

  /** `_query_and_results`: submit or attach, then wait; None is success. */
  function AttemptError(jobs: seq<Job>, job: Job, a: Attempt): Option<Error> {
    match Submitted(jobs, job, a)
    case Lost(e) => Some(e)
    case Created => a.result
    case Conflict => if a.attach.Some? then a.attach else a.result
  }

  // ---- what an attempt comes to, on its own outcomes -------------------------------------------

  /** The client finds the id in use: by earlier attempts, or by an earlier copy of this request. */
  predicate FindsTaken(a: Attempt, taken: bool) { taken || a.delivered > 1 }

  /** The reply arrived, the job could be attached to where the id was in use, and it finished well. */
  predicate Succeeds(a: Attempt, taken: bool) {
    && a.delivered > 0 && a.failure.None? && a.result.None?
    && (FindsTaken(a, taken) ==> a.attach.None?)
  }

  /** e is what went wrong first: the submission, the attaching, or the job itself. */
  predicate FailsWith(a: Attempt, taken: bool, e: Error) {
    || a.failure == Some(e)
    || (a.failure.None? && a.delivered == 0 && e == Error(true, true))
    || (a.failure.None? && a.delivered > 0 && FindsTaken(a, taken) && a.attach == Some(e))
    || (a.failure.None? && a.delivered > 0 && (FindsTaken(a, taken) ==> a.attach.None?) && a.result == Some(e))
  }

  /** After the error e of attempt a there may be another attempt: the error passes, a connection it
      reset is open again, and time is left. */
  predicate MayGoOn(a: Attempt, e: Error) {
    e.retryable && !(e.connectionReset && a.reopenFails) && !a.deadlinePassed
  }

  /** An attempt returns the job exactly if it succeeds, and otherwise raises what went wrong first. */
  lemma AttemptVerdict(jobs: seq<Job>, job: Job, a: Attempt)
    ensures AttemptError(jobs, job, a).None? <==> Succeeds(a, Exists(jobs, job.id))
    ensures forall e :: AttemptError(jobs, job, a) == Some(e) <==> FailsWith(a, Exists(jobs, job.id), e)
  {
    if a.delivered > 0 {
      DeliverOnce(jobs, job, a.delivered - 1);
      ExistsAppend(jobs, [job], job.id);
      RunsOne(job, job.stmt);
    }
  }

  /** How often jobs of a statement ran. */
  function Runs(jobs: seq<Job>, stmt: Statement): nat {
    if jobs == [] then 0
    else Runs(jobs[..|jobs| - 1], stmt) + if jobs[|jobs| - 1].stmt == stmt then 1 else 0
  }

  lemma {:induction false} RunsAppend(a: seq<Job>, b: seq<Job>, stmt: Statement)
    ensures Runs(a + b, stmt) == Runs(a, stmt) + Runs(b, stmt)
  {
    if b == [] {
      assert a + b == a;
    } else {
      RunsAppend(a, b[..|b| - 1], stmt);
      assert (a + b)[..|a + b| - 1] == a + b[..|b| - 1];
    }
  }

  lemma {:induction false} NoRuns(jobs: seq<Job>, stmt: Statement)
    requires forall k :: 0 <= k < |jobs| ==> jobs[k].stmt != stmt
    ensures Runs(jobs, stmt) == 0
  {
    if jobs != [] { NoRuns(jobs[..|jobs| - 1], stmt); }
  }

  /** Any number of copies of one request amounts to one insertion, and to none if the id is taken. */
  lemma {:induction false} DeliverOnce(jobs: seq<Job>, job: Job, copies: nat)
    ensures Deliver(jobs, job, copies) == if copies == 0 || Exists(jobs, job.id) then jobs else jobs + [job]
  {
    if copies > 0 {
      DeliverOnce(jobs, job, copies - 1);
      assert (jobs + [job])[|jobs|].id == job.id;
    }
  }

  lemma ExistsAppend(a: seq<Job>, b: seq<Job>, id: JobId)
    ensures Exists(a + b, id) <==> Exists(a, id) || Exists(b, id)
  {
    var all := a + b;
    if Exists(all, id) {
      var k :| 0 <= k < |all| && all[k].id == id;
      assert if k < |a| then a[k].id == id else b[k - |a|].id == id;
    }
    if Exists(a, id) {
      var k :| 0 <= k < |a| && a[k].id == id;
      assert all[k].id == id;
    }
    if Exists(b, id) {
      var k :| 0 <= k < |b| && b[k].id == id;
      assert all[|a| + k].id == id;
    }
  }

  lemma {:induction false} RunsOne(job: Job, stmt: Statement)
    ensures Runs([job], stmt) == if job.stmt == stmt then 1 else 0
    ensures forall id :: Exists([job], id) <==> job.id == id
  {
    assert [job][..0] == [];
    assert [job][0] == job;
  }

  /** So it runs the statement at most once, and only if its id was new. */
  lemma {:induction false} DeliverRuns(jobs: seq<Job>, job: Job, copies: nat, stmt: Statement, id: JobId)
    ensures var jobs' := Deliver(jobs, job, copies);
      && Runs(jobs', stmt) == Runs(jobs, stmt) +
           (if stmt == job.stmt && copies > 0 && !Exists(jobs, job.id) then 1 else 0)
      && (Exists(jobs', id) <==> Exists(jobs, id) || (copies > 0 && id == job.id))
  {
    DeliverOnce(jobs, job, copies);
    RunsAppend(jobs, [job], stmt);
    ExistsAppend(jobs, [job], id);
    RunsOne(job, stmt);
  }

  // ---- the retry budget -----------------------------------------------------

  /** Whether one more error, after `errors` counted ones, is retried. */
  predicate Retries(retries: nat, errors: nat, error: Error) {
    error.retryable && errors < retries
  }

  /** Whether the connection is usable and time is left after a retried error. */
  predicate CanGoOn(error: Error, a: Attempt) {
    !(error.connectionReset && a.reopenFails) && !a.deadlinePassed
  }

  /** `_DeferredException`: counts all errors, not just retryable ones. */
  class DeferredException {
    const retries: nat
    var errorCount: nat

    constructor (retries: nat)
      ensures this.retries == retries && errorCount == 0
    {
      this.retries, errorCount := retries, 0;
    }

    method Call(error: Error) returns (again: bool)
      modifies this
      ensures errorCount == if retries == 0 then old(errorCount) else old(errorCount) + 1
      ensures again <==> error.retryable && old(errorCount) < retries
    {
      if retries == 0 { return false; }
      errorCount := errorCount + 1;
      again := error.retryable && errorCount <= retries;
    }
  }

  datatype Handle = Open | Failed

  /** `raw_execute` returns the job, or raises on account of the last attempt's error. */
  datatype Executed = Returned(job: Job) | Raised(error: Error)

  // ---- one statement ----------------------------------------------------------

  /** The id has not been used by anyone, and nobody else will use it or speak for the statement. */
  ghost predicate Fresh(jobs: seq<Job>, job: Job, net: nat -> Attempt) {
    && !Exists(jobs, job.id)
    && forall n: nat :: Foreign(net(n).others, job)
  }

  predicate Foreign(others: seq<Job>, job: Job) {
    forall k :: 0 <= k < |others| ==> others[k].id != job.id && others[k].stmt != job.stmt
  }

  /** What one attempt can do to the server: the statement runs once more if its id was new and
      a request arrived, and not otherwise; success means that a request arrived. */
  lemma {:induction false} AttemptRuns(jobs: seq<Job>, job: Job, a: Attempt)
    requires Foreign(a.others, job)
    ensures var jobs' := JobsAfter(jobs, job, a);
      && Runs(jobs', job.stmt) == Runs(jobs, job.stmt) + (if a.delivered > 0 && !Exists(jobs, job.id) then 1 else 0)
      && (Exists(jobs', job.id) <==> Exists(jobs, job.id) || a.delivered > 0)
    ensures AttemptError(jobs, job, a).None? ==> a.delivered > 0
  {
    var made := Deliver(jobs, job, a.delivered);
    DeliverRuns(jobs, job, a.delivered, job.stmt, job.id);
    RunsAppend(made, a.others, job.stmt);
    NoRuns(a.others, job.stmt);
    ExistsAppend(made, a.others, job.id);
  }

  /** The server after n attempts. */
  function JobsAt(jobs: seq<Job>, job: Job, net: nat -> Attempt, n: nat): seq<Job> {
    if n == 0 then jobs else JobsAfter(JobsAt(jobs, job, net, n - 1), job, net(n - 1))
  }

  /** The error that attempt n (from 0) hands to the client. */
  function ErrorAt(jobs: seq<Job>, job: Job, net: nat -> Attempt, n: nat): Option<Error> {
    AttemptError(JobsAt(jobs, job, net, n), job, net(n))
  }

  predicate Arrived(net: nat -> Attempt, n: nat) { exists k :: 0 <= k < n && net(k).delivered > 0 }

  lemma ArrivedNext(net: nat -> Attempt, n: nat)
    ensures Arrived(net, n + 1) <==> Arrived(net, n) || net(n).delivered > 0
  {
    assert net(n).delivered > 0 ==> Arrived(net, n + 1);
  }

  /** After any number of attempts the statement has run at most once: exactly if some copy of
      the request arrived. */
  lemma {:induction false} AttemptsRunOnce(jobs: seq<Job>, job: Job, net: nat -> Attempt, n: nat)
    requires Fresh(jobs, job, net)
    ensures var jobs' := JobsAt(jobs, job, net, n);
      && Runs(jobs', job.stmt) == Runs(jobs, job.stmt) + (if Arrived(net, n) then 1 else 0)
      && (Exists(jobs', job.id) <==> Arrived(net, n))
  {
    if n > 0 {
      AttemptsRunOnce(jobs, job, net, n - 1);
      AttemptRuns(JobsAt(jobs, job, net, n - 1), job, net(n - 1));
      ArrivedNext(net, n - 1);
    }
  }

  /** Attempt n failed in a way that lets the call go on. */
  ghost predicate GoesOn(net: nat -> Attempt, n: nat) {
    exists e :: FailsWith(net(n), Arrived(net, n), e) && MayGoOn(net(n), e)
  }

  class ConnectionManager {
    var jobs: seq<Job>               // the server
    var jobsByThread: seq<JobId>     // ids minted on this thread
    var handle: Handle

    constructor ()
      ensures jobs == [] && jobsByThread == [] && handle == Open
    {
      jobs, jobsByThread, handle := [], [], Open;
    }

    /** Submit under the stable id, attach on 409, then wait for the result. */
    method QueryAndResults(job: Job, a: Attempt) returns (error: Option<Error>)
      modifies `jobs
      ensures jobs == JobsAfter(old(jobs), job, a)
      ensures error == AttemptError(old(jobs), job, a)
    {
      var seen := Submitted(jobs, job, a);
      jobs := Deliver(jobs, job, a.delivered) + a.others;
      match seen
      case Lost(e) => error := Some(e);
      case Created => error := a.result;
      case Conflict =>
        if a.attach.Some? { error := a.attach; } else { error := a.result; }
    }

    /** What the retry does with an error: ask the budget, reopen after a connection reset,
        respect the deadline. */
    method OnError(budget: DeferredException, error: Error, a: Attempt) returns (again: bool)
      requires budget != this as object
      modifies `handle, budget
      ensures budget.errorCount == if budget.retries == 0 then old(budget.errorCount) else old(budget.errorCount) + 1
      ensures again <==> Retries(budget.retries, old(budget.errorCount), error) && CanGoOn(error, a)
      ensures handle ==
        if !Retries(budget.retries, old(budget.errorCount), error) || !error.connectionReset then old(handle)
        else if a.reopenFails then Failed else Open
    {
      again := budget.Call(error);
      if again && error.connectionReset {
        handle := if a.reopenFails then Failed else Open;
        again := !a.reopenFails;
      }
      again := again && !a.deadlinePassed;
    }

    /** The statement runs at most once whatever is lost or retried; if the call returns it ran
        exactly once; there are at most retries + 1 attempts. The call raises on the error the last
        attempt returned, and before the budget is spent only if that error is permanent, the
        connection it reset cannot be reopened, or the deadline has passed. */
    method RawExecute(stmt: Statement, jobId: JobId, retries: nat, net: nat -> Attempt)
      returns (r: Executed, attempts: nat)
      requires Fresh(jobs, Job(jobId, stmt), net)
      modifies this
      ensures jobsByThread == old(jobsByThread) + [jobId]
      ensures 1 <= attempts <= retries + 1
      ensures jobs == JobsAt(old(jobs), Job(jobId, stmt), net, attempts)
      ensures Runs(jobs, stmt) == Runs(old(jobs), stmt) + (if Arrived(net, attempts) then 1 else 0)
      ensures r.Returned? ==> r.job == Job(jobId, stmt) && Exists(jobs, jobId)
      ensures r.Returned? ==> Runs(jobs, stmt) == Runs(old(jobs), stmt) + 1
      ensures r.Returned? <==> Succeeds(net(attempts - 1), Arrived(net, attempts - 1))
      ensures r.Raised? ==> FailsWith(net(attempts - 1), Arrived(net, attempts - 1), r.error)
      ensures r.Raised? && attempts <= retries ==> !MayGoOn(net(attempts - 1), r.error)
      ensures forall n :: 0 <= n < attempts - 1 ==> GoesOn(net, n)
      ensures handle == old(handle) || handle.Open? || (r.Raised? && net(attempts - 1).reopenFails)
    {
      // one id, minted outside the retried closure
      var job := Job(jobId, stmt);
      jobsByThread := jobsByThread + [jobId];
      var budget := new DeferredException(retries);
      r, attempts := RetryLoop(job, budget, net);
      AttemptsRunOnce(old(jobs), job, net, attempts);
      Verdict(old(jobs), job, net, attempts - 1);
      if r.Returned? { SuccessArrived(old(jobs), job, net, attempts - 1); }
      EachGoesOn(old(jobs), job, net, attempts - 1);
    }

    method RetryLoop(job: Job, budget: DeferredException, net: nat -> Attempt) returns (r: Executed, attempts: nat)
      requires budget != this as object && budget.errorCount == 0
      modifies `jobs, `handle, budget
      ensures 1 <= attempts <= budget.retries + 1
      ensures jobs == JobsAt(old(jobs), job, net, attempts)
      ensures ErrorAt(old(jobs), job, net, attempts - 1) == if r.Returned? then None else Some(r.error)
      ensures r.Returned? ==> r.job == job
      ensures r.Raised? && attempts <= budget.retries ==> !MayGoOn(net(attempts - 1), r.error)
      ensures forall n :: 0 <= n < attempts - 1 ==> WentOn(old(jobs), job, net, n)
      ensures handle == old(handle) || handle.Open? || (r.Raised? && net(attempts - 1).reopenFails)
    {
      attempts := 0;
      while true
        invariant attempts == budget.errorCount <= budget.retries
        invariant handle == old(handle) || handle.Open?
        invariant jobs == JobsAt(old(jobs), job, net, attempts)
        invariant forall n :: 0 <= n < attempts ==> WentOn(old(jobs), job, net, n)
        decreases budget.retries - attempts
      {
        var a := net(attempts);
        var error := QueryAndResults(job, a);
        attempts := attempts + 1;
        if error.None? { return Returned(job), attempts; }
        var again := OnError(budget, error.value, a);
        if !again { return Raised(error.value), attempts; }
      }
    }
  }

  /** Attempt n ended in an error after which the call goes on. */
  predicate WentOn(jobs: seq<Job>, job: Job, net: nat -> Attempt, n: nat) {
    ErrorAt(jobs, job, net, n).Some? && MayGoOn(net(n), ErrorAt(jobs, job, net, n).value)
  }

  /** Whether attempt n finds the id taken depends on the requests that arrived before it. */
  lemma Verdict(jobs: seq<Job>, job: Job, net: nat -> Attempt, n: nat)
    requires Fresh(jobs, job, net)
    ensures ErrorAt(jobs, job, net, n).None? <==> Succeeds(net(n), Arrived(net, n))
    ensures ErrorAt(jobs, job, net, n).Some? ==> FailsWith(net(n), Arrived(net, n), ErrorAt(jobs, job, net, n).value)
  {
    AttemptsRunOnce(jobs, job, net, n);
    AttemptVerdict(JobsAt(jobs, job, net, n), job, net(n));
  }

  lemma EachGoesOn(jobs: seq<Job>, job: Job, net: nat -> Attempt, count: nat)
    requires Fresh(jobs, job, net) && forall n :: 0 <= n < count ==> WentOn(jobs, job, net, n)
    ensures forall n :: 0 <= n < count ==> GoesOn(net, n)
  {
    forall n | 0 <= n < count ensures GoesOn(net, n) {
      Verdict(jobs, job, net, n);
      assert WentOn(jobs, job, net, n);
    }
  }

  /** A successful attempt has reached the server. */
  lemma SuccessArrived(jobs: seq<Job>, job: Job, net: nat -> Attempt, n: nat)
    requires Fresh(jobs, job, net) && ErrorAt(jobs, job, net, n).None?
    ensures Arrived(net, n + 1)
  {
    AttemptRuns(JobsAt(jobs, job, net, n), job, net(n));
    ArrivedNext(net, n);
  }

  // ---- many statements on one server ------------------------------------------

  datatype Progress = Running | Done | GaveUp

  datatype Client = Client(id: JobId, retries: nat, errors: nat, attempts: nat, progress: Progress)

  datatype System = System(jobs: seq<Job>, clients: seq<Client>)

  /** One attempt of client i, between attempts of the others. */
  function Try(s: System, i: nat, a: Attempt): System
    requires i < |s.clients|
  {
    var c := s.clients[i];
    if !c.progress.Running? then s
    else
      var job := Job(c.id, i);
      var error := AttemptError(s.jobs, job, a);
      var c1 := c.(attempts := c.attempts + 1);
      var c2 :=
        if error.None? then c1.(progress := Done)
        else
          c1.(errors := c.errors + 1,
              progress := if Retries(c.retries, c.errors, error.value) && CanGoOn(error.value, a) then Running else GaveUp);
      System(Deliver(s.jobs, job, a.delivered), s.clients[i := c2])
  }

  function TryAll(s: System, schedule: seq<(nat, Attempt)>): System
    requires forall k :: 0 <= k < |schedule| ==> schedule[k].0 < |s.clients|
    decreases |schedule|
  {
    if schedule == [] then s
    else TryAll(Try(s, schedule[0].0, schedule[0].1), schedule[1..])
  }

  /** Minted ids are pairwise different, and a statement has run exactly when its id is taken. */
  predicate SystemOk(s: System) {
    && (forall i, j :: 0 <= i < j < |s.clients| ==> s.clients[i].id != s.clients[j].id)
    && (forall i :: 0 <= i < |s.clients| ==> ClientOk(s.jobs, s.clients[i], i))
  }

  predicate ClientOk(jobs: seq<Job>, c: Client, i: nat) {
    && Runs(jobs, i) == (if Exists(jobs, c.id) then 1 else 0)
    && (c.progress.Done? ==> Exists(jobs, c.id))
    && c.errors <= c.attempts <= c.retries + 1
    && (c.progress.Running? ==> c.attempts == c.errors <= c.retries)
  }

  lemma TryKeeps(s: System, i: nat, a: Attempt)
    requires SystemOk(s) && i < |s.clients|
    ensures SystemOk(Try(s, i, a)) && |Try(s, i, a).clients| == |s.clients|
  {
    var c := s.clients[i];
    if c.progress.Running? {
      var s' := Try(s, i, a);
      forall j | 0 <= j < |s.clients| ensures ClientOk(s'.jobs, s'.clients[j], j) {
        if j == i { OwnClient(s, i, a); } else { OtherClient(s, i, a, j); }
      }
    }
  }

  lemma OwnClient(s: System, i: nat, a: Attempt)
    requires i < |s.clients| && s.clients[i].progress.Running? && ClientOk(s.jobs, s.clients[i], i)
    ensures ClientOk(Try(s, i, a).jobs, Try(s, i, a).clients[i], i)
  {
    var c := s.clients[i];
    DeliverRuns(s.jobs, Job(c.id, i), a.delivered, i, c.id);
  }

  lemma OtherClient(s: System, i: nat, a: Attempt, j: nat)
    requires i < |s.clients| && j < |s.clients| && i != j && s.clients[i].id != s.clients[j].id
    requires ClientOk(s.jobs, s.clients[j], j)
    ensures ClientOk(Try(s, i, a).jobs, Try(s, i, a).clients[j], j)
  {
    DeliverRuns(s.jobs, Job(s.clients[i].id, i), a.delivered, j, s.clients[j].id);
  }

  /** One attempt of a running client, on the attempt's own outcomes. */
  lemma TryVerdict(s: System, i: nat, a: Attempt)
    requires i < |s.clients| && s.clients[i].progress.Running?
    ensures var c, c', taken := s.clients[i], Try(s, i, a).clients[i], Exists(s.jobs, s.clients[i].id);
      && (c'.progress.Done? <==> Succeeds(a, taken))
      && (c'.progress.Running? <==> exists e :: FailsWith(a, taken, e) && MayGoOn(a, e) && c.errors < c.retries)
      && c'.id == c.id && c'.retries == c.retries && c'.attempts == c.attempts + 1
    ensures forall j :: 0 <= j < |s.clients| && j != i ==> Try(s, i, a).clients[j] == s.clients[j]
  {
    var taken, error := Exists(s.jobs, s.clients[i].id), AttemptError(s.jobs, Job(s.clients[i].id, i), a);
    AttemptVerdict(s.jobs, Job(s.clients[i].id, i), a);
    if error.Some? { assert FailsWith(a, taken, error.value); }
  }

  /** One of the attempts of client i succeeded. */
  ghost predicate SucceededAt(s: System, schedule: seq<(nat, Attempt)>, i: nat, k: nat)
    requires i < |s.clients| && k < |schedule|
    requires forall n :: 0 <= n < |schedule| ==> schedule[n].0 < |s.clients|
  {
    schedule[k].0 == i && Succeeds(schedule[k].1, Exists(TryAll(s, schedule[..k]).jobs, s.clients[i].id))
  }

  ghost predicate SucceededOnce(s: System, schedule: seq<(nat, Attempt)>, i: nat)
    requires i < |s.clients|
    requires forall n :: 0 <= n < |schedule| ==> schedule[n].0 < |s.clients|
  {
    exists k :: 0 <= k < |schedule| && SucceededAt(s, schedule, i, k)
  }

  /** A client is done only through an attempt that succeeded; to have returned is to have seen the
      job finish well. */
  lemma {:induction false} DoneSucceeded(s: System, schedule: seq<(nat, Attempt)>, i: nat) returns (k: nat)
    requires i < |s.clients| && s.clients[i].progress != Done
    requires forall n :: 0 <= n < |schedule| ==> schedule[n].0 < |s.clients|
    requires i < |TryAll(s, schedule).clients| && TryAll(s, schedule).clients[i].progress.Done?
    ensures k < |schedule| && SucceededAt(s, schedule, i, k)
    decreases |schedule|
  {
    var (n, a) := schedule[0];
    if s.clients[n].progress.Running? { TryVerdict(s, n, a); }
    var s1 := Try(s, n, a);
    if s1.clients[i].progress.Done? {
      k := 0;
      assert schedule[..0] == [];
    } else {
      k := DoneSucceeded(s1, schedule[1..], i);
      assert schedule[..k + 1][0] == schedule[0] && schedule[..k + 1][1..] == schedule[1..][..k];
      assert SucceededAt(s1, schedule[1..], i, k);
      k := k + 1;
    }
  }

  /** However the attempts of many statements interleave and whatever the network loses: every
      statement runs at most once, exactly once if its call returned, in at most retries + 1 attempts;
      and a call returns only after an attempt that saw the job finish well. */
  lemma {:induction false} AtMostOnce(s: System, schedule: seq<(nat, Attempt)>, i: nat)
    requires SystemOk(s) && i < |s.clients|
    requires forall k :: 0 <= k < |schedule| ==> schedule[k].0 < |s.clients|
    ensures var s' := TryAll(s, schedule);
      && i < |s'.clients| && s'.clients[i].retries == s.clients[i].retries
      && Runs(s'.jobs, i) <= 1
      && (s'.clients[i].progress.Done? ==> Runs(s'.jobs, i) == 1)
      && (s'.clients[i].progress.Done? ==> s.clients[i].progress.Done? || SucceededOnce(s, schedule, i))
      && s'.clients[i].attempts <= s.clients[i].retries + 1
    decreases |schedule|
  {
    if schedule == [] {
      assert ClientOk(s.jobs, s.clients[i], i);
    } else {
      TryKeeps(s, schedule[0].0, schedule[0].1);
      AtMostOnce(Try(s, schedule[0].0, schedule[0].1), schedule[1..], i);
      if TryAll(s, schedule).clients[i].progress.Done? && !s.clients[i].progress.Done? {
        var k := DoneSucceeded(s, schedule, i);
      }
    }
  }

  predicate Distinct(ids: seq<JobId>) { forall i, j :: 0 <= i < j < |ids| ==> ids[i] != ids[j] }

  /** The clients of `execute_ext` before their first attempts. */
  function Start(ids: seq<JobId>, retries: nat): System {
    System([], seq(|ids|, i requires 0 <= i < |ids| => Client(ids[i], retries, 0, 0, Running)))
  }

  lemma StartIsOk(ids: seq<JobId>, retries: nat)
    requires Distinct(ids)
    ensures var s := Start(ids, retries);
      && SystemOk(s) && s.jobs == [] && |s.clients| == |ids|
      && forall i :: 0 <= i < |ids| ==>
           s.clients[i].id == ids[i] && s.clients[i].retries == retries && s.clients[i].progress.Running?
  {}
}
