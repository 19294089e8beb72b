// The gateway database and the pooler that works on it, as objects updated in place.
module Gateway {
  import opened Common
  import opened ChangeTracking
  import opened Completion
  import opened Mentions
  import opened PoolerSteps
  import opened PoolerInvariant
  import opened PoolerPreservation
  import opened PoolerTheorems

  class CloudSqlGateway {
    var log: seq<LogRow>
    var checkpoints: seq<Checkpoint>
    var locks: map<int, Worker>

    constructor ()
      ensures log == [] && checkpoints == [] && locks == map[]
    {
      log, checkpoints, locks := [], [], map[];
    }

    /** The end of the checkpoint with the greatest finish time; ties are left open. */
    method GetPoolerCheckpoint(t: Table) returns (watermark: Option<Time>)
      ensures exists pick :: Latest(checkpoints, t, pick) && watermark == Watermark(checkpoints, t, pick)
    {
      var mine := CheckpointsOf(checkpoints, t);
      if mine == [] {
        assert Latest(checkpoints, t, None);
        return None;
      }
      ghost var best := LatestIn(mine);
      var k: nat :| k < |mine| && IsLatest(mine, k);
      assert Latest(checkpoints, t, Some(k));
      return Some(mine[k].end);
    }

    /** Log row and checkpoint in one transaction. `fault` is the statement that raises, if one
        does: 0 the log insert, 1 the registry upsert, 2 the checkpoint insert, 3 the commit. */
    method CommitPoolResult(row: LogRow, finishedAt: Time, advance: bool, fault: Option<nat>) returns (ok: bool)
      modifies `log, `checkpoints
      ensures ok ==> log == LogAfter(old(log), row)
      ensures ok ==> checkpoints == if advance then CheckpointsAfter(old(checkpoints), row, finishedAt) else old(checkpoints)
      ensures !ok ==> log == old(log) && checkpoints == old(checkpoints)
      ensures ok <==> fault !in {Some(0), Some(1), Some(3)} && !(fault == Some(2) && advance && Advances(row))
    {
      var log0, checkpoints0 := log, checkpoints;
      ok := fault != Some(0);
      if ok {
        log := log + [row];
        ok := fault != Some(1);
      }
      if ok && advance && row.status in CHECKPOINT_ADVANCE_STATUSES {
        ok := fault != Some(2);
        if ok { checkpoints := checkpoints + [Checkpoint(row.table, row.end, finishedAt)]; }
      }
      ok := ok && fault != Some(3);
      if !ok {
        log, checkpoints := log0, checkpoints0;   // rollback
      }
    }

    /** None is "all", [] is "no changes", otherwise the sorted ids. */
    method GetAffectedPartitions(t: Table, s: Time, e: Time) returns (ids: Option<seq<Partition>>)
      ensures IsMergeOf(SelectIds(log, t, s, e), ids)
    {
      ids := MergeAffectedPartitionIds(SelectIds(log, t, s, e));
    }
  }

  /** What the outside world does during one pooling run. */
  datatype World = World(meta: Meta, first: Reply, second: Reply, finishedAt: Time, fault: Option<nat>)

  datatype PoolResult = PoolResult(table: Table, status: Status, start: Option<Time>, end: Time,
                                   ids: Option<seq<Partition>>)

  /** `_pool_one` returns a result or raises. */
  datatype Outcome = Returned(result: PoolResult) | Raised

  /** What a run returns for the decision it took. */
  function OutcomeOf(t: Table, watermark: Option<Time>, end: Time, d: Decision, committed: bool): Outcome {
    match d
    case Report(status) =>
      if status == Skipped && watermark.Some? then Returned(PoolResult(t, Skipped, watermark, watermark.value, None))
      else Returned(PoolResult(t, status, None, end, None))
    case Raise => Raised
    case Commits(row) =>
      if committed then Returned(PoolResult(t, row.status, Some(row.start), row.end, row.ids)) else Raised
  }

  class PoolerCore {
    const gateway: CloudSqlGateway
    const key: LockKey

    constructor (gateway: CloudSqlGateway, key: LockKey)
      ensures this.gateway == gateway && this.key == key
    {
      this.gateway, this.key := gateway, key;
    }

    /** One run under the lock: the database moves exactly as the protocol's ReadCheckpoint,
        Query and Commit steps move it. */
    method PoolOneLocked(t: Table, end: Time, world: World) returns (outcome: Outcome)
      modifies gateway`log, gateway`checkpoints
      ensures exists pick, committed ::
        RanOnce(old(gateway.log), old(gateway.checkpoints), gateway.log, gateway.checkpoints,
                t, end, world, pick, committed, outcome)
    {
      var watermark := gateway.GetPoolerCheckpoint(t);
      ghost var pick :| Latest(gateway.checkpoints, t, pick) && watermark == Watermark(gateway.checkpoints, t, pick);
      ghost var log0, checkpoints0 := gateway.log, gateway.checkpoints;
      ghost var d := Decide(t, watermark, end, world.meta, world.first, world.second);
      var committed := false;
      if watermark.Some? && !(watermark.value < end) {
        outcome := Returned(PoolResult(t, Skipped, watermark, watermark.value, None));
      } else if world.meta.Missing? {
        outcome := Returned(PoolResult(t, NotFound, None, end, None));
      } else if world.meta.Denied? {
        outcome := Returned(PoolResult(t, Error, None, end, None));
      } else if world.meta.Broken? {
        outcome := Raised;
      } else {
        var status, start, ids := Initial, end, None;
        if watermark.Some? {
          start := watermark.value;
          if !world.meta.timePartitioned {
            status := Unpartitioned;
          } else {
            var ran := RunChanges(start, end, world.first, world.second);
            status, ids := ran.0, ran.1;
          }
        }
        var row := LogRow(t, start, end, status, ids);
        committed := gateway.CommitPoolResult(row, world.finishedAt, status in CHECKPOINT_ADVANCE_STATUSES, world.fault);
        outcome := if committed then Returned(PoolResult(t, status, Some(start), end, ids)) else Raised;
      }
      assert RanOnce(log0, checkpoints0, gateway.log, gateway.checkpoints, t, end, world, pick, committed, outcome);
    }

    /** The same between lock and unlock; the lock is released on every exit. */
    method PoolOne(w: Worker, t: Table, end: Time, world: World) returns (outcome: Outcome)
      requires key(t) !in gateway.locks
      modifies gateway
      ensures gateway.locks == old(gateway.locks)
      ensures exists pick, committed ::
        RanOnce(old(gateway.log), old(gateway.checkpoints), gateway.log, gateway.checkpoints,
                t, end, world, pick, committed, outcome)
    {
      gateway.locks := gateway.locks[key(t) := w];
      outcome := PoolOneLocked(t, end, world);
      ghost var pick, committed :|
        RanOnce(old(gateway.log), old(gateway.checkpoints), gateway.log, gateway.checkpoints,
                t, end, world, pick, committed, outcome);
      gateway.locks := gateway.locks - {key(t)};
      assert RanOnce(old(gateway.log), old(gateway.checkpoints), gateway.log, gateway.checkpoints,
                     t, end, world, pick, committed, outcome);
    }

    /** A finished future: the result of its run, or an error result if it raised. */
    method FileOne(w: Worker, t: Table, end: Time, world: World) returns (row: PoolResult)
      requires gateway.locks == map[]
      modifies gateway
      ensures gateway.locks == map[] && row.table == t
      ensures Moved(Db(old(gateway.log), old(gateway.checkpoints)), Db(gateway.log, gateway.checkpoints),
                    t, end, world, row)
    {
      var outcome := PoolOne(w, t, end, world);
      row := Filed(t, end, outcome);
    }

    /** The pool of workers: each finished future files its result, or an error result if it
        raised, under its index. `completion` is the order in which the futures finish. */
    method RunAll(deduped: seq<Relation>, end: Time, worlds: string -> World, completion: seq<nat>)
      returns (results: map<nat, PoolResult>)
      requires gateway.locks == map[] && IsOrderOf(completion, |deduped|)
      modifies gateway
      ensures gateway.locks == map[]
      ensures forall i :: 0 <= i < |deduped| ==> i in results && results[i].table == NameOf(deduped[i])
      ensures exists dbs ::
        Trace(dbs, Db(old(gateway.log), old(gateway.checkpoints)), Db(gateway.log, gateway.checkpoints),
              deduped, end, worlds, completion, results)
    {
      results := map[];
      ghost var first := Db(gateway.log, gateway.checkpoints);
      ghost var dbs := [first];
      for n := 0 to |completion|
        invariant gateway.locks == map[]
        invariant FiledUpTo(deduped, completion, n, results)
        invariant Trace(dbs, first, Db(gateway.log, gateway.checkpoints), deduped, end, worlds, completion[..n], results)
      {
        var idx := completion[n];
        var t := NameOf(deduped[idx]);
        var row := FileOne(idx, t, end, worlds(t));
        ghost var db := Db(gateway.log, gateway.checkpoints);
        NotFiledYet(deduped, completion, n);
        TraceSnoc(dbs, first, deduped, end, worlds, completion[..n], results, idx, db, row);
        FiledNext(deduped, completion, n, results, row);
        results := results[idx := row];
        dbs := dbs + [db];
      }
      AllFiled(deduped, completion, results);
    }

    /** One result per distinct table in order of first mention, whatever order the workers
        finish in and whichever of them raise; the summary counts every result once. */
    method PoolRelations(entries: seq<Entry>, end: Time, worlds: string -> World, completion: seq<nat>)
      returns (ordered: seq<PoolResult>, byStatus: map<Status, nat>)
      requires gateway.locks == map[] && IsOrderOf(completion, |FirstMentions(NormalizeAll(entries))|)
      modifies gateway
      ensures gateway.locks == map[]
      ensures var rels := NormalizeAll(entries);
        var deduped := At(rels, FirstMentions(rels));
        && ResultsFor(deduped, ordered)
        && exists dbs, results ::
             Trace(dbs, Db(old(gateway.log), old(gateway.checkpoints)), Db(gateway.log, gateway.checkpoints),
                   deduped, end, worlds, completion, results)
             && forall i :: 0 <= i < |deduped| ==> i in results && ordered[i] == results[i]
      ensures Counts(ordered, byStatus)
    {
      var deduped := DedupeRelationDicts(entries);
      var results := RunAll(deduped, end, worlds, completion);
      ghost var dbs :|
        Trace(dbs, Db(old(gateway.log), old(gateway.checkpoints)), Db(gateway.log, gateway.checkpoints),
              deduped, end, worlds, completion, results);
      ordered, byStatus := Summarize(deduped, results);
      assert Trace(dbs, Db(old(gateway.log), old(gateway.checkpoints)), Db(gateway.log, gateway.checkpoints),
                   deduped, end, worlds, completion, results);
    }

    /** Pooling a single table for a reader is one move of the database. */
    method PoolForReader(rel: Entry, e: Time, worlds: string -> World)
      requires gateway.locks == map[]
      modifies gateway
      ensures gateway.locks == map[]
      ensures exists result ::
        Moved(Db(old(gateway.log), old(gateway.checkpoints)), Db(gateway.log, gateway.checkpoints),
              NameOf(Normalize(rel)), e, worlds(NameOf(Normalize(rel))), result)
    {
      OneMention(rel);
      ghost var first := Db(gateway.log, gateway.checkpoints);
      var _, _ := PoolRelations([rel], e, worlds, [0]);
      ghost var last := Db(gateway.log, gateway.checkpoints);
      ghost var dbs, results :| Trace(dbs, first, last, [Normalize(rel)], e, worlds, [0], results);
      assert Moved(dbs[0], dbs[1], NameOf(Normalize(rel)), e, worlds(NameOf(Normalize(rel))), results[0]);
    }

    /** Ids for [s, e), pooling first if the watermark is behind. */
    method EnsureAffectedPartitions(rel: Entry, s: Time, e: Time, ensureFresh: bool, worlds: string -> World)
      returns (r: Ensured)
      requires gateway.locks == map[]
      modifies gateway
      ensures r.Answered? ==> IsMergeOf(SelectIds(gateway.log, NameOf(Normalize(rel)), s, e), r.ids)
      ensures exists pick ::
        Latest(gateway.checkpoints, NameOf(Normalize(rel)), pick) &&
        r.watermark == Watermark(gateway.checkpoints, NameOf(Normalize(rel)), pick)
      ensures r.NotFreshEnough? <==> ensureFresh && !AtOrPast(r.watermark, e)
      ensures r.Answered? ==> (r.complete <==> AtOrPast(r.watermark, e))
      ensures !r.pooled ==> gateway.log == old(gateway.log) && gateway.checkpoints == old(gateway.checkpoints)
      ensures !r.pooled && ensureFresh ==> AtOrPast(r.watermark, e)
      ensures r.pooled ==> ensureFresh && exists result ::
        Moved(Db(old(gateway.log), old(gateway.checkpoints)), Db(gateway.log, gateway.checkpoints),
              NameOf(Normalize(rel)), e, worlds(NameOf(Normalize(rel))), result)
    {
      var t := NameOf(Normalize(rel));
      var watermark := gateway.GetPoolerCheckpoint(t);
      var pooled := false;
      if ensureFresh && !AtOrPast(watermark, e) {
        PoolForReader(rel, e, worlds);
        pooled := true;
        watermark := gateway.GetPoolerCheckpoint(t);
      }
      var complete := AtOrPast(watermark, e);
      if ensureFresh && !complete {
        r := NotFreshEnough(watermark, pooled);
      } else {
        var ids := gateway.GetAffectedPartitions(t, s, e);
        r := Answered(ids, watermark, complete, pooled);
      }
    }
  }

  method Summarize(deduped: seq<Relation>, results: map<nat, PoolResult>)
    returns (ordered: seq<PoolResult>, byStatus: map<Status, nat>)
    requires forall i :: 0 <= i < |deduped| ==> i in results && results[i].table == NameOf(deduped[i])
    ensures ResultsFor(deduped, ordered) && Counts(ordered, byStatus)
    ensures forall i :: 0 <= i < |deduped| ==> ordered[i] == results[i]
  {
    ordered := [];
    byStatus := map[];
    for i := 0 to |deduped|
      invariant |ordered| == i
      invariant forall k :: 0 <= k < i ==> ordered[k] == results[k]
      invariant Counts(ordered, byStatus)
    {
      var row := results[i];
      CountsSnoc(ordered, byStatus, row);
      byStatus := byStatus[row.status := (if row.status in byStatus then byStatus[row.status] else 0) + 1];
      ordered := ordered + [row];
    }
  }

  /** Exactly the first n finished futures have a result, each for its own table. */
  predicate FiledUpTo(deduped: seq<Relation>, completion: seq<nat>, n: nat, results: map<nat, PoolResult>)
    requires n <= |completion|
  {
    && (forall k :: 0 <= k < n ==> completion[k] in results)
    && (forall i :: i in results ==> i in completion[..n] && i < |deduped| && results[i].table == NameOf(deduped[i]))
  }

  lemma NotFiledYet(deduped: seq<Relation>, completion: seq<nat>, n: nat)
    requires IsOrderOf(completion, |deduped|) && n < |completion|
    ensures completion[n] < |deduped| && completion[n] !in completion[..n]
  {}

  lemma FiledNext(deduped: seq<Relation>, completion: seq<nat>, n: nat, results: map<nat, PoolResult>, row: PoolResult)
    requires IsOrderOf(completion, |deduped|) && n < |completion| && FiledUpTo(deduped, completion, n, results)
    requires row.table == NameOf(deduped[completion[n]])
    ensures FiledUpTo(deduped, completion, n + 1, results[completion[n] := row])
    ensures completion[..n + 1] == completion[..n] + [completion[n]]
  {
    assert completion[..n + 1] == completion[..n] + [completion[n]];
  }

  lemma AllFiled(deduped: seq<Relation>, completion: seq<nat>, results: map<nat, PoolResult>)
    requires IsOrderOf(completion, |deduped|) && FiledUpTo(deduped, completion, |completion|, results)
    ensures forall i :: 0 <= i < |deduped| ==> i in results && results[i].table == NameOf(deduped[i])
    ensures completion[..|completion|] == completion
  {
    forall i | 0 <= i < |deduped| ensures i in results { assert i in completion; }
  }

  datatype Db = Db(log: seq<LogRow>, checkpoints: seq<Checkpoint>)

  /** The result `pool_relations` files for a finished future. */
  function Filed(t: Table, end: Time, outcome: Outcome): PoolResult {
    if outcome.Returned? then outcome.result else PoolResult(t, Error, None, end, None)
  }

  /** One run moved the database from one content to the next and produced this result. */
  ghost predicate Moved(a: Db, b: Db, t: Table, end: Time, world: World, result: PoolResult) {
    exists pick, committed, outcome ::
      RanOnce(a.log, a.checkpoints, b.log, b.checkpoints, t, end, world, pick, committed, outcome)
      && result == Filed(t, end, outcome)
  }

  /** The database contents between the runs, in completion order. */
  ghost predicate Trace(dbs: seq<Db>, first: Db, last: Db, rels: seq<Relation>, end: Time, worlds: string -> World,
                        completion: seq<nat>, results: map<nat, PoolResult>) {
    && |dbs| == |completion| + 1 && dbs[0] == first && dbs[|completion|] == last
    && forall k :: 0 <= k < |completion| ==>
         && completion[k] < |rels| && completion[k] in results
         && var t := NameOf(rels[completion[k]]);
            Moved(dbs[k], dbs[k + 1], t, end, worlds(t), results[completion[k]])
  }

  lemma TraceSnoc(dbs: seq<Db>, first: Db, rels: seq<Relation>, end: Time, worlds: string -> World,
                  completion: seq<nat>, results: map<nat, PoolResult>, idx: nat, db: Db, result: PoolResult)
    requires dbs != [] && Trace(dbs, first, dbs[|dbs| - 1], rels, end, worlds, completion, results)
    requires idx < |rels| && idx !in completion
    requires var t := NameOf(rels[idx]); Moved(dbs[|dbs| - 1], db, t, end, worlds(t), result)
    ensures Trace(dbs + [db], first, db, rels, end, worlds, completion + [idx], results[idx := result])
  {
    var dbs', order := dbs + [db], completion + [idx];
    forall k | 0 <= k < |order| ensures order[k] < |rels| && order[k] in results[idx := result]
      && var t := NameOf(rels[order[k]]); Moved(dbs'[k], dbs'[k + 1], t, end, worlds(t), results[idx := result][order[k]])
    {
      if k < |completion| { assert order[k] == completion[k] && order[k] != idx; }
    }
  }

  datatype Ensured =
    | Answered(ids: Option<seq<Partition>>, watermark: Option<Time>, complete: bool, pooled: bool)
    | NotFreshEnough(watermark: Option<Time>, pooled: bool)

  predicate AtOrPast(watermark: Option<Time>, e: Time) { watermark.Some? && !(watermark.value < e) }

  function NameOf(r: Relation): Table { FullTargetTableName(r.database, r.schema, r.identifier) }

  /** The effect of one run: the watermark read was a latest one, and the database is what the
      decision on it says, or untouched if the commit failed. */
  ghost predicate RanOnce(log: seq<LogRow>, cps: seq<Checkpoint>, log': seq<LogRow>, cps': seq<Checkpoint>,
                          t: Table, end: Time, world: World, pick: Option<nat>, committed: bool, outcome: Outcome) {
    && Latest(cps, t, pick)
    && var watermark := Watermark(cps, t, pick);
       var d := Decide(t, watermark, end, world.meta, world.first, world.second);
       && outcome == OutcomeOf(t, watermark, end, d, committed)
       && (committed ==> d.Commits?)
       && (d.Commits? && world.fault.None? ==> committed)
       && log' == (if committed then LogAfter(log, d.row) else log)
       && cps' == (if committed then CheckpointsAfter(cps, d.row, world.finishedAt) else cps)
  }

  predicate ResultsFor(rels: seq<Relation>, results: seq<PoolResult>) {
    |results| == |rels| && forall i :: 0 <= i < |rels| ==> results[i].table == NameOf(rels[i])
  }

  function CountOf(results: seq<PoolResult>, st: Status): nat {
    if results == [] then 0
    else CountOf(results[..|results| - 1], st) + if results[|results| - 1].status == st then 1 else 0
  }

  /** The summary counts each status as often as it occurs. */
  predicate Counts(results: seq<PoolResult>, byStatus: map<Status, nat>) {
    forall st: Status :: (if st in byStatus then byStatus[st] else 0) == CountOf(results, st)
  }

  lemma CountsSnoc(results: seq<PoolResult>, byStatus: map<Status, nat>, row: PoolResult)
    requires Counts(results, byStatus)
    ensures Counts(results + [row],
                   byStatus[row.status := (if row.status in byStatus then byStatus[row.status] else 0) + 1])
  {
    assert (results + [row])[..|results|] == results;
  }

  /** The counts add up to the number of results. */
  lemma {:induction false} CountsAddUp(results: seq<PoolResult>)
    ensures CountOf(results, Initial) + CountOf(results, Okay) + CountOf(results, OutOfRange)
      + CountOf(results, Unpartitioned) + CountOf(results, Error) + CountOf(results, NotFound)
      + CountOf(results, Skipped) == |results|
  {
    if results != [] { CountsAddUp(results[..|results| - 1]); }
  }

  /** A status is counted once per result that has it. */
  lemma {:induction false} CountedWhereItOccurs(results: seq<PoolResult>, more: seq<PoolResult>, st: Status)
    ensures CountOf(results + more, st) == CountOf(results, st) + CountOf(more, st)
    ensures CountOf(results, st) > 0 <==> exists k :: 0 <= k < |results| && results[k].status == st
    decreases |more|, |results|
  {
    if more != [] {
      CountedWhereItOccurs(results, more[..|more| - 1], st);
      assert (results + more)[..|results + more| - 1] == results + more[..|more| - 1];
    } else if results != [] {
      assert results + more == results;
      var init := results[..|results| - 1];
      CountedWhereItOccurs(init, [], st);
      assert forall k :: 0 <= k < |init| ==> init[k] == results[k];
    }
  }

  lemma OneMention(rel: Entry)
    ensures var rels := NormalizeAll([rel]); FirstMentions(rels) == [0] && At(rels, [0]) == [Normalize(rel)]
  {
    var keys := Keys(NormalizeAll([rel]));
    assert keys[..0] == [];
  }

  /** An ensure-fresh answer computed on the database of any state of the protocol is sound there. */
  lemma {:induction false} EnsuredAnswerIsSound(st: State, t: Table, s: Time, e: Time, ids: Option<seq<Partition>>,
      pick: Option<nat>)
    requires LogOk(st) && Latest(st.checkpoints, t, pick)
    requires AtOrPast(Watermark(st.checkpoints, t, pick), e)
    requires IsMergeOf(SelectIds(st.log, t, s, e), ids)
    ensures Sound(st, Answer(t, s, e, ids))
  {
    WatermarkIsKnown(st, t, pick);
    var j :| 0 <= j < |RowsOf(st.log, t)| && RowsOf(st.log, t)[j].end == Watermark(st.checkpoints, t, pick).value;
    AnswerIsSound(st, Answer(t, s, e, ids));
  }

  // ---- the objects refine the protocol -----------------------------------------------------

  /** The replies of the outside world that a run uses are truthful about the history. */
  predicate WorldTruthful(s: State, t: Table, watermark: Option<Time>, end: Time, world: World) {
    watermark.Some? ==>
      && Truthful(s.history, s.now, t, watermark.value, end, world.first)
      && Truthful(s.history, s.now, t, watermark.value, end, world.second)
  }

  /** The state with worker w in a phase under its lock. */
  function Under(h: LockKey, s: State, w: Worker, p: Phase): State {
    s.(locks := s.locks[h(p.t) := w], phases := s.phases[w := p])
  }

  lemma ReachesLocked(h: LockKey, s: State, w: Worker, t: Table, end: Time)
    requires w !in s.phases && h(t) !in s.locks
    ensures Reaches(h, s, Under(h, s, w, Locked(t, end)))
  {
    ReachesItself(h, s);
    ReachesStep(h, s, s, Begin(w, t, end));
    var s1 := Apply(h, s, Begin(w, t, end));
    ReachesStep(h, s, s1, Acquire(w));
    assert Apply(h, s1, Acquire(w)).phases == s.phases[w := Locked(t, end)];
  }

  lemma ReachesQueried(h: LockKey, s: State, w: Worker, t: Table, end: Time, world: World, pick: Option<nat>)
    requires w !in s.phases && h(t) !in s.locks && Latest(s.checkpoints, t, pick)
    requires WorldTruthful(s, t, Watermark(s.checkpoints, t, pick), end, world)
    ensures var watermark := Watermark(s.checkpoints, t, pick);
      var d := Decide(t, watermark, end, world.meta, world.first, world.second);
      Reaches(h, s, Under(h, s, w, AfterQuery(HaveCheckpoint(t, end, watermark), d)))
  {
    ReachesLocked(h, s, w, t, end);
    var s1 := Under(h, s, w, Locked(t, end));
    var p := HaveCheckpoint(t, end, Watermark(s.checkpoints, t, pick));
    ReachesStep(h, s, s1, ReadCheckpoint(w, pick));
    var s2 := Under(h, s, w, p);
    assert Apply(h, s1, ReadCheckpoint(w, pick)).phases == s2.phases;
    var query := Query(w, world.meta, world.first, world.second);
    ReachesStep(h, s, s2, query);
    assert Apply(h, s2, query).phases
      == s.phases[w := AfterQuery(p, Decide(t, p.watermark, end, world.meta, world.first, world.second))];
  }

  /** From the last phase under the lock to the state without the worker. */
  lemma ReachesUnlocked(h: LockKey, s: State, s': State, w: Worker, t: Table)
    requires w !in s'.phases && h(t) !in s'.locks && Reaches(h, s, Under(h, s', w, Finished(t)))
    ensures Reaches(h, s, s')
  {
    var s1 := Under(h, s', w, Finished(t));
    ReachesStep(h, s, s1, Unlock(w));
    assert Apply(h, s1, Unlock(w)).phases == s'.phases && Apply(h, s1, Unlock(w)).locks == s'.locks;
  }

  lemma ReachesCommitted(h: LockKey, s: State, w: Worker, t: Table, row: LogRow, finishedAt: Time)
    requires w !in s.phases && h(t) !in s.locks && Reaches(h, s, Under(h, s, w, HaveChanges(t, row)))
    ensures Reaches(h, s, s.(log := LogAfter(s.log, row), checkpoints := CheckpointsAfter(s.checkpoints, row, finishedAt)))
  {
    var s' := s.(log := LogAfter(s.log, row), checkpoints := CheckpointsAfter(s.checkpoints, row, finishedAt));
    var s1 := Under(h, s, w, HaveChanges(t, row));
    ReachesStep(h, s, s1, Commit(w, finishedAt));
    assert Apply(h, s1, Commit(w, finishedAt)).phases == Under(h, s', w, Finished(t)).phases;
    ReachesUnlocked(h, s, s', w, t);
  }

  /** One run of the pooler object moves the database as a run of protocol steps does: Begin,
      Acquire, ReadCheckpoint, Query, then Commit where it commits, and Unlock. */
  lemma RunRefinesSteps(h: LockKey, s: State, w: Worker, log': seq<LogRow>, cps': seq<Checkpoint>,
      t: Table, end: Time, world: World, pick: Option<nat>, committed: bool, outcome: Outcome)
    requires w !in s.phases && h(t) !in s.locks
    requires RanOnce(s.log, s.checkpoints, log', cps', t, end, world, pick, committed, outcome)
    requires WorldTruthful(s, t, Watermark(s.checkpoints, t, pick), end, world)
    ensures Reaches(h, s, s.(log := log', checkpoints := cps'))
  {
    if committed {
      var d := Decide(t, Watermark(s.checkpoints, t, pick), end, world.meta, world.first, world.second);
      ReachesQueried(h, s, w, t, end, world, pick);
      ReachesCommitted(h, s, w, t, d.row, world.finishedAt);
    } else {
      ReachesItself(h, s);
    }
  }

  /** The worlds of a move are truthful, whichever latest checkpoint it reads. */
  ghost predicate MoveTruthful(s: State, db: Db, t: Table, end: Time, world: World) {
    forall pick :: Latest(db.checkpoints, t, pick) ==> WorldTruthful(s, t, Watermark(db.checkpoints, t, pick), end, world)
  }

  function WithDb(s: State, db: Db): State { s.(log := db.log, checkpoints := db.checkpoints) }

  lemma MoveRefinesSteps(h: LockKey, s: State, w: Worker, db: Db, t: Table, end: Time, world: World, result: PoolResult)
    requires w !in s.phases && h(t) !in s.locks
    requires Moved(Db(s.log, s.checkpoints), db, t, end, world, result)
    requires MoveTruthful(s, Db(s.log, s.checkpoints), t, end, world)
    ensures Reaches(h, s, WithDb(s, db))
  {
    var pick, committed, outcome :|
      RanOnce(s.log, s.checkpoints, db.log, db.checkpoints, t, end, world, pick, committed, outcome);
    RunRefinesSteps(h, s, w, db.log, db.checkpoints, t, end, world, pick, committed, outcome);
  }

  /** A whole `pool_relations` call, whatever the completion order, takes a reachable database to a
      reachable one. */
  lemma {:induction false} TraceStaysReachable(h: LockKey, s: State, w: Worker, dbs: seq<Db>, rels: seq<Relation>,
      end: Time, worlds: string -> World, completion: seq<nat>, results: map<nat, PoolResult>, last: Db, k: nat)
    requires Reachable(h, s) && w !in s.phases && s.locks == map[] && k <= |completion|
    requires Trace(dbs, Db(s.log, s.checkpoints), last, rels, end, worlds, completion, results)
    requires forall n :: 0 <= n < |completion| ==>
      var t := NameOf(rels[completion[n]]);
      MoveTruthful(s, dbs[n], t, end, worlds(t))
    ensures Reachable(h, WithDb(s, dbs[k]))
  {
    if k > 0 {
      TraceStaysReachable(h, s, w, dbs, rels, end, worlds, completion, results, last, k - 1);
      var t := NameOf(rels[completion[k - 1]]);
      var before := WithDb(s, dbs[k - 1]);
      assert MoveTruthful(s, dbs[k - 1], t, end, worlds(t));
      assert MoveTruthful(before, dbs[k - 1], t, end, worlds(t));
      MoveRefinesSteps(h, before, w, dbs[k], t, end, worlds(t), results[completion[k - 1]]);
      ReachableReaches(h, before, WithDb(before, dbs[k]));
      assert WithDb(before, dbs[k]) == WithDb(s, dbs[k]);
    }
  }

  /** What ensure-fresh returns after pooling is sound: over a reachable database, one truthful move
      and then a watermark at or past the end make the merged answer miss nothing. */
  lemma {:induction false} FreshAnswerIsSound(h: LockKey, st: State, w: Worker, db: Db, t: Table, s: Time, e: Time,
      world: World,
      result: PoolResult, pick: Option<nat>, ids: Option<seq<Partition>>)
    requires Reachable(h, st) && w !in st.phases && h(t) !in st.locks
    requires Moved(Db(st.log, st.checkpoints), db, t, e, world, result)
    requires MoveTruthful(st, Db(st.log, st.checkpoints), t, e, world)
    requires Latest(db.checkpoints, t, pick) && AtOrPast(Watermark(db.checkpoints, t, pick), e)
    requires IsMergeOf(SelectIds(db.log, t, s, e), ids)
    ensures Reachable(h, WithDb(st, db)) && Sound(WithDb(st, db), Answer(t, s, e, ids))
  {
    MoveRefinesSteps(h, st, w, db, t, e, world, result);
    ReachableReaches(h, st, WithDb(st, db));
    ReachableLog(h, WithDb(st, db));
    EnsuredAnswerIsSound(WithDb(st, db), t, s, e, ids, pick);
  }
}
