// Parallel insert_overwrite shards: DELETE and MERGE steps of many jobs on one table.
module FanOut {
  import opened Common
  import opened Counting
  import opened Timestamps
  import opened PartitionBuckets
  import opened InsertOverwrite

  // A row of the target or of a staging table; a NULL partition column is in no bucket.
  datatype Row<M> = Row(at: Option<M>, data: string)

  // One job: its parameter and the staging rows the model SQL yields for that parameter.
  datatype Shard<M> = Shard(param: M, staging: seq<Row<M>>)

  predicate InBucket<M(==)>(row: Row<M>, param: M, trunc: M -> M) {
    row.at.Some? && trunc(row.at.value) == trunc(param)
  }

  function RowsIn<M(==)>(rows: seq<Row<M>>, param: M, trunc: M -> M): seq<Row<M>> {
    if rows == [] then []
    else
      var init, last := RowsIn(rows[..|rows| - 1], param, trunc), rows[|rows| - 1];
      if InBucket(last, param, trunc) then init + [last] else init
  }

  function RowsOutside<M(==)>(rows: seq<Row<M>>, param: M, trunc: M -> M): seq<Row<M>> {
    if rows == [] then []
    else
      var init, last := RowsOutside(rows[..|rows| - 1], param, trunc), rows[|rows| - 1];
      if InBucket(last, param, trunc) then init else init + [last]
  }

  /** The next statement of a shard that has completed `done` of its two. */
  function Advance<M(==)>(table: seq<Row<M>>, shard: Shard<M>, done: nat, trunc: M -> M): seq<Row<M>> {
    if done == 0 then RowsOutside(table, shard.param, trunc)
    else if done == 1 then table + RowsIn(shard.staging, shard.param, trunc)
    else table
  }

  /** How often shard i has been scheduled. */
  function Done(schedule: seq<nat>, i: nat): nat {
    if schedule == [] then 0
    else Done(schedule[..|schedule| - 1], i) + if schedule[|schedule| - 1] == i then 1 else 0
  }

  predicate Schedules(schedule: seq<nat>, n: nat) { forall k :: 0 <= k < |schedule| ==> schedule[k] < n }

  /** The table after the shards ran their statements in the scheduled order. */
  function Run<M(==)>(table: seq<Row<M>>, shards: seq<Shard<M>>, schedule: seq<nat>, trunc: M -> M): seq<Row<M>> {
    if schedule == [] then table
    else
      var init, i := schedule[..|schedule| - 1], schedule[|schedule| - 1];
      var before := Run(table, shards, init, trunc);
      if i < |shards| then Advance(before, shards[i], Done(init, i), trunc) else before
  }

  /** Every shard runs both its statements: any interleaving at all. */
  predicate Complete(schedule: seq<nat>, n: nat) {
    Schedules(schedule, n) && forall i :: 0 <= i < n ==> Done(schedule, i) == 2
  }

  /** The table after the first n shards ran one after the other, each DELETE then MERGE. */
  function SerialRun<M(==)>(table: seq<Row<M>>, shards: seq<Shard<M>>, n: nat, trunc: M -> M): seq<Row<M>>
    requires n <= |shards|
  {
    if n == 0 then table
    else
      var before := SerialRun(table, shards, n - 1, trunc);
      Advance(Advance(before, shards[n - 1], 0, trunc), shards[n - 1], 1, trunc)
  }

  /** No two parameters fall in the same bucket. */
  predicate Apart<M(==)>(params: seq<M>, trunc: M -> M) {
    forall i, j :: 0 <= i < j < |params| ==> trunc(params[i]) != trunc(params[j])
  }

  function Params<M(==)>(shards: seq<Shard<M>>): (r: seq<M>)
    ensures |r| == |shards| && forall k :: 0 <= k < |r| ==> r[k] == shards[k].param
  {
    seq(|shards|, k requires 0 <= k < |shards| => shards[k].param)
  }

  // ---- one statement, row by row -----------------------------------------------------------

  lemma {:induction false} CountIn<M(!new)>(rows: seq<Row<M>>, param: M, trunc: M -> M, row: Row<M>)
    ensures Count(RowsIn(rows, param, trunc), row) == if InBucket(row, param, trunc) then Count(rows, row) else 0
  {
    if rows != [] {
      CountIn(rows[..|rows| - 1], param, trunc, row);
      CountSnoc(RowsIn(rows[..|rows| - 1], param, trunc), rows[|rows| - 1], row);
    }
  }

  lemma {:induction false} CountOutside<M(!new)>(rows: seq<Row<M>>, param: M, trunc: M -> M, row: Row<M>)
    ensures Count(RowsOutside(rows, param, trunc), row) == if InBucket(row, param, trunc) then 0 else Count(rows, row)
  {
    if rows != [] {
      CountOutside(rows[..|rows| - 1], param, trunc, row);
      CountSnoc(RowsOutside(rows[..|rows| - 1], param, trunc), rows[|rows| - 1], row);
    }
  }

  lemma {:induction false} AdvanceCount<M(!new)>(table: seq<Row<M>>, shard: Shard<M>, done: nat, trunc: M -> M,
      row: Row<M>)
    ensures Count(Advance(table, shard, done, trunc), row) ==
      if !InBucket(row, shard.param, trunc) || done >= 2 then Count(table, row)
      else if done == 0 then 0
      else Count(table, row) + Count(shard.staging, row)
  {
    CountOutside(table, shard.param, trunc, row);
    CountIn(shard.staging, shard.param, trunc, row);
    CountAppend(table, RowsIn(shard.staging, shard.param, trunc), row);
  }

  // ---- whole schedules -----------------------------------------------------------------------

  /** A row in the bucket of shard i, whatever the others do: as before until the shard's
      DELETE, gone until its MERGE, and then as staged. Also when the run stops half-way. */
  lemma {:induction false} OwnBucket<M(!new)>(table: seq<Row<M>>, shards: seq<Shard<M>>, schedule: seq<nat>,
      trunc: M -> M, i: nat, row: Row<M>)
    requires Apart(Params(shards), trunc)
    requires i < |shards| && InBucket(row, shards[i].param, trunc)
    ensures Count(Run(table, shards, schedule, trunc), row) ==
      if Done(schedule, i) == 0 then Count(table, row)
      else if Done(schedule, i) == 1 then 0
      else Count(shards[i].staging, row)
    decreases |schedule|
  {
    if schedule != [] {
      var init, j := schedule[..|schedule| - 1], schedule[|schedule| - 1];
      OwnBucket(table, shards, init, trunc, i, row);
      if j < |shards| {
        AdvanceCount(Run(table, shards, init, trunc), shards[j], Done(init, j), trunc, row);
        OtherBucket(shards, trunc, i, j, row);
      }
    }
  }

  lemma OtherBucket<M(!new)>(shards: seq<Shard<M>>, trunc: M -> M, i: nat, j: nat, row: Row<M>)
    requires Apart(Params(shards), trunc) && i < |shards| && j < |shards|
    requires InBucket(row, shards[i].param, trunc)
    ensures InBucket(row, shards[j].param, trunc) ==> i == j
  {
    assert Params(shards)[i] == shards[i].param && Params(shards)[j] == shards[j].param;
  }

  /** A row in no shard's bucket is never touched. */
  lemma {:induction false} NoBucket<M(!new)>(table: seq<Row<M>>, shards: seq<Shard<M>>, schedule: seq<nat>,
      trunc: M -> M, row: Row<M>)
    requires forall j :: 0 <= j < |shards| ==> !InBucket(row, shards[j].param, trunc)
    ensures Count(Run(table, shards, schedule, trunc), row) == Count(table, row)
    decreases |schedule|
  {
    if schedule != [] {
      var init, j := schedule[..|schedule| - 1], schedule[|schedule| - 1];
      NoBucket(table, shards, init, trunc, row);
      if j < |shards| { AdvanceCount(Run(table, shards, init, trunc), shards[j], Done(init, j), trunc, row); }
    }
  }

  lemma {:induction false} DoneSnoc(schedule: seq<nat>, x: nat, i: nat)
    ensures Done(schedule + [x], i) == Done(schedule, i) + if x == i then 1 else 0
  {
    assert (schedule + [x])[..|schedule|] == schedule;
  }

  lemma SerialStep<M(!new)>(table: seq<Row<M>>, shards: seq<Shard<M>>, n: nat, trunc: M -> M, row: Row<M>)
    requires 0 < n <= |shards|
    ensures Count(SerialRun(table, shards, n, trunc), row) ==
      if InBucket(row, shards[n - 1].param, trunc) then Count(shards[n - 1].staging, row)
      else Count(SerialRun(table, shards, n - 1, trunc), row)
  {
    var before := SerialRun(table, shards, n - 1, trunc);
    AdvanceCount(before, shards[n - 1], 0, trunc, row);
    AdvanceCount(Advance(before, shards[n - 1], 0, trunc), shards[n - 1], 1, trunc, row);
  }

  lemma {:induction false} SerialOwnBucket<M(!new)>(table: seq<Row<M>>, shards: seq<Shard<M>>, n: nat,
      trunc: M -> M, i: nat, row: Row<M>)
    requires Apart(Params(shards), trunc)
    requires i < n <= |shards| && InBucket(row, shards[i].param, trunc)
    ensures Count(SerialRun(table, shards, n, trunc), row) == Count(shards[i].staging, row)
  {
    SerialStep(table, shards, n, trunc, row);
    if i < n - 1 {
      OtherBucket(shards, trunc, i, n - 1, row);
      SerialOwnBucket(table, shards, n - 1, trunc, i, row);
    }
  }

  lemma {:induction false} SerialNoBucket<M(!new)>(table: seq<Row<M>>, shards: seq<Shard<M>>, n: nat, trunc: M -> M,
      row: Row<M>)
    requires n <= |shards|
    requires forall j :: 0 <= j < |shards| ==> !InBucket(row, shards[j].param, trunc)
    ensures Count(SerialRun(table, shards, n, trunc), row) == Count(table, row)
  {
    if n > 0 {
      SerialStep(table, shards, n, trunc, row);
      SerialNoBucket(table, shards, n - 1, trunc, row);
    }
  }

  /** Shards with pairwise distinct buckets: every interleaving of their statements ends in
      the same rows as running them one after the other. */
  lemma {:induction false} InterleavingIsSerial<M(!new)>(table: seq<Row<M>>, shards: seq<Shard<M>>,
      schedule: seq<nat>, trunc: M -> M)
    requires Apart(Params(shards), trunc) && Complete(schedule, |shards|)
    ensures multiset(Run(table, shards, schedule, trunc)) == multiset(SerialRun(table, shards, |shards|, trunc))
  {
    var a, b := Run(table, shards, schedule, trunc), SerialRun(table, shards, |shards|, trunc);
    forall row ensures multiset(a)[row] == multiset(b)[row] {
      SameCount(table, shards, schedule, trunc, row);
      CountIsMultiplicity(a, row);
      CountIsMultiplicity(b, row);
    }
  }

  lemma {:induction false} SameCount<M(!new)>(table: seq<Row<M>>, shards: seq<Shard<M>>, schedule: seq<nat>,
      trunc: M -> M, row: Row<M>)
    requires Apart(Params(shards), trunc) && Complete(schedule, |shards|)
    ensures Count(Run(table, shards, schedule, trunc), row) == Count(SerialRun(table, shards, |shards|, trunc), row)
  {
    if i: nat :| i < |shards| && InBucket(row, shards[i].param, trunc) {
      OwnBucket(table, shards, schedule, trunc, i, row);
      SerialOwnBucket(table, shards, |shards|, trunc, i, row);
    } else {
      NoBucket(table, shards, schedule, trunc, row);
      SerialNoBucket(table, shards, |shards|, trunc, row);
    }
  }

  // ---- and only distinct buckets are safe ------------------------------------------------------

  /** For every table, whatever the shards stage, every interleaving agrees with the serial run. */
  ghost predicate Independent<M(!new)>(params: seq<M>, trunc: M -> M) {
    forall table: seq<Row<M>>, shards: seq<Shard<M>>, schedule: seq<nat> ::
      Params(shards) == params && Complete(schedule, |shards|) ==> Agrees(table, shards, schedule, trunc)
  }

  ghost predicate Agrees<M(!new)>(table: seq<Row<M>>, shards: seq<Shard<M>>, schedule: seq<nat>, trunc: M -> M)
  {
    multiset(Run(table, shards, schedule, trunc)) == multiset(SerialRun(table, shards, |shards|, trunc))
  }

  /** One more statement: what becomes of a row's count. */
  function After(before: nat, mine: bool, done: nat, staged: nat): nat {
    if !mine || done >= 2 then before else if done == 0 then 0 else before + staged
  }

  lemma {:induction false} StepCount<M(!new)>(shards: seq<Shard<M>>, schedule: seq<nat>, x: nat, trunc: M -> M,
      row: Row<M>)
    requires x < |shards|
    ensures Count(Run([], shards, schedule + [x], trunc), row) ==
      After(Count(Run([], shards, schedule, trunc), row), InBucket(row, shards[x].param, trunc),
        Done(schedule, x), Count(shards[x].staging, row))
  {
    assert (schedule + [x])[..|schedule|] == schedule;
    AdvanceCount(Run([], shards, schedule, trunc), shards[x], Done(schedule, x), trunc, row);
  }

  /** Every shard but i and j has run both its statements. */
  ghost predicate OthersDone(schedule: seq<nat>, n: nat, i: nat, j: nat) {
    && Schedules(schedule, n)
    && forall k: nat :: Done(schedule, k) == if k < n && k != i && k != j then 2 else 0
  }

  lemma {:induction false} RunOthers(n: nat, i: nat, j: nat) returns (schedule: seq<nat>)
    ensures OthersDone(schedule, n, i, j)
  {
    if n == 0 {
      schedule := [];
    } else {
      var before := RunOthers(n - 1, i, j);
      schedule := if n - 1 == i || n - 1 == j then before else before + [n - 1] + [n - 1];
      forall k: nat ensures Done(schedule, k) == if k < n && k != i && k != j then 2 else 0 {
        DoneSnoc(before, n - 1, k);
        DoneSnoc(before + [n - 1], n - 1, k);
      }
    }
  }

  /** All others first, then the two DELETEs, then the two MERGEs. */
  function Race(others: seq<nat>, i: nat, j: nat): seq<nat> { others + [i] + [j] + [i] + [j] }

  lemma RaceIsComplete(others: seq<nat>, n: nat, i: nat, j: nat)
    requires OthersDone(others, n, i, j) && i < n && j < n && i != j
    ensures Complete(Race(others, i, j), n)
  {
    forall k | 0 <= k < n ensures Done(Race(others, i, j), k) == 2 {
      DoneSnoc(others, i, k);
      DoneSnoc(others + [i], j, k);
      DoneSnoc(others + [i] + [j], i, k);
      DoneSnoc(others + [i] + [j] + [i], j, k);
    }
  }

  lemma {:induction false} RaceKeeps<M(!new)>(shards: seq<Shard<M>>, others: seq<nat>, i: nat, j: nat, trunc: M -> M,
      row: Row<M>)
    requires i < |shards| && j < |shards| && i != j && Done(others, i) == 0 && Done(others, j) == 0
    requires InBucket(row, shards[i].param, trunc) && InBucket(row, shards[j].param, trunc)
    requires Count(shards[i].staging, row) == 1 && Count(shards[j].staging, row) == 0
    ensures Count(Run([], shards, Race(others, i, j), trunc), row) == 1
  {
    RaceDone(others, i, j);
    StepCount(shards, others, i, trunc, row);
    StepCount(shards, others + [i], j, trunc, row);
    StepCount(shards, others + [i] + [j], i, trunc, row);
    StepCount(shards, others + [i] + [j] + [i], j, trunc, row);
  }

  lemma {:induction false} RaceDone(others: seq<nat>, i: nat, j: nat)
    requires i != j && Done(others, i) == 0 && Done(others, j) == 0
    ensures Done(others + [i], j) == 0 && Done(others + [i] + [j], i) == 1
    ensures Done(others + [i] + [j] + [i], j) == 1
  {
    DoneSnoc(others, i, j);
    DoneSnoc(others, i, i);
    DoneSnoc(others + [i], j, i);
    DoneSnoc(others + [i], j, j);
    DoneSnoc(others + [i] + [j], i, j);
  }

  /** In the serial run the later shard's DELETE takes the earlier one's row away. */
  lemma {:induction false} SerialLoses<M(!new)>(shards: seq<Shard<M>>, n: nat, i: nat, j: nat, trunc: M -> M,
      row: Row<M>)
    requires i < j < n <= |shards| && InBucket(row, shards[j].param, trunc)
    requires forall k :: 0 <= k < |shards| && k != i ==> Count(shards[k].staging, row) == 0
    ensures Count(SerialRun([], shards, n, trunc), row) == 0
  {
    SerialStep([], shards, n, trunc, row);
    if n - 1 > j { SerialLoses(shards, n - 1, i, j, trunc, row); }
  }

  /** Only shard i stages a row. */
  function OneRow<M(==)>(params: seq<M>, i: nat, row: Row<M>): (r: seq<Shard<M>>)
    ensures |r| == |params| && Params(r) == params
    ensures forall k :: 0 <= k < |r| ==> r[k].staging == if k == i then [row] else []
  {
    seq(|params|, k requires 0 <= k < |params| => Shard(params[k], if k == i then [row] else []))
  }

  /** Two shards on one bucket can be interleaved so that the serial result is missed. */
  lemma SharedBucketRaces<M(!new)>(params: seq<M>, trunc: M -> M, i: nat, j: nat)
    requires i < j < |params| && trunc(params[i]) == trunc(params[j])
    ensures !Independent(params, trunc)
  {
    var n := |params|;
    var row := Row(Some(params[i]), "");
    var shards := OneRow(params, i, row);
    var others := RunOthers(n, i, j);
    var race := Race(others, i, j);
    RaceIsComplete(others, n, i, j);
    RaceKeeps(shards, others, i, j, trunc, row);
    SerialLoses(shards, n, i, j, trunc, row);
    CountIsMultiplicity(Run([], shards, race, trunc), row);
    CountIsMultiplicity(SerialRun([], shards, n, trunc), row);
    assert !Agrees([], shards, race, trunc);
  }

  /** Parallel shards are safe exactly when their buckets are pairwise distinct. */
  lemma IndependentExactlyWhenDistinct<M(!new)>(params: seq<M>, trunc: M -> M)
    ensures Independent(params, trunc) <==> Apart(params, trunc)
  {
    if Apart(params, trunc) {
      forall table: seq<Row<M>>, shards: seq<Shard<M>>, schedule: seq<nat> |
        Params(shards) == params && Complete(schedule, |shards|)
        ensures Agrees(table, shards, schedule, trunc)
      {
        InterleavingIsSerial(table, shards, schedule, trunc);
      }
    } else {
      var i, j :| 0 <= i < j < |params| && trunc(params[i]) == trunc(params[j]);
      SharedBucketRaces(params, trunc, i, j);
    }
  }

  /** Truncation to a granularity, as the DELETE and MERGE predicates apply it to both sides. */
  function BucketsBy(gran: Granularity): Moment -> Moment { (at: Moment) => Truncate(at, gran) }

  /** The variable sets that validation lets through may run in parallel. */
  lemma ValidatedSetsAreIndependent(entries: seq<Entry>, types: map<string, string>, gran: Granularity)
    requires AllOk(entries, types, gran)
    ensures Stamped(Deduped(entries, gran)) && Independent(MomentsOf(Deduped(entries, gran)), BucketsBy(gran))
  {
    DedupedAreDistinct(entries, gran);
    IndependentExactlyWhenDistinct(MomentsOf(Deduped(entries, gran)), BucketsBy(gran));
  }
}
