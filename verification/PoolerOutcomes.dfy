// What one pooling run decides, commits and reports, in terms of its watermark and the replies it gets.
module PoolerOutcomes {
  import opened Common
  import opened ChangeTracking
  import opened PoolerSteps
  import opened PoolerInvariant
  import opened PoolerPreservation
  import opened PoolerTheorems
  import opened Gateway

  /** Whether there is anything left to pool up to an end time. */
  predicate Behind(watermark: Option<Time>, end: Time) { watermark.None? || watermark.value < end }

  /** The ids a reply reports: none without a row or without changed rows. */
  function Reported(r: PoolerSteps.Reply): set<Partition> {
    if r.Row? && r.rowsChanged > 0 then Listed(r.raw) else {}
  }

  /** The query is repeated once, after enabling change history, and the second reply then counts. */
  function Counted(first: PoolerSteps.Reply, second: PoolerSteps.Reply): PoolerSteps.Reply {
    if first.Failed? && first.notEnabled then second else first
  }

  /** A reply that succeeds gives a list of exactly the ids it reports; a failure outside the time
      travel window gives "all", and any other failure an error. */
  lemma QueryOutcome(first: PoolerSteps.Reply, second: PoolerSteps.Reply)
    ensures var (status, ids) := Queried(first, second);
      var r := Counted(first, second);
      && status == (if !r.Failed? then Okay else if r.outsideTimeTravel then OutOfRange else Error)
      && (ids.Some? <==> !r.Failed?)
      && (!r.Failed? ==> Elements(ids.value) == Reported(r))
  {
    var r := Counted(first, second);
    if r.Row? { CoerceKeepsListed(r.raw); }
    assert Elements<Partition>([]) == {};
  }

  /** The status that a committed row carries. */
  function StatusFor(watermark: Option<Time>, timePartitioned: bool, r: PoolerSteps.Reply): Status {
    if watermark.None? then Initial
    else if !timePartitioned then Unpartitioned
    else if !r.Failed? then Okay
    else if r.outsideTimeTravel then OutOfRange
    else Error
  }

  /** A run commits exactly if it is behind and finds the table. The row reaches from the watermark
      to the end, carries a list only for a query that succeeded, and lists what was reported. */
  lemma DecisionOutcome(t: Table, watermark: Option<Time>, end: Time, meta: Meta,
      first: PoolerSteps.Reply, second: PoolerSteps.Reply)
    ensures var d, r := Decide(t, watermark, end, meta, first, second), Counted(first, second);
      && (d.Commits? <==> Behind(watermark, end) && meta.Found?)
      && (d == Raise <==> Behind(watermark, end) && meta.Broken?)
      && (d.Report? ==>
            d.status == if !Behind(watermark, end) then Skipped else if meta.Missing? then NotFound else Error)
      && (d.Commits? ==>
            && d.row.table == t && d.row.end == end
            && d.row.start == (if watermark.Some? then watermark.value else end)
            && d.row.status == StatusFor(watermark, meta.timePartitioned, r)
            && (d.row.ids.Some? <==> d.row.status == Okay)
            && (d.row.status == Okay ==> Elements(d.row.ids.value) == Reported(r)))
  {
    QueryOutcome(first, second);
  }

  /** The result names the row that was added, and the checkpoint that was. */
  predicate Recorded(a: Db, b: Db, t: Table, end: Time, world: World, result: PoolResult)
    requires result.start.Some?
  {
    && result.table == t && result.end == end
    && b.log == a.log + [LogRow(t, result.start.value, end, result.status, result.ids)]
    && b.checkpoints ==
         if result.status == Error then a.checkpoints else a.checkpoints + [Checkpoint(t, end, world.finishedAt)]
  }

  /** A run that commits reports the row it wrote, and with it the end becomes a checkpoint unless
      the status is an error. A run that does not commit leaves the database alone. */
  lemma RunReports(a: Db, b: Db, t: Table, end: Time, world: World, pick: Option<nat>, committed: bool,
      outcome: Outcome)
    requires RanOnce(a.log, a.checkpoints, b.log, b.checkpoints, t, end, world, pick, committed, outcome)
    ensures var watermark := Watermark(a.checkpoints, t, pick);
      && (committed ==>
            && outcome.Returned? && outcome.result.start.Some?
            && Recorded(a, b, t, end, world, outcome.result))
      && (!committed ==> b == a)
      && (outcome.Raised? <==> Behind(watermark, end) && !committed && (world.meta.Broken? || world.meta.Found?))
      && (!committed && !Behind(watermark, end) ==>
            outcome == Returned(PoolResult(t, Skipped, watermark, watermark.value, None)))
      && (!committed && Behind(watermark, end) && outcome.Returned? ==>
            outcome.result == PoolResult(t, if world.meta.Missing? then NotFound else Error, None, end, None))
  {
    DecisionOutcome(t, Watermark(a.checkpoints, t, pick), end, world.meta, world.first, world.second);
  }

  /** The result that is filed for a run: the row it committed, or one without ids that says why the
      database is as it was; a run that raised counts as an error. */
  lemma MoveReports(a: Db, b: Db, t: Table, end: Time, world: World, result: PoolResult)
    requires Moved(a, b, t, end, world, result)
    ensures result.table == t
    ensures b != a ==> result.start.Some? && Recorded(a, b, t, end, world, result)
    ensures b == a ==> result.ids.None? && result.status in {Skipped, NotFound, Error}
    ensures b == a && result.status == Skipped ==>
      exists pick :: Latest(a.checkpoints, t, pick) && !Behind(Watermark(a.checkpoints, t, pick), end)
    ensures world.fault.None? && world.meta.Found? && result.status in {NotFound, Error} ==> b != a
  {
    var pick, committed, outcome :|
      RanOnce(a.log, a.checkpoints, b.log, b.checkpoints, t, end, world, pick, committed, outcome)
      && result == Filed(t, end, outcome);
    DecisionOutcome(t, Watermark(a.checkpoints, t, pick), end, world.meta, world.first, world.second);
    RunReports(a, b, t, end, world, pick, committed, outcome);
  }

  // ---- when an answer is "all" ---------------------------------------------------------------

  /** A row over part of the window that knows of no list: the initial one, one whose changes are
      out of reach, or one of a table without time partitions. */
  predicate SaysAll(row: LogRow, t: Table, from: Time, upto: Time) {
    row.table == t && row.start < upto && from < row.end && row.status in {Initial, OutOfRange, Unpartitioned}
  }

  lemma {:induction false} SelectedNull(log: seq<LogRow>, t: Table, from: Time, upto: Time)
    requires forall k :: 0 <= k < |log| ==> (log[k].ids.None? <==> log[k].status != Okay)
    ensures SomeAll(SelectIds(log, t, from, upto)) <==> SomeSaysAll(log, t, from, upto)
  {
    if log != [] {
      var init, last := log[..|log| - 1], log[|log| - 1];
      SelectedNull(init, t, from, upto);
      var ids := SelectIds(init, t, from, upto);
      SomeAllSnoc(ids, last.ids);
      assert ids + [] == ids;
      SaysAllSnoc(init, last, t, from, upto);
      assert Matches(last, t, from, upto) && last.ids.None? <==> SaysAll(last, t, from, upto);
      assert log == init + [last];
    }
  }

  predicate SomeSaysAll(log: seq<LogRow>, t: Table, from: Time, upto: Time) {
    exists k :: 0 <= k < |log| && SaysAll(log[k], t, from, upto)
  }

  lemma SaysAllSnoc(log: seq<LogRow>, last: LogRow, t: Table, from: Time, upto: Time)
    ensures SomeSaysAll(log + [last], t, from, upto) <==> SomeSaysAll(log, t, from, upto) || SaysAll(last, t, from, upto)
  {
    var all := log + [last];
    if SomeSaysAll(log, t, from, upto) {
      var k :| 0 <= k < |log| && SaysAll(log[k], t, from, upto);
      assert SaysAll(all[k], t, from, upto);
    }
    if SaysAll(last, t, from, upto) { assert SaysAll(all[|log|], t, from, upto); }
  }

  lemma SomeAllSnoc(rows: seq<Option<seq<Partition>>>, ids: Option<seq<Partition>>)
    ensures SomeAll(rows + [ids]) <==> SomeAll(rows) || ids.None?
  {
    var all := rows + [ids];
    if SomeAll(rows) {
      var i :| 0 <= i < |rows| && rows[i].None?;
      assert all[i].None?;
    }
    if ids.None? { assert all[|rows|].None?; }
  }

  /** Over every reachable log, a merged answer is "all" exactly if such a row overlaps its window. */
  lemma {:induction false} AllExactlyWhen(h: LockKey, s: State, t: Table, from: Time, upto: Time,
      result: Option<seq<Partition>>)
    requires Reachable(h, s) && IsMergeOf(SelectIds(s.log, t, from, upto), result)
    ensures result.None? <==> SomeSaysAll(s.log, t, from, upto)
  {
    ReachableLog(h, s);
    forall k | 0 <= k < |s.log| ensures s.log[k].ids.None? <==> s.log[k].status != Okay {
      assert RowExact(s.history, s.now, s.log[k]);
    }
    SelectedNull(s.log, t, from, upto);
  }
}
