// One pooling run: what it decides. Then the step protocol of any number of runs,
// readers and table writers sharing one gateway database.
module PoolerSteps {
  import opened Common
  import opened ChangeTracking

  type Table = string
  type Worker = nat

  /** One change to a table; a row outside every partition has no id. */
  datatype Change = Change(table: Table, at: Time, partition: Option<Partition>)

  datatype LogRow = LogRow(table: Table, start: Time, end: Time,
                           status: Status, ids: Option<seq<Partition>>)

  datatype Checkpoint = Checkpoint(table: Table, end: Time, finishedAt: Time)

  // ---- one run's decision ---------------------------------------------------

  /** `get_table_meta`: partitioning, or the kind of exception it raises. */
  datatype Meta = Found(timePartitioned: bool) | Missing | Denied | Broken

  /** One attempt of the CHANGES aggregation. */
  datatype Reply =
    | NoRow
    | Row(raw: RawIds, rowsChanged: nat)
    | Failed(notEnabled: bool, outsideTimeTravel: bool)

  function OfRow(r: Reply): (Status, Option<seq<Partition>>)
    requires !r.Failed?
  {
    match r
    case NoRow => (Okay, Some([]))
    case Row(raw, n) => (Okay, Some(if n == 0 then [] else CoercePartitionIdsForOk(raw)))
  }

  /** `_run_changes`; `second` is the retry after enabling change history. */
  function RunChanges(start: Time, end: Time, first: Reply, second: Reply): (Status, Option<seq<Partition>>) {
    if start >= end then (Okay, Some([])) else Queried(first, second)
  }

  /** The outcome of the query and, where it is made, of its retry. */
  function Queried(first: Reply, second: Reply): (Status, Option<seq<Partition>>) {
    if !first.Failed? then OfRow(first)
    else if first.notEnabled then
      if !second.Failed? then OfRow(second)
      else if second.outsideTimeTravel then (OutOfRange, None)
      else (Error, None)
    else if first.outsideTimeTravel then (OutOfRange, None)
    else (Error, None)
  }

  /** A run ends without touching the database, raises, or commits one log row. */
  datatype Decision = Report(status: Status) | Raise | Commits(row: LogRow)

  /** `_pool_one_locked` up to the commit, for the watermark it read. */
  function Decide(t: Table, watermark: Option<Time>, end: Time, meta: Meta, first: Reply, second: Reply): Decision {
    if watermark.Some? && !(watermark.value < end) then Report(Skipped)
    else match meta
      case Missing => Report(NotFound)
      case Denied => Report(Error)
      case Broken => Raise
      case Found(timePartitioned) =>
        if watermark.None? then Commits(LogRow(t, end, end, Initial, None))
        else if !timePartitioned then Commits(LogRow(t, watermark.value, end, Unpartitioned, None))
        else
          var (status, ids) := RunChanges(watermark.value, end, first, second);
          Commits(LogRow(t, watermark.value, end, status, ids))
  }

  // ---- the database ---------------------------------------------------------

  predicate Advances(row: LogRow) { row.status in CHECKPOINT_ADVANCE_STATUSES }

  /** The advancing rows of one table, oldest commit first. */
  function RowsOf(log: seq<LogRow>, t: Table): seq<LogRow> {
    if log == [] then []
    else
      var last := log[|log| - 1];
      RowsOf(log[..|log| - 1], t) + if last.table == t && Advances(last) then [last] else []
  }

  function CheckpointsOf(cps: seq<Checkpoint>, t: Table): seq<Checkpoint> {
    if cps == [] then []
    else
      var last := cps[|cps| - 1];
      CheckpointsOf(cps[..|cps| - 1], t) + if last.table == t then [last] else []
  }

  /** The WHERE clause of `get_affected_partitions`. */
  predicate Matches(row: LogRow, t: Table, s: Time, e: Time) {
    row.table == t && row.start < e && row.end > s && row.status in AFFECTED_PARTITION_STATUSES
  }

  function SelectIds(log: seq<LogRow>, t: Table, s: Time, e: Time): seq<Option<seq<Partition>>> {
    if log == [] then []
    else
      var last := log[|log| - 1];
      SelectIds(log[..|log| - 1], t, s, e) + if Matches(last, t, s, e) then [last.ids] else []
  }

  predicate IsLatest(mine: seq<Checkpoint>, k: nat) {
    k < |mine| && forall j :: 0 <= j < |mine| ==> mine[j].finishedAt <= mine[k].finishedAt
  }

  /** A possible result of `get_checkpoint`: a row with the greatest finish time, ties open. */
  predicate Latest(cps: seq<Checkpoint>, t: Table, pick: Option<nat>) {
    var mine := CheckpointsOf(cps, t);
    match pick
    case None => mine == []
    case Some(k) => IsLatest(mine, k)
  }

  function Watermark(cps: seq<Checkpoint>, t: Table, pick: Option<nat>): Option<Time>
    requires Latest(cps, t, pick)
  {
    if pick.None? then None else Some(CheckpointsOf(cps, t)[pick.value].end)
  }

  /** `commit_change_tracking_pool_result`: the log row, and with an advancing status the checkpoint. */
  function LogAfter(log: seq<LogRow>, row: LogRow): seq<LogRow> { log + [row] }

  function CheckpointsAfter(cps: seq<Checkpoint>, row: LogRow, finishedAt: Time): seq<Checkpoint> {
    if Advances(row) then cps + [Checkpoint(row.table, row.end, finishedAt)] else cps
  }

  /** The partitions changed in [s, e). */
  function ChangedIn(history: seq<Change>, t: Table, s: Time, e: Time): set<Partition> {
    set i | 0 <= i < |history| && InWindow(history[i], t, s, e) && history[i].partition.Some? :: history[i].partition.value
  }

  predicate InWindow(c: Change, t: Table, s: Time, e: Time) { c.table == t && s <= c.at < e }

  predicate AnyIn(history: seq<Change>, t: Table, s: Time, e: Time) {
    exists i :: 0 <= i < |history| && InWindow(history[i], t, s, e)
  }

  /** What is assumed of BigQuery: a CHANGES result covers the whole past window. */
  predicate Truthful(history: seq<Change>, now: Time, t: Table, s: Time, e: Time, r: Reply) {
    !r.Failed? ==>
      && e <= now
      && (r.NoRow? ==> !AnyIn(history, t, s, e))
      && (r.Row? ==>
            && (r.rowsChanged == 0 <==> !AnyIn(history, t, s, e))
            && Listed(r.raw) == ChangedIn(history, t, s, e))
  }

  // ---- the protocol ---------------------------------------------------------

  datatype Phase =
    | Waiting(t: Table, end: Time)                          // asking for the advisory lock
    | Locked(t: Table, end: Time)                           // holds it
    | HaveCheckpoint(t: Table, end: Time, watermark: Option<Time>)
    | HaveChanges(t: Table, row: LogRow)                    // about to commit
    | Finished(t: Table)                                    // about to unlock
    | Asked(t: Table, s: Time, e: Time)                     // ensure-fresh reader
    | Covered(t: Table, s: Time, e: Time)                   // saw a watermark at or past e

  predicate Holding(p: Phase) { p.Locked? || p.HaveCheckpoint? || p.HaveChanges? || p.Finished? }

  datatype Answer = Answer(t: Table, s: Time, e: Time, result: Option<seq<Partition>>)

  datatype State = State(now: Time, history: seq<Change>, log: seq<LogRow>, checkpoints: seq<Checkpoint>,
                         locks: map<int, Worker>, phases: map<Worker, Phase>, answers: seq<Answer>)

  datatype Step =
    | Tick(elapsed: nat)
    | Write(c: Change)
    | Begin(w: Worker, t: Table, end: Time)
    | Acquire(w: Worker)
    | GiveUp(w: Worker)
    | ReadCheckpoint(w: Worker, pick: Option<nat>)
    | Query(w: Worker, meta: Meta, first: Reply, second: Reply)
    | Commit(w: Worker, finishedAt: Time)
    | Fail(w: Worker)                                       // an exception under the lock, nothing committed
    | Unlock(w: Worker)
    | Ask(w: Worker, t: Table, s: Time, e: Time)
    | ReadWatermark(w: Worker, pick: Option<nat>)
    | NotFresh(w: Worker)                                   // PoolerFreshnessError
    | Respond(w: Worker, result: Option<seq<Partition>>)

  type LockKey = Table -> int

  predicate Enabled(h: LockKey, s: State, step: Step) {
    match step
    case Tick(_) => true
    case Write(c) => c.at == s.now
    case Begin(w, _, _) => w !in s.phases
    case Acquire(w) => w in s.phases && s.phases[w].Waiting? && h(s.phases[w].t) !in s.locks
    case GiveUp(w) => w in s.phases && s.phases[w].Waiting?
    case ReadCheckpoint(w, pick) => w in s.phases && s.phases[w].Locked? && Latest(s.checkpoints, s.phases[w].t, pick)
    case Query(w, meta, first, second) =>
      && w in s.phases && s.phases[w].HaveCheckpoint?
      && var p := s.phases[w];
         p.watermark.Some? ==>
           && Truthful(s.history, s.now, p.t, p.watermark.value, p.end, first)
           && Truthful(s.history, s.now, p.t, p.watermark.value, p.end, second)
    case Commit(w, _) => w in s.phases && s.phases[w].HaveChanges?
    case Fail(w) => w in s.phases && Holding(s.phases[w]) && !s.phases[w].Finished?
    case Unlock(w) => w in s.phases && s.phases[w].Finished?
    case Ask(w, _, _, _) => w !in s.phases
    case ReadWatermark(w, pick) => w in s.phases && s.phases[w].Asked? && Latest(s.checkpoints, s.phases[w].t, pick)
    case NotFresh(w) => w in s.phases && s.phases[w].Asked?
    case Respond(w, result) =>
      && w in s.phases && s.phases[w].Covered?
      && IsMergeOf(SelectIds(s.log, s.phases[w].t, s.phases[w].s, s.phases[w].e), result)
  }

  function AfterQuery(p: Phase, d: Decision): Phase
    requires p.HaveCheckpoint?
  {
    if d.Commits? then HaveChanges(p.t, d.row) else Finished(p.t)
  }

  function Apply(h: LockKey, s: State, step: Step): State
    requires Enabled(h, s, step)
  {
    match step
    case Tick(elapsed) => s.(now := s.now + elapsed)
    case Write(c) => s.(history := s.history + [c])
    case Begin(w, t, end) => s.(phases := s.phases[w := Waiting(t, end)])
    case Acquire(w) =>
      var p := s.phases[w];
      s.(locks := s.locks[h(p.t) := w], phases := s.phases[w := Locked(p.t, p.end)])
    case GiveUp(w) => s.(phases := s.phases - {w})
    case ReadCheckpoint(w, pick) =>
      var p := s.phases[w];
      s.(phases := s.phases[w := HaveCheckpoint(p.t, p.end, Watermark(s.checkpoints, p.t, pick))])
    case Query(w, meta, first, second) =>
      var p := s.phases[w];
      s.(phases := s.phases[w := AfterQuery(p, Decide(p.t, p.watermark, p.end, meta, first, second))])
    case Commit(w, finishedAt) =>
      var row := s.phases[w].row;
      s.(log := LogAfter(s.log, row), checkpoints := CheckpointsAfter(s.checkpoints, row, finishedAt),
         phases := s.phases[w := Finished(s.phases[w].t)])
    case Fail(w) => s.(phases := s.phases[w := Finished(s.phases[w].t)])
    case Unlock(w) => s.(locks := s.locks - {h(s.phases[w].t)}, phases := s.phases - {w})
    case Ask(w, t, lo, hi) => s.(phases := s.phases[w := Asked(t, lo, hi)])
    case ReadWatermark(w, pick) =>
      var p := s.phases[w];
      var wm := Watermark(s.checkpoints, p.t, pick);
      if wm.Some? && !(wm.value < p.e) then s.(phases := s.phases[w := Covered(p.t, p.s, p.e)]) else s
    case NotFresh(w) => s.(phases := s.phases - {w})
    case Respond(w, result) =>
      var p := s.phases[w];
      s.(answers := s.answers + [Answer(p.t, p.s, p.e, result)], phases := s.phases - {w})
  }

  const START: State := State(0, [], [], [], map[], map[], [])

  /** The steps can be taken one after another from s. */
  predicate Run(h: LockKey, s: State, steps: seq<Step>)
    decreases |steps|
  {
    steps == [] || (Enabled(h, s, steps[0]) && Run(h, Apply(h, s, steps[0]), steps[1..]))
  }

  function After(h: LockKey, s: State, steps: seq<Step>): State
    requires Run(h, s, steps)
    decreases |steps|
  {
    if steps == [] then s else After(h, Apply(h, s, steps[0]), steps[1..])
  }
}
