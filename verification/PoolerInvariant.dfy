// What every step of the pooling protocol keeps.
module PoolerInvariant {
  import opened Common
  import opened ChangeTracking
  import opened PoolerSteps

  // ---- the advisory locks ---------------------------------------------------

  /** Whoever is past the lock holds it, and every held lock has such a holder. */
  ghost predicate LocksOk(h: LockKey, s: State) {
    && (forall w :: w in s.phases && Holding(s.phases[w]) ==>
          h(s.phases[w].t) in s.locks && s.locks[h(s.phases[w].t)] == w)
    && (forall k :: k in s.locks ==>
          s.locks[k] in s.phases && Holding(s.phases[s.locks[k]]) && h(s.phases[s.locks[k]].t) == k)
  }

  // ---- the log against the history -------------------------------------------

  /** Time starts at 0 and moves forward, and no change is written for another time. */
  predicate HistoryOk(s: State) {
    0 <= s.now && forall i :: 0 <= i < |s.history| ==> 0 <= s.history[i].at <= s.now
  }

  /** An `ok` row lists exactly the partitions changed in its window, which has passed;
      every other row says "all". */
  predicate RowExact(history: seq<Change>, now: Time, row: LogRow) {
    if row.status == Okay then
      && row.ids.Some?
      && row.end <= now
      && Elements(row.ids.value) == ChangedIn(history, row.table, row.start, row.end)
    else row.ids.None?
  }

  // ---- the chain of windows ---------------------------------------------------

  predicate IsInitial(row: LogRow) { row.status == Initial && row.start == row.end }

  predicate StartsAtAnEnd(rows: seq<LogRow>, row: LogRow) {
    && row.status != Initial
    && row.start < row.end
    && exists j :: 0 <= j < |rows| && rows[j].end == row.start
  }

  /** A row that may be committed next. */
  predicate Extends(rows: seq<LogRow>, row: LogRow) {
    if rows == [] then IsInitial(row) else StartsAtAnEnd(rows, row)
  }

  /** Holds whatever clocks the workers have: one initial row, then windows that each
      start where some earlier one ended. */
  predicate Rooted(rows: seq<LogRow>) {
    forall k :: 0 <= k < |rows| ==> Extends(rows[..k], rows[k])
  }

  /** The same ends in the same order in the log and in the checkpoints. */
  predicate Linked(rows: seq<LogRow>, cps: seq<Checkpoint>) {
    |rows| == |cps| && forall k :: 0 <= k < |rows| ==> rows[k].end == cps[k].end
  }

  // ---- the workers' knowledge ---------------------------------------------------

  predicate KnowsWatermark(rows: seq<LogRow>, watermark: Option<Time>) {
    match watermark
    case None => rows == []
    case Some(x) => exists j :: 0 <= j < |rows| && rows[j].end == x
  }

  predicate ReachesTo(rows: seq<LogRow>, e: Time) {
    exists k :: 0 <= k < |rows| && rows[k].end >= e
  }

  predicate PhaseOk(s: State, p: Phase) {
    match p
    case HaveCheckpoint(t, end, watermark) => KnowsWatermark(RowsOf(s.log, t), watermark)
    case HaveChanges(t, row) =>
      && row.table == t
      && RowExact(s.history, s.now, row)
      && (Advances(row) ==> Extends(RowsOf(s.log, t), row))
    case Covered(t, _, e) => ReachesTo(RowsOf(s.log, t), e)
    case _ => true
  }

  // ---- answers already given -----------------------------------------------------

  /** The end of the initial window, once there is one. */
  function Origin(log: seq<LogRow>, t: Table): Time
    requires RowsOf(log, t) != []
  {
    RowsOf(log, t)[0].end
  }

  /** An answer for [s, e) given the origin T0 of its table:
      a list misses nothing, starting before T0 means "all", ending by T0 means "none". */
  predicate Sound(s: State, a: Answer) {
    && RowsOf(s.log, a.t) != []
    && var t0 := Origin(s.log, a.t);
      && (t0 < a.e && a.result.Some? ==>
            && ChangedIn(s.history, a.t, a.s, a.e) <= Elements(a.result.value)
            && (a.e <= s.now || a.e <= a.s))
      && (a.s < t0 < a.e ==> a.result.None?)
      && (a.e <= t0 ==> a.result == Some([]))
  }

  // ---- commit-ordered clocks -------------------------------------------------------

  predicate Ordered(cps: seq<Checkpoint>) {
    forall j, k :: 0 <= j < k < |cps| ==> cps[j].finishedAt < cps[k].finishedAt
  }

  ghost predicate CommitOrdered(cps: seq<Checkpoint>) {
    forall t :: Ordered(CheckpointsOf(cps, t))
  }

  /** Gap-free: every window starts exactly where the one before it ended. */
  predicate Chained(rows: seq<LogRow>) {
    forall k :: 0 < k < |rows| ==> rows[k].start == rows[k - 1].end
  }

  predicate AtTheEnd(rows: seq<LogRow>, p: Phase) {
    match p
    case HaveCheckpoint(_, _, Some(x)) => rows != [] && rows[|rows| - 1].end == x
    case HaveChanges(_, row) => rows != [] && Advances(row) ==> rows[|rows| - 1].end == row.start
    case _ => true
  }

  ghost predicate ChainOk(s: State) {
    && (forall t :: Chained(RowsOf(s.log, t)))
    && (forall w :: w in s.phases ==> AtTheEnd(RowsOf(s.log, s.phases[w].t), s.phases[w]))
  }

  // ---- all together ------------------------------------------------------------------

  ghost predicate LogOk(s: State) {
    && HistoryOk(s)
    && (forall i :: 0 <= i < |s.log| ==> RowExact(s.history, s.now, s.log[i]))
    && (forall t :: Rooted(RowsOf(s.log, t)))
    && (forall t :: Linked(RowsOf(s.log, t), CheckpointsOf(s.checkpoints, t)))
  }

  ghost predicate PhasesOk(s: State) {
    forall w :: w in s.phases ==> PhaseOk(s, s.phases[w])
  }

  predicate AnswersOk(s: State) {
    forall i :: 0 <= i < |s.answers| ==> Sound(s, s.answers[i])
  }

  ghost predicate Inv(h: LockKey, s: State) {
    && LocksOk(h, s)
    && LogOk(s)
    && PhasesOk(s)
    && AnswersOk(s)
    && (CommitOrdered(s.checkpoints) ==> ChainOk(s))
  }
}
