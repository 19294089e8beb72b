// What holds over whole runs of the pooling protocol.
module PoolerTheorems {
  import opened Common
  import opened PyStrings
  import opened ChangeTracking
  import opened PoolerSteps
  import opened PoolerInvariant
  import opened PoolerPreservation

  ghost predicate Reachable(h: LockKey, s: State) {
    exists steps :: Run(h, START, steps) && After(h, START, steps) == s
  }

  lemma ReachableInv(h: LockKey, s: State)
    requires Reachable(h, s)
    ensures Inv(h, s)
  {
    var steps :| Run(h, START, steps) && After(h, START, steps) == s;
    InvStart(h);
    InvReachable(h, START, steps);
  }

  lemma ReachableLog(h: LockKey, s: State)
    requires Reachable(h, s)
    ensures LogOk(s)
  {
    ReachableInv(h, s);
  }

  lemma ReachableChain(h: LockKey, s: State)
    requires Reachable(h, s) && CommitOrdered(s.checkpoints)
    ensures ChainOk(s) && PhasesOk(s)
  {
    ReachableInv(h, s);
  }

  lemma ReachableLocks(h: LockKey, s: State)
    requires Reachable(h, s)
    ensures LocksOk(h, s)
  {
    ReachableInv(h, s);
  }

  lemma ReachableAnswer(h: LockKey, s: State, a: Answer)
    requires Reachable(h, s) && a in s.answers
    ensures Sound(s, a)
  {
    ReachableInv(h, s);
  }

  // ---- soundness ----------------------------------------------------------------

  /** Every ensure-fresh answer ever given, checked against the whole history of any later
      state: a list misses no change once the window ends after the table's origin, and a
      window that straddles the origin is answered "all". */
  lemma EnsureFreshIsSound(h: LockKey, s: State, a: Answer)
    requires Reachable(h, s) && a in s.answers
    ensures RowsOf(s.log, a.t) != []
    ensures Origin(s.log, a.t) < a.e && a.result.Some? ==>
      ChangedIn(s.history, a.t, a.s, a.e) <= Elements(a.result.value)
    ensures a.s < Origin(s.log, a.t) < a.e ==> a.result.None?
  {
    ReachableAnswer(h, s, a);
  }

  /** Windows ending at or before the origin overlap no row, so they are answered "none";
      that is right exactly when nothing changed in them. */
  lemma EmptyBeforeOrigin(h: LockKey, s: State, a: Answer)
    requires Reachable(h, s) && a in s.answers && RowsOf(s.log, a.t) != []
    requires a.e <= Origin(s.log, a.t)
    ensures a.result == Some([])
    ensures ChangedIn(s.history, a.t, a.s, a.e) <= Elements(a.result.value)
      <==> ChangedIn(s.history, a.t, a.s, a.e) == {}
  {
    ReachableAnswer(h, s, a);
    assert Elements<Partition>([]) == {};
  }

  lemma {:induction false} RunSnoc(h: LockKey, s: State, steps: seq<Step>, step: Step)
    requires Run(h, s, steps) && Enabled(h, After(h, s, steps), step)
    ensures Run(h, s, steps + [step]) && After(h, s, steps + [step]) == Apply(h, After(h, s, steps), step)
    decreases |steps|
  {
    if steps == [] {
      assert steps + [step] == [step] && [step][1..] == [];
    } else {
      RunSnoc(h, Apply(h, s, steps[0]), steps[1..], step);
      assert (steps + [step])[1..] == steps[1..] + [step];
    }
  }

  lemma ReachableStep(h: LockKey, s: State, step: Step)
    requires Reachable(h, s) && Enabled(h, s, step)
    ensures Reachable(h, Apply(h, s, step))
  {
    var steps :| Run(h, START, steps) && After(h, START, steps) == s;
    RunSnoc(h, START, steps, step);
  }

  // ---- the guard is exact --------------------------------------------------------

  // A run that pools table t at t0 after one change at x and then answers [s, e).
  function ChangeAt(t: Table, x: Time): Change { Change(t, x, Some("p")) }

  function InitialRow(t: Table, t0: Time): LogRow { LogRow(t, t0, t0, Initial, None) }

  function NoneFor(t: Table, s: Time, e: Time): Answer { Answer(t, s, e, Some([])) }

  function Pooled(t: Table, x: Time, t0: Time): State {
    State(t0, [ChangeAt(t, x)], [InitialRow(t, t0)], [Checkpoint(t, t0, t0)], map[], map[], [])
  }

  lemma StartReachable(h: LockKey)
    ensures Reachable(h, START)
  {
    assert Run(h, START, []) && After(h, START, []) == START;
  }

  lemma TickReachable(h: LockKey, s: State, elapsed: nat)
    requires Reachable(h, s)
    ensures Reachable(h, s.(now := s.now + elapsed))
  {
    ReachableStep(h, s, Tick(elapsed));
  }

  lemma WriteReachable(h: LockKey, s: State, c: Change)
    requires Reachable(h, s) && c.at == s.now
    ensures Reachable(h, s.(history := s.history + [c]))
  {
    ReachableStep(h, s, Write(c));
  }

  lemma ChangedReachable(h: LockKey, t: Table, x: nat, t0: nat)
    requires x <= t0
    ensures Reachable(h, State(t0, [ChangeAt(t, x)], [], [], map[], map[], []))
  {
    StartReachable(h);
    TickReachable(h, START, x);
    WriteReachable(h, START.(now := x), ChangeAt(t, x));
    TickReachable(h, START.(now := x, history := [ChangeAt(t, x)]), t0 - x);
  }

  lemma LockedReachable(h: LockKey, t: Table, x: nat, t0: nat)
    requires x <= t0
    ensures Reachable(h, State(t0, [ChangeAt(t, x)], [], [], map[h(t) := 0], map[0 := Locked(t, t0)], []))
  {
    ChangedReachable(h, t, x, t0);
    var s := State(t0, [ChangeAt(t, x)], [], [], map[], map[], []);
    ReachableStep(h, s, Begin(0, t, t0));
    var s1 := Apply(h, s, Begin(0, t, t0));
    ReachableStep(h, s1, Acquire(0));
    assert Apply(h, s1, Acquire(0)).locks == map[h(t) := 0];
    assert Apply(h, s1, Acquire(0)).phases == map[0 := Locked(t, t0)];
  }

  lemma QueriedReachable(h: LockKey, t: Table, x: nat, t0: nat)
    requires x <= t0
    ensures Reachable(h, State(t0, [ChangeAt(t, x)], [], [], map[h(t) := 0], map[0 := HaveChanges(t, InitialRow(t, t0))], []))
  {
    LockedReachable(h, t, x, t0);
    var s := State(t0, [ChangeAt(t, x)], [], [], map[h(t) := 0], map[0 := Locked(t, t0)], []);
    ReachableStep(h, s, ReadCheckpoint(0, None));
    var s1 := Apply(h, s, ReadCheckpoint(0, None));
    var query := Query(0, Found(true), NoRow, NoRow);
    ReachableStep(h, s1, query);
    assert Apply(h, s1, query).phases == map[0 := HaveChanges(t, InitialRow(t, t0))];
  }

  lemma PooledReachable(h: LockKey, t: Table, x: nat, t0: nat)
    requires x <= t0
    ensures Reachable(h, Pooled(t, x, t0))
  {
    QueriedReachable(h, t, x, t0);
    var row := InitialRow(t, t0);
    var s := State(t0, [ChangeAt(t, x)], [], [], map[h(t) := 0], map[0 := HaveChanges(t, row)], []);
    ReachableStep(h, s, Commit(0, t0));
    var s1 := Apply(h, s, Commit(0, t0));
    ReachableStep(h, s1, Unlock(0));
    assert Apply(h, s1, Unlock(0)).phases == map[] && Apply(h, s1, Unlock(0)).locks == map[];
  }

  lemma CoveredReachable(h: LockKey, t: Table, x: nat, t0: nat, s: Time, e: Time)
    requires x <= t0 && e <= t0
    ensures Reachable(h, Pooled(t, x, t0).(phases := map[1 := Covered(t, s, e)]))
  {
    PooledReachable(h, t, x, t0);
    var st := Pooled(t, x, t0);
    ReachableStep(h, st, Ask(1, t, s, e));
    var st1 := Apply(h, st, Ask(1, t, s, e));
    CheckpointsSnoc([], Checkpoint(t, t0, t0), t);
    assert CheckpointsOf([] + st.checkpoints, t) == st.checkpoints == [] + st.checkpoints;
    ReachableStep(h, st1, ReadWatermark(1, Some(0)));
    assert Apply(h, st1, ReadWatermark(1, Some(0))).phases == map[1 := Covered(t, s, e)];
  }

  lemma MergeOfNothing()
    ensures IsMergeOf([], Some([]))
  {
    assert UnionIds([]) == Elements<Partition>([]);
  }

  lemma {:induction false} NothingSelected(t: Table, t0: Time, s: Time, e: Time)
    requires e <= t0
    ensures SelectIds([InitialRow(t, t0)], t, s, e) == []
  {
    SelectSnoc([], InitialRow(t, t0), t, s, e);
    assert [] + [InitialRow(t, t0)] == [InitialRow(t, t0)];
  }

  lemma {:induction false} RespondsNone(h: LockKey, st: State, t: Table, s: Time, e: Time)
    requires Reachable(h, st) && st.phases == map[1 := Covered(t, s, e)] && st.answers == []
    requires SelectIds(st.log, t, s, e) == []
    ensures Reachable(h, st.(phases := map[], answers := [NoneFor(t, s, e)]))
  {
    MergeOfNothing();
    ReachableStep(h, st, Respond(1, Some([])));
    assert st.phases - {1} == map[];
  }

  lemma AnsweredReachable(h: LockKey, t: Table, x: nat, t0: nat, s: Time, e: Time)
    requires x <= t0 && e <= t0
    ensures Reachable(h, Pooled(t, x, t0).(answers := [NoneFor(t, s, e)]))
  {
    CoveredReachable(h, t, x, t0, s, e);
    NothingSelected(t, t0, s, e);
    RespondsNone(h, Pooled(t, x, t0).(phases := map[1 := Covered(t, s, e)]), t, s, e);
  }

  /** Whatever the lock keys and the table: every window that ends at or before the origin, and
      holds a past instant at all, is answered "none" in some run although the table changed in it.
      The first ensure-fresh on a table never pooled before, for which the origin is the end of
      its own window, is one such run. */
  lemma {:induction false} FirstEnsureFreshMisses(h: LockKey, t: Table, s: Time, e: Time, t0: Time)
    requires s < e && 0 < e <= t0
    ensures exists st ::
      && Reachable(h, st) && NoneFor(t, s, e) in st.answers
      && RowsOf(st.log, t) != [] && Origin(st.log, t) == t0
      && "p" in ChangedIn(st.history, t, s, e)
  {
    var x := if s < 0 then 0 else s;
    AnsweredReachable(h, t, x, t0, s, e);
    var st := Pooled(t, x, t0).(answers := [NoneFor(t, s, e)]);
    LogSnoc([], InitialRow(t, t0), t);
    assert [] + st.log == st.log && RowsOf(st.log, t) == [InitialRow(t, t0)];
    assert NoneFor(t, s, e) == st.answers[0];
    assert st.history[0] == ChangeAt(t, x) && InWindow(ChangeAt(t, x), t, s, e);
  }

  /** A list answer leaves out no partition changed in its window. */
  predicate MissesNothing(st: State, a: Answer) {
    a.result.Some? ==> ChangedIn(st.history, a.t, a.s, a.e) <= Elements(a.result.value)
  }

  /** In every reachable state, answers for [s, e) over a table with origin t0 miss nothing. */
  ghost predicate AlwaysSound(h: LockKey, t: Table, s: Time, e: Time, t0: Time) {
    forall st, a ::
      Reachable(h, st) && a in st.answers && a.t == t && a.s == s && a.e == e
      && RowsOf(st.log, t) != [] && Origin(st.log, t) == t0
      ==> MissesNothing(st, a)
  }

  lemma NoChangeBeforeTime(h: LockKey, st: State, t: Table, s: Time, e: Time)
    requires Reachable(h, st) && (e <= 0 || e <= s)
    ensures ChangedIn(st.history, t, s, e) == {}
  {
    ReachableLog(h, st);
  }

  /** Soundness can be read off the request and the origin: answers are always sound if and
      only if the window ends after the origin, or holds no instant since time began. */
  lemma SoundExactlyWhen(h: LockKey, t: Table, s: Time, e: Time, t0: Time)
    ensures AlwaysSound(h, t, s, e, t0) <==> t0 < e || e <= 0 || e <= s
  {
    if t0 < e || e <= 0 || e <= s {
      forall st, a |
        Reachable(h, st) && a in st.answers && a.t == t && a.s == s && a.e == e
        && RowsOf(st.log, t) != [] && Origin(st.log, t) == t0
        ensures MissesNothing(st, a)
      {
        EnsureFreshIsSound(h, st, a);
        if t0 >= e { NoChangeBeforeTime(h, st, t, s, e); }
      }
    } else {
      FirstEnsureFreshMisses(h, t, s, e, t0);
      var st :| Reachable(h, st) && NoneFor(t, s, e) in st.answers
        && RowsOf(st.log, t) != [] && Origin(st.log, t) == t0
        && "p" in ChangedIn(st.history, t, s, e);
      assert !MissesNothing(st, NoneFor(t, s, e));
    }
  }

  // ---- coverage without trusting clocks -------------------------------------------

  /** Whatever finish times the workers report, so whichever committed checkpoint a read
      returns, the logged windows leave no hole between the origin and any committed end. */
  lemma {:induction false} CoverageWithoutClocks(h: LockKey, s: State, t: Table, k: nat, x: Time)
    requires Reachable(h, s) && k < |RowsOf(s.log, t)|
    requires Origin(s.log, t) <= x < RowsOf(s.log, t)[k].end
    ensures exists i :: 0 <= i <= k && RowsOf(s.log, t)[i].start <= x < RowsOf(s.log, t)[i].end
  {
    ReachableLog(h, s);
    assert Rooted(RowsOf(s.log, t));
    WindowsCover(RowsOf(s.log, t), k, x);
  }

  // ---- the chain ---------------------------------------------------------------------

  /** With commit-ordered finish times: one initial row of no width, then windows that
      follow each other without gap or overlap, up to the watermark. */
  lemma {:induction false} ChainInvariant(h: LockKey, s: State, t: Table)
    requires Reachable(h, s) && CommitOrdered(s.checkpoints)
    ensures var rows := RowsOf(s.log, t);
      && (rows != [] ==> IsInitial(rows[0]))
      && (forall k :: 0 < k < |rows| ==>
            rows[k].status != Initial && rows[k].start == rows[k - 1].end && rows[k].start < rows[k].end)
  {
    ReachableLog(h, s);
    ReachableChain(h, s);
    var rows := RowsOf(s.log, t);
    assert Rooted(rows) && Chained(rows);
    forall k | 0 <= k < |rows|
      ensures k == 0 ==> IsInitial(rows[0])
      ensures k > 0 ==> rows[k].status != Initial && rows[k].start < rows[k].end
    {
      assert Extends(rows[..k], rows[k]);
    }
  }

  /** ... and any checkpoint read gives the end of the last window. */
  lemma {:induction false} WatermarkIsChainEnd(h: LockKey, s: State, t: Table, pick: Option<nat>)
    requires Reachable(h, s) && CommitOrdered(s.checkpoints) && Latest(s.checkpoints, t, pick)
    ensures var rows := RowsOf(s.log, t);
      Watermark(s.checkpoints, t, pick) == if rows == [] then None else Some(rows[|rows| - 1].end)
  {
    ReachableLog(h, s);
    assert Linked(RowsOf(s.log, t), CheckpointsOf(s.checkpoints, t));
    if pick.Some? { ReadIsLast(s, t, pick); }
  }

  /** A step touches a table's chain and watermark only by committing an advancing row of it;
      `error`, `not_found`, `skipped` and failed runs leave both alone. */
  lemma {:induction false} OnlyAdvancingCommitsMoveTheChain(h: LockKey, s: State, step: Step, t: Table)
    requires Enabled(h, s, step)
    ensures var s' := Apply(h, s, step);
      if step.Commit? && Advances(s.phases[step.w].row) && s.phases[step.w].row.table == t then
        RowsOf(s'.log, t) == RowsOf(s.log, t) + [s.phases[step.w].row]
      else
        && RowsOf(s'.log, t) == RowsOf(s.log, t)
        && CheckpointsOf(s'.checkpoints, t) == CheckpointsOf(s.checkpoints, t)
  {
    if step.Commit? {
      var row := s.phases[step.w].row;
      LogSnoc(s.log, row, t);
      CheckpointsSnoc(s.checkpoints, Checkpoint(row.table, row.end, step.finishedAt), t);
    }
  }

  /** ... and an advancing commit strictly raises the watermark. */
  lemma CommitRaisesWatermark(h: LockKey, s: State, w: Worker)
    requires Reachable(h, s) && CommitOrdered(s.checkpoints)
    requires w in s.phases && s.phases[w].HaveChanges? && Advances(s.phases[w].row)
    ensures var rows := RowsOf(s.log, s.phases[w].t);
      rows != [] ==> rows[|rows| - 1].end == s.phases[w].row.start < s.phases[w].row.end
  {
    ReachableChain(h, s);
    assert AtTheEnd(RowsOf(s.log, s.phases[w].t), s.phases[w]) && PhaseOk(s, s.phases[w]);
  }

  // ---- exactness -----------------------------------------------------------------------

  predicate IsEnd(rows: seq<LogRow>, b: Time) { exists k :: 0 <= k < |rows| && rows[k].end == b }

  /** b is the greatest window boundary at or before x. */
  predicate FloorOf(rows: seq<LogRow>, x: Time, b: Time) {
    IsEnd(rows, b) && b <= x && forall k :: 0 <= k < |rows| && rows[k].end <= x ==> rows[k].end <= b
  }

  /** b is the least window boundary at or after x. */
  predicate CeilingOf(rows: seq<LogRow>, x: Time, b: Time) {
    IsEnd(rows, b) && x <= b && forall k :: 0 <= k < |rows| && x <= rows[k].end ==> b <= rows[k].end
  }

  lemma {:induction false} FloorExists(rows: seq<LogRow>, x: Time)
    requires rows != [] && rows[0].end <= x
    ensures exists b :: FloorOf(rows, x, b)
  {
    var init, last := rows[..|rows| - 1], rows[|rows| - 1];
    if |rows| == 1 {
      assert FloorOf(rows, x, rows[0].end);
    } else {
      FloorExists(init, x);
      var b :| FloorOf(init, x, b);
      var k :| 0 <= k < |init| && init[k].end == b;
      assert rows[k].end == b;
      var b' := if b < last.end <= x then last.end else b;
      assert IsEnd(rows, b');
      forall k | 0 <= k < |rows| && rows[k].end <= x ensures rows[k].end <= b' {
        if k < |init| { assert init[k].end <= b; }
      }
      assert FloorOf(rows, x, b');
    }
  }

  lemma {:induction false} CeilingExists(rows: seq<LogRow>, x: Time)
    requires rows != [] && x <= rows[|rows| - 1].end
    ensures exists b :: CeilingOf(rows, x, b)
  {
    if |rows| == 1 {
      assert CeilingOf(rows, x, rows[0].end);
    } else {
      var rest := rows[1..];
      CeilingExists(rest, x);
      var b :| CeilingOf(rest, x, b);
      assert IsEnd(rest, b);
      var k :| 0 <= k < |rest| && rest[k].end == b;
      assert rows[k + 1].end == b;
      var b' := if x <= rows[0].end < b then rows[0].end else b;
      assert IsEnd(rows, b');
      forall k | 0 <= k < |rows| && x <= rows[k].end ensures b' <= rows[k].end {
        if k > 0 { assert rest[k - 1] == rows[k]; }
      }
      assert CeilingOf(rows, x, b');
    }
  }

  lemma {:induction false} EndsIncrease(rows: seq<LogRow>, j: nat, k: nat)
    requires Rooted(rows) && Chained(rows) && j < k < |rows|
    ensures rows[j].end < rows[k].end
    decreases k
  {
    assert Extends(rows[..k], rows[k]);
    if j < k - 1 { EndsIncrease(rows, j, k - 1); }
  }

  /** The windows laid end to end on the time line, the initial one of no width. */
  predicate Line(rows: seq<LogRow>) {
    && (rows != [] ==> rows[0].start == rows[0].end)
    && Chained(rows)
    && (forall j, k :: 0 <= j < k < |rows| ==> rows[j].end < rows[k].end)
  }

  lemma ChainIsLine(rows: seq<LogRow>)
    requires Rooted(rows) && Chained(rows)
    ensures Line(rows)
  {
    if rows != [] { assert Extends(rows[..0], rows[0]); }
    forall j, k | 0 <= j < k < |rows| ensures rows[j].end < rows[k].end { EndsIncrease(rows, j, k); }
  }

  /** An overlapping window lies between the boundaries around [s, e). */
  lemma OverlapInsideBoundaries(rows: seq<LogRow>, k: nat, s: Time, e: Time, lo: Time, hi: Time)
    requires Line(rows) && k < |rows| && rows[0].end <= s
    requires FloorOf(rows, s, lo) && CeilingOf(rows, e, hi)
    requires rows[k].start < e && rows[k].end > s
    ensures lo <= rows[k].start && rows[k].end <= hi
  {
    var j :| 0 <= j < |rows| && rows[j].end == lo;
    var m :| 0 <= m < |rows| && rows[m].end == hi;
    assert k > 0 && rows[k].start == rows[k - 1].end;
  }

  /** A window holding an instant between the boundaries overlaps [s, e). */
  lemma InsideBoundariesOverlaps(rows: seq<LogRow>, k: nat, x: Time, s: Time, e: Time, lo: Time, hi: Time)
    requires Line(rows) && k < |rows| && FloorOf(rows, s, lo) && CeilingOf(rows, e, hi)
    requires lo <= x < hi && rows[k].start <= x < rows[k].end
    ensures rows[k].start < e && rows[k].end > s
  {
    assert k > 0 && rows[k - 1].end == rows[k].start;
  }

  /** The merged list is exactly what changed between the window boundaries around [from, upto). */
  lemma {:induction false} AnswerIsExact(h: LockKey, s: State, t: Table, from: Time, upto: Time, lo: Time, hi: Time,
      result: Option<seq<Partition>>)
    requires Reachable(h, s) && CommitOrdered(s.checkpoints)
    requires RowsOf(s.log, t) != [] && Origin(s.log, t) <= from
    requires FloorOf(RowsOf(s.log, t), from, lo) && CeilingOf(RowsOf(s.log, t), upto, hi)
    requires IsMergeOf(SelectIds(s.log, t, from, upto), result) && result.Some?
    ensures Increasing(result.value) && Elements(result.value) == ChangedIn(s.history, t, lo, hi)
  {
    ReachableLog(h, s);
    ReachableChain(h, s);
    assert Rooted(RowsOf(s.log, t)) && Chained(RowsOf(s.log, t));
    ListedChanged(s, t, from, upto, lo, hi);
    ChangedListed(s, t, from, upto, lo, hi, result);
  }

  lemma {:induction false} ListedChanged(s: State, t: Table, from: Time, upto: Time, lo: Time, hi: Time)
    requires LogOk(s) && Chained(RowsOf(s.log, t)) && RowsOf(s.log, t) != [] && Origin(s.log, t) <= from
    requires FloorOf(RowsOf(s.log, t), from, lo) && CeilingOf(RowsOf(s.log, t), upto, hi)
    ensures UnionIds(SelectIds(s.log, t, from, upto)) <= ChangedIn(s.history, t, lo, hi)
  {
    var rows, ids := RowsOf(s.log, t), SelectIds(s.log, t, from, upto);
    assert Rooted(rows);
    ChainIsLine(rows);
    forall i | 0 <= i < |ids| && ids[i].Some? ensures Elements(ids[i].value) <= ChangedIn(s.history, t, lo, hi) {
      var r := SelectedFrom(s.log, t, from, upto, i);
      var k :| 0 <= k < |rows| && rows[k] == r;
      OverlapInsideBoundaries(rows, k, from, upto, lo, hi);
      RowChanged(s, t, r, lo, hi);
    }
  }

  lemma {:induction false} RowChanged(s: State, t: Table, r: LogRow, lo: Time, hi: Time)
    requires LogOk(s) && r in RowsOf(s.log, t) && lo <= r.start && r.end <= hi && r.ids.Some?
    ensures Elements(r.ids.value) <= ChangedIn(s.history, t, lo, hi)
  {
    RowsAreLogged(s.log, t);
    assert RowExact(s.history, s.now, r);
  }

  lemma {:induction false} ChangedListed(s: State, t: Table, from: Time, upto: Time, lo: Time, hi: Time,
      result: Option<seq<Partition>>)
    requires LogOk(s) && RowsOf(s.log, t) != [] && Chained(RowsOf(s.log, t))
    requires FloorOf(RowsOf(s.log, t), from, lo) && CeilingOf(RowsOf(s.log, t), upto, hi)
    requires IsMergeOf(SelectIds(s.log, t, from, upto), result) && result.Some?
    ensures ChangedIn(s.history, t, lo, hi) <= UnionIds(SelectIds(s.log, t, from, upto))
  {
    var rows := RowsOf(s.log, t);
    assert Rooted(rows);
    BoundaryAfterOrigin(rows, lo);
    ChainIsLine(rows);
    forall i | 0 <= i < |s.history| && InWindow(s.history[i], t, lo, hi) && s.history[i].partition.Some?
      ensures s.history[i].partition.value in Elements(result.value)
    {
      var k := WindowAround(rows, s.history[i].at, lo, hi);
      InsideBoundariesOverlaps(rows, k, s.history[i].at, from, upto, lo, hi);
      OverlapIsListed(s, Answer(t, from, upto, result), rows[k]);
      assert s.history[i].partition.value in ChangedIn(s.history, t, rows[k].start, rows[k].end);
    }
  }

  lemma WindowAround(rows: seq<LogRow>, x: Time, lo: Time, hi: Time) returns (k: nat)
    requires Rooted(rows) && rows != [] && rows[0].end <= lo <= x < hi && IsEnd(rows, hi)
    ensures k < |rows| && rows[k].start <= x < rows[k].end
  {
    var m :| 0 <= m < |rows| && rows[m].end == hi;
    WindowsCover(rows, m, x);
    k :| 0 <= k <= m && rows[k].start <= x < rows[k].end;
  }

  lemma BoundaryAfterOrigin(rows: seq<LogRow>, b: Time)
    requires Rooted(rows) && IsEnd(rows, b)
    ensures rows[0].end <= b
  {
    var k :| 0 <= k < |rows| && rows[k].end == b;
    NothingBeforeOrigin(rows, k);
  }

  // ---- stability ---------------------------------------------------------------------------

  predicate Reached(s: State, t: Table, e: Time) {
    var rows := RowsOf(s.log, t);
    rows != [] && rows[|rows| - 1].end >= e
  }

  lemma {:induction false} OrderedAllAlong(h: LockKey, s: State, steps: seq<Step>)
    requires Run(h, s, steps) && CommitOrdered(After(h, s, steps).checkpoints)
    ensures CommitOrdered(s.checkpoints)
    decreases |steps|
  {
    if steps != [] {
      var s' := Apply(h, s, steps[0]);
      OrderedAllAlong(h, s', steps[1..]);
      if steps[0].Commit? && s'.checkpoints != s.checkpoints {
        var row := s.phases[steps[0].w].row;
        OrderedBefore(s.checkpoints, Checkpoint(row.table, row.end, steps[0].finishedAt));
      }
    }
  }

  lemma {:induction false} StableCommit(s: State, w: Worker, t: Table, from: Time, e: Time)
    requires PhasesOk(s) && ChainOk(s) && w in s.phases && s.phases[w].HaveChanges? && Reached(s, t, e)
    ensures SelectIds(LogAfter(s.log, s.phases[w].row), t, from, e) == SelectIds(s.log, t, from, e)
    ensures var rows := RowsOf(LogAfter(s.log, s.phases[w].row), t); rows != [] && rows[|rows| - 1].end >= e
  {
    var p := s.phases[w];
    LogSnoc(s.log, p.row, t);
    SelectSnoc(s.log, p.row, t, from, e);
    assert PhaseOk(s, p) && AtTheEnd(RowsOf(s.log, p.t), p);
  }

  lemma {:induction false} StableStep(h: LockKey, s: State, step: Step, t: Table, from: Time, e: Time)
    requires PhasesOk(s) && ChainOk(s) && Enabled(h, s, step) && Reached(s, t, e)
    ensures SelectIds(Apply(h, s, step).log, t, from, e) == SelectIds(s.log, t, from, e)
    ensures Reached(Apply(h, s, step), t, e)
  {
    if step.Commit? { StableCommit(s, step.w, t, from, e); }
  }

  /** Once the watermark has reached e, the rows behind an answer for [from, e) never change again,
      so reading the checkpoint and the log at different times is as good as reading them at once. */
  lemma {:induction false} AnswerIsStable(h: LockKey, s: State, steps: seq<Step>, t: Table, from: Time, e: Time)
    requires Reachable(h, s) && Run(h, s, steps) && CommitOrdered(After(h, s, steps).checkpoints) && Reached(s, t, e)
    ensures SelectIds(After(h, s, steps).log, t, from, e) == SelectIds(s.log, t, from, e)
    ensures Reached(After(h, s, steps), t, e)
    decreases |steps|
  {
    if steps != [] {
      OrderedAllAlong(h, s, steps);
      ReachableChain(h, s);
      StableStep(h, s, steps[0], t, from, e);
      ReachableStep(h, s, steps[0]);
      AnswerIsStable(h, Apply(h, s, steps[0]), steps[1..], t, from, e);
    }
  }

  lemma {:induction false} SameAnswerLater(h: LockKey, s: State, steps: seq<Step>, t: Table, pick: Option<nat>,
      from: Time, e: Time,
                        before: Option<seq<Partition>>, later: Option<seq<Partition>>)
    requires Reachable(h, s) && Run(h, s, steps) && CommitOrdered(After(h, s, steps).checkpoints)
    requires Latest(s.checkpoints, t, pick) && pick.Some? && Watermark(s.checkpoints, t, pick).value >= e
    requires IsMergeOf(SelectIds(s.log, t, from, e), before)
    requires IsMergeOf(SelectIds(After(h, s, steps).log, t, from, e), later)
    ensures before == later
  {
    ReachableLog(h, s);
    OrderedAllAlong(h, s, steps);
    ReadIsLast(s, t, pick);
    AnswerIsStable(h, s, steps, t, from, e);
    var ids := SelectIds(s.log, t, from, e);
    MergeUnique(ids, ids, before, later);
  }

  // ---- mutual exclusion and progress ----------------------------------------------------------

  /** No two workers are between the lock and the unlock for one table, for any lock key. */
  lemma MutualExclusion(h: LockKey, s: State, w: Worker, w': Worker)
    requires Reachable(h, s) && w in s.phases && w' in s.phases && w != w'
    requires Holding(s.phases[w]) && Holding(s.phases[w'])
    ensures s.phases[w].t != s.phases[w'].t
  {
    ReachableLocks(h, s);
    HoldersDiffer(h, s, w, w');
  }

  /** How many of its own steps a worker is away from being done. */
  function Rank(s: State, w: Worker): nat {
    if w !in s.phases then 0
    else match s.phases[w]
      case Waiting(_, _) => 5
      case Locked(_, _) => 4
      case HaveCheckpoint(_, _, _) => 3
      case HaveChanges(_, _) => 2
      case Finished(_) => 1
      case Asked(_, _, _) => 2
      case Covered(_, _, _) => 1
  }

  /** A step of w that brings w closer to being done and leaves all other workers where they are. */
  ghost predicate Progress(h: LockKey, s: State, w: Worker, step: Step) {
    && Enabled(h, s, step) && !step.Fail? && !step.GiveUp?
    && Rank(Apply(h, s, step), w) < Rank(s, w)
    && forall x :: x != w ==> Rank(Apply(h, s, step), x) == Rank(s, x)
  }

  lemma LatestExists(cps: seq<Checkpoint>, t: Table) returns (pick: Option<nat>)
    ensures Latest(cps, t, pick)
  {
    var mine := CheckpointsOf(cps, t);
    if mine == [] {
      pick := None;
    } else {
      var best := LatestIn(mine);
      pick := Some(best);
    }
  }

  lemma {:induction false} LatestIn(mine: seq<Checkpoint>) returns (best: nat)
    requires mine != []
    ensures IsLatest(mine, best)
  {
    var n := |mine| - 1;
    best := n;
    if n > 0 {
      var k := LatestIn(mine[..n]);
      assert mine[..n][k] == mine[k];
      if mine[n].finishedAt <= mine[k].finishedAt { best := k; }
      forall j | 0 <= j < n ensures mine[j].finishedAt <= mine[best].finishedAt { assert mine[..n][j] == mine[j]; }
    }
  }

  lemma {:induction false} SortedExists(elems: set<string>) returns (r: seq<string>)
    ensures Increasing(r) && Elements(r) == elems
    decreases |elems|
  {
    if elems == {} {
      r := [];
    } else {
      var x :| x in elems;
      var rest := SortedExists(elems - {x});
      assert x !in Elements(rest);
      r := InsertedExists(rest, x);
    }
  }

  lemma InsertedExists(s: seq<string>, x: string) returns (r: seq<string>)
    requires Increasing(s) && x !in s
    ensures Increasing(r) && Elements(r) == Elements(s) + {x}
  {
    if s == [] {
      r := [x];
    } else {
      LessIsTotal(s[0], x);
      if Less(x, s[0]) {
        r := [x] + s;
        forall i | 1 <= i < |s| ensures Less(x, s[i]) { LessIsTransitive(x, s[0], s[i]); }
      } else {
        var rest := InsertedExists(s[1..], x);
        r := [s[0]] + rest;
        forall i | 0 <= i < |rest| ensures Less(s[0], rest[i]) { assert rest[i] in Elements(rest); }
        assert s == [s[0]] + s[1..];
      }
    }
  }

  lemma MergeExists(rows: seq<Option<seq<Partition>>>) returns (r: Option<seq<Partition>>)
    ensures IsMergeOf(rows, r)
  {
    if SomeAll(rows) {
      r := None;
    } else {
      var list := SortedExists(UnionIds(rows));
      r := Some(list);
    }
  }

  lemma OwnStepOnly(h: LockKey, s: State, step: Step, x: Worker)
    requires Enabled(h, s, step) && !step.Tick? && !step.Write? && x != step.w
    ensures Rank(Apply(h, s, step), x) == Rank(s, x)
  {
    var s' := Apply(h, s, step);
    assert x in s'.phases <==> x in s.phases;
    assert x in s.phases ==> s'.phases[x] == s.phases[x];
  }

  lemma MovesOnlyItself(h: LockKey, s: State, w: Worker, step: Step)
    requires Enabled(h, s, step) && !step.Tick? && !step.Write? && !step.Fail? && !step.GiveUp? && step.w == w
    requires Rank(Apply(h, s, step), w) < Rank(s, w)
    ensures Progress(h, s, w, step)
  {
    forall x | x != w ensures Rank(Apply(h, s, step), x) == Rank(s, x) { OwnStepOnly(h, s, step, x); }
  }

  /** A worker that waits for no lock can always take its next ordinary step. */
  lemma CanMove(h: LockKey, s: State, w: Worker) returns (step: Step)
    requires w in s.phases && (s.phases[w].Waiting? ==> h(s.phases[w].t) !in s.locks)
    ensures Progress(h, s, w, step)
  {
    step := NextStep(h, s, w);
    MovesOnlyItself(h, s, w, step);
  }

  lemma NextStep(h: LockKey, s: State, w: Worker) returns (step: Step)
    requires w in s.phases && (s.phases[w].Waiting? ==> h(s.phases[w].t) !in s.locks)
    ensures !step.Tick? && !step.Write? && !step.Fail? && !step.GiveUp? && step.w == w
    ensures Enabled(h, s, step) && Rank(Apply(h, s, step), w) < Rank(s, w)
  {
    match s.phases[w]
    case Waiting(t, end) => step := Acquire(w);
    case Locked(t, end) =>
      var pick := LatestExists(s.checkpoints, t);
      step := ReadCheckpoint(w, pick);
    case HaveCheckpoint(t, end, watermark) => step := Query(w, Found(true), Failed(false, false), Failed(false, false));
    case HaveChanges(t, row) => step := Commit(w, s.now);
    case Finished(t) => step := Unlock(w);
    case Asked(t, lo, hi) => step := NotFresh(w);
    case Covered(t, lo, hi) =>
      var result := MergeExists(SelectIds(s.log, t, lo, hi));
      step := Respond(w, result);
  }

  /** No reachable state with unfinished workers is stuck, even when lock keys collide:
      a worker or the holder of the lock it waits for can move on. */
  lemma NoDeadlock(h: LockKey, s: State, w: Worker)
    requires Reachable(h, s) && w in s.phases
    ensures exists mover, step ::
      Progress(h, s, mover, step) &&
      (mover == w || (s.phases[w].Waiting? && mover in s.phases && Holding(s.phases[mover])))
  {
    ReachableLocks(h, s);
    var key := h(s.phases[w].t);
    var mover := if s.phases[w].Waiting? && key in s.locks then s.locks[key] else w;
    var step := CanMove(h, s, mover);
  }

  // ---- termination -------------------------------------------------------------------------

  predicate Leads(h: LockKey, s: State, steps: seq<Step>, s': State) { Run(h, s, steps) && After(h, s, steps) == s' }

  lemma {:induction false} LeadsOn(h: LockKey, s: State, steps: seq<Step>, s': State, more: seq<Step>, s'': State)
    requires Leads(h, s, steps, s') && Leads(h, s', more, s'')
    ensures Leads(h, s, steps + more, s'')
    decreases |steps|
  {
    if steps == [] {
      assert steps + more == more;
    } else {
      LeadsOn(h, Apply(h, s, steps[0]), steps[1..], s', more, s'');
      assert (steps + more)[1..] == steps[1..] + more;
    }
  }

  lemma OneStep(h: LockKey, s: State, step: Step)
    requires Enabled(h, s, step)
    ensures Leads(h, s, [step], Apply(h, s, step))
  {
    assert [step][1..] == [];
  }

  lemma RankOfWorker(s: State, w: Worker)
    ensures Rank(s, w) == 0 <==> w !in s.phases
  {}

  /** A step of w that lowers its rank leaves w past the waiting, or gone. */
  lemma NotWaitingAfter(h: LockKey, s: State, w: Worker, step: Step)
    requires Progress(h, s, w, step)
    ensures var s' := Apply(h, s, step); w in s'.phases ==> !s'.phases[w].Waiting?
    ensures Apply(h, s, step).phases.Keys - {w} == s.phases.Keys - {w}
  {
    var s' := Apply(h, s, step);
    RankAtMostFive(s, w);
    forall x | x != w ensures x in s'.phases <==> x in s.phases {
      RankOfWorker(s, x);
      RankOfWorker(s', x);
    }
  }

  lemma RankAtMostFive(s: State, w: Worker)
    ensures Rank(s, w) <= 5
  {}

  /** A worker that waits for no taken lock can run to its end on its own. */
  lemma {:induction false} OneFinishes(h: LockKey, s: State, w: Worker) returns (steps: seq<Step>, s': State)
    requires Reachable(h, s) && (w in s.phases && s.phases[w].Waiting? ==> h(s.phases[w].t) !in s.locks)
    ensures Reachable(h, s') && Leads(h, s, steps, s') && s'.phases.Keys == s.phases.Keys - {w}
    decreases Rank(s, w)
  {
    if w !in s.phases {
      steps, s' := [], s;
    } else {
      var step := CanMove(h, s, w);
      var next := Apply(h, s, step);
      ReachableStep(h, s, step);
      NotWaitingAfter(h, s, w, step);
      var rest, last := OneFinishes(h, next, w);
      OneStep(h, s, step);
      LeadsOn(h, s, [step], next, rest, last);
      steps, s' := [step] + rest, last;
    }
  }

  /** From every reachable state some run finishes all workers, even when lock keys collide. */
  lemma {:induction false} AllCanFinish(h: LockKey, s: State)
    requires Reachable(h, s)
    ensures exists steps, s' :: Leads(h, s, steps, s') && s'.phases == map[]
    decreases |s.phases.Keys|
  {
    if s.phases == map[] {
      assert Leads(h, s, [], s);
    } else {
      var w :| w in s.phases;
      ReachableLocks(h, s);
      var key := h(s.phases[w].t);
      var first := if s.phases[w].Waiting? && key in s.locks then s.locks[key] else w;
      var steps, next := OneFinishes(h, s, first);
      assert |next.phases.Keys| < |s.phases.Keys|;
      AllCanFinish(h, next);
      var more, last :| Leads(h, next, more, last) && last.phases == map[];
      LeadsOn(h, s, steps, next, more, last);
    }
  }

  /** Some run leads from the one state to the other. */
  ghost predicate Reaches(h: LockKey, s: State, s': State) { exists steps :: Leads(h, s, steps, s') }

  lemma ReachesItself(h: LockKey, s: State)
    ensures Reaches(h, s, s)
  {
    assert Leads(h, s, [], s);
  }

  lemma ReachesStep(h: LockKey, s: State, s': State, step: Step)
    requires Reaches(h, s, s') && Enabled(h, s', step)
    ensures Reaches(h, s, Apply(h, s', step))
  {
    var steps :| Leads(h, s, steps, s');
    OneStep(h, s', step);
    LeadsOn(h, s, steps, s', [step], Apply(h, s', step));
  }

  lemma ReachableReaches(h: LockKey, s: State, s': State)
    requires Reachable(h, s) && Reaches(h, s, s')
    ensures Reachable(h, s')
  {
    var start :| Run(h, START, start) && After(h, START, start) == s;
    var steps :| Leads(h, s, steps, s');
    LeadsOn(h, START, start, s, steps, s');
  }
}
