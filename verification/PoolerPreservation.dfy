// Every step keeps the invariant, so it holds in every reachable state.
module PoolerPreservation {
  import opened Common
  import opened ChangeTracking
  import opened PoolerSteps
  import opened PoolerInvariant

  // ---- growing the log ---------------------------------------------------------

  lemma {:induction false} LogSnoc(log: seq<LogRow>, row: LogRow, t: Table)
    ensures RowsOf(log + [row], t) == if row.table == t && Advances(row) then RowsOf(log, t) + [row] else RowsOf(log, t)
  {
    assert (log + [row])[..|log|] == log;
  }

  lemma {:induction false} CheckpointsSnoc(cps: seq<Checkpoint>, cp: Checkpoint, t: Table)
    ensures CheckpointsOf(cps + [cp], t) == if cp.table == t then CheckpointsOf(cps, t) + [cp] else CheckpointsOf(cps, t)
  {
    assert (cps + [cp])[..|cps|] == cps;
  }

  lemma {:induction false} SelectSnoc(log: seq<LogRow>, row: LogRow, t: Table, s: Time, e: Time)
    ensures SelectIds(log + [row], t, s, e) ==
      if Matches(row, t, s, e) then SelectIds(log, t, s, e) + [row.ids] else SelectIds(log, t, s, e)
  {
    assert (log + [row])[..|log|] == log;
  }

  lemma {:induction false} RowsAreLogged(log: seq<LogRow>, t: Table)
    ensures forall r :: r in RowsOf(log, t) <==> r in log && r.table == t && Advances(r)
  {
    if log != [] {
      RowsAreLogged(log[..|log| - 1], t);
      assert log == log[..|log| - 1] + [log[|log| - 1]];
    }
  }

  /** Every selected entry comes from an overlapping advancing row ... */
  lemma {:induction false} SelectedFrom(log: seq<LogRow>, t: Table, s: Time, e: Time, i: nat) returns (r: LogRow)
    requires i < |SelectIds(log, t, s, e)|
    ensures r in RowsOf(log, t) && r.start < e && r.end > s && r.ids == SelectIds(log, t, s, e)[i]
  {
    var n := |log| - 1;
    if i < |SelectIds(log[..n], t, s, e)| {
      r := SelectedFrom(log[..n], t, s, e, i);
    } else {
      r := log[n];
    }
  }

  /** ... and every such row is selected. */
  lemma {:induction false} Selected(log: seq<LogRow>, t: Table, s: Time, e: Time, r: LogRow) returns (i: nat)
    requires r in RowsOf(log, t) && r.start < e && r.end > s
    ensures i < |SelectIds(log, t, s, e)| && SelectIds(log, t, s, e)[i] == r.ids
  {
    var n := |log| - 1;
    if r in RowsOf(log[..n], t) {
      i := Selected(log[..n], t, s, e, r);
    } else {
      i := |SelectIds(log[..n], t, s, e)|;
    }
  }

  // ---- growing the history --------------------------------------------------------

  lemma ChangeOutside(history: seq<Change>, c: Change, t: Table, s: Time, e: Time)
    requires !InWindow(c, t, s, e)
    ensures ChangedIn(history + [c], t, s, e) == ChangedIn(history, t, s, e)
  {
    var more := history + [c];
    forall p | p in ChangedIn(history, t, s, e) ensures p in ChangedIn(more, t, s, e) {
      var i :| 0 <= i < |history| && InWindow(history[i], t, s, e) && history[i].partition == Some(p);
      assert more[i] == history[i];
    }
    forall p | p in ChangedIn(more, t, s, e) ensures p in ChangedIn(history, t, s, e) {
      var i :| 0 <= i < |more| && InWindow(more[i], t, s, e) && more[i].partition == Some(p);
      assert i < |history| && more[i] == history[i];
    }
  }

  // ---- coverage ----------------------------------------------------------------------

  lemma {:induction false} NothingBeforeOrigin(rows: seq<LogRow>, k: nat)
    requires Rooted(rows) && k < |rows|
    ensures rows[0].end <= rows[k].start <= rows[k].end
    decreases k
  {
    assert Extends(rows[..k], rows[k]);
    if k > 0 {
      var j :| 0 <= j < k && rows[..k][j].end == rows[k].start;
      NothingBeforeOrigin(rows, j);
    }
  }

  /** The windows cover everything from the origin to any committed end, whichever
      earlier checkpoints the workers started from. */
  lemma {:induction false} WindowsCover(rows: seq<LogRow>, k: nat, x: Time)
    requires Rooted(rows) && k < |rows| && rows[0].end <= x < rows[k].end
    ensures exists i :: 0 <= i <= k && rows[i].start <= x < rows[i].end
    decreases k
  {
    assert Extends(rows[..k], rows[k]);
    if k > 0 && x < rows[k].start {
      var j :| 0 <= j < k && rows[..k][j].end == rows[k].start;
      WindowsCover(rows, j, x);
    }
  }

  lemma RootedPrefixes(rows: seq<LogRow>, row: LogRow)
    requires Rooted(rows) && Extends(rows, row)
    ensures Rooted(rows + [row])
  {
    var more := rows + [row];
    forall k | 0 <= k < |more| ensures Extends(more[..k], more[k]) {
      if k < |rows| {
        assert more[..k] == rows[..k] && more[k] == rows[k];
      } else {
        assert more[..k] == rows;
      }
    }
  }

  // ---- answers -----------------------------------------------------------------------

  /** A row overlapping a list answer is an `ok` row whose ids are all in the list. */
  lemma OverlapIsListed(s: State, a: Answer, r: LogRow)
    requires LogOk(s) && r in RowsOf(s.log, a.t) && r.start < a.e && r.end > a.s
    requires a.result.Some? && IsMergeOf(SelectIds(s.log, a.t, a.s, a.e), a.result)
    ensures r.end <= s.now && ChangedIn(s.history, a.t, r.start, r.end) <= Elements(a.result.value)
  {
    var ids := SelectIds(s.log, a.t, a.s, a.e);
    RowsAreLogged(s.log, a.t);
    assert RowExact(s.history, s.now, r);
    var i := Selected(s.log, a.t, a.s, a.e, r);
    assert ids[i].Some?;
    assert forall p :: p in r.ids.value ==> p in UnionIds(ids);
  }

  lemma ListMissesNothing(s: State, a: Answer)
    requires LogOk(s) && ReachesTo(RowsOf(s.log, a.t), a.e) && Origin(s.log, a.t) <= a.s
    requires a.result.Some? && IsMergeOf(SelectIds(s.log, a.t, a.s, a.e), a.result)
    ensures ChangedIn(s.history, a.t, a.s, a.e) <= Elements(a.result.value)
  {
    var rows := RowsOf(s.log, a.t);
    forall p | p in ChangedIn(s.history, a.t, a.s, a.e) ensures p in Elements(a.result.value) {
      var i :| 0 <= i < |s.history| && InWindow(s.history[i], a.t, a.s, a.e) && s.history[i].partition == Some(p);
      var k :| 0 <= k < |rows| && rows[k].end >= a.e;
      WindowsCover(rows, k, s.history[i].at);
      var m :| 0 <= m <= k && rows[m].start <= s.history[i].at < rows[m].end;
      OverlapIsListed(s, a, rows[m]);
      assert p in ChangedIn(s.history, a.t, rows[m].start, rows[m].end);
    }
  }

  lemma WindowHasPassed(s: State, a: Answer)
    requires LogOk(s) && ReachesTo(RowsOf(s.log, a.t), a.e) && Origin(s.log, a.t) <= a.s < a.e
    requires a.result.Some? && IsMergeOf(SelectIds(s.log, a.t, a.s, a.e), a.result)
    ensures a.e <= s.now
  {
    var rows := RowsOf(s.log, a.t);
    var k :| 0 <= k < |rows| && rows[k].end >= a.e;
    WindowsCover(rows, k, a.e - 1);
    var m :| 0 <= m <= k && rows[m].start <= a.e - 1 < rows[m].end;
    OverlapIsListed(s, a, rows[m]);
  }

  lemma BeforeOriginIsEmpty(s: State, a: Answer)
    requires LogOk(s) && RowsOf(s.log, a.t) != [] && a.e <= Origin(s.log, a.t)
    ensures SelectIds(s.log, a.t, a.s, a.e) == []
  {
    var rows := RowsOf(s.log, a.t);
    assert Rooted(rows);
    if SelectIds(s.log, a.t, a.s, a.e) != [] {
      var r := SelectedFrom(s.log, a.t, a.s, a.e, 0);
      var k :| 0 <= k < |rows| && rows[k] == r;
      NothingBeforeOrigin(rows, k);
    }
  }

  lemma AcrossOriginIsAll(s: State, a: Answer)
    requires LogOk(s) && RowsOf(s.log, a.t) != [] && a.s < Origin(s.log, a.t) < a.e
    ensures SomeAll(SelectIds(s.log, a.t, a.s, a.e))
  {
    var rows := RowsOf(s.log, a.t);
    assert Rooted(rows) && Extends(rows[..0], rows[0]);
    RowsAreLogged(s.log, a.t);
    assert rows[0] in rows && RowExact(s.history, s.now, rows[0]);
    var i := Selected(s.log, a.t, a.s, a.e, rows[0]);
  }

  /** What `get_affected_partitions` returns once some watermark at or past e was seen. */
  lemma AnswerIsSound(s: State, a: Answer)
    requires LogOk(s) && ReachesTo(RowsOf(s.log, a.t), a.e)
    requires IsMergeOf(SelectIds(s.log, a.t, a.s, a.e), a.result)
    ensures Sound(s, a)
  {
    var t0 := Origin(s.log, a.t);
    if a.e <= t0 {
      BeforeOriginIsEmpty(s, a);
      MergeUnique([], [], a.result, Some([]));
    } else if a.s < t0 {
      AcrossOriginIsAll(s, a);
    } else if a.result.Some? {
      ListMissesNothing(s, a);
      if a.s < a.e { WindowHasPassed(s, a); }
    }
  }

  // ---- one step ----------------------------------------------------------------------

  lemma LocksStep(h: LockKey, s: State, step: Step)
    requires LocksOk(h, s) && Enabled(h, s, step)
    ensures LocksOk(h, Apply(h, s, step))
  {}

  /** The row a run decides on, judged by the history and by what it knows of the log. */
  lemma DecisionIsExact(s: State, w: Worker, meta: Meta, first: PoolerSteps.Reply, second: PoolerSteps.Reply)
    requires w in s.phases && s.phases[w].HaveCheckpoint? && PhaseOk(s, s.phases[w])
    requires var p := s.phases[w]; p.watermark.Some? ==>
      && Truthful(s.history, s.now, p.t, p.watermark.value, p.end, first)
      && Truthful(s.history, s.now, p.t, p.watermark.value, p.end, second)
    ensures var p := s.phases[w]; PhaseOk(s, AfterQuery(p, Decide(p.t, p.watermark, p.end, meta, first, second)))
  {
    var p := s.phases[w];
    if p.watermark.Some? {
      ReplyIsExact(s.history, s.now, p.t, p.watermark.value, p.end, first);
      ReplyIsExact(s.history, s.now, p.t, p.watermark.value, p.end, second);
    }
  }

  lemma ReplyIsExact(history: seq<Change>, now: Time, t: Table, s: Time, e: Time, r: PoolerSteps.Reply)
    requires Truthful(history, now, t, s, e, r)
    ensures !r.Failed? ==> RowExact(history, now, LogRow(t, s, e, OfRow(r).0, OfRow(r).1))
  {
    if !AnyIn(history, t, s, e) { assert ChangedIn(history, t, s, e) == {}; }
    if r.Row? { CoerceKeepsListed(r.raw); }
  }

  lemma RowStaysExact(s: State, step: Step, row: LogRow)
    requires HistoryOk(s) && (step.Write? ==> step.c.at == s.now) && (step.Write? || step.Tick?)
    requires RowExact(s.history, s.now, row)
    ensures step.Write? ==> RowExact(s.history + [step.c], s.now, row)
    ensures step.Tick? ==> RowExact(s.history, s.now + step.elapsed, row)
  {
    if step.Write? && row.status == Okay {
      ChangeOutside(s.history, step.c, row.table, row.start, row.end);
    }
  }

  lemma LogCommit(s: State, row: LogRow, finishedAt: Time)
    requires LogOk(s) && RowExact(s.history, s.now, row)
    requires Advances(row) ==> Extends(RowsOf(s.log, row.table), row)
    ensures LogOk(s.(log := LogAfter(s.log, row), checkpoints := CheckpointsAfter(s.checkpoints, row, finishedAt)))
  {
    var log', cps' := LogAfter(s.log, row), CheckpointsAfter(s.checkpoints, row, finishedAt);
    var cp := Checkpoint(row.table, row.end, finishedAt);
    forall t ensures Rooted(RowsOf(log', t)) && Linked(RowsOf(log', t), CheckpointsOf(cps', t)) {
      LogSnoc(s.log, row, t);
      CheckpointsSnoc(s.checkpoints, cp, t);
      assert Rooted(RowsOf(s.log, t)) && Linked(RowsOf(s.log, t), CheckpointsOf(s.checkpoints, t));
      if row.table == t && Advances(row) { RootedPrefixes(RowsOf(s.log, t), row); }
    }
  }

  lemma LogStep(h: LockKey, s: State, step: Step)
    requires LogOk(s) && PhasesOk(s) && Enabled(h, s, step)
    ensures LogOk(Apply(h, s, step))
  {
    if step.Write? || step.Tick? {
      var s' := Apply(h, s, step);
      forall i | 0 <= i < |s.log| ensures RowExact(s'.history, s'.now, s.log[i]) {
        RowStaysExact(s, step, s.log[i]);
      }
    } else if step.Commit? {
      assert PhaseOk(s, s.phases[step.w]);
      LogCommit(s, s.phases[step.w].row, step.finishedAt);
    }
  }

  /** A watermark read is the end of a logged window. */
  lemma {:induction false} WatermarkIsKnown(s: State, t: Table, pick: Option<nat>)
    requires LogOk(s) && Latest(s.checkpoints, t, pick)
    ensures KnowsWatermark(RowsOf(s.log, t), Watermark(s.checkpoints, t, pick))
  {
    var rows := RowsOf(s.log, t);
    assert Linked(rows, CheckpointsOf(s.checkpoints, t));
    if pick.Some? { assert rows[pick.value].end == CheckpointsOf(s.checkpoints, t)[pick.value].end; }
  }

  /** Two workers past the lock work on different tables, also when lock keys collide. */
  lemma HoldersDiffer(h: LockKey, s: State, w: Worker, w': Worker)
    requires LocksOk(h, s) && w in s.phases && w' in s.phases && w != w'
    requires Holding(s.phases[w]) && Holding(s.phases[w'])
    ensures h(s.phases[w].t) != h(s.phases[w'].t) && s.phases[w].t != s.phases[w'].t
  {}

  lemma PhaseStays(h: LockKey, s: State, step: Step, w: Worker)
    requires Inv(h, s) && Enabled(h, s, step)
    requires w in s.phases && (step.Tick? || step.Write? || step.w != w)
    ensures PhaseOk(Apply(h, s, step), s.phases[w])
  {
    assert PhaseOk(s, s.phases[w]);
    if step.Write? || step.Tick? {
      if s.phases[w].HaveChanges? { RowStaysExact(s, step, s.phases[w].row); }
    } else if step.Commit? {
      PhaseStaysAtCommit(h, s, step, w);
    }
  }

  lemma PhaseStaysAtCommit(h: LockKey, s: State, step: Step, w: Worker)
    requires LocksOk(h, s) && PhasesOk(s) && Enabled(h, s, step)
    requires w in s.phases && step.Commit? && step.w != w
    ensures PhaseOk(Apply(h, s, step), s.phases[w])
  {
    var p, row := s.phases[w], s.phases[step.w].row;
    var rows, rows' := RowsOf(s.log, p.t), RowsOf(LogAfter(s.log, row), p.t);
    LogSnoc(s.log, row, p.t);
    assert PhaseOk(s, p) && PhaseOk(s, s.phases[step.w]);
    if Holding(p) {
      HoldersDiffer(h, s, w, step.w);
    } else if p.Covered? {
      var k :| 0 <= k < |rows| && rows[k].end >= p.e;
      assert rows'[k] == rows[k];
    }
  }

  lemma PhasesStep(h: LockKey, s: State, step: Step)
    requires Inv(h, s) && Enabled(h, s, step)
    ensures PhasesOk(Apply(h, s, step))
  {
    var s' := Apply(h, s, step);
    forall w | w in s'.phases ensures PhaseOk(s', s'.phases[w]) {
      if step.Tick? || step.Write? || step.w != w {
        PhaseStays(h, s, step, w);
      } else {
        OwnPhase(h, s, step);
      }
    }
  }

  lemma OwnPhase(h: LockKey, s: State, step: Step)
    requires Inv(h, s) && Enabled(h, s, step) && !step.Tick? && !step.Write?
    requires step.w in Apply(h, s, step).phases
    ensures PhaseOk(Apply(h, s, step), Apply(h, s, step).phases[step.w])
  {
    match step
    case Query(w, meta, first, second) => DecisionIsExact(s, w, meta, first, second);
    case ReadCheckpoint(w, pick) => WatermarkIsKnown(s, s.phases[w].t, pick);
    case ReadWatermark(w, pick) => WatermarkIsKnown(s, s.phases[w].t, pick);
    case _ =>
  }

  lemma AnswersStep(h: LockKey, s: State, step: Step)
    requires LogOk(s) && PhasesOk(s) && AnswersOk(s) && Enabled(h, s, step)
    ensures AnswersOk(Apply(h, s, step))
  {
    var s' := Apply(h, s, step);
    forall i | 0 <= i < |s'.answers| ensures Sound(s', s'.answers[i]) {
      if i < |s.answers| {
        AnswersKept(h, s, step, i);
        AnswerStaysSound(h, s, step, s.answers[i]);
      } else {
        NewAnswerIsSound(h, s, step, s'.answers[i]);
      }
    }
  }

  lemma AnswersKept(h: LockKey, s: State, step: Step, i: nat)
    requires Enabled(h, s, step) && i < |s.answers|
    ensures |s.answers| <= |Apply(h, s, step).answers| && Apply(h, s, step).answers[i] == s.answers[i]
  {}

  lemma NewAnswerIsSound(h: LockKey, s: State, step: Step, a: Answer)
    requires LogOk(s) && PhasesOk(s) && Enabled(h, s, step)
    requires var s' := Apply(h, s, step); |s.answers| < |s'.answers| && a == s'.answers[|s.answers|]
    ensures Sound(Apply(h, s, step), a)
  {
    assert PhaseOk(s, s.phases[step.w]);
    AnswerIsSound(s, a);
  }

  lemma AnswerStaysSound(h: LockKey, s: State, step: Step, a: Answer)
    requires LogOk(s) && PhasesOk(s) && Enabled(h, s, step) && Sound(s, a)
    ensures Sound(Apply(h, s, step), a)
  {
    if step.Commit? {
      CommitKeepsSound(s, s.phases[step.w].row, a);
    } else if step.Write? {
      WriteKeepsSound(s, step.c, a);
    }
  }

  /** A commit appends to the table's rows, so the origin stays. */
  lemma CommitKeepsSound(s: State, row: LogRow, a: Answer)
    requires Sound(s, a)
    ensures Sound(s.(log := LogAfter(s.log, row)), a)
  {
    LogSnoc(s.log, row, a.t);
  }

  /** A change written now lies outside every window that is over. */
  lemma WriteKeepsSound(s: State, c: Change, a: Answer)
    requires Sound(s, a) && c.at == s.now
    ensures Sound(s.(history := s.history + [c]), a)
  {
    if a.e <= s.now || a.e <= a.s { ChangeOutside(s.history, c, a.t, a.s, a.e); }
  }

  // ---- commit-ordered clocks -------------------------------------------------------

  lemma OrderedBefore(cps: seq<Checkpoint>, cp: Checkpoint)
    requires CommitOrdered(cps + [cp])
    ensures CommitOrdered(cps)
  {
    forall t ensures Ordered(CheckpointsOf(cps, t)) {
      CheckpointsSnoc(cps, cp, t);
      var mine, more := CheckpointsOf(cps, t), CheckpointsOf(cps + [cp], t);
      assert Ordered(more);
      forall j, k | 0 <= j < k < |mine| ensures mine[j].finishedAt < mine[k].finishedAt {
        assert more[j] == mine[j] && more[k] == mine[k];
      }
    }
  }

  /** With ordered clocks the checkpoint read is the last commit. */
  lemma {:induction false} LatestIsLast(cps: seq<Checkpoint>, t: Table, pick: Option<nat>)
    requires Ordered(CheckpointsOf(cps, t)) && Latest(cps, t, pick) && pick.Some?
    ensures pick.value == |CheckpointsOf(cps, t)| - 1
  {
    var mine := CheckpointsOf(cps, t);
    var last := mine[|mine| - 1];
    assert last.finishedAt <= mine[pick.value].finishedAt;
  }

  /** The clocks were ordered before the step if they are after it. */
  lemma OrderedBeforeStep(h: LockKey, s: State, step: Step)
    requires Enabled(h, s, step) && CommitOrdered(Apply(h, s, step).checkpoints)
    ensures CommitOrdered(s.checkpoints)
  {
    if step.Commit? {
      var row := s.phases[step.w].row;
      if Advances(row) { OrderedBefore(s.checkpoints, Checkpoint(row.table, row.end, step.finishedAt)); }
    }
  }

  lemma ChainStep(h: LockKey, s: State, step: Step)
    requires LocksOk(h, s) && LogOk(s) && PhasesOk(s) && ChainOk(s)
    requires CommitOrdered(s.checkpoints) && Enabled(h, s, step)
    ensures ChainOk(Apply(h, s, step))
  {
    if step.Commit? {
      ChainCommit(h, s, step.w, step.finishedAt);
    } else {
      ChainOther(h, s, step);
    }
  }

  /** A worker's step changes no other worker's phase, and only a commit changes the log. */
  lemma StepFrame(h: LockKey, s: State, step: Step)
    requires Enabled(h, s, step)
    ensures !step.Commit? ==> Apply(h, s, step).log == s.log
    ensures step.Tick? || step.Write? ==> Apply(h, s, step).phases == s.phases
    ensures !step.Tick? && !step.Write? ==>
      forall x :: x != step.w && x in Apply(h, s, step).phases ==> x in s.phases && Apply(h, s, step).phases[x] == s.phases[x]
  {}

  lemma ChainOther(h: LockKey, s: State, step: Step)
    requires LogOk(s) && PhasesOk(s) && ChainOk(s) && Enabled(h, s, step) && !step.Commit? && CommitOrdered(s.checkpoints)
    ensures ChainOk(Apply(h, s, step))
  {
    StepFrame(h, s, step);
    if !step.Tick? && !step.Write? {
      ChainOwnPhase(h, s, step);
      ChainOnePhase(s, Apply(h, s, step), step.w);
    }
  }

  lemma ChainOwnPhase(h: LockKey, s: State, step: Step)
    requires LogOk(s) && PhasesOk(s) && ChainOk(s) && Enabled(h, s, step) && CommitOrdered(s.checkpoints)
    requires !step.Commit? && !step.Tick? && !step.Write?
    ensures step.w in Apply(h, s, step).phases ==>
      var p := Apply(h, s, step).phases[step.w];
      (step.w in s.phases && s.phases[step.w] == p) || AtTheEnd(RowsOf(s.log, p.t), p)
  {
    if step.ReadCheckpoint? {
      ReadIsAtTheEnd(s, step.w, step.pick);
    } else if step.Query? {
      DecisionIsAtTheEnd(s, step.w, step.meta, step.first, step.second);
    } else {
      PlainPhase(h, s, step);
    }
  }

  lemma ReadIsAtTheEnd(s: State, w: Worker, pick: Option<nat>)
    requires LogOk(s) && CommitOrdered(s.checkpoints) && w in s.phases && s.phases[w].Locked?
    requires Latest(s.checkpoints, s.phases[w].t, pick)
    ensures var p := s.phases[w];
      AtTheEnd(RowsOf(s.log, p.t), HaveCheckpoint(p.t, p.end, Watermark(s.checkpoints, p.t, pick)))
  {
    if pick.Some? { ReadIsLast(s, s.phases[w].t, pick); }
  }

  /** The other steps bring a worker to no phase that claims to know the end of the log. */
  lemma PlainPhase(h: LockKey, s: State, step: Step)
    requires Enabled(h, s, step) && !step.Commit? && !step.Tick? && !step.Write?
    requires !step.ReadCheckpoint? && !step.Query?
    ensures step.w in Apply(h, s, step).phases ==>
      var p := Apply(h, s, step).phases[step.w];
      (step.w in s.phases && s.phases[step.w] == p) || (!p.HaveCheckpoint? && !p.HaveChanges?)
  {}

  lemma ChainOnePhase(s: State, s': State, w: Worker)
    requires ChainOk(s) && s'.log == s.log
    requires forall x :: x in s'.phases && x != w ==> x in s.phases && s'.phases[x] == s.phases[x]
    requires w in s'.phases && (w !in s.phases || s'.phases[w] != s.phases[w]) ==>
      AtTheEnd(RowsOf(s.log, s'.phases[w].t), s'.phases[w])
    ensures ChainOk(s')
  {
    forall x | x in s'.phases ensures AtTheEnd(RowsOf(s.log, s'.phases[x].t), s'.phases[x]) {
      if x in s.phases { assert AtTheEnd(RowsOf(s.log, s.phases[x].t), s.phases[x]); }
    }
  }

  lemma DecisionIsAtTheEnd(s: State, w: Worker, meta: Meta, first: PoolerSteps.Reply, second: PoolerSteps.Reply)
    requires PhasesOk(s) && ChainOk(s) && w in s.phases && s.phases[w].HaveCheckpoint?
    ensures var p := s.phases[w];
      AtTheEnd(RowsOf(s.log, p.t), AfterQuery(p, Decide(p.t, p.watermark, p.end, meta, first, second)))
  {
    assert AtTheEnd(RowsOf(s.log, s.phases[w].t), s.phases[w]) && PhaseOk(s, s.phases[w]);
  }

  lemma {:induction false} ReadIsLast(s: State, t: Table, pick: Option<nat>)
    requires LogOk(s) && CommitOrdered(s.checkpoints) && Latest(s.checkpoints, t, pick) && pick.Some?
    ensures var rows := RowsOf(s.log, t);
      rows != [] && rows[|rows| - 1].end == Watermark(s.checkpoints, t, pick).value
  {
    assert Linked(RowsOf(s.log, t), CheckpointsOf(s.checkpoints, t));
    assert Ordered(CheckpointsOf(s.checkpoints, t));
    LatestIsLast(s.checkpoints, t, pick);
  }

  lemma ChainCommit(h: LockKey, s: State, w: Worker, finishedAt: Time)
    requires LocksOk(h, s) && PhasesOk(s) && ChainOk(s) && w in s.phases && s.phases[w].HaveChanges?
    ensures ChainOk(Apply(h, s, Commit(w, finishedAt)))
  {
    var row := s.phases[w].row;
    var log', phases' := LogAfter(s.log, row), s.phases[w := Finished(s.phases[w].t)];
    forall t ensures Chained(RowsOf(log', t)) { ChainGrows(s, w, t); }
    forall x | x in phases' ensures AtTheEnd(RowsOf(log', phases'[x].t), phases'[x]) {
      if x != w { ChainCommitOther(h, s, w, x); }
    }
  }

  lemma {:induction false} ChainGrows(s: State, w: Worker, t: Table)
    requires PhasesOk(s) && ChainOk(s) && w in s.phases && s.phases[w].HaveChanges?
    ensures Chained(RowsOf(LogAfter(s.log, s.phases[w].row), t))
  {
    var me := s.phases[w];
    assert PhaseOk(s, me) && AtTheEnd(RowsOf(s.log, me.t), me) && Chained(RowsOf(s.log, t));
    LogSnoc(s.log, me.row, t);
  }

  lemma ChainCommitOther(h: LockKey, s: State, w: Worker, x: Worker)
    requires LocksOk(h, s) && PhasesOk(s) && ChainOk(s) && w in s.phases && s.phases[w].HaveChanges?
    requires x in s.phases && x != w
    ensures AtTheEnd(RowsOf(LogAfter(s.log, s.phases[w].row), s.phases[x].t), s.phases[x])
  {
    assert PhaseOk(s, s.phases[w]) && AtTheEnd(RowsOf(s.log, s.phases[x].t), s.phases[x]);
    LogSnoc(s.log, s.phases[w].row, s.phases[x].t);
    if Holding(s.phases[x]) { HoldersDiffer(h, s, x, w); }
  }

  lemma InvStep(h: LockKey, s: State, step: Step)
    requires Inv(h, s) && Enabled(h, s, step)
    ensures Inv(h, Apply(h, s, step))
  {
    LocksStep(h, s, step);
    LogStep(h, s, step);
    PhasesStep(h, s, step);
    AnswersStep(h, s, step);
    if CommitOrdered(Apply(h, s, step).checkpoints) {
      OrderedBeforeStep(h, s, step);
      ChainStep(h, s, step);
    }
  }

  /** The invariant holds in every state any run can reach. */
  lemma {:induction false} InvReachable(h: LockKey, s: State, steps: seq<Step>)
    requires Inv(h, s) && Run(h, s, steps)
    ensures Inv(h, After(h, s, steps))
    decreases |steps|
  {
    if steps != [] {
      InvStep(h, s, steps[0]);
      InvReachable(h, Apply(h, s, steps[0]), steps[1..]);
    }
  }

  lemma InvStart(h: LockKey)
    ensures Inv(h, START)
  {}
}
