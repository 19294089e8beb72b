// The pooler's decisions as it takes them, on timestamps in text form.
module TextClock {
  import opened Common
  import opened PyStrings
  import opened Timestamps
  import opened ChangeTracking
  import opened PoolerSteps
  import opened Gateway

  /** What the database returns for a timestamp: the same instant with six fraction digits. */
  function Stored(x: Text): Text
    requires x.Valid()
  {
    x.(digits := 6, frac := x.Micros())
  }

  predicate IsStored(x: Text) { x.Valid() && x.digits == 6 }

  /** Storing a timestamp keeps its instant, and what is read back has the fixed width. */
  lemma StoredKeepsInstant(x: Text)
    requires x.Valid()
    ensures IsStored(Stored(x)) && Stored(x).Instant() == x.Instant()
  {
    MicrosBounded(x);
    assert Pow10(6) == 1000000 by { assert Pow10(2) == 100; assert Pow10(4) == 10000; }
    assert Pow10(0) == 1;
  }

  function Rendered(x: Option<Text>): Option<string> { if x.None? then None else Some(x.value.Render()) }

  function InstantOf(x: Option<Text>): Option<Time>
    requires x.Some? ==> x.value.Valid()
  {
    if x.None? then None else Some(x.value.Instant())
  }

  // ---- the decision on text ------------------------------------------------------------

  datatype TextRow = TextRow(table: Table, start: Text, end: Text, status: Status, ids: Option<seq<Partition>>)

  datatype TextDecision = TextReport(status: Status) | TextRaise | TextCommits(row: TextRow)

  /** `_run_changes`, whose empty-window test compares the strings. */
  function RunChangesOnText(start: Text, end: Text, first: PoolerSteps.Reply, second: PoolerSteps.Reply)
    : (Status, Option<seq<Partition>>)
  {
    if !Less(start.Render(), end.Render()) then (Okay, Some([])) else Queried(first, second)
  }

  /** `_pool_one_locked` up to the commit, whose skip test compares the strings. */
  function DecideOnText(t: Table, watermark: Option<Text>, end: Text, meta: Meta,
      first: PoolerSteps.Reply, second: PoolerSteps.Reply): TextDecision
  {
    if watermark.Some? && !TsCompareLt(Rendered(watermark), end.Render()) then TextReport(Skipped)
    else match meta
      case Missing => TextReport(NotFound)
      case Denied => TextReport(Error)
      case Broken => TextRaise
      case Found(timePartitioned) =>
        if watermark.None? then TextCommits(TextRow(t, end, end, Initial, None))
        else if !timePartitioned then TextCommits(TextRow(t, watermark.value, end, Unpartitioned, None))
        else
          var (status, ids) := RunChangesOnText(watermark.value, end, first, second);
          TextCommits(TextRow(t, watermark.value, end, status, ids))
  }

  /** The same decision with its window read as instants. */
  function OnInstants(d: TextDecision): Decision
    requires d.TextCommits? ==> d.row.start.Valid() && d.row.end.Valid()
  {
    match d
    case TextReport(status) => Report(status)
    case TextRaise => Raise
    case TextCommits(row) => Commits(LogRow(row.table, row.start.Instant(), row.end.Instant(), row.status, row.ids))
  }

  /** For a watermark as the database returns it and an end time with 0 to 6 fraction digits, the
      skip test and the empty-window test take the branches the protocol takes on instants, and
      the row that is committed has the protocol's window. */
  lemma TextDecidesAsInstants(t: Table, watermark: Option<Text>, end: Text, meta: Meta,
      first: PoolerSteps.Reply, second: PoolerSteps.Reply)
    requires (watermark.Some? ==> IsStored(watermark.value)) && end.Valid()
    ensures var d := DecideOnText(t, watermark, end, meta, first, second);
      && (d.TextCommits? ==> d.row.start.Valid() && d.row.end.Valid())
      && OnInstants(d) == Decide(t, InstantOf(watermark), end.Instant(), meta, first, second)
  {
    if watermark.Some? {
      StoredWatermarkComparesExactly(watermark.value, end);
    }
  }

  /** The freshness tests of `ensure_affected_partitions` likewise. */
  lemma TextFreshness(watermark: Option<Text>, end: Text)
    requires (watermark.Some? ==> IsStored(watermark.value)) && end.Valid()
    ensures TsCompareLt(Rendered(watermark), end.Render()) <==> !AtOrPast(InstantOf(watermark), end.Instant())
  {
    if watermark.Some? {
      StoredWatermarkComparesExactly(watermark.value, end);
    }
  }

  /** After a run has committed up to an end time, its stored watermark passes the tests for that
      end time, however many fraction digits it was written with; a next run would skip. */
  lemma CommittedEndIsFresh(t: Table, end: Text, meta: Meta, first: PoolerSteps.Reply, second: PoolerSteps.Reply)
    requires end.Valid()
    ensures !TsCompareLt(Rendered(Some(Stored(end))), end.Render())
    ensures DecideOnText(t, Some(Stored(end)), end, meta, first, second) == TextReport(Skipped)
  {
    StoredKeepsInstant(end);
    TextFreshness(Some(Stored(end)), end);
  }
}
