// `validate_insert_overwrite_variable_sets`: one variable set per overwrite bucket.
module InsertOverwrite {
  import opened Common
  import opened Mentions
  import opened PyText
  import opened Timestamps
  import opened PartitionBuckets

  // A variable set: its keys and values in order, or something that is not a mapping.
  datatype Entry = Mapping(items: seq<(string, Value)>) | NotAMapping

  // `variable_set_values` as resolved.
  datatype Values = NotAList | List(entries: seq<Entry>)

  const PARAM_TYPES := {"DATE", "STRING", "TIMESTAMP", "DATETIME"}

  function ReadGranularity(text: string): Option<Granularity> {
    var g := Lower(Strip(if text == "" then "day" else text));
    if g == "hour" then Some(Hour) else if g == "day" then Some(Day)
    else if g == "month" then Some(Month) else if g == "year" then Some(Year) else None
  }

  function ReadDataType(text: string): string { Lower(Strip(if text == "" then "date" else text)) }

  /** The checks before the loop: field, data type, granularity and a non-empty list. */
  predicate ConfigOk(values: Values, field: Option<string>, dataType: string, granularity: string) {
    && field.Some? && Strip(field.value) != ""
    && ReadDataType(dataType) in {"date", "timestamp", "datetime"}
    && ReadGranularity(granularity).Some?
    && !(ReadGranularity(granularity) == Some(Hour) && ReadDataType(dataType) == "date")
    && values.List? && values.entries != []
  }

  /** `infer_scalar_type`; None when it raises. */
  function Inferred(value: Value): Option<string> {
    match value
    case DateTimeValue(_) => Some("TIMESTAMP")
    case DateValue(_) => Some("DATE")
    case StringValue(_) => Some("STRING")
    case OtherValue(kind) => kind
  }

  function Declared(name: string, value: Value, types: map<string, string>): Option<string> {
    if name in types then Some(Upper(Strip(types[name]))) else Inferred(value)
  }

  /** A date without a time of day. */
  predicate DateOnly(value: Value) {
    match value
    case DateValue(_) => true
    case StringValue(text) => LooksLikeDate(Strip(text))
    case _ => false
  }

  /** The checks of the loop body on one entry, in order, and its bucket key. */
  function CheckEntry(types: map<string, string>, gran: Granularity, paramName: Option<string>, entry: Entry): Result<string> {
    if entry.NotAMapping? then Err("must be a dict")
    else if |entry.items| != 1 then Err("must have exactly one key")
    else
      var name, value := entry.items[0].0, entry.items[0].1;
      if paramName.Some? && name != paramName.value then Err("same sole parameter as earlier sets")
      else if !TypeOk(name, value, types) then Err("must be DATE, STRING, TIMESTAMP, or DATETIME")
      else BucketOf(value, gran)
  }

  predicate TypeOk(name: string, value: Value, types: map<string, string>) {
    var declared := Declared(name, value, types);
    declared.Some? && declared.value in PARAM_TYPES
  }

  function BucketOf(value: Value, gran: Granularity): Result<string> {
    var parsed := ParseValue(value);
    if parsed.Err? then Err(parsed.message)
    else if gran == Hour && DateOnly(value) then Err("granularity 'hour' requires a timestamp/datetime")
    else Ok(BucketKey(parsed.value, gran))
  }

  /** What an acceptable entry is, under the parameter name of the first. */
  predicate EntryOk(entry: Entry, name: string, types: map<string, string>, gran: Granularity) {
    && IsStamped(entry) && entry.items[0].0 == name && TypeOk(name, entry.items[0].1, types)
    && !(gran == Hour && DateOnly(entry.items[0].1))
  }

  /** One key, with a value that names a moment. */
  predicate IsStamped(entry: Entry) {
    entry.Mapping? && |entry.items| == 1 && ParseValue(entry.items[0].1).Ok?
  }

  function MomentOf(entry: Entry): Moment
    requires IsStamped(entry)
  {
    ParseValue(entry.items[0].1).value
  }

  function NameOf(entry: Entry): string {
    if entry.Mapping? && |entry.items| == 1 then entry.items[0].0 else ""
  }

  predicate AllOk(entries: seq<Entry>, types: map<string, string>, gran: Granularity) {
    forall k :: 0 <= k < |entries| ==> EntryOk(entries[k], NameOf(entries[0]), types, gran)
  }

  function KeyOf(entry: Entry, gran: Granularity): string {
    if IsStamped(entry) then BucketKey(MomentOf(entry), gran) else ""
  }

  function KeysOf(entries: seq<Entry>, gran: Granularity): (r: seq<string>)
    ensures |r| == |entries|
    ensures forall k :: 0 <= k < |r| ==> r[k] == KeyOf(entries[k], gran)
  {
    seq(|entries|, k requires 0 <= k < |entries| => KeyOf(entries[k], gran))
  }

  /** The sets that survive the dedupe: the first entry of every bucket key. */
  function Deduped(entries: seq<Entry>, gran: Granularity): seq<Entry> {
    At(entries, FirstPositions(KeysOf(entries, gran)))
  }

  method ValidateVariableSets(values: Values, types: map<string, string>, field: Option<string>,
      dataType: string, granularity: string)
    returns (r: Result<seq<Entry>>)
    ensures r.Ok? <==> (
      && ConfigOk(values, field, dataType, granularity)
      && AllOk(values.entries, types, ReadGranularity(granularity).value))
    ensures r.Ok? ==> r.value == Deduped(values.entries, ReadGranularity(granularity).value)
  {
    if field.None? || Strip(field.value) == "" { return Err("requires a non-empty partition_by.field"); }
    var dtype := ReadDataType(dataType);
    var gran := ReadGranularity(granularity);
    if dtype !in {"date", "timestamp", "datetime"} { return Err("requires partition_by.data_type"); }
    if gran.None? { return Err("requires partition_by.granularity"); }
    if gran.value == Hour && dtype == "date" { return Err("data_type 'date' cannot use granularity 'hour'"); }
    if values.NotAList? || values.entries == [] { return Err("requires a non-empty variable set list"); }
    var check := (paramName, entry) => CheckEntry(types, gran.value, paramName, entry);
    CheckMeansOk(check, values.entries, types, gran.value);
    r := DedupeLoop(check, values.entries);
  }

  // ---- the dedupe loop, for any check --------------------------------------------------------

  type Checker = (Option<string>, Entry) -> Result<string>

  /** The parameter name that is set when the k-th entry is looked at. */
  function ParamAt(entries: seq<Entry>, k: nat): Option<string>
    requires k < |entries|
  {
    if k == 0 then None else Some(NameOf(entries[0]))
  }

  predicate Passes(check: Checker, entries: seq<Entry>) {
    forall k :: 0 <= k < |entries| ==> check(ParamAt(entries, k), entries[k]).Ok?
  }

  function KeysBy(check: Checker, entries: seq<Entry>): (r: seq<string>)
    ensures |r| == |entries|
    ensures forall k :: 0 <= k < |r| && check(ParamAt(entries, k), entries[k]).Ok? ==>
      r[k] == check(ParamAt(entries, k), entries[k]).value
  {
    seq(|entries|, k requires 0 <= k < |entries| =>
      if check(ParamAt(entries, k), entries[k]).Ok? then check(ParamAt(entries, k), entries[k]).value else "")
  }

  method DedupeLoop(check: Checker, entries: seq<Entry>) returns (r: Result<seq<Entry>>)
    requires entries != []
    ensures r.Ok? <==> Passes(check, entries)
    ensures r.Ok? ==> r.value == At(entries, FirstPositions(KeysBy(check, entries)))
  {
    var deduped: seq<Entry> := [];
    var seenBuckets: set<string> := {};
    var paramName: Option<string> := None;
    ghost var keys := KeysBy(check, entries);
    for i := 0 to |entries|
      invariant paramName == if i == 0 then None else Some(NameOf(entries[0]))
      invariant forall k :: 0 <= k < i ==> check(ParamAt(entries, k), entries[k]).Ok?
      invariant forall key :: key in seenBuckets <==> key in keys[..i]
      invariant deduped == At(entries, FirstPositions(keys[..i]))
      invariant i > 0 ==> deduped != []
    {
      var checked := check(paramName, entries[i]);
      if checked.Err? { return Err(checked.message); }
      if paramName.None? { paramName := Some(NameOf(entries[i])); }
      var bucket := checked.value;
      NextPosition(keys, i);
      KeptNext(entries, keys, i);
      if bucket !in seenBuckets {
        seenBuckets := seenBuckets + {bucket};
        deduped := deduped + [entries[i]];
      }
    }
    assert keys[..|entries|] == keys;
    if deduped == [] { return Err("produced no variable sets after dedupe"); }
    return Ok(deduped);
  }

  lemma CheckOne(entry: Entry, paramName: Option<string>, types: map<string, string>, gran: Granularity)
    ensures var r := CheckEntry(types, gran, paramName, entry);
      && (r.Ok? <==> EntryOk(entry, if paramName.None? then NameOf(entry) else paramName.value, types, gran))
      && (r.Ok? ==> r.value == KeyOf(entry, gran))
  {}

  lemma CheckMeansOk(check: Checker, entries: seq<Entry>, types: map<string, string>, gran: Granularity)
    requires forall p, e :: check(p, e) == CheckEntry(types, gran, p, e)
    ensures Passes(check, entries) <==> AllOk(entries, types, gran)
    ensures Passes(check, entries) ==> KeysBy(check, entries) == KeysOf(entries, gran)
  {
    forall k | 0 <= k < |entries|
      ensures check(ParamAt(entries, k), entries[k]).Ok? <==> EntryOk(entries[k], NameOf(entries[0]), types, gran)
      ensures check(ParamAt(entries, k), entries[k]).Ok? ==> KeysBy(check, entries)[k] == KeysOf(entries, gran)[k]
    {
      CheckOne(entries[k], ParamAt(entries, k), types, gran);
    }
  }

  // ---- what the deduped sets are ----------------------------------------------------------

  predicate DistinctBuckets(moments: seq<Moment>, gran: Granularity) {
    forall i, j :: 0 <= i < j < |moments| ==> Truncate(moments[i], gran) != Truncate(moments[j], gran)
  }

  predicate Stamped(entries: seq<Entry>) { forall k :: 0 <= k < |entries| ==> IsStamped(entries[k]) }

  function MomentsOf(entries: seq<Entry>): (r: seq<Moment>)
    requires Stamped(entries)
    ensures |r| == |entries| && forall k :: 0 <= k < |r| ==> r[k] == MomentOf(entries[k])
  {
    seq(|entries|, k requires 0 <= k < |entries| => MomentOf(entries[k]))
  }

  lemma SameKeySameBucket(entries: seq<Entry>, gran: Granularity, i: nat, j: nat)
    requires Stamped(entries) && i < |entries| && j < |entries|
    ensures KeysOf(entries, gran)[i] == KeysOf(entries, gran)[j] <==>
      Truncate(MomentOf(entries[i]), gran) == Truncate(MomentOf(entries[j]), gran)
  {
    KeyNamesBucket(MomentOf(entries[i]), MomentOf(entries[j]), gran);
  }

  /** The deduped sets have pairwise distinct buckets. */
  lemma DedupedAreDistinct(entries: seq<Entry>, gran: Granularity)
    requires Stamped(entries)
    ensures Stamped(Deduped(entries, gran))
    ensures DistinctBuckets(MomentsOf(Deduped(entries, gran)), gran)
  {
    var keys := KeysOf(entries, gran);
    var kept := FirstPositions(keys);
    var moments := MomentsOf(Deduped(entries, gran));
    forall i, j | 0 <= i < j < |moments| ensures Truncate(moments[i], gran) != Truncate(moments[j], gran) {
      KeptDiffer(keys, i, j);
      SameKeySameBucket(entries, gran, kept[i], kept[j]);
    }
  }

  /** Every bucket that was asked for is still there, named by the first entry that did. */
  lemma DedupedCover(entries: seq<Entry>, gran: Granularity, k: nat)
    requires Stamped(entries) && k < |entries|
    ensures var kept := FirstPositions(KeysOf(entries, gran));
      exists j :: 0 <= j < |kept| && FirstFor(entries, gran, kept[j], k)
  {
    var keys := KeysOf(entries, gran);
    var first := FirstMention(keys, k);
    SameKeySameBucket(entries, gran, first, k);
    var j :| 0 <= j < |FirstPositions(keys)| && FirstPositions(keys)[j] == first;
    forall i | 0 <= i < first ensures Truncate(MomentOf(entries[i]), gran) != Truncate(MomentOf(entries[k]), gran) {
      SameKeySameBucket(entries, gran, i, k);
      KeptIsNew(keys, j, i);
    }
  }

  /** Position `first` is the earliest entry in the bucket of entry k. */
  predicate FirstFor(entries: seq<Entry>, gran: Granularity, first: nat, k: nat)
    requires Stamped(entries) && k < |entries|
  {
    && first <= k
    && Truncate(MomentOf(entries[first]), gran) == Truncate(MomentOf(entries[k]), gran)
    && forall i :: 0 <= i < first ==> Truncate(MomentOf(entries[i]), gran) != Truncate(MomentOf(entries[k]), gran)
  }
}
