// Change-tracking vocabulary: rows, keys, the merge of partition ids, and relation dedupe.
module ChangeTracking {
  import opened Common
  import opened Mentions
  import opened PyStrings
  import opened DottedPaths

  type Partition = string
  type Time = int

  datatype Status = Initial | Okay | OutOfRange | Unpartitioned | Error | NotFound | Skipped

  const AFFECTED_PARTITION_STATUSES: set<Status> := {Okay, Initial, OutOfRange, Unpartitioned}
  const CHECKPOINT_ADVANCE_STATUSES: set<Status> := {Initial, Okay, OutOfRange, Unpartitioned}

  // ---- names used as keys --------------------------------------------------

  function FullTargetTableName(database: string, schema: string, identifier: string): string {
    "`" + database + "`.`" + schema + "`.`" + identifier + "`"
  }

  function CheckpointFullName(project: string, dataset: string, table: string): string {
    FullTargetTableName("gateway.pooler", project, dataset + "." + table)
  }

  function DedupeKey(project: string, dataset: string, table: string): string {
    Join([project, dataset, table])
  }

  lemma DedupeKeyText(p: string, d: string, t: string)
    ensures DedupeKey(p, d, t) == p + "." + d + "." + t
  {
    assert [p, d, t][1..] == [d, t] && [d, t][1..] == [t];
    assert Join([d, t]) == d + "." + t;
  }

  /** What stands before and after the last c of s. */
  function LastCut(c: char, s: string): (string, string) {
    if s == "" then ("", "")
    else
      var n := |s| - 1;
      if s[n] == c then (s[..n], "") else var (x, t) := LastCut(c, s[..n]); (x, t + [s[n]])
  }

  function FirstCut(c: char, s: string): (string, string) {
    if s == "" then ("", "")
    else if s[0] == c then ("", s[1..])
    else var (x, t) := FirstCut(c, s[1..]); ([s[0]] + x, t)
  }

  lemma {:induction false} LastCutOf(c: char, x: string, t: string)
    requires Free(c, t)
    ensures LastCut(c, x + [c] + t) == (x, t)
  {
    var s, n := x + [c] + t, |x| + |t|;
    if t == "" {
      assert s[..n] == x;
    } else {
      LastCutOf(c, x, t[..|t| - 1]);
      assert s[..n] == x + [c] + t[..|t| - 1];
      assert t == t[..|t| - 1] + [s[n]];
    }
  }

  lemma {:induction false} FirstCutOf(c: char, x: string, t: string)
    requires Free(c, x)
    ensures FirstCut(c, x + [c] + t) == (x, t)
  {
    var s := x + [c] + t;
    if x == "" {
      assert s[1..] == t;
    } else {
      FirstCutOf(c, x[1..], t);
      assert s[1..] == x[1..] + [c] + t;
      assert x == [x[0]] + x[1..];
    }
  }

  /** Around a separator that neither tail contains, a concatenation splits in one way only. */
  lemma CutAtLast(c: char, x: string, t: string, y: string, u: string)
    requires Free(c, t) && Free(c, u) && x + [c] + t == y + [c] + u
    ensures x == y && t == u
  {
    LastCutOf(c, x, t);
    LastCutOf(c, y, u);
  }

  lemma CutAtFirst(c: char, x: string, t: string, y: string, u: string)
    requires Free(c, x) && Free(c, y) && x + [c] + t == y + [c] + u
    ensures x == y && t == u
  {
    FirstCutOf(c, x, t);
    FirstCutOf(c, y, u);
  }

  /** The dedupe key tells tables apart when dataset and table names have no dot;
      the project may contain dots. */
  lemma DedupeKeyInjective(p: string, d: string, t: string, p': string, d': string, t': string)
    requires Free('.', d) && Free('.', t) && Free('.', d') && Free('.', t')
    requires DedupeKey(p, d, t) == DedupeKey(p', d', t')
    ensures p == p' && d == d' && t == t'
  {
    DedupeKeyText(p, d, t);
    DedupeKeyText(p', d', t');
    CutAtLast('.', p + "." + d, t, p' + "." + d', t');
    CutAtLast('.', p, d, p', d');
  }

  /** A dotted dataset name can collide. */
  lemma DedupeKeyCollides()
    ensures DedupeKey("p", "a.b", "c") == DedupeKey("p", "a", "b.c")
  {
    DedupeKeyText("p", "a.b", "c");
    DedupeKeyText("p", "a", "b.c");
  }

  /** No other table with dot-free dataset and table names has the same key. */
  ghost predicate KeySeparates(p: string, d: string, t: string) {
    forall p', d', t' ::
      Free('.', d') && Free('.', t') && DedupeKey(p', d', t') == DedupeKey(p, d, t) ==> p' == p && d' == d && t' == t
  }

  /** Cutting at the last dot takes the text apart and leaves a dot-free tail. */
  lemma {:induction false} LastCutRejoins(s: string)
    requires '.' in s
    ensures var (x, t) := LastCut('.', s); s == x + "." + t && Free('.', t)
  {
    var n := |s| - 1;
    if s[n] == '.' {
      assert s == s[..n] + ".";
    } else {
      assert s == s[..n] + [s[n]];
      LastCutRejoins(s[..n]);
    }
  }

  /** Every key reads as the key of a table with dot-free dataset and table names. */
  lemma DotFreeReading(p: string, d: string, t: string) returns (p': string, d': string, t': string)
    ensures Free('.', d') && Free('.', t') && DedupeKey(p', d', t') == DedupeKey(p, d, t)
  {
    DedupeKeyText(p, d, t);
    var key := p + "." + d + "." + t;
    assert key[|p|] == '.';
    LastCutRejoins(key);
    var (x, last) := LastCut('.', key);
    TwoDots(p, d, t, x, last);
    LastCutRejoins(x);
    var (project, dataset) := LastCut('.', x);
    p', d', t' := project, dataset, last;
    DedupeKeyText(p', d', t');
  }

  /** Before the last of at least two dots there is another. */
  lemma TwoDots(p: string, d: string, t: string, x: string, last: string)
    requires p + "." + d + "." + t == x + "." + last && Free('.', last)
    ensures '.' in x
  {
    var key := x + "." + last;
    assert key[|p|] == '.' && key[|p| + 1 + |d|] == '.';
    assert forall k :: |x| < k < |key| ==> key[k] == last[k - |x| - 1];
    assert x[|p|] == '.';
  }

  /** The dedupe key identifies a table exactly when its dataset and table names have no dot:
      every dotted name shares its key with some table without. */
  lemma DedupeKeyExactlyWhenDotFree(p: string, d: string, t: string)
    ensures KeySeparates(p, d, t) <==> Free('.', d) && Free('.', t)
  {
    if Free('.', d) && Free('.', t) {
      forall p', d', t' | Free('.', d') && Free('.', t') && DedupeKey(p', d', t') == DedupeKey(p, d, t)
        ensures p' == p && d' == d && t' == t
      {
        DedupeKeyInjective(p', d', t', p, d, t);
      }
    } else {
      var p', d', t' := DotFreeReading(p, d, t);
      assert d' != d || t' != t;
    }
  }

  lemma DropPrefix(head: string, x: string, y: string)
    requires head + x == head + y
    ensures x == y
  {
    assert x == (head + x)[|head|..] && y == (head + y)[|head|..];
  }

  lemma DropSuffix(x: string, y: string, tail: string)
    requires x + tail == y + tail
    ensures x == y
  {
    assert |x| == |y|;
    assert x == (x + tail)[..|x|] && y == (y + tail)[..|y|];
  }

  lemma NameShape(database: string, schema: string, identifier: string)
    ensures FullTargetTableName(database, schema, identifier)
      == ("`" + database + "`.`") + (schema + ['`'] + (".`" + (identifier + "`")))
  {}

  /** Watermarks of different tables live under different checkpoint names. */
  lemma CheckpointNameInjective(p: string, d: string, t: string, p': string, d': string, t': string)
    requires Free('`', p) && Free('`', p') && Free('.', d) && Free('.', d')
    requires CheckpointFullName(p, d, t) == CheckpointFullName(p', d', t')
    ensures p == p' && d == d' && t == t'
  {
    var n, n' := d + "." + t, d' + "." + t';
    var rest, rest' := ".`" + (n + "`"), ".`" + (n' + "`");
    NameShape("gateway.pooler", p, n);
    NameShape("gateway.pooler", p', n');
    DropPrefix("`" + "gateway.pooler" + "`.`", p + ['`'] + rest, p' + ['`'] + rest');
    CutAtFirst('`', p, rest, p', rest');
    DropPrefix(".`", n + "`", n' + "`");
    DropSuffix(n, n', "`");
    CutAtFirst('.', d, t, d', t');
  }

  /** A project name a table can have, and a dataset name without a dot. */
  predicate PlainNames(p: string, d: string) { Free('`', p) && Free('.', d) }

  ghost predicate CheckpointSeparates(p: string, d: string, t: string) {
    forall p', d', t' ::
      PlainNames(p', d') && CheckpointFullName(p', d', t') == CheckpointFullName(p, d, t) ==>
        p' == p && d' == d && t' == t
  }

  /** For projects without a backtick, watermarks are kept apart exactly when the dataset name
      has no dot; table names may have any. */
  lemma CheckpointNameExactlyWhenDotFree(p: string, d: string, t: string)
    requires Free('`', p)
    ensures CheckpointSeparates(p, d, t) <==> Free('.', d)
  {
    if Free('.', d) {
      forall p', d', t' | PlainNames(p', d') && CheckpointFullName(p', d', t') == CheckpointFullName(p, d, t)
        ensures p' == p && d' == d && t' == t
      {
        CheckpointNameInjective(p', d', t', p, d, t);
      }
    } else {
      var d', rest := CutDataset(d);
      var t' := rest + "." + t;
      assert d' + "." + t' == d + "." + t by { assert d == d' + "." + rest; }
      assert PlainNames(p, d') && d' != d;
      assert CheckpointFullName(p, d', t') == CheckpointFullName(p, d, t);
    }
  }

  lemma {:induction false} CutDataset(d: string) returns (d': string, rest: string)
    requires !Free('.', d)
    ensures d == d' + "." + rest && Free('.', d')
  {
    if d[0] == '.' {
      d', rest := "", d[1..];
    } else {
      d', rest := CutDataset(d[1..]);
      assert d == [d[0]] + d[1..];
      d' := [d[0]] + d';
    }
  }

  // ---- merging ids ----------------------------------------------------------

  predicate Increasing(s: seq<string>) {
    forall i, j :: 0 <= i < j < |s| ==> Less(s[i], s[j])
  }

  function Elements<T>(s: seq<T>): set<T> { set x | x in s }

  predicate SomeAll(rows: seq<Option<seq<Partition>>>) {
    exists i :: 0 <= i < |rows| && rows[i].None?
  }

  function UnionIds(rows: seq<Option<seq<Partition>>>): set<Partition> {
    set i, p | 0 <= i < |rows| && rows[i].Some? && p in rows[i].value :: p
  }

  /** None is "all partitions"; a list is sorted, duplicate-free and the union of the rows. */
  predicate IsMergeOf(rows: seq<Option<seq<Partition>>>, r: Option<seq<Partition>>) {
    if SomeAll(rows) then r.None?
    else r.Some? && Increasing(r.value) && Elements(r.value) == UnionIds(rows)
  }

  /** The merge depends on nothing but the rows taken as a set. */
  lemma MergeUnique(rows: seq<Option<seq<Partition>>>, rows': seq<Option<seq<Partition>>>,
                    r: Option<seq<Partition>>, r': Option<seq<Partition>>)
    requires Elements(rows) == Elements(rows') && IsMergeOf(rows, r) && IsMergeOf(rows', r')
    ensures r == r'
  {
    forall i | 0 <= i < |rows| ensures rows[i] in rows' { assert rows[i] in Elements(rows); }
    forall i | 0 <= i < |rows'| ensures rows'[i] in rows { assert rows'[i] in Elements(rows'); }
    if !SomeAll(rows) {
      assert UnionIds(rows) == UnionIds(rows');
      IncreasingUnique(r.value, r'.value);
    }
  }

  lemma {:induction false} IncreasingUnique(a: seq<string>, b: seq<string>)
    requires Increasing(a) && Increasing(b) && Elements(a) == Elements(b)
    ensures a == b
  {
    assert b != [] ==> b[0] in Elements(b);
    if a != [] {
      assert a[0] in Elements(a);
      HeadIsLeast(a, b[0]);
      HeadIsLeast(b, a[0]);
      if a[0] != b[0] { LessIsAsymmetric(a[0], b[0]); }
      HeadOnce(a);
      HeadOnce(b);
      IncreasingUnique(a[1..], b[1..]);
    }
  }

  lemma {:induction false} HeadIsLeast(a: seq<string>, x: string)
    requires Increasing(a) && x in a
    ensures a[0] == x || Less(a[0], x)
  {}

  lemma HeadOnce(a: seq<string>)
    requires Increasing(a) && a != []
    ensures Elements(a[1..]) == Elements(a) - {a[0]}
  {
    forall i | 1 <= i < |a| ensures a[i] != a[0] { LessIsAsymmetric(a[0], a[i]); }
    assert a == [a[0]] + a[1..];
  }

  method InsertSorted(s: seq<string>, x: string) returns (r: seq<string>)
    requires Increasing(s) && x !in s
    ensures Increasing(r) && Elements(r) == Elements(s) + {x}
  {
    var k := 0;
    while k < |s| && Less(s[k], x)
      invariant 0 <= k <= |s|
      invariant forall i :: 0 <= i < k ==> Less(s[i], x)
    {
      k := k + 1;
    }
    RestIsGreater(s, x, k);
    InsertedIsSorted(s, x, k);
    r := s[..k] + [x] + s[k..];
  }

  lemma {:induction false} RestIsGreater(s: seq<string>, x: string, k: nat)
    requires Increasing(s) && x !in s && k <= |s|
    requires k < |s| ==> !Less(s[k], x)
    ensures forall i :: k <= i < |s| ==> Less(x, s[i])
  {
    forall i | k <= i < |s| ensures Less(x, s[i]) {
      LessIsTotal(s[k], x);
      if k < i { LessIsTransitive(x, s[k], s[i]); }
    }
  }

  lemma {:induction false} InsertedIsSorted(s: seq<string>, x: string, k: nat)
    requires Increasing(s) && k <= |s|
    requires forall i :: 0 <= i < k ==> Less(s[i], x)
    requires forall i :: k <= i < |s| ==> Less(x, s[i])
    ensures var r := s[..k] + [x] + s[k..]; Increasing(r) && Elements(r) == Elements(s) + {x}
  {
    var r := s[..k] + [x] + s[k..];
    forall i, j | 0 <= i < j < |r| ensures Less(r[i], r[j]) {
      if i < k { assert r[i] == s[i]; }
      if k < j { assert r[j] == s[j - 1]; }
    }
    assert s == s[..k] + s[k..];
  }

  /** Python's `sorted(seen)` on a set of strings. */
  method Sorted(seen: set<string>) returns (r: seq<string>)
    ensures Increasing(r) && Elements(r) == seen
  {
    var left := seen;
    r := [];
    while left != {}
      invariant left <= seen && Increasing(r) && Elements(r) == seen - left
      decreases |left|
    {
      var x :| x in left;
      assert x !in Elements(r);
      r := InsertSorted(r, x);
      left := left - {x};
    }
  }

  method MergeAffectedPartitionIds(rows: seq<Option<seq<Partition>>>) returns (r: Option<seq<Partition>>)
    ensures IsMergeOf(rows, r)
    ensures rows == [] ==> r == Some([])
  {
    if rows == [] { return Some([]); }
    var seen: set<string> := {};
    for k := 0 to |rows|
      invariant seen == UnionIds(rows[..k])
      invariant !SomeAll(rows[..k])
    {
      var ids := rows[k];
      assert rows[..k + 1] == rows[..k] + [ids];
      if ids.None? {
        assert rows[k].None?;
        return None;
      }
      for m := 0 to |ids.value|
        invariant seen == UnionIds(rows[..k]) + Elements(ids.value[..m])
      {
        seen := seen + {ids.value[m]};
      }
      assert ids.value[..|ids.value|] == ids.value;
      UnionSnoc(rows[..k], ids);
    }
    assert rows[..|rows|] == rows;
    var out := Sorted(seen);
    r := Some(out);
  }

  lemma UnionSnoc(rows: seq<Option<seq<Partition>>>, ids: Option<seq<Partition>>)
    requires ids.Some?
    ensures UnionIds(rows + [ids]) == UnionIds(rows) + Elements(ids.value)
  {
    var all := rows + [ids];
    forall p | p in UnionIds(rows) + Elements(ids.value) ensures p in UnionIds(all) {
      if p in UnionIds(rows) {
        var i :| 0 <= i < |rows| && rows[i].Some? && p in rows[i].value;
        assert all[i] == rows[i];
      } else {
        assert all[|rows|] == ids;
      }
    }
    forall p | p in UnionIds(all) ensures p in UnionIds(rows) + Elements(ids.value) {
      var i :| 0 <= i < |all| && all[i].Some? && p in all[i].value;
      if i < |rows| { assert rows[i] == all[i]; }
    }
  }

  /** What the CHANGES aggregate may return in its id column. */
  datatype RawIds = RawNull | RawOne(id: string) | RawMany(ids: seq<Option<string>>)

  /** The ids in the column: those of an array, or a single one. */
  function Listed(raw: RawIds): set<Partition> {
    match raw
    case RawNull => {}
    case RawOne(id) => {id}
    case RawMany(ids) => set i | 0 <= i < |ids| && ids[i].Some? :: ids[i].value
  }

  function CoercePartitionIdsForOk(raw: RawIds): seq<Partition> {
    match raw
    case RawNull => []
    case RawOne(id) => [id]
    case RawMany(ids) => NonNull(ids)
  }

  function NonNull(ids: seq<Option<string>>): (r: seq<string>)
    ensures forall p :: p in r <==> Some(p) in ids
  {
    if ids == [] then []
    else
      assert ids == [ids[0]] + ids[1..];
      (if ids[0].Some? then [ids[0].value] else []) + NonNull(ids[1..])
  }

  /** Coercion keeps every id that the column lists and adds none. */
  lemma CoerceKeepsListed(raw: RawIds)
    ensures Elements(CoercePartitionIdsForOk(raw)) == Listed(raw)
  {
    if raw.RawMany? {
      forall p | p in Listed(raw) ensures p in NonNull(raw.ids) {
        var i :| 0 <= i < |raw.ids| && raw.ids[i].Some? && p == raw.ids[i].value;
        assert raw.ids[i] == Some(p);
      }
      forall p | p in NonNull(raw.ids) ensures p in Listed(raw) { assert Some(p) in raw.ids; }
    }
  }

  // ---- dedupe ---------------------------------------------------------------

  /** A relation mapping as callers pass it; an absent key is None. */
  datatype Entry = Entry(database: Option<string>, project: Option<string>,
                         schema: Option<string>, dataset: Option<string>,
                         identifier: Option<string>, table: Option<string>, tableName: Option<string>,
                         nodeId: Option<string>)

  datatype Relation = Relation(database: string, schema: string, identifier: string, nodeId: Option<string>)
  {
    function Key(): string { DedupeKey(database, schema, identifier) }
  }

  function PyStr(o: Option<string>): string { if o.Some? then o.value else "None" }

  predicate Truthy(o: Option<string>) { o.Some? && o.value != "" }

  function Normalize(e: Entry): Relation {
    Relation(
      PyStr(if e.database.Some? then e.database else e.project),
      PyStr(if e.schema.Some? then e.schema else e.dataset),
      PyStr(if Truthy(e.identifier) then e.identifier else if Truthy(e.table) then e.table else e.tableName),
      e.nodeId)
  }

  /** x is the text under the first of two keys that is present, or that of a missing value. */
  predicate IsTextOf(first: Option<string>, second: Option<string>, x: string) {
    first == Some(x) || (first.None? && second == Some(x)) || (first.None? && second.None? && x == "None")
  }

  predicate Blank(o: Option<string>) { o.None? || o == Some("") }

  /** x is the first non-empty text among the three keys for the table; the last may be empty. */
  predicate IsTableText(e: Entry, x: string) {
    || (e.identifier == Some(x) && x != "")
    || (Blank(e.identifier) && e.table == Some(x) && x != "")
    || (Blank(e.identifier) && Blank(e.table) && IsTextOf(e.tableName, None, x))
  }

  /** The entry asks for table t of dataset d in project p. */
  predicate Names(e: Entry, p: string, d: string, t: string) {
    IsTextOf(e.database, e.project, p) && IsTextOf(e.schema, e.dataset, d) && IsTableText(e, t)
  }

  /** The normalised relation is what the entry asks for; there is nothing else it asks for. */
  lemma NormalizeNames(e: Entry, p: string, d: string, t: string)
    ensures Names(e, p, d, t) <==> Normalize(e) == Relation(p, d, t, e.nodeId)
  {}

  function NormalizeAll(entries: seq<Entry>): (r: seq<Relation>)
    ensures |r| == |entries|
  {
    seq(|entries|, i requires 0 <= i < |entries| => Normalize(entries[i]))
  }

  function Keys(rels: seq<Relation>): (r: seq<string>)
    ensures |r| == |rels|
  {
    seq(|rels|, i requires 0 <= i < |rels| => rels[i].Key())
  }

  /** Where the kept relations stand: the first mention of each key. */
  function FirstMentions(rels: seq<Relation>): (at: seq<nat>)
    ensures forall k :: 0 <= k < |at| ==> at[k] < |rels|
  {
    FirstPositions(Keys(rels))
  }

  method DedupeRelationDicts(entries: seq<Entry>) returns (out: seq<Relation>)
    ensures var rels := NormalizeAll(entries); out == At(rels, FirstMentions(rels))
  {
    out := [];
    var seen: set<string> := {};
    ghost var rels := NormalizeAll(entries);
    ghost var keys := Keys(rels);
    for n := 0 to |entries|
      invariant out == At(rels, FirstPositions(keys[..n]))
      invariant forall key :: key in seen <==> key in keys[..n]
    {
      var rel := Normalize(entries[n]);
      NextPosition(keys, n);
      KeptNext(rels, keys, n);
      if rel.Key() !in seen {
        seen := seen + {rel.Key()};
        out := out + [rel];
      }
    }
    assert keys[..|entries|] == keys;
  }

  /** Exactly one relation per key mentioned: positions rise, keys are distinct, and every
      relation has its key at or before it among the kept ones. */
  lemma DedupeKeepsFirstMentions(rels: seq<Relation>)
    ensures var at := FirstMentions(rels);
      forall k, m :: 0 <= k < m < |at| ==> at[k] < at[m] && rels[at[k]].Key() != rels[at[m]].Key()
    ensures forall i :: 0 <= i < |rels| ==> MentionedBy(rels, FirstMentions(rels), i)
  {
    var keys, at := Keys(rels), FirstMentions(rels);
    forall k, m | 0 <= k < m < |at| ensures at[k] < at[m] && rels[at[k]].Key() != rels[at[m]].Key() {
      PositionsRise(keys, k, m);
      KeptDiffer(keys, k, m);
    }
    forall i | 0 <= i < |rels| ensures MentionedBy(rels, at, i) {
      var j := FirstMention(keys, i);
      assert j in at;
      var k :| 0 <= k < |at| && at[k] == j;
      assert rels[at[k]].Key() == keys[j];
    }
  }

  predicate MentionedBy(rels: seq<Relation>, at: seq<nat>, i: nat)
    requires i < |rels| && forall k :: 0 <= k < |at| ==> at[k] < |rels|
  {
    exists k :: 0 <= k < |at| && at[k] <= i && rels[at[k]].Key() == rels[i].Key()
  }
}
