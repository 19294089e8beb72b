// Which entries stand for one table: the names they give, and the keys and log names made of them.
module Relations {
  import opened Common
  import opened Mentions
  import opened DottedPaths
  import opened ChangeTracking
  import opened PoolerSteps
  import opened Gateway

  /** The name under which a table's rows, watermark and lock are kept is its quoted full name. */
  lemma NameText(r: Relation)
    ensures NameOf(r) == "`" + r.database + "`.`" + r.schema + "`.`" + r.identifier + "`"
  {}

  lemma NameParts(r: Relation)
    ensures NameOf(r) == "`" + (r.database + ['`'] + (".`" + (r.schema + ['`'] + (".`" + (r.identifier + "`")))))
  {}

  /** A watermark is kept under a name of its own in the pooler's database, with the table's project
      as the schema. */
  lemma CheckpointText(p: string, d: string, t: string)
    ensures CheckpointFullName(p, d, t) == "`gateway.pooler`.`" + p + "`.`" + d + "." + t + "`"
  {
    assert "`" + "gateway.pooler" + "`.`" == "`gateway.pooler`.`";
    Dotted("`gateway.pooler`.`" + p + "`.`", d, t);
  }

  lemma Dotted(head: string, d: string, t: string)
    ensures head + (d + "." + t) + "`" == head + d + "." + t + "`"
  {}

  /** Different tables have different names: no name contains the backtick that ends it. */
  lemma NameOfInjective(r: Relation, r': Relation)
    requires Free('`', r.database) && Free('`', r.schema) && Free('`', r'.database) && Free('`', r'.schema)
    requires NameOf(r) == NameOf(r')
    ensures r.database == r'.database && r.schema == r'.schema && r.identifier == r'.identifier
  {
    var id, id' := r.identifier + "`", r'.identifier + "`";
    var tail, tail' := r.schema + ['`'] + (".`" + id), r'.schema + ['`'] + (".`" + id');
    NameParts(r);
    NameParts(r');
    DropPrefix("`", r.database + ['`'] + (".`" + tail), r'.database + ['`'] + (".`" + tail'));
    CutAtFirst('`', r.database, ".`" + tail, r'.database, ".`" + tail');
    DropPrefix(".`", tail, tail');
    CutAtFirst('`', r.schema, ".`" + id, r'.schema, ".`" + id');
    DropPrefix(".`", id, id');
    DropSuffix(r.identifier, r'.identifier, "`");
  }

  /** Two entries share log rows, watermark and lock exactly if they ask for one table. */
  lemma EntriesShareExactly(e: Entry, p: string, d: string, t: string, e': Entry, p': string, d': string, t': string)
    requires Names(e, p, d, t) && Names(e', p', d', t')
    requires Free('`', p) && Free('`', d) && Free('`', p') && Free('`', d')
    ensures NameOf(Normalize(e)) == NameOf(Normalize(e')) <==> p == p' && d == d' && t == t'
  {
    NormalizeNames(e, p, d, t);
    NormalizeNames(e', p', d', t');
    if NameOf(Normalize(e)) == NameOf(Normalize(e')) { NameOfInjective(Normalize(e), Normalize(e')); }
  }

  // ---- the dedupe, by table ----------------------------------------------------------------

  /** The entry asks for a table whose dataset and table names have no dot. */
  ghost predicate DotFree(e: Entry) {
    exists p, d, t :: Names(e, p, d, t) && Free('.', d) && Free('.', t)
  }

  ghost predicate SameTable(e: Entry, e': Entry) {
    exists p, d, t :: Names(e, p, d, t) && Names(e', p, d, t)
  }

  /** Without dots, entries have one dedupe key exactly if they ask for one table. */
  lemma SameKeySameTable(e: Entry, e': Entry)
    requires DotFree(e) && DotFree(e')
    ensures Normalize(e).Key() == Normalize(e').Key() <==> SameTable(e, e')
  {
    var p, d, t :| Names(e, p, d, t) && Free('.', d) && Free('.', t);
    var p', d', t' :| Names(e', p', d', t') && Free('.', d') && Free('.', t');
    NormalizeNames(e, p, d, t);
    NormalizeNames(e', p', d', t');
    if DedupeKey(p, d, t) == DedupeKey(p', d', t') { DedupeKeyInjective(p, d, t, p', d', t'); }
    forall x, y, z | Names(e, x, y, z) && Names(e', x, y, z) ensures x == p == p' && y == d == d' && z == t == t' {
      NormalizeNames(e, x, y, z);
      NormalizeNames(e', x, y, z);
    }
  }

  /** A relation is kept exactly if no earlier entry asks for its table. */
  lemma KeptExactlyWhenNew(entries: seq<Entry>, k: nat)
    requires k < |entries| && forall i :: 0 <= i < |entries| ==> DotFree(entries[i])
    ensures k in FirstMentions(NormalizeAll(entries)) <==> forall i :: 0 <= i < k ==> !SameTable(entries[i], entries[k])
  {
    var rels := NormalizeAll(entries);
    var keys := Keys(rels);
    forall i | 0 <= i < k ensures keys[i] == keys[k] <==> SameTable(entries[i], entries[k]) {
      SameKeySameTable(entries[i], entries[k]);
    }
    if k in FirstPositions(keys) {
      var j :| 0 <= j < |FirstPositions(keys)| && FirstPositions(keys)[j] == k;
      forall i | 0 <= i < k ensures !SameTable(entries[i], entries[k]) { KeptIsNew(keys, j, i); }
    } else if keys[k] in keys[..k] {
      var i :| 0 <= i < k && keys[..k][i] == keys[k];
      assert SameTable(entries[i], entries[k]);
    } else {
      NewIsKept(keys, k);
    }
  }
}
