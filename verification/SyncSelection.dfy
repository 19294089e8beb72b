// Which columns a schema synchronisation selects, on the texts and paths it is given.
module SyncSelection {
  import opened Common
  import opened DottedPaths
  import opened PyText
  import opened SchemaMerge
  import opened SchemaSync

  // ---- types that hold a struct ------------------------------------------------------------------

  ghost predicate StandsIn(s: string, part: string) {
    exists before, after :: s == before + part + after
  }

  lemma {:induction false} ContainsExactly(s: string, part: string)
    ensures Contains(s, part) <==> StandsIn(s, part)
  {
    if StartsWith(s, part) {
      assert s == "" + part + s[|part|..];
    }
    if s != "" {
      ContainsExactly(s[1..], part);
      if StandsIn(s[1..], part) {
        var before, after :| s[1..] == before + part + after;
        AnotherBefore(s, before, part, after);
      }
    }
    forall before, after | s == before + part + after ensures Contains(s, part) {
      if before == "" {
        assert s[..|part|] == part;
      } else {
        assert s[1..] == before[1..] + part + after;
      }
    }
  }

  lemma AnotherBefore(s: string, before: string, part: string, after: string)
    requires s != "" && s[1..] == before + part + after
    ensures s == ([s[0]] + before) + part + after
  {
    assert s == [s[0]] + s[1..];
  }

  /** The keyword of a struct or record type stands in the text, in any case. */
  ghost predicate HoldsStruct(text: string) {
    exists k :: Upper(k) in ["STRUCT<", "RECORD"] && StandsIn(text, k)
  }

  lemma {:induction false} UpperOfParts(before: string, k: string, after: string)
    ensures Upper(before + k + after) == Upper(before) + Upper(k) + Upper(after)
  {
    UpperAppend(before + k, after);
    UpperAppend(before, k);
  }

  lemma {:induction false} UpperSlice(text: string, i: nat, j: nat)
    requires i <= j <= |text|
    ensures Upper(text[i..j]) == Upper(text)[i..j]
  {
    var a, b, c := text[..i], text[i..j], text[j..];
    ThreeParts(text, i, j);
    UpperOfParts(a, b, c);
    Middle(Upper(text), Upper(a), Upper(b), Upper(c));
  }

  lemma ThreeParts(text: string, i: nat, j: nat)
    requires i <= j <= |text|
    ensures text == text[..i] + text[i..j] + text[j..]
  {}

  lemma Middle(s: string, before: string, part: string, after: string)
    requires s == before + part + after
    ensures |before| + |part| <= |s| && s[|before|..|before| + |part|] == part
  {}

  lemma SliceStandsIn(text: string, i: nat, j: nat)
    requires i <= j <= |text|
    ensures StandsIn(text, text[i..j])
  {
    assert text == text[..i] + text[i..j] + text[j..];
  }

  lemma {:induction false} StandsInUpper(text: string, word: string)
    ensures StandsIn(Upper(text), word) <==> exists k :: Upper(k) == word && StandsIn(text, k)
  {
    if StandsIn(Upper(text), word) {
      var before, after :| Upper(text) == before + word + after;
      var i, j := |before|, |before| + |word|;
      Middle(Upper(text), before, word, after);
      UpperSlice(text, i, j);
      SliceStandsIn(text, i, j);
    }
    forall k | Upper(k) == word && StandsIn(text, k) ensures StandsIn(Upper(text), word) {
      var before, after :| text == before + k + after;
      UpperOfParts(before, k, after);
    }
  }

  lemma StructTypeExactly(text: string)
    ensures IsStructType(text) <==> HoldsStruct(text)
  {
    ContainsExactly(Upper(text), "STRUCT<");
    ContainsExactly(Upper(text), "RECORD");
    StandsInUpper(text, "STRUCT<");
    StandsInUpper(text, "RECORD");
    if exists k :: Upper(k) == "STRUCT<" && StandsIn(text, k) {
      var k :| Upper(k) == "STRUCT<" && StandsIn(text, k);
      assert Upper(k) in ["STRUCT<", "RECORD"];
    }
    if exists k :: Upper(k) == "RECORD" && StandsIn(text, k) {
      var k :| Upper(k) == "RECORD" && StandsIn(text, k);
      assert Upper(k) in ["STRUCT<", "RECORD"];
    }
  }

  // ---- root columns ----------------------------------------------------------------------------------

  /** name is the part before the first dot, if there is one. */
  predicate IsRootOf(name: string, column: string) {
    Free('.', name) && (column == name || StartsWith(column, name + ['.']))
  }

  lemma RootExactly(column: string, name: string)
    ensures Root(column) == name <==> IsRootOf(name, column)
  {
    SplitIsProper(column);
    JoinSplit(column);
    if Free('.', name) {
      ChildTest(Split(column), name);
      if column == name { SplitWhole(name); }
      if |Split(column)| == 1 { assert Split(column) == [Split(column)[0]]; }
    }
  }

  /** A type change to a struct type, of this column or of a field in it. */
  ghost predicate ChangesStruct(change: TypeChange, name: string) {
    change.columnName.Some? && change.columnName.value != ""
    && IsRootOf(name, change.columnName.value) && HoldsStruct(change.newType)
  }

  lemma {:induction false} ChangeRootsExactly(changes: seq<TypeChange>, name: string)
    ensures name in ChangeRoots(changes) <==> exists i :: 0 <= i < |changes| && ChangesStruct(changes[i], name)
  {
    if changes != [] {
      var init, last := changes[..|changes| - 1], changes[|changes| - 1];
      ChangeRootsExactly(init, name);
      StructTypeExactly(last.newType);
      if last.columnName.Some? { RootExactly(last.columnName.value, name); }
      assert forall i :: 0 <= i < |init| ==> init[i] == changes[i];
      if ChangesStruct(last, name) { assert ChangesStruct(changes[|changes| - 1], name); }
    }
  }

  // ---- selection ---------------------------------------------------------------------------------------

  /** A nested field of this column that the target lacks. */
  ghost predicate LacksNested(source: seq<Field>, target: seq<Field>, name: string) {
    exists path: Path :: |path| > 1 && path[0] == name && Has(source, path) && !Has(target, path)
  }

  lemma {:induction false} AdditionRootsExactly(missing: seq<Item>, name: string)
    ensures name in AdditionRoots(missing) <==>
      exists i :: 0 <= i < |missing| && |missing[i].path| > 1 && missing[i].path[0] == name
  {
    if missing != [] {
      var init, last := missing[..|missing| - 1], missing[|missing| - 1];
      AdditionRootsExactly(init, name);
      assert forall i :: 0 <= i < |init| ==> init[i] == missing[i];
      if |last.path| > 1 && last.path[0] == name { assert missing[|missing| - 1] == last; }
    }
  }

  lemma {:induction false} MissingExactly(source: seq<Field>, target: seq<Field>, path: Path)
    requires Distinct(source) && Distinct(target)
    ensures PathIn(FindMissing(source, target), path) <==> Has(source, path) && !Has(target, path)
  {
    CollectedIffPresent(source, path);
    DroppingIsLacking(Collect(source), target);
    MissingHasPath(Collect(source), target, path);
  }

  /** A column is selected exactly if the target lacks a nested field of it, or its type or that of
      a field in it changes to a struct type. */
  lemma {:induction false} SelectedExactly(source: seq<Field>, target: seq<Field>, changes: seq<TypeChange>,
      name: string)
    requires Distinct(source) && Distinct(target)
    ensures name in ToUpdate(source, target, changes) <==>
      LacksNested(source, target, name) || exists i :: 0 <= i < |changes| && ChangesStruct(changes[i], name)
  {
    var missing := FindMissing(source, target);
    ChangeRootsExactly(changes, name);
    AdditionRootsExactly(missing, name);
    forall i | 0 <= i < |missing| && |missing[i].path| > 1 && missing[i].path[0] == name
      ensures LacksNested(source, target, name)
    {
      PathAt(missing, i);
      MissingExactly(source, target, missing[i].path);
    }
    forall path: Path | |path| > 1 && path[0] == name && Has(source, path) && !Has(target, path)
      ensures name in AdditionRoots(missing)
    {
      MissingExactly(source, target, path);
      RootOfMissing(missing, path);
    }
  }

  lemma {:induction false} HandledExactly(source: seq<Field>, target: seq<Field>, columns: set<string>, name: string)
    ensures name in Handled(source, target, columns) <==> IsHandled(source, columns, name) && Named(target, name).Some?
    decreases |target|
  {
    if target != [] {
      var init, last := target[..|target| - 1], target[|target| - 1];
      assert target == init + [last];
      HandledExactly(source, init, columns, name);
      NamedAppend(init, [last], name);
      assert [last][1..] == [];
    }
  }

  /** In append and in sync mode alike, and in no other mode, a new schema is sent exactly if some
      selected column is in both schemas. */
  lemma {:induction false} SendsExactly(mode: string, source: seq<Field>, target: seq<Field>, changes: seq<TypeChange>)
    ensures Sends(mode, source, target, changes) <==>
      && mode in ["append_new_columns", "sync_all_columns"]
      && exists name ::
           name in ToUpdate(source, target, changes) && Named(source, name).Some? && Named(target, name).Some?
  {
    var columns := ToUpdate(source, target, changes);
    forall name
      ensures name in Handled(source, target, columns) <==>
        name in columns && Named(source, name).Some? && Named(target, name).Some?
    {
      HandledExactly(source, target, columns, name);
    }
    if Handled(source, target, columns) != {} {
      var name :| name in Handled(source, target, columns);
    }
  }
}
