// `sync_struct_columns`: replacing the STRUCT columns of a target table by the source's.
module SchemaSync {
  import opened Common
  import opened Counting
  import opened DottedPaths
  import opened PyText
  import opened SchemaMerge

  predicate Contains(s: string, part: string) {
    StartsWith(s, part) || (s != "" && Contains(s[1..], part))
  }

  predicate IsStructType(text: string) {
    Contains(Upper(text), "STRUCT<") || Contains(Upper(text), "RECORD")
  }

  function Root(name: string): string { Split(name)[0] }

  // One entry of `new_target_types`.
  datatype TypeChange = TypeChange(columnName: Option<string>, newType: string)

  predicate HasColumn(change: TypeChange) { change.columnName.Some? && change.columnName.value != "" }

  // ---- which columns are replaced -----------------------------------------------------------

  /** Root columns of the missing nested fields. */
  function AdditionRoots(missing: seq<Item>): set<string> {
    if missing == [] then {}
    else
      var last := missing[|missing| - 1];
      AdditionRoots(missing[..|missing| - 1]) + if |last.path| > 1 then {last.path[0]} else {}
  }

  function ChangeRoots(changes: seq<TypeChange>): set<string> {
    if changes == [] then {}
    else
      var last := changes[|changes| - 1];
      ChangeRoots(changes[..|changes| - 1])
      + if HasColumn(last) && IsStructType(last.newType) then {Root(last.columnName.value)} else {}
  }

  function ToUpdate(source: seq<Field>, target: seq<Field>, changes: seq<TypeChange>): set<string> {
    AdditionRoots(FindMissing(source, target)) + ChangeRoots(changes)
  }

  predicate IsHandled(source: seq<Field>, columns: set<string>, name: string) {
    name in columns && Named(source, name).Some?
  }

  function Updated(source: seq<Field>, target: seq<Field>, columns: set<string>): (r: seq<Field>)
    ensures |r| == |target|
  {
    if target == [] then []
    else
      var last := target[|target| - 1];
      Updated(source, target[..|target| - 1], columns)
      + [if IsHandled(source, columns, last.name) then Named(source, last.name).value else last]
  }

  function Handled(source: seq<Field>, target: seq<Field>, columns: set<string>): (r: set<string>)
    ensures forall name :: name in r ==> IsHandled(source, columns, name)
  {
    if target == [] then {}
    else
      var last := target[|target| - 1];
      Handled(source, target[..|target| - 1], columns)
      + if IsHandled(source, columns, last.name) then {last.name} else {}
  }

  function Unhandled(names: seq<string>, handled: set<string>): seq<string> {
    if names == [] then []
    else
      var last := names[|names| - 1];
      var kept := Unhandled(names[..|names| - 1], handled);
      if Root(last) in handled then kept else kept + [last]
  }

  function StillChanged(changes: seq<TypeChange>, handled: set<string>): seq<TypeChange> {
    if changes == [] then []
    else
      var last := changes[|changes| - 1];
      var kept := StillChanged(changes[..|changes| - 1], handled);
      if HasColumn(last) && Root(last.columnName.value) in handled then kept else kept + [last]
  }

  // ---- the tables and the method ------------------------------------------------------------

  // The table as the server holds it.
  class Table {
    var schema: seq<Field>

    constructor (schema: seq<Field>)
      ensures this.schema == schema
    {
      this.schema := schema;
    }

    /** `client.update_table`: the server may refuse the new schema with BadRequest. */
    method Update(schema: seq<Field>, accepts: bool) returns (ok: bool)
      modifies this
      ensures ok == accepts
      ensures this.schema == if accepts then schema else old(this.schema)
    {
      ok := accepts;
      if accepts { this.schema := schema; }
    }
  }

  // The `schema_changes_dict`; an absent list is the empty list.
  class SchemaChanges {
    var schemaChanged: bool
    var sourceNotInTarget: seq<string>
    var targetNotInSource: seq<string>
    var newTargetTypes: seq<TypeChange>
    var targetColumns: seq<Field>

    constructor (schemaChanged: bool, sourceNotInTarget: seq<string>, targetNotInSource: seq<string>,
        newTargetTypes: seq<TypeChange>, targetColumns: seq<Field>)
      ensures this.schemaChanged == schemaChanged && this.sourceNotInTarget == sourceNotInTarget
      ensures this.targetNotInSource == targetNotInSource && this.newTargetTypes == newTargetTypes
      ensures this.targetColumns == targetColumns
    {
      this.schemaChanged, this.sourceNotInTarget := schemaChanged, sourceNotInTarget;
      this.targetNotInSource, this.newTargetTypes := targetNotInSource, newTargetTypes;
      this.targetColumns := targetColumns;
    }

    /** The edits after a successful update. */
    method Settle(updated: seq<Field>, handled: set<string>)
      modifies this
      ensures targetColumns == updated && targetNotInSource == old(targetNotInSource)
      ensures sourceNotInTarget == Unhandled(old(sourceNotInTarget), handled)
      ensures newTargetTypes == StillChanged(old(newTargetTypes), handled)
      ensures schemaChanged == (old(schemaChanged)
        && !(sourceNotInTarget == [] && targetNotInSource == [] && newTargetTypes == []))
    {
      sourceNotInTarget := UnhandledLoop(sourceNotInTarget, handled);
      targetColumns := updated;
      newTargetTypes := StillChangedLoop(newTargetTypes, handled);
      if sourceNotInTarget == [] && targetNotInSource == [] && newTargetTypes == [] {
        schemaChanged := false;
      }
    }
  }

  predicate Syncs(mode: string) { mode == "append_new_columns" || mode == "sync_all_columns" }

  /** The call gets as far as sending a new schema. */
  predicate Sends(mode: string, source: seq<Field>, target: seq<Field>, changes: seq<TypeChange>) {
    Syncs(mode) && Handled(source, target, ToUpdate(source, target, changes)) != {}
  }

  /** `sync_struct_columns`. */
  method SyncStructColumns(mode: string, source: seq<Field>, target: Table, changes: SchemaChanges, accepts: bool)
    returns (r: Result<()>)
    modifies target, changes
    ensures var before, types := old(target.schema), old(changes.newTargetTypes);
      && (r.Err? <==> Sends(mode, source, before, types) && !accepts)
      && (!Sends(mode, source, before, types) || !accepts ==>
            && target.schema == before && changes.newTargetTypes == types
            && changes.sourceNotInTarget == old(changes.sourceNotInTarget)
            && changes.targetColumns == old(changes.targetColumns)
            && changes.schemaChanged == old(changes.schemaChanged))
      && (Sends(mode, source, before, types) && accepts ==>
            var columns := ToUpdate(source, before, types);
            var handled := Handled(source, before, columns);
            && target.schema == Updated(source, before, columns)
            && changes.targetColumns == target.schema
            && changes.sourceNotInTarget == Unhandled(old(changes.sourceNotInTarget), handled)
            && changes.newTargetTypes == StillChanged(types, handled)
            && changes.schemaChanged == (old(changes.schemaChanged) && !(
                  && changes.sourceNotInTarget == [] && changes.targetNotInSource == []
                  && changes.newTargetTypes == [])))
    ensures changes.targetNotInSource == old(changes.targetNotInSource)
  {
    if !Syncs(mode) { return Ok(()); }
    var columns := ColumnsToUpdate(source, target.schema, changes.newTargetTypes);
    if columns == {} {
      NothingHandled(source, target.schema);
      return Ok(());
    }
    var updated, handled := UpdateLoop(source, target.schema, columns);
    if handled == {} { return Ok(()); }
    var sent := target.Update(updated, accepts);
    if !sent { return Err("Failed to update STRUCT schema"); }
    changes.Settle(updated, handled);
    return Ok(());
  }

  lemma {:induction false} NothingHandled(source: seq<Field>, target: seq<Field>)
    ensures Handled(source, target, {}) == {}
  {
    if target != [] { NothingHandled(source, target[..|target| - 1]); }
  }

  method ColumnsToUpdate(source: seq<Field>, target: seq<Field>, changes: seq<TypeChange>)
    returns (columns: set<string>)
    ensures columns == ToUpdate(source, target, changes)
  {
    var missing := FindMissing(source, target);
    columns := {};
    for k := 0 to |missing|
      invariant columns == AdditionRoots(missing[..k])
    {
      assert missing[..k + 1][..k] == missing[..k];
      if |missing[k].path| > 1 { columns := columns + {missing[k].path[0]}; }
    }
    assert missing[..|missing|] == missing;
    for k := 0 to |changes|
      invariant columns == AdditionRoots(missing) + ChangeRoots(changes[..k])
    {
      assert changes[..k + 1][..k] == changes[..k];
      var change := changes[k];
      if HasColumn(change) && IsStructType(change.newType) {
        columns := columns + {Root(change.columnName.value)};
      }
    }
    assert changes[..|changes|] == changes;
  }

  method UpdateLoop(source: seq<Field>, target: seq<Field>, columns: set<string>)
    returns (updated: seq<Field>, handled: set<string>)
    ensures updated == Updated(source, target, columns) && handled == Handled(source, target, columns)
  {
    updated, handled := [], {};
    for k := 0 to |target|
      invariant updated == Updated(source, target[..k], columns)
      invariant handled == Handled(source, target[..k], columns)
    {
      assert target[..k + 1][..k] == target[..k];
      var field := target[k];
      if field.name in columns {
        var found := Named(source, field.name);
        if found.Some? {
          updated := updated + [found.value];
          handled := handled + {field.name};
        } else {
          updated := updated + [field];
        }
      } else {
        updated := updated + [field];
      }
    }
    assert target[..|target|] == target;
  }

  method UnhandledLoop(names: seq<string>, handled: set<string>) returns (r: seq<string>)
    ensures r == Unhandled(names, handled)
  {
    r := [];
    for k := 0 to |names|
      invariant r == Unhandled(names[..k], handled)
    {
      assert names[..k + 1][..k] == names[..k];
      if Root(names[k]) !in handled { r := r + [names[k]]; }
    }
    assert names[..|names|] == names;
  }

  method StillChangedLoop(changes: seq<TypeChange>, handled: set<string>) returns (r: seq<TypeChange>)
    ensures r == StillChanged(changes, handled)
  {
    r := [];
    for k := 0 to |changes|
      invariant r == StillChanged(changes[..k], handled)
    {
      assert changes[..k + 1][..k] == changes[..k];
      if !HasColumn(changes[k]) || Root(changes[k].columnName.value) !in handled { r := r + [changes[k]]; }
    }
    assert changes[..|changes|] == changes;
  }

  // ---- what the new schema is ---------------------------------------------------------------

  /** The target's columns in the target's order; a replaced one is the source's definition,
      every other is unchanged. */
  lemma {:induction false} UpdatedKeepsColumns(source: seq<Field>, target: seq<Field>, columns: set<string>, k: nat)
    requires k < |target|
    ensures var u := Updated(source, target, columns);
      && u[k].name == target[k].name
      && u[k] == if IsHandled(source, columns, target[k].name) then Named(source, target[k].name).value else target[k]
  {
    NamedHasName(source, target[k].name);
    if k < |target| - 1 { UpdatedKeepsColumns(source, target[..|target| - 1], columns, k); }
  }

  lemma {:induction false} NamedHasName(fields: seq<Field>, name: string)
    ensures Named(fields, name).Some? ==> Named(fields, name).value.name == name
  {
    if fields != [] { NamedHasName(fields[1..], name); }
  }

  lemma {:induction false} NamedUpdated(source: seq<Field>, target: seq<Field>, columns: set<string>, name: string)
    ensures Named(Updated(source, target, columns), name) ==
      if Named(target, name).None? then None
      else if IsHandled(source, columns, name) then Named(source, name)
      else Named(target, name)
    decreases |target|
  {
    if target != [] {
      var n := |target| - 1;
      var init, last := target[..n], target[n];
      assert target == init + [last];
      NamedAppend(init, [last], name);
      NamedUpdated(source, init, columns, name);
      NamedHasName(source, last.name);
      var u := if IsHandled(source, columns, last.name) then Named(source, last.name).value else last;
      NamedAppend(Updated(source, init, columns), [u], name);
    }
  }

  /** Path by path: the source's field under a replaced column, the target's elsewhere. */
  lemma {:induction false} UpdatedLookup(source: seq<Field>, target: seq<Field>, columns: set<string>, path: Path)
    requires path != []
    ensures Lookup(Updated(source, target, columns), path) ==
      if Named(target, path[0]).None? then None
      else if IsHandled(source, columns, path[0]) then Lookup(source, path)
      else Lookup(target, path)
  {
    NamedUpdated(source, target, columns, path[0]);
  }

  lemma {:induction false} RootOfMissing(missing: seq<Item>, path: Path)
    requires PathIn(missing, path) && |path| > 1
    ensures path[0] in AdditionRoots(missing)
    decreases |missing|
  {
    var n := |missing| - 1;
    assert missing == missing[..n] + [missing[n]];
    PathInAppend(missing[..n], [missing[n]], path);
    if PathIn(missing[..n], path) { RootOfMissing(missing[..n], path); }
  }

  lemma {:induction false} MissingHasPath(items: seq<Item>, target: seq<Field>, path: Path)
    ensures PathIn(Lacking(items, target), path) <==> PathIn(items, path) && !Has(target, path)
  {
    if items != [] {
      MissingHasPath(items[1..], target, path);
      if Has(target, items[0].path) {
        assert Lacking(items, target) == Lacking(items[1..], target);
      } else {
        assert Lacking(items, target)[1..] == Lacking(items[1..], target);
      }
    }
  }

  lemma {:induction false} NestedMissingIsSelected(source: seq<Field>, target: seq<Field>, changes: seq<TypeChange>,
      path: Path)
    requires Distinct(source) && Distinct(target)
    requires |path| > 1 && Has(source, path) && !Has(target, path)
    ensures IsHandled(source, ToUpdate(source, target, changes), path[0])
  {
    CollectedIffPresent(source, path);
    DroppingIsLacking(Collect(source), target);
    MissingHasPath(Collect(source), target, path);
    RootOfMissing(FindMissing(source, target), path);
  }

  lemma {:induction false} HandledRoot(source: seq<Field>, target: seq<Field>, columns: set<string>, name: string)
    requires Named(target, name).Some? && IsHandled(source, columns, name)
    ensures name in Handled(source, target, columns)
    decreases |target|
  {
    var n := |target| - 1;
    var init, last := target[..n], target[n];
    assert target == init + [last];
    NamedAppend(init, [last], name);
    if Named(init, name).Some? { HandledRoot(source, init, columns, name); }
  }

  /** The schema after a call that did not raise. */
  function Final(mode: string, source: seq<Field>, target: seq<Field>, changes: seq<TypeChange>): seq<Field> {
    if Sends(mode, source, target, changes) then Updated(source, target, ToUpdate(source, target, changes))
    else target
  }

  /** After every call in append or sync mode that did not raise, a source path is missing
      from the target exactly when its whole top-level column is. */
  lemma {:induction false} SyncClosesTheGap(mode: string, source: seq<Field>, target: seq<Field>,
      changes: seq<TypeChange>, path: Path)
    requires Syncs(mode) && Distinct(source) && Distinct(target) && Has(source, path)
    ensures !Has(Final(mode, source, target, changes), path) <==> Named(target, path[0]).None?
  {
    var columns := ToUpdate(source, target, changes);
    UpdatedLookup(source, target, columns, path);
    if Named(target, path[0]).Some? && !Has(target, path) {
      NestedMissingIsSelected(source, target, changes, path);
      HandledRoot(source, target, columns, path[0]);
    }
  }

  /** Replacing a column also drops what only the target had below it, in either mode. */
  lemma TargetOnlyPathsAreDropped(mode: string, source: seq<Field>, target: seq<Field>, changes: seq<TypeChange>,
      path: Path)
    requires Sends(mode, source, target, changes) && Has(target, path) && !Has(source, path)
    ensures Has(Final(mode, source, target, changes), path) <==>
      !IsHandled(source, ToUpdate(source, target, changes), path[0])
  {
    UpdatedLookup(source, target, ToUpdate(source, target, changes), path);
  }

  /** Appending column y to `a{x, z}` from a source `a{x, y}` loses z, in append mode. */
  lemma AppendDropsTargetOnlyField()
    ensures var x, y, z := Field("x", false, "INT64", []), Field("y", false, "INT64", []), Field("z", false, "INT64", []);
      var source, target := [Field("a", true, "", [x, y])], [Field("a", true, "", [x, z])];
      && Sends("append_new_columns", source, target, [])
      && Has(target, ["a", "z"])
      && !Has(Final("append_new_columns", source, target, []), ["a", "z"])
  {
    var x, y, z := Field("x", false, "INT64", []), Field("y", false, "INT64", []), Field("z", false, "INT64", []);
    var source, target := [Field("a", true, "", [x, y])], [Field("a", true, "", [x, z])];
    DistinctPair("a", x, y);
    DistinctPair("a", x, z);
    PairPaths("a", x, y, "y");
    PairPaths("a", x, z, "y");
    PairPaths("a", x, y, "z");
    PairPaths("a", x, z, "z");
    NestedMissingIsSelected(source, target, [], ["a", "y"]);
    HandledRoot(source, target, ToUpdate(source, target, []), "a");
    TargetOnlyPathsAreDropped("append_new_columns", source, target, [], ["a", "z"]);
  }

  lemma DistinctPair(name: string, f: Field, g: Field)
    requires f.name != g.name && !f.record && !g.record
    ensures Distinct([Field(name, true, "", [f, g])])
  {
    assert [f, g][1..] == [g];
    assert Distinct([g]);
    assert Distinct([f, g]);
    assert [Field(name, true, "", [f, g])][1..] == [];
  }

  lemma {:induction false} PairPaths(name: string, f: Field, g: Field, child: string)
    ensures var fields := [Field(name, true, "", [f, g])];
      && Named(fields, name).Some?
      && (Has(fields, [name, child]) <==> child == f.name || child == g.name)
  {
    var fields := [Field(name, true, "", [f, g])];
    assert [name, child][1..] == [child];
    assert [g][1..] == [];
    assert Named([g], child).Some? <==> child == g.name;
    assert [f, g][1..] == [g];
    assert Named([f, g], child).Some? <==> child == f.name || child == g.name;
    assert Named(fields, name) == Some(fields[0]);
    assert Lookup([f, g], [child]) == Named([f, g], child);
    assert Lookup(fields, [name, child]) == Lookup([f, g], [child]);
  }

  // ---- what is left to do ---------------------------------------------------------------------

  /** Exactly the names whose root column was not handled stay, each as often as before. */
  lemma {:induction false} UnhandledKeeps(names: seq<string>, handled: set<string>, name: string)
    ensures Count(Unhandled(names, handled), name) == if Root(name) in handled then 0 else Count(names, name)
  {
    if names != [] {
      UnhandledKeeps(names[..|names| - 1], handled, name);
      CountSnoc(Unhandled(names[..|names| - 1], handled), names[|names| - 1], name);
    }
  }

  /** f treats a list item by item: adding one at the end adds what f makes of it. */
  ghost predicate ItemByItem<T(!new)>(f: seq<T> -> seq<T>) {
    f([]) == [] && forall init: seq<T>, last: T :: f(init + [last]) == f(init) + f([last])
  }

  lemma {:induction false} InOrder<T(!new)>(f: seq<T> -> seq<T>, a: seq<T>, b: seq<T>)
    requires ItemByItem(f)
    ensures f(a + b) == f(a) + f(b)
  {
    if b == [] {
      assert a + b == a;
    } else {
      var init, last := b[..|b| - 1], b[|b| - 1];
      InOrder(f, a, init);
      assert a + b == (a + init) + [last] && b == init + [last];
      Regroup(f(a), f(init), f([last]));
    }
  }

  lemma Regroup<T>(a: seq<T>, b: seq<T>, c: seq<T>)
    ensures a + b + c == a + (b + c)
  {}

  lemma {:induction false} UnhandledSnoc(init: seq<string>, last: string, handled: set<string>)
    ensures Unhandled(init + [last], handled) == Unhandled(init, handled) + Unhandled([last], handled)
  {
    var all := init + [last];
    assert all[..|all| - 1] == init && all[|all| - 1] == last;
    assert [last][..0] == [] && [last][0] == last;
  }

  /** ... and in their order: what is kept of a list is what is kept of its parts. */
  lemma {:induction false} UnhandledInOrder(names: seq<string>, more: seq<string>, handled: set<string>)
    ensures Unhandled(names + more, handled) == Unhandled(names, handled) + Unhandled(more, handled)
  {
    var f := (list: seq<string>) => Unhandled(list, handled);
    forall init, last ensures f(init + [last]) == f(init) + f([last]) { UnhandledSnoc(init, last, handled); }
    InOrder(f, names, more);
  }

  /** Exactly the type changes without a column name or of a column not handled stay. */
  lemma {:induction false} StillChangedKeeps(changes: seq<TypeChange>, handled: set<string>, change: TypeChange)
    ensures Count(StillChanged(changes, handled), change) ==
      if HasColumn(change) && Root(change.columnName.value) in handled then 0 else Count(changes, change)
  {
    if changes != [] {
      StillChangedKeeps(changes[..|changes| - 1], handled, change);
      CountSnoc(StillChanged(changes[..|changes| - 1], handled), changes[|changes| - 1], change);
    }
  }

  lemma {:induction false} StillChangedSnoc(init: seq<TypeChange>, last: TypeChange, handled: set<string>)
    ensures StillChanged(init + [last], handled) == StillChanged(init, handled) + StillChanged([last], handled)
  {
    var all := init + [last];
    assert all[..|all| - 1] == init && all[|all| - 1] == last;
    assert [last][..0] == [] && [last][0] == last;
  }

  lemma {:induction false} StillChangedInOrder(changes: seq<TypeChange>, more: seq<TypeChange>, handled: set<string>)
    ensures StillChanged(changes + more, handled) == StillChanged(changes, handled) + StillChanged(more, handled)
  {
    var f := (list: seq<TypeChange>) => StillChanged(list, handled);
    forall init, last ensures f(init + [last]) == f(init) + f([last]) { StillChangedSnoc(init, last, handled); }
    InOrder(f, changes, more);
  }
}
