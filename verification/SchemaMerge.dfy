// `merge_nested_fields`, `collect_field_dicts` and `find_missing_fields` on RECORD trees.
module SchemaMerge {
  import opened Common
  import opened DottedPaths

  // A schema field: `record` is `type == "RECORD"`, `attrs` everything else it carries.
  datatype Field = Field(name: string, record: bool, attrs: string, fields: seq<Field>)

  // One item of a dictionary keyed by dotted path.
  datatype Item = Item(path: Path, field: Field)

  // ---- the operations ----------------------------------------------------------------

  /** `addition_lookup.pop(name, None)`. */
  function Direct(lookup: seq<Item>, name: string): Option<Field> {
    if lookup == [] then None
    else if lookup[0].path == [name] then Some(lookup[0].field)
    else Direct(lookup[1..], name)
  }

  function WithoutDirect(lookup: seq<Item>, name: string): seq<Item> {
    if lookup == [] then []
    else if lookup[0].path == [name] then WithoutDirect(lookup[1..], name)
    else [lookup[0]] + WithoutDirect(lookup[1..], name)
  }

  predicate IsUnder(path: Path, name: string) { |path| > 1 && path[0] == name }

  /** The additions below a field, relative to it. */
  function Under(lookup: seq<Item>, name: string): (r: seq<Item>) {
    if lookup == [] then []
    else if !IsUnder(lookup[0].path, name) then Under(lookup[1..], name)
    else [Item(lookup[0].path[1..], lookup[0].field)] + Under(lookup[1..], name)
  }

  function WithoutUnder(lookup: seq<Item>, name: string): seq<Item> {
    if lookup == [] then []
    else if IsUnder(lookup[0].path, name) then WithoutUnder(lookup[1..], name)
    else [lookup[0]] + WithoutUnder(lookup[1..], name)
  }

  /** What is left at the end is appended when it has no dot. */
  function TopLevel(lookup: seq<Item>): seq<Field> {
    if lookup == [] then []
    else if |lookup[0].path| != 1 then TopLevel(lookup[1..])
    else [lookup[0].field] + TopLevel(lookup[1..])
  }

  /** `merge_nested_fields`. */
  function Merge(existing: seq<Field>, lookup: seq<Item>): seq<Field>
    decreases existing
  {
    if existing == [] then TopLevel(lookup)
    else
      var field := existing[0];
      var direct := Direct(lookup, field.name);
      if direct.Some? then [direct.value] + Merge(existing[1..], WithoutDirect(lookup, field.name))
      else
        var nested := Under(lookup, field.name);
        if nested != [] && field.record then
          [field.(fields := Merge(field.fields, nested))]
          + Merge(existing[1..], WithoutUnder(lookup, field.name))
        else [field] + Merge(existing[1..], lookup)
  }

  method MergeNestedFields(existing: seq<Field>, additions: seq<Item>) returns (merged: seq<Field>)
    ensures merged == Merge(existing, additions)
    decreases existing
  {
    merged := [];
    var lookup := additions;
    for k := 0 to |existing|
      invariant merged + Merge(existing[k..], lookup) == Merge(existing, additions)
    {
      var field := existing[k];
      MergeNext(existing, k, lookup);
      ghost var before := merged + Merge(existing[k..], lookup);
      var direct := Direct(lookup, field.name);
      if direct.Some? {
        lookup := WithoutDirect(lookup, field.name);
        Appended(merged, direct.value, Merge(existing[k + 1..], lookup));
        merged := merged + [direct.value];
      } else {
        var nested := Under(lookup, field.name);
        if nested != [] && field.record {
          var children := MergeNestedFields(field.fields, nested);
          lookup := WithoutUnder(lookup, field.name);
          Appended(merged, field.(fields := children), Merge(existing[k + 1..], lookup));
          merged := merged + [field.(fields := children)];
        } else {
          Appended(merged, field, Merge(existing[k + 1..], lookup));
          merged := merged + [field];
        }
      }
    }
    merged := merged + TopLevel(lookup);
  }

  lemma Appended(merged: seq<Field>, field: Field, rest: seq<Field>)
    ensures merged + ([field] + rest) == merged + [field] + rest
  {}

  lemma {:induction false} MergeNext(existing: seq<Field>, k: nat, lookup: seq<Item>)
    requires k < |existing|
    ensures Merge(existing[k..], lookup) ==
      var field := existing[k];
      var direct := Direct(lookup, field.name);
      var nested := Under(lookup, field.name);
      if direct.Some? then [direct.value] + Merge(existing[k + 1..], WithoutDirect(lookup, field.name))
      else if nested != [] && field.record then
        [field.(fields := Merge(field.fields, nested))]
        + Merge(existing[k + 1..], WithoutUnder(lookup, field.name))
      else [field] + Merge(existing[k + 1..], lookup)
  {
    assert existing[k..][1..] == existing[k + 1..];
  }

  /** The items with their paths read below `prefix`. */
  function Rebased(prefix: Path, items: seq<Item>): (r: seq<Item>)
    ensures |r| == |items|
  {
    if items == [] then []
    else [Item(prefix + items[0].path, items[0].field)] + Rebased(prefix, items[1..])
  }

  /** `collect_field_dicts`: every field by its path, parents before children. */
  function Collect(fields: seq<Field>): seq<Item>
    decreases fields, 0
  {
    if fields == [] then [] else CollectOne(fields[0]) + Collect(fields[1..])
  }

  function CollectOne(field: Field): seq<Item>
    decreases field, 1
  {
    [Item([field.name], field)]
    + if field.record then Rebased([field.name], Collect(field.fields)) else []
  }

  method CollectFieldDicts(fields: seq<Field>, prefix: Path) returns (collected: seq<Item>)
    ensures collected == Rebased(prefix, Collect(fields))
    decreases fields
  {
    collected := [];
    for k := 0 to |fields|
      invariant collected + Rebased(prefix, Collect(fields[k..])) == Rebased(prefix, Collect(fields))
    {
      var field := fields[k];
      var path := prefix + [field.name];
      ghost var rest := Rebased(prefix, Collect(fields[k + 1..]));
      CollectNext(prefix, fields, k);
      ghost var before := collected;
      collected := collected + [Item(path, field)];
      if field.record {
        var below := CollectFieldDicts(field.fields, path);
        collected := collected + below;
      }
      OneRebased(prefix, field);
      assert collected == before + Rebased(prefix, CollectOne(field));
      Reassociate(before, Rebased(prefix, CollectOne(field)), rest);
    }
  }

  lemma Reassociate(a: seq<Item>, b: seq<Item>, c: seq<Item>)
    ensures a + (b + c) == a + b + c
  {}

  lemma {:induction false} CollectNext(prefix: Path, fields: seq<Field>, k: nat)
    requires k < |fields|
    ensures Rebased(prefix, Collect(fields[k..])) ==
      Rebased(prefix, CollectOne(fields[k])) + Rebased(prefix, Collect(fields[k + 1..]))
  {
    assert fields[k..][1..] == fields[k + 1..];
    RebasedAppend(prefix, CollectOne(fields[k]), Collect(fields[k + 1..]));
  }

  lemma {:induction false} OneRebased(prefix: Path, field: Field)
    ensures Rebased(prefix, CollectOne(field)) ==
      [Item(prefix + [field.name], field)]
      + if field.record then Rebased(prefix + [field.name], Collect(field.fields)) else []
  {
    var head := [Item([field.name], field)];
    var below := if field.record then Rebased([field.name], Collect(field.fields)) else [];
    RebasedAppend(prefix, head, below);
    if field.record { RebasedTwice(prefix, [field.name], Collect(field.fields)); }
    assert Rebased(prefix, head) == [Item(prefix + [field.name], field)];
  }

  lemma {:induction false} RebasedAppend(prefix: Path, items: seq<Item>, more: seq<Item>)
    ensures Rebased(prefix, items + more) == Rebased(prefix, items) + Rebased(prefix, more)
  {
    if items == [] {
      assert items + more == more;
    } else {
      assert (items + more)[1..] == items[1..] + more;
      RebasedAppend(prefix, items[1..], more);
    }
  }

  lemma {:induction false} RebasedTwice(prefix: Path, inner: Path, items: seq<Item>)
    ensures Rebased(prefix, Rebased(inner, items)) == Rebased(prefix + inner, items)
  {
    if items != [] {
      RebasedTwice(prefix, inner, items[1..]);
      assert Rebased(inner, items)[1..] == Rebased(inner, items[1..]);
      assert prefix + (inner + items[0].path) == prefix + inner + items[0].path;
    }
  }

  predicate PathIn(items: seq<Item>, path: Path) {
    items != [] && (items[0].path == path || PathIn(items[1..], path))
  }

  function Dropping(items: seq<Item>, known: seq<Item>): seq<Item> {
    if items == [] then []
    else if PathIn(known, items[0].path) then Dropping(items[1..], known)
    else [items[0]] + Dropping(items[1..], known)
  }

  /** `find_missing_fields`. */
  function FindMissing(source: seq<Field>, target: seq<Field>): seq<Item> {
    Dropping(Collect(source), Collect(target))
  }

  // ---- the reference: merging two trees ------------------------------------------------

  function Named(fields: seq<Field>, name: string): Option<Field> {
    if fields == [] then None
    else if fields[0].name == name then Some(fields[0])
    else Named(fields[1..], name)
  }

  /** Field names are distinct at every level. */
  predicate Distinct(fields: seq<Field>)
    decreases fields
  {
    fields == [] || (
      && Named(fields[1..], fields[0].name).None?
      && (fields[0].record ==> Distinct(fields[0].fields))
      && Distinct(fields[1..])
    )
  }

  /** The source fields whose names the target lacks, in source order. */
  function Fresh(source: seq<Field>, target: seq<Field>): seq<Field> {
    if source == [] then []
    else if Named(target, source[0].name).Some? then Fresh(source[1..], target)
    else [source[0]] + Fresh(source[1..], target)
  }

  /** The target's fields, records merged with their source counterpart. */
  function Kept(source: seq<Field>, target: seq<Field>): (r: seq<Field>)
    ensures |r| == |target|
    ensures forall k :: 0 <= k < |r| ==> r[k].name == target[k].name
    decreases target, 0
  {
    if target == [] then []
    else [KeptField(Named(source, target[0].name), target[0])] + Kept(source, target[1..])
  }

  function KeptField(source: Option<Field>, target: Field): (r: Field)
    ensures r.name == target.name && r.record == target.record && r.attrs == target.attrs
    decreases target, 0
  {
    if source.Some? && source.value.record && target.record
    then target.(fields := MergeTrees(source.value.fields, target.fields))
    else target
  }

  function MergeTrees(source: seq<Field>, target: seq<Field>): seq<Field>
    decreases target, 1
  {
    Kept(source, target) + Fresh(source, target)
  }

  // ---- what collecting finds --------------------------------------------------------------

  /** The field at a path. */
  function Lookup(fields: seq<Field>, path: Path): Option<Field>
    requires path != []
    decreases |path|
  {
    var field := Named(fields, path[0]);
    if field.None? || |path| == 1 then field
    else if field.value.record then Lookup(field.value.fields, path[1..])
    else None
  }

  predicate Has(fields: seq<Field>, path: Path) { path != [] && Lookup(fields, path).Some? }

  lemma {:induction false} PathInAppend(items: seq<Item>, more: seq<Item>, path: Path)
    ensures PathIn(items + more, path) <==> PathIn(items, path) || PathIn(more, path)
  {
    if items == [] {
      assert items + more == more;
    } else {
      assert (items + more)[1..] == items[1..] + more;
      PathInAppend(items[1..], more, path);
    }
  }

  lemma {:induction false} PathInRebased(name: string, items: seq<Item>, path: Path)
    ensures PathIn(Rebased([name], items), path) <==> path != [] && path[0] == name && PathIn(items, path[1..])
  {
    if items != [] {
      PathInRebased(name, items[1..], path);
      assert Rebased([name], items)[1..] == Rebased([name], items[1..]);
      assert ([name] + items[0].path)[1..] == items[0].path;
      if path != [] && path[0] == name { assert [name] + path[1..] == path; }
    }
  }

  lemma {:induction false} NoEmptyPath(fields: seq<Field>)
    ensures !PathIn(Collect(fields), [])
    decreases fields
  {
    if fields != [] {
      PathInAppend(CollectOne(fields[0]), Collect(fields[1..]), []);
      PathInOne(fields[0], []);
      NoEmptyPath(fields[1..]);
    }
  }

  lemma {:induction false} PathInOne(f: Field, path: Path)
    ensures PathIn(CollectOne(f), path) <==>
      path == [f.name]
      || (f.record && path != [] && path[0] == f.name && PathIn(Collect(f.fields), path[1..]))
  {
    var below := if f.record then Rebased([f.name], Collect(f.fields)) else [];
    PathInAppend([Item([f.name], f)], below, path);
    if f.record { PathInRebased(f.name, Collect(f.fields), path); }
  }

  /** The collected keys are exactly the paths of the tree. */
  lemma {:induction false} CollectedIffPresent(fields: seq<Field>, path: Path)
    requires Distinct(fields)
    ensures PathIn(Collect(fields), path) <==> Has(fields, path)
    decreases fields
  {
    if path == [] {
      NoEmptyPath(fields);
    } else if fields != [] {
      var f := fields[0];
      PathInAppend(CollectOne(f), Collect(fields[1..]), path);
      PathInOne(f, path);
      CollectedIffPresent(fields[1..], path);
      if f.record { CollectedIffPresent(f.fields, path[1..]); }
      if |path| == 1 { assert path == [path[0]]; }
    }
  }

  /** The items whose path the target lacks. */
  function Lacking(items: seq<Item>, target: seq<Field>): seq<Item> {
    if items == [] then []
    else if Has(target, items[0].path) then Lacking(items[1..], target)
    else [items[0]] + Lacking(items[1..], target)
  }

  lemma {:induction false} DroppingIsLacking(items: seq<Item>, target: seq<Field>)
    requires Distinct(target)
    ensures Dropping(items, Collect(target)) == Lacking(items, target)
  {
    if items != [] {
      CollectedIffPresent(target, items[0].path);
      DroppingIsLacking(items[1..], target);
    }
  }

  lemma {:induction false} LackingAppend(items: seq<Item>, more: seq<Item>, target: seq<Field>)
    ensures Lacking(items + more, target) == Lacking(items, target) + Lacking(more, target)
  {
    if items == [] {
      assert items + more == more;
    } else {
      assert (items + more)[1..] == items[1..] + more;
      LackingAppend(items[1..], more, target);
    }
  }

  lemma {:induction false} UnderAppend(items: seq<Item>, more: seq<Item>, name: string)
    ensures Under(items + more, name) == Under(items, name) + Under(more, name)
  {
    if items == [] {
      assert items + more == more;
    } else {
      assert (items + more)[1..] == items[1..] + more;
      UnderAppend(items[1..], more, name);
    }
  }

  lemma {:induction false} TopAppend(items: seq<Item>, more: seq<Item>)
    ensures TopLevel(items + more) == TopLevel(items) + TopLevel(more)
  {
    if items == [] {
      assert items + more == more;
    } else {
      assert (items + more)[1..] == items[1..] + more;
      TopAppend(items[1..], more);
    }
  }

  /** What the target has below a name. */
  function Below(target: seq<Field>, name: string): seq<Field> {
    var field := Named(target, name);
    if field.Some? && field.value.record then field.value.fields else []
  }

  predicate NonEmptyPaths(items: seq<Item>) { forall k :: 0 <= k < |items| ==> items[k].path != [] }

  lemma HasBelow(target: seq<Field>, name: string, path: Path)
    requires path != []
    ensures Has(target, [name] + path) <==> Has(Below(target, name), path)
  {
    assert ([name] + path)[1..] == path;
  }

  lemma {:induction false} LackingBelow(name: string, items: seq<Item>, target: seq<Field>)
    requires NonEmptyPaths(items)
    ensures Under(Lacking(Rebased([name], items), target), name) == Lacking(items, Below(target, name))
    ensures TopLevel(Lacking(Rebased([name], items), target)) == []
    ensures forall other :: other != name ==> Under(Lacking(Rebased([name], items), target), other) == []
  {
    if items != [] {
      LackingBelow(name, items[1..], target);
      HasBelow(target, name, items[0].path);
      assert Rebased([name], items)[1..] == Rebased([name], items[1..]);
      var path := [name] + items[0].path;
      assert path[1..] == items[0].path && IsUnder(path, name);
      var rest := Lacking(Rebased([name], items[1..]), target);
      if !Has(target, path) {
        assert ([Item(path, items[0].field)] + rest)[1..] == rest;
      } else {
        assert [] + rest == rest;
      }
    }
  }

  lemma {:induction false} CollectNonEmpty(fields: seq<Field>)
    ensures NonEmptyPaths(Collect(fields))
    decreases fields
  {
    if fields != [] {
      CollectNonEmpty(fields[1..]);
      if fields[0].record {
        RebasedNonEmpty(fields[0].name, Collect(fields[0].fields));
      }
    }
  }

  lemma {:induction false} RebasedNonEmpty(name: string, items: seq<Item>)
    ensures NonEmptyPaths(Rebased([name], items))
  {
    if items != [] { RebasedNonEmpty(name, items[1..]); }
  }

  // ---- merging what is missing --------------------------------------------------------------

  lemma {:induction false} OneMissing(f: Field, target: seq<Field>, name: string)
    ensures Under(Lacking(CollectOne(f), target), name) ==
      if f.name == name && f.record then Lacking(Collect(f.fields), Below(target, name)) else []
    ensures TopLevel(Lacking(CollectOne(f), target)) == if Named(target, f.name).None? then [f] else []
  {
    var head := [Item([f.name], f)];
    var below := if f.record then Rebased([f.name], Collect(f.fields)) else [];
    LackingAppend(head, below, target);
    UnderAppend(Lacking(head, target), Lacking(below, target), name);
    TopAppend(Lacking(head, target), Lacking(below, target));
    CollectNonEmpty(f.fields);
    if f.record { LackingBelow(f.name, Collect(f.fields), target); }
  }

  /** The missing items below a source record are those its fields lack in the target's. */
  lemma {:induction false} UnderMissing(source: seq<Field>, target: seq<Field>, name: string)
    requires Distinct(source)
    ensures var s := Named(source, name);
      Under(Lacking(Collect(source), target), name) ==
      if s.Some? && s.value.record then Lacking(Collect(s.value.fields), Below(target, name)) else []
  {
    if source != [] {
      var one, rest := CollectOne(source[0]), Collect(source[1..]);
      LackingAppend(one, rest, target);
      UnderAppend(Lacking(one, target), Lacking(rest, target), name);
      OneMissing(source[0], target, name);
      UnderMissing(source[1..], target, name);
    }
  }

  lemma {:induction false} TopMissing(source: seq<Field>, target: seq<Field>)
    ensures TopLevel(Lacking(Collect(source), target)) == Fresh(source, target)
  {
    if source != [] {
      var one, rest := CollectOne(source[0]), Collect(source[1..]);
      LackingAppend(one, rest, target);
      TopAppend(Lacking(one, target), Lacking(rest, target));
      OneMissing(source[0], target, "");
      TopMissing(source[1..], target);
    }
  }

  lemma {:induction false} NoDirect(items: seq<Item>, target: seq<Field>, name: string)
    requires Named(target, name).Some?
    ensures Direct(Lacking(items, target), name).None?
  {
    if items != [] {
      NoDirect(items[1..], target, name);
      assert Has(target, [name]);
      if !Has(target, items[0].path) {
        assert Lacking(items, target)[1..] == Lacking(items[1..], target);
      } else {
        assert Lacking(items, target) == Lacking(items[1..], target);
      }
    }
  }

  function Each(existing: seq<Field>, lookup: seq<Item>): seq<Field>
    decreases existing
  {
    if existing == [] then []
    else
      var f := existing[0];
      var nested := Under(lookup, f.name);
      [if nested != [] && f.record then f.(fields := Merge(f.fields, nested)) else f]
      + Each(existing[1..], lookup)
  }

  lemma {:induction false} WithoutUnderKeeps(lookup: seq<Item>, name: string, other: string)
    ensures TopLevel(WithoutUnder(lookup, name)) == TopLevel(lookup)
    ensures Direct(WithoutUnder(lookup, name), other) == Direct(lookup, other)
    ensures other != name ==> Under(WithoutUnder(lookup, name), other) == Under(lookup, other)
  {
    if lookup != [] {
      WithoutUnderKeeps(lookup[1..], name, other);
      if IsUnder(lookup[0].path, name) {
        assert WithoutUnder(lookup, name) == WithoutUnder(lookup[1..], name);
      } else {
        assert WithoutUnder(lookup, name)[1..] == WithoutUnder(lookup[1..], name);
      }
    }
  }

  lemma {:induction false} EachIgnores(existing: seq<Field>, lookup: seq<Item>, name: string)
    requires Named(existing, name).None?
    ensures Each(existing, WithoutUnder(lookup, name)) == Each(existing, lookup)
  {
    if existing != [] {
      WithoutUnderKeeps(lookup, name, existing[0].name);
      EachIgnores(existing[1..], lookup, name);
    }
  }

  predicate NoneDirect(existing: seq<Field>, lookup: seq<Item>) {
    forall k :: 0 <= k < |existing| ==> Direct(lookup, existing[k].name).None?
  }

  lemma {:induction false} StillNoneDirect(existing: seq<Field>, lookup: seq<Item>, name: string)
    requires existing != [] && NoneDirect(existing, lookup)
    ensures NoneDirect(existing[1..], lookup) && NoneDirect(existing[1..], WithoutUnder(lookup, name))
  {
    forall k | 0 <= k < |existing[1..]| ensures Direct(WithoutUnder(lookup, name), existing[1..][k].name).None? {
      WithoutUnderKeeps(lookup, name, existing[k + 1].name);
    }
  }

  lemma Concat(a: seq<Field>, b: seq<Field>, c: seq<Field>)
    ensures a + (b + c) == a + b + c
  {}

  /** The first field is merged with what lies under it, and the rest with the same lookup. */
  lemma {:induction false} EachHead(existing: seq<Field>, lookup: seq<Item>, rest: seq<Field>)
    requires existing != [] && Direct(lookup, existing[0].name).None?
    requires Merge(existing[1..], WithoutUnder(lookup, existing[0].name)) == rest
    requires Merge(existing[1..], lookup) == rest
    ensures Merge(existing, lookup) == [Each(existing, lookup)[0]] + rest
  {}

  /** Without direct replacements the lookup table need not be consumed. */
  lemma {:induction false} MergeIsEach(existing: seq<Field>, lookup: seq<Item>)
    requires Distinct(existing) && NoneDirect(existing, lookup)
    ensures Merge(existing, lookup) == Each(existing, lookup) + TopLevel(lookup)
    decreases |existing|
  {
    if existing != [] {
      var f := existing[0];
      var smaller := WithoutUnder(lookup, f.name);
      StillNoneDirect(existing, lookup, f.name);
      WithoutUnderKeeps(lookup, f.name, f.name);
      EachIgnores(existing[1..], lookup, f.name);
      MergeIsEach(existing[1..], smaller);
      MergeIsEach(existing[1..], lookup);
      EachHead(existing, lookup, Each(existing[1..], lookup) + TopLevel(lookup));
      Concat([Each(existing, lookup)[0]], Each(existing[1..], lookup), TopLevel(lookup));
    }
  }

  lemma {:induction false} MergeNothing(existing: seq<Field>)
    ensures Merge(existing, []) == existing
    decreases |existing|
  {
    if existing != [] { MergeNothing(existing[1..]); }
  }

  lemma {:induction false} NamedAt(fields: seq<Field>, k: nat)
    requires Distinct(fields) && k < |fields|
    ensures Named(fields, fields[k].name) == Some(fields[k])
    ensures fields[k].record ==> Distinct(fields[k].fields)
  {
    if k > 0 {
      NamedAt(fields[1..], k - 1);
      assert fields[1..][k - 1] == fields[k];
    }
  }

  lemma {:induction false} NamedDistinct(fields: seq<Field>, name: string)
    requires Distinct(fields)
    ensures Named(fields, name).Some? && Named(fields, name).value.record ==> Distinct(Named(fields, name).value.fields)
  {
    if fields != [] { NamedDistinct(fields[1..], name); }
  }

  /** Merging the missing items into the target is the merge of the two trees. */
  lemma {:induction false} MergeMissing(source: seq<Field>, target: seq<Field>)
    requires Distinct(source) && Distinct(target)
    ensures Merge(target, Lacking(Collect(source), target)) == MergeTrees(source, target)
    decreases target, |target| + 1
  {
    var missing := Lacking(Collect(source), target);
    forall k | 0 <= k < |target| ensures Direct(missing, target[k].name).None? {
      NamedAt(target, k);
      NoDirect(Collect(source), target, target[k].name);
    }
    MergeIsEach(target, missing);
    TopMissing(source, target);
    EachIsKept(source, target, 0);
    assert target[0..] == target;
  }

  lemma {:induction false} EachIsKept(source: seq<Field>, target: seq<Field>, k: nat)
    requires Distinct(source) && Distinct(target) && k <= |target|
    ensures Each(target[k..], Lacking(Collect(source), target)) == Kept(source, target[k..])
    decreases target, |target| - k
  {
    if k < |target| {
      var t := target[k];
      var s := Named(source, t.name);
      NamedAt(target, k);
      NamedDistinct(source, t.name);
      UnderMissing(source, target, t.name);
      assert target[k..][1..] == target[k + 1..];
      EachIsKept(source, target, k + 1);
      if s.Some? && s.value.record && t.record {
        MergeMissing(s.value.fields, t.fields);
        MergeNothing(t.fields);
      }
    }
  }

  /** The composition the schema update relies on. */
  lemma {:induction false} MergeOfMissing(source: seq<Field>, target: seq<Field>)
    requires Distinct(source) && Distinct(target)
    ensures var merged := Merge(target, FindMissing(source, target));
      && merged == MergeTrees(source, target)
      && |target| <= |merged| && merged[|target|..] == Fresh(source, target)
      && forall k :: 0 <= k < |target| ==> merged[k].name == target[k].name
  {
    DroppingIsLacking(Collect(source), target);
    MergeMissing(source, target);
  }

  // ---- the merged tree, path by path ----------------------------------------------------------

  lemma {:induction false} NamedKept(source: seq<Field>, target: seq<Field>, name: string)
    ensures Named(Kept(source, target), name) ==
      if Named(target, name).None? then None
      else Some(KeptField(Named(source, name), Named(target, name).value))
    decreases |target|
  {
    if target != [] {
      NamedKept(source, target[1..], name);
      assert Kept(source, target)[1..] == Kept(source, target[1..]);
    }
  }

  lemma {:induction false} NamedFresh(source: seq<Field>, target: seq<Field>, name: string)
    ensures Named(Fresh(source, target), name) ==
      if Named(target, name).None? then Named(source, name) else None
  {
    if source != [] {
      NamedFresh(source[1..], target, name);
      if Named(target, source[0].name).None? {
        assert Fresh(source, target)[1..] == Fresh(source[1..], target);
      } else {
        assert Fresh(source, target) == Fresh(source[1..], target);
      }
    }
  }

  lemma {:induction false} NamedAppend(fields: seq<Field>, more: seq<Field>, name: string)
    ensures Named(fields + more, name) ==
      if Named(fields, name).Some? then Named(fields, name) else Named(more, name)
  {
    if fields == [] {
      assert fields + more == more;
    } else {
      assert (fields + more)[1..] == fields[1..] + more;
      NamedAppend(fields[1..], more, name);
    }
  }

  lemma {:induction false} NamedMerged(source: seq<Field>, target: seq<Field>, name: string)
    ensures Named(MergeTrees(source, target), name) ==
      if Named(target, name).None? then Named(source, name)
      else Some(KeptField(Named(source, name), Named(target, name).value))
  {
    NamedAppend(Kept(source, target), Fresh(source, target), name);
    NamedKept(source, target, name);
    NamedFresh(source, target, name);
  }

  /** A target field on the way to the path is not a record. */
  predicate Blocked(target: seq<Field>, path: Path)
    decreases |path|
  {
    && |path| > 1
    && Named(target, path[0]).Some?
    && (!Named(target, path[0]).value.record || Blocked(Named(target, path[0]).value.fields, path[1..]))
  }

  /** At every path the merge holds the target's field, merged below when both are records,
      and otherwise the source's field unless a non-record target stands in the way. */
  lemma {:induction false} MergedLookup(source: seq<Field>, target: seq<Field>, path: Path)
    requires path != []
    ensures Lookup(MergeTrees(source, target), path) ==
      var t := Lookup(target, path);
      if t.Some? then Some(KeptField(Lookup(source, path), t.value))
      else if Blocked(target, path) then None else Lookup(source, path)
    decreases |path|
  {
    NamedMerged(source, target, path[0]);
    var t, s := Named(target, path[0]), Named(source, path[0]);
    if |path| > 1 && t.Some? && s.Some? && s.value.record && t.value.record {
      MergedLookup(s.value.fields, t.value.fields, path[1..]);
    }
    if |path| > 1 && t.Some? && t.value.record {
      BlockedIsAbsent(t.value.fields, path[1..]);
    }
  }

  lemma {:induction false} BlockedIsAbsent(target: seq<Field>, path: Path)
    ensures Blocked(target, path) ==> !Has(target, path)
    decreases |path|
  {
    if |path| > 1 && Named(target, path[0]).Some? {
      BlockedIsAbsent(Named(target, path[0]).value.fields, path[1..]);
    }
  }

  /** The paths of the merge are those of both trees, except where the target blocks. */
  lemma {:induction false} MergedPaths(source: seq<Field>, target: seq<Field>, path: Path)
    ensures Has(MergeTrees(source, target), path) <==>
      Has(target, path) || (Has(source, path) && !Blocked(target, path))
  {
    if path != [] { MergedLookup(source, target, path); }
  }

  /** Existing fields keep their definition, and their children keep their order as a prefix. */
  lemma {:induction false} TargetKept(source: seq<Field>, target: seq<Field>, path: Path)
    requires Has(target, path)
    ensures Has(MergeTrees(source, target), path)
    ensures var t := Lookup(target, path).value;
      var m := Lookup(MergeTrees(source, target), path).value;
      && m.name == t.name && m.record == t.record && m.attrs == t.attrs
      && (!t.record ==> m == t)
      && |t.fields| <= |m.fields|
      && forall k :: 0 <= k < |t.fields| ==> m.fields[k].name == t.fields[k].name
  {
    MergedLookup(source, target, path);
  }

  // ---- closing the gap ------------------------------------------------------------------------

  /** A source record with fields, where the target has that name, is a record there too. */
  predicate Compatible(source: seq<Field>, target: seq<Field>)
    decreases source
  {
    source == [] || (
      && CompatibleField(source[0], Named(target, source[0].name))
      && Compatible(source[1..], target)
    )
  }

  predicate CompatibleField(source: Field, target: Option<Field>)
    decreases source
  {
    target.Some? && source.record && source.fields != [] ==>
      target.value.record && Compatible(source.fields, target.value.fields)
  }

  lemma {:induction false} CompatibleNamed(source: seq<Field>, target: seq<Field>, name: string)
    requires Compatible(source, target) && Named(source, name).Some?
    ensures CompatibleField(Named(source, name).value, Named(target, name))
  {
    if source[0].name != name { CompatibleNamed(source[1..], target, name); }
  }

  lemma {:induction false} CompatibleIsUnblocked(source: seq<Field>, target: seq<Field>, path: Path)
    requires Compatible(source, target) && Has(source, path)
    ensures !Blocked(target, path)
    decreases |path|
  {
    if |path| > 1 && Named(target, path[0]).Some? {
      CompatibleNamed(source, target, path[0]);
      CompatibleIsUnblocked(Named(source, path[0]).value.fields, Named(target, path[0]).value.fields, path[1..]);
    }
  }

  /** Where the trees clash some source path is cut off. */
  lemma {:induction false} ClashBlocks(source: seq<Field>, target: seq<Field>) returns (path: Path)
    requires Distinct(source) && !Compatible(source, target)
    ensures Has(source, path) && Blocked(target, path)
    decreases source
  {
    var s := source[0];
    var t := Named(target, s.name);
    if CompatibleField(s, t) {
      path := ClashBlocks(source[1..], target);
      assert path[0] != s.name;
    } else if !t.value.record {
      path := [s.name, s.fields[0].name];
      assert path[1..] == [s.fields[0].name];
    } else {
      var rest := ClashBlocks(s.fields, t.value.fields);
      path := [s.name] + rest;
      assert path[1..] == rest;
    }
  }

  lemma {:induction false} LackingNothing(items: seq<Item>, target: seq<Field>)
    requires forall k :: 0 <= k < |items| ==> Has(target, items[k].path)
    ensures Lacking(items, target) == []
  {
    if items != [] {
      LackingNothing(items[1..], target);
    }
  }

  lemma {:induction false} LackingSomething(items: seq<Item>, target: seq<Field>, path: Path)
    requires PathIn(items, path) && !Has(target, path)
    ensures Lacking(items, target) != []
  {
    if items[0].path != path { LackingSomething(items[1..], target, path); }
  }

  lemma {:induction false} PathAt(items: seq<Item>, k: nat)
    requires k < |items|
    ensures PathIn(items, items[k].path)
  {
    if k > 0 { PathAt(items[1..], k - 1); }
  }

  lemma {:induction false} DistinctAppend(fields: seq<Field>, more: seq<Field>)
    requires Distinct(fields) && Distinct(more)
    requires forall k :: 0 <= k < |fields| ==> Named(more, fields[k].name).None?
    ensures Distinct(fields + more)
    decreases |fields|
  {
    if fields == [] {
      assert fields + more == more;
    } else {
      assert (fields + more)[1..] == fields[1..] + more;
      assert Named(more, fields[0].name).None?;
      DistinctAppend(fields[1..], more);
      NamedAppend(fields[1..], more, fields[0].name);
    }
  }

  lemma {:induction false} DistinctFresh(source: seq<Field>, target: seq<Field>)
    requires Distinct(source)
    ensures Distinct(Fresh(source, target))
    decreases |source|
  {
    if source != [] {
      DistinctFresh(source[1..], target);
      NamedFresh(source[1..], target, source[0].name);
      if Named(target, source[0].name).None? {
        assert Fresh(source, target)[1..] == Fresh(source[1..], target);
      } else {
        assert Fresh(source, target) == Fresh(source[1..], target);
      }
    }
  }

  lemma {:induction false} DistinctKept(source: seq<Field>, target: seq<Field>)
    requires Distinct(source) && Distinct(target)
    ensures Distinct(Kept(source, target))
    decreases target, 0
  {
    if target != [] {
      var s := Named(source, target[0].name);
      DistinctKept(source, target[1..]);
      NamedKept(source, target[1..], target[0].name);
      NamedDistinct(source, target[0].name);
      assert Kept(source, target)[1..] == Kept(source, target[1..]);
      if s.Some? && s.value.record && target[0].record {
        DistinctMerged(s.value.fields, target[0].fields);
      }
    }
  }

  lemma {:induction false} DistinctMerged(source: seq<Field>, target: seq<Field>)
    requires Distinct(source) && Distinct(target)
    ensures Distinct(MergeTrees(source, target))
    decreases target, 1
  {
    DistinctKept(source, target);
    DistinctFresh(source, target);
    forall k | 0 <= k < |target| ensures Named(Fresh(source, target), Kept(source, target)[k].name).None? {
      NamedAt(target, k);
      NamedFresh(source, target, target[k].name);
    }
    DistinctAppend(Kept(source, target), Fresh(source, target));
  }

  /** Merging what is missing leaves nothing missing, exactly when no source record with
      fields meets a target field of the same path that is not a record. */
  lemma {:induction false} MergeClosesTheGap(source: seq<Field>, target: seq<Field>)
    requires Distinct(source) && Distinct(target)
    ensures FindMissing(source, Merge(target, FindMissing(source, target))) == [] <==> Compatible(source, target)
  {
    var merged := MergeTrees(source, target);
    MergeOfMissing(source, target);
    DistinctMerged(source, target);
    DroppingIsLacking(Collect(source), merged);
    if Compatible(source, target) {
      forall k | 0 <= k < |Collect(source)| ensures Has(merged, Collect(source)[k].path) {
        var path := Collect(source)[k].path;
        PathAt(Collect(source), k);
        CollectedIffPresent(source, path);
        CompatibleIsUnblocked(source, target, path);
        MergedPaths(source, target, path);
      }
      LackingNothing(Collect(source), merged);
    } else {
      var path := ClashBlocks(source, target);
      BlockedIsAbsent(target, path);
      MergedPaths(source, target, path);
      CollectedIffPresent(source, path);
      LackingSomething(Collect(source), merged, path);
    }
  }

  /** A record in the source against a plain column of that name in the target: the nested
      field stays missing however often the merge is repeated. */
  lemma RecordAgainstColumn()
    ensures var source := [Field("a", true, "", [Field("x", false, "INT64", [])])];
      var target := [Field("a", false, "STRING", [])];
      FindMissing(source, Merge(target, FindMissing(source, target))) != []
  {
    var x := Field("x", false, "INT64", []);
    var source, target := [Field("a", true, "", [x])], [Field("a", false, "STRING", [])];
    assert Distinct([x]);
    assert Distinct(source);
    assert Distinct(target);
    assert Named(target, "a") == Some(target[0]);
    assert !CompatibleField(source[0], Named(target, "a"));
    MergeClosesTheGap(source, target);
  }
}
