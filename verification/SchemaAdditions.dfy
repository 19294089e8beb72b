// Merging additions of whole fields as well as of nested ones.
module SchemaAdditions {
  import opened Common
  import opened DottedPaths
  import opened SchemaMerge

  /** What becomes of one existing field: the addition of its name if there is one, and otherwise the
      field with the additions below it. */
  function Changed(field: Field, lookup: seq<Item>): Field {
    var direct, nested := Direct(lookup, field.name), Under(lookup, field.name);
    if direct.Some? then direct.value
    else if nested != [] && field.record then field.(fields := Merge(field.fields, nested))
    else field
  }

  function ChangedAll(existing: seq<Field>, lookup: seq<Item>): (r: seq<Field>)
    ensures |r| == |existing| && forall k :: 0 <= k < |r| ==> r[k] == Changed(existing[k], lookup)
  {
    if existing == [] then [] else [Changed(existing[0], lookup)] + ChangedAll(existing[1..], lookup)
  }

  predicate IsNew(existing: seq<Field>, path: Path) { |path| == 1 && Named(existing, path[0]).None? }

  /** The additions of whole fields whose names do not exist yet. */
  function NewFields(existing: seq<Field>, lookup: seq<Item>): seq<Field> {
    if lookup == [] then []
    else if IsNew(existing, lookup[0].path) then [lookup[0].field] + NewFields(existing, lookup[1..])
    else NewFields(existing, lookup[1..])
  }

  lemma {:induction false} NewAmongNone(lookup: seq<Item>)
    ensures NewFields([], lookup) == TopLevel(lookup)
  {
    if lookup != [] { NewAmongNone(lookup[1..]); }
  }

  lemma {:induction false} WithoutDirectKeeps(lookup: seq<Item>, name: string, other: string)
    ensures Under(WithoutDirect(lookup, name), other) == Under(lookup, other)
    ensures other != name ==> Direct(WithoutDirect(lookup, name), other) == Direct(lookup, other)
  {
    if lookup != [] {
      WithoutDirectKeeps(lookup[1..], name, other);
      if lookup[0].path == [name] {
        assert WithoutDirect(lookup, name) == WithoutDirect(lookup[1..], name);
      } else {
        assert WithoutDirect(lookup, name)[1..] == WithoutDirect(lookup[1..], name);
      }
      if other != name { assert [other] != [name] by { assert [other][0] != [name][0]; } }
    }
  }

  lemma {:induction false} ChangedIgnores(existing: seq<Field>, lookup: seq<Item>, name: string)
    requires Named(existing, name).None?
    ensures ChangedAll(existing, WithoutDirect(lookup, name)) == ChangedAll(existing, lookup)
    ensures ChangedAll(existing, WithoutUnder(lookup, name)) == ChangedAll(existing, lookup)
  {
    if existing != [] {
      WithoutDirectKeeps(lookup, name, existing[0].name);
      WithoutUnderKeeps(lookup, name, existing[0].name);
      ChangedIgnores(existing[1..], lookup, name);
    }
  }

  lemma NewHead(existing: seq<Field>, path: Path)
    requires existing != []
    ensures IsNew(existing, path) <==> IsNew(existing[1..], path) && path != [existing[0].name]
  {
    if |path| == 1 { assert path == [path[0]]; }
  }

  lemma {:induction false} NewWithoutDirect(existing: seq<Field>, lookup: seq<Item>)
    requires existing != []
    ensures NewFields(existing[1..], WithoutDirect(lookup, existing[0].name)) == NewFields(existing, lookup)
    ensures Direct(lookup, existing[0].name).None? ==> NewFields(existing[1..], lookup) == NewFields(existing, lookup)
  {
    if lookup != [] {
      var name := existing[0].name;
      NewHead(existing, lookup[0].path);
      NewWithoutDirect(existing, lookup[1..]);
      if lookup[0].path == [name] {
        assert WithoutDirect(lookup, name) == WithoutDirect(lookup[1..], name);
      } else {
        assert WithoutDirect(lookup, name)[1..] == WithoutDirect(lookup[1..], name);
      }
    }
  }

  lemma {:induction false} NewWithoutUnder(existing: seq<Field>, lookup: seq<Item>, name: string)
    ensures NewFields(existing, WithoutUnder(lookup, name)) == NewFields(existing, lookup)
  {
    if lookup != [] {
      NewWithoutUnder(existing, lookup[1..], name);
      if IsUnder(lookup[0].path, name) {
        assert WithoutUnder(lookup, name) == WithoutUnder(lookup[1..], name);
      } else {
        assert WithoutUnder(lookup, name)[1..] == WithoutUnder(lookup[1..], name);
      }
    }
  }

  lemma Concat(a: seq<Field>, b: seq<Field>, c: seq<Field>)
    ensures a + (b + c) == a + b + c
  {}

  lemma {:induction false} MergeIsChanged(existing: seq<Field>, lookup: seq<Item>)
    requires Distinct(existing)
    ensures Merge(existing, lookup) == ChangedAll(existing, lookup) + NewFields(existing, lookup)
    decreases |existing|
  {
    if existing == [] {
      NewAmongNone(lookup);
    } else {
      var f, rest := existing[0], existing[1..];
      ChangedIgnores(rest, lookup, f.name);
      NewWithoutDirect(existing, lookup);
      Concat([Changed(f, lookup)], ChangedAll(rest, lookup), NewFields(existing, lookup));
      if Direct(lookup, f.name).Some? {
        MergeIsChanged(rest, WithoutDirect(lookup, f.name));
      } else if Under(lookup, f.name) != [] && f.record {
        NewWithoutUnder(rest, lookup, f.name);
        MergeIsChanged(rest, WithoutUnder(lookup, f.name));
      } else {
        MergeIsChanged(rest, lookup);
      }
    }
  }

  // ---- on the additions as a dictionary --------------------------------------------------------

  /** Each path is added once. */
  predicate OncePerPath(lookup: seq<Item>) {
    forall i, j :: 0 <= i < j < |lookup| ==> lookup[i].path != lookup[j].path
  }

  lemma {:induction false} DirectExactly(lookup: seq<Item>, name: string, f: Field)
    requires OncePerPath(lookup)
    ensures Direct(lookup, name) == Some(f) <==> Item([name], f) in lookup
  {
    if lookup != [] {
      forall i, j | 0 <= i < j < |lookup[1..]| ensures lookup[1..][i].path != lookup[1..][j].path {
        assert lookup[i + 1].path != lookup[j + 1].path;
      }
      DirectExactly(lookup[1..], name, f);
      assert lookup == [lookup[0]] + lookup[1..];
      if lookup[0].path == [name] {
        forall i | 1 <= i < |lookup| ensures lookup[i] != Item([name], f) { assert lookup[0].path != lookup[i].path; }
      }
    }
  }

  lemma {:induction false} NewExactly(existing: seq<Field>, lookup: seq<Item>, f: Field)
    ensures f in NewFields(existing, lookup) <==>
      exists item :: item in lookup && item.field == f && IsNew(existing, item.path)
  {
    if lookup != [] {
      NewExactly(existing, lookup[1..], f);
      assert lookup == [lookup[0]] + lookup[1..];
    }
  }

  /** Adding a whole field whose name exists replaces that field where it stands, and the field is
      not appended again; a whole field with a new name is appended, behind all existing ones. */
  lemma {:induction false} DirectReplacesInPlace(existing: seq<Field>, lookup: seq<Item>, k: nat, f: Field)
    requires Distinct(existing) && OncePerPath(lookup)
    requires k < |existing| && Item([existing[k].name], f) in lookup
    ensures var merged := Merge(existing, lookup);
      && |existing| <= |merged| && merged[k] == f
      && merged[|existing|..] == NewFields(existing, lookup)
    ensures !IsNew(existing, [existing[k].name])
  {
    MergeIsChanged(existing, lookup);
    DirectExactly(lookup, existing[k].name, f);
    NamedAt(existing, k);
  }

  /** Where no whole field is added the existing one keeps everything but what is added below it. */
  lemma {:induction false} OthersKeepTheirPlace(existing: seq<Field>, lookup: seq<Item>, k: nat)
    requires Distinct(existing) && OncePerPath(lookup)
    requires k < |existing| && forall f :: Item([existing[k].name], f) !in lookup
    ensures var merged, nested := Merge(existing, lookup), Under(lookup, existing[k].name);
      && |existing| <= |merged|
      && merged[k] == existing[k].(fields := merged[k].fields)
      && merged[k].fields ==
           if existing[k].record && nested != [] then Merge(existing[k].fields, nested) else existing[k].fields
  {
    MergeIsChanged(existing, lookup);
    var direct := Direct(lookup, existing[k].name);
    if direct.Some? { DirectExactly(lookup, existing[k].name, direct.value); }
  }
}
