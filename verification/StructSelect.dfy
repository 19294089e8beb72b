// `get_struct_select_expression`: the generated SELECT expression and what it computes.
module StructSelect {
  import opened Common
  import opened DottedPaths
  import opened PyText
  import opened StructParser

  // ---- the expression and its text ---------------------------------------------------

  // Paths are relative to the selected column.
  datatype Expr =
    | Ref(path: Path)
    | Guarded(path: Path, items: seq<Aliased>)

  datatype Aliased = Aliased(expr: Expr, alias: string)

  function PathText(column: string, path: Path): string {
    if path == [] then column
    else PathText(column, path[..|path| - 1]) + "." + path[|path| - 1]
  }

  function GuardText(path: string, items: seq<string>): string {
    "IF(" + path + " IS NULL, NULL, STRUCT(" + JoinWith(items, ", ") + "))"
  }

  function Render(column: string, expr: Expr): string
    decreases expr
  {
    match expr
    case Ref(path) => PathText(column, path)
    case Guarded(path, items) => GuardText(PathText(column, path), RenderItems(column, items))
  }

  function RenderItems(column: string, items: seq<Aliased>): (r: seq<string>)
    ensures |r| == |items|
    decreases items
  {
    if items == [] then []
    else [Render(column, items[0].expr) + " AS " + items[0].alias] + RenderItems(column, items[1..])
  }

  /** The item selected for one declared field. */
  function Item(path: Path, field: Named): Aliased
    decreases field, 0
  {
    Aliased(Select(path + [field.name], field.tree), field.name)
  }

  /** A struct is rebuilt field by field unless it is NULL; anything else is selected as is. */
  function Select(path: Path, tree: Tree): Expr
    decreases tree, 1
  {
    match tree
    case Leaf(_) => Ref(path)
    case Node(fields) => Guarded(path, Items(path, fields))
  }

  function Items(path: Path, fields: seq<Named>): (r: seq<Aliased>)
    ensures |r| == |fields|
    decreases fields
  {
    if fields == [] then []
    else [Item(path, fields[0])] + Items(path, fields[1..])
  }

  lemma {:induction false} RenderItemsAppend(column: string, items: seq<Aliased>, more: seq<Aliased>)
    ensures RenderItems(column, items + more) == RenderItems(column, items) + RenderItems(column, more)
  {
    if items == [] {
      assert items + more == more;
    } else {
      assert (items + more)[1..] == items[1..] + more;
      RenderItemsAppend(column, items[1..], more);
    }
  }

  lemma {:induction false} ItemsAppend(path: Path, fields: seq<Named>, more: seq<Named>)
    ensures Items(path, fields + more) == Items(path, fields) + Items(path, more)
  {
    if fields == [] {
      assert fields + more == more;
    } else {
      assert (fields + more)[1..] == fields[1..] + more;
      ItemsAppend(path, fields[1..], more);
    }
  }

  lemma {:induction false} RenderNext(column: string, path: Path, fields: seq<Named>, k: nat)
    requires k < |fields|
    ensures RenderItems(column, Items(path, fields[..k + 1])) ==
      RenderItems(column, Items(path, fields[..k]))
      + [Render(column, Item(path, fields[k]).expr) + " AS " + fields[k].name]
  {
    assert fields[..k + 1] == fields[..k] + [fields[k]];
    ItemsAppend(path, fields[..k], [fields[k]]);
    assert Items(path, [fields[k]]) == [Item(path, fields[k])];
    RenderItemsAppend(column, Items(path, fields[..k]), [Item(path, fields[k])]);
    assert RenderItems(column, [Item(path, fields[k])]) ==
      [Render(column, Item(path, fields[k]).expr) + " AS " + fields[k].name];
  }

  lemma {:induction false} PathTextSnoc(column: string, path: Path, name: string)
    ensures PathText(column, path + [name]) == PathText(column, path) + "." + name
  {
    assert (path + [name])[..|path|] == path;
  }

  lemma {:induction false} ParseTreesAt(fields: seq<FieldDef>, bound: nat, k: nat)
    requires Shorter(fields, bound) && k < |fields|
    ensures ParseTrees(fields, bound)[k] == Named(fields[k].name, ParseTree(fields[k].dataType))
    decreases |fields|
  {
    if k > 0 { ParseTreesAt(fields[1..], bound, k - 1); }
  }

  /** `_build_struct_field_expressions`: the text of the items, straight from the type strings. */
  method BuildStructFieldExpressions(column: string, ghost path: Path, parentPath: string,
      fields: seq<FieldDef>, ghost bound: nat)
    returns (exprs: seq<string>)
    requires parentPath == PathText(column, path) && Shorter(fields, bound)
    ensures exprs == RenderItems(column, Items(path, ParseTrees(fields, bound)))
    decreases bound
  {
    exprs := [];
    ghost var trees := ParseTrees(fields, bound);
    for k := 0 to |fields|
      invariant exprs == RenderItems(column, Items(path, trees[..k]))
    {
      var field := fields[k];
      var fieldPath := parentPath + "." + field.name;
      PathTextSnoc(column, path, field.name);
      ParseTreesAt(fields, bound, k);
      RenderNext(column, path, trees, k);
      var nested := ParseStructFields(field.dataType);
      if nested.Some? {
        var inner := BuildStructFieldExpressions(column, path + [field.name], fieldPath, nested.value, |field.dataType|);
        exprs := exprs + [GuardText(fieldPath, inner) + " AS " + field.name];
      } else {
        exprs := exprs + [fieldPath + " AS " + field.name];
      }
    }
    assert trees[..|fields|] == trees;
  }

  /** The select item for a column: the column itself, or the guarded struct under its name. */
  function SelectedText(column: string, expr: Expr): string {
    if expr.Ref? then column else Render(column, expr) + " AS " + column
  }

  method GetStructSelectExpression(column: string, dataType: string) returns (text: string)
    ensures text == SelectedText(column, Select([], ParseTree(dataType)))
  {
    var fields := ParseStructFields(dataType);
    if fields.None? { return column; }
    var exprs := BuildStructFieldExpressions(column, [], column, fields.value, |dataType|);
    text := GuardText(column, exprs) + " AS " + column;
  }

  // ---- what the expression computes --------------------------------------------------

  datatype Value = Null | Atom(text: string) | Struct(fields: seq<Slot>)

  datatype Slot = Slot(name: string, value: Value)

  function Slotted(slots: seq<Slot>, name: string): Option<Value> {
    if slots == [] then None
    else if slots[0].name == name then Some(slots[0].value)
    else Slotted(slots[1..], name)
  }

  /** Field access: NULL of a NULL struct, None where there is no such field. */
  function Access(value: Value, name: string): Option<Value> {
    match value
    case Null => Some(Null)
    case Atom(_) => None
    case Struct(slots) => Slotted(slots, name)
  }

  function At(value: Value, path: Path): Option<Value> {
    if path == [] then Some(value)
    else
      var parent := At(value, path[..|path| - 1]);
      if parent.None? then None else Access(parent.value, path[|path| - 1])
  }

  function Eval(expr: Expr, value: Value): Option<Value>
    decreases expr
  {
    match expr
    case Ref(path) => At(value, path)
    case Guarded(path, items) =>
      var here := At(value, path);
      if here.None? then None
      else if here.value == Null then Some(Null)
      else
        var slots := EvalItems(items, value);
        if slots.None? then None else Some(Struct(slots.value))
  }

  function EvalItems(items: seq<Aliased>, value: Value): Option<seq<Slot>>
    decreases items
  {
    if items == [] then Some([])
    else
      var head := Eval(items[0].expr, value);
      var rest := EvalItems(items[1..], value);
      if head.None? || rest.None? then None
      else Some([Slot(items[0].alias, head.value)] + rest.value)
  }

  /** The value has every field the type declares, at every depth where it is not NULL. */
  predicate Covers(tree: Tree, value: Value)
    decreases tree, 1
  {
    tree.Leaf? || value.Null? || CoversAll(tree.fields, value)
  }

  predicate CoversAll(fields: seq<Named>, value: Value)
    decreases fields, 0
  {
    fields == [] || (
      && Access(value, fields[0].name).Some?
      && Covers(fields[0].tree, Access(value, fields[0].name).value)
      && CoversAll(fields[1..], value)
    )
  }

  /** The same value with the declared fields in the declared order; NULL stays NULL. */
  function Reorder(tree: Tree, value: Value): Value
    requires Covers(tree, value)
    decreases tree, 1
  {
    if tree.Leaf? || value.Null? then value else Struct(ReorderAll(tree.fields, value))
  }

  function ReorderAll(fields: seq<Named>, value: Value): (r: seq<Slot>)
    requires CoversAll(fields, value)
    ensures |r| == |fields|
    decreases fields, 0
  {
    if fields == [] then []
    else
      [Slot(fields[0].name, Reorder(fields[0].tree, Access(value, fields[0].name).value))]
      + ReorderAll(fields[1..], value)
  }

  lemma {:induction false} AtSnoc(value: Value, path: Path, name: string)
    ensures At(value, path + [name]) ==
      if At(value, path).None? then None else Access(At(value, path).value, name)
  {
    assert (path + [name])[..|path|] == path;
  }

  /** The expression for a subtree, evaluated on the whole column, reorders the value found
      at its path; it fails exactly when a declared field is missing. */
  lemma {:induction false} SelectReorders(path: Path, tree: Tree, value: Value)
    requires At(value, path).Some?
    ensures var here := At(value, path).value;
      Eval(Select(path, tree), value) == if Covers(tree, here) then Some(Reorder(tree, here)) else None
    decreases tree, 1
  {
    if tree.Node? { ItemsReorder(path, tree.fields, value); }
  }

  lemma {:induction false} ItemsReorder(path: Path, fields: seq<Named>, value: Value)
    requires At(value, path).Some?
    ensures var here := At(value, path).value;
      EvalItems(Items(path, fields), value) ==
      if CoversAll(fields, here) then Some(ReorderAll(fields, here)) else None
    decreases fields, 0
  {
    if fields != [] {
      var name := fields[0].name;
      AtSnoc(value, path, name);
      if At(value, path + [name]).Some? {
        SelectReorders(path + [name], fields[0].tree, value);
      } else {
        NoValue(path + [name], fields[0].tree, value);
      }
      ItemsReorder(path, fields[1..], value);
      assert Items(path, fields)[1..] == Items(path, fields[1..]);
    }
  }

  lemma {:induction false} NoValue(path: Path, tree: Tree, value: Value)
    requires At(value, path).None?
    ensures Eval(Select(path, tree), value).None?
  {}

  /** What the generated SELECT computes, for every value of the column. */
  lemma {:induction false} SelectMeans(dataType: string, value: Value)
    ensures var tree := ParseTree(dataType);
      Eval(Select([], tree), value) == if Covers(tree, value) then Some(Reorder(tree, value)) else None
  {
    SelectReorders([], ParseTree(dataType), value);
  }

  // ---- reordering keeps the meaning -----------------------------------------------------

  function FieldTree(fields: seq<Named>, name: string): Option<Tree> {
    if fields == [] then None
    else if fields[0].name == name then Some(fields[0].tree)
    else FieldTree(fields[1..], name)
  }

  function Subtree(tree: Tree, path: Path): Option<Tree> {
    if path == [] then Some(tree)
    else
      var parent := Subtree(tree, path[..|path| - 1]);
      if parent.None? || parent.value.Leaf? then None
      else FieldTree(parent.value.fields, path[|path| - 1])
  }

  lemma {:induction false} SlotOfReordered(fields: seq<Named>, value: Value, name: string)
    requires CoversAll(fields, value) && FieldTree(fields, name).Some?
    ensures Access(value, name).Some? && Covers(FieldTree(fields, name).value, Access(value, name).value)
    ensures Slotted(ReorderAll(fields, value), name) ==
      Some(Reorder(FieldTree(fields, name).value, Access(value, name).value))
  {
    if fields[0].name != name {
      SlotOfReordered(fields[1..], value, name);
      assert ReorderAll(fields, value)[1..] == ReorderAll(fields[1..], value);
    }
  }

  /** At every declared path the result holds the source's value there, itself reordered;
      so leaves are unchanged and NULL structs stay NULL at every level. */
  lemma {:induction false} ReorderAtPath(tree: Tree, value: Value, path: Path)
    requires Covers(tree, value) && Subtree(tree, path).Some?
    ensures At(value, path).Some? && Covers(Subtree(tree, path).value, At(value, path).value)
    ensures At(Reorder(tree, value), path) == Some(Reorder(Subtree(tree, path).value, At(value, path).value))
    decreases |path|
  {
    if path != [] {
      var above, name := path[..|path| - 1], path[|path| - 1];
      ReorderAtPath(tree, value, above);
      var here, parent := At(value, above).value, Subtree(tree, above).value;
      if here != Null {
        SlotOfReordered(parent.fields, here, name);
      }
    }
  }

  /** At every declared path the result is NULL exactly when the source was NULL there: a
      NULL struct never turns into a struct of NULLs, nor the other way round. */
  lemma {:induction false} NullStaysNull(tree: Tree, value: Value, path: Path)
    requires Covers(tree, value) && Subtree(tree, path).Some?
    ensures At(Reorder(tree, value), path) == Some(Null) <==> At(value, path) == Some(Null)
  {
    ReorderAtPath(tree, value, path);
  }

  lemma {:induction false} LeavesUnchanged(tree: Tree, value: Value, path: Path)
    requires Covers(tree, value) && Subtree(tree, path).Some? && Subtree(tree, path).value.Leaf?
    ensures At(Reorder(tree, value), path) == At(value, path)
  {
    ReorderAtPath(tree, value, path);
  }

  predicate DistinctNames(tree: Tree)
    decreases tree, 1
  {
    tree.Node? ==> DistinctAll(tree.fields)
  }

  predicate DistinctAll(fields: seq<Named>)
    decreases fields, 0
  {
    fields == [] || (
      && FieldTree(fields[1..], fields[0].name).None?
      && DistinctNames(fields[0].tree)
      && DistinctAll(fields[1..])
    )
  }

  /** The value's structs hold exactly the declared fields, in the declared order. */
  predicate InOrder(tree: Tree, value: Value)
    decreases tree, 1
  {
    tree.Leaf? || value.Null? || (value.Struct? && InOrderAll(tree.fields, value.fields))
  }

  predicate InOrderAll(fields: seq<Named>, slots: seq<Slot>)
    decreases fields, 0
  {
    && |slots| == |fields|
    && (fields != [] ==>
          && slots[0].name == fields[0].name
          && InOrder(fields[0].tree, slots[0].value)
          && InOrderAll(fields[1..], slots[1..]))
  }

  lemma {:induction false} ReorderIsInOrder(tree: Tree, value: Value)
    requires Covers(tree, value)
    ensures InOrder(tree, Reorder(tree, value))
    decreases tree, 1
  {
    if tree.Node? && value != Null { ReorderAllInOrder(tree.fields, value); }
  }

  lemma {:induction false} ReorderAllInOrder(fields: seq<Named>, value: Value)
    requires CoversAll(fields, value)
    ensures InOrderAll(fields, ReorderAll(fields, value))
    decreases fields, 0
  {
    if fields != [] {
      ReorderIsInOrder(fields[0].tree, Access(value, fields[0].name).value);
      ReorderAllInOrder(fields[1..], value);
      assert ReorderAll(fields, value)[1..] == ReorderAll(fields[1..], value);
    }
  }

  /** A value already in the declared order is selected unchanged. */
  lemma {:induction false} InOrderIsFixed(tree: Tree, value: Value)
    requires DistinctNames(tree) && InOrder(tree, value)
    ensures Covers(tree, value) && Reorder(tree, value) == value
    decreases tree, 1
  {
    if tree.Node? && value != Null {
      InOrderAllFixed(tree.fields, value.fields, value, 0);
      assert value.fields[0..] == value.fields;
    }
  }

  lemma {:induction false} InOrderAllFixed(fields: seq<Named>, slots: seq<Slot>, value: Value, k: nat)
    requires value.Struct? && k <= |value.fields| && slots == value.fields[k..]
    requires DistinctAll(fields) && InOrderAll(fields, slots)
    requires forall i :: 0 <= i < k ==> FieldTree(fields, value.fields[i].name).None?
    ensures CoversAll(fields, value) && ReorderAll(fields, value) == slots
    decreases fields, 0
  {
    if fields != [] {
      assert value.fields[k] == slots[0];
      FirstSlot(value.fields, k, fields);
      InOrderIsFixed(fields[0].tree, slots[0].value);
      forall i | 0 <= i < k + 1 ensures FieldTree(fields[1..], value.fields[i].name).None? {
        if i < k { assert FieldTree(fields, value.fields[i].name).None?; }
      }
      InOrderAllFixed(fields[1..], slots[1..], value, k + 1);
    }
  }

  lemma {:induction false} FirstSlot(slots: seq<Slot>, k: nat, fields: seq<Named>)
    requires k < |slots| && fields != [] && slots[k].name == fields[0].name
    requires forall i :: 0 <= i < k ==> FieldTree(fields, slots[i].name).None?
    ensures Slotted(slots, fields[0].name) == Some(slots[k].value)
  {
    if k > 0 {
      assert slots[0].name != fields[0].name;
      FirstSlot(slots[1..], k - 1, fields);
    }
  }

  /** Applying the SELECT to its own result changes nothing. */
  lemma {:induction false} SelectTwice(dataType: string, value: Value)
    requires DistinctNames(ParseTree(dataType))
    ensures var expr := Select([], ParseTree(dataType));
      var once := Eval(expr, value);
      once.Some? ==> Eval(expr, once.value) == once
  {
    var tree := ParseTree(dataType);
    SelectMeans(dataType, value);
    if Covers(tree, value) {
      ReorderIsInOrder(tree, value);
      InOrderIsFixed(tree, Reorder(tree, value));
      SelectMeans(dataType, Reorder(tree, value));
    }
  }
}
