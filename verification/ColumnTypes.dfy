// `get_nested_column_data_types`: the gathered dictionaries printed as STRUCT types.
module ColumnTypes {
  import opened Common
  import opened DottedPaths
  import opened PyText
  import opened ColumnTrie

  // ---- printing --------------------------------------------------------------

  const NONE_SPLIT := "'NoneType' object has no attribute 'split'"

  function ItemText(name: string, text: Option<string>): string {
    Strip(name + " " + if text.Some? then text.value else "")
  }

  function Wrap(own: Option<Option<string>>, items: seq<string>): string
    requires own != Some(None)
  {
    var words := Words(if own.Some? then own.value.value else "");
    var plain := "struct<" + JoinWith(items, ", ") + ">";
    var typed := if words != [] && Lower(words[0]) == "array" then "array<" + plain + ">" else plain;
    if |words| > 1 then typed + " " + JoinWith(words[1..], " ") else typed
  }

  /** `_format_nested_data_type`. */
  function Format(node: Node): (r: Result<Option<string>>)
    decreases node
  {
    match node
    case Nothing => Ok(None)
    case Text(t) => Ok(Some(t))
    case Dict(own, kids) =>
      if own == Some(None) then Err(NONE_SPLIT)
      else match FormatItems(kids)
        case Ok(items) => Ok(Some(Wrap(own, items)))
        case Err(m) => Err(m)
  }

  function FormatItems(kids: seq<Entry>): (r: Result<seq<string>>)
    ensures r.Ok? ==> |r.value| == |kids|
    decreases kids
  {
    if kids == [] then Ok([])
    else
      var head := Format(kids[0].node);
      var rest := FormatItems(kids[1..]);
      if head.Err? then Err(head.message)
      else if rest.Err? then Err(rest.message)
      else Ok([ItemText(kids[0].name, head.value)] + rest.value)
  }

  predicate Clean(node: Node)
    decreases node
  {
    node.Dict? ==> node.own != Some(None) && CleanKids(node.kids)
  }

  predicate CleanKids(kids: seq<Entry>)
    decreases kids
  {
    kids == [] || (Clean(kids[0].node) && CleanKids(kids[1..]))
  }

  lemma {:induction false} FormatIffClean(node: Node)
    ensures Format(node).Ok? <==> Clean(node)
    decreases node, 1
  {
    if node.Dict? { FormatItemsIffClean(node.kids); }
  }

  lemma {:induction false} FormatItemsIffClean(kids: seq<Entry>)
    ensures FormatItems(kids).Ok? <==> CleanKids(kids)
    decreases kids, 0
  {
    if kids != [] {
      FormatIffClean(kids[0].node);
      FormatItemsIffClean(kids[1..]);
    }
  }

  lemma {:induction false} CleanView(kids: seq<Entry>, q: Path)
    requires CleanKids(kids) && q != []
    ensures View(kids, q) != Inner(Some(None))
    decreases |q|
  {
    CleanGet(kids, q[0]);
    if |q| > 1 && Get(kids, q[0]).Some? && Get(kids, q[0]).value.Dict? {
      CleanView(Get(kids, q[0]).value.kids, q[1..]);
    }
  }

  lemma {:induction false} CleanGet(kids: seq<Entry>, name: string)
    requires CleanKids(kids)
    ensures Get(kids, name).Some? ==> Clean(Get(kids, name).value)
  {
    if kids != [] && kids[0].name != name { CleanGet(kids[1..], name); }
  }

  /** A node that cannot be printed has a path holding a parent key without a type. */
  lemma {:induction false} DirtyPath(kids: seq<Entry>) returns (q: Path)
    requires KidsOk(kids) && !CleanKids(kids)
    ensures q != [] && View(kids, q) == Inner(Some(None))
    decreases kids
  {
    var k := DirtyKid(kids);
    GetAt(kids, k);
    var node := kids[k].node;
    if node.own == Some(None) {
      q := [kids[k].name];
    } else {
      var rest := DirtyPath(node.kids);
      q := [kids[k].name] + rest;
      assert q[1..] == rest;
    }
  }

  lemma {:induction false} DirtyKid(kids: seq<Entry>) returns (k: nat)
    requires !CleanKids(kids)
    ensures k < |kids| && !Clean(kids[k].node)
  {
    if Clean(kids[0].node) {
      k := DirtyKid(kids[1..]);
      k := k + 1;
    } else {
      k := 0;
    }
  }

  /** A column without a type listed after a column nested in it. */
  predicate UntypedAfterChild(columns: seq<Column>) {
    exists j, k ::
      && 0 <= j < k < |columns|
      && columns[k].text.None?
      && Above(columns[k].path, columns[j].path)
  }

  lemma LateIffBroken(columns: seq<Column>, q: Path)
    requires Distinct(columns)
    ensures Expected(columns, q) == Inner(Some(None)) ==> UntypedAfterChild(columns)
  {
    if Expected(columns, q) == Inner(Some(None)) {
      var k := Find(columns, q).value;
      var j :| 0 <= j < |columns[..k]| && Above(q, columns[..k][j].path);
      assert columns[..k][j] == columns[j];
    }
  }

  lemma LateIsBroken(columns: seq<Column>) returns (q: Path)
    requires Distinct(columns) && UntypedAfterChild(columns)
    ensures q != [] && Expected(columns, q) == Inner(Some(None))
  {
    var j, k :| 0 <= j < k < |columns| && columns[k].text.None? && Above(columns[k].path, columns[j].path);
    q := columns[k].path;
    FindSees(columns, q, k);
    assert columns[..k][j] == columns[j];
    assert Above(q, columns[j].path);
  }

  /** The name and printed type of every root column. */
  function PrintAll(kids: seq<Entry>): (r: Result<seq<(string, Option<string>)>>)
    ensures r.Ok? ==> |r.value| == |kids|
    ensures r.Ok? ==> forall k :: 0 <= k < |kids| ==>
      Format(kids[k].node).Ok? && r.value[k] == (kids[k].name, Format(kids[k].node).value)
  {
    if kids == [] then Ok([])
    else
      var n := |kids| - 1;
      var init := PrintAll(kids[..n]);
      var last := Format(kids[n].node);
      if init.Err? then init
      else if last.Err? then Err(last.message)
      else Ok(init.value + [(kids[n].name, last.value)])
  }

  lemma {:induction false} PrintAllIffClean(kids: seq<Entry>)
    ensures PrintAll(kids).Ok? <==> forall k :: 0 <= k < |kids| ==> Clean(kids[k].node)
  {
    if kids != [] {
      PrintAllIffClean(kids[..|kids| - 1]);
      FormatIffClean(kids[|kids| - 1].node);
    }
  }

  lemma {:induction false} CleanKidsEach(kids: seq<Entry>)
    ensures CleanKids(kids) <==> forall k :: 0 <= k < |kids| ==> Clean(kids[k].node)
  {
    if kids != [] {
      CleanKidsEach(kids[1..]);
      if forall k :: 0 <= k < |kids[1..]| ==> Clean(kids[1..][k].node) {
        assert forall k :: 0 < k < |kids| ==> kids[k] == kids[1..][k - 1];
      }
    }
  }

  /** The gathered columns can be printed exactly when no untyped column is listed after
      one of its nested columns. */
  lemma {:induction false} PrintableExactlyWhen(columns: seq<Column>)
    requires Distinct(columns)
    ensures Gather(columns).Ok?
    ensures PrintAll(Gather(columns).value).Ok? <==> !UntypedAfterChild(columns)
  {
    GatherIsExpected(columns, ["a"]);
    var kids := Gather(columns).value;
    PrintAllIffClean(kids);
    CleanKidsEach(kids);
    if UntypedAfterChild(columns) {
      var q := LateIsBroken(columns);
      GatherIsExpected(columns, q);
      if CleanKids(kids) { CleanView(kids, q); }
    } else if !CleanKids(kids) {
      var q := DirtyPath(kids);
      GatherIsExpected(columns, q);
      LateIffBroken(columns, q);
    }
  }

  /** `b.c string` then `b` without a type cannot be printed; the other way round it can. */
  lemma LateUntypedParentFails()
    ensures var child, parent := Column(["b", "c"], Some("string")), Column(["b"], None);
      && Gather([child, parent]).Ok? && PrintAll(Gather([child, parent]).value).Err?
      && Gather([parent, child]).Ok? && PrintAll(Gather([parent, child]).value).Ok?
  {
    var child, parent := Column(["b", "c"], Some("string")), Column(["b"], None);
    assert child.path != parent.path by { assert |child.path| != |parent.path|; }
    assert Above(parent.path, child.path);
    assert [child, parent][1].text.None? && Above([child, parent][1].path, [child, parent][0].path);
    PrintableExactlyWhen([child, parent]);
    PrintableExactlyWhen([parent, child]);
  }

  // ---- the loops of the source --------------------------------------------------

  datatype Declared = Declared(name: string, dataType: Option<string>)

  function Declares(column: Declared, constraints: map<string, string>): (c: Column)
    ensures c.path != [] && c.text != Some("")
  {
    var ty := column.dataType;
    Column(
      Split(column.name),
      if ty.None? || ty.value == "" then None
      else if column.name in constraints then Some(ty.value + " " + constraints[column.name])
      else ty)
  }

  function DeclaresAll(columns: seq<Declared>, constraints: map<string, string>): (r: seq<Column>)
    ensures |r| == |columns|
    ensures forall k :: 0 <= k < |r| ==> r[k] == Declares(columns[k], constraints)
  {
    seq(|columns|, k requires 0 <= k < |columns| => Declares(columns[k], constraints))
  }

  /** The type that is printed for a column with nothing nested below it: its own, then its constraint. */
  function Constrained(column: Declared, constraints: map<string, string>): Option<string> {
    match column.dataType
    case None => None
    case Some(text) =>
      if text == "" then None
      else Some(text + if column.name in constraints then " " + constraints[column.name] else "")
  }

  lemma DeclaresDistinct(columns: seq<Declared>, constraints: map<string, string>)
    requires forall i, j :: 0 <= i < j < |columns| ==> columns[i].name != columns[j].name
    ensures Distinct(DeclaresAll(columns, constraints))
  {
    var all := DeclaresAll(columns, constraints);
    forall i, j | 0 <= i < j < |columns| ensures all[i].path != all[j].path {
      JoinSplit(columns[i].name);
      JoinSplit(columns[j].name);
    }
  }

  lemma NothingBelow(columns: seq<Declared>, constraints: map<string, string>, name: string)
    requires Free('.', name) && forall j :: 0 <= j < |columns| ==> !StartsWith(columns[j].name, name + ['.'])
    ensures !HasBelow(DeclaresAll(columns, constraints), [name])
  {
    var all := DeclaresAll(columns, constraints);
    forall j | 0 <= j < |all| ensures !Above([name], all[j].path) {
      SplitIsProper(columns[j].name);
      JoinSplit(columns[j].name);
      ChildTest(all[j].path, name);
      if |all[j].path| > 1 { assert all[j].path[..1][0] == all[j].path[0]; }
    }
  }

  /** A flat column keeps its own type, followed by its own constraint, whatever the others are. */
  lemma FlatColumnKeepsType(columns: seq<Declared>, constraints: map<string, string>, k: nat)
    requires forall i, j :: 0 <= i < j < |columns| ==> columns[i].name != columns[j].name
    requires k < |columns| && Free('.', columns[k].name)
    requires forall j :: 0 <= j < |columns| ==> !StartsWith(columns[j].name, columns[k].name + ['.'])
    ensures var gathered := Gather(DeclaresAll(columns, constraints));
      && gathered.Ok? && Get(gathered.value, columns[k].name).Some?
      && Format(Get(gathered.value, columns[k].name).value) == Ok(Constrained(columns[k], constraints))
  {
    var all, name := DeclaresAll(columns, constraints), columns[k].name;
    DeclaresDistinct(columns, constraints);
    NothingBelow(columns, constraints, name);
    SplitWhole(name);
    FindSees(all, [name], k);
    GatherIsExpected(all, [name]);
    PlainText(columns[k], constraints);
  }

  lemma PlainText(column: Declared, constraints: map<string, string>)
    ensures Declares(column, constraints).text == Constrained(column, constraints)
  {
    if column.dataType.Some? {
      var text := column.dataType.value;
      assert text + "" == text;
      if column.name in constraints {
        assert text + " " + constraints[column.name] == text + (" " + constraints[column.name]);
      }
    }
  }

  /** `get_nested_column_data_types`: root columns with their printed types. */
  method GetNestedColumnDataTypes(columns: seq<Declared>, constraints: map<string, string>)
    returns (r: Result<seq<(string, Option<string>)>>)
    ensures var gathered := Gather(DeclaresAll(columns, constraints));
      r == if gathered.Ok? then PrintAll(gathered.value) else Err(gathered.message)
  {
    ghost var all := DeclaresAll(columns, constraints);
    var types: seq<Entry> := [];
    for k := 0 to |columns|
      invariant Gather(all[..k]) == Ok(types)
    {
      var column := Declares(columns[k], constraints);
      GatherNext(all, k);
      var updated := UpdateNestedColumnDataTypes(columns[k].name, column.text, types);
      if updated.Err? {
        GatherStops(all, k + 1);
        return Err(updated.message);
      }
      types := updated.value;
    }
    assert all[..|columns|] == all;
    r := PrintLoop(types);
  }

  method PrintLoop(types: seq<Entry>) returns (r: Result<seq<(string, Option<string>)>>)
    ensures r == PrintAll(types)
  {
    var formatted := [];
    for k := 0 to |types|
      invariant PrintAll(types[..k]) == Ok(formatted)
    {
      var text := Format(types[k].node);
      assert types[..k + 1][..k] == types[..k];
      if text.Err? {
        PrintStops(types, k + 1);
        return Err(text.message);
      }
      formatted := formatted + [(types[k].name, text.value)];
    }
    assert types[..|types|] == types;
    return Ok(formatted);
  }

  lemma {:induction false} PrintStops(kids: seq<Entry>, k: nat)
    requires k <= |kids| && PrintAll(kids[..k]).Err?
    ensures PrintAll(kids) == PrintAll(kids[..k])
  {
    if k == |kids| {
      assert kids[..k] == kids;
    } else {
      assert kids[..|kids| - 1][..k] == kids[..k];
      PrintStops(kids[..|kids| - 1], k);
    }
  }
}
