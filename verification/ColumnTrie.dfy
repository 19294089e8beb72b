// `_update_nested_column_data_types`: dotted column names gathered into nested dictionaries.
module ColumnTrie {
  import opened Common
  import opened DottedPaths
  import opened PyText

  // What a dictionary slot holds: None, a type with its constraint, or a nested dictionary.
  // `own` is the value under the reserved parent key, where that key is present.
  datatype Node =
    | Nothing
    | Text(text: string)
    | Dict(own: Option<Option<string>>, kids: seq<Entry>)

  datatype Entry = Entry(name: string, node: Node)

  function Get(kids: seq<Entry>, name: string): Option<Node> {
    if kids == [] then None
    else if kids[0].name == name then Some(kids[0].node)
    else Get(kids[1..], name)
  }

  /** Assignment to a key: in place when present, at the end when new. */
  function Put(kids: seq<Entry>, name: string, node: Node): (r: seq<Entry>)
    ensures r != []
  {
    if kids == [] then [Entry(name, node)]
    else if kids[0].name == name then [Entry(name, node)] + kids[1..]
    else [kids[0]] + Put(kids[1..], name, node)
  }

  predicate Truthy(node: Option<Node>) {
    match node
    case None => false
    case Some(Nothing) => false
    case Some(Text(t)) => t != ""
    case Some(Dict(own, kids)) => own.Some? || kids != []
  }

  function LeafOf(text: Option<string>): Node {
    if text.None? then Nothing else Text(text.value)
  }

  /** The dictionary a nested column descends into. */
  function Opened(node: Option<Node>): (r: Node)
    ensures r.Dict?
  {
    match node
    case Some(Dict(own, kids)) => node.value
    case Some(Text(t)) => Dict(Some(Some(t)), [])
    case _ => Dict(None, [])
  }

  /** `_update_nested_column_data_types` on a split name. */
  function Insert(kids: seq<Entry>, path: Path, text: Option<string>): Result<seq<Entry>>
    requires path != []
    decreases |path|
  {
    var existing := Get(kids, path[0]);
    if |path| == 1 then
      if !Truthy(existing) then Ok(Put(kids, path[0], LeafOf(text)))
      else match existing.value
        case Dict(_, ks) => Ok(Put(kids, path[0], Dict(Some(text), ks)))
        case _ => Err("AssertionError")
    else
      var dict := Opened(existing);
      match Insert(dict.kids, path[1..], text)
      case Ok(ks) => Ok(Put(kids, path[0], Dict(dict.own, ks)))
      case Err(m) => Err(m)
  }

  // ---- one insertion, seen path by path ---------------------------------------

  // What the dictionaries say about one dotted path.
  datatype Cell = Absent | Plain(text: Option<string>) | Inner(own: Option<Option<string>>)

  function CellOf(node: Node): Cell {
    match node
    case Nothing => Plain(None)
    case Text(t) => Plain(Some(t))
    case Dict(own, _) => Inner(own)
  }

  function View(kids: seq<Entry>, q: Path): Cell
    requires q != []
    decreases |q|
  {
    match Get(kids, q[0])
    case None => Absent
    case Some(node) =>
      if |q| == 1 then CellOf(node)
      else if node.Dict? then View(node.kids, q[1..]) else Absent
  }

  predicate Above(q: Path, p: Path) { |q| < |p| && q == p[..|q|] }

  /** The cell at `q` after a column with this path and text is inserted. */
  function Updated(cell: Cell, q: Path, path: Path, text: Option<string>): Cell {
    if q == path then if cell.Inner? then Inner(Some(text)) else Plain(text)
    else if !Above(q, path) then cell
    else match cell
      case Inner(_) => cell
      case Plain(Some(t)) => Inner(Some(Some(t)))
      case _ => Inner(None)
  }

  /** Keys are unique, no dictionary is empty and no type is the empty text. */
  predicate KidsOk(kids: seq<Entry>) {
    && (forall i, j :: 0 <= i < j < |kids| ==> kids[i].name != kids[j].name)
    && (forall i :: 0 <= i < |kids| ==> NodeOk(kids[i].node))
  }

  predicate NodeOk(node: Node) {
    match node
    case Nothing => true
    case Text(t) => t != ""
    case Dict(own, kids) => kids != [] && KidsOk(kids)
  }

  lemma {:induction false} GetPut(kids: seq<Entry>, name: string, node: Node, other: string)
    ensures Get(Put(kids, name, node), other) == if other == name then Some(node) else Get(kids, other)
  {
    if kids != [] && kids[0].name != name {
      GetPut(kids[1..], name, node, other);
      assert Put(kids, name, node)[1..] == Put(kids[1..], name, node);
    } else if kids != [] {
      assert Put(kids, name, node)[1..] == kids[1..];
    }
  }

  lemma {:induction false} GetIn(kids: seq<Entry>, name: string)
    ensures Get(kids, name).Some? ==> Entry(name, Get(kids, name).value) in kids
  {
    if kids != [] && kids[0].name != name { GetIn(kids[1..], name); }
  }

  lemma {:induction false} PutNames(kids: seq<Entry>, name: string, node: Node)
    ensures forall e :: e in Put(kids, name, node) ==> e == Entry(name, node) || e in kids
    ensures (forall e :: e in kids ==> e.name != name) ==> Put(kids, name, node) == kids + [Entry(name, node)]
  {
    if kids != [] && kids[0].name != name {
      PutNames(kids[1..], name, node);
    }
  }

  lemma {:induction false} PutOk(kids: seq<Entry>, name: string, node: Node)
    requires KidsOk(kids) && NodeOk(node)
    ensures KidsOk(Put(kids, name, node))
  {
    if kids != [] && kids[0].name != name {
      PutOk(kids[1..], name, node);
      PutNames(kids[1..], name, node);
      var tail := Put(kids[1..], name, node);
      forall i | 0 <= i < |tail| ensures tail[i].name != kids[0].name {
        assert tail[i] in tail;
      }
    }
  }

  lemma {:induction false} GetAt(kids: seq<Entry>, k: nat)
    requires KidsOk(kids) && k < |kids|
    ensures Get(kids, kids[k].name) == Some(kids[k].node)
  {
    if k > 0 { GetAt(kids[1..], k - 1); }
  }

  lemma {:induction false} GetOk(kids: seq<Entry>, name: string)
    requires KidsOk(kids)
    ensures Get(kids, name).Some? ==> NodeOk(Get(kids, name).value)
    ensures Opened(Get(kids, name)).kids == [] || KidsOk(Opened(Get(kids, name)).kids)
  {
    GetIn(kids, name);
  }

  lemma {:induction false} InsertOk(kids: seq<Entry>, path: Path, text: Option<string>)
    requires path != [] && KidsOk(kids) && text != Some("")
    ensures Insert(kids, path, text).Ok? ==> Insert(kids, path, text).value != [] && KidsOk(Insert(kids, path, text).value)
    decreases |path|
  {
    var existing := Get(kids, path[0]);
    GetOk(kids, path[0]);
    if |path| > 1 {
      InsertOk(Opened(existing).kids, path[1..], text);
      var inner := Insert(Opened(existing).kids, path[1..], text);
      if inner.Ok? { PutOk(kids, path[0], Dict(Opened(existing).own, inner.value)); }
    } else if !Truthy(existing) {
      PutOk(kids, path[0], LeafOf(text));
    } else if existing.value.Dict? {
      PutOk(kids, path[0], Dict(Some(text), existing.value.kids));
    }
  }

  /** Insertion fails exactly when the path already carries a type and nothing below it. */
  lemma {:induction false} InsertFailsOnRepeat(kids: seq<Entry>, path: Path, text: Option<string>)
    requires path != [] && KidsOk(kids)
    ensures Insert(kids, path, text).Err? <==> View(kids, path).Plain? && View(kids, path).text.Some?
    decreases |path|
  {
    GetOk(kids, path[0]);
    if |path| > 1 {
      InsertFailsOnRepeat(Opened(Get(kids, path[0])).kids, path[1..], text);
    }
  }

  /** Insertion changes the cell at its own path and the cells above it, and nothing else. */
  lemma {:induction false} InsertViews(kids: seq<Entry>, path: Path, text: Option<string>, q: Path)
    requires path != [] && q != [] && KidsOk(kids)
    requires Insert(kids, path, text).Ok?
    ensures View(Insert(kids, path, text).value, q) == Updated(View(kids, q), q, path, text)
    decreases |path|
  {
    var existing := Get(kids, path[0]);
    GetOk(kids, path[0]);
    if |path| == 1 {
      var node := if Truthy(existing) then Dict(Some(text), existing.value.kids) else LeafOf(text);
      GetPut(kids, path[0], node, q[0]);
    } else {
      var dict := Opened(existing);
      var ks := Insert(dict.kids, path[1..], text).value;
      GetPut(kids, path[0], Dict(dict.own, ks), q[0]);
      if q[0] == path[0] && |q| > 1 {
        InsertViews(dict.kids, path[1..], text, q[1..]);
        Deeper(q, path);
      }
    }
  }

  lemma Deeper(q: Path, path: Path)
    requires |q| > 1 && |path| > 1 && q[0] == path[0]
    ensures q == path <==> q[1..] == path[1..]
    ensures Above(q, path) <==> Above(q[1..], path[1..])
  {
    assert q == [q[0]] + q[1..] && path == [path[0]] + path[1..];
    if |q| < |path| {
      assert path[..|q|] == [path[0]] + path[1..][..|q| - 1];
    }
  }

  // ---- all columns -----------------------------------------------------------

  datatype Column = Column(path: Path, text: Option<string>)

  predicate Distinct(columns: seq<Column>) {
    && (forall i :: 0 <= i < |columns| ==> columns[i].path != [] && columns[i].text != Some(""))
    && (forall i, j :: 0 <= i < j < |columns| ==> columns[i].path != columns[j].path)
  }

  /** The dictionary after the columns are entered in the order given. */
  function Gather(columns: seq<Column>): Result<seq<Entry>>
    requires forall c :: c in columns ==> c.path != []
  {
    if columns == [] then Ok([])
    else
      var last := columns[|columns| - 1];
      match Gather(columns[..|columns| - 1])
      case Ok(kids) => Insert(kids, last.path, last.text)
      case Err(m) => Err(m)
  }

  predicate HasBelow(columns: seq<Column>, q: Path) {
    exists j :: 0 <= j < |columns| && Above(q, columns[j].path)
  }

  function Find(columns: seq<Column>, q: Path): (k: Option<nat>)
    ensures k.Some? ==> k.value < |columns| && columns[k.value].path == q
  {
    if columns == [] then None
    else if columns[|columns| - 1].path == q then Some(|columns| - 1)
    else Find(columns[..|columns| - 1], q)
  }

  lemma {:induction false} FindSees(columns: seq<Column>, q: Path, k: nat)
    requires Distinct(columns) && k < |columns| && columns[k].path == q
    ensures Find(columns, q) == Some(k)
  {
    if k < |columns| - 1 { FindSees(columns[..|columns| - 1], q, k); }
  }

  /** What the columns alone say about a path: a dictionary when something is nested below
      it, with the type its own column declares; an untyped column leaves its parent key
      behind only when it comes after one of its children. */
  function Expected(columns: seq<Column>, q: Path): Cell {
    match Find(columns, q)
    case None => if HasBelow(columns, q) then Inner(None) else Absent
    case Some(k) =>
      if !HasBelow(columns, q) then Plain(columns[k].text)
      else if columns[k].text.Some? then Inner(Some(columns[k].text))
      else if HasBelow(columns[..k], q) then Inner(Some(None)) else Inner(None)
  }

  lemma HasBelowStep(columns: seq<Column>, q: Path)
    requires columns != []
    ensures HasBelow(columns, q) <==>
            HasBelow(columns[..|columns| - 1], q) || Above(q, columns[|columns| - 1].path)
  {
    var init := columns[..|columns| - 1];
    forall j | 0 <= j < |init| && Above(q, init[j].path) ensures HasBelow(columns, q) {
      assert Above(q, columns[j].path);
    }
    forall j | 0 <= j < |columns| - 1 && Above(q, columns[j].path) ensures HasBelow(init, q) {
      assert Above(q, init[j].path);
    }
  }

  lemma ExpectedStep(columns: seq<Column>, q: Path)
    requires Distinct(columns) && columns != []
    ensures var last := columns[|columns| - 1];
      Expected(columns, q) == Updated(Expected(columns[..|columns| - 1], q), q, last.path, last.text)
  {
    var n := |columns| - 1;
    var init := columns[..n];
    HasBelowStep(columns, q);
    var k := Find(init, q);
    if k.Some? {
      FindSees(columns, q, k.value);
      assert init[..k.value] == columns[..k.value];
    }
  }

  /** Every column list with distinct names can be entered, and path by path the
      dictionaries hold exactly what the columns say. */
  lemma {:induction false} GatherIsExpected(columns: seq<Column>, q: Path)
    requires Distinct(columns) && q != []
    ensures Gather(columns).Ok? && KidsOk(Gather(columns).value)
    ensures View(Gather(columns).value, q) == Expected(columns, q)
    decreases |columns|
  {
    if columns != [] {
      var init, last := columns[..|columns| - 1], columns[|columns| - 1];
      GatherIsExpected(init, last.path);
      GatherIsExpected(init, q);
      var kids := Gather(init).value;
      InsertFailsOnRepeat(kids, last.path, last.text);
      InsertOk(kids, last.path, last.text);
      InsertViews(kids, last.path, last.text, q);
      ExpectedStep(columns, q);
    }
  }

  ghost predicate SameColumns(columns: seq<Column>, others: seq<Column>) {
    && Distinct(columns) && Distinct(others)
    && (forall c :: c in columns <==> c in others)
  }

  predicate ParentsTyped(columns: seq<Column>) {
    forall i, j :: 0 <= i < |columns| && 0 <= j < |columns| && Above(columns[i].path, columns[j].path)
      ==> columns[i].text.Some?
  }

  /** A parent key holding None counts as no declared type. */
  function Settled(cell: Cell): Cell {
    if cell == Inner(Some(None)) then Inner(None) else cell
  }

  lemma SameBelow(columns: seq<Column>, others: seq<Column>, q: Path)
    requires SameColumns(columns, others)
    ensures HasBelow(columns, q) ==> HasBelow(others, q)
  {
    if HasBelow(columns, q) {
      var j :| 0 <= j < |columns| && Above(q, columns[j].path);
      assert columns[j] in others;
      var i :| 0 <= i < |others| && others[i] == columns[j];
    }
  }

  lemma {:induction false} SameFind(columns: seq<Column>, others: seq<Column>, q: Path)
    requires SameColumns(columns, others)
    ensures Find(columns, q).Some? ==>
      Find(others, q).Some? && others[Find(others, q).value] == columns[Find(columns, q).value]
  {
    if Find(columns, q).Some? {
      var c := columns[Find(columns, q).value];
      assert c in others;
      var i :| 0 <= i < |others| && others[i] == c;
      FindSees(others, q, i);
    }
  }

  /** The order of the columns does not change which paths exist, which are dictionaries
      and what type each declares; with every parent typed the cells are identical. */
  lemma {:induction false} OrderDoesNotMatter(columns: seq<Column>, others: seq<Column>, q: Path)
    requires SameColumns(columns, others) && q != []
    ensures Gather(columns).Ok? && Gather(others).Ok?
    ensures Settled(View(Gather(columns).value, q)) == Settled(View(Gather(others).value, q))
    ensures ParentsTyped(columns) ==> View(Gather(columns).value, q) == View(Gather(others).value, q)
  {
    GatherIsExpected(columns, q);
    GatherIsExpected(others, q);
    SameBelow(columns, others, q);
    SameBelow(others, columns, q);
    SameFind(columns, others, q);
    SameFind(others, columns, q);
  }

  lemma GatherNext(columns: seq<Column>, k: nat)
    requires forall c :: c in columns ==> c.path != []
    requires k < |columns| && Gather(columns[..k]).Ok?
    ensures Gather(columns[..k + 1]) == Insert(Gather(columns[..k]).value, columns[k].path, columns[k].text)
  {
    assert columns[..k + 1][..k] == columns[..k];
  }

  lemma {:induction false} GatherStops(columns: seq<Column>, k: nat)
    requires forall c :: c in columns ==> c.path != []
    requires k <= |columns| && Gather(columns[..k]).Err?
    ensures Gather(columns) == Gather(columns[..k])
  {
    if k == |columns| {
      assert columns[..k] == columns;
    } else {
      assert columns[..|columns| - 1][..k] == columns[..k];
      GatherStops(columns[..|columns| - 1], k);
    }
  }

  method UpdateNestedColumnDataTypes(name: string, text: Option<string>, types: seq<Entry>)
    returns (r: Result<seq<Entry>>)
    ensures r == Insert(types, Split(name), text)
    decreases |Split(name)|
  {
    var parts := Split(name);
    var existing := Get(types, parts[0]);
    if |parts| == 1 {
      if Truthy(existing) {
        if !existing.value.Dict? { return Err("AssertionError"); }
        return Ok(Put(types, parts[0], existing.value.(own := Some(text))));
      }
      return Ok(Put(types, parts[0], LeafOf(text)));
    }
    SplitRest(name);
    var dict := Opened(existing);
    var inner := UpdateNestedColumnDataTypes(Join(parts[1..]), text, dict.kids);
    if inner.Err? { return inner; }
    return Ok(Put(types, parts[0], dict.(kids := inner.value)));
  }
}
