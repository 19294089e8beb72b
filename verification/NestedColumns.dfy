// The whole way: dotted columns to a printed STRUCT type and back by the parser.
module NestedColumns {
  import opened Common
  import opened DottedPaths
  import opened PyText
  import opened StructParser
  import opened StructRoundTrip
  import P = ColumnTypes
  import T = ColumnTrie

  /** The subtree a dotted path leads to. */
  function TreeAt(tree: Tree, q: Path): Option<Tree>
    decreases |q|
  {
    if q == [] then Some(tree)
    else if tree.Leaf? then None
    else
      var field := Field(tree.fields, q[0]);
      if field.None? then None else TreeAt(field.value, q[1..])
  }

  function Field(fields: seq<Named>, name: string): Option<Tree> {
    if fields == [] then None
    else if fields[0].name == name then Some(fields[0].tree)
    else Field(fields[1..], name)
  }

  /** What the tree must hold at path q below a base column: the types and dictionaries the
      columns declare on the way. Below a plain column that is whatever its own type text holds;
      an array parent is a leaf. */
  predicate Recovered(columns: seq<T.Column>, base: Path, q: Path, tree: Option<Tree>)
    decreases |q|
  {
    match T.Expected(columns, base)
    case Absent => tree.None?
    case Plain(text) => tree == TreeAt(ParseTree(TextOr(text)), q)
    case Inner(own) =>
      && own != Some(None)
      && if q == [] then tree.Some? && (tree.value.Leaf? <==> IsArray(own))
         else if IsArray(own) then tree.None?
         else Recovered(columns, base + [q[0]], q[1..], tree)
  }

  // ---- on the dictionaries ---------------------------------------------------------------

  predicate NodeRecovered(node: T.Node, q: Path, tree: Option<Tree>)
    decreases |q|
  {
    if !node.Dict? then tree == TreeAt(ParseTree(TextOr(T.CellOf(node).text)), q)
    else
      && node.own != Some(None)
      && if q == [] then tree.Some? && (tree.value.Leaf? <==> IsArray(node.own))
         else if IsArray(node.own) then tree.None?
         else
           var kid := T.Get(node.kids, q[0]);
           if kid.None? then tree.None? else NodeRecovered(kid.value, q[1..], tree)
  }

  lemma {:induction false} FieldOfShape(kids: seq<T.Entry>, name: string)
    requires P.FormatItems(kids).Ok?
    ensures T.Get(kids, name).None? ==> Field(ShapeKids(kids), name).None?
    ensures T.Get(kids, name).Some? ==>
      P.Format(T.Get(kids, name).value).Ok? && Field(ShapeKids(kids), name) == Some(Shape(T.Get(kids, name).value))
  {
    if kids != [] {
      if kids[0].name != name { FieldOfShape(kids[1..], name); }
      assert ShapeKids(kids)[1..] == ShapeKids(kids[1..]);
    }
  }

  /** Path by path, the shape of a printed node is the node. */
  lemma {:induction false} ShapeView(node: T.Node, q: Path)
    requires P.Format(node).Ok?
    ensures NodeRecovered(node, q, TreeAt(Shape(node), q))
    decreases |q|
  {
    if node.Nothing? {
      assert LStrip("") == "";
    } else if node.Dict? && q != [] && !IsArray(node.own) {
      FieldOfShape(node.kids, q[0]);
      if T.Get(node.kids, q[0]).Some? { ShapeView(T.Get(node.kids, q[0]).value, q[1..]); }
    }
  }

  /** The node at a path. */
  function NodeAt(kids: seq<T.Entry>, path: Path): Option<T.Node>
    requires path != []
    decreases |path|
  {
    var node := T.Get(kids, path[0]);
    if node.None? || |path| == 1 then node
    else if node.value.Dict? then NodeAt(node.value.kids, path[1..]) else None
  }

  lemma {:induction false} ViewIsNode(kids: seq<T.Entry>, path: Path)
    requires path != []
    ensures T.View(kids, path) == if NodeAt(kids, path).None? then T.Absent else T.CellOf(NodeAt(kids, path).value)
    decreases |path|
  {
    var node := T.Get(kids, path[0]);
    if |path| > 1 && node.Some? && node.value.Dict? { ViewIsNode(node.value.kids, path[1..]); }
  }

  lemma {:induction false} NodeBelow(kids: seq<T.Entry>, path: Path, name: string)
    requires path != [] && NodeAt(kids, path).Some? && NodeAt(kids, path).value.Dict?
    ensures NodeAt(kids, path + [name]) == T.Get(NodeAt(kids, path).value.kids, name)
    decreases |path|
  {
    assert (path + [name])[1..] == path[1..] + [name];
    if |path| > 1 { NodeBelow(T.Get(kids, path[0]).value.kids, path[1..], name); }
  }

  // ---- printable columns -------------------------------------------------------------------

  predicate FineCell(cell: T.Cell) {
    match cell
    case Absent => true
    case Plain(text) => text.Some? ==> Item(text.value)
    case Inner(own) => own != Some(None) && Neat(ConstraintText(own))
  }

  /** Names and texts of a column as far as they are printed: names below the root without
      brackets, balanced types, and balanced constraints on parents. */
  predicate ColumnFine(columns: seq<T.Column>, c: T.Column) {
    && (forall i :: 1 <= i < |c.path| ==> NameOk(c.path[i]))
    && (c.text.Some? ==>
          if T.HasBelow(columns, c.path) then Neat(ConstraintText(Some(c.text)))
          else |c.path| > 1 ==> Item(c.text.value))
  }

  predicate RootFine(columns: seq<T.Column>, root: string) {
    forall i :: 0 <= i < |columns| && columns[i].path != [] && columns[i].path[0] == root
      ==> ColumnFine(columns, columns[i])
  }

  lemma NoOwnIsFine()
    ensures FineCell(T.Inner(None))
  {
    assert LStrip("") == "";
    assert OwnWords(None) == [];
  }

  lemma ExpectedIsFine(columns: seq<T.Column>, root: string, q: Path)
    requires T.Distinct(columns) && !P.UntypedAfterChild(columns) && RootFine(columns, root)
    requires |q| > 1 && q[0] == root && T.Expected(columns, q) != T.Absent
    ensures NameOk(q[|q| - 1])
    ensures FineCell(T.Expected(columns, q))
  {
    P.LateIffBroken(columns, q);
    NameOfExpected(columns, root, q);
    var k := T.Find(columns, q);
    if k.Some? {
      assert ColumnFine(columns, columns[k.value]);
    }
    NoOwnIsFine();
  }

  lemma NameOfExpected(columns: seq<T.Column>, root: string, q: Path)
    requires RootFine(columns, root)
    requires |q| > 1 && q[0] == root && T.Expected(columns, q) != T.Absent
    ensures NameOk(q[|q| - 1])
  {
    var k := T.Find(columns, q);
    if k.Some? {
      assert ColumnFine(columns, columns[k.value]);
    } else {
      var j :| 0 <= j < |columns| && T.Above(q, columns[j].path);
      assert ColumnFine(columns, columns[j]);
      assert columns[j].path[..|q|][|q| - 1] == columns[j].path[|q| - 1];
      assert columns[j].path[..|q|][0] == columns[j].path[0];
    }
  }

  lemma RootCellFine(columns: seq<T.Column>, root: string)
    requires T.Distinct(columns) && !P.UntypedAfterChild(columns) && RootFine(columns, root)
    requires T.HasBelow(columns, [root])
    ensures FineCell(T.Expected(columns, [root]))
  {
    P.LateIffBroken(columns, [root]);
    NoOwnIsFine();
    var k := T.Find(columns, [root]);
    if k.Some? { assert ColumnFine(columns, columns[k.value]); }
  }

  /** Every path below the dictionary is well named and holds a fine cell. */
  ghost predicate CellsFine(kids: seq<T.Entry>) {
    forall q: Path :: q != [] && T.View(kids, q) != T.Absent ==> NameOk(q[|q| - 1]) && FineCell(T.View(kids, q))
  }

  lemma {:induction false} CellsMakePrintable(kids: seq<T.Entry>)
    requires T.KidsOk(kids) && CellsFine(kids)
    ensures KidsPrintable(kids) && P.CleanKids(kids)
    decreases kids
  {
    forall k | 0 <= k < |kids| ensures NameOk(kids[k].name) && Printable(kids[k].node) && P.Clean(kids[k].node) {
      var name, node := kids[k].name, kids[k].node;
      T.GetAt(kids, k);
      assert T.View(kids, [name]) == T.CellOf(node);
      if node.Dict? {
        forall q: Path | q != [] && T.View(node.kids, q) != T.Absent
          ensures NameOk(q[|q| - 1]) && FineCell(T.View(node.kids, q))
        {
          ViewBelow(kids, name, q);
        }
        CellsMakePrintable(node.kids);
      }
    }
    P.CleanKidsEach(kids);
  }

  lemma {:induction false} ViewBelow(kids: seq<T.Entry>, name: string, q: Path)
    requires q != [] && T.Get(kids, name).Some? && T.Get(kids, name).value.Dict?
    ensures T.View(kids, [name] + q) == T.View(T.Get(kids, name).value.kids, q)
    ensures ([name] + q)[|q|] == q[|q| - 1]
  {
    assert ([name] + q)[1..] == q;
  }

  // ---- from the columns --------------------------------------------------------------------

  lemma {:induction false} RootIsPrintable(columns: seq<T.Column>, root: string)
    requires T.Distinct(columns) && !P.UntypedAfterChild(columns) && RootFine(columns, root)
    requires T.HasBelow(columns, [root])
    ensures T.Gather(columns).Ok?
    ensures var node := T.Get(T.Gather(columns).value, root);
      node.Some? && node.value.Dict? && Printable(node.value) && P.Clean(node.value)
  {
    T.GatherIsExpected(columns, [root]);
    P.LateIffBroken(columns, [root]);
    var kids := T.Gather(columns).value;
    T.GetOk(kids, root);
    var node := T.Get(kids, root).value;
    assert T.CellOf(node) == T.Expected(columns, [root]);
    forall q: Path | q != [] && T.View(node.kids, q) != T.Absent
      ensures NameOk(q[|q| - 1]) && FineCell(T.View(node.kids, q))
    {
      ViewBelow(kids, root, q);
      T.GatherIsExpected(columns, [root] + q);
      ExpectedIsFine(columns, root, [root] + q);
    }
    CellsMakePrintable(node.kids);
    RootCellFine(columns, root);
  }

  /** A tree that agrees with the gathered dictionaries agrees with the columns. */
  lemma {:induction false} NodeIsExpected(columns: seq<T.Column>, base: Path, q: Path, tree: Option<Tree>)
    requires T.Distinct(columns) && T.Gather(columns).Ok? && base != []
    requires var node := NodeAt(T.Gather(columns).value, base);
      if node.None? then tree.None? else NodeRecovered(node.value, q, tree)
    ensures Recovered(columns, base, q, tree)
    decreases |q|
  {
    var kids := T.Gather(columns).value;
    T.GatherIsExpected(columns, base);
    ViewIsNode(kids, base);
    var node := NodeAt(kids, base);
    if node.Some? && node.value.Dict? && q != [] && !IsArray(node.value.own) {
      NodeBelow(kids, base, q[0]);
      NodeIsExpected(columns, base + [q[0]], q[1..], tree);
    }
  }

  /** Gathering dotted columns, printing a root and parsing the text recovers, at every path at
      or below the root, exactly what the columns declare there. */
  lemma {:induction false} ColumnsRoundTrip(columns: seq<T.Column>, root: string, q: Path)
    requires T.Distinct(columns) && !P.UntypedAfterChild(columns) && RootFine(columns, root)
    requires T.Expected(columns, [root]) != T.Absent
    ensures T.Gather(columns).Ok? && T.Get(T.Gather(columns).value, root).Some?
    ensures var text := P.Format(T.Get(T.Gather(columns).value, root).value);
      text.Ok? && Recovered(columns, [root], q, TreeAt(ParseTree(TextOr(text.value)), q))
  {
    T.GatherIsExpected(columns, [root]);
    var kids := T.Gather(columns).value;
    var node := T.Get(kids, root).value;
    assert T.CellOf(node) == T.Expected(columns, [root]);
    if node.Dict? {
      RootIsPrintable(columns, root);
      P.FormatIffClean(node);
      ParsePrinted(node);
    } else {
      assert LStrip("") == "";
    }
    ShapeView(node, q);
    NodeIsExpected(columns, [root], q, TreeAt(ParseTree(TextOr(P.Format(node).value)), q));
  }
}
