// Declared struct types in use: what is selected for them, and what nested columns make of them.
module StructContracts {
  import opened Common
  import opened DottedPaths
  import opened PyText
  import opened StructParser
  import opened StructRoundTrip
  import opened StructTypes
  import T = ColumnTrie
  import P = ColumnTypes
  import N = NestedColumns
  import S = StructSelect
  import R = SelectText

  // ---- the generated select item ---------------------------------------------------------------

  /** For a column declared as a struct, the keyword in any case and white space anywhere, the text
      generated reads as an expression that gives the column's value with the declared fields in
      the declared order, and fails exactly when a declared field is missing. */
  lemma {:induction false} DeclaredTextMeans(column: string, before: string, d: Declared, after: string, value: S.Value)
    requires WellFormed(d) && d.Struct? && Spaces(before) && Spaces(after)
    requires R.Plain(column) && R.NamesOk(TreeOf(d))
    ensures var text := S.SelectedText(column, S.Select([], ParseTree(before + TypeText(d) + after)));
      var expr := R.ReadSelect(column, text);
      && text != column && expr.Some?
      && S.Eval(expr.value, value) == if S.Covers(TreeOf(d), value) then Some(S.Reorder(TreeOf(d), value)) else None
  {
    PaddedParses(before, d, after);
    R.TextMeans(column, before + TypeText(d) + after, value);
    var expr := S.Select([], TreeOf(d));
    LongerThanColumn(column, S.Render(column, expr));
  }

  lemma LongerThanColumn(column: string, text: string)
    ensures text + " AS " + column != column
  {
    assert |text + " AS " + column| > |column|;
  }

  /** A type that is no struct selects the column as it is. */
  lemma {:induction false} ScalarSelectsColumn(column: string, text: string)
    requires WellFormed(Scalar(text))
    ensures S.SelectedText(column, S.Select([], ParseTree(text))) == column
  {
    DeclaredParses(Scalar(text));
  }

  // ---- nested columns of a declared type ---------------------------------------------------------

  /** No column on the way from the base to the path is an array parent. */
  predicate NoArrayOn(columns: seq<T.Column>, base: Path, rest: Path)
    decreases |rest|
  {
    rest != [] ==>
      && T.Expected(columns, base).Inner? && T.Expected(columns, base).own != Some(None)
      && !IsArray(T.Expected(columns, base).own)
      && NoArrayOn(columns, base + [rest[0]], rest[1..])
  }

  lemma {:induction false} RecoveredBelow(columns: seq<T.Column>, base: Path, rest: Path, q: Path, text: string,
      tree: Option<Tree>)
    requires NoArrayOn(columns, base, rest) && T.Expected(columns, base + rest) == T.Plain(Some(text))
    requires N.Recovered(columns, base, rest + q, tree)
    ensures tree == N.TreeAt(ParseTree(text), q)
    decreases |rest|
  {
    if rest == [] {
      assert base + rest == base && rest + q == q;
    } else {
      assert (rest + q)[1..] == rest[1..] + q && (rest + q)[0] == rest[0];
      assert base + [rest[0]] + rest[1..] == base + rest;
      RecoveredBelow(columns, base + [rest[0]], rest[1..], q, text, tree);
    }
  }

  /** A column of a declared type, itself nested at any depth, comes back from the printed root with
      its declared fields at their declared paths. */
  lemma {:induction false} DeclaredColumnRecovered(columns: seq<T.Column>, root: string, rest: Path, d: Declared,
      q: Path)
    requires T.Distinct(columns) && !P.UntypedAfterChild(columns) && N.RootFine(columns, root)
    requires T.Expected(columns, [root]) != T.Absent && NoArrayOn(columns, [root], rest)
    requires WellFormed(d) && T.Expected(columns, [root] + rest) == T.Plain(Some(TypeText(d)))
    ensures T.Gather(columns).Ok? && T.Get(T.Gather(columns).value, root).Some?
    ensures var text := P.Format(T.Get(T.Gather(columns).value, root).value);
      text.Ok? && N.TreeAt(ParseTree(TextOr(text.value)), rest + q) == N.TreeAt(TreeOf(d), q)
  {
    N.ColumnsRoundTrip(columns, root, rest + q);
    var text := P.Format(T.Get(T.Gather(columns).value, root).value);
    RecoveredBelow(columns, [root], rest, q, TypeText(d), N.TreeAt(ParseTree(TextOr(text.value)), rest + q));
    DeclaredParses(d);
  }
}
