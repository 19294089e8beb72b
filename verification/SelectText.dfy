// Reading the generated SELECT text back: the text means the expression it was built from.
module SelectText {
  import opened Common
  import opened DottedPaths
  import opened PyText
  import opened StructParser
  import opened StructSelect

  const GUARD_OPEN := "IF("
  const GUARD_MIDDLE := " IS NULL, NULL, STRUCT("
  const GUARD_CLOSE := "))"
  const AS := " AS "
  const SEPARATOR := ", "

  // ---- a reader for the SQL that is generated ---------------------------------------------

  function UpTo(s: string, stops: set<char>): (n: nat)
    ensures n <= |s|
  {
    if s == "" || s[0] in stops then 0 else 1 + UpTo(s[1..], stops)
  }

  /** `column`, or `column.field.field…`. */
  function ReadPath(column: string, text: string): Option<Path> {
    if text == column then Some([])
    else if StartsWith(text, column + ".") then Some(Split(text[|column| + 1..]))
    else None
  }

  /** A guarded STRUCT constructor or a field reference, and the text behind it. */
  function ReadExpr(column: string, s: string): (r: Option<(Expr, string)>)
    ensures r.Some? ==> |r.value.1| <= |s|
    decreases |s|, 0
  {
    if StartsWith(s, GUARD_OPEN) then
      var body := s[|GUARD_OPEN|..];
      var n := UpTo(body, {' '});
      var path := ReadPath(column, body[..n]);
      if path.None? || !StartsWith(body[n..], GUARD_MIDDLE) then None
      else
        var items := ReadItems(column, body[n..][|GUARD_MIDDLE|..]);
        if items.None? || !StartsWith(items.value.1, GUARD_CLOSE) then None
        else Some((Guarded(path.value, items.value.0), items.value.1[|GUARD_CLOSE|..]))
    else
      var n := UpTo(s, {' '});
      var path := ReadPath(column, s[..n]);
      if path.None? then None else Some((Ref(path.value), s[n..]))
  }

  /** Aliased expressions between commas, up to the closing parenthesis. */
  function ReadItems(column: string, s: string): (r: Option<(seq<Aliased>, string)>)
    ensures r.Some? ==> |r.value.1| <= |s|
    decreases |s|, 1
  {
    if s != "" && s[0] == ')' then Some(([], s))
    else
      var expr := ReadExpr(column, s);
      if expr.None? || !StartsWith(expr.value.1, AS) then None
      else
        var named := expr.value.1[|AS|..];
        var n := UpTo(named, {',', ')'});
        var item := Aliased(expr.value.0, named[..n]);
        if StartsWith(named[n..], SEPARATOR) then
          var more := ReadItems(column, named[n..][|SEPARATOR|..]);
          if more.None? then None else Some(([item] + more.value.0, more.value.1))
        else Some(([item], named[n..]))
  }

  /** The whole select item: a bare column, or a guarded struct under the column's name. */
  function ReadSelect(column: string, text: string): Option<Expr> {
    var r := ReadExpr(column, text);
    if r.None? then None
    else if r.value.1 == (if r.value.0.Guarded? then AS + column else "") then Some(r.value.0)
    else None
  }

  // ---- reading undoes rendering -------------------------------------------------------------

  predicate Plain(s: string) { Free(' ', s) && Free('(', s) && Free(',', s) && Free(')', s) }

  predicate PathOk(path: Path) { forall i :: 0 <= i < |path| ==> Plain(path[i]) && Free('.', path[i]) }

  predicate ExprOk(expr: Expr)
    decreases expr, 1
  {
    PathOk(expr.path) && (expr.Guarded? ==> ItemsOk(expr.items))
  }

  predicate ItemsOk(items: seq<Aliased>)
    decreases items, 0
  {
    items == [] || (ExprOk(items[0].expr) && Plain(items[0].alias) && ItemsOk(items[1..]))
  }

  lemma Prefixed(a: string, b: string)
    ensures StartsWith(a + b, a) && (a + b)[|a|..] == b
  {}

  lemma {:induction false} UpToOf(w: string, rest: string, stops: set<char>)
    requires forall i :: 0 <= i < |w| ==> w[i] !in stops
    requires rest == "" || rest[0] in stops
    ensures UpTo(w + rest, stops) == |w| && (w + rest)[..|w|] == w && (w + rest)[|w|..] == rest
  {
    if w == "" {
      assert w + rest == rest;
    } else {
      assert (w + rest)[1..] == w[1..] + rest;
      UpToOf(w[1..], rest, stops);
    }
  }

  lemma {:induction false} JoinSnoc(path: Path, name: string)
    requires path != []
    ensures Join(path + [name]) == Join(path) + ['.'] + name
  {
    if |path| == 1 {
      assert (path + [name])[1..] == [name];
    } else {
      JoinSnoc(path[1..], name);
      assert (path + [name])[1..] == path[1..] + [name];
    }
  }

  lemma {:induction false} PathTextIsJoin(column: string, path: Path)
    requires path != []
    ensures PathText(column, path) == column + ['.'] + Join(path)
  {
    var n := |path| - 1;
    assert path == path[..n] + [path[n]];
    if n == 0 {
      assert path[..0] == [];
    } else {
      PathTextIsJoin(column, path[..n]);
      JoinSnoc(path[..n], path[n]);
    }
  }

  lemma {:induction false} ReadsPath(column: string, path: Path)
    requires PathOk(path)
    ensures ReadPath(column, PathText(column, path)) == Some(path)
  {
    if path != [] {
      PathTextIsJoin(column, path);
      SplitJoin(path);
      Prefixed(column + ['.'], Join(path));
    }
  }

  lemma {:induction false} PathTextPlain(column: string, path: Path)
    requires Plain(column) && PathOk(path)
    ensures Plain(PathText(column, path))
  {
    if path != [] {
      PathTextPlain(column, path[..|path| - 1]);
    }
  }

  /** A field reference does not look like a guard. */
  lemma NoGuard(w: string, rest: string)
    requires Free('(', w) && (rest == "" || rest[0] == ' ')
    ensures !StartsWith(w + rest, GUARD_OPEN)
  {
    var s := w + rest;
    if |s| >= 3 {
      assert |w| > 2 ==> s[2] == w[2];
      assert |w| <= 2 ==> s[|w|] == ' ';
      assert GUARD_OPEN[0] == 'I' && GUARD_OPEN[1] == 'F' && GUARD_OPEN[2] == '(';
      assert s[..3][0] == s[0] && s[..3][1] == s[1] && s[..3][2] == s[2];
    }
  }

  lemma {:induction false} ReadsRef(column: string, path: Path, rest: string)
    requires Plain(column) && PathOk(path) && (rest == "" || rest[0] == ' ')
    ensures ReadExpr(column, PathText(column, path) + rest) == Some((Ref(path), rest))
  {
    var w := PathText(column, path);
    PathTextPlain(column, path);
    NoGuard(w, rest);
    UpToOf(w, rest, {' '});
    ReadsPath(column, path);
  }

  lemma Regroup(a: string, b: string, c: string, d: string, e: string, rest: string)
    ensures a + b + c + d + e + rest == a + (b + (c + (d + (e + rest))))
  {}

  lemma {:induction false} ReadsGuard(column: string, path: Path, inner: string, items: seq<Aliased>, rest: string)
    requires Plain(column) && PathOk(path)
    requires ReadItems(column, inner + (GUARD_CLOSE + rest)) == Some((items, GUARD_CLOSE + rest))
    ensures ReadExpr(column, GUARD_OPEN + (PathText(column, path) + (GUARD_MIDDLE + (inner + (GUARD_CLOSE + rest)))))
      == Some((Guarded(path, items), rest))
  {
    var w := PathText(column, path);
    var tail := inner + (GUARD_CLOSE + rest);
    Prefixed(GUARD_OPEN, w + (GUARD_MIDDLE + tail));
    PathTextPlain(column, path);
    assert (GUARD_MIDDLE + tail)[0] == ' ';
    UpToOf(w, GUARD_MIDDLE + tail, {' '});
    ReadsPath(column, path);
    Prefixed(GUARD_MIDDLE, tail);
    Prefixed(GUARD_CLOSE, rest);
  }

  /** Reading undoes rendering, whatever text follows. */
  lemma {:induction false} ReadsExpr(column: string, expr: Expr, rest: string)
    requires Plain(column) && ExprOk(expr) && (rest == "" || rest[0] == ' ')
    ensures ReadExpr(column, Render(column, expr) + rest) == Some((expr, rest))
    decreases expr, 1
  {
    match expr
    case Ref(path) => ReadsRef(column, path, rest);
    case Guarded(path, items) =>
      var texts := RenderItems(column, items);
      var inner := JoinWith(texts, SEPARATOR);
      ReadsItems(column, items, GUARD_CLOSE + rest);
      ReadsGuard(column, path, inner, items, rest);
      Regroup(GUARD_OPEN, PathText(column, path), GUARD_MIDDLE, inner, GUARD_CLOSE, rest);
  }

  lemma {:induction false} NotClosed(column: string, expr: Expr)
    requires Plain(column) && ExprOk(expr)
    ensures var s := Render(column, expr); s == "" || s[0] != ')'
  {
    PathTextPlain(column, expr.path);
    if expr.Guarded? { assert GUARD_OPEN[0] == 'I'; }
  }

  /** An aliased expression, given as the text that reads as it, and what follows. */
  lemma {:induction false} ReadsItem(column: string, text: string, expr: Expr, alias: string, follow: string)
    requires Plain(alias) && follow != "" && follow[0] in {',', ')'} && (text == "" || text[0] != ')')
    requires ReadExpr(column, text + (AS + (alias + follow))) == Some((expr, AS + (alias + follow)))
    ensures ReadItems(column, text + (AS + (alias + follow))) ==
      if !StartsWith(follow, SEPARATOR) then Some(([Aliased(expr, alias)], follow))
      else
        var more := ReadItems(column, follow[|SEPARATOR|..]);
        if more.None? then None else Some(([Aliased(expr, alias)] + more.value.0, more.value.1))
  {
    assert (text + (AS + (alias + follow)))[0] == if text == "" then AS[0] else text[0];
    Prefixed(AS, alias + follow);
    UpToOf(alias, follow, {',', ')'});
  }

  lemma RegroupItem(a: string, b: string, c: string, d: string)
    ensures a + b + c + d == a + (b + (c + d))
  {}

  lemma RegroupList(first: string, more: string, rest: string)
    ensures first + SEPARATOR + more + rest == first + (SEPARATOR + (more + rest))
  {}

  lemma {:induction false} ReadsLast(column: string, text: string, expr: Expr, alias: string, rest: string)
    requires Plain(alias) && rest != "" && rest[0] == ')' && (text == "" || text[0] != ')')
    requires ReadExpr(column, text + (AS + (alias + rest))) == Some((expr, AS + (alias + rest)))
    ensures ReadItems(column, text + AS + alias + rest) == Some(([Aliased(expr, alias)], rest))
  {
    ReadsItem(column, text, expr, alias, rest);
    RegroupItem(text, AS, alias, rest);
    assert rest[0] != SEPARATOR[0];
  }

  lemma {:induction false} ReadsMore(column: string, text: string, expr: Expr, alias: string, more: string,
      items: seq<Aliased>, rest: string)
    requires Plain(alias) && (text == "" || text[0] != ')')
    requires ReadItems(column, more + rest) == Some((items, rest))
    requires var follow := SEPARATOR + (more + rest);
      ReadExpr(column, text + (AS + (alias + follow))) == Some((expr, AS + (alias + follow)))
    ensures ReadItems(column, text + AS + alias + SEPARATOR + more + rest) == Some(([Aliased(expr, alias)] + items, rest))
  {
    var follow := SEPARATOR + (more + rest);
    Prefixed(SEPARATOR, more + rest);
    ReadsItem(column, text, expr, alias, follow);
    RegroupItem(text, AS, alias, follow);
    RegroupList(text + AS + alias, more, rest);
  }

  lemma {:induction false} ReadsItems(column: string, items: seq<Aliased>, rest: string)
    requires Plain(column) && ItemsOk(items) && rest != "" && rest[0] == ')'
    ensures ReadItems(column, JoinWith(RenderItems(column, items), SEPARATOR) + rest) == Some((items, rest))
    decreases items, 0
  {
    if items == [] {
      assert "" + rest == rest;
    } else {
      var text, expr, alias := Render(column, items[0].expr), items[0].expr, items[0].alias;
      NotClosed(column, expr);
      if |items| == 1 {
        ReadsExpr(column, expr, AS + (alias + rest));
        ReadsLast(column, text, expr, alias, rest);
        OneText(column, items);
      } else {
        var more := JoinWith(RenderItems(column, items[1..]), SEPARATOR);
        ReadsItems(column, items[1..], rest);
        ReadsExpr(column, expr, AS + (alias + (SEPARATOR + (more + rest))));
        ReadsMore(column, text, expr, alias, more, items[1..], rest);
        MoreTexts(column, items);
      }
    }
  }

  lemma {:induction false} OneText(column: string, items: seq<Aliased>)
    requires |items| == 1
    ensures JoinWith(RenderItems(column, items), SEPARATOR) == Render(column, items[0].expr) + AS + items[0].alias
    ensures items == [Aliased(items[0].expr, items[0].alias)]
  {}

  lemma {:induction false} MoreTexts(column: string, items: seq<Aliased>)
    requires |items| > 1
    ensures JoinWith(RenderItems(column, items), SEPARATOR) ==
      Render(column, items[0].expr) + AS + items[0].alias + SEPARATOR + JoinWith(RenderItems(column, items[1..]), SEPARATOR)
    ensures items == [Aliased(items[0].expr, items[0].alias)] + items[1..]
  {
    assert RenderItems(column, items)[1..] == RenderItems(column, items[1..]);
  }

  // ---- the generated text ---------------------------------------------------------------------

  /** Field names without spaces, commas, parentheses and dots, at every depth. */
  predicate NamesOk(tree: Tree)
    decreases tree, 1
  {
    tree.Node? ==> AllNamesOk(tree.fields)
  }

  predicate AllNamesOk(fields: seq<Named>)
    decreases fields, 0
  {
    fields == [] || (
      && Plain(fields[0].name) && Free('.', fields[0].name)
      && NamesOk(fields[0].tree)
      && AllNamesOk(fields[1..])
    )
  }

  lemma {:induction false} SelectOk(path: Path, tree: Tree)
    requires PathOk(path) && NamesOk(tree)
    ensures ExprOk(Select(path, tree))
    decreases tree, 1
  {
    if tree.Node? { ItemsAreOk(path, tree.fields); }
  }

  lemma {:induction false} ItemsAreOk(path: Path, fields: seq<Named>)
    requires PathOk(path) && AllNamesOk(fields)
    ensures ItemsOk(Items(path, fields))
    decreases fields, 0
  {
    if fields != [] {
      SelectOk(path + [fields[0].name], fields[0].tree);
      ItemsAreOk(path, fields[1..]);
      assert Items(path, fields)[1..] == Items(path, fields[1..]);
    }
  }

  /** The reader undoes the generation of a select item. */
  lemma {:induction false} ReadsSelect(column: string, expr: Expr)
    requires Plain(column) && ExprOk(expr) && expr.path == []
    ensures ReadSelect(column, SelectedText(column, expr)) == Some(expr)
  {
    if expr.Ref? {
      ReadsExpr(column, expr, "");
      assert column + "" == column;
    } else {
      ReadsExpr(column, expr, AS + column);
      RegroupAlias(Render(column, expr), column);
    }
  }

  lemma RegroupAlias(text: string, column: string)
    ensures text + AS + column == text + (AS + column)
  {}

  /** Read as SQL, the text generated for a column computes the reordered value: the text denotes
      one expression, and that expression's value is the source's with the declared fields in the
      declared order, failing exactly when a declared field is missing. */
  lemma {:induction false} TextMeans(column: string, dataType: string, value: Value)
    requires Plain(column) && NamesOk(ParseTree(dataType))
    ensures var tree := ParseTree(dataType);
      var expr := ReadSelect(column, SelectedText(column, Select([], tree)));
      expr.Some? && Eval(expr.value, value) == if Covers(tree, value) then Some(Reorder(tree, value)) else None
  {
    var expr := Select([], ParseTree(dataType));
    SelectOk([], ParseTree(dataType));
    SelectMeans(dataType, value);
    ReadsSelect(column, expr);
  }
}
