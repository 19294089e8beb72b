// Printing nested columns and parsing the text back recovers the tree.
module StructRoundTrip {
  import opened Common
  import opened DottedPaths
  import opened PyText
  import opened StructParser
  import P = ColumnTypes
  import T = ColumnTrie

  // ---- well-bracketed text ------------------------------------------------------

  /** Bracket depths after `s`, or None where a bracket does not match, an angle bracket
      stands inside parentheses, or (unless `top`) a comma stands outside all brackets. */
  function Scan(s: string, angle: nat, paren: nat, top: bool): Option<(nat, nat)>
    decreases |s|
  {
    if s == "" then Some((angle, paren))
    else if s[0] == '<' then if paren != 0 then None else Scan(s[1..], angle + 1, paren, top)
    else if s[0] == '>' then if paren != 0 || angle == 0 then None else Scan(s[1..], angle - 1, paren, top)
    else if s[0] == '(' then Scan(s[1..], angle, paren + 1, top)
    else if s[0] == ')' then if paren == 0 then None else Scan(s[1..], angle, paren - 1, top)
    else if s[0] == ',' && angle == 0 && paren == 0 && !top then None
    else Scan(s[1..], angle, paren, top)
  }

  /** Balanced brackets and no comma outside them. */
  predicate Neat(s: string) { Scan(s, 0, 0, false) == Some((0, 0)) }

  predicate Quiet(s: string) {
    Free('<', s) && Free('>', s) && Free('(', s) && Free(')', s) && Free(',', s)
  }

  lemma {:induction false} ScanQuiet(s: string, angle: nat, paren: nat, top: bool)
    requires Quiet(s)
    ensures Scan(s, angle, paren, top) == Some((angle, paren))
  {
    if s != "" { ScanQuiet(s[1..], angle, paren, top); }
  }

  lemma {:induction false} ScanAppend(s: string, t: string, angle: nat, paren: nat, top: bool)
    requires Scan(s, angle, paren, top).Some?
    ensures var mid := Scan(s, angle, paren, top).value;
      Scan(s + t, angle, paren, top) == Scan(t, mid.0, mid.1, top)
    decreases |s|
  {
    if s == "" {
      assert s + t == t;
    } else {
      assert (s + t)[1..] == s[1..] + t;
      if s[0] == '<' { ScanAppend(s[1..], t, angle + 1, paren, top); }
      else if s[0] == '>' { ScanAppend(s[1..], t, angle - 1, paren, top); }
      else if s[0] == '(' { ScanAppend(s[1..], t, angle, paren + 1, top); }
      else if s[0] == ')' { ScanAppend(s[1..], t, angle, paren - 1, top); }
      else { ScanAppend(s[1..], t, angle, paren, top); }
    }
  }

  /** One bracket further in, the same text scans alike and commas are free. */
  lemma {:induction false} ScanDeeper(s: string, angle: nat, paren: nat, top: bool, top': bool)
    requires Scan(s, angle, paren, top).Some?
    ensures var mid := Scan(s, angle, paren, top).value;
      Scan(s, angle + 1, paren, top') == Some((mid.0 + 1, mid.1))
    decreases |s|
  {
    if s != "" {
      if s[0] == '<' { ScanDeeper(s[1..], angle + 1, paren, top, top'); }
      else if s[0] == '>' { ScanDeeper(s[1..], angle - 1, paren, top, top'); }
      else if s[0] == '(' { ScanDeeper(s[1..], angle, paren + 1, top, top'); }
      else if s[0] == ')' { ScanDeeper(s[1..], angle, paren - 1, top, top'); }
      else { ScanDeeper(s[1..], angle, paren, top, top'); }
    }
  }

  lemma {:induction false} ScanLoose(s: string, angle: nat, paren: nat)
    requires Scan(s, angle, paren, false).Some?
    ensures Scan(s, angle, paren, true) == Scan(s, angle, paren, false)
    decreases |s|
  {
    if s != "" {
      if s[0] == '<' { ScanLoose(s[1..], angle + 1, paren); }
      else if s[0] == '>' { ScanLoose(s[1..], angle - 1, paren); }
      else if s[0] == '(' { ScanLoose(s[1..], angle, paren + 1); }
      else if s[0] == ')' { ScanLoose(s[1..], angle, paren - 1); }
      else { ScanLoose(s[1..], angle, paren); }
    }
  }

  lemma NeatAppend(s: string, t: string)
    requires Neat(s) && Neat(t)
    ensures Neat(s + t)
  {
    ScanAppend(s, t, 0, 0, false);
  }

  /** A comma-separated list of neat items is balanced. */
  lemma {:induction false} ItemsScan(items: seq<string>)
    requires forall k :: 0 <= k < |items| ==> Neat(items[k])
    ensures Scan(JoinWith(items, ", "), 0, 0, true) == Some((0, 0))
  {
    if items != [] {
      ScanLoose(items[0], 0, 0);
      if |items| > 1 {
        ItemsScan(items[1..]);
        var rest := JoinWith(items[1..], ", ");
        ScanAppend(items[0], ", " + rest, 0, 0, true);
        CommaScan(rest);
        assert items[0] + ", " + rest == items[0] + (", " + rest);
      }
    }
  }

  lemma {:induction false} CommaScan(rest: string)
    ensures Scan(", " + rest, 0, 0, true) == Scan(rest, 0, 0, true)
  {
    assert (", " + rest)[1..] == " " + rest;
    assert (" " + rest)[1..] == rest;
  }

  // ---- the two scans of the parser over balanced text -----------------------------

  /** The search for the closing bracket walks over balanced text. */
  lemma {:induction false} CloseOver(text: string, i: nat, j: nat, angle: nat, paren: nat)
    requires i <= j <= |text| && Scan(text[i..j], angle, paren, true).Some?
    ensures var mid := Scan(text[i..j], angle, paren, true).value;
      Close(text, i, angle + 1, paren) == Close(text, j, mid.0 + 1, mid.1)
    decreases j - i
  {
    if i < j {
      var s := text[i..j];
      assert s[0] == text[i] && s[1..] == text[i + 1..j];
      if s[0] == '<' { CloseOver(text, i + 1, j, angle + 1, paren); }
      else if s[0] == '>' { CloseOver(text, i + 1, j, angle - 1, paren); }
      else if s[0] == '(' { CloseOver(text, i + 1, j, angle, paren + 1); }
      else if s[0] == ')' { CloseOver(text, i + 1, j, angle, paren - 1); }
      else { CloseOver(text, i + 1, j, angle, paren); }
    }
  }

  /** The splitter collects a neat item whole. */
  lemma {:induction false} SplitOver(item: string, rest: string, angle: nat, paren: nat, current: string)
    requires Scan(item, angle, paren, false).Some?
    ensures var mid := Scan(item, angle, paren, false).value;
      SplitTop(item + rest, angle, paren, current) == SplitTop(rest, mid.0, mid.1, current + item)
    decreases |item|
  {
    if item == "" {
      assert item + rest == rest && current + item == current;
    } else {
      var c := item[0];
      assert (item + rest)[1..] == item[1..] + rest;
      assert current + [c] + item[1..] == current + item;
      if c == '<' { SplitOver(item[1..], rest, angle + 1, paren, current + [c]); }
      else if c == '>' { SplitOver(item[1..], rest, angle - 1, paren, current + [c]); }
      else if c == '(' { SplitOver(item[1..], rest, angle, paren + 1, current + [c]); }
      else if c == ')' { SplitOver(item[1..], rest, angle, paren - 1, current + [c]); }
      else { SplitOver(item[1..], rest, angle, paren, current + [c]); }
    }
  }

  predicate Item(s: string) { Neat(s) && Trimmed(s) && s != "" }

  predicate Items(items: seq<string>) { forall k :: 0 <= k < |items| ==> Item(items[k]) }

  /** Splitting undoes joining with `", "`. */
  lemma {:induction false} SplitItems(items: seq<string>, pad: string)
    requires Items(items)
    requires pad == "" || (pad == " " && items != [])
    ensures SplitTop(pad + JoinWith(items, ", "), 0, 0, "") == Some(items)
    decreases |items|
  {
    if items != [] {
      var item := items[0];
      PadItem(item, pad);
      if |items| == 1 {
        SplitLast(pad + item);
        assert items == [item];
      } else {
        SplitItems(items[1..], " ");
        SplitStep(item, pad, JoinWith(items[1..], ", "), items[1..]);
        assert [item] + items[1..] == items;
      }
    } else {
      assert pad + "" == "";
    }
  }

  lemma {:induction false} SplitStep(item: string, pad: string, rest: string, tail: seq<string>)
    requires Item(item) && (pad == "" || pad == " ") && SplitTop(" " + rest, 0, 0, "") == Some(tail)
    ensures SplitTop(pad + (item + ", " + rest), 0, 0, "") == Some([item] + tail)
  {
    PadItem(item, pad);
    SplitFirstItem(pad + item, rest);
    Reassociate(pad, item, ", ", rest);
  }

  lemma Reassociate(a: string, b: string, c: string, d: string)
    ensures a + (b + c + d) == a + b + c + d
  {}

  lemma {:induction false} SplitLast(item: string)
    requires Neat(item) && item != ""
    ensures SplitTop(item, 0, 0, "") == Some([Strip(item)])
  {
    SplitOver(item, "", 0, 0, "");
    assert item + "" == item && "" + item == item;
  }

  lemma {:induction false} SplitFirstItem(item: string, rest: string)
    requires Neat(item)
    ensures SplitTop(item + ", " + rest, 0, 0, "") == Prepend([Strip(item)], SplitTop(" " + rest, 0, 0, ""))
  {
    assert item + ", " + rest == item + (", " + rest);
    SplitOver(item, ", " + rest, 0, 0, "");
    assert "" + item == item;
    assert (", " + rest)[1..] == " " + rest;
  }

  lemma PadItem(item: string, pad: string)
    requires Item(item) && (pad == "" || pad == " ")
    ensures Strip(pad + item) == item && Neat(pad + item)
  {
    StripPadded(pad, item, "");
    assert pad + item + "" == pad + item;
    ScanQuiet(pad, 0, 0, false);
    NeatAppend(pad, item);
  }

  lemma OpenText(rest: string)
    ensures IsStructText(OPEN + rest)
  {
    assert (OPEN + rest)[..|OPEN|] == OPEN;
    assert Lower("<") == "<";
    assert Lower("t<") == "t<";
    assert Lower("ct<") == "ct<";
    assert Lower("uct<") == "uct<";
    assert Lower("ruct<") == "ruct<";
    assert Lower("truct<") == "truct<";
  }

  /** The closing bracket found for `struct<inner>…` is the one after `inner`. */
  lemma {:induction false} Closes(inner: string, tail: string)
    requires Scan(inner, 0, 0, true) == Some((0, 0))
    ensures Close(OPEN + inner + ">" + tail, |OPEN|, 1, 0) == (|OPEN| + |inner| + 1, 0)
  {
    var text := OPEN + inner + ">" + tail;
    var j := |OPEN| + |inner|;
    assert text[|OPEN|..j] == inner && text[j] == '>';
    CloseOver(text, |OPEN|, j, 0, 0);
    assert Close(text, j, 1, 0) == Close(text, j + 1, 0, 0);
  }

  /** Parsing `struct<…>`, with or without trailing constraints, yields the items. */
  lemma {:induction false} StructParses(items: seq<string>, tail: string)
    requires Items(items)
    requires tail == "" || (IsSpace(tail[0]) && !IsSpace(tail[|tail| - 1]))
    ensures ParseStructFields(OPEN + JoinWith(items, ", ") + ">" + tail) == Some(ToFields(items))
  {
    var inner := JoinWith(items, ", ");
    ItemsScan(items);
    Closes(inner, tail);
    SplitItems(items, "");
    assert "" + inner == inner;
    ParsesTo(inner, tail, items);
  }

  lemma {:induction false} ParsesTo(inner: string, tail: string, pieces: seq<string>)
    requires tail == "" || (IsSpace(tail[0]) && !IsSpace(tail[|tail| - 1]))
    requires Close(OPEN + inner + ">" + tail, |OPEN|, 1, 0) == (|OPEN| + |inner| + 1, 0)
    requires SplitTop(inner, 0, 0, "") == Some(pieces)
    ensures ParseStructFields(OPEN + inner + ">" + tail) == Some(ToFields(pieces))
  {
    var text := OPEN + inner + ">" + tail;
    TextParts(inner, tail);
    StripWhole(text);
    ParsesInner(text, inner, pieces);
  }

  lemma TextParts(inner: string, tail: string)
    requires tail == "" || (IsSpace(tail[0]) && !IsSpace(tail[|tail| - 1]))
    ensures var text := OPEN + inner + ">" + tail;
      && IsStructText(text)
      && Trimmed(text)
      && |text| == |OPEN| + |inner| + 1 + |tail|
      && text[|OPEN|..|OPEN| + |inner|] == inner
      && text[|OPEN| + |inner| + 1..] == tail
  {
    var text := OPEN + inner + ">" + tail;
    assert text == OPEN + (inner + ">" + tail);
    OpenText(inner + ">" + tail);
    assert text[0] == 's';
    if tail == "" {
      assert text[|text| - 1] == '>';
    } else {
      assert text[|text| - 1] == tail[|tail| - 1];
    }
  }

  lemma {:induction false} ParsesInner(text: string, inner: string, pieces: seq<string>)
    requires IsStructText(text) && Strip(text) == text && |text| >= |OPEN| + |inner| + 1
    requires text[|OPEN|..|OPEN| + |inner|] == inner
    requires |text| > |OPEN| + |inner| + 1 ==> IsSpace(text[|OPEN| + |inner| + 1])
    requires Close(text, |OPEN|, 1, 0) == (|OPEN| + |inner| + 1, 0)
    requires SplitTop(inner, 0, 0, "") == Some(pieces)
    ensures ParseStructFields(text) == Some(ToFields(pieces))
  {}

  lemma StripWhole(s: string)
    requires Trimmed(s) && s != ""
    ensures Strip(s) == s
  {
    StripPadded("", s, "");
    assert "" + s + "" == s;
  }

  // ---- printed nodes ---------------------------------------------------------------

  predicate NameOk(name: string) { Solid(name) && Quiet(name) }

  function OwnWords(own: Option<Option<string>>): seq<string>
    requires own != Some(None)
  {
    Words(if own.Some? then own.value.value else "")
  }

  function ConstraintText(own: Option<Option<string>>): string
    requires own != Some(None)
  {
    var words := OwnWords(own);
    if |words| > 1 then " " + JoinWith(words[1..], " ") else ""
  }

  predicate IsArray(own: Option<Option<string>>)
    requires own != Some(None)
  {
    OwnWords(own) != [] && Lower(OwnWords(own)[0]) == "array"
  }

  /** Bracket-free names, balanced leaf types without a top-level comma, balanced constraints. */
  predicate Printable(node: T.Node)
    decreases node
  {
    match node
    case Nothing => true
    case Text(t) => Item(t)
    case Dict(own, kids) =>
      && own != Some(None) && Neat(ConstraintText(own))
      && KidsPrintable(kids)
  }

  predicate KidsPrintable(kids: seq<T.Entry>)
    decreases kids
  {
    forall k :: 0 <= k < |kids| ==> NameOk(kids[k].name) && Printable(kids[k].node)
  }

  lemma {:induction false} WordIsSolid(t: string)
    requires t != "" && !IsSpace(t[0])
    ensures Solid(t[..WordLength(t)])
  {
    var n := WordLength(t);
    if |t| > 1 && !IsSpace(t[1]) {
      WordIsSolid(t[1..]);
      assert t[..n] == [t[0]] + t[1..][..n - 1];
    } else {
      assert WordLength(t[1..]) == 0;
    }
  }

  lemma {:induction false} WordsAreSolid(s: string)
    ensures forall k :: 0 <= k < |Words(s)| ==> Solid(Words(s)[k])
    decreases |s|
  {
    var t := LStrip(s);
    if t != "" {
      WordIsSolid(t);
      WordsAreSolid(t[WordLength(t)..]);
    }
  }

  lemma {:induction false} JoinEnds(words: seq<string>)
    requires words != [] && forall k :: 0 <= k < |words| ==> Solid(words[k])
    ensures var r := JoinWith(words, " "); r != "" && !IsSpace(r[|r| - 1])
  {
    if |words| > 1 { JoinEnds(words[1..]); }
  }

  predicate TailOk(tail: string) {
    tail == "" || (IsSpace(tail[0]) && !IsSpace(tail[|tail| - 1]))
  }

  lemma ConstraintTail(own: Option<Option<string>>)
    requires own != Some(None)
    ensures TailOk(ConstraintText(own))
  {
    var words := OwnWords(own);
    WordsAreSolid(if own.Some? then own.value.value else "");
    if |words| > 1 {
      JoinEnds(words[1..]);
    }
  }

  function Angled(head: string, inner: string, tail: string): string {
    head + "<" + inner + ">" + tail
  }

  lemma {:induction false} NeatAngled(head: string, inner: string, tail: string)
    requires Quiet(head) && Scan(inner, 0, 0, true) == Some((0, 0)) && Neat(tail)
    ensures Neat(Angled(head, inner, tail))
  {
    var s2 := ">" + tail;
    assert s2[1..] == tail;
    ScanDeeper(inner, 0, 0, true, false);
    ScanAppend(inner, s2, 1, 0, false);
    var s1 := "<" + (inner + s2);
    assert s1[1..] == inner + s2;
    ScanQuiet(head, 0, 0, false);
    ScanAppend(head, s1, 0, 0, false);
    assert Angled(head, inner, tail) == head + s1;
  }

  lemma AngledEnds(head: string, inner: string, tail: string)
    requires head != "" && !IsSpace(head[0]) && TailOk(tail)
    ensures var r := Angled(head, inner, tail); r != "" && Trimmed(r)
  {
    var r := Angled(head, inner, tail);
    assert r[0] == head[0];
    if tail == "" {
      assert r[|r| - 1] == '>';
    } else {
      assert r[|r| - 1] == tail[|tail| - 1];
    }
  }

  /** What the printer wraps around the items. */
  lemma {:induction false} WrapText(own: Option<Option<string>>, items: seq<string>)
    requires own != Some(None)
    ensures var inner := JoinWith(items, ", ");
      P.Wrap(own, items) == if IsArray(own)
        then Angled("array", Angled("struct", inner, ""), ConstraintText(own))
        else Angled("struct", inner, ConstraintText(own))
  {
    var inner := JoinWith(items, ", ");
    var plain := "struct<" + inner + ">";
    assert plain == Angled("struct", inner, "");
    assert "array<" + plain + ">" == Angled("array", plain, "");
    AngledTail("struct", inner, ConstraintText(own));
    AngledTail("array", plain, ConstraintText(own));
    AddConstraints(own, plain);
    AddConstraints(own, "array<" + plain + ">");
  }

  /** A parent column whose type text is words, `array` in any case or another, then constraints. */
  lemma {:induction false} WrapOfWords(words: seq<string>, items: seq<string>)
    requires words != [] && forall k :: 0 <= k < |words| ==> Solid(words[k])
    ensures var inner := Angled("struct", JoinWith(items, ", "), "");
      var tail := if |words| > 1 then " " + JoinWith(words[1..], " ") else "";
      P.Wrap(Some(Some(JoinWith(words, " "))), items)
        == (if Lower(words[0]) == "array" then Angled("array", inner, tail) else inner + tail)
  {
    var own := Some(Some(JoinWith(words, " ")));
    WordsOfJoin(words);
    WrapText(own, items);
    AngledTail("struct", JoinWith(items, ", "), ConstraintText(own));
  }

  lemma AngledTail(head: string, inner: string, tail: string)
    ensures Angled(head, inner, "") + tail == Angled(head, inner, tail)
  {}

  lemma AddConstraints(own: Option<Option<string>>, typed: string)
    requires own != Some(None)
    ensures typed + ConstraintText(own) ==
      if |OwnWords(own)| > 1 then typed + " " + JoinWith(OwnWords(own)[1..], " ") else typed
  {
    var words := OwnWords(own);
    if |words| > 1 {
      assert typed + (" " + JoinWith(words[1..], " ")) == typed + " " + JoinWith(words[1..], " ");
    }
  }

  lemma WrapIsItem(own: Option<Option<string>>, items: seq<string>)
    requires own != Some(None) && Neat(ConstraintText(own)) && Items(items)
    ensures Item(P.Wrap(own, items))
  {
    var inner, tail := JoinWith(items, ", "), ConstraintText(own);
    ItemsScan(items);
    ConstraintTail(own);
    WrapText(own, items);
    if IsArray(own) {
      var plain := Angled("struct", inner, "");
      NeatAngled("struct", inner, "");
      ScanLoose(plain, 0, 0);
      NeatAngled("array", plain, tail);
      AngledEnds("array", plain, tail);
    } else {
      NeatAngled("struct", inner, tail);
      AngledEnds("struct", inner, tail);
    }
  }

  /** A printed field is a neat item, and splitting it gives back its name and type. */
  lemma ItemOfField(name: string, text: Option<string>)
    requires NameOk(name) && (text.Some? ==> Item(text.value))
    ensures Item(P.ItemText(name, text))
    ensures P.ItemText(name, text) == if text.Some? then name + " " + text.value else name
    ensures SplitFirst(P.ItemText(name, text)) == if text.Some? then [name, text.value] else [name]
  {
    ScanQuiet(name, 0, 0, false);
    if text.Some? {
      var t := text.value;
      var item := name + " " + t;
      assert item[0] == name[0] && item[|item| - 1] == t[|t| - 1];
      StripWhole(item);
      SplitFirstTwo(name, " ", t);
      ScanQuiet(" ", 0, 0, false);
      NeatAppend(name, " ");
      NeatAppend(name + " ", t);
    } else {
      StripPadded("", name, " ");
      assert "" + name + " " == name + " " + "";
      SplitFirstOne(name);
    }
  }

  lemma {:induction false} FormatItemsAt(kids: seq<T.Entry>, k: nat)
    requires P.FormatItems(kids).Ok? && k < |kids|
    ensures P.Format(kids[k].node).Ok?
    ensures P.FormatItems(kids).value[k] == P.ItemText(kids[k].name, P.Format(kids[k].node).value)
  {
    if k > 0 { FormatItemsAt(kids[1..], k - 1); }
  }

  /** Everything printed is one neat item. */
  lemma {:induction false} PrintedIsItem(node: T.Node)
    requires Printable(node) && P.Format(node).Ok?
    ensures P.Format(node).value.Some? ==> Item(P.Format(node).value.value)
    decreases node
  {
    if node.Dict? {
      PrintedItems(node.kids);
      WrapIsItem(node.own, P.FormatItems(node.kids).value);
    }
  }

  lemma {:induction false} PrintedItems(kids: seq<T.Entry>)
    requires P.FormatItems(kids).Ok?
    requires KidsPrintable(kids)
    ensures Items(P.FormatItems(kids).value)
    decreases kids
  {
    forall k | 0 <= k < |kids| ensures Item(P.FormatItems(kids).value[k]) {
      FormatItemsAt(kids, k);
      PrintedIsItem(kids[k].node);
      ItemOfField(kids[k].name, P.Format(kids[k].node).value);
    }
  }

  // ---- the round trip -------------------------------------------------------------

  /** The tree a printed node stands for: dictionaries become fields, array parents and
      types stay text. */
  function Shape(node: T.Node): Tree
    requires P.Format(node).Ok?
    decreases node
  {
    match node
    case Nothing => Leaf("")
    case Text(t) => ParseTree(t)
    case Dict(own, kids) =>
      if IsArray(own) then Leaf(P.Wrap(own, P.FormatItems(kids).value))
      else Node(ShapeKids(kids))
  }

  function ShapeKids(kids: seq<T.Entry>): (r: seq<Named>)
    requires P.FormatItems(kids).Ok?
    ensures |r| == |kids|
    decreases kids
  {
    if kids == [] then []
    else [Named(kids[0].name, Shape(kids[0].node))] + ShapeKids(kids[1..])
  }

  /** With no blank piece, the k-th field comes from the k-th piece. */
  lemma {:induction false} ToFieldsEach(split: string -> seq<string>, pieces: seq<string>, fields: seq<FieldDef>)
    requires |fields| == |pieces|
    requires forall k :: 0 <= k < |pieces| ==> PieceIs(split, pieces[k], fields[k])
    ensures ToFieldsBy(split, pieces) == fields
  {
    if pieces != [] {
      var n := |pieces| - 1;
      ToFieldsEach(split, pieces[..n], fields[..n]);
      assert PieceIs(split, pieces[n], fields[n]);
      assert fields == fields[..n] + [fields[n]];
    }
  }

  predicate PieceIs(split: string -> seq<string>, piece: string, field: FieldDef) {
    split(piece) != [] && ToField(split(piece)) == field
  }

  lemma NotStructText(text: string)
    requires text != "" && text[0] == 'a'
    ensures !IsStructText(text)
  {
    if |text| >= |OPEN| {
      assert text[..|OPEN|][0] == 'a';
      assert Lower(text[..|OPEN|])[0] == 'a';
    }
  }

  lemma AngledFirst(head: string, inner: string, tail: string)
    requires head != ""
    ensures Angled(head, inner, tail)[0] == head[0]
  {}

  lemma ArrayIsLeaf(own: Option<Option<string>>, items: seq<string>)
    requires own != Some(None) && IsArray(own) && Neat(ConstraintText(own)) && Items(items)
    ensures ParseTree(P.Wrap(own, items)) == Leaf(P.Wrap(own, items))
  {
    var text := P.Wrap(own, items);
    WrapIsItem(own, items);
    StripWhole(text);
    assert text[0] == 'a' by {
      WrapText(own, items);
      AngledFirst("array", Angled("struct", JoinWith(items, ", "), ""), ConstraintText(own));
    }
    NotStructText(text);
  }

  lemma OpenAngled(inner: string, tail: string)
    ensures OPEN + inner + ">" + tail == Angled("struct", inner, tail)
  {
    assert OPEN == "struct" + "<";
  }

  lemma StructItems(own: Option<Option<string>>, items: seq<string>)
    requires own != Some(None) && Neat(ConstraintText(own)) && !IsArray(own) && Items(items)
    ensures ParseStructFields(P.Wrap(own, items)) == Some(ToFields(items))
  {
    var inner, tail := JoinWith(items, ", "), ConstraintText(own);
    ConstraintTail(own);
    WrapText(own, items);
    StructParses(items, tail);
    OpenAngled(inner, tail);
  }

  lemma FieldOfItem(name: string, text: Option<string>)
    requires NameOk(name) && (text.Some? ==> Item(text.value))
    ensures PieceIs(SplitFirst, P.ItemText(name, text), FieldDef(name, TextOr(text)))
  {
    ItemOfField(name, text);
  }

  lemma {:induction false} ItemsAreNamed(kids: seq<T.Entry>, k: nat)
    requires P.FormatItems(kids).Ok? && KidsPrintable(kids) && k < |kids|
    ensures P.Format(kids[k].node).Ok?
    ensures PieceIs(SplitFirst, P.FormatItems(kids).value[k], KidField(kids[k]))
  {
    FormatItemsAt(kids, k);
    PrintedIsItem(kids[k].node);
    FieldOfItem(kids[k].name, P.Format(kids[k].node).value);
  }

  lemma {:induction false} PiecesAreKids(kids: seq<T.Entry>)
    requires P.FormatItems(kids).Ok? && KidsPrintable(kids)
    ensures ToFields(P.FormatItems(kids).value) == KidFields(kids)
  {
    var items := P.FormatItems(kids).value;
    forall k | 0 <= k < |kids| ensures PieceIs(SplitFirst, items[k], KidFields(kids)[k]) {
      ItemsAreNamed(kids, k);
    }
    ToFieldsEach(SplitFirst, items, KidFields(kids));
  }

  /** Parsing a printed struct: one field per nested column, its name and printed type. */
  lemma {:induction false} StructFields(own: Option<Option<string>>, kids: seq<T.Entry>)
    requires P.FormatItems(kids).Ok? && KidsPrintable(kids)
    requires own != Some(None) && Neat(ConstraintText(own)) && !IsArray(own)
    ensures ParseStructFields(P.Wrap(own, P.FormatItems(kids).value)) == Some(KidFields(kids))
  {
    PrintedItems(kids);
    StructItems(own, P.FormatItems(kids).value);
    PiecesAreKids(kids);
  }

  function KidFields(kids: seq<T.Entry>): (r: seq<FieldDef>)
    ensures |r| == |kids|
    ensures forall k :: 0 <= k < |kids| ==> r[k] == KidField(kids[k])
  {
    seq(|kids|, k requires 0 <= k < |kids| => KidField(kids[k]))
  }

  function KidField(kid: T.Entry): FieldDef {
    FieldDef(kid.name, if P.Format(kid.node).Ok? then TextOr(P.Format(kid.node).value) else "")
  }

  function TextOr(text: Option<string>): string { if text.Some? then text.value else "" }

  /** Parsing undoes printing. */
  lemma {:induction false} ParsePrinted(node: T.Node)
    requires Printable(node) && P.Format(node).Ok?
    ensures ParseTree(TextOr(P.Format(node).value)) == Shape(node)
    decreases node, 1
  {
    match node
    case Nothing =>
      assert LStrip("") == "";
    case Text(_) =>
    case Dict(own, kids) =>
      PrintedItems(kids);
      if IsArray(own) {
        ArrayIsLeaf(own, P.FormatItems(kids).value);
      } else {
        StructFields(own, kids);
        var text := P.Wrap(own, P.FormatItems(kids).value);
        ParsePrintedKids(kids, ParseStructFields(text).value, |text|);
      }
  }

  lemma {:induction false} ParsePrintedKids(kids: seq<T.Entry>, fields: seq<FieldDef>, bound: nat)
    requires KidsPrintable(kids) && P.FormatItems(kids).Ok?
    requires Shorter(fields, bound) && fields == KidFields(kids)
    ensures ParseTrees(fields, bound) == ShapeKids(kids)
    decreases kids, 0
  {
    if kids != [] {
      ParsePrinted(kids[0].node);
      assert fields[1..] == KidFields(kids[1..]);
      ParsePrintedKids(kids[1..], fields[1..], bound);
    }
  }
}
