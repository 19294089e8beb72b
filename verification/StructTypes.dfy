// Declared types as users write them: the keyword in any case, white space where it is allowed.
module StructTypes {
  import opened Common
  import opened DottedPaths
  import opened PyText
  import opened StructParser
  import opened StructRoundTrip

  datatype Declared =
    | Scalar(text: string)
    | Struct(keyword: string, fields: seq<DeclaredField>, tail: string)

  datatype DeclaredField = DeclaredField(lead: string, name: string, gap: string, of: Declared, trail: string)

  function TypeText(d: Declared): string
    decreases d
  {
    match d
    case Scalar(text) => text
    case Struct(keyword, fields, tail) => Angled(keyword, JoinWith(FieldTexts(fields), ","), tail)
  }

  function FieldTexts(fields: seq<DeclaredField>): (r: seq<string>)
    ensures |r| == |fields|
    decreases fields
  {
    if fields == [] then []
    else
      var f := fields[0];
      [f.lead + (f.name + f.gap + TypeText(f.of)) + f.trail] + FieldTexts(fields[1..])
  }

  /** The fields in the declared order, at every depth. */
  function TreeOf(d: Declared): Tree
    decreases d
  {
    match d
    case Scalar(text) => Leaf(text)
    case Struct(_, fields, _) => Node(TreesOf(fields))
  }

  function TreesOf(fields: seq<DeclaredField>): (r: seq<Named>)
    ensures |r| == |fields|
    decreases fields
  {
    if fields == [] then [] else [Named(fields[0].name, TreeOf(fields[0].of))] + TreesOf(fields[1..])
  }

  /** `struct` in any case; balanced types that are no structs; names without brackets. */
  predicate WellFormed(d: Declared)
    decreases d
  {
    match d
    case Scalar(text) => Item(text) && !StartsWith(Lower(text), OPEN)
    case Struct(keyword, fields, tail) => Lower(keyword) == "struct" && TailOk(tail) && Neat(tail) && FieldsOk(fields)
  }

  predicate FieldsOk(fields: seq<DeclaredField>)
    decreases fields
  {
    forall k :: 0 <= k < |fields| ==>
      && Spaces(fields[k].lead) && Spaces(fields[k].trail) && Spaces(fields[k].gap) && fields[k].gap != ""
      && NameOk(fields[k].name) && WellFormed(fields[k].of)
  }

  // ---- the keyword ---------------------------------------------------------------------------

  lemma {:induction false} KeywordChars(keyword: string, k: nat)
    requires Lower(keyword) == "struct" && k < |keyword|
    ensures LowerChar(keyword[k]) in "struct" && !IsSpace(keyword[k])
    ensures keyword[k] !in {'<', '>', '(', ')', ','}
  {
    LowerAt(keyword, k);
    assert Lower(keyword)[k] in "struct";
  }

  lemma {:induction false} KeywordIsQuiet(keyword: string)
    requires Lower(keyword) == "struct"
    ensures Quiet(keyword) && keyword != "" && !IsSpace(keyword[0])
  {
    forall k | 0 <= k < |keyword| ensures keyword[k] !in {'<', '>', '(', ')', ','} { KeywordChars(keyword, k); }
    KeywordChars(keyword, 0);
  }

  lemma {:induction false} LowerIsOpen(keyword: string)
    requires Lower(keyword) == "struct"
    ensures |keyword + "<"| == |OPEN| && Lower(keyword + "<") == OPEN
  {
    LowerAppend(keyword, "<");
    LowerAt("<", 0);
    assert Lower("<") == "<";
    assert "struct" + "<" == OPEN;
  }

  lemma {:induction false} OpensWith(head: string, rest: string)
    requires |head| == |OPEN| && Lower(head) == OPEN
    ensures IsStructText(head + rest)
  {
    assert (head + rest)[..|OPEN|] == head;
  }

  lemma {:induction false} Opens(keyword: string, rest: string)
    requires Lower(keyword) == "struct"
    ensures |keyword| == 6 && IsStructText(keyword + "<" + rest)
  {
    LowerIsOpen(keyword);
    OpensWith(keyword + "<", rest);
  }

  lemma {:induction false} ScalarIsNoStruct(text: string)
    requires !StartsWith(Lower(text), OPEN)
    ensures !IsStructText(text)
  {
    if |text| >= |OPEN| {
      LowerAppend(text[..|OPEN|], text[|OPEN|..]);
      assert text == text[..|OPEN|] + text[|OPEN|..];
      assert Lower(text)[..|OPEN|] == Lower(text[..|OPEN|]);
    }
  }

  // ---- pieces between commas -------------------------------------------------------------------

  datatype Piece = Piece(lead: string, item: string, trail: string)

  predicate PieceOk(p: Piece) { Spaces(p.lead) && Spaces(p.trail) && Item(p.item) }

  predicate PiecesOk(ps: seq<Piece>) { forall k :: 0 <= k < |ps| ==> PieceOk(ps[k]) }

  function PieceTexts(ps: seq<Piece>): (r: seq<string>)
    ensures |r| == |ps|
  {
    if ps == [] then [] else [ps[0].lead + ps[0].item + ps[0].trail] + PieceTexts(ps[1..])
  }

  function ItemsOf(ps: seq<Piece>): (r: seq<string>)
    ensures |r| == |ps|
  {
    if ps == [] then [] else [ps[0].item] + ItemsOf(ps[1..])
  }

  lemma SpacesAreNeat(w: string)
    requires Spaces(w)
    ensures Neat(w)
  {
    ScanQuiet(w, 0, 0, false);
  }

  lemma PieceIsNeat(p: Piece)
    requires PieceOk(p)
    ensures var text := p.lead + p.item + p.trail; Neat(text) && text != "" && Strip(text) == p.item
  {
    SpacesAreNeat(p.lead);
    SpacesAreNeat(p.trail);
    NeatAppend(p.lead, p.item);
    NeatAppend(p.lead + p.item, p.trail);
    StripPadded(p.lead, p.item, p.trail);
  }

  lemma {:induction false} CommaSplits(text: string, rest: string)
    requires Neat(text)
    ensures SplitTop(text + "," + rest, 0, 0, "") == Prepend([Strip(text)], SplitTop(rest, 0, 0, ""))
    ensures Scan(text + "," + rest, 0, 0, true) == Scan(rest, 0, 0, true)
  {
    assert text + "," + rest == text + ("," + rest);
    assert ("," + rest)[1..] == rest;
    SplitOver(text, "," + rest, 0, 0, "");
    assert "" + text == text;
    ScanLoose(text, 0, 0);
    ScanAppend(text, "," + rest, 0, 0, true);
  }

  /** Splitting at commas strips the white space around the items, however much there is. */
  lemma {:induction false} SplitPieces(ps: seq<Piece>)
    requires PiecesOk(ps)
    ensures SplitTop(JoinWith(PieceTexts(ps), ","), 0, 0, "") == Some(ItemsOf(ps))
    ensures Scan(JoinWith(PieceTexts(ps), ","), 0, 0, true) == Some((0, 0))
  {
    if ps != [] {
      var text := ps[0].lead + ps[0].item + ps[0].trail;
      PieceIsNeat(ps[0]);
      assert PieceTexts(ps)[1..] == PieceTexts(ps[1..]);
      if |ps| == 1 {
        SplitLast(text);
        ScanLoose(text, 0, 0);
        assert ItemsOf(ps) == [ps[0].item];
      } else {
        SplitPieces(ps[1..]);
        CommaSplits(text, JoinWith(PieceTexts(ps[1..]), ","));
      }
    }
  }

  // ---- the parser on struct text -----------------------------------------------------------------

  lemma {:induction false} AngledParts(keyword: string, inner: string, tail: string)
    requires Lower(keyword) == "struct" && TailOk(tail)
    ensures var text := Angled(keyword, inner, tail);
      && IsStructText(text) && Trimmed(text)
      && |text| == |OPEN| + |inner| + 1 + |tail|
      && text[|OPEN|..|OPEN| + |inner|] == inner
      && text[|OPEN| + |inner|] == '>'
      && text[|OPEN| + |inner| + 1..] == tail
  {
    var text := Angled(keyword, inner, tail);
    KeywordIsQuiet(keyword);
    AngledEnds(keyword, inner, tail);
    assert text == keyword + "<" + (inner + ">" + tail);
    Opens(keyword, inner + ">" + tail);
  }

  /** The closing bracket that is found is the one after balanced text. */
  lemma {:induction false} ClosesAfter(text: string, inner: string)
    requires |text| > |OPEN| + |inner| && text[|OPEN|..|OPEN| + |inner|] == inner && text[|OPEN| + |inner|] == '>'
    requires Scan(inner, 0, 0, true) == Some((0, 0))
    ensures Close(text, |OPEN|, 1, 0) == (|OPEN| + |inner| + 1, 0)
  {
    var j := |OPEN| + |inner|;
    CloseOver(text, |OPEN|, j, 0, 0);
    assert Close(text, j, 1, 0) == Close(text, j + 1, 0, 0);
  }

  /** Whatever the case of the keyword and the white space around the text and the items, struct
      text parses to its items. */
  lemma {:induction false} StructTextParses(before: string, keyword: string, ps: seq<Piece>, tail: string,
      after: string)
    requires Spaces(before) && Spaces(after) && Lower(keyword) == "struct" && PiecesOk(ps) && TailOk(tail)
    ensures var text := Angled(keyword, JoinWith(PieceTexts(ps), ","), tail);
      ParseStructFields(before + text + after) == Some(ToFields(ItemsOf(ps)))
  {
    var inner := JoinWith(PieceTexts(ps), ",");
    var text := Angled(keyword, inner, tail);
    SplitPieces(ps);
    AngledParts(keyword, inner, tail);
    ClosesAfter(text, inner);
    StripPadded(before, text, after);
    ParsesStripped(before + text + after, text, inner, tail, ItemsOf(ps));
  }

  lemma {:induction false} ParsesStripped(raw: string, text: string, inner: string, tail: string, items: seq<string>)
    requires Strip(raw) == text && IsStructText(text) && |text| == |OPEN| + |inner| + 1 + |tail|
    requires text[|OPEN|..|OPEN| + |inner|] == inner && text[|OPEN| + |inner| + 1..] == tail && TailOk(tail)
    requires Close(text, |OPEN|, 1, 0) == (|OPEN| + |inner| + 1, 0)
    requires SplitTop(inner, 0, 0, "") == Some(items)
    ensures ParseStructFields(raw) == Some(ToFields(items))
  {
    if tail != "" { assert text[|OPEN| + |inner| + 1] == tail[0]; }
  }

  lemma {:induction false} NeverCloses(text: string, inner: string)
    requires |text| == |OPEN| + |inner| && text[|OPEN|..] == inner && IsStructText(text) && Strip(text) == text
    requires Scan(inner, 0, 0, true) == Some((0, 0))
    ensures ParseStructFields(text).None?
  {
    assert text[|OPEN|..|text|] == inner;
    CloseOver(text, |OPEN|, |text|, 0, 0);
  }

  /** Struct text that never closes is no struct. */
  lemma {:induction false} UnclosedIsNone(keyword: string, inner: string)
    requires Lower(keyword) == "struct" && Scan(inner, 0, 0, true) == Some((0, 0))
    requires inner == "" || !IsSpace(inner[|inner| - 1])
    ensures ParseStructFields(keyword + "<" + inner).None?
  {
    var text := keyword + "<" + inner;
    KeywordIsQuiet(keyword);
    Opens(keyword, inner);
    assert text[|text| - 1] == if inner == "" then '<' else inner[|inner| - 1];
    StripWhole(text);
    NeverCloses(text, inner);
  }

  /** Neither is struct text that goes on right behind its closing bracket. */
  lemma {:induction false} TrailingIsNone(keyword: string, inner: string, rest: string)
    requires Lower(keyword) == "struct" && Scan(inner, 0, 0, true) == Some((0, 0))
    requires rest != "" && Trimmed(rest)
    ensures ParseStructFields(Angled(keyword, inner, rest)).None?
  {
    var text, j := Angled(keyword, inner, rest), |OPEN| + |inner|;
    KeywordIsQuiet(keyword);
    assert text == keyword + "<" + (inner + ">" + rest);
    Opens(keyword, inner + ">" + rest);
    assert text[|OPEN|..j] == inner && text[j] == '>' && text[j + 1] == rest[0];
    assert text[0] == keyword[0] && text[|text| - 1] == rest[|rest| - 1];
    StripWhole(text);
    ClosesAfter(text, inner);
  }

  /** How many closing angle brackets of s stand outside, and how many inside, of parentheses. */
  function Closers(s: string, paren: int, inside: bool): nat {
    if s == "" then 0
    else
      var here := if s[0] == '>' && (paren != 0) == inside then 1 else 0;
      var next := if s[0] == '(' then paren + 1 else if s[0] == ')' then paren - 1 else paren;
      here + Closers(s[1..], next, inside)
  }

  function Openers(s: string): nat {
    if s == "" then 0 else (if s[0] == '<' then 1 else 0) + Openers(s[1..])
  }

  /** The search for the closing bracket passes over those inside parentheses. */
  lemma {:induction false} CloseCounts(s: string, i: nat, angle: int, paren: int)
    requires i <= |s|
    ensures var (e, left) := Close(s, i, angle, paren);
      left == angle + Openers(s[i..e]) - Closers(s[i..e], paren, false)
    decreases |s| - i
  {
    if i < |s| && angle > 0 {
      var c := s[i];
      var angle' := if c == '<' then angle + 1 else if c == '>' && paren == 0 then angle - 1 else angle;
      var paren' := if c == '(' then paren + 1 else if c == ')' then paren - 1 else paren;
      CloseCounts(s, i + 1, angle', paren');
      var e := Close(s, i + 1, angle', paren').0;
      assert s[i..e][0] == c && s[i..e][1..] == s[i + 1..e];
    } else {
      assert s[i..i] == "";
    }
  }

  /** The split at commas counts all of them. */
  lemma {:induction false} SplitCounts(s: string, angle: int, paren: int, current: string)
    requires SplitTop(s, angle, paren, current).Some?
    ensures angle + Openers(s) == Closers(s, paren, false) + Closers(s, paren, true)
    decreases |s|
  {
    if s != "" {
      var c := s[0];
      var angle' := if c == '<' then angle + 1 else if c == '>' then angle - 1 else angle;
      var paren' := if c == '(' then paren + 1 else if c == ')' then paren - 1 else paren;
      if c == ',' && angle == 0 && paren == 0 {
        SplitCounts(s[1..], 0, 0, "");
      } else {
        SplitCounts(s[1..], angle', paren', current + [c]);
      }
    }
  }

  lemma {:induction false} CountsAppend(s: string, paren: int, c: char, inside: bool)
    requires c == '>'
    ensures Openers(s + [c]) == Openers(s)
    ensures Closers(s + [c], paren, inside) >= Closers(s, paren, inside)
    ensures Closers(s + [c], paren, false) <= Closers(s, paren, false) + 1
    decreases |s|
  {
    if s == "" {
      assert s + [c] == [c] && [c][1..] == "";
    } else {
      assert (s + [c])[1..] == s[1..] + [c];
      CountsAppend(s[1..], if s[0] == '(' then paren + 1 else if s[0] == ')' then paren - 1 else paren, c, inside);
    }
  }

  /** So text with a closing angle bracket inside parentheses is no struct: the two scans disagree. */
  lemma HiddenBracketIsNone(dataType: string, i: nat)
    requires var s := Strip(dataType);
      |OPEN| < i <= |s| && Close(s, |OPEN|, 1, 0) == (i, 0) && Closers(s[|OPEN|..i - 1], 0, true) > 0
    ensures ParseStructFields(dataType).None?
  {
    var s := Strip(dataType);
    var inner := s[|OPEN|..i - 1];
    CloseCounts(s, |OPEN|, 1, 0);
    assert s[|OPEN|..i] == inner + [s[i - 1]];
    LastIsBracket(s, |OPEN|, 1, 0);
    CountsAppend(inner, 0, s[i - 1], false);
    if SplitTop(inner, 0, 0, "").Some? { SplitCounts(inner, 0, 0, ""); }
  }

  lemma {:induction false} LastIsBracket(s: string, i: nat, angle: int, paren: int)
    requires i <= |s| && angle > 0 && Close(s, i, angle, paren).1 == 0
    ensures var e := Close(s, i, angle, paren).0; e > i && s[e - 1] == '>'
    decreases |s| - i
  {
    if i < |s| {
      var c := s[i];
      var angle' := if c == '<' then angle + 1 else if c == '>' && paren == 0 then angle - 1 else angle;
      var paren' := if c == '(' then paren + 1 else if c == ')' then paren - 1 else paren;
      if angle' > 0 { LastIsBracket(s, i + 1, angle', paren'); }
    }
  }

  /** How much deeper in brackets of one kind the end of s is than its start. */
  function Depth(s: string, open: char, close: char): int {
    if s == "" then 0
    else (if s[0] == open then 1 else if s[0] == close then -1 else 0) + Depth(s[1..], open, close)
  }

  predicate Above(s: string, k: nat, angle: int, paren: int)
    requires k <= |s|
  {
    0 <= angle + Depth(s[..k], '<', '>') && 0 <= paren + Depth(s[..k], '(', ')')
  }

  /** Neither kind of bracket closes more often than it opened, and in the end as often. */
  predicate Balances(s: string, angle: int, paren: int) {
    && (forall k :: 0 <= k <= |s| ==> Above(s, k, angle, paren))
    && angle + Depth(s, '<', '>') == 0 && paren + Depth(s, '(', ')') == 0
  }

  lemma {:induction false} DepthHead(s: string, k: nat, open: char, close: char)
    requires 0 < k <= |s|
    ensures Depth(s[..k], open, close) == Depth([s[0]], open, close) + Depth(s[1..][..k - 1], open, close)
  {
    assert s[..k][0] == s[0] && s[..k][1..] == s[1..][..k - 1];
    assert [s[0]][1..] == "";
  }

  lemma BalancesHead(s: string, angle: int, paren: int)
    requires s != ""
    ensures Balances(s, angle, paren) <==>
      0 <= angle && 0 <= paren && Balances(s[1..], angle + Depth([s[0]], '<', '>'), paren + Depth([s[0]], '(', ')'))
  {
    var angle', paren' := angle + Depth([s[0]], '<', '>'), paren + Depth([s[0]], '(', ')');
    assert s[..0] == "";
    forall k | 0 < k <= |s| ensures Above(s, k, angle, paren) <==> Above(s[1..], k - 1, angle', paren') {
      DepthHead(s, k, '<', '>');
      DepthHead(s, k, '(', ')');
    }
    assert s[..|s|] == s && s[1..][..|s| - 1] == s[1..];
    DepthHead(s, |s|, '<', '>');
    DepthHead(s, |s|, '(', ')');
    if Balances(s, angle, paren) {
      assert Above(s, 0, angle, paren);
      forall k | 0 <= k <= |s[1..]| ensures Above(s[1..], k, angle', paren') { assert Above(s, k + 1, angle, paren); }
    }
    if 0 <= angle && 0 <= paren && Balances(s[1..], angle', paren') {
      forall k | 0 <= k <= |s| ensures Above(s, k, angle, paren) {
        if k > 0 { assert Above(s[1..], k - 1, angle', paren'); }
      }
    }
  }

  /** The split at commas succeeds exactly on text whose brackets balance, each kind for itself. */
  lemma {:induction false} SplitExactly(s: string, angle: nat, paren: nat, current: string)
    ensures SplitTop(s, angle, paren, current).Some? <==> Balances(s, angle, paren)
    decreases |s|
  {
    if s == "" {
      assert s[..0] == "";
      assert Above(s, 0, angle, paren);
    } else {
      var c := s[0];
      BalancesHead(s, angle, paren);
      assert [c][1..] == "" && [c][0] == c;
      if c == '<' { SplitExactly(s[1..], angle + 1, paren, current + [c]); }
      else if c == '>' {
        if angle == 0 { Below(s[1..], -1, paren); } else { SplitExactly(s[1..], angle - 1, paren, current + [c]); }
      } else if c == '(' { SplitExactly(s[1..], angle, paren + 1, current + [c]); }
      else if c == ')' {
        if paren == 0 { Below(s[1..], angle, -1); } else { SplitExactly(s[1..], angle, paren - 1, current + [c]); }
      } else if c == ',' && angle == 0 && paren == 0 { SplitExactly(s[1..], 0, 0, ""); }
      else { SplitExactly(s[1..], angle, paren, current + [c]); }
    }
  }

  lemma Below(s: string, angle: int, paren: int)
    requires angle < 0 || paren < 0
    ensures !Balances(s, angle, paren)
  {
    assert s[..0] == "";
    assert !Above(s, 0, angle, paren);
  }

  // ---- declared types ----------------------------------------------------------------------------

  function PieceOf(f: DeclaredField): Piece { Piece(f.lead, f.name + f.gap + TypeText(f.of), f.trail) }

  function PiecesOfFields(fields: seq<DeclaredField>): (r: seq<Piece>)
    ensures |r| == |fields|
  {
    if fields == [] then [] else [PieceOf(fields[0])] + PiecesOfFields(fields[1..])
  }

  function FieldDefs(fields: seq<DeclaredField>): (r: seq<FieldDef>)
    ensures |r| == |fields|
  {
    if fields == [] then [] else [FieldDef(fields[0].name, TypeText(fields[0].of))] + FieldDefs(fields[1..])
  }

  lemma {:induction false} FieldsAsPieces(fields: seq<DeclaredField>)
    ensures FieldTexts(fields) == PieceTexts(PiecesOfFields(fields))
  {
    if fields != [] {
      FieldsAsPieces(fields[1..]);
      assert PiecesOfFields(fields)[1..] == PiecesOfFields(fields[1..]);
    }
  }

  lemma {:induction false} PieceAt(fields: seq<DeclaredField>, k: nat)
    requires k < |fields|
    ensures PiecesOfFields(fields)[k] == PieceOf(fields[k])
    ensures ItemsOf(PiecesOfFields(fields))[k] == fields[k].name + fields[k].gap + TypeText(fields[k].of)
    ensures FieldDefs(fields)[k] == FieldDef(fields[k].name, TypeText(fields[k].of))
  {
    assert PiecesOfFields(fields)[1..] == PiecesOfFields(fields[1..]);
    if k > 0 { PieceAt(fields[1..], k - 1); }
  }

  lemma FieldIsItem(name: string, gap: string, text: string)
    requires NameOk(name) && Spaces(gap) && gap != "" && Item(text)
    ensures Item(name + gap + text)
    ensures PieceIs(SplitFirst, name + gap + text, FieldDef(name, text))
  {
    var item := name + gap + text;
    assert item[0] == name[0] && item[|item| - 1] == text[|text| - 1];
    ScanQuiet(name, 0, 0, false);
    SpacesAreNeat(gap);
    NeatAppend(name, gap);
    NeatAppend(name + gap, text);
    SplitFirstTwo(name, gap, text);
  }

  lemma {:induction false} DeclaredIsItem(d: Declared)
    requires WellFormed(d)
    ensures Item(TypeText(d))
    decreases d
  {
    if d.Struct? {
      FieldsArePieces(d.fields);
      SplitPieces(PiecesOfFields(d.fields));
      FieldsAsPieces(d.fields);
      KeywordIsQuiet(d.keyword);
      var inner := JoinWith(FieldTexts(d.fields), ",");
      NeatAngled(d.keyword, inner, d.tail);
      AngledEnds(d.keyword, inner, d.tail);
    }
  }

  lemma {:induction false} FieldsArePieces(fields: seq<DeclaredField>)
    requires FieldsOk(fields)
    ensures PiecesOk(PiecesOfFields(fields))
    decreases fields
  {
    forall k | 0 <= k < |fields| ensures PieceOk(PiecesOfFields(fields)[k]) {
      PieceAt(fields, k);
      DeclaredIsItem(fields[k].of);
      FieldIsItem(fields[k].name, fields[k].gap, TypeText(fields[k].of));
    }
  }

  lemma {:induction false} ItemsAreDefs(fields: seq<DeclaredField>)
    requires FieldsOk(fields)
    ensures ToFields(ItemsOf(PiecesOfFields(fields))) == FieldDefs(fields)
  {
    var items := ItemsOf(PiecesOfFields(fields));
    forall k | 0 <= k < |fields| ensures PieceIs(SplitFirst, items[k], FieldDefs(fields)[k]) {
      PieceAt(fields, k);
      DeclaredIsItem(fields[k].of);
      FieldIsItem(fields[k].name, fields[k].gap, TypeText(fields[k].of));
    }
    ToFieldsEach(SplitFirst, items, FieldDefs(fields));
  }

  lemma {:induction false} StructFieldsOf(before: string, d: Declared, after: string)
    requires Spaces(before) && Spaces(after) && WellFormed(d) && d.Struct?
    ensures ParseStructFields(before + TypeText(d) + after) == Some(FieldDefs(d.fields))
  {
    FieldsArePieces(d.fields);
    FieldsAsPieces(d.fields);
    StructTextParses(before, d.keyword, PiecesOfFields(d.fields), d.tail, after);
    ItemsAreDefs(d.fields);
  }

  /** Parsing a declared type gives its fields in the declared order, at every depth. */
  lemma {:induction false} DeclaredParses(d: Declared)
    requires WellFormed(d)
    ensures ParseTree(TypeText(d)) == TreeOf(d)
    decreases d, 1
  {
    match d
    case Scalar(text) =>
      StripWhole(text);
      ScalarIsNoStruct(text);
    case Struct(_, fields, _) =>
      var text := TypeText(d);
      StructFieldsOf("", d, "");
      assert "" + text + "" == text;
      DeclaredFieldsParse(fields, FieldDefs(fields), |text|);
  }

  lemma {:induction false} DeclaredFieldsParse(fields: seq<DeclaredField>, defs: seq<FieldDef>, bound: nat)
    requires FieldsOk(fields) && defs == FieldDefs(fields) && Shorter(defs, bound)
    ensures ParseTrees(defs, bound) == TreesOf(fields)
    decreases fields, 0
  {
    if fields != [] {
      DeclaredParses(fields[0].of);
      assert defs[1..] == FieldDefs(fields[1..]);
      DeclaredFieldsParse(fields[1..], defs[1..], bound);
    }
  }

  /** White space around a declared struct changes nothing. */
  lemma {:induction false} PaddedParses(before: string, d: Declared, after: string)
    requires Spaces(before) && Spaces(after) && WellFormed(d) && d.Struct?
    ensures ParseTree(before + TypeText(d) + after) == TreeOf(d)
  {
    StructFieldsOf(before, d, after);
    DeclaredFieldsParse(d.fields, FieldDefs(d.fields), |before + TypeText(d) + after|);
  }
}
