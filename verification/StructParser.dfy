// `_parse_struct_fields`: the bracket-tracking scanner of STRUCT type strings.
module StructParser {
  import opened Common
  import opened PyText

  datatype FieldDef = FieldDef(name: string, dataType: string)

  const OPEN := "struct<"

  /** Where the scan for the closing bracket stops, and the depth it stops at. */
  function Close(s: string, i: nat, angle: int, paren: int): (r: (nat, int))
    requires i <= |s|
    ensures i <= r.0 <= |s|
    decreases |s| - i
  {
    if i < |s| && angle > 0 then
      var c := s[i];
      if c == '<' then Close(s, i + 1, angle + 1, paren)
      else if c == '>' && paren == 0 then Close(s, i + 1, angle - 1, paren)
      else if c == '(' then Close(s, i + 1, angle, paren + 1)
      else if c == ')' then Close(s, i + 1, angle, paren - 1)
      else Close(s, i + 1, angle, paren)
    else (i, angle)
  }

  /** The pieces between top-level commas, each stripped; None if brackets do not balance. */
  function SplitTop(s: string, angle: int, paren: int, current: string): (r: Option<seq<string>>)
    ensures r.Some? ==> forall f :: f in r.value ==> |f| <= |current| + |s|
    decreases |s|
  {
    if s == "" then
      if angle != 0 || paren != 0 then None
      else if current == "" then Some([]) else Some([Strip(current)])
    else
      var c := s[0];
      if c == '<' then SplitTop(s[1..], angle + 1, paren, current + [c])
      else if c == '>' then if angle - 1 < 0 then None else SplitTop(s[1..], angle - 1, paren, current + [c])
      else if c == '(' then SplitTop(s[1..], angle, paren + 1, current + [c])
      else if c == ')' then if paren - 1 < 0 then None else SplitTop(s[1..], angle, paren - 1, current + [c])
      else if c == ',' && angle == 0 && paren == 0 then
        Prepend([Strip(current)], SplitTop(s[1..], 0, 0, ""))
      else SplitTop(s[1..], angle, paren, current + [c])
  }

  function ToField(parts: seq<string>): FieldDef
    requires parts != []
  {
    FieldDef(parts[0], if |parts| >= 2 then parts[1] else "")
  }

  /** Name and type of each piece as `split` divides it; blank pieces are dropped. */
  function ToFieldsBy(split: string -> seq<string>, pieces: seq<string>): (r: seq<FieldDef>) {
    if pieces == [] then []
    else
      var parts := split(pieces[|pieces| - 1]);
      ToFieldsBy(split, pieces[..|pieces| - 1]) + if parts == [] then [] else [ToField(parts)]
  }

  function ToFields(pieces: seq<string>): seq<FieldDef> { ToFieldsBy(SplitFirst, pieces) }

  predicate Shorter(fields: seq<FieldDef>, bound: int) {
    forall f :: f in fields ==> |f.dataType| < bound
  }

  lemma {:induction false} FieldsAreShorter(pieces: seq<string>, bound: int)
    requires bound > 0 && forall p :: p in pieces ==> |p| < bound
    ensures Shorter(ToFields(pieces), bound)
  {
    if pieces != [] {
      FieldsAreShorter(pieces[..|pieces| - 1], bound);
      var parts := SplitFirst(pieces[|pieces| - 1]);
      assert forall f :: f in ToFields(pieces) ==> f in ToFields(pieces[..|pieces| - 1]) || (parts != [] && f == ToField(parts));
    }
  }

  /** The fields of a STRUCT type, or None for anything else or malformed. */
  function ParseStructFields(dataType: string): (r: Option<seq<FieldDef>>)
    ensures r.Some? ==> Shorter(r.value, |dataType|)
  {
    var stripped := Strip(dataType);
    if !IsStructText(stripped) then None
    else
      var (i, angle) := Close(stripped, |OPEN|, 1, 0);
      if angle != 0 then None
      else if i < |stripped| && !IsSpace(stripped[i]) then None
      else
        CloseMoves(stripped, |OPEN|, 1, 0);
        var pieces := SplitTop(stripped[|OPEN|..i - 1], 0, 0, "");
        if pieces.None? then None
        else
          FieldsAreShorter(pieces.value, |dataType|);
          Some(ToFields(pieces.value))
  }

  predicate IsStructText(s: string) { |s| >= |OPEN| && Lower(s[..|OPEN|]) == OPEN }

  lemma {:induction false} CloseMoves(s: string, i: nat, angle: int, paren: int)
    requires i <= |s| && angle > 0 && Close(s, i, angle, paren).1 == 0
    ensures Close(s, i, angle, paren).0 > i
  {}

  /** The loops of the source compute the function above. */
  method ParseStructFieldsLoop(dataType: string) returns (r: Option<seq<FieldDef>>)
    ensures r == ParseStructFields(dataType)
  {
    var stripped := Strip(dataType);
    if !IsStructText(stripped) { return None; }
    var i, angle := CloseLoop(stripped);
    if angle != 0 { return None; }
    if i < |stripped| && !IsSpace(stripped[i]) { return None; }
    CloseMoves(stripped, |OPEN|, 1, 0);
    var pieces := SplitLoop(stripped[|OPEN|..i - 1]);
    if pieces.None? { return None; }
    var fields := FieldsLoop(pieces.value);
    return Some(fields);
  }

  method CloseLoop(stripped: string) returns (i: nat, angle: int)
    requires |OPEN| <= |stripped|
    ensures (i, angle) == Close(stripped, |OPEN|, 1, 0)
  {
    var paren := 0;
    angle, i := 1, |OPEN|;
    while i < |stripped| && angle > 0
      invariant |OPEN| <= i <= |stripped|
      invariant Close(stripped, i, angle, paren) == Close(stripped, |OPEN|, 1, 0)
    {
      var c := stripped[i];
      if c == '<' { angle := angle + 1; }
      else if c == '>' && paren == 0 { angle := angle - 1; }
      else if c == '(' { paren := paren + 1; }
      else if c == ')' { paren := paren - 1; }
      i := i + 1;
    }
  }

  method FieldsLoop(pieces: seq<string>) returns (fields: seq<FieldDef>)
    ensures fields == ToFields(pieces)
  {
    fields := [];
    for k := 0 to |pieces|
      invariant fields == ToFields(pieces[..k])
    {
      var parts := SplitFirst(pieces[k]);
      assert pieces[..k + 1][..k] == pieces[..k];
      if parts != [] { fields := fields + [ToField(parts)]; }
    }
    assert pieces[..|pieces|] == pieces;
  }

  method SplitLoop(inner: string) returns (r: Option<seq<string>>)
    ensures r == SplitTop(inner, 0, 0, "")
  {
    var fields: seq<string> := [];
    var angle, paren, current := 0, 0, "";
    PrependNil(SplitTop(inner, 0, 0, ""));
    assert inner[0..] == inner;
    for k := 0 to |inner|
      invariant SplitTop(inner, 0, 0, "") == Prepend(fields, SplitTop(inner[k..], angle, paren, current))
    {
      var c := inner[k];
      assert inner[k..][0] == c && inner[k..][1..] == inner[k + 1..];
      if c == '<' { angle := angle + 1; current := current + [c]; }
      else if c == '>' {
        angle := angle - 1;
        if angle < 0 { return None; }
        current := current + [c];
      } else if c == '(' { paren := paren + 1; current := current + [c]; }
      else if c == ')' {
        paren := paren - 1;
        if paren < 0 { return None; }
        current := current + [c];
      } else if c == ',' && angle == 0 && paren == 0 {
        PrependStep(fields, Strip(current), SplitTop(inner[k + 1..], 0, 0, ""));
        fields := fields + [Strip(current)];
        current := "";
      } else { current := current + [c]; }
    }
    assert inner[|inner|..] == "" && fields + [] == fields;
    if angle != 0 || paren != 0 { return None; }
    if current != "" { fields := fields + [Strip(current)]; }
    return Some(fields);
  }

  function Prepend(fields: seq<string>, rest: Option<seq<string>>): Option<seq<string>> {
    if rest.None? then None else Some(fields + rest.value)
  }

  lemma PrependNil(rest: Option<seq<string>>)
    ensures Prepend([], rest) == rest
  {
    if rest.Some? { assert [] + rest.value == rest.value; }
  }

  lemma PrependStep(fields: seq<string>, x: string, rest: Option<seq<string>>)
    ensures Prepend(fields, Prepend([x], rest)) == Prepend(fields + [x], rest)
  {
    if rest.Some? { assert fields + ([x] + rest.value) == fields + [x] + rest.value; }
  }

  // ---- nested types as trees --------------------------------------------------

  datatype Tree = Leaf(dataType: string) | Node(fields: seq<Named>)

  datatype Named = Named(name: string, tree: Tree)

  /** Parsing the fields' types in turn, as the select builder does. */
  function ParseTree(dataType: string): Tree
    decreases |dataType|, 1, 0
  {
    var fields := ParseStructFields(dataType);
    if fields.None? then Leaf(dataType) else Node(ParseTrees(fields.value, |dataType|))
  }

  function ParseTrees(fields: seq<FieldDef>, bound: nat): (r: seq<Named>)
    requires Shorter(fields, bound)
    ensures |r| == |fields|
    ensures forall k :: 0 <= k < |r| ==> r[k].name == fields[k].name
    decreases bound, 0, |fields|
  {
    if fields == [] then []
    else [Named(fields[0].name, ParseTree(fields[0].dataType))] + ParseTrees(fields[1..], bound)
  }
}
