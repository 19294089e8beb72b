// Names joined and split at dots: nested columns, schema paths and relation keys.
module DottedPaths {
  type Path = seq<string>

  predicate Free(c: char, s: string) { forall i :: 0 <= i < |s| ==> s[i] != c }

  function Join(parts: Path): string {
    if parts == [] then ""
    else if |parts| == 1 then parts[0]
    else parts[0] + ['.'] + Join(parts[1..])
  }

  /** Python's `s.split(".")`. */
  function Split(s: string): (parts: Path)
    ensures parts != []
  {
    if s == "" then [""]
    else
      var rest := Split(s[1..]);
      if s[0] == '.' then [""] + rest else [[s[0]] + rest[0]] + rest[1..]
  }

  /** Dot-free components, at least one. */
  predicate Proper(parts: Path) {
    parts != [] && forall i :: 0 <= i < |parts| ==> Free('.', parts[i])
  }

  lemma {:induction false} SplitHead(x: string, rest: string)
    requires Free('.', x)
    ensures Split(x + ['.'] + rest) == [x] + Split(rest)
  {
    var s := x + ['.'] + rest;
    if x == "" {
      assert s[1..] == rest;
    } else {
      SplitHead(x[1..], rest);
      assert s[1..] == x[1..] + ['.'] + rest;
      assert [s[0]] + x[1..] == x;
    }
  }

  lemma {:induction false} SplitWhole(x: string)
    requires Free('.', x)
    ensures Split(x) == [x]
  {
    if x != "" {
      SplitWhole(x[1..]);
      assert [x[0]] + x[1..] == x;
    }
  }

  /** Splitting undoes joining, so dotted text and component lists are the same thing. */
  lemma {:induction false} SplitJoin(parts: Path)
    requires Proper(parts)
    ensures Split(Join(parts)) == parts
  {
    if |parts| == 1 {
      SplitWhole(parts[0]);
    } else {
      SplitJoin(parts[1..]);
      SplitHead(parts[0], Join(parts[1..]));
    }
  }

  /** The recursion on `".".join(parts[1:])` goes on with exactly the remaining parts. */
  lemma {:induction false} SplitRest(s: string)
    requires |Split(s)| > 1
    ensures Split(Join(Split(s)[1..])) == Split(s)[1..]
  {
    SplitIsProper(s);
    SplitJoin(Split(s)[1..]);
  }

  lemma {:induction false} SplitIsProper(s: string)
    ensures Proper(Split(s))
  {
    if s != "" { SplitIsProper(s[1..]); }
  }

  /** Joining undoes splitting, so different names have different component lists. */
  lemma {:induction false} JoinSplit(s: string)
    ensures Join(Split(s)) == s
  {
    if s != "" {
      JoinSplit(s[1..]);
      var rest := Split(s[1..]);
      if s[0] == '.' {
        assert ([""] + rest)[1..] == rest;
        assert s == "" + ['.'] + s[1..];
      } else {
        JoinHead([s[0]], rest[0], rest[1..]);
        assert rest == [rest[0]] + rest[1..];
        assert s == [s[0]] + s[1..];
      }
    }
  }

  lemma {:induction false} JoinHead(a: string, b: string, rest: Path)
    ensures Join([a + b] + rest) == a + Join([b] + rest)
  {
    if rest != [] {
      assert ([a + b] + rest)[1..] == rest && ([b] + rest)[1..] == rest;
      assert (a + b) + ['.'] + Join(rest) == a + (b + ['.'] + Join(rest));
    } else {
      assert [a + b] + rest == [a + b] && [b] + rest == [b];
    }
  }

  predicate StartsWith(s: string, prefix: string) {
    |prefix| <= |s| && s[..|prefix|] == prefix
  }

  /** `key.startswith(name + ".")` asks whether the path has more components after its
      first, `name`; `key.split(".", 1)[1]` is then the path of the others. */
  lemma {:induction false} ChildTest(parts: Path, name: string)
    requires Proper(parts) && Free('.', name)
    ensures StartsWith(Join(parts), name + ['.']) <==> |parts| > 1 && parts[0] == name
    ensures |parts| > 1 && parts[0] == name ==> Join(parts)[|name| + 1..] == Join(parts[1..])
  {
    var key := Join(parts);
    SplitJoin(parts);
    if StartsWith(key, name + ['.']) {
      assert key == name + ['.'] + key[|name| + 1..];
      SplitHead(name, key[|name| + 1..]);
    }
    if |parts| > 1 && parts[0] == name {
      assert key == (name + ['.']) + Join(parts[1..]);
    }
  }

  /** `"." not in path` asks for a single component. */
  lemma {:induction false} DotTest(parts: Path)
    requires Proper(parts)
    ensures '.' in Join(parts) <==> |parts| > 1
  {
    if |parts| > 1 {
      assert Join(parts)[|parts[0]|] == '.';
    }
  }
}
