// The few Python string operations the type parser uses.
module PyText {
  predicate IsSpace(c: char) {
    var n := c as int;
    9 <= n <= 13 || 28 <= n <= 32 || n == 133 || n == 160 || n == 5760 || 8192 <= n <= 8202
    || n == 8232 || n == 8233 || n == 8239 || n == 8287 || n == 12288
  }

  /** Tabs, line ends, blanks and the no-break space are white space; letters, digits and the
      characters that types are written with are not. */
  lemma SpacesAndOthers(c: char)
    ensures c in " \t\n\r\U{B}\U{C}\U{A0}" ==> IsSpace(c)
    ensures '!' <= c <= '~' ==> !IsSpace(c)
  {}

  predicate Trimmed(s: string) {
    s == "" || (!IsSpace(s[0]) && !IsSpace(s[|s| - 1]))
  }

  function LStrip(s: string): (r: string)
    ensures |r| <= |s| && (r == "" || !IsSpace(r[0]))
  {
    if s != "" && IsSpace(s[0]) then LStrip(s[1..]) else s
  }

  function RStrip(s: string): (r: string)
    ensures |r| <= |s|
  {
    if s != "" && IsSpace(s[|s| - 1]) then RStrip(s[..|s| - 1]) else s
  }

  function Strip(s: string): (r: string)
    ensures |r| <= |s|
  {
    RStrip(LStrip(s))
  }

  predicate Spaces(s: string) { forall i :: 0 <= i < |s| ==> IsSpace(s[i]) }

  lemma {:induction false} LStripSpaces(w: string, s: string)
    requires Spaces(w)
    ensures LStrip(w + s) == LStrip(s)
  {
    if w == "" {
      assert w + s == s;
    } else {
      assert (w + s)[1..] == w[1..] + s;
      LStripSpaces(w[1..], s);
    }
  }

  lemma {:induction false} RStripSpaces(s: string, w: string)
    requires Spaces(w)
    ensures RStrip(s + w) == RStrip(s)
  {
    if w == "" {
      assert s + w == s;
    } else {
      assert (s + w)[..|s + w| - 1] == s + w[..|w| - 1];
      RStripSpaces(s, w[..|w| - 1]);
    }
  }

  /** Stripping removes surrounding white space and nothing else. */
  lemma StripPadded(w: string, s: string, w': string)
    requires Spaces(w) && Spaces(w') && Trimmed(s) && s != ""
    ensures Strip(w + s + w') == s
  {
    assert w + s + w' == w + (s + w');
    LStripSpaces(w, s + w');
    assert (s + w')[0] == s[0];
    RStripSpaces(s, w');
  }

  /** The text stands in raw with nothing but white space around it. */
  ghost predicate Surrounded(raw: string, text: string) {
    exists before, after :: Spaces(before) && Spaces(after) && raw == before + text + after
  }

  lemma {:induction false} LStripLeaves(s: string) returns (w: string)
    ensures Spaces(w) && s == w + LStrip(s)
  {
    if s != "" && IsSpace(s[0]) {
      var more := LStripLeaves(s[1..]);
      w := [s[0]] + more;
      AnotherSpace(s, more, LStrip(s[1..]));
    } else {
      w := "";
    }
  }

  lemma AnotherSpace(s: string, w: string, rest: string)
    requires s != "" && IsSpace(s[0]) && Spaces(w) && s[1..] == w + rest
    ensures Spaces([s[0]] + w) && s == [s[0]] + w + rest
  {
    assert s == [s[0]] + s[1..];
  }

  lemma AnotherSpaceBehind(s: string, rest: string, w: string)
    requires s != "" && IsSpace(s[|s| - 1]) && Spaces(w) && s[..|s| - 1] == rest + w
    ensures Spaces(w + [s[|s| - 1]]) && s == rest + (w + [s[|s| - 1]])
  {
    assert s == s[..|s| - 1] + [s[|s| - 1]];
  }

  lemma {:induction false} RStripLeaves(s: string) returns (w: string)
    ensures Spaces(w) && s == RStrip(s) + w
    ensures RStrip(s) == "" || (RStrip(s)[0] == s[0] && !IsSpace(RStrip(s)[|RStrip(s)| - 1]))
  {
    if s != "" && IsSpace(s[|s| - 1]) {
      var more := RStripLeaves(s[..|s| - 1]);
      w := more + [s[|s| - 1]];
      AnotherSpaceBehind(s, RStrip(s[..|s| - 1]), more);
    } else {
      w := "";
    }
  }

  /** Stripping gives the one trimmed text that stands in s between white space. */
  lemma StripExactly(s: string, text: string)
    requires text != ""
    ensures Strip(s) == text <==> Trimmed(text) && Surrounded(s, text)
  {
    if Trimmed(text) && Surrounded(s, text) {
      var before, after :| Spaces(before) && Spaces(after) && s == before + text + after;
      StripPadded(before, text, after);
    }
    StripLeaves(s);
  }

  lemma StripLeaves(s: string)
    ensures Surrounded(s, Strip(s)) && Trimmed(Strip(s))
  {
    var before := LStripLeaves(s);
    var after := RStripLeaves(LStrip(s));
    assert s == before + Strip(s) + after;
  }

  /** The length of the first run of non-space characters. */
  function WordLength(s: string): (n: nat)
    ensures n <= |s|
  {
    if s == "" || IsSpace(s[0]) then 0 else 1 + WordLength(s[1..])
  }

  /** `s.split(None, 1)`: no part, the only word, or the first word and the rest. */
  function SplitFirst(s: string): (parts: seq<string>)
    ensures |parts| <= 2
    ensures |parts| == 2 ==> |parts[1]| <= |s|
  {
    var t := LStrip(s);
    if t == "" then []
    else
      var n := WordLength(t);
      var rest := LStrip(t[n..]);
      if rest == "" then [t[..n]] else [t[..n], rest]
  }

  /** `s.split()`. */
  function Words(s: string): seq<string>
    decreases |s|
  {
    var t := LStrip(s);
    if t == "" then [] else [t[..WordLength(t)]] + Words(t[WordLength(t)..])
  }

  predicate Solid(s: string) { s != "" && forall i :: 0 <= i < |s| ==> !IsSpace(s[i]) }

  lemma {:induction false} WordLengthOf(w: string, rest: string)
    requires Solid(w) && (rest == "" || IsSpace(rest[0]))
    ensures WordLength(w + rest) == |w|
  {
    assert (w + rest)[1..] == w[1..] + rest;
    if |w| > 1 {
      WordLengthOf(w[1..], rest);
    } else {
      assert (w + rest)[1..] == rest;
    }
  }

  lemma SplitFirstTwo(name: string, gap: string, rest: string)
    requires Solid(name) && rest != "" && !IsSpace(rest[0]) && Spaces(gap) && gap != ""
    ensures SplitFirst(name + gap + rest) == [name, rest]
  {
    var s := name + gap + rest;
    assert s == name + (gap + rest);
    assert (gap + rest)[0] == gap[0];
    WordLengthOf(name, gap + rest);
    assert s[..|name|] == name && s[|name|..] == gap + rest;
    LStripSpaces(gap, rest);
  }

  lemma SplitFirstOne(name: string)
    requires Solid(name)
    ensures SplitFirst(name) == [name]
  {
    assert name + "" == name;
    WordLengthOf(name, "");
  }

  function LowerChar(c: char): char {
    if 'A' <= c <= 'Z' then ((c as int) + 32) as char else c
  }

  /** `s.lower()` on the ASCII letters, which are all the parser compares with. */
  function Lower(s: string): (r: string)
    ensures |r| == |s|
  {
    if s == "" then "" else [LowerChar(s[0])] + Lower(s[1..])
  }

  function UpperChar(c: char): char {
    if 'a' <= c <= 'z' then ((c as int) - 32) as char else c
  }

  /** `s.upper()`, likewise. */
  function Upper(s: string): (r: string)
    ensures |r| == |s|
  {
    if s == "" then "" else [UpperChar(s[0])] + Upper(s[1..])
  }

  const CAPITALS := "ABCDEFGHIJKLMNOPQRSTUVWXYZ"
  const SMALLS := "abcdefghijklmnopqrstuvwxyz"

  /** The two alphabets are turned into each other letter by letter. */
  lemma LetterPairs(k: nat)
    requires k < 26
    ensures LowerChar(CAPITALS[k]) == SMALLS[k] == LowerChar(SMALLS[k])
    ensures UpperChar(SMALLS[k]) == CAPITALS[k] == UpperChar(CAPITALS[k])
  {
    LetterCodes(k);
  }

  lemma LetterCodes(k: nat)
    requires k < 26
    ensures CAPITALS[k] as int == 'A' as int + k && SMALLS[k] as int == 'a' as int + k
  {}

  /** Nothing else is changed. */
  lemma OtherChars(c: char)
    ensures c !in CAPITALS ==> LowerChar(c) == c
    ensures c !in SMALLS ==> UpperChar(c) == c
  {
    if 'A' <= c <= 'Z' { assert CAPITALS[c as int - 'A' as int] == c; }
    if 'a' <= c <= 'z' { assert SMALLS[c as int - 'a' as int] == c; }
  }

  lemma {:induction false} LowerAt(s: string, k: nat)
    requires k < |s|
    ensures Lower(s)[k] == LowerChar(s[k])
  {
    if k > 0 { LowerAt(s[1..], k - 1); }
  }

  lemma {:induction false} LowerAppend(s: string, t: string)
    ensures Lower(s + t) == Lower(s) + Lower(t)
  {
    if s == "" {
      assert s + t == t;
    } else {
      assert (s + t)[1..] == s[1..] + t;
      LowerAppend(s[1..], t);
    }
  }

  lemma {:induction false} UpperAt(s: string, k: nat)
    requires k < |s|
    ensures Upper(s)[k] == UpperChar(s[k])
  {
    if k > 0 { UpperAt(s[1..], k - 1); }
  }

  lemma {:induction false} UpperAppend(s: string, t: string)
    ensures Upper(s + t) == Upper(s) + Upper(t)
  {
    if s == "" {
      assert s + t == t;
    } else {
      assert (s + t)[1..] == s[1..] + t;
      UpperAppend(s[1..], t);
    }
  }

  lemma {:induction false} FirstWord(word: string, rest: string)
    requires Solid(word) && (rest == "" || IsSpace(rest[0]))
    ensures Words(word + rest) == [word] + Words(rest)
  {
    var s := word + rest;
    WordLengthOf(word, rest);
    assert s[0] == word[0];
    assert s[..|word|] == word && s[|word|..] == rest;
  }

  lemma {:induction false} WordsAfterSpace(s: string)
    ensures Words(" " + s) == Words(s)
  {
    assert (" " + s)[1..] == s;
  }

  /** Words separated by single spaces are split into those words. */
  lemma {:induction false} WordsOfJoin(words: seq<string>)
    requires forall k :: 0 <= k < |words| ==> Solid(words[k])
    ensures Words(JoinWith(words, " ")) == words
  {
    if |words| == 1 {
      FirstWord(words[0], "");
      assert words[0] + "" == words[0];
      assert words == [words[0]];
    } else if words != [] {
      var more := JoinWith(words[1..], " ");
      WordsOfJoin(words[1..]);
      WordsAfterSpace(more);
      FirstWord(words[0], " " + more);
      assert words[0] + " " + more == words[0] + (" " + more);
      assert words == [words[0]] + words[1..];
    }
  }

  function JoinWith(parts: seq<string>, sep: string): string {
    if parts == [] then ""
    else if |parts| == 1 then parts[0]
    else parts[0] + sep + JoinWith(parts[1..], sep)
  }
}
