// What the validation of overwrite sets accepts and keeps, on what the user wrote.
module OverwriteSets {
  import opened Common
  import opened Mentions
  import opened PyText
  import opened Timestamps
  import opened PartitionBuckets
  import opened ParameterText
  import opened InsertOverwrite

  // ---- the configuration ---------------------------------------------------------------------

  /** The text is the word in any case, with any white space around it. */
  ghost predicate SpelledAs(text: string, word: string) {
    exists k :: Lower(k) == word && Surrounded(text, k)
  }

  /** The same for words compared in capitals. */
  ghost predicate SpelledInCapitals(text: string, word: string) {
    exists k :: Upper(k) == word && Surrounded(text, k)
  }

  lemma SpacesStay(c: char)
    requires IsSpace(c)
    ensures IsSpace(LowerChar(c)) && IsSpace(UpperChar(c))
  {
    assert !('A' <= c <= 'Z') && !('a' <= c <= 'z');
  }

  lemma {:induction false} LowerKeepsEnds(k: string)
    requires Lower(k) != "" && !IsSpace(Lower(k)[0]) && !IsSpace(Lower(k)[|k| - 1])
    ensures Trimmed(k)
  {
    LowerAt(k, 0);
    LowerAt(k, |k| - 1);
    if IsSpace(k[0]) { SpacesStay(k[0]); }
    if IsSpace(k[|k| - 1]) { SpacesStay(k[|k| - 1]); }
  }

  lemma {:induction false} UpperKeepsEnds(k: string)
    requires Upper(k) != "" && !IsSpace(Upper(k)[0]) && !IsSpace(Upper(k)[|k| - 1])
    ensures Trimmed(k)
  {
    UpperAt(k, 0);
    UpperAt(k, |k| - 1);
    if IsSpace(k[0]) { SpacesStay(k[0]); }
    if IsSpace(k[|k| - 1]) { SpacesStay(k[|k| - 1]); }
  }

  lemma SpelledExactly(text: string, word: string)
    requires word != "" && !IsSpace(word[0]) && !IsSpace(word[|word| - 1])
    ensures Lower(Strip(text)) == word <==> SpelledAs(text, word)
  {
    StripLeaves(text);
    forall k | Lower(k) == word && Surrounded(text, k) ensures Strip(text) == k {
      LowerKeepsEnds(k);
      StripExactly(text, k);
    }
  }

  lemma SpelledInCapitalsExactly(text: string, word: string)
    requires word != "" && !IsSpace(word[0]) && !IsSpace(word[|word| - 1])
    ensures Upper(Strip(text)) == word <==> SpelledInCapitals(text, word)
  {
    StripLeaves(text);
    forall k | Upper(k) == word && Surrounded(text, k) ensures Strip(text) == k {
      UpperKeepsEnds(k);
      StripExactly(text, k);
    }
  }

  function NameOfGranularity(g: Granularity): string {
    match g
    case Hour => "hour"
    case Day => "day"
    case Month => "month"
    case Year => "year"
  }

  /** A granularity is read from its name in any case and padding, and day also from no text. */
  lemma GranularityExactly(text: string, g: Granularity)
    ensures ReadGranularity(text) == Some(g) <==> (text == "" && g == Day) || SpelledAs(text, NameOfGranularity(g))
  {
    if text == "" {
      DefaultWord("day");
      NotEmpty(NameOfGranularity(g));
    } else {
      SpelledExactly(text, NameOfGranularity(g));
    }
  }

  lemma DefaultWord(word: string)
    requires word in {"day", "date"}
    ensures Lower(Strip(word)) == word
  {
    assert Spaces("");
    assert "" + word + "" == word;
    StripPadded("", word, "");
    forall k | 0 <= k < |word| ensures Lower(word)[k] == word[k] { LowerAt(word, k); }
  }

  lemma NotEmpty(word: string)
    requires word != ""
    ensures !SpelledAs("", word)
  {}

  lemma DataTypeExactly(text: string, word: string)
    requires word in {"date", "timestamp", "datetime"}
    ensures ReadDataType(text) == word <==> (text == "" && word == "date") || SpelledAs(text, word)
  {
    if text == "" {
      DefaultWord("date");
      NotEmpty(word);
    } else {
      SpelledExactly(text, word);
    }
  }

  ghost predicate GranularityIs(text: string, g: Granularity) {
    (text == "" && g == Day) || SpelledAs(text, NameOfGranularity(g))
  }

  ghost predicate DataTypeIs(text: string, word: string) {
    (text == "" && word == "date") || SpelledAs(text, word)
  }

  /** A configuration is accepted exactly for a field that is not blank, a non-empty list, and a data
      type and a granularity that go together: all pairs but hours of dates. */
  lemma ConfigExactly(values: Values, field: Option<string>, dataType: string, granularity: string)
    ensures ConfigOk(values, field, dataType, granularity) <==>
      && field.Some? && !Spaces(field.value)
      && values.List? && values.entries != []
      && exists word, g ::
           word in {"date", "timestamp", "datetime"} && DataTypeIs(dataType, word) && GranularityIs(granularity, g)
           && !(word == "date" && g == Hour)
  {
    if field.Some? { BlankExactly(field.value); }
    forall word | word in {"date", "timestamp", "datetime"}
      ensures ReadDataType(dataType) == word <==> DataTypeIs(dataType, word)
    {
      DataTypeExactly(dataType, word);
    }
    forall g ensures ReadGranularity(granularity) == Some(g) <==> GranularityIs(granularity, g) {
      GranularityExactly(granularity, g);
    }
    if ConfigOk(values, field, dataType, granularity) {
      var word, g := ReadDataType(dataType), ReadGranularity(granularity).value;
      assert DataTypeIs(dataType, word) && GranularityIs(granularity, g);
    }
  }

  lemma BlankExactly(s: string)
    ensures Strip(s) == "" <==> Spaces(s)
  {
    if Spaces(s) {
      assert s + "" == s;
      LStripSpaces(s, "");
    }
    StripLeaves(s);
  }

  // ---- parameter types and bare dates ----------------------------------------------------------

  const PARAMETER_TYPES := ["DATE", "STRING", "TIMESTAMP", "DATETIME"]

  /** With a declared type the parameter is accepted exactly for one of the four types, in any case
      and padding; without one, for every date, datetime and string. */
  lemma TypeExactly(name: string, value: Value, types: map<string, string>)
    ensures name in types ==>
      (TypeOk(name, value, types) <==> exists word :: word in PARAMETER_TYPES && SpelledInCapitals(types[name], word))
    ensures name !in types && !value.OtherValue? ==> TypeOk(name, value, types)
    ensures name !in types && value.OtherValue? ==>
      (TypeOk(name, value, types) <==> value.kind.Some? && value.kind.value in PARAMETER_TYPES)
  {
    if name in types {
      var text := types[name];
      forall word | word in PARAMETER_TYPES ensures Upper(Strip(text)) == word <==> SpelledInCapitals(text, word) {
        SpelledInCapitalsExactly(text, word);
      }
      if TypeOk(name, value, types) { assert SpelledInCapitals(text, Upper(Strip(text))); }
    }
  }

  /** A value has no time of day exactly if it is a date or spells one. */
  lemma DateOnlyExactly(value: Value)
    ensures DateOnly(value) <==>
      value.DateValue? || (value.StringValue? && exists w :: Spells(value.text, w) && w.clock.NoClock?)
  {
    if value.StringValue? {
      var text := Strip(value.text);
      if LooksLikeDate(text) {
        var w := StampIsWritten(text);
        SpelledIsStripped(value.text, w);
        WrittenReads(w);
      }
      forall w | Spells(value.text, w) && w.clock.NoClock? ensures LooksLikeDate(text) {
        SpelledIsStripped(value.text, w);
        WrittenReads(w);
      }
    }
  }

  // ---- what is kept ------------------------------------------------------------------------------

  /** Moments share a bucket exactly if they agree down to the granularity. */
  lemma SameBucketExactly(x: Moment, y: Moment, gran: Granularity)
    ensures Truncate(x, gran) == Truncate(y, gran) <==>
      && x.year == y.year && (gran.Year? || x.month == y.month)
      && (gran.Year? || gran.Month? || x.day == y.day) && (!gran.Hour? || x.hour == y.hour)
  {}

  /** What an entry must be: a value under the given name that means a moment, of an accepted type,
      and with a time of day where buckets are hours. */
  ghost predicate Acceptable(entry: Entry, name: string, types: map<string, string>, gran: Granularity) {
    && entry.Mapping? && |entry.items| == 1 && entry.items[0].0 == name
    && (exists at :: Means(entry.items[0].1, at))
    && TypeOk(name, entry.items[0].1, types)
    && !(gran == Hour && DateOnly(entry.items[0].1))
  }

  lemma AcceptableExactly(entry: Entry, name: string, types: map<string, string>, gran: Granularity)
    ensures EntryOk(entry, name, types, gran) <==> Acceptable(entry, name, types, gran)
  {
    if entry.Mapping? && |entry.items| == 1 {
      var value := entry.items[0].1;
      if ParseValue(value).Ok? { ParseMeans(value, ParseValue(value).value); }
      forall at | Means(value, at) ensures ParseValue(value).Ok? { ParseMeans(value, at); }
    }
  }

  ghost predicate AllAcceptable(entries: seq<Entry>, name: string, types: map<string, string>, gran: Granularity) {
    forall k :: 0 <= k < |entries| ==> Acceptable(entries[k], name, types, gran)
  }

  /** A list is accepted exactly if all its entries are acceptable under one name. */
  lemma AcceptedExactly(entries: seq<Entry>, types: map<string, string>, gran: Granularity)
    requires entries != []
    ensures AllOk(entries, types, gran) <==>
      exists name :: AllAcceptable(entries, name, types, gran)
  {
    var first := InsertOverwrite.NameOf(entries[0]);
    forall k | 0 <= k < |entries|
      ensures EntryOk(entries[k], first, types, gran) <==> Acceptable(entries[k], first, types, gran)
    {
      AcceptableExactly(entries[k], first, types, gran);
    }
    if AllOk(entries, types, gran) { assert AllAcceptable(entries, first, types, gran); }
    forall name | AllAcceptable(entries, name, types, gran) ensures AllOk(entries, types, gran) {
      assert Acceptable(entries[0], name, types, gran);
    }
  }

  /** The entry has one key, and its value means this moment. */
  ghost predicate AsksFor(entry: Entry, at: Text) {
    entry.Mapping? && |entry.items| == 1 && Means(entry.items[0].1, at)
  }

  lemma AskedIsMoment(entry: Entry, at: Text)
    requires AsksFor(entry, at)
    ensures IsStamped(entry) && InsertOverwrite.MomentOf(entry) == at && IsMoment(at)
  {
    ParseMeans(entry.items[0].1, at);
  }

  ghost predicate AllAsk(entries: seq<Entry>, moments: seq<Moment>) {
    |moments| == |entries| && forall k :: 0 <= k < |entries| ==> AsksFor(entries[k], moments[k])
  }

  /** An entry is kept exactly if no earlier one asks for a moment in the same bucket. */
  lemma KeptExactlyWhenFirst(entries: seq<Entry>, moments: seq<Moment>, gran: Granularity, k: nat)
    requires AllAsk(entries, moments) && k < |entries|
    ensures k in FirstPositions(KeysOf(entries, gran)) <==>
      forall i :: 0 <= i < k ==> Truncate(moments[i], gran) != Truncate(moments[k], gran)
  {
    var keys := KeysOf(entries, gran);
    forall i | 0 <= i < |entries| ensures IsStamped(entries[i]) && InsertOverwrite.MomentOf(entries[i]) == moments[i] {
      AskedIsMoment(entries[i], moments[i]);
    }
    forall i | 0 <= i < k ensures keys[i] == keys[k] <==> Truncate(moments[i], gran) == Truncate(moments[k], gran) {
      SameKeySameBucket(entries, gran, i, k);
    }
    if k in FirstPositions(keys) {
      var j :| 0 <= j < |FirstPositions(keys)| && FirstPositions(keys)[j] == k;
      forall i | 0 <= i < k ensures keys[i] != keys[k] { KeptIsNew(keys, j, i); }
    } else if keys[k] in keys[..k] {
      var i :| 0 <= i < k && keys[..k][i] == keys[k];
      assert Truncate(moments[i], gran) == Truncate(moments[k], gran);
    } else {
      NewIsKept(keys, k);
    }
  }

  /** Two datetimes both survive exactly if their own truncations differ. */
  lemma TwoDatetimes(name: string, x: Moment, y: Moment, gran: Granularity)
    ensures var first, second := Mapping([(name, DateTimeValue(x))]), Mapping([(name, DateTimeValue(y))]);
      Deduped([first, second], gran) == if Truncate(x, gran) == Truncate(y, gran) then [first] else [first, second]
  {
    var entries := [Mapping([(name, DateTimeValue(x))]), Mapping([(name, DateTimeValue(y))])];
    var keys := KeysOf(entries, gran);
    assert AsksFor(entries[0], x) && AsksFor(entries[1], y);
    AskedIsMoment(entries[0], x);
    AskedIsMoment(entries[1], y);
    SameKeySameBucket(entries, gran, 0, 1);
    PositionsOfTwo(keys);
  }

  lemma {:induction false} PositionsOfTwo(keys: seq<string>)
    requires |keys| == 2
    ensures FirstPositions(keys) == if keys[1] == keys[0] then [0] else [0, 1]
  {
    assert keys[..1] == [keys[0]] && keys[..1][..0] == [];
    assert FirstPositions(keys[..1]) == [0];
  }
}
