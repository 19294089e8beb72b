// Partition parameters, their overwrite buckets and the key text that names a bucket.
module PartitionBuckets {
  import opened Common
  import opened PyText
  import opened Timestamps

  // A naive Python datetime.
  type Moment = t: Text | t.Valid() && t.digits == 6 && 1 <= t.year witness Text(1, 1, 1, 0, 0, 0, 6, 0)

  datatype Granularity = Hour | Day | Month | Year

  /** The start of the bucket a moment falls in. */
  function Truncate(at: Moment, gran: Granularity): Moment {
    Text(
      at.year,
      if gran == Year then 1 else at.month,
      if gran == Year || gran == Month then 1 else at.day,
      if gran == Hour then at.hour else 0,
      0, 0, 6, 0)
  }

  /** `_partition_bucket_key`. */
  function BucketKey(at: Moment, gran: Granularity): string
    decreases match gran case Year => 0 case Month => 1 case Day => 2 case Hour => 3
  {
    match gran
    case Year => Digits(at.year, 4)
    case Month => BucketKey(at, Year) + "-" + Digits(at.month, 2)
    case Day => BucketKey(at, Month) + "-" + Digits(at.day, 2)
    case Hour => BucketKey(at, Day) + "T" + Digits(at.hour, 2)
  }

  lemma {:induction false} LastField(a: string, b: string, sep: string, x: nat, y: nat)
    requires |a| == |b| && x < 100 && y < 100
    ensures a + sep + Digits(x, 2) == b + sep + Digits(y, 2) <==> a == b && x == y
  {
    assert Pow10(2) == 100 by { assert Pow10(1) == 10; }
    DigitsOrder(x, y, 2);
    var s, t := a + sep + Digits(x, 2), b + sep + Digits(y, 2);
    assert s[..|a|] == a && t[..|b|] == b;
    assert s[|a| + |sep|..] == Digits(x, 2) && t[|b| + |sep|..] == Digits(y, 2);
  }

  lemma {:induction false} YearKey(a: Moment, b: Moment)
    ensures BucketKey(a, Year) == BucketKey(b, Year) <==> a.year == b.year
  {
    assert Pow10(4) == 10000 by { assert Pow10(2) == 100; assert Pow10(3) == 1000; }
    DigitsOrder(a.year, b.year, 4);
  }

  /** Two parameters share a key exactly when they fall in the same bucket, so the texts
      seen by the dedupe stand for buckets and nothing else. */
  lemma {:induction false} KeyNamesBucket(a: Moment, b: Moment, gran: Granularity)
    ensures BucketKey(a, gran) == BucketKey(b, gran) <==> Truncate(a, gran) == Truncate(b, gran)
  {
    YearKey(a, b);
    LastField(BucketKey(a, Year), BucketKey(b, Year), "-", a.month, b.month);
    LastField(BucketKey(a, Month), BucketKey(b, Month), "-", a.day, b.day);
    LastField(BucketKey(a, Day), BucketKey(b, Day), "T", a.hour, b.hour);
  }

  // ---- parsing parameter values ---------------------------------------------------------

  predicate IsDigit(c: char) { '0' <= c <= '9' }

  function DigitValue(c: char): nat
    requires IsDigit(c)
  {
    c as int - '0' as int
  }

  function Number(s: string): nat
    requires forall k :: 0 <= k < |s| ==> IsDigit(s[k])
  {
    if s == "" then 0 else 10 * Number(s[..|s| - 1]) + DigitValue(s[|s| - 1])
  }

  predicate DigitsAt(s: string, i: nat, n: nat) {
    i + n <= |s| && forall k :: i <= k < i + n ==> IsDigit(s[k])
  }

  predicate CharAt(s: string, i: nat, c: char) { i < |s| && s[i] == c }

  function NumberAt(s: string, i: nat, n: nat): nat
    requires DigitsAt(s, i, n)
  {
    Number(s[i..i + n])
  }

  /** `\\d{4}-\\d{2}-\\d{2}` at the start. */
  predicate DateHead(s: string) {
    DigitsAt(s, 0, 4) && CharAt(s, 4, '-') && DigitsAt(s, 5, 2) && CharAt(s, 7, '-') && DigitsAt(s, 8, 2)
  }

  predicate LooksLikeDate(s: string) { |s| == 10 && DateHead(s) }

  predicate TimeTail(s: string) {
    && (CharAt(s, 10, ' ') || CharAt(s, 10, 'T'))
    && DigitsAt(s, 11, 2) && CharAt(s, 13, ':') && DigitsAt(s, 14, 2)
    && (|s| == 16 || (CharAt(s, 16, ':') && DigitsAt(s, 17, 2) && (|s| == 19 || FractionTail(s))))
  }

  predicate FractionTail(s: string) { CharAt(s, 19, '.') && |s| > 20 && DigitsAt(s, 20, |s| - 20) }

  predicate LooksLikeStamp(s: string) { DateHead(s) && (|s| == 10 || TimeTail(s)) }

  /** The first six fraction digits, as microseconds. */
  function MicrosOf(fraction: string): nat
    requires forall k :: 0 <= k < |fraction| ==> IsDigit(fraction[k])
  {
    if |fraction| <= 6 then Number(fraction) * Pow10(6 - |fraction|) else Number(fraction[..6])
  }

  function ReadStamp(s: string): Text
    requires LooksLikeStamp(s)
  {
    Text(
      NumberAt(s, 0, 4), NumberAt(s, 5, 2), NumberAt(s, 8, 2),
      if |s| > 10 then NumberAt(s, 11, 2) else 0,
      if |s| > 10 then NumberAt(s, 14, 2) else 0,
      if |s| > 16 then NumberAt(s, 17, 2) else 0,
      6,
      if |s| > 19 then MicrosOf(s[20..]) else 0)
  }

  predicate IsMoment(t: Text) { t.Valid() && t.digits == 6 && 1 <= t.year }

  // A parameter value by its Python type; `kind` is the inferred type of any other value,
  // None when inference itself refuses it.
  datatype Value =
    | DateTimeValue(at: Moment)
    | DateValue(date: Moment)
    | StringValue(text: string)
    | OtherValue(kind: Option<string>)

  /** `_parse_partition_param_value`. */
  function ParseValue(value: Value): (r: Result<Text>)
    ensures r.Ok? ==> IsMoment(r.value)
  {
    match value
    case DateTimeValue(at) => Ok(at)
    case DateValue(date) => Ok(date.(hour := 0, minute := 0, second := 0, frac := 0))
    case StringValue(raw) =>
      var text := Strip(raw);
      if LooksLikeStamp(text) then
        if IsMoment(ReadStamp(text)) then Ok(ReadStamp(text)) else Err("Invalid partition parameter datetime string")
      else Err("Partition parameter must be a date, datetime, timestamp, or ISO string")
    case OtherValue(_) => Err("Partition parameter must be a date, datetime, timestamp, or ISO string")
  }

  lemma {:induction false} NumberOfDigits(n: nat, width: nat)
    requires n < Pow10(width)
    ensures var s := Digits(n, width); DigitsAt(s, 0, width) && Number(s) == n
  {
    if width > 0 {
      TensAndOnes(n, Pow10(width - 1));
      NumberOfDigits(n / 10, width - 1);
      LastDigit(Digits(n / 10, width - 1), n % 10, n / 10);
    }
  }

  lemma TensAndOnes(n: nat, p: nat)
    requires n < 10 * p
    ensures n / 10 < p && n % 10 < 10 && n == 10 * (n / 10) + n % 10
  {}

  lemma {:induction false} LastDigit(s: string, d: nat, n: nat)
    requires d < 10 && DigitsAt(s, 0, |s|) && Number(s) == n
    ensures var r := s + [DigitChar(d)]; DigitsAt(r, 0, |r|) && Number(r) == 10 * n + d
  {
    var r := s + [DigitChar(d)];
    assert r[..|r| - 1] == s;
    forall k | 0 <= k < |r| ensures IsDigit(r[k]) {
      if k < |s| { assert r[k] == s[k]; }
    }
    DigitOf(d);
  }

  lemma DigitOf(d: nat)
    requires d < 10
    ensures IsDigit(DigitChar(d)) && DigitValue(DigitChar(d)) == d
  {}

  predicate FieldIs(s: string, i: nat, width: nat, value: nat) {
    DigitsAt(s, i, width) && NumberAt(s, i, width) == value
  }

  lemma {:induction false} FieldHere(s: string, i: nat, width: nat, value: nat, rest: string)
    requires i <= |s| && s[i..] == Digits(value, width) + rest && value < Pow10(width)
    ensures FieldIs(s, i, width, value) && s[i + width..] == rest
  {
    NumberOfDigits(value, width);
    var d := Digits(value, width);
    assert s[i..i + width] == s[i..][..width] == d;
    forall k | i <= k < i + width ensures IsDigit(s[k]) { assert s[k] == d[k - i]; }
    assert s[i + width..] == s[i..][width..];
  }

  /** A separator and a two-digit number at position i. */
  lemma {:induction false} Chunk(s: string, i: nat, sep: string, value: nat, rest: string)
    requires i <= |s| && |sep| == 1 && s[i..] == sep + (Digits(value, 2) + rest) && value < 100
    ensures CharAt(s, i, sep[0]) && FieldIs(s, i + 1, 2, value) && s[i + 3..] == rest
  {
    assert s[i] == s[i..][0];
    assert s[i + 1..] == s[i..][1..] == Digits(value, 2) + rest;
    assert Pow10(2) == 100 by { assert Pow10(1) == 10; }
    FieldHere(s, i + 1, 2, value, rest);
  }

  /** The same texts with the date and time separated as given, a space or a `T`. */
  function StampText(x: Text, sep: string): string {
    Digits(x.year, 4) + ("-" + (Digits(x.month, 2) + ("-" + (Digits(x.day, 2) + (sep +
    (Digits(x.hour, 2) + (":" + (Digits(x.minute, 2) + (":" + (Digits(x.second, 2) + x.Fraction()))))))))))
  }

  /** Timestamps are rendered with a space between date and time. */
  lemma RenderIsStamp(x: Text)
    ensures x.Render() == StampText(x, " ")
  {}

  predicate FieldsOf(s: string, x: Text, sep: char) {
    && FieldIs(s, 0, 4, x.year) && CharAt(s, 4, '-') && FieldIs(s, 5, 2, x.month)
    && CharAt(s, 7, '-') && FieldIs(s, 8, 2, x.day)
    && CharAt(s, 10, sep) && FieldIs(s, 11, 2, x.hour)
    && CharAt(s, 13, ':') && FieldIs(s, 14, 2, x.minute)
    && CharAt(s, 16, ':') && FieldIs(s, 17, 2, x.second) && |s| >= 19 && s[19..] == x.Fraction()
  }

  lemma StampFields(x: Text, sep: string)
    requires x.Valid() && |sep| == 1
    ensures FieldsOf(StampText(x, sep), x, sep[0])
  {
    var s := StampText(x, sep);
    var t5 := x.Fraction();
    var t4 := ":" + (Digits(x.second, 2) + t5);
    var t3 := ":" + (Digits(x.minute, 2) + t4);
    var t2 := sep + (Digits(x.hour, 2) + t3);
    var t1 := "-" + (Digits(x.day, 2) + t2);
    var t0 := "-" + (Digits(x.month, 2) + t1);
    assert Pow10(4) == 10000 by { assert Pow10(2) == 100; assert Pow10(3) == 1000; }
    assert s[0..] == s;
    FieldHere(s, 0, 4, x.year, t0);
    Chunk(s, 4, "-", x.month, t1);
    Chunk(s, 7, "-", x.day, t2);
    Chunk(s, 10, sep, x.hour, t3);
    Chunk(s, 13, ":", x.minute, t4);
    Chunk(s, 16, ":", x.second, t5);
  }

  lemma FractionReads(x: Text, s: string)
    requires x.Valid() && |s| >= 19 && s[19..] == x.Fraction()
    ensures |s| == 19 || FractionTail(s)
    ensures (if |s| > 19 then MicrosOf(s[20..]) else 0) == x.Micros()
  {
    if x.digits == 0 {
      assert x.Micros() == 0;
    } else {
      var d := Digits(x.frac, x.digits);
      assert s[19..] == "." + d;
      assert s[19] == s[19..][0];
      assert s[20..] == s[19..][1..] == d;
      NumberOfDigits(x.frac, x.digits);
      forall k | 20 <= k < |s| ensures IsDigit(s[k]) { assert s[k] == d[k - 20]; }
    }
  }

  function Micro(x: Text): Text
    requires x.Valid()
  {
    Text(x.year, x.month, x.day, x.hour, x.minute, x.second, 6, x.Micros())
  }

  lemma FieldsRead(s: string, x: Text, sep: char)
    requires x.Valid() && (sep == ' ' || sep == 'T') && FieldsOf(s, x, sep)
    ensures LooksLikeStamp(s) && ReadStamp(s) == Micro(x)
  {
    FractionReads(x, s);
  }

  lemma MicroIsMoment(x: Text)
    requires x.Valid() && 1 <= x.year
    ensures IsMoment(Micro(x))
  {
    MicrosBounded(x);
    assert Pow10(6) == 1000000 by { assert Pow10(3) == 1000; assert Pow10(5) == 100000; }
  }

  lemma StampIsTrimmed(s: string)
    requires LooksLikeStamp(s)
    ensures Trimmed(s)
  {
    assert IsDigit(s[0]) && IsDigit(s[|s| - 1]);
  }

  /** Reading a rendered timestamp, padded with white space or not, gives back the moment. */
  lemma ReadsRendered(x: Text, sep: string, before: string, after: string)
    requires x.Valid() && 1 <= x.year && (sep == " " || sep == "T")
    requires Spaces(before) && Spaces(after)
    ensures ParseValue(StringValue(before + StampText(x, sep) + after)) == Ok(Micro(x))
  {
    var s := StampText(x, sep);
    StampFields(x, sep);
    FieldsRead(s, x, sep[0]);
    StampIsTrimmed(s);
    StripPadded(before, s, after);
    ParsesText(before + s + after, s, x);
  }

  lemma ParsesText(raw: string, s: string, x: Text)
    requires x.Valid() && 1 <= x.year
    requires Strip(raw) == s && LooksLikeStamp(s) && ReadStamp(s) == Micro(x)
    ensures ParseValue(StringValue(raw)) == Ok(Micro(x))
  {
    MicroIsMoment(x);
  }
}
