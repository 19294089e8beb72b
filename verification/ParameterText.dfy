// The forms in which a partition parameter can name a moment, and that parsing accepts exactly those.
module ParameterText {
  import opened Common
  import opened PyText
  import opened Timestamps
  import opened PartitionBuckets

  /** A time of day as written behind a date: nothing, or down to minutes, seconds or a fraction. */
  datatype Clock =
    | NoClock
    | Minutes(sep: char, hour: nat, minute: nat)
    | Seconds(sep: char, hour: nat, minute: nat, second: nat)
    | Fractions(sep: char, hour: nat, minute: nat, second: nat, fraction: string)

  datatype Written = Written(year: nat, month: nat, day: nat, clock: Clock)

  function ClockText(c: Clock): string {
    match c
    case NoClock => ""
    case Minutes(sep, h, m) => [sep] + (Digits(h, 2) + (":" + (Digits(m, 2) + "")))
    case Seconds(sep, h, m, s) => [sep] + (Digits(h, 2) + (":" + (Digits(m, 2) + (":" + (Digits(s, 2) + "")))))
    case Fractions(sep, h, m, s, f) =>
      [sep] + (Digits(h, 2) + (":" + (Digits(m, 2) + (":" + (Digits(s, 2) + ("." + f))))))
  }

  function WrittenText(w: Written): string {
    Digits(w.year, 4) + ("-" + (Digits(w.month, 2) + ("-" + (Digits(w.day, 2) + ClockText(w.clock)))))
  }

  predicate AllDigits(s: string) { forall k :: 0 <= k < |s| ==> IsDigit(s[k]) }

  predicate ClockOk(c: Clock) {
    c.NoClock? || (
      && c.sep in {' ', 'T'} && c.hour < 100 && c.minute < 100
      && (!c.Minutes? ==> c.second < 100)
      && (c.Fractions? ==> c.fraction != "" && AllDigits(c.fraction)))
  }

  predicate WrittenOk(w: Written) { w.year < 10000 && w.month < 100 && w.day < 100 && ClockOk(w.clock) }

  /** The first six digits behind the point, missing ones being zero. */
  function FractionMicros(f: string): nat
    requires AllDigits(f)
  {
    Number((f + "000000")[..6])
  }

  function MomentOf(w: Written): Text
    requires WrittenOk(w)
  {
    match w.clock
    case NoClock => Text(w.year, w.month, w.day, 0, 0, 0, 6, 0)
    case Minutes(_, h, m) => Text(w.year, w.month, w.day, h, m, 0, 6, 0)
    case Seconds(_, h, m, s) => Text(w.year, w.month, w.day, h, m, s, 6, 0)
    case Fractions(_, h, m, s, f) => Text(w.year, w.month, w.day, h, m, s, 6, FractionMicros(f))
  }

  // ---- from the form to the parser ----------------------------------------------------------------

  lemma {:induction false} AppendZero(s: string)
    requires AllDigits(s)
    ensures AllDigits(s + "0") && Number(s + "0") == 10 * Number(s)
  {
    LastDigit(s, 0, Number(s));
  }

  lemma {:induction false} NumberZeros(s: string, zeros: nat)
    requires AllDigits(s)
    ensures var r := s + seq(zeros, _ => '0'); AllDigits(r) && Number(r) == Number(s) * Pow10(zeros)
    decreases zeros
  {
    if zeros == 0 {
      assert s + seq(zeros, _ => '0') == s;
    } else {
      AppendZero(s);
      NumberZeros(s + "0", zeros - 1);
      assert s + seq(zeros, _ => '0') == (s + "0") + seq(zeros - 1, _ => '0');
      TenTimes(Number(s), Pow10(zeros - 1));
    }
  }

  lemma TenTimes(n: nat, p: nat)
    ensures 10 * n * p == n * (10 * p)
  {}

  lemma FractionIsMicros(f: string)
    requires AllDigits(f)
    ensures MicrosOf(f) == FractionMicros(f)
  {
    if |f| <= 6 {
      NumberZeros(f, 6 - |f|);
      assert (f + "000000")[..6] == f + seq(6 - |f|, _ => '0');
    } else {
      assert (f + "000000")[..6] == f[..6];
    }
  }

  lemma HeadReads(w: Written)
    requires WrittenOk(w)
    ensures var s := WrittenText(w);
      && DateHead(s) && NumberAt(s, 0, 4) == w.year && NumberAt(s, 5, 2) == w.month && NumberAt(s, 8, 2) == w.day
      && |s| == 10 + |ClockText(w.clock)| && s[10..] == ClockText(w.clock)
  {
    var s, clock := WrittenText(w), ClockText(w.clock);
    var t1 := "-" + (Digits(w.day, 2) + clock);
    var t0 := "-" + (Digits(w.month, 2) + t1);
    assert Pow10(4) == 10000 by { assert Pow10(2) == 100; assert Pow10(3) == 1000; }
    assert s[0..] == s;
    FieldHere(s, 0, 4, w.year, t0);
    Chunk(s, 4, "-", w.month, t1);
    Chunk(s, 7, "-", w.day, clock);
  }

  lemma {:induction false} TimeReads(s: string, sep: char, h: nat, m: nat, rest: string)
    requires |s| >= 10 && s[10..] == [sep] + (Digits(h, 2) + (":" + (Digits(m, 2) + rest)))
    requires sep in {' ', 'T'} && h < 100 && m < 100
    ensures (CharAt(s, 10, ' ') || CharAt(s, 10, 'T')) && CharAt(s, 13, ':')
    ensures FieldIs(s, 11, 2, h) && FieldIs(s, 14, 2, m) && |s| == 16 + |rest| && s[16..] == rest
  {
    Chunk(s, 10, [sep], h, ":" + (Digits(m, 2) + rest));
    Chunk(s, 13, ":", m, rest);
  }

  lemma {:induction false} SecondsRead(s: string, second: nat, rest: string)
    requires |s| >= 16 && s[16..] == ":" + (Digits(second, 2) + rest) && second < 100
    ensures CharAt(s, 16, ':') && FieldIs(s, 17, 2, second) && |s| == 19 + |rest| && s[19..] == rest
  {
    Chunk(s, 16, ":", second, rest);
  }

  lemma FractionRead(s: string, f: string)
    requires |s| >= 19 && s[19..] == "." + f && f != "" && AllDigits(f)
    ensures FractionTail(s) && s[20..] == f
  {
    assert s[19] == s[19..][0];
    assert s[20..] == s[19..][1..] == f;
    forall k | 20 <= k < |s| ensures IsDigit(s[k]) { assert s[k] == f[k - 20]; }
  }

  lemma WrittenReads(w: Written)
    requires WrittenOk(w)
    ensures LooksLikeStamp(WrittenText(w)) && ReadStamp(WrittenText(w)) == MomentOf(w)
    ensures LooksLikeDate(WrittenText(w)) <==> w.clock.NoClock?
  {
    var s := WrittenText(w);
    HeadReads(w);
    match w.clock
    case NoClock =>
    case Minutes(sep, h, m) => TimeReads(s, sep, h, m, "");
    case Seconds(sep, h, m, x) =>
      TimeReads(s, sep, h, m, ":" + (Digits(x, 2) + ""));
      SecondsRead(s, x, "");
    case Fractions(sep, h, m, x, f) =>
      TimeReads(s, sep, h, m, ":" + (Digits(x, 2) + ("." + f)));
      SecondsRead(s, x, "." + f);
      FractionRead(s, f);
      FractionIsMicros(f);
  }

  // ---- from the parser to the form ----------------------------------------------------------------

  lemma {:induction false} DigitsOfNumber(s: string)
    requires AllDigits(s)
    ensures Number(s) < Pow10(|s|) && Digits(Number(s), |s|) == s
  {
    if s != "" {
      var init, last := s[..|s| - 1], s[|s| - 1];
      DigitsOfNumber(init);
      CharOfValue(last);
      assert s == init + [last];
    }
  }

  lemma CharOfValue(c: char)
    requires IsDigit(c)
    ensures DigitValue(c) < 10 && DigitChar(DigitValue(c)) == c
  {}

  lemma {:induction false} FieldText(s: string, i: nat, width: nat)
    requires DigitsAt(s, i, width)
    ensures NumberAt(s, i, width) < Pow10(width) && Digits(NumberAt(s, i, width), width) == s[i..i + width]
  {
    var part := s[i..i + width];
    forall k | 0 <= k < |part| ensures IsDigit(part[k]) { assert part[k] == s[i + k]; }
    assert |part| == width;
    DigitsOfNumber(part);
  }

  /** The clock that a stamp is written with. */
  function ClockOf(s: string): Clock
    requires LooksLikeStamp(s)
  {
    if |s| == 10 then NoClock
    else if |s| == 16 then Minutes(s[10], NumberAt(s, 11, 2), NumberAt(s, 14, 2))
    else if |s| == 19 then Seconds(s[10], NumberAt(s, 11, 2), NumberAt(s, 14, 2), NumberAt(s, 17, 2))
    else Fractions(s[10], NumberAt(s, 11, 2), NumberAt(s, 14, 2), NumberAt(s, 17, 2), s[20..])
  }

  lemma Joins(a: string, b: string, s: string, i: nat, j: nat)
    requires i <= j <= |s| && a == s[i..j] && b == s[j..]
    ensures a + b == s[i..]
  {}

  lemma ClockIsText(s: string)
    requires LooksLikeStamp(s)
    ensures ClockOk(ClockOf(s)) && ClockText(ClockOf(s)) == s[10..]
  {
    assert Pow10(2) == 100 by { assert Pow10(1) == 10; }
    if |s| > 10 {
      FieldText(s, 11, 2);
      FieldText(s, 14, 2);
      if |s| > 16 { SecondsText(s); }
      var rest := s[16..];
      Joins(Digits(NumberAt(s, 14, 2), 2), rest, s, 14, 16);
      Joins(":", s[14..], s, 13, 14);
      Joins(Digits(NumberAt(s, 11, 2), 2), s[13..], s, 11, 13);
      Joins([s[10]], s[11..], s, 10, 11);
    }
  }

  lemma PointText(s: string)
    requires |s| == 19 || (|s| > 19 && s[19] == '.')
    ensures (if |s| == 19 then "" else "." + s[20..]) == s[19..]
  {}

  lemma SecondsText(s: string)
    requires LooksLikeStamp(s) && |s| > 16
    ensures NumberAt(s, 17, 2) < 100
    ensures ":" + (Digits(NumberAt(s, 17, 2), 2) + (if |s| == 19 then "" else "." + s[20..])) == s[16..]
  {
    assert Pow10(2) == 100 by { assert Pow10(1) == 10; }
    FieldText(s, 17, 2);
    PointText(s);
    Joins(Digits(NumberAt(s, 17, 2), 2), s[19..], s, 17, 19);
    Joins(":", s[17..], s, 16, 17);
  }

  lemma HeadText(s: string, y: string, m: string, d: string, clock: string)
    requires |s| >= 10 && s[4] == '-' && s[7] == '-'
    requires y == s[0..4] && m == s[5..7] && d == s[8..10] && clock == s[10..]
    ensures y + ("-" + (m + ("-" + (d + clock)))) == s
  {
    Joins(d, clock, s, 8, 10);
    Joins("-", s[8..], s, 7, 8);
    Joins(m, s[7..], s, 5, 7);
    Joins("-", s[5..], s, 4, 5);
    Joins(y, s[4..], s, 0, 4);
    assert s[0..] == s;
  }

  lemma DateFields(s: string)
    requires DateHead(s)
    ensures NumberAt(s, 0, 4) < 10000 && NumberAt(s, 5, 2) < 100 && NumberAt(s, 8, 2) < 100
    ensures Digits(NumberAt(s, 0, 4), 4) == s[0..4]
    ensures Digits(NumberAt(s, 5, 2), 2) == s[5..7] && Digits(NumberAt(s, 8, 2), 2) == s[8..10]
  {
    assert Pow10(2) == 100 by { assert Pow10(1) == 10; }
    assert Pow10(4) == 10000 by { assert Pow10(3) == 1000; }
    FieldText(s, 0, 4);
    FieldText(s, 5, 2);
    FieldText(s, 8, 2);
  }

  lemma StampIsWritten(s: string) returns (w: Written)
    requires LooksLikeStamp(s)
    ensures WrittenOk(w) && WrittenText(w) == s
  {
    var y, m, d := NumberAt(s, 0, 4), NumberAt(s, 5, 2), NumberAt(s, 8, 2);
    DateFields(s);
    ClockIsText(s);
    w := Written(y, m, d, ClockOf(s));
    HeadText(s, Digits(y, 4), Digits(m, 2), Digits(d, 2), ClockText(ClockOf(s)));
  }

  // ---- what a value means ---------------------------------------------------------------------------

  /** The text, white space aside, is this form. */
  ghost predicate Spells(raw: string, w: Written) { WrittenOk(w) && Surrounded(raw, WrittenText(w)) }

  /** A datetime is its own moment; a date is midnight of that day; a string is what it spells; and
      nothing else names a moment. */
  ghost predicate Means(value: Value, at: Text) {
    match value
    case DateTimeValue(moment) => at == moment
    case DateValue(d) => at == Text(d.year, d.month, d.day, 0, 0, 0, 6, 0)
    case StringValue(raw) => IsMoment(at) && exists w :: Spells(raw, w) && at == MomentOf(w)
    case OtherValue(_) => false
  }

  lemma SpelledIsStripped(raw: string, w: Written)
    requires WrittenOk(w)
    ensures Spells(raw, w) <==> Strip(raw) == WrittenText(w)
  {
    WrittenReads(w);
    StampIsTrimmed(WrittenText(w));
    StripExactly(raw, WrittenText(w));
  }

  lemma StringMeans(raw: string, at: Text)
    ensures ParseValue(StringValue(raw)) == Ok(at) <==> Means(StringValue(raw), at)
  {
    if LooksLikeStamp(Strip(raw)) {
      var w := StampIsWritten(Strip(raw));
      SpelledIsStripped(raw, w);
      WrittenReads(w);
    }
    forall w | Spells(raw, w) ensures LooksLikeStamp(Strip(raw)) && ReadStamp(Strip(raw)) == MomentOf(w) {
      SpelledIsStripped(raw, w);
      WrittenReads(w);
    }
  }

  /** Parsing gives a moment exactly if the value means it, and is refused exactly if it means none. */
  lemma ParseMeans(value: Value, at: Text)
    ensures ParseValue(value) == Ok(at) <==> Means(value, at)
  {
    if value.StringValue? { StringMeans(value.text, at); }
  }
}
