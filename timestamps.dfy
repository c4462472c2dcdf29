/**
 * `formatTimestamp`: an instant rendered the way `Date.prototype.toISOString`
 * renders it (`YYYY-MM-DDTHH:mm:ss.sssZ`), then the first `T` replaced by a
 * space and the trailing `.sssZ` replaced by ` UTC`.
 */
module Timestamps {
  import opened Wrappers
  import opened Chars

  /** A UTC instant as calendar components; the clock and the epoch conversion stay outside the model. */
  datatype DateTime = DateTime(year: int, month: int, day: int,
                               hour: int, minute: int, second: int, millisecond: int)

  predicate IsLeapYear(y: int) {
    y % 4 == 0 && (y % 100 != 0 || y % 400 == 0)
  }

  function DaysInMonth(y: int, m: int): (d: int)
    requires 1 <= m <= 12
    ensures 28 <= d <= 31
  {
    if m == 2 then (if IsLeapYear(y) then 29 else 28)
    else if m == 4 || m == 6 || m == 9 || m == 11 then 30
    else 31
  }

  /** A valid date in the four-digit year range of the ISO extended format. */
  predicate Valid(t: DateTime) {
    && 0 <= t.year <= 9999
    && 1 <= t.month <= 12
    && 1 <= t.day <= DaysInMonth(t.year, t.month)
    && 0 <= t.hour <= 23
    && 0 <= t.minute <= 59
    && 0 <= t.second <= 59
    && 0 <= t.millisecond <= 999
  }

  /** `YYYY-MM-DD`: the date half of the ISO rendering. */
  function DatePart(t: DateTime): (r: string)
    requires Valid(t)
    ensures |r| == 10 && r[4] == '-' && r[7] == '-'
    ensures r[..4] == Pad(t.year, 4) && r[5..7] == Pad(t.month, 2) && r[8..10] == Pad(t.day, 2)
  {
    Pad(t.year, 4) + "-" + Pad(t.month, 2) + "-" + Pad(t.day, 2)
  }

  /** `HH:mm:ss`: the time of day of the ISO rendering, without milliseconds. */
  function TimePart(t: DateTime): (r: string)
    requires Valid(t)
    ensures |r| == 8 && r[2] == ':' && r[5] == ':'
    ensures r[..2] == Pad(t.hour, 2) && r[3..5] == Pad(t.minute, 2) && r[6..8] == Pad(t.second, 2)
  {
    Pad(t.hour, 2) + ":" + Pad(t.minute, 2) + ":" + Pad(t.second, 2)
  }

  /** `Date.prototype.toISOString` for a year in 0..9999: `YYYY-MM-DDTHH:mm:ss.sssZ`. */
  function ToIsoString(t: DateTime): (r: string)
    requires Valid(t)
    ensures |r| == 24 && r[10] == 'T' && r[19] == '.' && r[23] == 'Z'
    ensures r[..10] == DatePart(t) && r[11..19] == TimePart(t) && r[20..23] == Pad(t.millisecond, 3)
  {
    DatePart(t) + "T" + TimePart(t) + "." + Pad(t.millisecond, 3) + "Z"
  }

  /** `s.replace(c, rep)` with a one-character string pattern: only the first occurrence is replaced. */
  function ReplaceFirst(s: string, c: char, rep: string): (r: string)
    ensures c !in s ==> r == s
    ensures c in s ==> |r| == |s| - 1 + |rep|
  {
    if s == [] then []
    else if s[0] == c then rep + s[1..]
    else [s[0]] + ReplaceFirst(s[1..], c, rep)
  }

  /** The replacement happens at the first occurrence and nowhere else. */
  lemma {:induction false} ReplaceFirstAt(s: string, c: char, rep: string, k: nat)
    requires k < |s| && s[k] == c && c !in s[..k]
    ensures ReplaceFirst(s, c, rep) == s[..k] + rep + s[k + 1..]
  {
    if k > 0 {
      assert s[0] in s[..k];
      assert s[1..][..k - 1] == s[1..k];
      ReplaceFirstAt(s[1..], c, rep, k - 1);
      assert s[..k] == [s[0]] + s[1..k];
      assert s[1..][k..] == s[k + 1..];
    }
  }

  /**
   * The regular expression `/\.\d{3}Z$/` matches `s` at index `i`: a dot,
   * three digits and `Z` from `i` on, and the end anchor `$` right after them.
   */
  predicate MillisMatchAt(s: string, i: int) {
    && 0 <= i && i + 5 <= |s|
    && s[i] == '.' && IsDigit(s[i + 1]) && IsDigit(s[i + 2]) && IsDigit(s[i + 3]) && s[i + 4] == 'Z'
    && i + 5 == |s|
  }

  /**
   * `s.replace(/\.\d{3}Z$/, ' UTC')`: a match, which can only be the last
   * five characters, gives way to ` UTC`; without one the string is kept.
   */
  function ReplaceMillisSuffix(s: string): (r: string)
    ensures forall i :: MillisMatchAt(s, i) ==> i == |s| - 5 && r == s[..i] + " UTC" + s[i + 5..]
    ensures (forall i :: !MillisMatchAt(s, i)) ==> r == s
  {
    if |s| >= 5 && MillisMatchAt(s, |s| - 5) then s[..|s| - 5] + " UTC" else s
  }

  /** The replacements applied to the ISO rendering leave its date and time around a space, then ` UTC`. */
  lemma IsoReplacements(t: DateTime)
    requires Valid(t)
    ensures ReplaceMillisSuffix(ReplaceFirst(ToIsoString(t), 'T', " ")) == DatePart(t) + " " + TimePart(t) + " UTC"
  {
    var iso := ToIsoString(t);
    var date := DatePart(t);
    assert 'T' !in iso[..10] by {
      forall i | 0 <= i < 10 ensures date[i] != 'T' {
        if i < 4 { assert date[i] == date[..4][i]; }
        else if 4 < i < 7 { assert date[i] == date[5..7][i - 5]; }
        else if 7 < i { assert date[i] == date[8..10][i - 8]; }
      }
    }
    ReplaceFirstAt(iso, 'T', " ", 10);
    var m := ReplaceFirst(iso, 'T', " ");
    assert m == iso[..10] + " " + iso[11..];
    assert m[20..23] == iso[20..23];
    assert MillisMatchAt(m, 19);
    assert m[..19] == iso[..10] + " " + iso[11..19];
  }

  /** `formatTimestamp`: `YYYY-MM-DD HH:mm:ss UTC`, the ISO date and time around a space. */
  function FormatTimestamp(t: DateTime): (r: string)
    requires Valid(t)
    ensures |r| == 23
    ensures r == DatePart(t) + " " + TimePart(t) + " UTC"
  {
    IsoReplacements(t);
    ReplaceMillisSuffix(ReplaceFirst(ToIsoString(t), 'T', " "))
  }

  /**
   * The formatted instant is `YYYY-MM-DD HH:mm:ss UTC`: the date and the time
   * of the ISO rendering are kept, its `T` becomes a space and the
   * milliseconds with the `Z` give way to ` UTC`.
   */
  lemma FormatTimestampLayout(t: DateTime)
    requires Valid(t)
    ensures var iso, r := ToIsoString(t), FormatTimestamp(t);
      && r == iso[..10] + " " + iso[11..19] + " UTC"
      && r == DatePart(t) + " " + TimePart(t) + " UTC"
      && |r| == 23 && r[..10] == iso[..10] && r[10] == ' ' && r[11..19] == iso[11..19] && r[19..] == " UTC"
  {
  }

  lemma ExampleYear()
    ensures Pad(2024, 4) == "2024"
  {
    assert Pad(20, 2) == "20";
    assert Pad(202, 3) == "202";
  }

  lemma ExampleDatePart(t: DateTime)
    requires t == DateTime(2024, 1, 15, 10, 30, 0, 0)
    ensures DatePart(t) == "2024-01-15"
  {
    ExampleYear();
    assert Pad(1, 2) == "01" && Pad(15, 2) == "15";
  }

  lemma ExampleTimePart(t: DateTime)
    requires t == DateTime(2024, 1, 15, 10, 30, 0, 0)
    ensures TimePart(t) == "10:30:00"
  {
    assert Pad(10, 2) == "10" && Pad(30, 2) == "30" && Pad(0, 2) == "00";
  }

  /** Formatting `2024-01-15T10:30:00.000Z` gives `2024-01-15 10:30:00 UTC`. */
  lemma FormatTimestampExample(t: DateTime)
    requires t == DateTime(2024, 1, 15, 10, 30, 0, 0)
    ensures FormatTimestamp(t) == "2024-01-15 10:30:00 UTC"
  {
    FormatTimestampLayout(t);
    ExampleDatePart(t);
    ExampleTimePart(t);
    ExampleJoin(DatePart(t), TimePart(t));
  }

  lemma ExampleJoin(date: string, time: string)
    requires date == "2024-01-15" && time == "10:30:00"
    ensures date + " " + time + " UTC" == "2024-01-15 10:30:00 UTC"
  {
  }

  lemma SplitDate(x: string)
    requires |x| == 10 && x[4] == '-' && x[7] == '-'
    ensures x == x[..4] + "-" + x[5..7] + "-" + x[8..10]
  {
  }

  lemma SplitTime(x: string)
    requires |x| == 8 && x[2] == ':' && x[5] == ':'
    ensures x == x[..2] + ":" + x[3..5] + ":" + x[6..8]
  {
  }

  /** The layout `YYYY-MM-DD HH:mm:ss UTC` with every field made of digits. */
  predicate HasFormattedLayout(s: string) {
    && |s| == 23
    && s[4] == '-' && s[7] == '-' && s[10] == ' ' && s[13] == ':' && s[16] == ':'
    && s[19..] == " UTC"
    && AllDigits(s[..4]) && AllDigits(s[5..7]) && AllDigits(s[8..10])
    && AllDigits(s[11..13]) && AllDigits(s[14..16]) && AllDigits(s[17..19])
  }

  /** Reads `YYYY-MM-DD HH:mm:ss UTC` back into an instant with zero milliseconds. */
  function ParseFormatted(s: string): (r: Option<DateTime>)
    ensures r.Some? ==> HasFormattedLayout(s) && Valid(r.value) && r.value.millisecond == 0
  {
    if HasFormattedLayout(s) then
      var t := DateTime(DigitsValue(s[..4]), DigitsValue(s[5..7]), DigitsValue(s[8..10]),
                        DigitsValue(s[11..13]), DigitsValue(s[14..16]), DigitsValue(s[17..19]), 0);
      if Valid(t) then Some(t) else None
    else None
  }

  /** The fields of the date half read back as the date. */
  lemma DatePartFields(t: DateTime)
    requires Valid(t)
    ensures var d := DatePart(t);
      && AllDigits(d[..4]) && AllDigits(d[5..7]) && AllDigits(d[8..10])
      && DigitsValue(d[..4]) == t.year && DigitsValue(d[5..7]) == t.month && DigitsValue(d[8..10]) == t.day
  {
    PadValue(t.year, 4);
    PadValue(t.month, 2);
    PadValue(t.day, 2);
  }

  /** The fields of the time half read back as the time of day. */
  lemma TimePartFields(t: DateTime)
    requires Valid(t)
    ensures var d := TimePart(t);
      && AllDigits(d[..2]) && AllDigits(d[3..5]) && AllDigits(d[6..8])
      && DigitsValue(d[..2]) == t.hour && DigitsValue(d[3..5]) == t.minute && DigitsValue(d[6..8]) == t.second
  {
    PadValue(t.hour, 2);
    PadValue(t.minute, 2);
    PadValue(t.second, 2);
  }

  /** A formatted timestamp parses back to the instant it came from, milliseconds dropped. */
  lemma FormatThenParse(t: DateTime)
    requires Valid(t)
    ensures ParseFormatted(FormatTimestamp(t)) == Some(t.(millisecond := 0))
  {
    var r, date, time := FormatTimestamp(t), DatePart(t), TimePart(t);
    FormatTimestampLayout(t);
    DatePartFields(t);
    TimePartFields(t);
    assert r[..10] == date && r[11..19] == time;
    assert r[..4] == date[..4] && r[5..7] == date[5..7] && r[8..10] == date[8..10];
    assert r[11..13] == time[..2] && r[14..16] == time[3..5] && r[17..19] == time[6..8];
    assert HasFormattedLayout(r);
  }

  lemma DatePartOfDigits(t: DateTime, x: string)
    requires Valid(t) && |x| == 10 && x[4] == '-' && x[7] == '-'
    requires AllDigits(x[..4]) && AllDigits(x[5..7]) && AllDigits(x[8..10])
    requires t.year == DigitsValue(x[..4]) && t.month == DigitsValue(x[5..7]) && t.day == DigitsValue(x[8..10])
    ensures DatePart(t) == x
  {
    PadOfValue(x[..4]);
    PadOfValue(x[5..7]);
    PadOfValue(x[8..10]);
    SplitDate(x);
  }

  lemma TimePartOfDigits(t: DateTime, x: string)
    requires Valid(t) && |x| == 8 && x[2] == ':' && x[5] == ':'
    requires AllDigits(x[..2]) && AllDigits(x[3..5]) && AllDigits(x[6..8])
    requires t.hour == DigitsValue(x[..2]) && t.minute == DigitsValue(x[3..5]) && t.second == DigitsValue(x[6..8])
    ensures TimePart(t) == x
  {
    PadOfValue(x[..2]);
    PadOfValue(x[3..5]);
    PadOfValue(x[6..8]);
    SplitTime(x);
  }

  /** Every string the parser accepts is exactly the formatting of what it parses to. */
  lemma ParseThenFormat(s: string)
    requires ParseFormatted(s).Some?
    ensures FormatTimestamp(ParseFormatted(s).value) == s
  {
    var t := ParseFormatted(s).value;
    assert HasFormattedLayout(s);
    var date, time := s[..10], s[11..19];
    assert t.year == DigitsValue(s[..4]) && t.month == DigitsValue(s[5..7]) && t.day == DigitsValue(s[8..10]);
    assert t.hour == DigitsValue(s[11..13]) && t.minute == DigitsValue(s[14..16]) && t.second == DigitsValue(s[17..19]);
    SubSlice(s, 0, 10, 0, 4);
    SubSlice(s, 0, 10, 5, 7);
    SubSlice(s, 0, 10, 8, 10);
    DatePartOfDigits(t, date);
    SubSlice(s, 11, 19, 0, 2);
    SubSlice(s, 11, 19, 3, 5);
    SubSlice(s, 11, 19, 6, 8);
    TimePartOfDigits(t, time);
    FormatTimestampLayout(t);
    JoinFormatted(s);
  }

  lemma SubSlice(s: string, i: nat, j: nat, a: nat, b: nat)
    requires i <= j <= |s| && a <= b <= j - i
    ensures s[i..j][a..b] == s[i + a..i + b]
  {
    assert forall k | 0 <= k < b - a :: s[i..j][a..b][k] == s[i + a + k];
  }

  lemma JoinFormatted(s: string)
    requires |s| == 23 && s[10] == ' ' && s[19..] == " UTC"
    ensures s == s[..10] + " " + s[11..19] + " UTC"
  {
  }
}
