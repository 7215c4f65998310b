/**
 * Snapshot dates: `datetime.strptime(text, "%Y%m%d").date()` and the reduction of a snapshot
 * file name to that text.
 */
module Dates {
  import opened Wrappers
  import opened PyStr
  import opened Seqs

  datatype Date = Date(year: int, month: int, day: int)

  predicate IsLeapYear(y: int)
  {
    y % 4 == 0 && (y % 100 != 0 || y % 400 == 0)
  }

  function DaysInMonth(y: int, m: int): int
    requires 1 <= m <= 12
  {
    if m == 2 then (if IsLeapYear(y) then 29 else 28)
    else if m == 4 || m == 6 || m == 9 || m == 11 then 30
    else 31
  }

  /** What `datetime.date` accepts: years 1 to 9999 and a day that exists in its month. */
  predicate ValidDate(d: Date)
  {
    1 <= d.year <= 9999 && 1 <= d.month <= 12 && 1 <= d.day <= DaysInMonth(d.year, d.month)
  }

  predicate IsDigit(c: char)
  {
    '0' <= c <= '9'
  }

  function Digit(c: char): int
  {
    c as int - '0' as int
  }

  /** A regular-expression group that matched: where it ends and the integer its text converts to. */
  datatype Group = Group(end: nat, value: int)

  /**
   * The alternatives of the month group `1[0-2]|0[1-9]|[1-9]` that match at `i`, in the
   * order the regular-expression engine tries them.
   */
  function MonthAlternatives(s: string, i: nat): seq<Group>
  {
    (if i + 2 <= |s| && s[i] == '1' && '0' <= s[i + 1] <= '2' then [Group(i + 2, 10 + Digit(s[i + 1]))] else [])
    + (if i + 2 <= |s| && s[i] == '0' && '1' <= s[i + 1] <= '9' then [Group(i + 2, Digit(s[i + 1]))] else [])
    + (if i + 1 <= |s| && '1' <= s[i] <= '9' then [Group(i + 1, Digit(s[i]))] else [])
  }

  /**
   * The alternatives of the day group `3[01]|[12]\d|0[1-9]|[1-9]| [1-9]` that match at `i`,
   * in the order the regular-expression engine tries them (`int(" 7")` is 7).
   */
  function DayAlternatives(s: string, i: nat): seq<Group>
  {
    (if i + 2 <= |s| && s[i] == '3' && '0' <= s[i + 1] <= '1' then [Group(i + 2, 30 + Digit(s[i + 1]))] else [])
    + (if i + 2 <= |s| && '1' <= s[i] <= '2' && IsDigit(s[i + 1]) then [Group(i + 2, 10 * Digit(s[i]) + Digit(s[i + 1]))] else [])
    + (if i + 2 <= |s| && s[i] == '0' && '1' <= s[i + 1] <= '9' then [Group(i + 2, Digit(s[i + 1]))] else [])
    + (if i + 1 <= |s| && '1' <= s[i] <= '9' then [Group(i + 1, Digit(s[i]))] else [])
    + (if i + 2 <= |s| && s[i] == ' ' && '1' <= s[i + 1] <= '9' then [Group(i + 2, Digit(s[i + 1]))] else [])
  }

  /**
   * Backtracking over the month alternatives: the first one after which some day alternative
   * matches, together with the first such day alternative. The pattern is not anchored at
   * the end, so the match stops there.
   */
  function FirstMatch(s: string, months: seq<Group>): Option<(Group, Group)>
  {
    if months == [] then None
    else
      var days := DayAlternatives(s, months[0].end);
      if days != [] then Some((months[0], days[0])) else FirstMatch(s, months[1..])
  }

  /**
   * `datetime.strptime(s, "%Y%m%d").date()`, with `None` for every `ValueError`: the text does
   * not match the pattern, unconverted data remains after the match, or the date does not exist.
   */
  function ParseYmd(s: string): (r: Option<Date>)
    ensures r.Some? ==> ValidDate(r.value)
  {
    if |s| < 4 || !(IsDigit(s[0]) && IsDigit(s[1]) && IsDigit(s[2]) && IsDigit(s[3])) then None
    else
      var year := 1000 * Digit(s[0]) + 100 * Digit(s[1]) + 10 * Digit(s[2]) + Digit(s[3]);
      match FirstMatch(s, MonthAlternatives(s, 4))
      case None => None
      case Some((month, day)) =>
        if day.end != |s| then None
        else if ValidDate(Date(year, month.value, day.value)) then Some(Date(year, month.value, day.value))
        else None
  }

  predicate AllDigits(s: string)
  {
    forall k :: 0 <= k < |s| ==> IsDigit(s[k])
  }

  /** The date an eight-digit text `YYYYMMDD` spells, read digit by digit. */
  function DateOfDigits(s: string): Date
    requires |s| == 8
  {
    Date(1000 * Digit(s[0]) + 100 * Digit(s[1]) + 10 * Digit(s[2]) + Digit(s[3]),
         10 * Digit(s[4]) + Digit(s[5]),
         10 * Digit(s[6]) + Digit(s[7]))
  }

  /** On eight ASCII digits the parser yields the date they spell exactly when that date exists. */
  lemma ParseEightDigits(s: string)
    requires |s| == 8 && AllDigits(s)
    ensures ParseYmd(s) == if ValidDate(DateOfDigits(s)) then Some(DateOfDigits(s)) else None
  {
    var d := DateOfDigits(s);
    assert IsDigit(s[0]) && IsDigit(s[1]) && IsDigit(s[2]) && IsDigit(s[3]);
    MatchOnDigits(s);
    assert ValidDate(d) ==> 1 <= d.month <= 12 && 1 <= d.day <= 31;
  }

  /**
   * On eight digits the pattern matches all of `s` exactly when `MM` is 01 to 12 and `DD` is
   * 01 to 31; then the groups read `MM` and `DD`.
   */
  lemma MatchOnDigits(s: string)
    requires |s| == 8 && AllDigits(s)
    ensures var m := FirstMatch(s, MonthAlternatives(s, 4));
      var month, day := 10 * Digit(s[4]) + Digit(s[5]), 10 * Digit(s[6]) + Digit(s[7]);
      if 1 <= month <= 12 && 1 <= day <= 31 then m == Some((Group(6, month), Group(8, day)))
      else m.None? || m.value.1.end != 8
  {
    var months := MonthAlternatives(s, 4);
    MonthAlternativesShape(s);
    if months != [] && months[0].end == 6 {
      MatchAfterTwoDigitMonth(s, months);
    } else {
      FirstMatchEnds(s, months);
    }
  }

  /** After a two-digit month the match covers `s` exactly when the day reads 01 to 31. */
  lemma MatchAfterTwoDigitMonth(s: string, months: seq<Group>)
    requires |s| == 8 && AllDigits(s)
    requires months != [] && months[0].end == 6
    requires forall k :: 0 < k < |months| ==> months[k].end == 5
    ensures var m := FirstMatch(s, months);
      var day := 10 * Digit(s[6]) + Digit(s[7]);
      if 1 <= day <= 31 then m == Some((months[0], Group(8, day)))
      else m.None? || m.value.1.end != 8
  {
    DayAlternativesShape(s, 6);
    FirstMatchEnds(s, months[1..]);
  }

  /** On digits, a two-character month alternative comes first and reads `MM`, and only when `MM` is 01 to 12. */
  lemma MonthAlternativesShape(s: string)
    requires |s| == 8 && AllDigits(s)
    ensures var ms := MonthAlternatives(s, 4);
      && (forall k :: 0 <= k < |ms| ==> ms[k].end == 5 || (k == 0 && ms[k].end == 6))
      && (1 <= 10 * Digit(s[4]) + Digit(s[5]) <= 12 <==> (ms != [] && ms[0].end == 6))
      && (ms != [] && ms[0].end == 6 ==> ms[0].value == 10 * Digit(s[4]) + Digit(s[5]))
  {
    assert IsDigit(s[4]) && IsDigit(s[5]);
  }

  /** On digits, the first day alternative reads two characters exactly when they spell 01 to 31. */
  lemma DayAlternativesShape(s: string, i: nat)
    requires |s| == 8 && AllDigits(s) && i + 2 <= 8
    ensures var ds := DayAlternatives(s, i);
      && (forall k :: 0 <= k < |ds| ==> ds[k].end == i + 1 || ds[k].end == i + 2)
      && (1 <= 10 * Digit(s[i]) + Digit(s[i + 1]) <= 31 <==> (ds != [] && ds[0].end == i + 2))
      && (ds != [] && ds[0].end == i + 2 ==> ds[0].value == 10 * Digit(s[i]) + Digit(s[i + 1]))
  {
    assert IsDigit(s[i]) && IsDigit(s[i + 1]);
  }

  /** When every month alternative ends at `5`, no day group reaches past `7`, so the match never covers eight characters. */
  lemma {:induction false} FirstMatchEnds(s: string, months: seq<Group>)
    requires |s| == 8 && AllDigits(s)
    requires forall k :: 0 <= k < |months| ==> months[k].end == 5
    ensures FirstMatch(s, months).Some? ==> FirstMatch(s, months).value.1.end <= 7
  {
    if months != [] {
      DayAlternativesShape(s, 5);
      FirstMatchEnds(s, months[1..]);
    }
  }

  /** Leap day: `YYYY0229` parses exactly when `YYYY` is a leap year other than 0000. */
  lemma LeapDayParses(s: string)
    requires |s| == 8 && AllDigits(s) && s[4..] == "0229"
    ensures ParseYmd(s).Some? <==> DateOfDigits(s).year >= 1 && IsLeapYear(DateOfDigits(s).year)
  {
    assert s[4] == '0' && s[5] == '2' && s[6] == '2' && s[7] == '9' by { assert s[4..][0] == s[4]; assert s[4..][1] == s[5]; assert s[4..][2] == s[6]; assert s[4..][3] == s[7]; }
    ParseEightDigits(s);
  }

  /** The prefix every snapshot file name starts with. */
  const SnapshotPrefix := "deepstatemap_data_"

  /** The extension of snapshot files. */
  const SnapshotSuffix := ".geojson"

  /** What remains of a file name for the date parser: its basename with every prefix and every suffix occurrence deleted. */
  function DateText(filename: string): string
  {
    Remove(Remove(Basename(filename), SnapshotPrefix), SnapshotSuffix)
  }

  /** `extract_date_from_filename`. */
  function ExtractDateFromFilename(filename: string): Option<Date>
  {
    ParseYmd(DateText(filename))
  }

  /** The date of a path is the date of its last component. */
  lemma DateDependsOnlyOnBasename(dir: string, name: string)
    requires '/' !in name
    ensures ExtractDateFromFilename(dir + "/" + name) == ExtractDateFromFilename(name)
  {
    BasenameOfJoin(dir, name);
    BasenameOfName(name);
  }

  /** A digit string in a snapshot name, followed by one or two extensions, is what the parser sees. */
  lemma SnapshotNameDateText(t: string)
    requires AllDigits(t)
    ensures DateText(SnapshotPrefix + t + SnapshotSuffix) == t
    ensures DateText(SnapshotPrefix + t + SnapshotSuffix + SnapshotSuffix) == t
  {
    var prefix, suffix := SnapshotPrefix, SnapshotSuffix;
    DigitsThenSuffixes(t, suffix);
    DigitsThenSuffixes(t, suffix + suffix);
    SeqAssoc(prefix, t, suffix);
    SeqAssoc(prefix, t, suffix + suffix);
    SeqAssoc(prefix + t, suffix, suffix);
  }

  /** Digits followed by extensions only: the date text is the digits. */
  lemma DigitsThenSuffixes(t: string, tail: string)
    requires AllDigits(t)
    requires tail == SnapshotSuffix || tail == SnapshotSuffix + SnapshotSuffix
    ensures DateText(SnapshotPrefix + (t + tail)) == t
  {
    NameCharacters(t);
    SuffixRemovedEntirely();
    assert forall k :: 0 <= k < |tail| ==> tail[k] != '/' && tail[k] != 'd';
    var rest := t + tail;
    assert forall k :: 0 <= k < |rest| ==> rest[k] != '/' && rest[k] != 'd';
    PrefixDeleted(rest);
    RemoveAfterAbsent(t, tail, SnapshotSuffix);
  }

  /** Deleting the prefix from `prefix + rest` leaves `rest`, when `rest` has no `/` and no `d`. */
  lemma PrefixDeleted(rest: string)
    requires forall k :: 0 <= k < |rest| ==> rest[k] != '/' && rest[k] != 'd'
    ensures DateText(SnapshotPrefix + rest) == Remove(rest, SnapshotSuffix)
  {
    var prefix := SnapshotPrefix;
    NameCharacters("");
    var name := prefix + rest;
    assert forall k :: 0 <= k < |name| ==> name[k] != '/';
    BasenameOfName(name);
    RemoveOnlyLeading(prefix, rest);
  }

  /** No character of the digits or of the extension is a `/` or a `d` (the prefix's first letter); no digit is a `.`. */
  lemma NameCharacters(t: string)
    requires AllDigits(t)
    ensures SnapshotPrefix[0] == 'd' && SnapshotSuffix[0] == '.'
    ensures forall k :: 0 <= k < |t| ==> t[k] != '/' && t[k] != 'd' && t[k] != '.'
    ensures forall k :: 0 <= k < |SnapshotSuffix| ==> SnapshotSuffix[k] != '/' && SnapshotSuffix[k] != 'd'
    ensures '/' !in SnapshotPrefix
  {
  }

  /** One or two extensions and nothing else are deleted altogether. */
  lemma SuffixRemovedEntirely()
    ensures Remove(SnapshotSuffix, SnapshotSuffix) == ""
    ensures Remove(SnapshotSuffix + SnapshotSuffix, SnapshotSuffix) == ""
  {
    var suffix := SnapshotSuffix;
    assert suffix == suffix + "";
    RemoveLeading(suffix, "");
    RemoveLeading(suffix, suffix);
    RemoveAbsent("", suffix);
  }

  function DigitChar(n: int): char
    requires 0 <= n <= 9
  {
    ('0' as int + n) as char
  }

  /** `strftime('%Y%m%d')` for four-digit years. */
  function FormatYmd(d: Date): string
    requires 1000 <= d.year <= 9999 && 1 <= d.month <= 12 && 1 <= d.day <= 31
  {
    [DigitChar(d.year / 1000), DigitChar(d.year / 100 % 10), DigitChar(d.year / 10 % 10), DigitChar(d.year % 10),
     DigitChar(d.month / 10), DigitChar(d.month % 10), DigitChar(d.day / 10), DigitChar(d.day % 10)]
  }

  /** The name the pipeline gives the snapshot it writes on date `d`. */
  function SnapshotFilename(d: Date): string
    requires 1000 <= d.year <= 9999 && 1 <= d.month <= 12 && 1 <= d.day <= 31
  {
    SnapshotPrefix + FormatYmd(d) + SnapshotSuffix
  }

  /** Formatting then parsing a date gives it back. */
  lemma FormatParseRoundTrip(d: Date)
    requires ValidDate(d) && d.year >= 1000
    ensures ParseYmd(FormatYmd(d)) == Some(d)
  {
    var t := FormatYmd(d);
    assert AllDigits(t);
    ParseEightDigits(t);
    FormattedDigitsSpellDate(d);
  }

  /** The eight digits `FormatYmd` writes read back as the date's year, month and day. */
  lemma FormattedDigitsSpellDate(d: Date)
    requires 1000 <= d.year <= 9999 && 1 <= d.month <= 12 && 1 <= d.day <= 31
    ensures DateOfDigits(FormatYmd(d)) == d
  {
    var t := FormatYmd(d);
    var y := d.year;
    assert Digit(t[0]) == y / 1000 && Digit(t[1]) == y / 100 % 10;
    assert Digit(t[2]) == y / 10 % 10 && Digit(t[3]) == y % 10;
    assert y == 10 * (y / 10) + y % 10;
    assert y / 10 == 10 * (y / 100) + y / 10 % 10;
    assert y / 100 == 10 * (y / 1000) + y / 100 % 10;
    assert Digit(t[4]) == d.month / 10 && Digit(t[5]) == d.month % 10;
    assert Digit(t[6]) == d.day / 10 && Digit(t[7]) == d.day % 10;
  }

  /** The date of the snapshot written on `d` is read back from its file name. */
  lemma SnapshotFilenameRoundTrip(d: Date)
    requires ValidDate(d) && d.year >= 1000
    ensures ExtractDateFromFilename(SnapshotFilename(d)) == Some(d)
  {
    var t := FormatYmd(d);
    assert AllDigits(t);
    SnapshotNameDateText(t);
    FormatParseRoundTrip(d);
  }

  /** Month 13, February 30 and year 0000 are refused. */
  lemma ImpossibleDatesRefused()
    ensures ParseYmd("20241301") == None
    ensures ParseYmd("20240230") == None
    ensures ParseYmd("00000101") == None
  {
  }

  /** February 29 parses only in a leap year. */
  lemma LeapDayExamples()
    ensures ParseYmd("20240229") == Some(Date(2024, 2, 29))
    ensures ParseYmd("20230229") == None
  {
  }

  /**
   * Texts other than eight digits: the regular expression backtracks over the month
   * alternatives and accepts a one-digit month or day.
   */
  lemma ParseShortFormExamples()
    ensures ParseYmd("2024131") == Some(Date(2024, 1, 31))
    ensures ParseYmd("202411") == Some(Date(2024, 1, 1))
    ensures ParseYmd("2024010") == None
  {
  }

  /** A space before a one-digit day is accepted; trailing text is unconverted data. */
  lemma ParseSpaceAndTrailingExamples()
    ensures ParseYmd("20241 5") == Some(Date(2024, 1, 5))
    ensures ParseYmd("20240101x") == None
  {
  }
}
