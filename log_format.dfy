/**
 * The names and lines the logger writes: the monthly file name
 * `temperature_{year:04}_{month:02}.txt`, the timestamp
 * `{:04}-{:02}-{:02} {:02}:{:02}:{:02}` and the log entry
 * `<timestamp> - Temperature: <value>°C\n`, each with a parser that
 * recovers what was formatted.
 */
module LogFormat {
  import opened Options
  import opened Decimal

  /** The first six fields of a `utime.localtime()` tuple. */
  datatype Clock = Clock(year: nat, month: nat, day: nat, hour: nat, minute: nat, second: nat)

  /** Every field fits the width it is formatted with, so none of them overflows its column. */
  predicate FitsFieldWidths(t: Clock) {
    t.year < 10000 && t.month < 100 && t.day < 100 &&
    t.hour < 100 && t.minute < 100 && t.second < 100
  }

  const FILE_PREFIX: string := "temperature_"
  const FILE_SUFFIX: string := ".txt"

  function LogFileName(year: nat, month: nat): string {
    FILE_PREFIX + PadInt(year, 4) + "_" + PadInt(month, 2) + FILE_SUFFIX
  }

  /**
   * Reads a year and a month back out of a log file name. The year takes
   * every digit between the prefix and the last underscore, so a year of more
   * than four digits is read in full.
   */
  function ParseLogFileName(name: string): Option<(nat, nat)> {
    var n := |name|;
    if n >= 20 && name[..12] == FILE_PREFIX && name[n - 4..] == FILE_SUFFIX && name[n - 7] == '_'
       && AllDigits(name[12..n - 7]) && AllDigits(name[n - 6..n - 4])
    then Some((DecimalValue(name[12..n - 7]), DecimalValue(name[n - 6..n - 4])))
    else None
  }

  /** Where the pieces of `prefix + year + "_" + month + suffix` lie, for a 12-character prefix, 2-character month and 4-character suffix. */
  lemma FileNameSplit(prefix: string, year: string, month: string, suffix: string)
    requires |prefix| == 12 && |month| == 2 && |suffix| == 4
    ensures var name := prefix + year + "_" + month + suffix;
      var n := |name|;
      && n == 19 + |year|
      && name[..12] == prefix
      && name[12..n - 7] == year
      && name[n - 7] == '_'
      && name[n - 6..n - 4] == month
      && name[n - 4..] == suffix
  {
    var name := prefix + year + "_" + month + suffix;
    var n := |name|;
    assert name == prefix + (year + ("_" + (month + suffix)));
    assert name[..12] == prefix;
    assert name[12..n - 7] == year;
    assert name[n - 6..n - 4] == month;
    assert name[n - 4..] == suffix;
  }

  /** The file name for a month below 100 splits at fixed offsets measured from its end. */
  lemma LogFileNameParts(year: nat, month: nat)
    requires month < 100
    ensures var name := LogFileName(year, month);
      var n := |name|;
      && n == 19 + Max(4, NumDigits(year))
      && name[..12] == FILE_PREFIX
      && name[12..n - 7] == PadInt(year, 4)
      && name[n - 7] == '_'
      && name[n - 6..n - 4] == PadInt(month, 2)
      && name[n - 4..] == FILE_SUFFIX
  {
    PadIntFixedWidth(month, 2);
    FileNameSplit(FILE_PREFIX, PadInt(year, 4), PadInt(month, 2), FILE_SUFFIX);
  }

  /** A year and month in range give `temperature_YYYY_MM.txt`, 23 characters long. */
  lemma LogFileNameShape(year: nat, month: nat)
    requires year < 10000 && month < 100
    ensures var name := LogFileName(year, month);
      && |name| == 23
      && name[..12] == FILE_PREFIX
      && AllDigits(name[12..16]) && DecimalValue(name[12..16]) == year
      && name[16] == '_'
      && AllDigits(name[17..19]) && DecimalValue(name[17..19]) == month
      && name[19..] == FILE_SUFFIX
  {
    PadIntFixedWidth(year, 4);
    LogFileNameParts(year, month);
    PadIntRoundTrip(year, 4);
    PadIntRoundTrip(month, 2);
  }

  /** The file name of any year, however many digits it has, and of any month below 100 parses back. */
  lemma ParseLogFileNameRoundTrip(year: nat, month: nat)
    requires month < 100
    ensures ParseLogFileName(LogFileName(year, month)) == Some((year, month))
  {
    LogFileNameParts(year, month);
    var name := LogFileName(year, month);
    var n := |name|;
    var y, m := name[12..n - 7], name[n - 6..n - 4];
    assert y == PadInt(year, 4) && m == PadInt(month, 2);
    PadIntRoundTrip(year, 4);
    PadIntRoundTrip(month, 2);
    assert AllDigits(y) && AllDigits(m);
    assert DecimalValue(y) == year && DecimalValue(m) == month;
  }

  /** Each month has a file of its own: distinct (year, month) pairs give distinct names. */
  lemma LogFileNameInjective(y1: nat, m1: nat, y2: nat, m2: nat)
    requires m1 < 100 && m2 < 100
    requires LogFileName(y1, m1) == LogFileName(y2, m2)
    ensures y1 == y2 && m1 == m2
  {
    ParseLogFileNameRoundTrip(y1, m1);
    ParseLogFileNameRoundTrip(y2, m2);
  }

  /** March 2024 is logged to `temperature_2024_03.txt`. */
  lemma LogFileNameMarch2024()
    ensures LogFileName(2024, 3) == "temperature_2024_03.txt"
  {
    assert Digits(2024) == "2024" by {
      assert Digits(2) == "2";
      assert Digits(20) == "20";
      assert Digits(202) == "202";
    }
    assert PadInt(2024, 4) == "2024";
    assert PadInt(3, 2) == "03" by {
      assert PadInt(3, 1) == "3";
    }
  }

  /** `"{:04}-{:02}-{:02} {:02}:{:02}:{:02}"` applied to the six clock fields. */
  function FormatTimestamp(t: Clock): string {
    PadInt(t.year, 4) + "-" + PadInt(t.month, 2) + "-" + PadInt(t.day, 2) + " " +
    PadInt(t.hour, 2) + ":" + PadInt(t.minute, 2) + ":" + PadInt(t.second, 2)
  }

  /** The positions of the five separators in a 19-character timestamp. */
  predicate IsSeparatorIndex(i: int) {
    i == 4 || i == 7 || i == 10 || i == 13 || i == 16
  }

  predicate IsDigitField(s: string, lo: nat, hi: nat)
    requires lo <= hi <= |s|
  {
    AllDigits(s[lo..hi])
  }

  function ParseTimestamp(s: string): Option<Clock> {
    if |s| == 19 && s[4] == '-' && s[7] == '-' && s[10] == ' ' && s[13] == ':' && s[16] == ':'
       && IsDigitField(s, 0, 4) && IsDigitField(s, 5, 7) && IsDigitField(s, 8, 10)
       && IsDigitField(s, 11, 13) && IsDigitField(s, 14, 16) && IsDigitField(s, 17, 19)
    then Some(Clock(DecimalValue(s[0..4]), DecimalValue(s[5..7]), DecimalValue(s[8..10]),
                    DecimalValue(s[11..13]), DecimalValue(s[14..16]), DecimalValue(s[17..19])))
    else None
  }

  /** Where the six fields of a timestamp lie once each has its formatted width. */
  lemma TimestampSplit(y: string, mo: string, d: string, h: string, mi: string, sec: string)
    requires |y| == 4 && |mo| == 2 && |d| == 2 && |h| == 2 && |mi| == 2 && |sec| == 2
    ensures var s := y + "-" + mo + "-" + d + " " + h + ":" + mi + ":" + sec;
      && |s| == 19
      && s[0..4] == y && s[4] == '-' && s[5..7] == mo && s[7] == '-'
      && s[8..10] == d && s[10] == ' ' && s[11..13] == h && s[13] == ':'
      && s[14..16] == mi && s[16] == ':' && s[17..19] == sec
  {
    var s := y + "-" + mo + "-" + d + " " + h + ":" + mi + ":" + sec;
    assert s[0..4] == y by { assert forall i | 0 <= i < 4 :: s[i] == y[i]; }
    assert s[5..7] == mo by { assert forall i | 0 <= i < 2 :: s[5 + i] == mo[i]; }
    assert s[8..10] == d by { assert forall i | 0 <= i < 2 :: s[8 + i] == d[i]; }
    assert s[11..13] == h by { assert forall i | 0 <= i < 2 :: s[11 + i] == h[i]; }
    assert s[14..16] == mi by { assert forall i | 0 <= i < 2 :: s[14 + i] == mi[i]; }
    assert s[17..19] == sec by { assert forall i | 0 <= i < 2 :: s[17 + i] == sec[i]; }
  }

  lemma TimestampParts(t: Clock)
    requires FitsFieldWidths(t)
    ensures var s := FormatTimestamp(t);
      && |s| == 19
      && s[0..4] == PadInt(t.year, 4) && s[4] == '-'
      && s[5..7] == PadInt(t.month, 2) && s[7] == '-'
      && s[8..10] == PadInt(t.day, 2) && s[10] == ' '
      && s[11..13] == PadInt(t.hour, 2) && s[13] == ':'
      && s[14..16] == PadInt(t.minute, 2) && s[16] == ':'
      && s[17..19] == PadInt(t.second, 2)
  {
    PadIntFixedWidth(t.year, 4);
    PadIntFixedWidth(t.month, 2);
    PadIntFixedWidth(t.day, 2);
    PadIntFixedWidth(t.hour, 2);
    PadIntFixedWidth(t.minute, 2);
    PadIntFixedWidth(t.second, 2);
    TimestampSplit(PadInt(t.year, 4), PadInt(t.month, 2), PadInt(t.day, 2),
                   PadInt(t.hour, 2), PadInt(t.minute, 2), PadInt(t.second, 2));
  }

  /**
   * An in-range timestamp is `YYYY-MM-DD HH:MM:SS`: 19 characters, the five
   * separators at 4, 7, 10, 13 and 16 and a digit at every other position.
   */
  lemma TimestampShape(t: Clock)
    requires FitsFieldWidths(t)
    ensures var s := FormatTimestamp(t);
      && |s| == 19
      && s[4] == '-' && s[7] == '-' && s[10] == ' ' && s[13] == ':' && s[16] == ':'
      && (forall i :: 0 <= i < 19 && !IsSeparatorIndex(i) ==> IsDigit(s[i]))
      && NoNewline(s)
  {
    TimestampParts(t);
    var s := FormatTimestamp(t);
    assert AllDigits(s[0..4]) && AllDigits(s[5..7]) && AllDigits(s[8..10]);
    assert AllDigits(s[11..13]) && AllDigits(s[14..16]) && AllDigits(s[17..19]);
    forall i | 0 <= i < 19 && !IsSeparatorIndex(i)
      ensures IsDigit(s[i])
    {
      if i < 4 { assert s[i] == s[0..4][i]; }
      else if i < 7 { assert s[i] == s[5..7][i - 5]; }
      else if i < 10 { assert s[i] == s[8..10][i - 8]; }
      else if i < 13 { assert s[i] == s[11..13][i - 11]; }
      else if i < 16 { assert s[i] == s[14..16][i - 14]; }
      else { assert s[i] == s[17..19][i - 17]; }
    }
  }

  /** Parsing an in-range timestamp gives back all six clock fields. */
  lemma ParseTimestampRoundTrip(t: Clock)
    requires FitsFieldWidths(t)
    ensures ParseTimestamp(FormatTimestamp(t)) == Some(t)
  {
    TimestampParts(t);
    var s := FormatTimestamp(t);
    PadIntRoundTrip(t.year, 4);
    PadIntRoundTrip(t.month, 2);
    PadIntRoundTrip(t.day, 2);
    PadIntRoundTrip(t.hour, 2);
    PadIntRoundTrip(t.minute, 2);
    PadIntRoundTrip(t.second, 2);
    assert IsDigitField(s, 0, 4) && DecimalValue(s[0..4]) == t.year;
    assert IsDigitField(s, 5, 7) && DecimalValue(s[5..7]) == t.month;
    assert IsDigitField(s, 8, 10) && DecimalValue(s[8..10]) == t.day;
    assert IsDigitField(s, 11, 13) && DecimalValue(s[11..13]) == t.hour;
    assert IsDigitField(s, 14, 16) && DecimalValue(s[14..16]) == t.minute;
    assert IsDigitField(s, 17, 19) && DecimalValue(s[17..19]) == t.second;
  }

  lemma FormatTimestampInjective(t1: Clock, t2: Clock)
    requires FitsFieldWidths(t1) && FitsFieldWidths(t2)
    requires FormatTimestamp(t1) == FormatTimestamp(t2)
    ensures t1 == t2
  {
    ParseTimestampRoundTrip(t1);
    ParseTimestampRoundTrip(t2);
  }

  const ENTRY_INFIX: string := " - Temperature: "
  const ENTRY_SUFFIX: string := "°C\n"

  /** `f"{formatted_time} - Temperature: {temperature:.2f}°C\n"`, the temperature given as its text. */
  function LogEntry(timestamp: string, temperatureText: string): string {
    timestamp + ENTRY_INFIX + temperatureText + ENTRY_SUFFIX
  }

  predicate NoNewline(s: string) {
    forall i :: 0 <= i < |s| ==> s[i] != '\n'
  }

  /**
   * An entry starts with its timestamp, carries the temperature text between
   * the fixed infix and the unit, and ends in a newline that is its only one
   * when neither the timestamp nor the text holds a newline.
   */
  lemma LogEntryShape(timestamp: string, temperatureText: string)
    ensures var e := LogEntry(timestamp, temperatureText);
      && |e| == |timestamp| + |temperatureText| + 19
      && e[..|timestamp|] == timestamp
      && e[|timestamp|..|timestamp| + 16] == ENTRY_INFIX
      && e[|timestamp| + 16..|e| - 3] == temperatureText
      && e[|e| - 3..] == ENTRY_SUFFIX
      && e[|e| - 1] == '\n'
      && (NoNewline(timestamp) && NoNewline(temperatureText) ==> NoNewline(e[..|e| - 1]))
  {
    var e := LogEntry(timestamp, temperatureText);
    var a, b := |timestamp|, |timestamp| + 16;
    assert e[..a] == timestamp;
    assert e[a..b] == ENTRY_INFIX;
    assert e[b..|e| - 3] == temperatureText;
    assert e[|e| - 3..] == ENTRY_SUFFIX;
    if NoNewline(timestamp) && NoNewline(temperatureText) {
      forall i | 0 <= i < |e| - 1
        ensures e[i] != '\n'
      {
        if i < a { assert e[i] == timestamp[i]; }
        else if i < b { assert e[i] == ENTRY_INFIX[i - a]; }
        else if i < |e| - 3 { assert e[i] == temperatureText[i - b]; }
        else { assert e[i] == ENTRY_SUFFIX[i - (|e| - 3)]; }
      }
    }
  }

  /** Splits a log line into its clock fields and its temperature text. */
  function ParseLogEntry(line: string): Option<(Clock, string)> {
    var n := |line|;
    if n >= 38 && line[19..35] == ENTRY_INFIX && line[n - 3..] == ENTRY_SUFFIX then
      match ParseTimestamp(line[..19])
      case Some(t) => Some((t, line[35..n - 3]))
      case None => None
    else None
  }

  /** A log entry built from an in-range clock parses back to that clock and that text. */
  lemma ParseLogEntryRoundTrip(t: Clock, temperatureText: string)
    requires FitsFieldWidths(t)
    ensures ParseLogEntry(LogEntry(FormatTimestamp(t), temperatureText)) == Some((t, temperatureText))
  {
    TimestampParts(t);
    LogEntryShape(FormatTimestamp(t), temperatureText);
    ParseTimestampRoundTrip(t);
  }

  /** Distinct in-range clocks or distinct temperature texts give distinct entries. */
  lemma LogEntryInjective(t1: Clock, t2: Clock, text1: string, text2: string)
    requires FitsFieldWidths(t1) && FitsFieldWidths(t2)
    requires LogEntry(FormatTimestamp(t1), text1) == LogEntry(FormatTimestamp(t2), text2)
    ensures t1 == t2 && text1 == text2
  {
    ParseLogEntryRoundTrip(t1, text1);
    ParseLogEntryRoundTrip(t2, text2);
  }
}
