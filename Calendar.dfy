/** Python's `date` and `datetime` values as the connector uses them: the
    proleptic Gregorian calendar for years 1 to 9999, minute resolution, and the
    three textual forms the connector reads or writes. */
module Calendar {
  import opened Wrappers
  import opened Text

  datatype Date = Date(year: int, month: int, day: int)

  /** A date and a time of day; seconds are always zero in this model. */
  datatype DateTime = DateTime(date: Date, hour: int, minute: int)

  predicate IsLeapYear(year: int) {
    year % 4 == 0 && (year % 100 != 0 || year % 400 == 0)
  }

  function DaysInMonth(year: int, month: int): (r: int)
    requires 1 <= month <= 12
  {
    if month == 2 then (if IsLeapYear(year) then 29 else 28)
    else if month == 4 || month == 6 || month == 9 || month == 11 then 30
    else 31
  }

  /** The dates Python's `date` can hold (MINYEAR 1 to MAXYEAR 9999). */
  predicate ValidDate(d: Date) {
    && 1 <= d.year <= 9999
    && 1 <= d.month <= 12
    && 1 <= d.day <= DaysInMonth(d.year, d.month)
  }

  predicate ValidDateTime(t: DateTime) {
    && ValidDate(t.date)
    && 0 <= t.hour < 24
    && 0 <= t.minute < 60
  }

  /** A Python `date` object. */
  type CalendarDate = d: Date | ValidDate(d) witness Date(1, 1, 1)

  /** A Python `datetime` object (naive, seconds zero). */
  type Instant = t: DateTime | ValidDateTime(t) witness DateTime(Date(1, 1, 1), 0, 0)

  /** `t.strftime("%d/%m/%Y %H:%M")`: the transavia timestamp text. */
  function FormatDateTime(t: Instant): (r: string) {
    Pad(t.date.day, 2) + "/" + Pad(t.date.month, 2) + "/" + Pad(t.date.year, 4)
      + " " + Pad(t.hour, 2) + ":" + Pad(t.minute, 2)
  }

  /** The fixed layout `DD/MM/YYYY HH:MM`: sixteen characters, digits everywhere
      except the four separators. */
  predicate TimestampShaped(s: string) {
    && |s| == 16
    && s[2] == '/' && s[5] == '/' && s[10] == ' ' && s[13] == ':'
    && AllDigits(s[0..2]) && AllDigits(s[3..5]) && AllDigits(s[6..10])
    && AllDigits(s[11..13]) && AllDigits(s[14..16])
  }

  /** `datetime.strptime(value, "%d/%m/%Y %H:%M")`, with `None` for the
      `ValueError` it raises. */
  function StrToDateTime(value: string): (r: Option<Instant>)
    ensures r.Some? ==> |value| == 16
    ensures r.Some? ==> value[2] == '/' && value[5] == '/' && value[10] == ' ' && value[13] == ':'
  {
    if !TimestampShaped(value) then None
    else
      var t := DateTime(
        Date(DigitsValue(value[6..10]), DigitsValue(value[3..5]), DigitsValue(value[0..2])),
        DigitsValue(value[11..13]), DigitsValue(value[14..16]));
      if ValidDateTime(t) then Some(t) else None
  }

  /** Whatever `strptime` returns formats back to the exact text it read. */
  lemma StrToDateTimeFormats(value: string)
    ensures StrToDateTime(value).Some? ==> FormatDateTime(StrToDateTime(value).value) == value
  {
    if TimestampShaped(value) {
      FormatOfParsed(value);
    }
  }

  /** Formatting the fields read from a well-shaped timestamp reproduces it. */
  lemma FormatOfParsed(value: string)
    requires TimestampShaped(value)
    ensures var t := DateTime(
              Date(DigitsValue(value[6..10]), DigitsValue(value[3..5]), DigitsValue(value[0..2])),
              DigitsValue(value[11..13]), DigitsValue(value[14..16]));
            ValidDateTime(t) ==> FormatDateTime(t) == value
  {
    PadDigitsValue(value[0..2]);
    PadDigitsValue(value[3..5]);
    PadDigitsValue(value[6..10]);
    PadDigitsValue(value[11..13]);
    PadDigitsValue(value[14..16]);
    assert value == value[0..2] + [value[2]] + value[3..5] + [value[5]] + value[6..10]
      + [value[10]] + value[11..13] + [value[13]] + value[14..16];
  }

  /** Where each field sits in the timestamp text. */
  lemma FormatLayout(t: Instant)
    ensures var s := FormatDateTime(t);
      && |s| == 16 && s[2] == '/' && s[5] == '/' && s[10] == ' ' && s[13] == ':'
      && s[0..2] == Pad(t.date.day, 2) && s[3..5] == Pad(t.date.month, 2)
      && s[6..10] == Pad(t.date.year, 4)
      && s[11..13] == Pad(t.hour, 2) && s[14..16] == Pad(t.minute, 2)
  {
  }

  /** Parsing the formatting of any datetime gives it back. */
  lemma ParseFormat(t: Instant)
    ensures StrToDateTime(FormatDateTime(t)) == Some(t)
  {
    var s := FormatDateTime(t);
    FormatLayout(t);
    PadDigits(t.date.day, 2);
    PadDigits(t.date.month, 2);
    PadDigits(t.date.year, 4);
    PadDigits(t.hour, 2);
    PadDigits(t.minute, 2);
    assert TimestampShaped(s);
  }

  /** `strptime` accepts a text exactly when it spells a valid datetime in the
      fixed layout: both directions of the round trip. */
  lemma StrToDateTimeExactly(value: string, t: Instant)
    ensures StrToDateTime(value) == Some(t) <==> FormatDateTime(t) == value
  {
    if FormatDateTime(t) == value {
      ParseFormat(t);
    } else {
      StrToDateTimeFormats(value);
    }
  }

  /** `d.strftime("%d-%m-%Y")`, the text typed into the search form's date fields. */
  function FormDate(d: CalendarDate): (r: string)
    ensures |r| == 10 && r[2] == '-' && r[5] == '-'
  {
    Pad(d.day, 2) + "-" + Pad(d.month, 2) + "-" + Pad(d.year, 4)
  }

  /** `FormDate` is ten characters, dashes at positions 2 and 5, and its digit
      groups read back as the day, the month and the year. */
  lemma FormDateFields(d: CalendarDate)
    ensures var r := FormDate(d);
      && |r| == 10 && r[2] == '-' && r[5] == '-'
      && AllDigits(r[..2]) && AllDigits(r[3..5]) && AllDigits(r[6..])
      && DigitsValue(r[..2]) == d.day && DigitsValue(r[3..5]) == d.month
      && DigitsValue(r[6..]) == d.year
  {
    var r := FormDate(d);
    SlicesOfThree(Pad(d.day, 2), '-', Pad(d.month, 2), '-', Pad(d.year, 4));
    PadDigits(d.day, 2);
    PadDigits(d.month, 2);
    PadDigits(d.year, 4);
  }

  /** `d.isoformat()`: ISO 8601 calendar date in extended format, YYYY-MM-DD. */
  function IsoDate(d: CalendarDate): (r: string)
    ensures |r| == 10 && r[4] == '-' && r[7] == '-'
  {
    Pad(d.year, 4) + "-" + Pad(d.month, 2) + "-" + Pad(d.day, 2)
  }

  /** `IsoDate` is ten characters, dashes at positions 4 and 7, and its digit
      groups read back as the year, the month and the day. */
  lemma IsoDateFields(d: CalendarDate)
    ensures var r := IsoDate(d);
      && |r| == 10 && r[4] == '-' && r[7] == '-'
      && AllDigits(r[..4]) && AllDigits(r[5..7]) && AllDigits(r[8..])
      && DigitsValue(r[..4]) == d.year && DigitsValue(r[5..7]) == d.month
      && DigitsValue(r[8..]) == d.day
  {
    var r := IsoDate(d);
    SlicesOfThree(Pad(d.year, 4), '-', Pad(d.month, 2), '-', Pad(d.day, 2));
    PadDigits(d.day, 2);
    PadDigits(d.month, 2);
    PadDigits(d.year, 4);
  }

  /** Where the three fields of `a + [x] + b + [y] + c` sit. */
  lemma SlicesOfThree(a: string, x: char, b: string, y: char, c: string)
    ensures var r := a + [x] + b + [y] + c;
      && r[..|a|] == a && r[|a|] == x && r[|a| + 1..|a| + 1 + |b|] == b
      && r[|a| + 1 + |b|] == y && r[|a| + |b| + 2..] == c
  {
  }

  /** `t.time().isoformat(timespec='minutes')`: HH:MM. */
  function TimeOfDay(t: Instant): (r: string)
    ensures |r| == 5 && r[2] == ':'
  {
    Pad(t.hour, 2) + ":" + Pad(t.minute, 2)
  }

  /** `TimeOfDay` is five characters, a colon at position 2, and its digit
      groups read back as the hour and the minute. */
  lemma TimeOfDayFields(t: Instant)
    ensures var r := TimeOfDay(t);
      && |r| == 5 && r[2] == ':'
      && AllDigits(r[..2]) && AllDigits(r[3..])
      && DigitsValue(r[..2]) == t.hour && DigitsValue(r[3..]) == t.minute
  {
    var r := TimeOfDay(t);
    PadDigits(t.hour, 2);
    PadDigits(t.minute, 2);
    assert r[..2] == Pad(t.hour, 2) && r[3..] == Pad(t.minute, 2);
  }

  /** The timestamps of 21 October 2021 08:30 and 10:15, and the two
      search-form dates of a 21 to 22 October 2021 trip. */
  lemma FormatExamples()
    ensures FormatDateTime(DateTime(Date(2021, 10, 21), 8, 30)) == "21/10/2021 08:30"
    ensures FormatDateTime(DateTime(Date(2021, 10, 21), 10, 15)) == "21/10/2021 10:15"
    ensures FormDate(Date(2021, 10, 21)) == "21-10-2021"
    ensures FormDate(Date(2021, 10, 22)) == "22-10-2021"
  {
    PaddedExamples();
    assert FormatDateTime(DateTime(Date(2021, 10, 21), 8, 30))
        == "21" + "/" + "10" + "/" + "2021" + " " + "08" + ":" + "30";
    assert FormatDateTime(DateTime(Date(2021, 10, 21), 10, 15))
        == "21" + "/" + "10" + "/" + "2021" + " " + "10" + ":" + "15";
    assert FormDate(Date(2021, 10, 21)) == "21" + "-" + "10" + "-" + "2021";
    assert FormDate(Date(2021, 10, 22)) == "22" + "-" + "10" + "-" + "2021";
    ExampleTexts();
  }

  /** The example texts, spelled field by field. */
  lemma ExampleTexts()
    ensures "21" + "/" + "10" + "/" + "2021" + " " + "08" + ":" + "30" == "21/10/2021 08:30"
    ensures "21" + "/" + "10" + "/" + "2021" + " " + "10" + ":" + "15" == "21/10/2021 10:15"
    ensures "21" + "-" + "10" + "-" + "2021" == "21-10-2021"
    ensures "22" + "-" + "10" + "-" + "2021" == "22-10-2021"
  {
  }

  /** The zero-padded fields of those examples. */
  lemma PaddedExamples()
    ensures Pad(2021, 4) == "2021"
    ensures Pad(21, 2) == "21" && Pad(22, 2) == "22" && Pad(10, 2) == "10"
    ensures Pad(8, 2) == "08" && Pad(30, 2) == "30" && Pad(15, 2) == "15"
  {
    PaddedDates();
    PaddedTimes();
  }

  /** The zero-padded date fields of those examples. */
  lemma PaddedDates()
    ensures Pad(2021, 4) == "2021" && Pad(21, 2) == "21" && Pad(22, 2) == "22" && Pad(10, 2) == "10"
  {
  }

  /** The zero-padded time fields of those examples. */
  lemma PaddedTimes()
    ensures Pad(8, 2) == "08" && Pad(30, 2) == "30" && Pad(15, 2) == "15"
  {
  }
}
