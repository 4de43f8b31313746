/** Calendar days and the `%d/%m/%Y` date format that the daily aggregation
    parses its date column with. */
module Calendar {
  import opened Wrappers

  /** A calendar day, without time of day. */
  datatype Date = Date(year: int, month: int, day: int)

  /** The Gregorian leap-year rule. */
  predicate IsLeapYear(y: int) {
    y % 4 == 0 && (y % 100 != 0 || y % 400 == 0)
  }

  function DaysInMonth(year: int, month: int): int
    requires 1 <= month <= 12
  {
    if month == 2 then (if IsLeapYear(year) then 29 else 28)
    else if month == 4 || month == 6 || month == 9 || month == 11 then 30
    else 31
  }

  /** A day that Python's date type accepts: years 1 to 9999, months 1 to 12,
      and a day of the month that exists in that month of that year. */
  predicate ValidDate(d: Date) {
    && 1 <= d.year <= 9999
    && 1 <= d.month <= 12
    && 1 <= d.day <= DaysInMonth(d.year, d.month)
  }

  /** Chronological order of days. */
  predicate Before(a: Date, b: Date) {
    || a.year < b.year
    || (a.year == b.year && a.month < b.month)
    || (a.year == b.year && a.month == b.month && a.day < b.day)
  }

  predicate IsDigit(c: char) { '0' <= c <= '9' }

  predicate IsNonZeroDigit(c: char) { '1' <= c <= '9' }

  function DigitValue(c: char): nat
    requires IsDigit(c)
  {
    c as int - '0' as int
  }

  /** The texts the `%d` directive matches: `3[01]|[12]\d|0[1-9]|[1-9]| [1-9]`. */
  predicate DayField(t: string) {
    || (|t| == 1 && IsNonZeroDigit(t[0]))
    || (|t| == 2 && (
          || (t[0] == '3' && (t[1] == '0' || t[1] == '1'))
          || ((t[0] == '1' || t[0] == '2') && IsDigit(t[1]))
          || ((t[0] == '0' || t[0] == ' ') && IsNonZeroDigit(t[1]))))
  }

  /** The texts the `%m` directive matches: `1[0-2]|0[1-9]|[1-9]`. */
  predicate MonthField(t: string) {
    || (|t| == 1 && IsNonZeroDigit(t[0]))
    || (|t| == 2 && (
          || (t[0] == '1' && '0' <= t[1] <= '2')
          || (t[0] == '0' && IsNonZeroDigit(t[1]))))
  }

  /** The texts the `%Y` directive matches: exactly four digits. */
  predicate YearField(t: string) {
    |t| == 4 && IsDigit(t[0]) && IsDigit(t[1]) && IsDigit(t[2]) && IsDigit(t[3])
  }

  /** The number a day or month field denotes; a leading blank is skipped,
      as `int` skips it. */
  function FieldValue(t: string): nat
    requires DayField(t) || MonthField(t)
  {
    if |t| == 1 then DigitValue(t[0])
    else if t[0] == ' ' then DigitValue(t[1])
    else 10 * DigitValue(t[0]) + DigitValue(t[1])
  }

  function YearValue(t: string): nat
    requires YearField(t)
  {
    1000 * DigitValue(t[0]) + 100 * DigitValue(t[1]) + 10 * DigitValue(t[2]) + DigitValue(t[3])
  }

  /** The position of the first occurrence of `c` in `s`, if any. */
  function IndexOf(s: string, c: char): (r: Option<nat>)
    ensures r.Some? ==> r.value < |s| && s[r.value] == c && c !in s[..r.value]
    ensures r.None? ==> c !in s
  {
    if s == [] then None
    else if s[0] == c then Some(0)
    else match IndexOf(s[1..], c)
      case None => None
      case Some(k) =>
        assert s[..k + 1] == [s[0]] + s[1..][..k];
        Some(k + 1)
  }

  /** Reads `s` with the format `%d/%m/%Y`: the whole text must be a day
      field, a slash, a month field, a slash and a year field, and the three
      numbers must name a day that exists. None is the ValueError the parser
      raises otherwise. */
  function ParseDate(s: string): (r: Option<Date>)
    ensures r.Some? ==> ValidDate(r.value)
  {
    match IndexOf(s, '/')
    case None => None
    case Some(i) =>
      var rest := s[i + 1..];
      match IndexOf(rest, '/')
      case None => None
      case Some(j) =>
        var dayText, monthText, yearText := s[..i], rest[..j], rest[j + 1..];
        if DayField(dayText) && MonthField(monthText) && YearField(yearText) then
          var d := Date(YearValue(yearText), FieldValue(monthText), FieldValue(dayText));
          if ValidDate(d) then Some(d) else None
        else None
  }

  /** The first slash of `a + "/" + b` is the one after `a` when `a` has none. */
  lemma {:induction false} IndexOfFirstSlash(a: string, b: string)
    requires '/' !in a
    ensures IndexOf(a + "/" + b, '/') == Some(|a|)
  {
    if a != [] {
      assert (a + "/" + b)[1..] == a[1..] + "/" + b;
      IndexOfFirstSlash(a[1..], b);
    }
  }

  lemma FieldsHaveNoSlash(dayText: string, monthText: string, yearText: string)
    requires DayField(dayText) && MonthField(monthText) && YearField(yearText)
    ensures '/' !in dayText && '/' !in monthText && '/' !in yearText
  {
  }

  /** Every text that consists of the three fields separated by slashes is
      read field by field, and it is accepted exactly when the day exists. */
  lemma ParseFields(dayText: string, monthText: string, yearText: string)
    requires DayField(dayText) && MonthField(monthText) && YearField(yearText)
    ensures var d := Date(YearValue(yearText), FieldValue(monthText), FieldValue(dayText));
      ParseDate(dayText + "/" + monthText + "/" + yearText) == if ValidDate(d) then Some(d) else None
  {
    FieldsHaveNoSlash(dayText, monthText, yearText);
    var tail := monthText + "/" + yearText;
    var s := dayText + "/" + monthText + "/" + yearText;
    assert s == dayText + "/" + tail;
    IndexOfFirstSlash(dayText, tail);
    assert s[|dayText| + 1..] == tail;
    IndexOfFirstSlash(monthText, yearText);
    assert s[..|dayText|] == dayText;
    assert tail[..|monthText|] == monthText;
    assert tail[|monthText| + 1..] == yearText;
  }

  function Digit(n: nat): (c: char)
    requires n <= 9
    ensures IsDigit(c) && DigitValue(c) == n
  {
    ('0' as int + n) as char
  }

  /** Two digits, zero-padded. */
  function TwoDigits(n: nat): string
    requires n <= 99
  {
    [Digit(n / 10), Digit(n % 10)]
  }

  /** Four digits, zero-padded. */
  function FourDigits(n: nat): string
    requires n <= 9999
  {
    [Digit(n / 1000), Digit(n / 100 % 10), Digit(n / 10 % 10), Digit(n % 10)]
  }

  /** The zero-padded `DD/MM/YYYY` text of a day, the form the data is published in. */
  function FormatDate(d: Date): string
    requires ValidDate(d)
  {
    TwoDigits(d.day) + "/" + TwoDigits(d.month) + "/" + FourDigits(d.year)
  }

  lemma TwoDigitsValue(n: nat)
    requires n <= 99
    ensures 10 * (n / 10) + n % 10 == n
  {
  }

  lemma DayText(n: nat)
    requires 1 <= n <= 31
    ensures DayField(TwoDigits(n)) && FieldValue(TwoDigits(n)) == n
  {
    TwoDigitsValue(n);
  }

  lemma MonthText(n: nat)
    requires 1 <= n <= 12
    ensures MonthField(TwoDigits(n)) && FieldValue(TwoDigits(n)) == n
  {
    TwoDigitsValue(n);
  }

  lemma YearText(n: nat)
    requires n <= 9999
    ensures YearField(FourDigits(n)) && YearValue(FourDigits(n)) == n
  {
    var a, b, c, e := n / 1000, n / 100 % 10, n / 10 % 10, n % 10;
    assert n / 100 == 10 * a + b;
    assert n / 10 == 100 * a + 10 * b + c;
    assert n == 1000 * a + 100 * b + 10 * c + e;
  }

  /** `t` spells the number `n` as `%d` or `%m` may write it: zero-padded to
      two digits, or, below ten, as one digit or (`%d` only) after a blank. */
  predicate SpellsNumber(t: string, n: nat, blankAllowed: bool)
    requires 1 <= n <= 31
  {
    || t == TwoDigits(n)
    || (n <= 9 && (t == [Digit(n)] || (blankAllowed && t == [' ', Digit(n)])))
  }

  lemma DigitOfValue(c: char)
    requires IsDigit(c)
    ensures Digit(DigitValue(c)) == c
  {
  }

  lemma TwoDigitsOf(t: string)
    requires |t| == 2 && IsDigit(t[0]) && IsDigit(t[1])
    ensures TwoDigits(10 * DigitValue(t[0]) + DigitValue(t[1])) == t
  {
    var a, b := DigitValue(t[0]), DigitValue(t[1]);
    assert (10 * a + b) / 10 == a && (10 * a + b) % 10 == b;
    DigitOfValue(t[0]);
    DigitOfValue(t[1]);
  }

  /** The day field accepts exactly the spellings of the days 1 to 31, and
      reads each as its day. */
  lemma DayFieldSpellings(t: string)
    ensures DayField(t) <==> exists n :: 1 <= n <= 31 && SpellsNumber(t, n, true)
    ensures DayField(t) ==> 1 <= FieldValue(t) <= 31 && SpellsNumber(t, FieldValue(t), true)
  {
    if DayField(t) {
      if |t| == 1 {
        DigitOfValue(t[0]);
      } else if t[0] == ' ' {
        DigitOfValue(t[1]);
      } else {
        TwoDigitsOf(t);
      }
      assert SpellsNumber(t, FieldValue(t), true);
    }
    if exists n :: 1 <= n <= 31 && SpellsNumber(t, n, true) {
      var n :| 1 <= n <= 31 && SpellsNumber(t, n, true);
      if t == TwoDigits(n) {
        DayText(n);
      }
    }
  }

  /** The month field accepts exactly the spellings of the months 1 to 12,
      and reads each as its month. */
  lemma MonthFieldSpellings(t: string)
    ensures MonthField(t) <==> exists n :: 1 <= n <= 12 && SpellsNumber(t, n, false)
    ensures MonthField(t) ==> 1 <= FieldValue(t) <= 12 && SpellsNumber(t, FieldValue(t), false)
  {
    if MonthField(t) {
      if |t| == 1 {
        DigitOfValue(t[0]);
      } else {
        TwoDigitsOf(t);
      }
      assert SpellsNumber(t, FieldValue(t), false);
    }
    if exists n :: 1 <= n <= 12 && SpellsNumber(t, n, false) {
      var n :| 1 <= n <= 12 && SpellsNumber(t, n, false);
      if t == TwoDigits(n) {
        MonthText(n);
      }
    }
  }

  /** The year field accepts exactly the zero-padded four-digit spellings of
      0 to 9999, and reads each as its number. */
  lemma YearFieldSpellings(t: string)
    ensures YearField(t) <==> exists n :: 0 <= n <= 9999 && t == FourDigits(n)
    ensures YearField(t) ==> t == FourDigits(YearValue(t))
  {
    if YearField(t) {
      var a, b, c, e := DigitValue(t[0]), DigitValue(t[1]), DigitValue(t[2]), DigitValue(t[3]);
      var n := YearValue(t);
      assert n == 1000 * a + 100 * b + 10 * c + e;
      assert n / 1000 == a;
      assert n / 100 == 10 * a + b;
      assert n / 100 % 10 == b;
      assert n / 10 == 100 * a + 10 * b + c;
      assert n / 10 % 10 == c;
      assert n % 10 == e;
      DigitOfValue(t[0]);
      DigitOfValue(t[1]);
      DigitOfValue(t[2]);
      DigitOfValue(t[3]);
      assert t == FourDigits(n);
    }
    if exists n :: 0 <= n <= 9999 && t == FourDigits(n) {
      var n :| 0 <= n <= 9999 && t == FourDigits(n);
      YearText(n);
    }
  }

  /** Every existing day, written as `DD/MM/YYYY`, is read back as that day. */
  lemma ParseFormatRoundTrip(d: Date)
    requires ValidDate(d)
    ensures ParseDate(FormatDate(d)) == Some(d)
  {
    DayText(d.day);
    MonthText(d.month);
    YearText(d.year);
    ParseFields(TwoDigits(d.day), TwoDigits(d.month), FourDigits(d.year));
  }

  /** The converse of ParseFields: a text that parses is exactly a day
      field, a slash, a month field, a slash and a year field, with nothing
      before or after, and it yields the day those fields spell. */
  lemma ParseDateSpells(s: string)
    requires ParseDate(s).Some?
    ensures exists dayText, monthText, yearText ::
      && DayField(dayText) && MonthField(monthText) && YearField(yearText)
      && s == dayText + "/" + monthText + "/" + yearText
      && ParseDate(s).value == Date(YearValue(yearText), FieldValue(monthText), FieldValue(dayText))
  {
    var i := IndexOf(s, '/').value;
    var rest := s[i + 1..];
    var j := IndexOf(rest, '/').value;
    var dayText, monthText, yearText := s[..i], rest[..j], rest[j + 1..];
    assert rest == monthText + "/" + yearText;
    assert s == dayText + "/" + rest;
    assert s == dayText + "/" + monthText + "/" + yearText;
  }

  /** Text left after the year is refused, as `strptime` refuses it
      ("unconverted data remains"). */
  lemma RejectsFiveDigitYear(s: string)
    requires s == "01/01/20201"
    ensures ParseDate(s) == None
  {
  }

  /** Month 13 does not exist. */
  lemma RejectsMonthThirteen(s: string)
    requires s == "31/13/2020"
    ensures ParseDate(s) == None
  {
  }

  /** The 29th of February is read as a day exactly in leap years. */
  lemma LeapDayParsesIffLeapYear(yearText: string)
    requires YearField(yearText) && YearValue(yearText) >= 1
    ensures ParseDate("29/02/" + yearText).Some? <==> IsLeapYear(YearValue(yearText))
  {
    ParseFields("29", "02", yearText);
    assert "29/02/" + yearText == "29" + "/" + "02" + "/" + yearText;
  }

  /** 2021 is a common year. */
  lemma RejectsLeapDayOf2021(yearText: string)
    requires yearText == "2021"
    ensures ParseDate("29/02/" + yearText) == None
  {
    LeapDayParsesIffLeapYear(yearText);
    assert YearValue(yearText) == 2021;
  }

  /** 1900 is a century not divisible by 400, so a common year. */
  lemma RejectsLeapDayOf1900(yearText: string)
    requires yearText == "1900"
    ensures ParseDate("29/02/" + yearText) == None
  {
    LeapDayParsesIffLeapYear(yearText);
    assert YearValue(yearText) == 1900;
  }

  /** 2000 is a century divisible by 400, so a leap year. */
  lemma AcceptsLeapDayOf2000(yearText: string)
    requires yearText == "2000"
    ensures ParseDate("29/02/" + yearText) == Some(Date(2000, 2, 29))
  {
    ParseFields("29", "02", yearText);
    assert YearValue(yearText) == 2000;
    assert "29/02/" + yearText == "29" + "/" + "02" + "/" + yearText;
  }

  /** Day and month may be written without their leading zero. */
  lemma UnpaddedExample(s: string)
    requires s == "1/1/2020"
    ensures ParseDate(s) == Some(Date(2020, 1, 1))
  {
    ParseFields("1", "1", "2020");
    assert s == "1" + "/" + "1" + "/" + "2020";
    assert YearValue("2020") == 2020;
  }

  /** Text without a slash is never a date. */
  lemma NoSlashNoDate(s: string)
    requires '/' !in s
    ensures ParseDate(s) == None
  {
  }

  /** A date in another layout has no slash and is refused. */
  lemma RejectsIsoLayout(s: string)
    requires s == "2020-01-01"
    ensures ParseDate(s) == None
  {
    assert '/' !in s by {
      forall k | 0 <= k < |s| ensures s[k] != '/' {
      }
    }
    NoSlashNoDate(s);
  }
}
