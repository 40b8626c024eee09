/**
 * The date check of the appointment dialog, `datetime.strptime(date, '%Y-%m-%d')`.
 *
 * Python matches the format as a regular expression: `%Y` is four decimal
 * digits, `%m` is one of `1[0-2]`, `0[1-9]`, `[1-9]`, and `%d` is one of
 * `3[01]`, `[12]\d`, `0[1-9]`, `[1-9]`, ` [1-9]` (a space before a single
 * digit is accepted); the whole string must be consumed. The numbers are then
 * handed to `datetime.date`, which refuses year 0 and a day past the end of
 * the month (Gregorian leap years). Only ASCII digits are modelled.
 */
module DateFormat {
  import opened Text
  import opened Wrappers

  datatype Date = Date(year: nat, month: nat, day: nat)

  predicate IsLeapYear(y: nat) {
    y % 4 == 0 && (y % 100 != 0 || y % 400 == 0)
  }

  function DaysInMonth(y: nat, m: nat): (n: nat)
    requires 1 <= m <= 12
    ensures 28 <= n <= 31
  {
    if m == 2 then (if IsLeapYear(y) then 29 else 28)
    else if m == 4 || m == 6 || m == 9 || m == 11 then 30
    else 31
  }

  /** The dates `datetime.date` accepts for a four-digit year. */
  predicate ValidDate(d: Date) {
    1 <= d.year <= 9999 && 1 <= d.month <= 12 && 1 <= d.day <= DaysInMonth(d.year, d.month)
  }

  function DigitOf(c: char): (v: nat)
    requires IsAsciiDigit(c)
    ensures v < 10
  {
    c as int - '0' as int
  }

  function CharOf(v: nat): (c: char)
    requires v < 10
    ensures IsAsciiDigit(c) && DigitOf(c) == v
  {
    ('0' as int + v) as char
  }

  /** The month group `1[0-2]|0[1-9]|[1-9]`, matched against the whole text `t`. */
  function MonthField(t: string): (r: Option<nat>)
    ensures r.Some? ==> 1 <= r.value <= 12
  {
    if |t| == 2 && t[0] == '1' && '0' <= t[1] <= '2' then Some(10 + DigitOf(t[1]))
    else if |t| == 2 && t[0] == '0' && '1' <= t[1] <= '9' then Some(DigitOf(t[1]))
    else if |t| == 1 && '1' <= t[0] <= '9' then Some(DigitOf(t[0]))
    else None
  }

  /** The day group `3[01]|[12]\d|0[1-9]|[1-9]| [1-9]`, matched against the whole text `t`. */
  function DayField(t: string): (r: Option<nat>)
    ensures r.Some? ==> 1 <= r.value <= 31
  {
    if |t| == 2 && t[0] == '3' && '0' <= t[1] <= '1' then Some(30 + DigitOf(t[1]))
    else if |t| == 2 && '1' <= t[0] <= '2' && IsAsciiDigit(t[1]) then Some(10 * DigitOf(t[0]) + DigitOf(t[1]))
    else if |t| == 2 && t[0] == '0' && '1' <= t[1] <= '9' then Some(DigitOf(t[1]))
    else if |t| == 1 && '1' <= t[0] <= '9' then Some(DigitOf(t[0]))
    else if |t| == 2 && t[0] == ' ' && '1' <= t[1] <= '9' then Some(DigitOf(t[1]))
    else None
  }

  predicate IsYearText(t: string) {
    |t| == 4 && forall k :: 0 <= k < 4 ==> IsAsciiDigit(t[k])
  }

  /**
   * `datetime.strptime(s, '%Y-%m-%d')`: the date it reads, or `None` where it
   * raises `ValueError`. The month text runs up to the second `-` (it holds no
   * `-` itself), the day text is the rest.
   */
  function ParseDate(s: string): (r: Option<Date>)
    ensures r.Some? ==> ValidDate(r.value)
    ensures r.Some? ==> 8 <= |s| <= 10 && s[4] == '-'
  {
    if |s| < 8 || !IsYearText(s[..4]) || s[4] != '-' then None
    else
      var rest := s[5..];
      var monthLength := if rest[1] == '-' then 1 else 2;
      if rest[monthLength] != '-' then None
      else
        var year := DecimalValue(s[..4]);
        match (MonthField(rest[..monthLength]), DayField(rest[monthLength + 1..]))
        case (Some(month), Some(day)) =>
          if year >= 1 && day <= DaysInMonth(year, month) then Some(Date(year, month, day)) else None
        case _ => None
  }

  /** Whether the appointment dialog accepts the date text. */
  predicate DateAccepted(s: string) {
    ParseDate(s).Some?
  }

  /** `'%04d' % y` */
  function Pad4(y: nat): (t: string)
    requires y <= 9999
    ensures IsYearText(t)
  {
    var thousands := y / 1000;
    var hundreds := (y - 1000 * thousands) / 100;
    var tens := (y - 1000 * thousands - 100 * hundreds) / 10;
    [CharOf(thousands), CharOf(hundreds), CharOf(tens), CharOf(y - 1000 * thousands - 100 * hundreds - 10 * tens)]
  }

  /** `'%02d' % v` */
  function Pad2(v: nat): (t: string)
    requires v <= 99
    ensures |t| == 2
  {
    [CharOf(v / 10), CharOf(v % 10)]
  }

  /** The texts the month group reads as `m`: two digits, and one digit when `m` is below ten. */
  function MonthTexts(m: nat): set<string>
    requires 1 <= m <= 12
  {
    {Pad2(m)} + (if m < 10 then {[CharOf(m)]} else {})
  }

  /** The texts the day group reads as `d`: two digits, and one digit with or without a leading space when `d` is below ten. */
  function DayTexts(d: nat): set<string>
    requires 1 <= d <= 31
  {
    {Pad2(d)} + (if d < 10 then {[CharOf(d)], [' ', CharOf(d)]} else {})
  }

  /** Every text `strptime(_, '%Y-%m-%d')` reads as the date `d`. */
  function Renderings(d: Date): set<string>
    requires ValidDate(d)
  {
    set m, t | m in MonthTexts(d.month) && t in DayTexts(d.day) :: Pad4(d.year) + "-" + m + "-" + t
  }

  /** `d.strftime('%Y-%m-%d')`, the text the dialog pre-fills. */
  function IsoFormat(d: Date): (s: string)
    requires ValidDate(d)
    ensures s in Renderings(d)
  {
    var s := Pad4(d.year) + "-" + Pad2(d.month) + "-" + Pad2(d.day);
    assert Pad2(d.month) in MonthTexts(d.month) && Pad2(d.day) in DayTexts(d.day);
    s
  }

  /** `int` of a four-digit text, digit by digit. */
  lemma YearTextDecimal(t: string)
    requires IsYearText(t)
    ensures DecimalValue(t) == 1000 * DigitOf(t[0]) + 100 * DigitOf(t[1]) + 10 * DigitOf(t[2]) + DigitOf(t[3])
  {
    assert t[..3][..2] == t[..2] && t[..2][..1] == t[..1] && t[..1][..0] == [];
    assert DecimalValue(t[..1]) == DigitOf(t[0]);
    assert DecimalValue(t[..2]) == 10 * DigitOf(t[0]) + DigitOf(t[1]);
    assert DecimalValue(t[..3]) == 100 * DigitOf(t[0]) + 10 * DigitOf(t[1]) + DigitOf(t[2]);
  }

  lemma Pad4OfDigits(a: nat, b: nat, c: nat, d: nat)
    requires a < 10 && b < 10 && c < 10 && d < 10
    ensures Pad4(1000 * a + 100 * b + 10 * c + d) == [CharOf(a), CharOf(b), CharOf(c), CharOf(d)]
  {
    var y := 1000 * a + 100 * b + 10 * c + d;
    assert y / 1000 == a;
    assert (y - 1000 * a) / 100 == b;
    assert (y - 1000 * a - 100 * b) / 10 == c;
  }

  /** A four-digit text is the zero-padded rendering of the number `int` reads from it. */
  lemma YearTextValue(t: string)
    requires IsYearText(t)
    ensures DecimalValue(t) <= 9999 && Pad4(DecimalValue(t)) == t
  {
    YearTextDecimal(t);
    var a, b, c, d := DigitOf(t[0]), DigitOf(t[1]), DigitOf(t[2]), DigitOf(t[3]);
    Pad4OfDigits(a, b, c, d);
    assert CharOf(a) == t[0] && CharOf(b) == t[1] && CharOf(c) == t[2] && CharOf(d) == t[3];
  }

  lemma Pad4Value(y: nat)
    requires y <= 9999
    ensures DecimalValue(Pad4(y)) == y
  {
    var t := Pad4(y);
    YearTextDecimal(t);
  }

  /** The month group reads exactly the month texts of its value. */
  lemma MonthFieldIff(t: string, m: nat)
    requires 1 <= m <= 12
    ensures MonthField(t) == Some(m) <==> t in MonthTexts(m)
  {
    if t in MonthTexts(m) {
      if t == Pad2(m) {
        assert m / 10 <= 1;
      }
    }
    if MonthField(t) == Some(m) {
      if |t| == 2 {
        assert t == Pad2(m);
      } else {
        assert t == [CharOf(m)];
      }
    }
  }

  /** The day group reads exactly the day texts of its value. */
  lemma DayFieldIff(t: string, d: nat)
    requires 1 <= d <= 31
    ensures DayField(t) == Some(d) <==> t in DayTexts(d)
  {
    if t in DayTexts(d) {
      if t == Pad2(d) {
        assert d / 10 <= 3;
      }
    }
    if DayField(t) == Some(d) {
      if |t| == 2 && t[0] != ' ' {
        assert t == Pad2(d);
      } else if |t| == 2 {
        assert t == [' ', CharOf(d)];
      } else {
        assert t == [CharOf(d)];
      }
    }
  }

  /**
   * The date check accepts a text and reads `d` from it exactly when `d` is a
   * real calendar date and the text is one of its renderings.
   */
  lemma ParseDateIff(s: string, d: Date)
    ensures ParseDate(s) == Some(d) <==> ValidDate(d) && s in Renderings(d)
  {
    if ParseDate(s) == Some(d) {
      var rest := s[5..];
      var n := if rest[1] == '-' then 1 else 2;
      var m, t := rest[..n], rest[n + 1..];
      YearTextValue(s[..4]);
      MonthFieldIff(m, d.month);
      DayFieldIff(t, d.day);
      assert s == Pad4(d.year) + "-" + m + "-" + t;
    }
    if ValidDate(d) && s in Renderings(d) {
      var m, t :| m in MonthTexts(d.month) && t in DayTexts(d.day) && s == Pad4(d.year) + "-" + m + "-" + t;
      MonthFieldIff(m, d.month);
      DayFieldIff(t, d.day);
      Pad4Value(d.year);
      assert s[..4] == Pad4(d.year);
      assert s[5..][|m|] == '-';
      assert s[5..][..|m|] == m && s[5..][|m| + 1..] == t;
    }
  }

  /** The text the dialog pre-fills with `strftime('%Y-%m-%d')` always passes the check and reads back as the same date. */
  lemma IsoFormatRoundTrip(d: Date)
    requires ValidDate(d)
    ensures ParseDate(IsoFormat(d)) == Some(d)
  {
    ParseDateIff(IsoFormat(d), d);
  }

  /** Concrete cases: slashes, a 30th of February, 29 February of a common year, year 0. */
  lemma RejectedExamples()
    ensures !DateAccepted("2024/01/01")
    ensures !DateAccepted("2024-02-30")
    ensures !DateAccepted("2023-02-29")
    ensures !DateAccepted("0000-01-01")
    ensures !DateAccepted("2024-13-01")
    ensures !DateAccepted("24-01-01")
  {
    assert "2024/01/01"[4] == '/';
    assert "2024-02-30"[..4] == "2024" && "2024-02-30"[5..] == "02-30";
    assert "2024-02-30"[5..][..2] == "02" && "2024-02-30"[5..][3..] == "30";
    assert "2023-02-29"[..4] == "2023" && "2023-02-29"[5..] == "02-29";
    assert "2023-02-29"[5..][..2] == "02" && "2023-02-29"[5..][3..] == "29";
    YearTextDecimal("2023");
    assert "0000-01-01"[..4] == "0000";
    YearTextDecimal("0000");
    assert "2024-13-01"[5..][..2] == "13";
    assert "24-01-01"[..4] == "24-0";
  }

  /** Concrete cases: a leap day, single-digit month and day, a space-padded day. */
  lemma AcceptedExamples()
    ensures ParseDate("2024-02-29") == Some(Date(2024, 2, 29))
    ensures ParseDate("2024-1-5") == Some(Date(2024, 1, 5))
    ensures ParseDate("2024-01- 5") == Some(Date(2024, 1, 5))
  {
    assert "2024-02-29" == Pad4(2024) + "-" + Pad2(2) + "-" + Pad2(29);
    assert Pad2(2) in MonthTexts(2) && Pad2(29) in DayTexts(29);
    ParseDateIff("2024-02-29", Date(2024, 2, 29));
    assert "2024-1-5" == Pad4(2024) + "-" + [CharOf(1)] + "-" + [CharOf(5)];
    assert [CharOf(1)] in MonthTexts(1) && [CharOf(5)] in DayTexts(5);
    ParseDateIff("2024-1-5", Date(2024, 1, 5));
    assert "2024-01- 5" == Pad4(2024) + "-" + Pad2(1) + "-" + [' ', CharOf(5)];
    assert Pad2(1) in MonthTexts(1) && [' ', CharOf(5)] in DayTexts(5);
    ParseDateIff("2024-01- 5", Date(2024, 1, 5));
  }
}
