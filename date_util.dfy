/**
 * DateUtil: the Japanese fiscal year (nendo, starting in April) and fiscal
 * half (hanki) of a date given as text, and the difference between two
 * dates counted in fiscal half years.
 *
 * The source returns nendo + hanki as a double, hanki being 0 or 0.5; the
 * model counts in half years instead, so the value x of the source is the
 * integer 2x here (2020.5 is 4041).
 *
 * The date "today" is read from the clock in the source; here it is a
 * parameter.
 */
module DateUtil {
  import opened JavaLang

  /** The range of years java.time.LocalDate supports. */
  const MinYear: int := -999_999_999
  const MaxYear: int := 999_999_999

  datatype Date = Date(year: int, month: int, day: int)

  /** The proleptic Gregorian leap-year rule of the ISO calendar. */
  predicate IsLeapYear(year: int) {
    year % 4 == 0 && (year % 100 != 0 || year % 400 == 0)
  }

  function DaysInMonth(year: int, month: int): int
    requires 1 <= month <= 12
  {
    if month == 2 then (if IsLeapYear(year) then 29 else 28)
    else if month == 4 || month == 6 || month == 9 || month == 11 then 30
    else 31
  }

  predicate ValidDate(d: Date) {
    MinYear <= d.year <= MaxYear && 1 <= d.month <= 12 && 1 <= d.day <= DaysInMonth(d.year, d.month)
  }

  /** A java.time.LocalDate: a calendar date that exists. */
  type LocalDate = d: Date | ValidDate(d) witness Date(2000, 1, 1)

  // ---------------------------------------------------------------------
  // parseDate: every non-word character becomes '-', then ISO parsing
  // ---------------------------------------------------------------------

  /** A character the regular expression class \w matches: [a-zA-Z_0-9]. */
  predicate IsWordChar(c: char) {
    'a' <= c <= 'z' || 'A' <= c <= 'Z' || '0' <= c <= '9' || c == '_'
  }

  /** replaceAll("\\W", "-"): each character outside \w replaced by '-'. */
  function ReplaceNonWord(s: string): (r: string) {
    seq(|s|, i requires 0 <= i < |s| => if IsWordChar(s[i]) then s[i] else '-')
  }

  /** Normalising the separators twice changes nothing more. */
  lemma ReplaceNonWordIdempotent(s: string)
    ensures ReplaceNonWord(ReplaceNonWord(s)) == ReplaceNonWord(s)
  {
    var r := ReplaceNonWord(s);
    assert forall i :: 0 <= i < |r| ==> r[i] == '-' || IsWordChar(r[i]);
  }

  predicate IsDigit(c: char) {
    '0' <= c <= '9'
  }

  predicate AllDigits(s: string) {
    forall i :: 0 <= i < |s| ==> IsDigit(s[i])
  }

  /** The decimal number a run of digits denotes. */
  function Number(s: string): nat
    requires AllDigits(s)
  {
    if s == [] then 0 else 10 * Number(s[..|s| - 1]) + (s[|s| - 1] as int - '0' as int)
  }

  function Pow10(width: nat): nat {
    if width == 0 then 1 else 10 * Pow10(width - 1)
  }

  /** The last `width` decimal digits of `n`, zero-padded on the left. */
  function Digits(n: nat, width: nat): (s: string)
    ensures |s| == width && AllDigits(s)
  {
    if width == 0 then [] else Digits(n / 10, width - 1) + [('0' as int + n % 10) as char]
  }

  /** Writing a number in `width` digits and reading it back gives the number. */
  lemma {:induction false} NumberOfDigits(n: nat, width: nat)
    requires n < Pow10(width)
    ensures Number(Digits(n, width)) == n
  {
    if width > 0 {
      NumberOfDigits(n / 10, width - 1);
      var s := Digits(n, width);
      assert s[..|s| - 1] == Digits(n / 10, width - 1);
    }
  }

  /** Reading a run of digits and writing it back in as many digits gives the run. */
  lemma {:induction false} DigitsOfNumber(s: string)
    requires AllDigits(s)
    ensures Number(s) < Pow10(|s|)
    ensures Digits(Number(s), |s|) == s
    decreases |s|
  {
    if s != [] {
      var init := s[..|s| - 1];
      DigitsOfNumber(init);
      var n := Number(s);
      var last := s[|s| - 1] as int - '0' as int;
      assert n / 10 == Number(init) && n % 10 == last;
      assert s == init + [s[|s| - 1]];
    }
  }

  /** The text form ISO_LOCAL_DATE parses when the year has four digits: yyyy-MM-dd. */
  predicate IsIsoForm(s: string) {
    |s| == 10 && s[4] == '-' && s[7] == '-' && AllDigits(s[..4]) && AllDigits(s[5..7]) && AllDigits(s[8..])
  }

  /**
   * LocalDate.parse on the four-digit-year form: the three numbers, if they
   * name a date that exists (the strict resolver rejects 2021-02-30);
   * None where LocalDate.parse throws.
   */
  function ParseIsoLocalDate(s: string): Option<LocalDate> {
    if !IsIsoForm(s) then None
    else
      var d := Date(Number(s[..4]), Number(s[5..7]), Number(s[8..]));
      if ValidDate(d) then Some(d) else None
  }

  /** LocalDate.toString for a year of four digits. */
  function FormatIsoLocalDate(d: LocalDate): string
    requires 0 <= d.year <= 9999
  {
    Digits(d.year, 4) + "-" + Digits(d.month, 2) + "-" + Digits(d.day, 2)
  }

  /** Parsing the text form of a date gives the date back. */
  lemma ParseFormatted(d: LocalDate)
    requires 0 <= d.year <= 9999
    ensures ParseIsoLocalDate(FormatIsoLocalDate(d)) == Some(d)
  {
    var s := FormatIsoLocalDate(d);
    assert s[..4] == Digits(d.year, 4);
    assert s[5..7] == Digits(d.month, 2);
    assert s[8..] == Digits(d.day, 2);
    assert Pow10(4) == 10000 && Pow10(2) == 100;
    NumberOfDigits(d.year, 4);
    NumberOfDigits(d.month, 2);
    NumberOfDigits(d.day, 2);
  }

  /** Whatever parses is the text form of the date it parses to. */
  lemma FormatParsed(s: string)
    requires ParseIsoLocalDate(s).Some?
    ensures 0 <= ParseIsoLocalDate(s).value.year <= 9999
    ensures FormatIsoLocalDate(ParseIsoLocalDate(s).value) == s
  {
    DigitsOfNumber(s[..4]);
    DigitsOfNumber(s[5..7]);
    DigitsOfNumber(s[8..]);
    assert Pow10(4) == 10000;
    assert s == s[..4] + "-" + s[5..7] + "-" + s[8..];
  }

  /**
   * parseDate(date): today for a null date; otherwise the text with its
   * non-word characters replaced by '-', parsed as an ISO local date, or
   * DateTimeParseException when that fails.
   */
  function ParseDate(date: Option<string>, today: LocalDate): (r: Result<LocalDate>)
    ensures date.None? ==> r == Ok(today)
    ensures date.Some? ==> (r.Ok? <==> ParseIsoLocalDate(ReplaceNonWord(date.value)).Some?)
    ensures date.Some? && r.Ok? ==>
      0 <= r.value.year <= 9999 && FormatIsoLocalDate(r.value) == ReplaceNonWord(date.value)
    ensures date.Some? && r.Throws? ==>
      ParseIsoLocalDate(ReplaceNonWord(date.value)).None? &&
      r.exception == DateTimeParseException(ReplaceNonWord(date.value))
  {
    if date.None? then Ok(today)
    else
      var text := ReplaceNonWord(date.value);
      match ParseIsoLocalDate(text)
      case Some(d) =>
        FormatParsed(text);
        Ok(d)
      case None => Throws(DateTimeParseException(text))
  }

  /**
   * A date written with any non-word separators ("2020/01/11", "2020.01.11",
   * "2020-01-11") parses to that date.
   */
  lemma ParseDateAnySeparators(d: LocalDate, sep1: char, sep2: char, today: LocalDate)
    requires 0 <= d.year <= 9999
    requires !IsWordChar(sep1) && !IsWordChar(sep2)
    ensures ParseDate(Some(Digits(d.year, 4) + [sep1] + Digits(d.month, 2) + [sep2] + Digits(d.day, 2)), today) == Ok(d)
  {
    var s := Digits(d.year, 4) + [sep1] + Digits(d.month, 2) + [sep2] + Digits(d.day, 2);
    var t := FormatIsoLocalDate(d);
    assert ReplaceNonWord(s) == t by {
      forall i | 0 <= i < |s|
        ensures ReplaceNonWord(s)[i] == t[i]
      {
        if i != 4 && i != 7 {
          assert IsDigit(s[i]);
        }
      }
    }
    ParseFormatted(d);
  }

  /** The text is normalised before parsing, so normalising it first changes nothing. */
  lemma ParseDateNormalised(s: string, today: LocalDate)
    ensures ParseDate(Some(ReplaceNonWord(s)), today) == ParseDate(Some(s), today)
  {
    ReplaceNonWordIdempotent(s);
  }

  // ---------------------------------------------------------------------
  // getNendo, getHanki, getNendoHanki, diff
  // ---------------------------------------------------------------------

  /**
   * The year of the date three months earlier (LocalDate.minusMonths(3)
   * then getYear), which is the fiscal year. minusMonths counts months from
   * year 0 and splits them with a floor division; a year below the
   * supported range throws DateTimeException.
   */
  function FiscalYear(d: LocalDate): (r: Result<int>)
    ensures r.Ok? <==> !(d.year == MinYear && d.month <= 3)
    ensures r.Ok? ==> r.value == if d.month <= 3 then d.year - 1 else d.year
    ensures r.Throws? ==> r.exception == DateTimeException
  {
    var calcMonths := d.year * 12 + (d.month - 1) - 3;
    var newYear := calcMonths / 12;
    if newYear < MinYear then Throws(DateTimeException) else Ok(newYear)
  }

  /**
   * getHanki's month test, in half years: 1 (the source's 0.5, the second
   * half) for months 1-3 and 10-12, 0 for months 4-9, and 0 for any other
   * month number.
   */
  function HalfOfMonth(month: int): (h: int)
    ensures 0 <= h <= 1
    ensures 1 <= month <= 12 ==> (h == 0 <==> 4 <= month <= 9)
  {
    if 1 <= month <= 3 then 1
    else if 4 <= month <= 9 then 0
    else if 10 <= month <= 12 then 1
    else 0
  }

  /** getNendo(date): the fiscal year of the parsed date. */
  function GetNendo(date: Option<string>, today: LocalDate): (r: Result<int>)
    ensures ParseDate(date, today).Throws? ==> r == Throws(ParseDate(date, today).exception)
    ensures ParseDate(date, today).Ok? ==>
      (r.Ok? <==> FiscalYear(ParseDate(date, today).value).Ok?) &&
      (r.Throws? ==> r.exception == DateTimeException)
    ensures r.Ok? ==> var d := ParseDate(date, today).value;
      r.value == if d.month <= 3 then d.year - 1 else d.year
  {
    match ParseDate(date, today)
    case Throws(e) => Throws(e)
    case Ok(d) => FiscalYear(d)
  }

  /** getHanki(date): the fiscal half of the parsed date. */
  function GetHanki(date: Option<string>, today: LocalDate): (r: Result<int>)
    ensures ParseDate(date, today).Throws? ==> r == Throws(ParseDate(date, today).exception)
    ensures ParseDate(date, today).Ok? ==> r.Ok? && (r.value == 0 <==> 4 <= ParseDate(date, today).value.month <= 9)
    ensures r.Ok? ==> r.value == 0 || r.value == 1
  {
    match ParseDate(date, today)
    case Throws(e) => Throws(e)
    case Ok(d) => Ok(HalfOfMonth(d.month))
  }

  /**
   * The number of fiscal half years from the first half of fiscal year 0
   * to the half a date falls in: half years begin in April and October.
   */
  function HalfYearIndex(d: Date): int {
    (12 * d.year + d.month - 4) / 6
  }

  /** Fiscal year and half together locate the date's half year. */
  lemma FiscalHalfYear(d: LocalDate)
    requires FiscalYear(d).Ok?
    ensures 2 * FiscalYear(d).value + HalfOfMonth(d.month) == HalfYearIndex(d)
  {
    var fy := FiscalYear(d).value;
    var h := HalfOfMonth(d.month);
    var m := 12 * d.year + d.month - 4;
    var rem := if d.month <= 3 then d.month + 2 else if d.month <= 9 then d.month - 4 else d.month - 10;
    assert m == 6 * (2 * fy + h) + rem && 0 <= rem < 6;
  }

  /**
   * getNendoHanki(date): fiscal year plus half, in half years. It fails as
   * parseDate fails, or when the fiscal year falls below the supported
   * range; otherwise it is the date's half-year index.
   */
  function GetNendoHanki(date: Option<string>, today: LocalDate): (r: Result<int>)
    ensures ParseDate(date, today).Throws? ==> r == Throws(ParseDate(date, today).exception)
    ensures ParseDate(date, today).Ok? ==>
      (r.Ok? <==> FiscalYear(ParseDate(date, today).value).Ok?)
    ensures r.Ok? ==> r.value == HalfYearIndex(ParseDate(date, today).value)
  {
    match GetNendo(date, today)
    case Throws(e) => Throws(e)
    case Ok(nendo) =>
      match GetHanki(date, today)
      case Throws(e) => Throws(e)
      case Ok(hanki) =>
        FiscalHalfYear(ParseDate(date, today).value);
        Ok(2 * nendo + hanki)
  }

  /** Later dates never fall in an earlier half year. */
  lemma HalfYearIndexMonotone(d1: LocalDate, d2: LocalDate)
    requires d1.year < d2.year || (d1.year == d2.year && d1.month <= d2.month)
    ensures HalfYearIndex(d1) <= HalfYearIndex(d2)
  {
    assert 12 * d1.year + d1.month <= 12 * d2.year + d2.month;
  }

  /** diff(a, b): a's half-year value minus b's; a is evaluated first. */
  function Diff(a: Option<string>, b: Option<string>, today: LocalDate): (r: Result<int>)
    ensures r.Ok? <==> GetNendoHanki(a, today).Ok? && GetNendoHanki(b, today).Ok?
    ensures r.Ok? ==> r.value == HalfYearIndex(ParseDate(a, today).value) - HalfYearIndex(ParseDate(b, today).value)
  {
    match GetNendoHanki(a, today)
    case Throws(e) => Throws(e)
    case Ok(x) =>
      match GetNendoHanki(b, today)
      case Throws(e) => Throws(e)
      case Ok(y) => Ok(x - y)
  }

  /** diff(a): today's half-year value minus a's. */
  function DiffFromToday(a: Option<string>, today: LocalDate): (r: Result<int>)
    ensures r == Diff(None, a, today)
  {
    match GetNendoHanki(None, today)
    case Throws(e) => Throws(e)
    case Ok(now) =>
      match GetNendoHanki(a, today)
      case Throws(e) => Throws(e)
      case Ok(x) => Ok(now - x)
  }

  /**
   * When both dates are valid, diff counts the half years between them; a
   * failure is a's failure if a fails and b's otherwise.
   */
  lemma DiffCountsHalfYears(a: Option<string>, b: Option<string>, today: LocalDate)
    ensures GetNendoHanki(a, today).Throws? ==> Diff(a, b, today) == Throws(GetNendoHanki(a, today).exception)
    ensures GetNendoHanki(a, today).Ok? && GetNendoHanki(b, today).Throws? ==>
      Diff(a, b, today) == Throws(GetNendoHanki(b, today).exception)
    ensures GetNendoHanki(a, today).Ok? && GetNendoHanki(b, today).Ok? ==>
      Diff(a, b, today) ==
        Ok(HalfYearIndex(ParseDate(a, today).value) - HalfYearIndex(ParseDate(b, today).value))
  {
    var r := Diff(a, b, today);
    if GetNendoHanki(a, today).Ok? && GetNendoHanki(b, today).Ok? {
      assert r.Ok?;
      assert r == Ok(r.value);
    }
  }

  /** A date is zero half years from itself. */
  lemma DiffSelf(a: Option<string>, today: LocalDate)
    ensures Diff(a, a, today).Ok? ==> Diff(a, a, today).value == 0
    ensures Diff(a, a, today).Throws? <==> GetNendoHanki(a, today).Throws?
  {
  }

  /** Swapping the dates negates the difference. */
  lemma DiffAntisymmetric(a: Option<string>, b: Option<string>, today: LocalDate)
    requires Diff(a, b, today).Ok?
    ensures Diff(b, a, today).Ok?
    ensures Diff(b, a, today).value == -Diff(a, b, today).value
  {
  }
}
