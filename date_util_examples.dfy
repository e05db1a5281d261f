/**
 * The dates of the repository's DateUtil documentation and tests, with the
 * half-year values the model gives them (the source's value times two).
 */
module DateUtilExamples {
  import opened JavaLang
  import opened DateUtil

  function DigitAt(s: string, i: int): int
    requires 0 <= i < |s|
  {
    s[i] as int - '0' as int
  }

  lemma NumberOfTwo(s: string)
    requires |s| == 2 && AllDigits(s)
    ensures Number(s) == 10 * DigitAt(s, 0) + DigitAt(s, 1)
  {
    assert s[..1][..0] == [];
    assert Number(s[..1]) == DigitAt(s, 0);
  }

  lemma NumberOfFour(s: string)
    requires |s| == 4 && AllDigits(s)
    ensures Number(s) == 1000 * DigitAt(s, 0) + 100 * DigitAt(s, 1) + 10 * DigitAt(s, 2) + DigitAt(s, 3)
  {
    assert s[..3][..2] == s[..2] && s[..2][..1] == s[..1] && s[..1][..0] == [];
    assert Number(s[..1]) == DigitAt(s, 0);
    assert Number(s[..2]) == 10 * DigitAt(s, 0) + DigitAt(s, 1);
    assert Number(s[..3]) == 100 * DigitAt(s, 0) + 10 * DigitAt(s, 1) + DigitAt(s, 2);
  }

  /** A date written with digits and two non-word separators parses to the date its digits name. */
  lemma ParseSeparated(s: string, today: LocalDate)
    requires |s| == 10 && !IsWordChar(s[4]) && !IsWordChar(s[7])
    requires forall i :: 0 <= i < 10 && i != 4 && i != 7 ==> IsDigit(s[i])
    requires ValidDate(Date(1000 * DigitAt(s, 0) + 100 * DigitAt(s, 1) + 10 * DigitAt(s, 2) + DigitAt(s, 3),
                            10 * DigitAt(s, 5) + DigitAt(s, 6), 10 * DigitAt(s, 8) + DigitAt(s, 9)))
    ensures ParseDate(Some(s), today) ==
      Ok(Date(1000 * DigitAt(s, 0) + 100 * DigitAt(s, 1) + 10 * DigitAt(s, 2) + DigitAt(s, 3),
              10 * DigitAt(s, 5) + DigitAt(s, 6), 10 * DigitAt(s, 8) + DigitAt(s, 9)))
  {
    var t := ReplaceNonWord(s);
    assert forall i :: 0 <= i < 10 && i != 4 && i != 7 ==> t[i] == s[i];
    assert IsIsoForm(t);
    NumberOfFour(t[..4]);
    NumberOfTwo(t[5..7]);
    NumberOfTwo(t[8..]);
  }

  /** 2020/03/01 lies in the second half of fiscal 2019: 2019.5. */
  lemma March2020(today: LocalDate)
    ensures GetNendoHanki(Some("2020/03/01"), today) == Ok(4039)
  {
    ParseSeparated("2020/03/01", today);
  }

  /** 2020/04/12 lies in the first half of fiscal 2020: 2020. */
  lemma April2020(today: LocalDate)
    ensures GetNendoHanki(Some("2020/04/12"), today) == Ok(4040)
  {
    ParseSeparated("2020/04/12", today);
  }

  /** 2020/01/11 lies in the second half of fiscal 2019: 2019.5. */
  lemma January2020(today: LocalDate)
    ensures GetNendoHanki(Some("2020/01/11"), today) == Ok(4039)
  {
    ParseSeparated("2020/01/11", today);
  }

  /** 2019/07/29 lies in the first half of fiscal 2019: 2019. */
  lemma July2019(today: LocalDate)
    ensures GetNendoHanki(Some("2019/07/29"), today) == Ok(4038)
  {
    ParseSeparated("2019/07/29", today);
  }

  /**
   * diff(null, "2012/01/02"): the null date is today, and 2012/01/02 lies in
   * the second half of fiscal 2011.
   */
  lemma FromJanuary2012(today: LocalDate)
    requires FiscalYear(today).Ok?
    ensures Diff(None, Some("2012/01/02"), today) == Ok(HalfYearIndex(today) - 4023)
  {
    ParseSeparated("2012/01/02", today);
  }

  /** A day that does not exist is refused by the strict ISO parser. */
  lemma NoThirtiethOfFebruary(today: LocalDate)
    ensures GetNendoHanki(Some("2021/02/30"), today) == Throws(DateTimeParseException("2021-02-30"))
  {
    var text := ReplaceNonWord("2021/02/30");
    assert text == "2021-02-30";
    NumberOfFour(text[..4]);
    NumberOfTwo(text[5..7]);
    NumberOfTwo(text[8..]);
    assert ParseIsoLocalDate(text).None?;
  }

  /** Single-digit months are not the ISO form. */
  lemma SingleDigitMonth(today: LocalDate)
    ensures GetNendoHanki(Some("2020/1/11"), today) == Throws(DateTimeParseException("2020-1-11"))
  {
    assert ReplaceNonWord("2020/1/11") == "2020-1-11";
  }
}
