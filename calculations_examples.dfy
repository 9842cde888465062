/** Worked examples of `calculateAge`, `formatDOB` and `validateDOB` on
    concrete codes. */
module CalculationsExamples {
  import opened Wrappers
  import opened JsString
  import opened Calculations

  /** The fields of the code "131599". */
  lemma Fields131599(dob: string)
    requires dob == "131599"
    ensures ParseDob(dob) == Some(DobFields(13, 15, 1999))
  {
    assert |dob| == 6 && AllDigits(dob);
    CodeFields(dob);
    ParseDobOfCode(dob);
  }

  /** The fields of the code "021590". */
  lemma Fields021590(dob: string)
    requires dob == "021590"
    ensures ParseDob(dob) == Some(DobFields(2, 15, 1990))
  {
    assert |dob| == 6 && AllDigits(dob);
    CodeFields(dob);
    assert DigitsValue(dob[4..6]) == 90;
    assert CodeMonth(dob) == 2 && CodeDay(dob) == 15 && CodeYear(dob) == 1990;
    ParseDobOfCode(dob);
  }

  /** Month 13 is not refused: the fields of "131599" roll over into
      January 2000, while the sign is still taken from 1999 (Rabbit). */
  lemma MonthThirteenRollsOver(today: Date)
    ensures var r := AgeFrom(DobFields(13, 15, 1999), today);
            r.year == 2000 && r.birthDate == Date(2000, 1, 15) && r.zodiacYear == Some("Rabbit")
  {
    assert MakeDate(1999, 12, 15) == Date(2000, 1, 15);
    ZodiacSignDefined(1999);
  }

  /** The worked example: the fields of "021590" on 2024-06-15 give 34
      years, 1990, Horse. */
  lemma ExampleHorse(today: Date)
    requires today == Date(2024, 6, 15)
    ensures AgeFrom(DobFields(2, 15, 1990), today) == AgeInfo(34, 1990, Some("Horse"), Date(1990, 2, 15))
  {
    AgeFromValid(DobFields(2, 15, 1990), today);
    assert ZODIAC_SIGNS[(1990 - 4) % 12] == "Horse";
  }

  /** The boundary of the century rule is strict: suffix 50 is 2050 (the
      comparison is `> 50`), 51 is 1951, 00 is 2000. */
  lemma CenturyBoundary(fifty: int, fiftyOne: int, zero: int)
    requires fifty == 50 && fiftyOne == 51 && zero == 0
    ensures CenturyYear(Some(fifty)) == 2050
    ensures CenturyYear(Some(fiftyOne)) == 1951
    ensures CenturyYear(Some(zero)) == 2000
  {
    var a, b, c := Some(fifty), Some(fiftyOne), Some(zero);
    assert 0 <= a.value <= 50 && b.value > 50 && 0 <= c.value <= 50;
    assert CenturyYear(a) == 2000 + a.value;
    assert CenturyYear(b) == 1900 + b.value;
    assert CenturyYear(c) == 2000 + c.value;
  }

  /** 1990 is a Horse year and 2000 a Dragon year. */
  lemma ZodiacExamples()
    ensures ZodiacSign(2000) == Some("Dragon") && ZodiacSign(1990) == Some("Horse")
  {
    ZodiacSignDefined(2000);
    ZodiacSignDefined(1990);
  }

  /** The format check is only a format check: "023199" (February 31st)
      is accepted, "131599" (month 13) is not. */
  lemma ValidateDOBExamples(feb31: string, month13: string, horse: string)
    requires feb31 == "023199" && month13 == "131599" && horse == "021590"
    ensures ValidateDOB(feb31)
    ensures !ValidateDOB(month13)
    ensures ValidateDOB(horse)
  {
    assert |feb31| == 6 && AllDigits(feb31);
    assert |month13| == 6 && AllDigits(month13);
    assert |horse| == 6 && AllDigits(horse);
    CodeFields(feb31);
    CodeFields(month13);
    CodeFields(horse);
    ValidateDOBMeaning(feb31);
    ValidateDOBMeaning(month13);
    ValidateDOBMeaning(horse);
  }
}
