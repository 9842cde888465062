/**
 * The date-of-birth interpreter: `calculateAge`, `formatDOB` and
 * `validateDOB` over compact `MMDDYY` codes. The system clock is a
 * parameter (`today`); JavaScript's `Date` arithmetic is written out as
 * the proleptic Gregorian calendar with the roll-over of out-of-range
 * months and days that `new Date(year, monthIndex, day)` performs.
 */
module Calculations {
  import opened Wrappers
  import opened JsString

  // ---------------------------------------------------------------------
  // Calendar
  // ---------------------------------------------------------------------

  /** What a `Date`'s local getters report: full year, month 1..12, day of month. */
  datatype Date = Date(year: int, month: int, day: int)

  predicate IsLeapYear(y: int) {
    y % 4 == 0 && (y % 100 != 0 || y % 400 == 0)
  }

  function DaysInMonth(y: int, m: int): (n: int)
    requires 1 <= m <= 12
    ensures 28 <= n <= 31
  {
    if m == 2 then (if IsLeapYear(y) then 29 else 28)
    else if m == 4 || m == 6 || m == 9 || m == 11 then 30
    else 31
  }

  predicate ValidDate(d: Date) {
    1 <= d.month <= 12 && 1 <= d.day <= DaysInMonth(d.year, d.month)
  }

  /** ECMAScript `DayFromYear`: days from 1970-01-01 to January 1st of `y`. */
  function DayFromYear(y: int): int {
    365 * (y - 1970) + (y - 1969) / 4 - (y - 1901) / 100 + (y - 1601) / 400
  }

  /** Days of year `y` before the first of month `m`. */
  function DaysBeforeMonth(y: int, m: int): int
    requires 1 <= m <= 12
  {
    if m == 1 then 0 else DaysBeforeMonth(y, m - 1) + DaysInMonth(y, m - 1)
  }

  /** ECMAScript day number (days since 1970-01-01) of a calendar date. */
  function DayNumber(d: Date): int
    requires 1 <= d.month <= 12
  {
    DayFromYear(d.year) + DaysBeforeMonth(d.year, d.month) + d.day - 1
  }

  /** A year has 365 days, 366 when it is a leap year. */
  lemma YearLength(y: int)
    ensures DayFromYear(y + 1) - DayFromYear(y) == if IsLeapYear(y) then 366 else 365
  {
    QuadStep(y);
    CenturyStep(y);
    QuadCenturyStep(y);
    DivisorChain(y);
    var d4 := (y - 1968) / 4 - (y - 1969) / 4;
    var d100 := (y - 1900) / 100 - (y - 1901) / 100;
    var d400 := (y - 1600) / 400 - (y - 1601) / 400;
    assert DayFromYear(y + 1) - DayFromYear(y) == 365 + d4 - d100 + d400;
  }

  /** Multiples of 400 are multiples of 100, which are multiples of 4. */
  lemma DivisorChain(y: int)
    ensures y % 400 == 0 ==> y % 100 == 0
    ensures y % 100 == 0 ==> y % 4 == 0
  {
  }

  /** One year more adds a leap day to the count of years divisible by 4
      exactly when `y` is divisible by 4; likewise for 100 and 400. */
  lemma QuadStep(y: int)
    ensures (y - 1968) / 4 - (y - 1969) / 4 == if y % 4 == 0 then 1 else 0
  {
  }

  lemma CenturyStep(y: int)
    ensures (y - 1900) / 100 - (y - 1901) / 100 == if y % 100 == 0 then 1 else 0
  {
  }

  lemma QuadCenturyStep(y: int)
    ensures (y - 1600) / 400 - (y - 1601) / 400 == if y % 400 == 0 then 1 else 0
  {
  }

  /** The months of a year add up to the year's length. */
  lemma MonthsFillYear(y: int)
    ensures DaysBeforeMonth(y, 12) + DaysInMonth(y, 12) == DayFromYear(y + 1) - DayFromYear(y)
  {
    YearLength(y);
    var leap := if IsLeapYear(y) then 1 else 0;
    assert DaysBeforeMonth(y, 2) == 31;
    assert DaysBeforeMonth(y, 3) == 59 + leap;
    assert DaysBeforeMonth(y, 4) == 90 + leap;
    assert DaysBeforeMonth(y, 5) == 120 + leap;
    assert DaysBeforeMonth(y, 6) == 151 + leap;
    assert DaysBeforeMonth(y, 7) == 181 + leap;
    assert DaysBeforeMonth(y, 8) == 212 + leap;
    assert DaysBeforeMonth(y, 9) == 243 + leap;
    assert DaysBeforeMonth(y, 10) == 273 + leap;
    assert DaysBeforeMonth(y, 11) == 304 + leap;
    assert DaysBeforeMonth(y, 12) == 334 + leap;
  }

  /** The first day of the month after (y, m). */
  function NextMonth(y: int, m: int): (r: (int, int))
    requires 1 <= m <= 12
    ensures 1 <= r.1 <= 12
  {
    if m == 12 then (y + 1, 1) else (y, m + 1)
  }

  function PrevMonth(y: int, m: int): (r: (int, int))
    requires 1 <= m <= 12
    ensures 1 <= r.1 <= 12 && NextMonth(r.0, r.1) == (y, m)
  {
    if m == 1 then (y - 1, 12) else (y, m - 1)
  }

  /** The first of the next month comes `DaysInMonth` days after the first of this one. */
  lemma NextMonthDayNumber(y: int, m: int)
    requires 1 <= m <= 12
    ensures var (ny, nm) := NextMonth(y, m);
            DayNumber(Date(ny, nm, 1)) == DayNumber(Date(y, m, 1)) + DaysInMonth(y, m)
  {
    if m == 12 { MonthsFillYear(y); }
  }

  /** Day `d` of month (y, m), rolled over into neighbouring months as
      `Date` does when `d` is below 1 or beyond the month's length. */
  function RollDays(y: int, m: int, d: int): (r: Date)
    requires 1 <= m <= 12
    ensures ValidDate(r)
    decreases if d < 1 then 1 - d else 0, if d < 1 then 0 else d
  {
    if d < 1 then
      var (py, pm) := PrevMonth(y, m);
      RollDays(py, pm, d + DaysInMonth(py, pm))
    else if d > DaysInMonth(y, m) then
      var (ny, nm) := NextMonth(y, m);
      RollDays(ny, nm, d - DaysInMonth(y, m))
    else Date(y, m, d)
  }

  /** Rolling over never changes the day number: the result is the date
      `d - 1` days after the first of month (y, m), as ECMAScript `MakeDay` says. */
  lemma {:induction false} RollDaysDayNumber(y: int, m: int, d: int)
    requires 1 <= m <= 12
    ensures DayNumber(RollDays(y, m, d)) == DayNumber(Date(y, m, 1)) + d - 1
    decreases if d < 1 then 1 - d else 0, if d < 1 then 0 else d
  {
    if d < 1 {
      var (py, pm) := PrevMonth(y, m);
      RollDaysDayNumber(py, pm, d + DaysInMonth(py, pm));
      NextMonthDayNumber(py, pm);
    } else if d > DaysInMonth(y, m) {
      var (ny, nm) := NextMonth(y, m);
      RollDaysDayNumber(ny, nm, d - DaysInMonth(y, m));
      NextMonthDayNumber(y, m);
    }
  }

  /** A day that exists in its month is not rolled. */
  lemma RollDaysValid(y: int, m: int, d: int)
    requires 1 <= m <= 12 && 1 <= d <= DaysInMonth(y, m)
    ensures RollDays(y, m, d) == Date(y, m, d)
  {
  }

  /** The full year `new Date(y, …)` uses: 0..99 mean 1900..1999. */
  function FullYear(y: int): int {
    if 0 <= y <= 99 then 1900 + y else y
  }

  /** `new Date(y, monthIndex, day)` read back through `getFullYear`,
      `getMonth() + 1` and `getDate()`. */
  function MakeDate(y: int, monthIndex: int, day: int): (r: Date)
    ensures ValidDate(r)
  {
    RollDays(FullYear(y) + monthIndex / 12, monthIndex % 12 + 1, day)
  }

  /** `MakeDate` is ECMAScript's `MakeDay`: the whole years in the month
      index are carried into the year, then `day - 1` days are counted from
      the first of the resulting month. */
  lemma MakeDateDayNumber(y: int, monthIndex: int, day: int)
    ensures var ym := FullYear(y) + monthIndex / 12;
            var mn := monthIndex % 12 + 1;
            DayNumber(MakeDate(y, monthIndex, day)) == DayFromYear(ym) + DaysBeforeMonth(ym, mn) + day - 1
  {
    RollDaysDayNumber(FullYear(y) + monthIndex / 12, monthIndex % 12 + 1, day);
  }

  /** Dates compare as (year, month, day) tuples. */
  predicate Before(a: Date, b: Date) {
    a.year < b.year || (a.year == b.year && (a.month < b.month || (a.month == b.month && a.day < b.day)))
  }

  // ---------------------------------------------------------------------
  // calculateAge
  // ---------------------------------------------------------------------

  /** The result object of `calculateAge`. `zodiacYear` is `None` where the
      table index falls outside the table (`undefined` in JavaScript). */
  datatype AgeInfo = AgeInfo(age: int, year: int, zodiacYear: Option<string>, birthDate: Date)

  const ZODIAC_SIGNS: seq<string> :=
    ["Rat", "Ox", "Tiger", "Rabbit", "Dragon", "Snake",
     "Horse", "Goat", "Monkey", "Rooster", "Dog", "Pig"]

  /** JavaScript's `%`: the remainder takes the sign of the dividend. */
  function JsRem(a: int, b: int): int
    requires b > 0
  {
    if a >= 0 then a % b else -((-a) % b)
  }

  /** `zodiacSigns[(year - 4) % 12]`. */
  function ZodiacSign(year: int): Option<string> {
    var i := JsRem(year - 4, 12);
    if 0 <= i < |ZODIAC_SIGNS| then Some(ZODIAC_SIGNS[i]) else None
  }

  /** Every year from 4 on has a sign, `(year - 4) mod 12` into the table. */
  lemma ZodiacSignDefined(year: int)
    requires year >= 4
    ensures ZodiacSign(year) == Some(ZODIAC_SIGNS[(year - 4) % 12])
  {
  }

  /** The 12-year cycle: a year and the year twelve later share a sign. */
  lemma ZodiacCycle(year: int)
    requires year >= 4
    ensures ZodiacSign(year + 12) == ZodiacSign(year)
  {
    assert (year + 12 - 4) % 12 == (year - 4) % 12;
  }

  /** Two-digit value of a digit pair padded by `padStart(2, '0')`. */
  lemma PadTwoDigits(v: nat)
    requires v <= 99
    ensures var p := PadStart(NatToString(v), 2, '0');
            |p| == 2 && AllDigits(p) && DigitsValue(p) == v
  {
    var s := NatToString(v);
    if v < 10 {
      var c := ('0' as int + v) as char;
      assert s == [c];
      var p := PadStart(s, 2, '0');
      assert p == ['0', c];
      TwoDigitsValue(p);
    } else {
      var c1 := ('0' as int + v / 10) as char;
      var c2 := ('0' as int + v % 10) as char;
      assert NatToString(v / 10) == [c1];
      assert s == [c1] + [c2];
      assert PadStart(s, 2, '0') == s;
      TwoDigitsValue(s);
    }
  }

  /** The value of two decimal digits. */
  lemma TwoDigitsValue(s: string)
    requires |s| == 2 && AllDigits(s)
    ensures DigitsValue(s) == 10 * (s[0] - '0') as nat + (s[1] - '0') as nat
  {
    var h := s[..1];
    assert h[..0] == [];
    assert DigitsValue(h) == (s[0] - '0') as nat;
    assert s[..|s| - 1] == h;
  }

  /** A two-digit prefix followed by a padded suffix reads back as prefix*100 + suffix. */
  lemma CenturyDigits(prefix: string, v: nat)
    requires |prefix| == 2 && AllDigits(prefix)
    requires v <= 99
    ensures ParseInt(prefix + PadStart(NatToString(v), 2, '0'))
            == Some(DigitsValue(prefix) * 100 + v)
  {
    var p := PadStart(NatToString(v), 2, '0');
    PadTwoDigits(v);
    assert Pow10(|p|) == 100 by {
      assert Pow10(2) == 10 * Pow10(1);
    }
    DigitsValueAppend(prefix, p);
    assert DigitsValue(prefix + p) == DigitsValue(prefix) * 100 + v;
    ParseIntDigits(prefix + p);
  }

  /** The two century prefixes read as 19 and 20. */
  lemma CenturyPrefixes(nineteen: string, twenty: string)
    requires nineteen == "19" && twenty == "20"
    ensures DigitsValue(nineteen) == 19 && DigitsValue(twenty) == 20
  {
    TwoDigitsValue(nineteen);
    TwoDigitsValue(twenty);
  }

  /** The text of the century-resolved year before it is parsed:
      `'19' + String(yearSuffix).padStart(2, '0')` when the suffix exceeds
      50, `'20' + …` otherwise (including `NaN`, which compares false). */
  function CenturyText(suffix: Option<int>): string {
    (if suffix.Some? && suffix.value > 50 then "19" else "20")
      + PadStart(NumberToString(suffix), 2, '0')
  }

  /** An unparseable suffix gives "20NaN", which parses as 20. */
  lemma CenturyTextNaN(suffix: Option<int>, twenty: string, nan: string)
    requires suffix.None? && twenty == "20" && nan == "NaN"
    ensures ParseInt(CenturyText(suffix)) == Some(20)
  {
    assert NumberToString(suffix) == nan;
    assert PadStart(nan, 2, '0') == nan;
    assert CenturyText(suffix) == twenty + nan;
    assert nan[0] == 'N';
    ParseIntDigitRun(twenty, nan);
    TwoDigitsValue(twenty);
  }

  /** A negative suffix such as -5 gives "20-5", which parses as 20. */
  lemma CenturyTextNegative(v: int, twenty: string)
    requires -9 <= v < 0 && twenty == "20"
    ensures ParseInt(CenturyText(Some(v))) == Some(20)
  {
    var s := NumberToString(Some(v));
    assert |s| >= 2 && s[0] == '-';
    assert PadStart(s, 2, '0') == s;
    assert CenturyText(Some(v)) == twenty + s;
    ParseIntDigitRun(twenty, s);
    TwoDigitsValue(twenty);
  }

  /** The century rule: suffixes 51..99 are 19xx, 0..50 are 20xx; a negative
      or unparseable suffix parses as 20. */
  lemma CenturyTextValue(suffix: Option<int>)
    requires suffix.Some? ==> -9 <= suffix.value <= 99
    ensures ParseInt(CenturyText(suffix)) == Some(
              if suffix.None? || suffix.value < 0 then 20
              else if suffix.value > 50 then 1900 + suffix.value
              else 2000 + suffix.value)
  {
    if suffix.None? {
      CenturyTextNaN(suffix, "20", "NaN");
    } else if suffix.value < 0 {
      CenturyTextNegative(suffix.value, "20");
    } else {
      assert NumberToString(suffix) == NatToString(suffix.value);
      CenturyPrefixes("19", "20");
      if suffix.value > 50 {
        CenturyDigits("19", suffix.value);
      } else {
        CenturyDigits("20", suffix.value);
      }
    }
  }

  /** The year `calculateAge` computes from the suffix, before `Date` is built. */
  function CenturyYear(suffix: Option<int>): (year: int)
    requires suffix.Some? ==> -9 <= suffix.value <= 99
    ensures suffix.Some? && suffix.value > 50 ==> year == 1900 + suffix.value
    ensures suffix.Some? && 0 <= suffix.value <= 50 ==> year == 2000 + suffix.value
    ensures suffix.None? || suffix.value < 0 ==> year == 20
  {
    CenturyTextValue(suffix);
    ParseInt(CenturyText(suffix)).value
  }

  /** `x < k` where `x` may be `NaN` (every comparison with `NaN` is false). */
  predicate Lt(x: Option<int>, k: int) { x.Some? && x.value < k }

  /** `x > k` where `x` may be `NaN`. */
  predicate Gt(x: Option<int>, k: int) { x.Some? && x.value > k }

  /** The values `calculateAge` reads out of the code: the parsed month and
      day, and the century-resolved year. */
  datatype DobFields = DobFields(month: int, day: int, year: int)

  /** The parsing half of `calculateAge`: `None` when the length is not 6 or
      the month or day is `NaN`. */
  function ParseDob(dob: string): (r: Option<DobFields>)
    ensures r.Some? ==> |dob| == 6 && r.value.year >= 20
  {
    if |dob| != 6 then None
    else
      var month := ParseInt(dob[0..2]);
      var day := ParseInt(dob[2..4]);
      var suffix := ParseInt(dob[4..6]);
      ParseIntTwoChars(dob[4..6]);
      var year := CenturyYear(suffix);
      if month.None? || day.None? then None
      else Some(DobFields(month.value, day.value, year))
  }

  /** `calculateAge(dob)` with the clock reading `today`. `None` is `null`. */
  function CalculateAge(dob: string, today: Date): (r: Option<AgeInfo>)
    ensures |dob| != 6 ==> r.None?
    ensures r.Some? ==> ValidDate(r.value.birthDate) && r.value.year == r.value.birthDate.year
  {
    var fields := ParseDob(dob);
    if fields.None? then None else Some(AgeFrom(fields.value, today))
  }

  /** `calculateAge` is its date half applied to its parsing half. */
  lemma CalculateAgeOfFields(dob: string, today: Date, f: DobFields)
    requires ParseDob(dob) == Some(f)
    ensures CalculateAge(dob, today) == Some(AgeFrom(f, today))
  {
  }

  /** The date half of `calculateAge`: `new Date(year, month - 1, day)`. */
  function AgeFrom(f: DobFields, today: Date): AgeInfo {
    AgeOn(MakeDate(f.year, f.month - 1, f.day), f.year, today)
  }

  /** The result for a birth date built from `year`: the age is the year
      difference, one less when this year's birthday is still to come; the
      sign is taken from `year`, not from the rolled birth date. */
  function AgeOn(birth: Date, year: int, today: Date): AgeInfo {
    var age := today.year - birth.year;
    var monthDiff := today.month - birth.month;
    var age' := if monthDiff < 0 || (monthDiff == 0 && today.day < birth.day) then age - 1 else age;
    AgeInfo(age', birth.year, ZodiacSign(year), birth)
  }

  /** After the length check the only rejection is an unparseable month or
      day: out-of-range values are rolled over, never refused. */
  lemma CalculateAgeRejects(dob: string, today: Date)
    requires |dob| == 6
    ensures CalculateAge(dob, today).None? <==> ParseInt(dob[0..2]).None? || ParseInt(dob[2..4]).None?
  {
  }

  /** The age is the number of completed years: the `age`-th anniversary of
      the (rolled) birth date is not after `today`, the next one is. */
  lemma AgeIsCompletedYears(dob: string, today: Date)
    requires CalculateAge(dob, today).Some?
    ensures var info := CalculateAge(dob, today).value;
            var b := info.birthDate;
            !Before(today, Date(b.year + info.age, b.month, b.day))
            && Before(today, Date(b.year + info.age + 1, b.month, b.day))
  {
  }

  /** The zodiac sign is always defined: the year it is taken from is 20
      or lies in 1951..2050. */
  lemma ZodiacAlwaysDefined(dob: string, today: Date)
    requires CalculateAge(dob, today).Some?
    ensures CalculateAge(dob, today).value.zodiacYear.Some?
  {
    ZodiacSignDefined(ParseDob(dob).value.year);
  }

  /** Month, day and century-resolved year of a six-digit code. */
  function CodeMonth(dob: string): nat requires |dob| == 6 && AllDigits(dob) { DigitsValue(dob[0..2]) }
  function CodeDay(dob: string): nat requires |dob| == 6 && AllDigits(dob) { DigitsValue(dob[2..4]) }
  function CodeYear(dob: string): nat
    requires |dob| == 6 && AllDigits(dob)
  {
    var yy := DigitsValue(dob[4..6]);
    if yy > 50 then 1900 + yy else 2000 + yy
  }

  /** Two decimal digits are worth at most 99. */
  lemma TwoDigitsBound(s: string)
    requires |s| == 2 && AllDigits(s)
    ensures DigitsValue(s) <= 99
  {
    TwoDigitsValue(s);
  }

  /** The three two-digit fields of an all-digit code parse as their values. */
  lemma ParseFields(dob: string)
    requires |dob| == 6 && AllDigits(dob)
    ensures ParseInt(dob[0..2]) == Some(CodeMonth(dob))
    ensures ParseInt(dob[2..4]) == Some(CodeDay(dob))
    ensures ParseInt(dob[4..6]) == Some(DigitsValue(dob[4..6]))
    ensures DigitsValue(dob[4..6]) <= 99
  {
    var m, d, y := dob[0..2], dob[2..4], dob[4..6];
    assert AllDigits(m) && AllDigits(d) && AllDigits(y);
    ParseIntDigits(m);
    ParseIntDigits(d);
    ParseIntDigits(y);
    TwoDigitsBound(y);
  }

  /** A six-digit code naming a real calendar date gives back that date in
      the century-resolved year, the age by whether this year's birthday has
      come, and the sign of `(year - 4) mod 12`. */
  lemma CalculateAgeOfValidCode(dob: string, today: Date)
    requires |dob| == 6 && AllDigits(dob)
    requires ValidDate(Date(CodeYear(dob), CodeMonth(dob), CodeDay(dob)))
    ensures CalculateAge(dob, today).Some?
    ensures var info := CalculateAge(dob, today).value;
            info.birthDate == Date(CodeYear(dob), CodeMonth(dob), CodeDay(dob))
            && info.year == CodeYear(dob)
            && info.zodiacYear == Some(ZODIAC_SIGNS[(CodeYear(dob) - 4) % 12])
            && info.age == today.year - CodeYear(dob)
                 - (if Before(Date(0, today.month, today.day), Date(0, CodeMonth(dob), CodeDay(dob))) then 1 else 0)
  {
    var f := DobFields(CodeMonth(dob), CodeDay(dob), CodeYear(dob));
    ParseDobOfCode(dob);
    assert CalculateAge(dob, today) == Some(AgeFrom(f, today));
    AgeFromValid(f, today);
  }

  /** The code's fields digit by digit. */
  lemma CodeFields(dob: string)
    requires |dob| == 6 && AllDigits(dob)
    ensures CodeMonth(dob) == 10 * (dob[0] - '0') as int + (dob[1] - '0') as int
    ensures CodeDay(dob) == 10 * (dob[2] - '0') as int + (dob[3] - '0') as int
    ensures DigitsValue(dob[4..6]) == 10 * (dob[4] - '0') as int + (dob[5] - '0') as int
  {
    TwoDigitsValue(dob[0..2]);
    TwoDigitsValue(dob[2..4]);
    TwoDigitsValue(dob[4..6]);
  }

  /** An all-digit code parses into its month, day and century-resolved year. */
  lemma ParseDobOfCode(dob: string)
    requires |dob| == 6 && AllDigits(dob)
    ensures ParseDob(dob) == Some(DobFields(CodeMonth(dob), CodeDay(dob), CodeYear(dob)))
  {
    ParseFields(dob);
  }

  /** For a real calendar date the birth date is not rolled, and the sign is
      `(year - 4) mod 12` into the table. */
  lemma AgeFromValid(f: DobFields, today: Date)
    requires f.year >= 100 && ValidDate(Date(f.year, f.month, f.day))
    ensures AgeFrom(f, today) == AgeInfo(
              today.year - f.year - (if Before(Date(0, today.month, today.day), Date(0, f.month, f.day)) then 1 else 0),
              f.year,
              Some(ZODIAC_SIGNS[(f.year - 4) % 12]),
              Date(f.year, f.month, f.day))
  {
    AgeFromRealDate(f, today);
    AgeOnBefore(Date(f.year, f.month, f.day), f.year, today);
    ZodiacSignDefined(f.year);
  }

  /** For a real calendar date, `AgeFrom` works on that date unrolled. */
  lemma AgeFromRealDate(f: DobFields, today: Date)
    requires f.year >= 100 && ValidDate(Date(f.year, f.month, f.day))
    ensures AgeFrom(f, today) == AgeOn(Date(f.year, f.month, f.day), f.year, today)
  {
    MakeDateOfValid(f.year, f.month, f.day);
  }

  /** The age is one less exactly when this year's birthday is still to come. */
  lemma AgeOnBefore(birth: Date, year: int, today: Date)
    ensures AgeOn(birth, year, today) == AgeInfo(
              today.year - birth.year - (if Before(Date(0, today.month, today.day), Date(0, birth.month, birth.day)) then 1 else 0),
              birth.year, ZodiacSign(year), birth)
  {
  }

  /** `new Date(y, m - 1, d)` of a real date with a four-digit year is that date. */
  lemma MakeDateOfValid(y: int, m: int, d: int)
    requires y >= 100 && ValidDate(Date(y, m, d))
    ensures MakeDate(y, m - 1, d) == Date(y, m, d)
  {
    assert FullYear(y) == y;
    assert (m - 1) / 12 == 0 && (m - 1) % 12 + 1 == m;
    RollDaysValid(y, m, d);
  }

  // ---------------------------------------------------------------------
  // formatDOB
  // ---------------------------------------------------------------------

  const MONTH_NAMES: seq<string> :=
    ["January", "February", "March", "April", "May", "June",
     "July", "August", "September", "October", "November", "December"]

  /** `${monthNames[monthIndex]}`: the name, or "undefined" for `NaN`. */
  function MonthNameText(monthIndex: Option<int>): string
    requires monthIndex.Some? ==> 0 <= monthIndex.value <= 11
  {
    if monthIndex.Some? then MONTH_NAMES[monthIndex.value] else "undefined"
  }

  /** The display shape "<month> <day>, <year>". */
  function DateText(month: string, day: string, year: string): string {
    month + " " + day + ", " + year
  }

  /** `formatDOB(dob)`: "<Month> <day>, 19<YY>", or the input unchanged when
      its length is not 6 or the parsed month is outside 1..12. An
      unparseable month passes the range test (as `NaN`) and displays as
      "undefined". */
  function FormatDOB(dob: string): (r: string)
  {
    if |dob| != 6 then dob
    else
      var m := ParseInt(dob[0..2]);
      var monthIndex := if m.Some? then Some(m.value - 1) else None;
      if Lt(monthIndex, 0) || Gt(monthIndex, 11) then dob
      else DateText(MonthNameText(monthIndex), NumberToString(ParseInt(dob[2..4])), "19" + dob[4..6])
  }

  /** `formatDOB` hands back its input when the length is wrong or the month
      parses outside 1..12. */
  lemma FormatDOBPassThrough(dob: string)
    requires |dob| != 6 || (ParseInt(dob[0..2]).Some? && !(1 <= ParseInt(dob[0..2]).value <= 12))
    ensures FormatDOB(dob) == dob
  {
  }

  /** An all-digit code whose month is 1..12 (every code `validateDOB`
      accepts, by `ValidateDOBMeaning`) is displayed as month name, day
      without leading zero, and the year suffix after a fixed "19". */
  lemma FormatDOBOfValidCode(dob: string)
    requires |dob| == 6 && AllDigits(dob) && 1 <= CodeMonth(dob) <= 12
    ensures FormatDOB(dob) == DateText(MONTH_NAMES[CodeMonth(dob) - 1], NatToString(CodeDay(dob)), "19" + dob[4..6])
  {
    ParseFields(dob);
    FormatDOBParsed(dob, CodeMonth(dob), CodeDay(dob));
  }

  /** Once the month parses inside 1..12 and the day as a non-negative
      number, the display is name, day, and "19" before the suffix. */
  lemma FormatDOBParsed(dob: string, m: int, d: int)
    requires |dob| == 6 && 1 <= m <= 12 && d >= 0
    requires ParseInt(dob[0..2]) == Some(m) && ParseInt(dob[2..4]) == Some(d)
    ensures FormatDOB(dob) == DateText(MONTH_NAMES[m - 1], NatToString(d), "19" + dob[4..6])
  {
  }

  /** "19" before two digits reads as 1900 plus their value. */
  lemma NineteenPrefix(nineteen: string, yy: string)
    requires nineteen == "19"
    requires |yy| == 2 && AllDigits(yy)
    ensures ParseInt(nineteen + yy) == Some(1900 + DigitsValue(yy))
  {
    TwoDigitsValue(nineteen);
    DigitsValueAppend(nineteen, yy);
    assert Pow10(2) == 100;
    ParseIntDigits(nineteen + yy);
  }

  /** For a code whose suffix is 50 or less, `formatDOB` shows a year one
      century before the one `calculateAge` computes the age from: the
      "19" prefix is fixed, while the age uses 20xx. */
  lemma FormatDOBShowsWrongCentury(dob: string, today: Date, nineteen: string)
    requires nineteen == "19"
    requires |dob| == 6 && AllDigits(dob) && 1 <= CodeMonth(dob) <= 12
    requires DigitsValue(dob[4..6]) <= 50
    requires ValidDate(Date(CodeYear(dob), CodeMonth(dob), CodeDay(dob)))
    ensures FormatDOB(dob) == DateText(MONTH_NAMES[CodeMonth(dob) - 1], NatToString(CodeDay(dob)), nineteen + dob[4..6])
    ensures CalculateAge(dob, today).Some? && CalculateAge(dob, today).value.year == CodeYear(dob)
    ensures ParseInt(nineteen + dob[4..6]) == Some(CodeYear(dob) - 100)
  {
    FormatDOBOfValidCode(dob);
    assert CalculateAge(dob, today).Some? && CalculateAge(dob, today).value.year == CodeYear(dob) by {
      AgeYearOfValidCode(dob, today);
    }
    NineteenBeforeSuffix(dob, nineteen);
  }

  /** "19" before the suffix of a code reads as a year one century before
      the code's year whenever the suffix is 50 or less. */
  lemma NineteenBeforeSuffix(dob: string, nineteen: string)
    requires nineteen == "19"
    requires |dob| == 6 && AllDigits(dob)
    requires DigitsValue(dob[4..6]) <= 50
    ensures ParseInt(nineteen + dob[4..6]) == Some(CodeYear(dob) - 100)
  {
    var yy := dob[4..6];
    assert AllDigits(yy);
    NineteenPrefix(nineteen, yy);
  }

  /** `formatDOB` with the year resolved by the same century rule as
      `calculateAge`. */
  function FormatDOBResolved(dob: string): (r: string)
  {
    if |dob| != 6 then dob
    else
      var m := ParseInt(dob[0..2]);
      var monthIndex := if m.Some? then Some(m.value - 1) else None;
      if Lt(monthIndex, 0) || Gt(monthIndex, 11) then dob
      else DateText(MonthNameText(monthIndex), NumberToString(ParseInt(dob[2..4])), SuffixYearText(dob[4..6]))
  }

  /** The year of a two-character suffix by `calculateAge`'s century rule
      (`CenturyYearResolves`), as text. */
  function SuffixYearText(yy: string): string
    requires |yy| == 2
  {
    NumberToString(Some(ResolvedYear(ParseInt(yy))))
  }

  /** The century rule as arithmetic: 51..99 is 19xx, any other parsed
      value 20xx, and a negative or unparseable suffix the year 20. */
  function ResolvedYear(suffix: Option<int>): int {
    if suffix.None? || suffix.value < 0 then 20
    else if suffix.value > 50 then 1900 + suffix.value
    else 2000 + suffix.value
  }

  /** `calculateAge`'s string-built year is the arithmetic rule. */
  lemma CenturyYearResolves(suffix: Option<int>)
    requires suffix.Some? ==> -9 <= suffix.value <= 99
    ensures CenturyYear(suffix) == ResolvedYear(suffix)
  {
  }

  /** The resolved display of a six-digit code with a month in 1..12. */
  lemma FormatDOBResolvedOfValidCode(dob: string)
    requires |dob| == 6 && AllDigits(dob) && 1 <= CodeMonth(dob) <= 12
    ensures FormatDOBResolved(dob) == DateText(MONTH_NAMES[CodeMonth(dob) - 1], NatToString(CodeDay(dob)), NatToString(CodeYear(dob)))
  {
    ParseFields(dob);
    FormatDOBResolvedParsed(dob, CodeMonth(dob), CodeDay(dob), DigitsValue(dob[4..6]));
  }

  /** Once the three fields parse, the resolved display is name, day and
      the century-resolved year. */
  lemma FormatDOBResolvedParsed(dob: string, m: int, d: int, yy: int)
    requires |dob| == 6 && 1 <= m <= 12 && d >= 0 && 0 <= yy <= 99
    requires ParseInt(dob[0..2]) == Some(m) && ParseInt(dob[2..4]) == Some(d) && ParseInt(dob[4..6]) == Some(yy)
    ensures FormatDOBResolved(dob) == DateText(MONTH_NAMES[m - 1], NatToString(d),
                                               NatToString(if yy > 50 then 1900 + yy else 2000 + yy))
  {
    FormatDOBResolvedInRange(dob, m);
    assert NumberToString(ParseInt(dob[2..4])) == NatToString(d);
    assert SuffixYearText(dob[4..6]) == NatToString(if yy > 50 then 1900 + yy else 2000 + yy);
  }

  /** Past the length and month checks, the resolved display is built from
      the three fields. */
  lemma FormatDOBResolvedInRange(dob: string, m: int)
    requires |dob| == 6 && 1 <= m <= 12 && ParseInt(dob[0..2]) == Some(m)
    ensures FormatDOBResolved(dob) == DateText(MONTH_NAMES[m - 1], NumberToString(ParseInt(dob[2..4])), SuffixYearText(dob[4..6]))
  {
    assert MonthNameText(Some(m - 1)) == MONTH_NAMES[m - 1];
  }

  /** `calculateAge` of a six-digit code naming a real date is built on the
      code's century-resolved year. */
  lemma AgeYearOfValidCode(dob: string, today: Date)
    requires |dob| == 6 && AllDigits(dob)
    requires ValidDate(Date(CodeYear(dob), CodeMonth(dob), CodeDay(dob)))
    ensures CalculateAge(dob, today).Some? && CalculateAge(dob, today).value.year == CodeYear(dob)
  {
    CalculateAgeOfValidCode(dob, today);
  }

  /** The resolved display names the year whose age `calculateAge` gives,
      and that year reads back from the text. */
  lemma FormatDOBResolvedAgreesWithAge(dob: string, today: Date)
    requires |dob| == 6 && AllDigits(dob) && 1 <= CodeMonth(dob) <= 12
    requires ValidDate(Date(CodeYear(dob), CodeMonth(dob), CodeDay(dob)))
    ensures CalculateAge(dob, today).Some? && CalculateAge(dob, today).value.year == CodeYear(dob)
    ensures FormatDOBResolved(dob) == DateText(MONTH_NAMES[CodeMonth(dob) - 1], NatToString(CodeDay(dob)), NatToString(CodeYear(dob)))
    ensures ParseInt(NatToString(CodeYear(dob))) == Some(CodeYear(dob))
  {
    FormatDOBResolvedOfValidCode(dob);
    assert CalculateAge(dob, today).Some? && CalculateAge(dob, today).value.year == CodeYear(dob) by {
      AgeYearOfValidCode(dob, today);
    }
    ParseIntNatToString(CodeYear(dob));
  }

  // ---------------------------------------------------------------------
  // validateDOB
  // ---------------------------------------------------------------------

  /** `validateDOB(dob)`. */
  function ValidateDOB(dob: string): bool
  {
    if |dob| != 6 then false
    else if !AllDigits(dob) then false
    else
      var month := ParseInt(dob[0..2]);
      var day := ParseInt(dob[2..4]);
      if Lt(month, 1) || Gt(month, 12) then false
      else if Lt(day, 1) || Gt(day, 31) then false
      else true
  }

  /** `validateDOB` accepts exactly six digits whose month is 1..12 and whose
      day is 1..31, whatever the month's real length. */
  lemma ValidateDOBMeaning(dob: string)
    ensures ValidateDOB(dob) <==>
              |dob| == 6 && AllDigits(dob) && 1 <= CodeMonth(dob) <= 12 && 1 <= CodeDay(dob) <= 31
  {
    if |dob| == 6 && AllDigits(dob) {
      ParseFields(dob);
    }
  }

  /** Whatever `validateDOB` accepts, `calculateAge` gives a result for. */
  lemma ValidatedCodeHasAge(dob: string, today: Date)
    requires ValidateDOB(dob)
    ensures CalculateAge(dob, today).Some?
  {
    ParseFields(dob);
  }
}
