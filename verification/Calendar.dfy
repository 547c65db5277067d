// The civil calendar of tools/observe/src/clock.rs: days since the Unix epoch
// to a date, in truncating and unsigned arithmetic, against the proleptic
// Gregorian calendar stated from its leap rule.
module Calendar {

  datatype Date = Date(year: int, month: int, day: int)

  // ----- the calendar itself (RFC 3339, section 5.7 and Appendix C) -----

  predicate IsLeap(year: int) {
    year % 4 == 0 && (year % 100 != 0 || year % 400 == 0)
  }

  function DaysInMonth(year: int, month: int): int
    requires 1 <= month <= 12
  {
    if month == 2 then (if IsLeap(year) then 29 else 28)
    else if month == 4 || month == 6 || month == 9 || month == 11 then 30
    else 31
  }

  predicate Valid(d: Date) {
    1 <= d.month <= 12 && 1 <= d.day <= DaysInMonth(d.year, d.month)
  }

  /** The day after a date, by the calendar alone. */
  function NextDay(d: Date): Date
    requires Valid(d)
  {
    if d.day < DaysInMonth(d.year, d.month) then Date(d.year, d.month, d.day + 1)
    else if d.month < 12 then Date(d.year, d.month + 1, 1)
    else Date(d.year + 1, 1, 1)
  }

  /** Leap days in the years from 1 to `year`, less those from `year` to 0. */
  function LeapDays(year: int): int {
    year / 4 - year / 100 + year / 400
  }

  /** Days from 1 January of year 0, a leap year, to 1 January of `year`. */
  function DaysBeforeYear(year: int): int {
    365 * year + LeapDays(year - 1) + 1
  }

  function DaysBeforeMonth(year: int, month: int): int
    requires 1 <= month <= 12
  {
    if month == 1 then 0 else DaysBeforeMonth(year, month - 1) + DaysInMonth(year, month - 1)
  }

  const EPOCH := 719528

  /** The inverse the source does not have: a date to its day number. */
  function DaysFromCivil(d: Date): int
    requires Valid(d)
  {
    DaysBeforeYear(d.year) + DaysBeforeMonth(d.year, d.month) + d.day - 1 - EPOCH
  }

  // ----- the source's arithmetic -----

  /** Integer division as the source's signed types do it, towards zero. */
  function TruncDiv(a: int, b: int): int
    requires b > 0
  {
    if a >= 0 then a / b else -((-a) / b)
  }

  /** `civil_from_days`. Every `nat` below is an unsigned 64-bit value in the
      source, so that this is well typed is that no subtraction underflows. */
  function CivilFromDays(days: int): Date {
    var shifted := days + 719468;
    var era := Era(shifted);
    FromEra(era, shifted - era * 146097)
  }

  /** The era a shifted day is in: truncating division, corrected so that a
      negative day lands in the era before. */
  function Era(shifted: int): (era: int)
    ensures 0 <= shifted - era * 146097 < 146097
  {
    TruncDiv(if shifted >= 0 then shifted else shifted - 146096, 146097)
  }

  /** The date `dayOfEra` days into an era of 400 years. */
  function FromEra(era: int, dayOfEra: nat): Date
    requires dayOfEra < 146097
  {
    var yearOfEra := YearOfEra(dayOfEra);
    YearOfEraBounds(dayOfEra);
    var dayOfYear: nat := dayOfEra - DaysBeforeYearOfEra(yearOfEra);
    FromMarch(yearOfEra + era * 400, dayOfYear)
  }

  /** The date `dayOfYear` days after 1 March. */
  function FromMarch(year: int, dayOfYear: nat): Date {
    var monthPrime: nat := (5 * dayOfYear + 2) / 153;
    var day: nat := dayOfYear - (153 * monthPrime + 2) / 5 + 1;
    var month: nat := if monthPrime < 10 then monthPrime + 3 else monthPrime - 9;
    Date(if month <= 2 then year + 1 else year, month, day)
  }

  function YearOfEra(dayOfEra: nat): nat
    requires dayOfEra < 146097
  {
    var step1: nat := dayOfEra - dayOfEra / 1460;
    var step2: nat := step1 + dayOfEra / 36524;
    var step3: nat := step2 - dayOfEra / 146096;
    step3 / 365
  }

  function DaysBeforeYearOfEra(yearOfEra: nat): nat {
    var whole: nat := 365 * yearOfEra + yearOfEra / 4;
    whole - yearOfEra / 100
  }

  lemma YearOfEraBounds(dayOfEra: nat)
    requires dayOfEra < 146097
    ensures YearOfEra(dayOfEra) < 400
    ensures DaysBeforeYearOfEra(YearOfEra(dayOfEra)) <= dayOfEra
    ensures dayOfEra < DaysBeforeYearOfEra(YearOfEra(dayOfEra) + 1) + (if YearOfEra(dayOfEra) == 399 then 1 else 0)
  {
    var century, cycle, year, rest := Parts(dayOfEra);
    YearOfEraParts(century, cycle, year, rest);
    DaysBeforeParts(century, cycle, year);
    if year < 3 {
      DaysBeforeParts(century, cycle, year + 1);
    } else if cycle < 24 {
      DaysBeforeParts(century, cycle + 1, 0);
    } else if century < 3 {
      DaysBeforeParts(century + 1, 0, 0);
    }
  }

  /** A day of an era as whole centuries, four-year cycles and years. */
  lemma Parts(dayOfEra: nat) returns (century: nat, cycle: nat, year: nat, rest: nat)
    requires dayOfEra < 146097
    ensures dayOfEra == 36524 * century + 1461 * cycle + 365 * year + rest
    ensures century <= 3 && cycle <= 24 && year <= 3
    ensures rest <= (if year == 3 && (cycle < 24 || century == 3) then 365 else 364)
  {
    century := if dayOfEra == 146096 then 3 else dayOfEra / 36524;
    var ofCentury := dayOfEra - 36524 * century;
    cycle := if ofCentury == 36524 then 24 else ofCentury / 1461;
    var ofCycle := ofCentury - 1461 * cycle;
    year := if ofCycle == 1460 then 3 else ofCycle / 365;
    rest := ofCycle - 365 * year;
  }

  lemma DaysBeforeParts(century: nat, cycle: nat, year: nat)
    requires century <= 3 && cycle <= 24 && year <= 3
    ensures DaysBeforeYearOfEra(100 * century + 4 * cycle + year) == 36524 * century + 1461 * cycle + 365 * year
  {
    var y := 100 * century + 4 * cycle + year;
    assert y / 4 == 25 * century + cycle;
    assert y / 100 == century;
  }

  /** The year, from the day written as whole centuries, four-year cycles,
      years and a remainder. */
  lemma YearOfEraParts(century: nat, cycle: nat, year: nat, rest: nat)
    requires century <= 3 && cycle <= 24 && year <= 3
    requires rest <= (if year == 3 && (cycle < 24 || century == 3) then 365 else 364)
    ensures YearOfEra(36524 * century + 1461 * cycle + 365 * year + rest) == 100 * century + 4 * cycle + year
  {
    var day := 36524 * century + 1461 * cycle + 365 * year + rest;
    assert day == 1460 * (25 * century + cycle) + (24 * century + cycle + 365 * year + rest);
    assert day / 1460 == 25 * century + cycle + (if 24 * century + cycle + 365 * year + rest >= 1460 then 1 else 0);
    assert day / 36524 == (if day == 146096 then 4 else century);
  }

  // ----- what it computes -----

  lemma MonthTable(year: int)
    ensures var leap := if IsLeap(year) then 1 else 0;
            && DaysBeforeMonth(year, 1) == 0 && DaysBeforeMonth(year, 2) == 31
            && forall m :: 3 <= m <= 12 ==> DaysBeforeMonth(year, m) == 59 + leap + (153 * (m - 3) + 2) / 5
  {
    var leap := if IsLeap(year) then 1 else 0;
    assert DaysBeforeMonth(year, 1) == 0;
    assert DaysBeforeMonth(year, 2) == 31;
    assert DaysBeforeMonth(year, 3) == 59 + leap;
    assert DaysBeforeMonth(year, 4) == 90 + leap;
    assert DaysBeforeMonth(year, 5) == 120 + leap;
    assert DaysBeforeMonth(year, 6) == 151 + leap;
    assert DaysBeforeMonth(year, 7) == 181 + leap;
    assert DaysBeforeMonth(year, 8) == 212 + leap;
    assert DaysBeforeMonth(year, 9) == 243 + leap;
    assert DaysBeforeMonth(year, 10) == 273 + leap;
    assert DaysBeforeMonth(year, 11) == 304 + leap;
    assert DaysBeforeMonth(year, 12) == 334 + leap;
  }

  lemma LeapDaysStep(year: int)
    ensures LeapDays(year) == LeapDays(year - 1) + (if IsLeap(year) then 1 else 0)
  {
    StepBy4(year);
    StepBy100(year);
    StepBy400(year);
    Residues(year);
  }

  lemma StepBy4(y: int)
    ensures y / 4 == (y - 1) / 4 + (if y % 4 == 0 then 1 else 0)
  {
  }

  lemma StepBy100(y: int)
    ensures y / 100 == (y - 1) / 100 + (if y % 100 == 0 then 1 else 0)
  {
  }

  lemma StepBy400(y: int)
    ensures y / 400 == (y - 1) / 400 + (if y % 400 == 0 then 1 else 0)
  {
  }

  lemma Residues(y: int)
    ensures y % 400 == 0 ==> y % 100 == 0
    ensures y % 100 == 0 ==> y % 4 == 0
  {
  }

  /** An era is 400 years and 97 leap days. */
  lemma LeapDaysOfEra(yearOfEra: nat, era: int)
    ensures LeapDays(yearOfEra + 400 * era) == LeapDays(yearOfEra) + 97 * era
    ensures IsLeap(yearOfEra + 400 * era) == IsLeap(yearOfEra)
  {
    var year := yearOfEra + 400 * era;
    assert year / 4 == yearOfEra / 4 + 100 * era && year % 4 == yearOfEra % 4;
    EraBy100(yearOfEra, era);
    EraBy400(yearOfEra, era);
  }

  lemma EraBy100(r: nat, era: int)
    ensures (r + 400 * era) / 100 == r / 100 + 4 * era && (r + 400 * era) % 100 == r % 100
  {
  }

  lemma EraBy400(r: nat, era: int)
    ensures (r + 400 * era) / 400 == r / 400 + era && (r + 400 * era) % 400 == r % 400
  {
  }

  /** Days to 1 March, which is where the source's years begin. */
  lemma MarchYear(yearOfEra: nat, era: int)
    requires yearOfEra < 400
    ensures var year := yearOfEra + 400 * era;
            var march := 60 + 146097 * era + DaysBeforeYearOfEra(yearOfEra);
            && DaysBeforeYear(year) + 59 + (if IsLeap(year) then 1 else 0) == march
            && DaysBeforeYear(year + 1) == march + 306
  {
    LeapDaysOfEra(yearOfEra, era);
    LeapDaysStep(yearOfEra + 400 * era);
  }

  /** Every day number, negative ones included, becomes a real date, and that
      date's day number is the one given. */
  lemma CivilFromDaysIsExact(days: int)
    ensures Valid(CivilFromDays(days))
    ensures DaysFromCivil(CivilFromDays(days)) == days
  {
    hide FromEra; hide DaysFromCivil; hide Valid;
    var shifted := days + 719468;
    var era := Era(shifted);
    hide Era;
    var dayOfEra: nat := shifted - era * 146097;
    FromEraIsExact(era, dayOfEra);
    assert CivilFromDays(days) == FromEra(era, dayOfEra);
    assert 146097 * era + dayOfEra == shifted;
  }

  lemma FromEraIsExact(era: int, dayOfEra: nat)
    requires dayOfEra < 146097
    ensures Valid(FromEra(era, dayOfEra))
    ensures DaysFromCivil(FromEra(era, dayOfEra)) == 146097 * era + dayOfEra - 719468
  {
    var yearOfEra := YearOfEra(dayOfEra);
    YearOfEraBounds(dayOfEra);
    FromYearOfEraIsExact(era, yearOfEra, dayOfEra);
  }

  lemma FromYearOfEraIsExact(era: int, yearOfEra: nat, dayOfEra: nat)
    requires yearOfEra < 400
    requires DaysBeforeYearOfEra(yearOfEra) <= dayOfEra
    requires dayOfEra < DaysBeforeYearOfEra(yearOfEra + 1) + (if yearOfEra == 399 then 1 else 0)
    ensures var d := FromMarch(yearOfEra + era * 400, dayOfEra - DaysBeforeYearOfEra(yearOfEra));
            Valid(d) && DaysFromCivil(d) == 146097 * era + dayOfEra - 719468
  {
    hide FromMarch; hide DaysFromCivil; hide Valid; hide DaysBeforeYear; hide IsLeap; hide DaysBeforeYearOfEra;
    MarchYear(yearOfEra, era);
    LastDayOfYear(yearOfEra, era, dayOfEra);
    FromMarchIsExact(
      yearOfEra + era * 400, dayOfEra - DaysBeforeYearOfEra(yearOfEra),
      60 + 146097 * era + DaysBeforeYearOfEra(yearOfEra));
  }

  lemma FromMarchIsExact(year: int, dayOfYear: nat, march: int)
    requires dayOfYear <= (if IsLeap(year + 1) then 365 else 364)
    requires march == DaysBeforeYear(year) + 59 + (if IsLeap(year) then 1 else 0)
    ensures Valid(FromMarch(year, dayOfYear))
    ensures DaysFromCivil(FromMarch(year, dayOfYear)) == march + dayOfYear - EPOCH
  {
    MonthTable(year);
    MonthTable(year + 1);
    MonthPrimeIsExact(dayOfYear);
    DaysBeforeYearStep(year);
  }

  lemma LastDayOfYear(yearOfEra: nat, era: int, dayOfEra: nat)
    requires yearOfEra < 400
    requires dayOfEra < DaysBeforeYearOfEra(yearOfEra + 1) + (if yearOfEra == 399 then 1 else 0)
    ensures dayOfEra - DaysBeforeYearOfEra(yearOfEra) <= (if IsLeap(yearOfEra + 400 * era + 1) then 365 else 364)
  {
    LeapDaysOfEra(yearOfEra + 1, era);
    LeapDaysStep(yearOfEra + 1);
  }

  /** The month and day within a year that starts in March. */
  lemma MonthPrimeIsExact(dayOfYear: nat)
    requires dayOfYear <= 365
    ensures var m := (5 * dayOfYear + 2) / 153;
            && m <= 11
            && (153 * m + 2) / 5 <= dayOfYear
            && (m < 11 ==> dayOfYear < (153 * (m + 1) + 2) / 5)
  {
  }

  lemma DaysBeforeYearStep(year: int)
    ensures DaysBeforeYear(year + 1) == DaysBeforeYear(year) + (if IsLeap(year) then 366 else 365)
  {
    LeapDaysStep(year);
  }

  /** The calendar's successor moves the day number by one. */
  lemma NextDayIsNext(d: Date)
    requires Valid(d)
    ensures Valid(NextDay(d))
    ensures DaysFromCivil(NextDay(d)) == DaysFromCivil(d) + 1
  {
    MonthTable(d.year);
    DaysBeforeYearStep(d.year);
  }

  predicate Before(a: Date, b: Date) {
    a.year < b.year
    || (a.year == b.year && (a.month < b.month || (a.month == b.month && a.day < b.day)))
  }

  lemma {:induction false} DaysBeforeYearMonotone(a: int, b: int)
    requires a <= b
    ensures DaysBeforeYear(a) + 365 * (b - a) <= DaysBeforeYear(b)
    decreases b - a
  {
    if a < b {
      DaysBeforeYearStep(a);
      DaysBeforeYearMonotone(a + 1, b);
    }
  }

  lemma {:induction false} DaysBeforeMonthMonotone(year: int, a: int, b: int)
    requires 1 <= a <= b <= 12
    ensures a < b ==> DaysBeforeMonth(year, a) + DaysInMonth(year, a) <= DaysBeforeMonth(year, b)
    decreases b - a
  {
    if a + 1 < b {
      DaysBeforeMonthMonotone(year, a, b - 1);
    }
  }

  /** Earlier dates have smaller day numbers, and only earlier dates do. */
  lemma DayNumbersFollowDates(a: Date, b: Date)
    requires Valid(a) && Valid(b)
    ensures Before(a, b) <==> DaysFromCivil(a) < DaysFromCivil(b)
    ensures a == b <==> DaysFromCivil(a) == DaysFromCivil(b)
  {
    if Before(a, b) {
      EarlierIsSmaller(a, b);
    } else if Before(b, a) {
      EarlierIsSmaller(b, a);
    }
  }

  lemma EarlierIsSmaller(a: Date, b: Date)
    requires Valid(a) && Valid(b) && Before(a, b)
    ensures DaysFromCivil(a) < DaysFromCivil(b)
  {
    if a.year < b.year {
      DaysBeforeYearStep(a.year);
      DaysBeforeYearMonotone(a.year + 1, b.year);
      MonthTable(a.year);
      MonthTable(b.year);
    } else if a.month < b.month {
      DaysBeforeMonthMonotone(a.year, a.month, b.month);
    }
  }

  /** The whole calendar: day 0 is the epoch, each day number is followed by
      the calendar's next date, and the two directions undo each other. */
  lemma EpochIsDayZero()
    ensures CivilFromDays(0) == Date(1970, 1, 1)
  {
    hide CivilFromDays;
    CivilFromDaysInvertsDaysFromCivil(Date(1970, 1, 1));
  }

  lemma CivilFromDaysIsTheCalendar(days: int)
    ensures CivilFromDays(0) == Date(1970, 1, 1)
    ensures Valid(CivilFromDays(days))
    ensures CivilFromDays(days + 1) == NextDay(CivilFromDays(days))
  {
    EpochIsDayZero();
    hide CivilFromDays; hide NextDay; hide DaysFromCivil; hide Valid;
    CivilFromDaysIsExact(days);
    CivilFromDaysIsExact(days + 1);
    NextDayIsNext(CivilFromDays(days));
    DayNumbersFollowDates(CivilFromDays(days + 1), NextDay(CivilFromDays(days)));
  }

  /** Every real date is reached, by its own day number only. */
  lemma CivilFromDaysInvertsDaysFromCivil(d: Date)
    requires Valid(d)
    ensures CivilFromDays(DaysFromCivil(d)) == d
  {
    CivilFromDaysIsExact(DaysFromCivil(d));
    DayNumbersFollowDates(CivilFromDays(DaysFromCivil(d)), d);
  }
}
