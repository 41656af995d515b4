/** Day numbers and civil dates of the proleptic Gregorian calendar, as the Date implementation
    converts them. The reference is the calendar itself: leap years, month lengths, the day after. */
module Calendar {

  datatype Civil = Civil(year: int, month: int, date: int)

  // ---- the calendar ----

  predicate IsLeap(year: int) {
    year % 4 == 0 && (year % 100 != 0 || year % 400 == 0)
  }

  function DaysInMonth(year: int, month: int): int {
    if month == 2 then (if IsLeap(year) then 29 else 28)
    else if month in {4, 6, 9, 11} then 30 else 31
  }

  predicate IsDate(c: Civil) {
    1 <= c.month <= 12 && 1 <= c.date <= DaysInMonth(c.year, c.month)
  }

  function Tomorrow(c: Civil): (t: Civil)
    requires IsDate(c)
    ensures IsDate(t)
  {
    if c.date < DaysInMonth(c.year, c.month) then c.(date := c.date + 1)
    else if c.month < 12 then Civil(c.year, c.month + 1, 1)
    else Civil(c.year + 1, 1, 1)
  }

  predicate Earlier(a: Civil, b: Civil) {
    a.year < b.year || (a.year == b.year && (a.month < b.month || (a.month == b.month && a.date < b.date)))
  }

  // ---- the conversions ----

  /** Division as the implementation's integers do it. */
  function TruncDiv(a: int, b: int): int
    requires b > 0
  {
    if a >= 0 then a / b else -((-a) / b)
  }

  function CivilFromDays(day: int): Civil {
    var z := day + 719468;
    var era := TruncDiv(if z >= 0 then z else z - 146096, 146097);
    CivilInEra(era, z - era * 146097)
  }

  function CivilInEra(era: int, dayOfEra: int): Civil {
    var yearOfEra := (dayOfEra - dayOfEra / 1460 + dayOfEra / 36524 - dayOfEra / 146096) / 365;
    var dayOfYear := dayOfEra - (365 * yearOfEra + yearOfEra / 4 - yearOfEra / 100);
    var monthPrime := (5 * dayOfYear + 2) / 153;
    var date := dayOfYear - (153 * monthPrime + 2) / 5 + 1;
    var month := if monthPrime < 10 then monthPrime + 3 else monthPrime - 9;
    Civil(yearOfEra + era * 400 + (if month <= 2 then 1 else 0), month, date)
  }

  function DaysFromCivil(c: Civil): int {
    var year := c.year - (if c.month <= 2 then 1 else 0);
    var era := TruncDiv(if year >= 0 then year else year - 399, 400);
    var yearOfEra := year - era * 400;
    var monthPrime := c.month + (if c.month > 2 then -3 else 9);
    var dayOfYear := (153 * monthPrime + 2) / 5 + c.date - 1;
    var dayOfEra := yearOfEra * 365 + yearOfEra / 4 - yearOfEra / 100 + dayOfYear;
    era * 146097 + dayOfEra - 719468
  }

  // ---- years that begin in March ----

  /** Days before 1 March of `year`, counted from 1 March of year 0. */
  function YearStart(year: int): int {
    365 * year + year / 4 - year / 100 + year / 400
  }

  /** Days before the month that comes `monthPrime` months after March. */
  function MonthStart(monthPrime: int): int {
    (153 * monthPrime + 2) / 5
  }

  lemma TruncDivFloors(a: int)
    ensures TruncDiv(if a >= 0 then a else a - 399, 400) == a / 400
    ensures TruncDiv(if a >= 0 then a else a - 146096, 146097) == a / 146097
  {
  }

  lemma EraSplits(year: int)
    ensures YearStart(year) == year / 400 * 146097 + (year % 400) * 365 + year % 400 / 4 - year % 400 / 100
  {
    var era, y := year / 400, year % 400;
    assert year == 400 * era + y;
    assert year / 4 == 100 * era + y / 4;
    assert year / 100 == 4 * era + y / 100;
  }

  /** The conversion without eras: one formula for all years, past and future. */
  lemma DaysFormula(c: Civil)
    ensures var march := c.year - (if c.month <= 2 then 1 else 0);
            DaysFromCivil(c) == YearStart(march) + MonthStart(c.month + (if c.month > 2 then -3 else 9)) + c.date - 1 - 719468
  {
    var march := c.year - (if c.month <= 2 then 1 else 0);
    TruncDivFloors(march);
    EraSplits(march);
  }

  lemma NextQuotients(year: int)
    ensures (year + 1) / 4 == year / 4 + if (year + 1) % 4 == 0 then 1 else 0
    ensures (year + 1) / 100 == year / 100 + if (year + 1) % 100 == 0 then 1 else 0
    ensures (year + 1) / 400 == year / 400 + if (year + 1) % 400 == 0 then 1 else 0
  {
  }

  lemma Multiples(year: int)
    ensures year % 400 == 0 ==> year % 100 == 0
    ensures year % 100 == 0 ==> year % 4 == 0
  {
  }

  lemma YearLength(year: int)
    ensures YearStart(year + 1) == YearStart(year) + (if IsLeap(year + 1) then 366 else 365)
  {
    NextQuotients(year);
    Multiples(year + 1);
  }

  /** All months but February, which ends the March year, have the length the formula gives. */
  lemma MonthLength(year: int, month: int)
    requires 1 <= month <= 12 && month != 2
    ensures var monthPrime := month + (if month > 2 then -3 else 9);
            MonthStart(monthPrime + 1) == MonthStart(monthPrime) + DaysInMonth(year, month)
  {
  }

  /** The day number counts days: it is 0 on 1 January 1970 and grows by one from each date to the next. */
  lemma DaysCountDays(c: Civil)
    requires IsDate(c)
    ensures DaysFromCivil(Civil(1970, 1, 1)) == 0
    ensures DaysFromCivil(Tomorrow(c)) == DaysFromCivil(c) + 1
  {
    hide DaysFromCivil, YearStart, IsLeap;
    DaysFormula(c);
    DaysFormula(Tomorrow(c));
    EpochIsZero();
    if c.date == DaysInMonth(c.year, c.month) {
      if c.month == 2 { YearLength(c.year - 1); } else { MonthLength(c.year, c.month); }
    }
  }

  lemma EpochIsZero()
    ensures DaysFromCivil(Civil(1970, 1, 1)) == 0
  {
  }

  // ---- the inverse ----

  /** A day of the era is `days` days into year `year` of four, of the `quad`-th four years of the
      `century`-th century. */
  predicate Splits(dayOfEra: int, century: int, quad: int, year: int, days: int) {
    && dayOfEra == 36524 * century + 1461 * quad + 365 * year + days
    && 0 <= century <= 3 && 0 <= quad <= 24 && 0 <= year <= 3
    && 0 <= days <= 365 && (days == 365 ==> year == 3 && (quad < 24 || century == 3))
  }

  lemma EraDaySplits(dayOfEra: int) returns (century: int, quad: int, year: int, days: int)
    requires 0 <= dayOfEra < 146097
    ensures Splits(dayOfEra, century, quad, year, days)
  {
    century := if dayOfEra < 146096 then dayOfEra / 36524 else 3;
    var rest := dayOfEra - 36524 * century;
    quad := rest / 1461;
    var rest' := rest - 1461 * quad;
    year := if rest' < 1460 then rest' / 365 else 3;
    days := rest' - 365 * year;
  }

  lemma ShortcutTerms(dayOfEra: int, century: int, quad: int, year: int, days: int)
    requires Splits(dayOfEra, century, quad, year, days)
    ensures dayOfEra / 36524 - dayOfEra / 146096 == century
    ensures dayOfEra / 1460 == 25 * century + quad + if 24 * century + quad + 365 * year + days >= 1460 then 1 else 0
  {
    var w := 24 * century + quad + 365 * year + days;
    assert dayOfEra == 1460 * (25 * century + quad) + w;
    assert 0 <= w < 2920;
  }

  /** The shortcut division finds the year of the era, and the year starts where it should. */
  lemma YearOfEraFound(dayOfEra: int, century: int, quad: int, year: int, days: int)
    requires Splits(dayOfEra, century, quad, year, days)
    ensures var y := 100 * century + 4 * quad + year;
            && (dayOfEra - dayOfEra / 1460 + dayOfEra / 36524 - dayOfEra / 146096) / 365 == y
            && 0 <= y < 400 && y / 4 == 25 * century + quad && y / 100 == century
            && dayOfEra - (365 * y + y / 4 - y / 100) == days
  {
    ShortcutTerms(dayOfEra, century, quad, year, days);
    var y := 100 * century + 4 * quad + year;
    var shift := if 24 * century + quad + 365 * year + days >= 1460 then 1 else 0;
    assert dayOfEra - dayOfEra / 1460 + dayOfEra / 36524 - dayOfEra / 146096 == 365 * y + (days - shift);
    assert 0 <= days - shift < 365;
  }

  lemma MonthFound(dayOfYear: int)
    requires 0 <= dayOfYear <= 365
    ensures var m := (5 * dayOfYear + 2) / 153;
            0 <= m <= 11 && MonthStart(m) <= dayOfYear && (m < 11 ==> dayOfYear < MonthStart(m + 1))
            && (m == 11 ==> dayOfYear - MonthStart(11) <= 28)
  {
  }

  lemma EraParts(era: int, dayOfEra: int) returns (yearOfEra: int, days: int)
    requires 0 <= dayOfEra < 146097
    ensures 0 <= yearOfEra < 400 && 0 <= days <= 365
    ensures dayOfEra == 365 * yearOfEra + yearOfEra / 4 - yearOfEra / 100 + days
    ensures days == 365 ==> IsLeap(era * 400 + yearOfEra + 1)
    ensures CivilInEra(era, dayOfEra) == CivilOf(era, yearOfEra, days)
  {
    hide IsLeap, CivilInEra, CivilOf;
    var century, quad, year;
    century, quad, year, days := EraDaySplits(dayOfEra);
    YearOfEraFound(dayOfEra, century, quad, year, days);
    yearOfEra := 100 * century + 4 * quad + year;
    if days == 365 { LastDayIsLeap(era, century, quad); }
    CivilInEraIs(era, dayOfEra, yearOfEra, days);
  }

  lemma CivilInEraIs(era: int, dayOfEra: int, yearOfEra: int, days: int)
    requires (dayOfEra - dayOfEra / 1460 + dayOfEra / 36524 - dayOfEra / 146096) / 365 == yearOfEra
    requires dayOfEra - (365 * yearOfEra + yearOfEra / 4 - yearOfEra / 100) == days && 0 <= days <= 365
    ensures CivilInEra(era, dayOfEra) == CivilOf(era, yearOfEra, days)
  {
    MonthFound(days);
  }

  /** What the conversion computes: a March year, a month after March and a day that exists. */
  lemma CivilParts(day: int) returns (era: int, yearOfEra: int, days: int)
    ensures 0 <= yearOfEra < 400 && 0 <= days <= 365
    ensures day + 719468 == era * 146097 + 365 * yearOfEra + yearOfEra / 4 - yearOfEra / 100 + days
    ensures days == 365 ==> IsLeap(era * 400 + yearOfEra + 1)
    ensures CivilFromDays(day) == CivilOf(era, yearOfEra, days)
  {
    hide IsLeap, CivilInEra, CivilOf;
    var z := day + 719468;
    TruncDivFloors(z);
    era := z / 146097;
    assert z - era * 146097 == z % 146097;
    yearOfEra, days := EraParts(era, z % 146097);
  }

  /** The date `days` days after 1 March of a year of an era. */
  function CivilOf(era: int, yearOfEra: int, days: int): Civil {
    var m := (5 * days + 2) / 153;
    Civil(yearOfEra + era * 400 + (if m < 10 then 0 else 1), if m < 10 then m + 3 else m - 9, days - MonthStart(m) + 1)
  }

  lemma LastDayIsLeap(era: int, century: int, quad: int)
    requires 0 <= century <= 3 && 0 <= quad <= 24 && (quad < 24 || century == 3)
    ensures IsLeap(era * 400 + (100 * century + 4 * quad + 3) + 1)
  {
    var year := era * 400 + 100 * century + 4 * (quad + 1);
    assert year == 4 * (100 * era + 25 * century + quad + 1);
    if quad < 24 {
      assert year == 100 * (4 * era + century) + 4 * (quad + 1);
    } else {
      assert year == 400 * (era + 1);
    }
  }

  lemma CivilOfDays(era: int, yearOfEra: int, days: int)
    requires 0 <= yearOfEra < 400 && 0 <= days <= 365
    ensures DaysFromCivil(CivilOf(era, yearOfEra, days)) ==
              era * 146097 + 365 * yearOfEra + yearOfEra / 4 - yearOfEra / 100 + days - 719468
  {
    MonthFound(days);
    var march := yearOfEra + era * 400;
    DaysFormula(CivilOf(era, yearOfEra, days));
    hide DaysFromCivil;
    EraSplits(march);
    assert march / 400 == era && march % 400 == yearOfEra;
  }

  lemma CivilOfIsDate(era: int, yearOfEra: int, days: int)
    requires 0 <= days <= 365
    requires days == 365 ==> IsLeap(era * 400 + yearOfEra + 1)
    ensures IsDate(CivilOf(era, yearOfEra, days))
  {
    MonthFound(days);
    var c := CivilOf(era, yearOfEra, days);
    if c.month != 2 {
      MonthLength(c.year, c.month);
    } else {
      assert MonthStart(11) == 337;
    }
  }

  /** Every day number is the number of a date that exists. */
  lemma CivilIsDate(day: int)
    ensures IsDate(CivilFromDays(day)) && DaysFromCivil(CivilFromDays(day)) == day
  {
    hide CivilFromDays, DaysFromCivil, IsLeap, IsDate, CivilOf;
    var era, yearOfEra, days := CivilParts(day);
    CivilOfDays(era, yearOfEra, days);
    CivilOfIsDate(era, yearOfEra, days);
  }

  function MarchYear(c: Civil): int {
    c.year - (if c.month <= 2 then 1 else 0)
  }

  function MonthPrime(c: Civil): int {
    c.month + (if c.month > 2 then -3 else 9)
  }

  lemma {:induction false} YearsGrow(a: int, b: int)
    requires a <= b
    ensures YearStart(a) <= YearStart(b)
    decreases b - a
  {
    if a < b {
      YearsGrow(a, b - 1);
      YearLength(b - 1);
    }
  }

  /** A date lies inside its March year. */
  lemma InsideYear(c: Civil)
    requires IsDate(c)
    ensures 0 <= MonthStart(MonthPrime(c)) + c.date - 1 < YearStart(MarchYear(c) + 1) - YearStart(MarchYear(c))
  {
    YearLength(MarchYear(c));
    if c.month != 2 { MonthLength(c.year, c.month); }
  }

  /** Later dates have larger numbers. */
  lemma DaysOrdered(a: Civil, b: Civil)
    requires IsDate(a) && IsDate(b) && Earlier(a, b)
    ensures DaysFromCivil(a) < DaysFromCivil(b)
  {
    hide DaysFromCivil, YearStart, IsLeap;
    DaysFormula(a);
    DaysFormula(b);
    InsideYear(a);
    InsideYear(b);
    if MarchYear(a) < MarchYear(b) {
      YearsGrow(MarchYear(a) + 1, MarchYear(b));
    } else {
      assert MarchYear(a) == MarchYear(b);
      if MonthPrime(a) < MonthPrime(b) { MonthLength(a.year, a.month); }
    }
  }

  /** Distinct dates have distinct numbers, so the two conversions are inverse to each other. */
  lemma CivilRoundTrip(c: Civil)
    requires IsDate(c)
    ensures CivilFromDays(DaysFromCivil(c)) == c
  {
    var d := CivilFromDays(DaysFromCivil(c));
    CivilIsDate(DaysFromCivil(c));
    if Earlier(c, d) { DaysOrdered(c, d); }
    if Earlier(d, c) { DaysOrdered(d, c); }
  }
}
