/** Calendar dates of ISO 8601:2004 (sections 3.2.1 and 4.1.2), the proleptic
    Gregorian calendar, and their count of days.

    No division here has a negative operand except the two by an era's length,
    which the source writes as Euclidean. */
module Calendar {

  predicate IsLeap(year: int) {
    year % 4 == 0 && (year % 100 != 0 || year % 400 == 0)
  }

  const LENGTHS: seq<int> := [31, 28, 31, 30, 31, 30, 31, 31, 30, 31, 30, 31]

  function DaysInMonth(year: int, month: int): int {
    if month == 2 && IsLeap(year) then 29
    else LENGTHS[(if month < 1 then 1 else if month > 12 then 12 else month) - 1]
  }

  predicate ValidDate(year: int, month: int, day: int) {
    1 <= month <= 12 && 1 <= day <= DaysInMonth(year, month)
  }

  /** Days since 1970-01-01. */
  function DaysFromCivil(year: int, month: int, day: int): int {
    var y := year - if month <= 2 then 1 else 0;
    var era := y / 400;
    var yearOfEra := y - era * 400;
    var monthFromMarch := (month + 9) % 12;
    var dayOfYear := (153 * monthFromMarch + 2) / 5 + day - 1;
    var dayOfEra := yearOfEra * 365 + yearOfEra / 4 - yearOfEra / 100 + dayOfYear;
    era * 146097 + dayOfEra - 719468
  }

  function CivilFromDays(days: int): (int, int, int) {
    var shifted := days + 719468;
    var era := shifted / 146097;
    var dayOfEra := shifted - era * 146097;
    var yearOfEra := YearOfEra(dayOfEra);
    var dayOfYear := dayOfEra - YearStart(yearOfEra);
    var monthFromMarch := (5 * dayOfYear + 2) / 153;
    var day := dayOfYear - (153 * monthFromMarch + 2) / 5 + 1;
    var month := if monthFromMarch < 10 then monthFromMarch + 3 else monthFromMarch - 9;
    (yearOfEra + era * 400 + if month <= 2 then 1 else 0, month, day)
  }

  /** The year, counted from March, a day of an era falls in. */
  function YearOfEra(dayOfEra: int): int {
    (dayOfEra - dayOfEra / 1460 + dayOfEra / 36524 - dayOfEra / 146096) / 365
  }

  /** The first day, in its era, of a year counted from March. */
  function YearStart(yearOfEra: int): int {
    365 * yearOfEra + yearOfEra / 4 - yearOfEra / 100
  }

  function NextDay(year: int, month: int, day: int): (next: (int, int, int))
    ensures year <= next.0 <= year + 1 && (month >= 0 ==> next.1 >= 0) && (day >= 0 ==> next.2 >= 0)
  {
    if day < DaysInMonth(year, month) then (year, month, day + 1)
    else if month < 12 then (year, month + 1, 1)
    else (year + 1, 1, 1)
  }

  // ---------------------------------------------------------------------
  // Years and months counted from March
  // ---------------------------------------------------------------------

  /** A year counted from March ends with the February of the year after. */
  predicate EndsInLeap(yearOfEra: int) {
    IsLeap(yearOfEra + 1)
  }

  function YearLength(yearOfEra: int): int {
    if EndsInLeap(yearOfEra) then 366 else 365
  }

  /** The era formula finds the year, its leap days notwithstanding. */
  lemma YearOfEraFinds(century: int, quad: int, year: int, dayOfYear: int)
    requires 0 <= century <= 3 && 0 <= quad <= 24 && 0 <= year <= 3
    requires var y := 100 * century + 4 * quad + year; 0 <= dayOfYear < YearLength(y)
    ensures var y := 100 * century + 4 * quad + year;
            && YearStart(y) == 36524 * century + 1461 * quad + 365 * year
            && YearOfEra(YearStart(y) + dayOfYear) == y
  {
    var y := 100 * century + 4 * quad + year;
    assert y / 100 == century && y / 4 == 25 * century + quad;
    assert dayOfYear == 365 ==> year == 3 && (quad != 24 || century == 3);
    YearsFitTheFormula(century, quad, year, dayOfYear);
  }

  lemma YearsFitTheFormula(century: int, quad: int, year: int, dayOfYear: int)
    requires 0 <= century <= 3 && 0 <= quad <= 24 && 0 <= year <= 3 && 0 <= dayOfYear <= 365
    requires dayOfYear == 365 ==> year == 3 && (quad != 24 || century == 3)
    ensures YearOfEra(36524 * century + 1461 * quad + 365 * year + dayOfYear) == 100 * century + 4 * quad + year
  {
    var dayOfEra := 36524 * century + 1461 * quad + 365 * year + dayOfYear;
    var extra := 24 * century + quad + 365 * year + dayOfYear;
    var late := if extra >= 1460 then 1 else 0;
    assert dayOfEra / 1460 == 25 * century + quad + late;
    assert dayOfEra / 36524 - dayOfEra / 146096 == century;
  }

  /** Every day of an era is a day of the year the formula finds. */
  lemma EraSplits(dayOfEra: int)
    requires 0 <= dayOfEra < 146097
    ensures 0 <= YearOfEra(dayOfEra) < 400
    ensures YearStart(YearOfEra(dayOfEra)) <= dayOfEra < YearStart(YearOfEra(dayOfEra))
        + YearLength(YearOfEra(dayOfEra))
  {
    var century := if dayOfEra / 36524 > 3 then 3 else dayOfEra / 36524;
    var inCentury := dayOfEra - 36524 * century;
    var quad := inCentury / 1461;
    var inQuad := inCentury - 1461 * quad;
    var year := if inQuad / 365 > 3 then 3 else inQuad / 365;
    var dayOfYear := inQuad - 365 * year;
    YearOfEraFinds(century, quad, year, dayOfYear);
  }

  lemma YearDays(yearOfEra: int, dayOfYear: int)
    requires 0 <= yearOfEra < 400 && 0 <= dayOfYear < YearLength(yearOfEra)
    ensures YearOfEra(YearStart(yearOfEra) + dayOfYear) == yearOfEra
    ensures 0 <= YearStart(yearOfEra) + dayOfYear < 146097
  {
    hide EndsInLeap, YearOfEra;
    var century, quad, year := yearOfEra / 100, yearOfEra % 100 / 4, yearOfEra % 4;
    assert yearOfEra == 100 * century + 4 * quad + year;
    YearOfEraFinds(century, quad, year, dayOfYear);
    LastDay(yearOfEra, dayOfYear);
  }

  lemma LastDay(yearOfEra: int, dayOfYear: int)
    requires 0 <= yearOfEra < 400 && 0 <= dayOfYear < YearLength(yearOfEra)
    ensures 0 <= YearStart(yearOfEra) + dayOfYear < 146097
  {
  }

  function MonthStart(monthFromMarch: int): int {
    (153 * monthFromMarch + 2) / 5
  }

  /** Months from March start where their lengths say, February being last. */
  lemma MonthLengths(year: int, month: int)
    requires 1 <= month <= 12
    ensures var m := (month + 9) % 12;
            && 0 <= m <= 11
            && (m < 11 ==> MonthStart(m + 1) - MonthStart(m) == DaysInMonth(year, month))
            && (m == 11 ==> MonthStart(m) + DaysInMonth(year, month) == if IsLeap(year) then 366 else 365)
  {
  }

  /** A day of the year names its month. */
  lemma MonthOfDay(monthFromMarch: int, dayOfYear: int)
    requires MonthStart(monthFromMarch) <= dayOfYear < MonthStart(monthFromMarch + 1)
    ensures (5 * dayOfYear + 2) / 153 == monthFromMarch
  {
  }

  lemma MonthHoldsDay(dayOfYear: int)
    ensures var m := (5 * dayOfYear + 2) / 153; MonthStart(m) <= dayOfYear < MonthStart(m + 1)
  {
  }

  /** A date counted from March: the era, the year in it, the day of that. */
  datatype March = March(era: int, year: int, day: int)

  predicate ValidMarch(d: March) {
    0 <= d.year < 400 && 0 <= d.day < YearLength(d.year)
  }

  function MarchOf(year: int, month: int, day: int): March {
    var y := year - if month <= 2 then 1 else 0;
    March(y / 400, y % 400, MonthStart((month + 9) % 12) + day - 1)
  }

  function CivilOf(d: March): (int, int, int) {
    var m := (5 * d.day + 2) / 153;
    var month := if m < 10 then m + 3 else m - 9;
    (d.year + d.era * 400 + if month <= 2 then 1 else 0, month, d.day - MonthStart(m) + 1)
  }

  function Count(d: March): int {
    d.era * 146097 + YearStart(d.year) + d.day - 719468
  }

  lemma CivilIsMarch(year: int, month: int, day: int)
    requires ValidDate(year, month, day)
    ensures ValidMarch(MarchOf(year, month, day)) && CivilOf(MarchOf(year, month, day)) == (year, month, day)
  {
    hide IsLeap, DaysInMonth, MonthStart;
    MonthLengths(year, month);
    var y := year - if month <= 2 then 1 else 0;
    LeapInEra(y);
    var d := MarchOf(year, month, day);
    MonthStartsAscend((month + 9) % 12);
    MonthOfDay((month + 9) % 12, d.day);
  }

  lemma MonthStartsAscend(m: int)
    requires 0 <= m <= 11
    ensures 0 <= MonthStart(m) <= 337 && (m < 11 ==> MonthStart(m + 1) <= 337)
    ensures MonthStart(12) == 367
  {
  }

  lemma LeapInEra(y: int)
    ensures EndsInLeap(y % 400) == IsLeap(y + 1)
  {
    var q, r := y / 400, y % 400 + 1;
    assert y + 1 == 400 * q + r;
    SamePart(100 * q, r, 4);
    SamePart(4 * q, r, 100);
    SamePart(q, r, 400);
  }

  lemma SamePart(q: int, r: int, k: int)
    requires k == 4 || k == 100 || k == 400
    ensures (k * q + r) % k == r % k
  {
  }

  lemma MarchIsCivil(d: March)
    requires ValidMarch(d)
    ensures var (year, month, day) := CivilOf(d);
            ValidDate(year, month, day) && MarchOf(year, month, day) == d
  {
    var (year, month, day) := CivilOf(d);
    var m := (5 * d.day + 2) / 153;
    MonthHoldsDay(d.day);
    assert 0 <= m <= 11 && m == (month + 9) % 12;
    MonthLengths(year, month);
    LeapInEra(d.year + d.era * 400);
    hide IsLeap, DaysInMonth;
    assert (d.year + d.era * 400) % 400 == d.year;
  }

  lemma DaysAreCounted(year: int, month: int, day: int)
    ensures DaysFromCivil(year, month, day) == Count(MarchOf(year, month, day))
  {
  }

  lemma CountedAreDays(d: March)
    requires ValidMarch(d)
    ensures CivilFromDays(Count(d)) == CivilOf(d)
  {
    hide IsLeap, YearStart, YearOfEra, YearLength;
    YearDays(d.year, d.day);
    assert Count(d) + 719468 == d.era * 146097 + (YearStart(d.year) + d.day);
  }

  // ---------------------------------------------------------------------
  // The two conversions undo each other
  // ---------------------------------------------------------------------

  lemma CivilThenBack(year: int, month: int, day: int)
    requires ValidDate(year, month, day)
    ensures CivilFromDays(DaysFromCivil(year, month, day)) == (year, month, day)
  {
    hide *;
    CivilIsMarch(year, month, day);
    DaysAreCounted(year, month, day);
    CountedAreDays(MarchOf(year, month, day));
  }

  lemma DaysThenBack(days: int)
    ensures var (year, month, day) := CivilFromDays(days);
            ValidDate(year, month, day) && DaysFromCivil(year, month, day) == days
  {
    hide IsLeap, DaysInMonth, YearStart, YearOfEra, YearLength, ValidDate, CivilFromDays, DaysFromCivil, CivilOf,
         MarchOf;
    var shifted := days + 719468;
    var dayOfEra := shifted % 146097;
    EraSplits(dayOfEra);
    var d := March(shifted / 146097, YearOfEra(dayOfEra), dayOfEra - YearStart(YearOfEra(dayOfEra)));
    assert Count(d) == days;
    MarchIsCivil(d);
    CountedAreDays(d);
    var (year, month, day) := CivilOf(d);
    DaysAreCounted(year, month, day);
  }

  // ---------------------------------------------------------------------
  // Order
  // ---------------------------------------------------------------------

  predicate Earlier(a: (int, int, int), b: (int, int, int)) {
    a.0 < b.0 || (a.0 == b.0 && (a.1 < b.1 || (a.1 == b.1 && a.2 < b.2)))
  }

  lemma NextDayIsOneMore(year: int, month: int, day: int)
    requires ValidDate(year, month, day)
    ensures var (y, m, d) := NextDay(year, month, day);
            ValidDate(y, m, d) && DaysFromCivil(y, m, d) == DaysFromCivil(year, month, day) + 1
  {
    hide IsLeap, YearStart, DaysFromCivil;
    var (y, m, d) := NextDay(year, month, day);
    DaysAreCounted(year, month, day);
    DaysAreCounted(y, m, d);
    if day == DaysInMonth(year, month) {
      MonthLengths(year, month);
      if month == 2 {
        NewYear(year - 1);
        LeapInEra(year - 1);
      }
    }
  }

  /** The first of March follows the last day of the year before. */
  lemma NewYear(y: int)
    ensures (y + 1) / 400 * 146097 + YearStart((y + 1) % 400)
        == y / 400 * 146097 + YearStart(y % 400) + YearLength(y % 400)
  {
    var r := y % 400;
    if r < 399 {
      assert (y + 1) % 400 == r + 1 && (y + 1) / 400 == y / 400;
      YearStep(r);
    } else {
      assert (y + 1) % 400 == 0 && (y + 1) / 400 == y / 400 + 1;
    }
  }

  lemma YearStep(r: int)
    requires 0 <= r < 399
    ensures YearStart(r + 1) == YearStart(r) + YearLength(r)
  {
    var a, b := r / 100, r % 100 / 4;
    assert r / 4 == 25 * a + b;
  }

  /** Counting days keeps the order of dates, so it also tells them apart. */
  lemma DaysFollowDates(a: (int, int, int), b: (int, int, int))
    requires ValidDate(a.0, a.1, a.2) && ValidDate(b.0, b.1, b.2)
    ensures Earlier(a, b) <==> DaysFromCivil(a.0, a.1, a.2) < DaysFromCivil(b.0, b.1, b.2)
  {
    if Earlier(a, b) {
      EarlierIsFewer(a, b);
    } else if Earlier(b, a) {
      EarlierIsFewer(b, a);
    }
  }

  lemma EarlierIsFewer(a: (int, int, int), b: (int, int, int))
    requires ValidDate(a.0, a.1, a.2) && ValidDate(b.0, b.1, b.2) && Earlier(a, b)
    ensures DaysFromCivil(a.0, a.1, a.2) < DaysFromCivil(b.0, b.1, b.2)
  {
    if a.0 == b.0 {
      if a.1 < b.1 {
        MonthsAscend(a.0, a.1, b.1);
      }
    } else {
      MonthsAscend(a.0, a.1, 12);
      MonthsAscend(b.0, 1, b.1);
      YearsAscend(a.0, b.0);
    }
  }

  lemma DaysOfMonth(year: int, month: int)
    ensures 28 <= DaysInMonth(year, month) <= 31
  {
  }

  lemma DaysMove(year: int, month: int)
    ensures DaysFromCivil(year, month, 1) + DaysInMonth(year, month) - 1
        == DaysFromCivil(year, month, DaysInMonth(year, month))
  {
  }

  /** A month ends before a later month of its year begins. */
  lemma {:induction false} MonthsAscend(year: int, first: int, last: int)
    requires 1 <= first <= last <= 12
    ensures first < last ==> DaysFromCivil(year, first, DaysInMonth(year, first)) < DaysFromCivil(year, last, 1)
    ensures DaysFromCivil(year, first, 1) <= DaysFromCivil(year, last, 1)
    decreases last
  {
    hide IsLeap, DaysFromCivil, DaysInMonth;
    DaysOfMonth(year, last - 1);
    if first < last {
      DaysMove(year, last - 1);
      NextDayIsOneMore(year, last - 1, DaysInMonth(year, last - 1));
      MonthsAscend(year, first, last - 1);
    }
  }

  /** A year ends before a later one begins. */
  lemma {:induction false} YearsAscend(first: int, last: int)
    requires first < last
    ensures DaysFromCivil(first, 12, 31) < DaysFromCivil(last, 1, 1)
    decreases last - first
  {
    NextDayIsOneMore(first, 12, 31);
    if first + 1 < last {
      MonthsAscend(first + 1, 1, 12);
      YearsAscend(first + 1, last);
    }
  }
}
