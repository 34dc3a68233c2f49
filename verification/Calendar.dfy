/** `fastdate/fastdate.go`: closed-form conversion between day counts and civil dates. Years
    start in March here, as in the source. */
module Calendar {

  const DAYS_PER_ERA := 146097
  const UNIX_TO_YEAR0 := 719468

  /** Division that rounds toward zero. */
  function TruncDiv(x: int, y: int): int
    requires y > 0
  {
    if x >= 0 then x / y else -((-x) / y)
  }

  /** `floorDivInt32`, `floorDivInt64`. */
  function FloorDiv(x: int, y: int): int
    requires y > 0
  {
    TruncDiv(if x < 0 then x - y + 1 else x, y)
  }

  lemma FloorDivIsFloor(x: int, y: int)
    requires y > 0
    ensures FloorDiv(x, y) == x / y
  {
    if x < 0 {
      var q := x / y;
      DivUnique(y - 1 - x, y, -q);
    }
  }

  lemma DivUnique(x: int, y: int, q: int)
    requires y > 0 && y * q <= x < y * q + y
    ensures x / y == q && x % y == x - y * q
  {
    assert x == y * (x / y) + x % y;
    assert y * (q - x / y) == y * q - y * (x / y);
    SmallMultiple(y, q - x / y);
  }

  lemma SmallMultiple(y: int, k: int)
    requires y > 0 && -y < y * k < y
    ensures k == 0
  {
  }

  lemma DivStep(x: int, y: int)
    requires y > 1
    ensures (x + 1) / y == x / y + if (x + 1) % y == 0 then 1 else 0
  {
    var q, r := x / y, x % y;
    assert x == y * q + r;
    if r + 1 == y {
      assert y * (q + 1) == y * q + y;
      DivUnique(x + 1, y, q + 1);
    } else {
      DivUnique(x + 1, y, q);
    }
  }

  // ------------------------------------------------------------------- the closed form

  /** month 0 is March, day 0 the first of the month. */
  datatype DecomposedDate = DecomposedDate(year: int, month: int, day: int)

  function DateFromUnixDays(n: int): DecomposedDate {
    var days := n + UNIX_TO_YEAR0;
    var era := FloorDiv(days, DAYS_PER_ERA);
    var doe := days - era * DAYS_PER_ERA;
    var yoe := YearOfEra(doe);
    var doy := doe - DaysBeforeYear(yoe);
    var m := (5 * doy + 2) / 153;
    DecomposedDate(yoe + era * 400, m, doy - DaysBeforeMonth(m))
  }

  function YearOfEra(doe: int): int {
    (doe - doe / 1460 + doe / 36524 - doe / 146096) / 365
  }

  function DaysBeforeYear(yoe: int): int {
    365 * yoe + yoe / 4 - yoe / 100
  }

  function DaysBeforeMonth(m: int): int {
    (153 * m + 2) / 5
  }

  function UnixDaysFromDate(dd: DecomposedDate): int {
    var era := FloorDiv(dd.year, 400);
    var yoe := dd.year - era * 400;
    era * DAYS_PER_ERA + (DaysBeforeYear(yoe) + (DaysBeforeMonth(dd.month) + dd.day)) - UNIX_TO_YEAR0
  }

  // ---------------------------------------------------------------------- valid dates

  predicate IsLeap(y: int) {
    y % 4 == 0 && (y % 100 != 0 || y % 400 == 0)
  }

  /** Days before 1 March of year y, by the leap year rule. */
  function YearStart(y: int): int {
    365 * y + y / 4 - y / 100 + y / 400
  }

  lemma YearStep(y: int)
    ensures YearStart(y + 1) == YearStart(y) + if IsLeap(y + 1) then 366 else 365
  {
    DivStep(y, 4);
    DivStep(y, 100);
    DivStep(y, 400);
    Multiples(y + 1);
  }

  lemma Multiples(y: int)
    ensures (y % 400 == 0 ==> y % 100 == 0) && (y % 100 == 0 ==> y % 4 == 0)
  {
  }

  /** Months of the March year; February closes it. */
  function MonthLength(y: int, m: int): int {
    if m == 11 then (if IsLeap(y + 1) then 29 else 28) else DaysBeforeMonth(m + 1) - DaysBeforeMonth(m)
  }

  predicate Valid(dd: DecomposedDate) {
    0 <= dd.month < 12 && 0 <= dd.day < MonthLength(dd.year, dd.month)
  }

  /** The era arithmetic is the leap year rule. */
  lemma UnixDaysIs(dd: DecomposedDate)
    ensures UnixDaysFromDate(dd) == YearStart(dd.year) + DaysBeforeMonth(dd.month) + dd.day - UNIX_TO_YEAR0
  {
    FloorDivIsFloor(dd.year, 400);
    var era := dd.year / 400;
    var yoe := dd.year - era * 400;
    assert dd.year / 4 == 100 * era + yoe / 4 && dd.year / 100 == 4 * era + yoe / 100;
  }

  /** The year of the era, found by correcting for the leap days before it. */
  lemma YearOfEraRight(doe: int)
    requires 0 <= doe < DAYS_PER_ERA
    ensures var yoe := YearOfEra(doe);
      && 0 <= yoe < 400
      && DaysBeforeYear(yoe) <= doe <= DaysBeforeYear(yoe) + (if yoe % 4 == 3 && (yoe % 100 != 99 || yoe == 399) then 365 else 364)
  {
    hide YearOfEra, DaysBeforeYear;
    var c := if doe == 146096 then 3 else doe / 36524;
    var inCentury := doe - 36524 * c;
    var q := if inCentury == 36524 then 24 else inCentury / 1461;
    var inCycle := inCentury - 1461 * q;
    var r := if inCycle == 1460 then 3 else inCycle / 365;
    YearOfParts(c, q, r, inCycle - 365 * r);
  }

  lemma YearOfParts(c: int, q: int, r: int, doy: int)
    requires 0 <= c < 4 && 0 <= q < 25 && 0 <= r < 4 && 0 <= doy <= 365
    requires doy == 365 ==> r == 3 && (q == 24 ==> c == 3)
    ensures var yoe := 100 * c + 4 * q + r;
      && yoe % 4 == r && (yoe % 100 == 99 <==> q == 24 && r == 3)
      && DaysBeforeYear(yoe) == 36524 * c + 1461 * q + 365 * r && YearOfEra(36524 * c + 1461 * q + 365 * r + doy) == yoe
  {
    hide YearOfEra;
    var yoe := 100 * c + 4 * q + r;
    DivUnique(yoe, 4, 25 * c + q);
    DivUnique(yoe, 100, c);
    var doe := 36524 * c + 1461 * q + 365 * r + doy;
    var t := 24 * c + q + 365 * r + doy;
    var extra := if t >= 1460 then 1 else 0;
    if doe == 146096 {
      YearOfEraIs(doe, 25 * c + q + extra, 4, 1, yoe);
    } else {
      YearOfEraIs(doe, 25 * c + q + extra, c, 0, yoe);
    }
  }

  lemma YearOfEraIs(doe: int, fourYears: int, centuries: int, eras: int, yoe: int)
    requires 1460 * fourYears <= doe < 1460 * fourYears + 1460
    requires 36524 * centuries <= doe < 36524 * centuries + 36524
    requires 146096 * eras <= doe < 146096 * eras + 146096
    requires 365 * yoe <= doe - fourYears + centuries - eras < 365 * yoe + 365
    ensures YearOfEra(doe) == yoe
  {
    DivUnique(doe, 1460, fourYears);
    DivUnique(doe, 36524, centuries);
    DivUnique(doe, 146096, eras);
    DivUnique(doe - fourYears + centuries - eras, 365, yoe);
  }

  /** Every day count is a valid date, and that date counts back to it. */
  lemma FromDaysValid(n: int)
    ensures Valid(DateFromUnixDays(n)) && UnixDaysFromDate(DateFromUnixDays(n)) == n
  {
    hide YearOfEra;
    var days := n + UNIX_TO_YEAR0;
    FloorDivIsFloor(days, DAYS_PER_ERA);
    var era := days / DAYS_PER_ERA;
    var doe := days - era * DAYS_PER_ERA;
    YearOfEraRight(doe);
    var yoe := YearOfEra(doe);
    var doy := doe - DaysBeforeYear(yoe);
    MonthOfYear(doy);
    var dd := DateFromUnixDays(n);
    FloorDivIsFloor(dd.year, 400);
    DivUnique(dd.year, 400, era);
    LeapInEra(era, yoe);
  }

  lemma LeapInEra(era: int, yoe: int)
    requires 0 <= yoe < 400
    ensures IsLeap(yoe + era * 400 + 1) <==> yoe % 4 == 3 && (yoe % 100 != 99 || yoe == 399)
  {
    var y := yoe + 1;
    var z := y + era * 400;
    DivUnique(z, 4, y / 4 + 100 * era);
    DivUnique(z, 100, y / 100 + 4 * era);
    DivUnique(z, 400, y / 400 + era);
  }

  lemma MonthOfYear(doy: int)
    requires 0 <= doy <= 365
    ensures var m := (5 * doy + 2) / 153;
      && 0 <= m < 12 && DaysBeforeMonth(m) <= doy && (m < 11 ==> doy < DaysBeforeMonth(m + 1))
  {
  }

  // ------------------------------------------------------------------------ one to one

  predicate Earlier(a: DecomposedDate, b: DecomposedDate) {
    a.year < b.year || (a.year == b.year && (a.month < b.month || (a.month == b.month && a.day < b.day)))
  }

  lemma {:induction false} YearsApart(a: int, b: int)
    requires a < b
    ensures YearStart(b) - YearStart(a) >= YearStart(a + 1) - YearStart(a)
    decreases b - a
  {
    if a + 1 < b {
      YearsApart(a + 1, b);
      YearStep(a + 1);
    }
  }

  lemma WithinYear(dd: DecomposedDate)
    requires Valid(dd)
    ensures 0 <= DaysBeforeMonth(dd.month) + dd.day < YearStart(dd.year + 1) - YearStart(dd.year)
  {
    YearStep(dd.year);
  }

  lemma WithinMonth(a: DecomposedDate, b: DecomposedDate)
    requires Valid(a) && Valid(b) && a.year == b.year && a.month < b.month
    ensures DaysBeforeMonth(a.month) + a.day < DaysBeforeMonth(b.month) + b.day
  {
  }

  /** Day counts are strictly monotone in the date. */
  lemma UnixDaysMonotone(a: DecomposedDate, b: DecomposedDate)
    requires Valid(a) && Valid(b) && Earlier(a, b)
    ensures UnixDaysFromDate(a) < UnixDaysFromDate(b)
  {
    hide DaysBeforeMonth, YearStart, UnixDaysFromDate, Valid;
    UnixDaysIs(a);
    UnixDaysIs(b);
    if a.year < b.year {
      WithinYear(a);
      WithinYear(b);
      YearsApart(a.year, b.year);
    } else if a.month < b.month {
      WithinMonth(a, b);
    }
  }

  lemma SameDays(a: DecomposedDate, b: DecomposedDate)
    requires Valid(a) && Valid(b) && UnixDaysFromDate(a) == UnixDaysFromDate(b)
    ensures a == b
  {
    if Earlier(a, b) {
      UnixDaysMonotone(a, b);
    } else if Earlier(b, a) {
      UnixDaysMonotone(b, a);
    }
  }

  /** And the inverse the other way round. */
  lemma FromDaysOf(dd: DecomposedDate)
    requires Valid(dd)
    ensures DateFromUnixDays(UnixDaysFromDate(dd)) == dd
  {
    var n := UnixDaysFromDate(dd);
    FromDaysValid(n);
    SameDays(DateFromUnixDays(n), dd);
  }

  // ------------------------------------------------------------------ civil components

  /** `DecomposedDate.Year`, `Month`, `Day`: January and February belong to the next year. */
  function Year(dd: DecomposedDate): int {
    if dd.month >= 10 then dd.year + 1 else dd.year
  }

  function Month(dd: DecomposedDate): int {
    if dd.month + 3 > 12 then dd.month - 9 else dd.month + 3
  }

  function Day(dd: DecomposedDate): int {
    dd.day + 1
  }

  /** The March-based date of a civil one. */
  function Decompose(y: int, m: int, d: int): DecomposedDate {
    if m <= 2 then DecomposedDate(y - 1, m + 9, d - 1) else DecomposedDate(y, m - 3, d - 1)
  }

  /** Days since 1 January 1970; the day may lie outside the month. */
  function Serial(y: int, m: int, d: int): int {
    UnixDaysFromDate(Decompose(y, m, d))
  }

  /** `monthdays` and `daysin` (date/time.go). */
  const MONTH_DAYS: seq<int> := [31, 28, 31, 30, 31, 30, 31, 31, 30, 31, 30, 31]

  function DaysIn(y: int, m: int): (r: int)
    requires 1 <= m <= 12
    ensures 28 <= r <= 31
  {
    MONTH_DAYS[m - 1] + if m == 2 && IsLeap(y) then 1 else 0
  }

  predicate ValidCivil(y: int, m: int, d: int) {
    1 <= m <= 12 && 1 <= d <= DaysIn(y, m)
  }

  lemma CivilLength(y: int, m: int)
    requires 1 <= m <= 12
    ensures var dd := Decompose(y, m, 1);
      0 <= dd.month < 12 && MonthLength(dd.year, dd.month) == DaysIn(y, m)
  {
  }

  lemma CivilValid(y: int, m: int, d: int)
    requires 1 <= m <= 12
    ensures ValidCivil(y, m, d) <==> Valid(Decompose(y, m, d))
  {
    hide MonthLength;
    CivilLength(y, m);
  }

  lemma DecomposeInverse(dd: DecomposedDate)
    requires 0 <= dd.month < 12
    ensures 1 <= Month(dd) <= 12 && Decompose(Year(dd), Month(dd), Day(dd)) == dd
  {
  }

  lemma SerialIs(y: int, m: int, d: int)
    ensures var dd := Decompose(y, m, d);
      Serial(y, m, d) == YearStart(dd.year) + DaysBeforeMonth(dd.month) + dd.day - UNIX_TO_YEAR0
    ensures Serial(y, m, d) == Serial(y, m, 1) + d - 1
  {
    hide YearStart, DaysBeforeMonth, UnixDaysFromDate;
    UnixDaysIs(Decompose(y, m, d));
    UnixDaysIs(Decompose(y, m, 1));
  }

  /** Walking to the next month adds the days of the current one. */
  lemma NextMonth(y: int, m: int)
    requires 1 <= m <= 12
    ensures Serial(if m == 12 then y + 1 else y, if m == 12 then 1 else m + 1, 1) == Serial(y, m, 1) + DaysIn(y, m)
  {
    hide YearStart, UnixDaysFromDate;
    SerialIs(y, m, 1);
    SerialIs(if m == 12 then y + 1 else y, if m == 12 then 1 else m + 1, 1);
    YearStep(y - 1);
  }

  lemma Epoch()
    ensures Serial(1970, 1, 1) == 0
  {
    SerialIs(1970, 1, 1);
  }

  /** At most one valid civil date lies on a given day. */
  lemma CivilUnique(y: int, m: int, d: int, y': int, m': int, d': int)
    requires ValidCivil(y, m, d) && ValidCivil(y', m', d') && Serial(y, m, d) == Serial(y', m', d')
    ensures y == y' && m == m' && d == d'
  {
    hide UnixDaysFromDate, Valid;
    CivilValid(y, m, d);
    CivilValid(y', m', d');
    SameDays(Decompose(y, m, d), Decompose(y', m', d'));
  }
}
