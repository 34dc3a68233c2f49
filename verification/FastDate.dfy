/** Timestamps in microseconds: month arithmetic and truncation (fastdate/fastdate.go). */
module FastDate {
  import opened Calendar

  const MICROS_PER_DAY := 86_400_000_000

  function UnixDays(ts: int): int {
    FloorDiv(ts, MICROS_PER_DAY)
  }

  /** `dateTimeFromTimestamp`. */
  function DateOf(ts: int): DecomposedDate {
    DateFromUnixDays(UnixDays(ts))
  }

  function TimeOf(ts: int): int {
    ts - UnixDays(ts) * MICROS_PER_DAY
  }

  /** `unixTimeFromDateTime`. */
  function Join(dd: DecomposedDate, time: int): int {
    UnixDaysFromDate(dd) * MICROS_PER_DAY + time
  }

  lemma SplitSpec(ts: int)
    ensures Valid(DateOf(ts)) && 0 <= TimeOf(ts) < MICROS_PER_DAY && Join(DateOf(ts), TimeOf(ts)) == ts
  {
    hide DateFromUnixDays, UnixDaysFromDate, Valid, FloorDiv;
    FloorDivIsFloor(ts, MICROS_PER_DAY);
    FromDaysValid(UnixDays(ts));
  }

  lemma SplitJoin(dd: DecomposedDate, time: int)
    requires Valid(dd) && 0 <= time < MICROS_PER_DAY
    ensures DateOf(Join(dd, time)) == dd && TimeOf(Join(dd, time)) == time && UnixDays(Join(dd, time)) == UnixDaysFromDate(dd)
  {
    hide DateFromUnixDays, UnixDaysFromDate, Valid, FloorDiv;
    var n := UnixDaysFromDate(dd);
    FloorDivIsFloor(Join(dd, time), MICROS_PER_DAY);
    DivUnique(Join(dd, time), MICROS_PER_DAY, n);
    FromDaysOf(dd);
  }

  /** Months since March of year 0. */
  function MonthIndex(dd: DecomposedDate): int {
    12 * dd.year + dd.month
  }

  predicate NotAfter(a: DecomposedDate, b: DecomposedDate) {
    MonthIndex(a) < MonthIndex(b) || (MonthIndex(a) == MonthIndex(b) && a.day <= b.day)
  }

  lemma DateOrder(a: DecomposedDate, b: DecomposedDate)
    requires Valid(a) && Valid(b)
    ensures UnixDaysFromDate(a) <= UnixDaysFromDate(b) <==> NotAfter(a, b)
  {
    hide UnixDaysFromDate, MonthLength;
    if Earlier(a, b) {
      UnixDaysMonotone(a, b);
    } else if Earlier(b, a) {
      UnixDaysMonotone(b, a);
    }
  }

  // -------------------------------------------------------------------------- AddMonth

  function AddMonth(ts: int, val: int): int {
    var dd := DateOf(ts);
    var m := dd.month + val;
    var yDiff := FloorDiv(m, 12);
    Join(DecomposedDate(dd.year + yDiff, m - yDiff * 12, dd.day), TimeOf(ts))
  }

  /** The same day and time, val months on: days up to the 28th exist in every month. */
  lemma AddMonthSpec(ts: int, val: int)
    requires DateOf(ts).day < 28
    ensures var t := AddMonth(ts, val);
      && MonthIndex(DateOf(t)) == MonthIndex(DateOf(ts)) + val
      && DateOf(t).day == DateOf(ts).day && TimeOf(t) == TimeOf(ts)
  {
    hide DateOf, TimeOf, Join, FloorDiv;
    SplitSpec(ts);
    var dd := DateOf(ts);
    var m := dd.month + val;
    FloorDivIsFloor(m, 12);
    var now := DecomposedDate(dd.year + FloorDiv(m, 12), m - FloorDiv(m, 12) * 12, dd.day);
    LongEnough(now);
    SplitJoin(now, TimeOf(ts));
  }

  lemma LongEnough(dd: DecomposedDate)
    requires 0 <= dd.month < 12 && 0 <= dd.day < 28
    ensures Valid(dd)
  {
  }

  lemma SameTimestamp(a: int, b: int)
    requires MonthIndex(DateOf(a)) == MonthIndex(DateOf(b)) && DateOf(a).day == DateOf(b).day && TimeOf(a) == TimeOf(b)
    ensures a == b
  {
    hide DateOf, TimeOf, Join, MonthLength;
    SplitSpec(a);
    SplitSpec(b);
  }

  /** Adding months composes additively. */
  lemma AddMonthAdds(ts: int, a: int, b: int)
    requires DateOf(ts).day < 28
    ensures AddMonth(AddMonth(ts, a), b) == AddMonth(ts, a + b) && AddMonth(ts, 0) == ts
  {
    hide DateOf, TimeOf, AddMonth, MonthIndex;
    AddMonthSpec(ts, a);
    AddMonthSpec(AddMonth(ts, a), b);
    AddMonthSpec(ts, a + b);
    AddMonthSpec(ts, 0);
    SameTimestamp(AddMonth(AddMonth(ts, a), b), AddMonth(ts, a + b));
    SameTimestamp(AddMonth(ts, 0), ts);
  }

  // --------------------------------------------------------------------- DateDiffMonth

  function DateDiffMonth(ts: int, other: int): int {
    if ts > other then -MonthsBetween(other, ts) else MonthsBetween(ts, other)
  }

  function MonthsBetween(ts: int, other: int): int {
    var a, b := DateOf(ts), DateOf(other - TimeOf(ts));
    var m := MonthIndex(b) - MonthIndex(a) - 1 + if a.day <= b.day then 1 else 0;
    if m < 0 then 0 else m
  }

  /** A timestamp with the time of day of ts lies before other exactly if its date does. */
  lemma ReachedBy(t: int, other: int)
    ensures t <= other <==> NotAfter(DateOf(t), DateOf(other - TimeOf(t)))
  {
    hide DateOf, TimeOf, Valid, NotAfter;
    SplitSpec(t);
    SplitSpec(other - TimeOf(t));
    var a, b := DateOf(t), DateOf(other - TimeOf(t));
    DateOrder(a, b);
    DaysFirst(UnixDaysFromDate(a), UnixDaysFromDate(b), TimeOf(other - TimeOf(t)));
  }

  lemma DaysFirst(a: int, b: int, time: int)
    requires 0 <= time < MICROS_PER_DAY
    ensures a * MICROS_PER_DAY <= b * MICROS_PER_DAY + time <==> a <= b
  {
  }

  /** DateDiffMonth is the largest number of months that can be added without passing other,
      for days up to the 29th. */
  lemma DateDiffMonthLargest(ts: int, other: int, k: int)
    requires ts <= other && DateOf(ts).day <= 28
    ensures 0 <= DateDiffMonth(ts, other)
    ensures AddMonth(ts, k) <= other <==> k <= DateDiffMonth(ts, other)
  {
    hide DateOf, TimeOf, AddMonth, MonthLength;
    if DateOf(ts).day < 28 {
      AddMonthSpec(ts, k);
    } else {
      AddMonthShort(ts, k);
    }
    SplitSpec(ts);
    SplitSpec(other - TimeOf(ts));
    ReachedBy(AddMonth(ts, k), other);
    ReachedBy(ts, other);
    ShortMonth(DateOf(other - TimeOf(ts)));
  }

  /** Exchanging the timestamps changes the sign and nothing else. */
  lemma DateDiffMonthInverts(ts: int, other: int)
    ensures DateDiffMonth(other, ts) == -DateDiffMonth(ts, other)
  {
    hide DateOf, TimeOf, Valid, Join;
    if ts == other {
      SplitSpec(ts);
      SplitJoin(DateOf(ts), 0);
      JoinLate(DateOf(ts), TimeOf(ts));
    }
  }

  lemma JoinLate(dd: DecomposedDate, time: int)
    ensures Join(dd, time) - time == Join(dd, 0)
  {
  }

  predicate Short(index: int) {
    index % 12 == 11 && !IsLeap(index / 12 + 1)
  }

  lemma ShortMonth(dd: DecomposedDate)
    requires Valid(dd)
    ensures Short(MonthIndex(dd)) ==> dd.day < 28
  {
    DivUnique(MonthIndex(dd), 12, dd.year);
  }

  /** Days past the end of a February of 28 days fall into March. */
  lemma AddMonthShort(ts: int, val: int)
    requires DateOf(ts).day >= 28
    requires Short(MonthIndex(DateOf(ts)) + val) || DateOf(ts).day == 28
    ensures var t, dd, index := AddMonth(ts, val), DateOf(ts), MonthIndex(DateOf(ts)) + val;
      && TimeOf(t) == TimeOf(ts)
      && MonthIndex(DateOf(t)) == index + (if Short(index) then 1 else 0)
      && DateOf(t).day == (if Short(index) then dd.day - 28 else dd.day)
  {
    hide DateOf, TimeOf, Join, FloorDiv, DaysBeforeMonth;
    SplitSpec(ts);
    var dd := DateOf(ts);
    var m := dd.month + val;
    FloorDivIsFloor(m, 12);
    var now := DecomposedDate(dd.year + FloorDiv(m, 12), m - FloorDiv(m, 12) * 12, dd.day);
    DivUnique(MonthIndex(dd) + val, 12, now.year);
    AtMost31(dd);
    if Short(MonthIndex(dd) + val) {
      var march := DecomposedDate(now.year + 1, 0, dd.day - 28);
      PastFebruary(now, march);
      EarlyMarch(march);
      JoinSame(now, march, TimeOf(ts));
      SplitJoin(march, TimeOf(ts));
    } else {
      Day29(now);
      SplitJoin(now, TimeOf(ts));
    }
  }

  lemma AtMost31(dd: DecomposedDate)
    requires Valid(dd)
    ensures dd.day <= 30
  {
  }

  lemma EarlyMarch(dd: DecomposedDate)
    requires dd.month == 0 && 0 <= dd.day <= 2
    ensures Valid(dd)
  {
  }

  lemma Day29(dd: DecomposedDate)
    requires 0 <= dd.month < 12 && dd.day == 28 && !(dd.month == 11 && !IsLeap(dd.year + 1))
    ensures Valid(dd)
  {
  }

  lemma PastFebruary(a: DecomposedDate, b: DecomposedDate)
    requires a.month == 11 && !IsLeap(a.year + 1) && b == DecomposedDate(a.year + 1, 0, a.day - 28)
    ensures UnixDaysFromDate(a) == UnixDaysFromDate(b)
  {
    UnixDaysIs(a);
    UnixDaysIs(b);
    YearStep(a.year);
  }

  lemma JoinSame(a: DecomposedDate, b: DecomposedDate, time: int)
    requires UnixDaysFromDate(a) == UnixDaysFromDate(b)
    ensures Join(a, time) == Join(b, time)
  {
  }

  /** A month after ts that is a February of 28 days. */
  function ShortAhead(dd: DecomposedDate): (k: int)
    requires 0 <= dd.month < 12
    ensures k >= 0 && Short(MonthIndex(dd) + k)
  {
    var year := 4 * (if dd.year >= 0 then dd.year else 0) + 1;
    DivUnique(12 * year + 11, 12, year);
    12 * year + 11 - MonthIndex(dd)
  }

  /** From the 30th on the law fails: 1 March comes too early. */
  lemma DateDiffMonthTooLarge(ts: int) returns (other: int, k: int)
    requires DateOf(ts).day > 28
    ensures ts <= other && k <= DateDiffMonth(ts, other) && AddMonth(ts, k) > other
  {
    hide DateOf, TimeOf, AddMonth, MonthLength, Join;
    SplitSpec(ts);
    var dd := DateOf(ts);
    k := ShortAhead(dd);
    AddMonthShort(ts, k);
    var first := DecomposedDate((MonthIndex(dd) + k + 1) / 12, 0, 0);
    EarlyMarch(first);
    other := Join(first, TimeOf(ts)) + TimeOf(ts);
    SplitJoin(first, TimeOf(ts));
    ReachedBy(AddMonth(ts, k), other);
    ReachedBy(ts, other);
  }

  /** And adding months one by one differs from adding them at once, from the 29th on. */
  lemma AddMonthDoesNotAdd(ts: int) returns (a: int)
    requires DateOf(ts).day >= 28
    ensures AddMonth(AddMonth(ts, a), 1) != AddMonth(ts, a + 1)
  {
    hide DateOf, TimeOf, AddMonth, MonthLength, Join, Short, MonthIndex, ShortAhead;
    SplitSpec(ts);
    a := ShortAhead(DateOf(ts));
    MarchFollows(MonthIndex(DateOf(ts)) + a);
    AddMonthShort(ts, a);
    AtMost31(DateOf(ts));
    AddMonthSpec(AddMonth(ts, a), 1);
    AddMonthToMarch(ts, a + 1);
  }

  lemma MarchFollows(index: int)
    requires Short(index)
    ensures (index + 1) % 12 == 0
  {
  }

  lemma AddMonthToMarch(ts: int, val: int)
    requires (MonthIndex(DateOf(ts)) + val) % 12 == 0
    ensures MonthIndex(DateOf(AddMonth(ts, val))) == MonthIndex(DateOf(ts)) + val
  {
    hide DateOf, TimeOf, Join, FloorDiv;
    SplitSpec(ts);
    var dd := DateOf(ts);
    AtMost31(dd);
    var m := dd.month + val;
    FloorDivIsFloor(m, 12);
    var now := DecomposedDate(dd.year + FloorDiv(m, 12), m - FloorDiv(m, 12) * 12, dd.day);
    DivUnique(MonthIndex(dd) + val, 12, now.year);
    SplitJoin(now, TimeOf(ts));
  }

  // ------------------------------------------------------------------------ truncation

  function TruncMonth(ts: int): int {
    Join(DateOf(ts).(day := 0), 0)
  }

  const QUARTER_START: seq<int> := [10, 1, 1, 1, 4, 4, 4, 7, 7, 7, 10, 10]

  function TruncQuarter(ts: int): int {
    var dd := DateOf(ts);
    var m := if 0 <= dd.month < 12 then QUARTER_START[dd.month] else 0;
    Join(DecomposedDate(if dd.month == 0 then dd.year - 1 else dd.year, m, 0), 0)
  }

  function TruncYear(ts: int): int {
    var dd := DateOf(ts);
    Join(DecomposedDate(if dd.month < 10 then dd.year - 1 else dd.year, 10, 0), 0)
  }

  predicate MonthStart(ts: int) {
    DateOf(ts).day == 0 && TimeOf(ts) == 0
  }

  predicate QuarterStart(ts: int) {
    MonthStart(ts) && Month(DateOf(ts)) in {1, 4, 7, 10}
  }

  predicate YearBegin(ts: int) {
    MonthStart(ts) && Month(DateOf(ts)) == 1
  }

  /** The start of the month with the given index, against any other month start and ts. */
  lemma StartOf(start: DecomposedDate, ts: int, s: int)
    requires Valid(start) && start.day == 0
    ensures var t := Join(start, 0);
      && MonthStart(t) && DateOf(t) == start
      && (t <= ts <==> MonthIndex(start) <= MonthIndex(DateOf(ts)))
      && (MonthStart(s) ==> (s <= t <==> MonthIndex(DateOf(s)) <= MonthIndex(start)))
      && (MonthStart(s) ==> (s <= ts <==> MonthIndex(DateOf(s)) <= MonthIndex(DateOf(ts))))
  {
    hide DateOf, TimeOf, MonthLength, Join;
    SplitSpec(ts);
    SplitSpec(s);
    SplitJoin(start, 0);
    var t := Join(start, 0);
    ReachedBy(t, ts);
    ReachedBy(s, t);
    ReachedBy(s, ts);
  }

  /** The greatest month start that is not after ts. */
  lemma TruncMonthGreatest(ts: int, s: int)
    ensures MonthStart(TruncMonth(ts)) && TruncMonth(ts) <= ts
    ensures MonthStart(s) && s <= ts ==> s <= TruncMonth(ts)
  {
    hide DateOf, TimeOf, MonthLength, Join, MonthStart;
    SplitSpec(ts);
    var start := DateOf(ts).(day := 0);
    StartOf(start, ts, s);
  }

  lemma TruncQuarterGreatest(ts: int, s: int)
    ensures QuarterStart(TruncQuarter(ts)) && TruncQuarter(ts) <= ts
    ensures QuarterStart(s) && s <= ts ==> s <= TruncQuarter(ts)
  {
    hide DateOf, TimeOf, Join, MonthStart, MonthLength, MonthIndex, Month;
    SplitSpec(ts);
    SplitSpec(s);
    var dd := DateOf(ts);
    var start := DecomposedDate(if dd.month == 0 then dd.year - 1 else dd.year, QUARTER_START[dd.month], 0);
    QuarterBelow(dd, DateOf(s));
    LongEnough(start);
    StartOf(start, ts, s);
  }

  /** The table finds the quarter a month lies in. */
  lemma QuarterBelow(dd: DecomposedDate, sd: DecomposedDate)
    requires 0 <= dd.month < 12 && 0 <= sd.month < 12
    ensures var start := DecomposedDate(if dd.month == 0 then dd.year - 1 else dd.year, QUARTER_START[dd.month], 0);
      && 0 <= start.month < 12 && Month(start) in {1, 4, 7, 10} && MonthIndex(start) <= MonthIndex(dd)
      && (Month(sd) in {1, 4, 7, 10} && MonthIndex(sd) <= MonthIndex(dd) ==> MonthIndex(sd) <= MonthIndex(start))
  {
  }

  lemma TruncYearGreatest(ts: int, s: int)
    ensures YearBegin(TruncYear(ts)) && TruncYear(ts) <= ts
    ensures YearBegin(s) && s <= ts ==> s <= TruncYear(ts)
  {
    hide DateOf, TimeOf, Join, MonthStart;
    SplitSpec(ts);
    SplitSpec(s);
    var dd := DateOf(ts);
    var start := DecomposedDate(if dd.month < 10 then dd.year - 1 else dd.year, 10, 0);
    LongEnough(start);
    StartOf(start, ts, s);
  }

  // ------------------------------------------------------------------------ day of year

  const DOY_PREDICATE: seq<int> := [59, 90, 120, 151, 181, 212, 243, 273, 304, 334, 0, 31]

  function ExtractDOY(ts: int): int {
    var dd := DateOf(ts);
    var doy := (if 0 <= dd.month < 12 then DOY_PREDICATE[dd.month] else 0) + Day(dd);
    if dd.month < 10 && IsLeap(Year(dd)) then doy + 1 else doy
  }

  /** One plus the whole days since the year began. */
  lemma DayOfYear(ts: int)
    ensures ExtractDOY(ts) == 1 + UnixDays(ts) - UnixDays(TruncYear(ts))
  {
    hide DateOf, Join, YearStart, UnixDaysFromDate, FloorDiv, DateFromUnixDays, TimeOf, UnixDays;
    SplitSpec(ts);
    var dd := DateOf(ts);
    var start := DecomposedDate(if dd.month < 10 then dd.year - 1 else dd.year, 10, 0);
    LongEnough(start);
    SplitJoin(start, 0);
    DaysOf(ts);
    UnixDaysIs(dd);
    UnixDaysIs(start);
    YearStep(dd.year - 1);
  }

  lemma DaysOf(ts: int)
    ensures UnixDays(ts) == UnixDaysFromDate(DateOf(ts))
  {
    FromDaysValid(UnixDays(ts));
  }
}
