/** `date/time.go`, `date/stdlib.go`: normalising and packing date components. */
module DateTime {
  import opened Calendar
  import opened PackedTime

  /** `norm`: carry what lo has outside 0 .. base over to hi. */
  function Norm(hi: int, lo: int, base: int): (r: (int, int))
    requires base > 0
    ensures r.0 * base + r.1 == hi * base + lo && 0 <= r.1 < base
  {
    var n := if lo < 0 then (-lo - 1) / base + 1 else 0;
    var hi', lo' := hi - n, lo + n * base;
    var k := if lo' >= base then lo' / base else 0;
    NormCarry(hi, lo, base, n, k);
    (hi' + k, lo' - k * base)
  }

  lemma NormCarry(hi: int, lo: int, base: int, n: int, k: int)
    requires base > 0 && n == if lo < 0 then (-lo - 1) / base + 1 else 0
    requires k == if lo + n * base >= base then (lo + n * base) / base else 0
    ensures (hi - n + k) * base + (lo + n * base - k * base) == hi * base + lo
    ensures 0 <= lo + n * base - k * base < base
  {
    assert (hi - n + k) * base == hi * base - n * base + k * base;
    if lo < 0 {
      NormLow(lo, base);
    }
    Remainder(lo + n * base, base);
  }

  lemma Remainder(x: int, base: int)
    requires base > 0
    ensures 0 <= x - (x / base) * base < base
  {
  }

  lemma NormLow(lo: int, base: int)
    requires base > 0 && lo < 0
    ensures 0 <= lo + ((-lo - 1) / base + 1) * base < base
  {
    var q := (-lo - 1) / base;
    assert (q + 1) * base == q * base + base;
    Remainder(-lo - 1, base);
  }

  /** The day that a date with any month and day stands for. */
  function AnySerial(y: int, m: int, d: int): int {
    var (y', m') := Norm(y, m - 1, 12);
    Serial(y', m' + 1, d)
  }

  /** `normdate`: walk month by month until the day fits. */
  method NormDate(y0: int, m0: int, d0: int) returns (y: int, m: int, d: int)
    ensures ValidCivil(y, m, d) && Serial(y, m, d) == AnySerial(y0, m0, d0)
    ensures Decompose(y, m, d) == DateFromUnixDays(AnySerial(y0, m0, d0))
  {
    hide UnixDaysFromDate, DateFromUnixDays, Serial, Norm;
    var c := Norm(y0, m0 - 1, 12);
    y, m, d := c.0, c.1 + 1, d0;
    var md := DaysIn(y, m);
    if 1 <= d <= md {
      FastIsSlow(AnySerial(y0, m0, d0), y, m, d);
      return;
    }
    SerialIs(y, m, d);
    while d < 1
      invariant 1 <= m <= 12 && md == DaysIn(y, m) && Serial(y, m, 1) + d - 1 == AnySerial(y0, m0, d0)
      decreases 1 - d
    {
      m := m - 1;
      if m < 1 {
        y, m := y - 1, 12;
      }
      NextMonth(y, m);
      md := DaysIn(y, m);
      d := d + md;
    }
    while d > md
      invariant 1 <= m <= 12 && 1 <= d && md == DaysIn(y, m) && Serial(y, m, 1) + d - 1 == AnySerial(y0, m0, d0)
    {
      d := d - md;
      NextMonth(y, m);
      m := m + 1;
      if m > 12 {
        y, m := y + 1, 1;
      }
      md := DaysIn(y, m);
    }
    SerialIs(y, m, d);
    FastIsSlow(AnySerial(y0, m0, d0), y, m, d);
  }

  /** The closed form gives the date the walk arrives at. */
  lemma FastIsSlow(n: int, y: int, m: int, d: int)
    requires ValidCivil(y, m, d) && Serial(y, m, d) == n
    ensures DateFromUnixDays(n) == Decompose(y, m, d)
    ensures Year(DateFromUnixDays(n)) == y && Month(DateFromUnixDays(n)) == m && Day(DateFromUnixDays(n)) == d
  {
    hide UnixDaysFromDate, DateFromUnixDays, Valid;
    CivilValid(y, m, d);
    FromDaysOf(Decompose(y, m, d));
  }

  lemma EpochSerial(n: int)
    ensures AnySerial(1970, 1, 1 + n) == n
  {
    hide UnixDaysFromDate;
    SerialIs(1970, 1, 1 + n);
    Epoch();
  }

  // ------------------------------------------------------------------------------ Date

  datatype Parts = Parts(year: int, month: int, day: int, hour: int, min: int, sec: int, ns: int)

  const NANOS := 1_000_000_000

  /** Nanoseconds since 1 January 1970. */
  function Instant(p: Parts): int {
    (((AnySerial(p.year, p.month, p.day) * 24 + p.hour) * 60 + p.min) * 60 + p.sec) * NANOS + p.ns
  }

  predicate InRange(p: Parts) {
    && ValidCivil(p.year, p.month, p.day)
    && 0 <= p.hour < 24 && 0 <= p.min < 60 && 0 <= p.sec < 60 && 0 <= p.ns < NANOS
  }

  lemma SerialShift(y: int, m: int, d: int, k: int)
    ensures AnySerial(y, m, d + k) == AnySerial(y, m, d) + k
  {
    hide UnixDaysFromDate, Serial, Norm;
    var (y', m') := Norm(y, m - 1, 12);
    SerialIs(y', m' + 1, d + k);
    SerialIs(y', m' + 1, d);
  }

  lemma CivilSerial(y: int, m: int, d: int)
    requires 1 <= m <= 12
    ensures AnySerial(y, m, d) == Serial(y, m, d)
  {
    hide Serial;
    assert Norm(y, m - 1, 12) == (y, m - 1);
  }

  /** The carries of `Date`, before the calendar walk: the instant stays. */
  function Carry(p: Parts): (r: Parts)
    ensures Instant(r) == Instant(p) && r.year == p.year && r.month == p.month
    ensures 0 <= r.hour < 24 && 0 <= r.min < 60 && 0 <= r.sec < 60 && 0 <= r.ns < NANOS
  {
    var (s, ns) := Norm(p.sec, p.ns, NANOS);
    var (mi, sec) := Norm(p.min, s, 60);
    var (h, min) := Norm(p.hour, mi, 60);
    var (d, hour) := Norm(p.day, h, 24);
    SerialShift(p.year, p.month, p.day, d - p.day);
    Parts(p.year, p.month, d, hour, min, sec, ns)
  }

  /** What `Date` does to the components, with the walk replaced by the closed form. */
  function Normal(p: Parts): Parts {
    var c := Carry(p);
    var dd := DateFromUnixDays(AnySerial(c.year, c.month, c.day));
    c.(year := Year(dd), month := Month(dd), day := Day(dd))
  }

  /** `Date`, up to packing: every component comes into range, the instant stays. */
  method Normalize(p: Parts) returns (r: Parts)
    ensures InRange(r) && Instant(r) == Instant(p) && r == Normal(p)
  {
    hide AnySerial, Serial, DaysIn, DateFromUnixDays;
    var c := Carry(p);
    var y, m, d := NormDate(c.year, c.month, c.day);
    CivilSerial(y, m, d);
    r := c.(year := y, month := m, day := d);
  }

  lemma NormalInstant(p: Parts)
    ensures InRange(Normal(p)) && Instant(Normal(p)) == Instant(p)
  {
    hide Serial, DaysIn, DateFromUnixDays, UnixDaysFromDate, Valid, AnySerial;
    var c := Carry(p);
    var n := AnySerial(c.year, c.month, c.day);
    var dd := DateFromUnixDays(n);
    FromDaysValid(n);
    OnCalendar(dd);
    CivilSerial(Year(dd), Month(dd), Day(dd));
  }

  lemma OnCalendar(dd: DecomposedDate)
    requires Valid(dd)
    ensures ValidCivil(Year(dd), Month(dd), Day(dd)) && Serial(Year(dd), Month(dd), Day(dd)) == UnixDaysFromDate(dd)
  {
    hide DaysIn, UnixDaysFromDate;
    DecomposeInverse(dd);
    CivilValid(Year(dd), Month(dd), Day(dd));
  }

  /** Components in range stay as they are. */
  lemma NormalInRange(p: Parts)
    requires InRange(p)
    ensures Normal(p) == p
  {
    hide AnySerial, Serial, DaysIn, DateFromUnixDays;
    assert Carry(p) == p;
    CivilSerial(p.year, p.month, p.day);
    FastIsSlow(AnySerial(p.year, p.month, p.day), p.year, p.month, p.day);
  }

  // --------------------------------------------------------------------------- packing

  const MAX_YEAR := 16383

  function ClampYear(y: int): (r: int)
    ensures 0 <= r <= MAX_YEAR
  {
    if y < 0 then 0 else if y > MAX_YEAR then MAX_YEAR else y
  }

  /** `date`: one byte per component, two for the year. */
  function Pack(p: Parts): (t: Time) {
    Time(((((ClampYear(p.year) % 65536 * 256 + (p.month - 1) % 256) * 256 + (p.day - 1) % 256) * 256
           + p.hour % 256) * 256 + p.min % 256) * 256 + p.sec % 256,
         p.ns % 0x1_0000_0000)
  }

  function Unpack(t: Time): Parts {
    Parts(t.ts / 0x100_0000_0000 % 65536, t.ts / 0x1_0000_0000 % 256 + 1, t.ts / 0x100_0000 % 256 + 1,
          t.ts / 0x1_0000 % 256, t.ts / 0x100 % 256, t.ts % 256, t.ns)
  }

  predicate Packable(p: Parts) {
    InRange(p) && 0 <= p.year <= MAX_YEAR
  }

  lemma PackIs(p: Parts)
    requires Packable(p)
    ensures Pack(p) == Time(p.year * 0x100_0000_0000 + (p.month - 1) * 0x1_0000_0000 + (p.day - 1) * 0x100_0000
                            + p.hour * 0x1_0000 + p.min * 0x100 + p.sec, p.ns)
  {
    hide DaysIn;
    DaysFit(p);
    Below(p.year, 65536);
    Below(p.month - 1, 256);
    Below(p.day - 1, 256);
    Below(p.hour, 256);
    Below(p.min, 256);
    Below(p.sec, 256);
  }

  lemma Below(x: int, base: int)
    requires 0 <= x < base
    ensures x % base == x
  {
  }

  /** A field of a packed number: what lies above it and below it does not matter. */
  lemma PackedField(x: int, hi: int, field: int, lo: int, unit: int, base: int)
    requires x == (hi * base + field) * unit + lo && 0 <= lo < unit && 0 <= field < base
    ensures x / unit % base == field
  {
    DivUnique(x, unit, hi * base + field);
    DivUnique(hi * base + field, base, hi);
  }

  /** Accessors read back what was packed. */
  lemma PackRoundTrip(p: Parts)
    requires Packable(p)
    ensures Unpack(Pack(p)) == p
  {
    hide Pack, DaysIn;
    PackIs(p);
    DaysFit(p);
    var x := Pack(p).ts;
    var a := p.year * 256 + (p.month - 1);
    var b := a * 256 + (p.day - 1);
    var c := b * 256 + p.hour;
    PackedField(x, 0, p.year, x - p.year * 0x100_0000_0000, 0x100_0000_0000, 65536);
    PackedField(x, p.year, p.month - 1, x - a * 0x1_0000_0000, 0x1_0000_0000, 256);
    PackedField(x, a, p.day - 1, x - b * 0x100_0000, 0x100_0000, 256);
    PackedField(x, b, p.hour, x - c * 0x1_0000, 0x1_0000, 256);
    PackedField(x, c, p.min, p.sec, 0x100, 256);
    PackedField(x, c * 256 + p.min, p.sec, 0, 1, 256);
  }

  predicate Sooner(a: Parts, b: Parts) {
    var x, y := Decompose(a.year, a.month, a.day), Decompose(b.year, b.month, b.day);
    Earlier(x, y) || (x == y && ClockSooner(a, b))
  }

  predicate ClockSooner(a: Parts, b: Parts) {
    || a.hour < b.hour
    || (a.hour == b.hour && a.min < b.min)
    || (a.hour == b.hour && a.min == b.min && a.sec < b.sec)
    || (a.hour == b.hour && a.min == b.min && a.sec == b.sec && a.ns < b.ns)
  }

  lemma SoonerTotal(a: Parts, b: Parts)
    requires InRange(a) && InRange(b)
    ensures a == b || Sooner(a, b) || Sooner(b, a)
  {
    hide DaysIn;
  }

  lemma SoonerInstant(a: Parts, b: Parts)
    requires InRange(a) && InRange(b) && Sooner(a, b)
    ensures Instant(a) < Instant(b)
  {
    hide AnySerial, Serial, UnixDaysFromDate, Valid;
    CivilSerial(a.year, a.month, a.day);
    CivilSerial(b.year, b.month, b.day);
    CivilValid(a.year, a.month, a.day);
    CivilValid(b.year, b.month, b.day);
    SerialOfDate(a);
    SerialOfDate(b);
    var x, y := Decompose(a.year, a.month, a.day), Decompose(b.year, b.month, b.day);
    if Earlier(x, y) {
      UnixDaysMonotone(x, y);
    }
  }

  lemma SerialOfDate(p: Parts)
    ensures Serial(p.year, p.month, p.day) == UnixDaysFromDate(Decompose(p.year, p.month, p.day))
  {
  }

  lemma SoonerPacked(a: Parts, b: Parts)
    requires Packable(a) && Packable(b) && Sooner(a, b)
    ensures Before(Pack(a), Pack(b))
  {
    hide DaysIn, Pack;
    PackIs(a);
    PackIs(b);
    DaysFit(a);
    DaysFit(b);
  }

  lemma DaysFit(p: Parts)
    requires InRange(p)
    ensures p.day <= 31
  {
  }

  /** Comparing packed times is comparing instants. */
  lemma PackedOrder(a: Parts, b: Parts)
    requires Packable(a) && Packable(b)
    ensures Before(Pack(a), Pack(b)) <==> Instant(a) < Instant(b)
    ensures After(Pack(a), Pack(b)) <==> Instant(a) > Instant(b)
    ensures Pack(a) == Pack(b) <==> a == b
  {
    hide Instant, Sooner, Pack;
    SoonerTotal(a, b);
    if a != b {
      if Sooner(a, b) {
        SoonerInstant(a, b);
        SoonerPacked(a, b);
      } else {
        SoonerInstant(b, a);
        SoonerPacked(b, a);
      }
    }
  }
}
