/** Printing and parsing of RFC 3339 timestamps (section 5.6): `appendInt`,
    `AppendRFC3339Nano` and the state machine `parseDate`. */
module Rfc3339 {
  import opened IonCodec
  import opened Calendar
  import opened PackedTime
  import opened DateTime

  // -------------------------------------------------------------------------- decimals

  function Dec(u: nat): (r: bytes)
    ensures |r| >= 1
  {
    if u < 10 then [48 + u] else Dec(u / 10) + [48 + u % 10]
  }

  function Zeros(n: int): (r: bytes)
    ensures |r| == if n > 0 then n else 0
  {
    if n <= 0 then [] else [48] + Zeros(n - 1)
  }

  /** At least width digits. */
  function Padded(digits: bytes, width: int): bytes {
    Zeros(width - |digits|) + digits
  }

  /** With trim, trailing zeros are left out together with the places they fill. */
  function Decimal(u: nat, width: int, trim: bool): bytes
    decreases u
  {
    if trim && u >= 10 && u % 10 == 0 then Decimal(u / 10, width - 1, true) else Padded(Dec(u), width)
  }

  lemma {:induction false} DecLength(u: nat, n: nat)
    requires n >= 1 && u < Pow10(n)
    ensures |Dec(u)| <= n
  {
    if u >= 10 {
      DecLength(u / 10, n - 1);
    }
  }

  function Pow10(n: nat): (r: nat)
    ensures r >= 1
  {
    if n == 0 then 1 else 10 * Pow10(n - 1)
  }

  lemma DecStep(u: nat)
    ensures u >= 10 ==> Dec(u) == Dec(u / 10) + [48 + u % 10]
    ensures u < 10 ==> Dec(u) == [48 + u]
  {
  }

  lemma DecimalStep(u: nat, w: int)
    ensures Decimal(u, w, true) == if u >= 10 && u % 10 == 0 then Decimal(u / 10, w - 1, true) else Padded(Dec(u), w)
    ensures Decimal(u, w, false) == Padded(Dec(u), w)
  {
  }

  lemma OneDigitMore(front: bytes, digit: byte, back: bytes)
    ensures (front + [digit]) + back == front + ([digit] + back)
  {
  }

  /** `appendInt`: digits are put down from the right. */
  method AppendInt(b: bytes, x: int, width: int, trim: bool) returns (r: bytes)
    requires -0x8000_0000_0000_0000 <= x < 0x8000_0000_0000_0000
    ensures r == b + (if x < 0 then [45] else []) + Decimal(if x < 0 then -x else x, width, trim)
  {
    hide Decimal, Dec, Zeros;
    r := b;
    var u := x;
    if x < 0 {
      r := r + [45];
      u := -x;
    }
    var digits, w := Digits(u, width, trim);
    var padded := AppendZeros(r, w - |digits|);
    assert r + Zeros(w - |digits|) + digits == r + (Zeros(w - |digits|) + digits);
    r := padded + digits;
  }

  /** The digits to print, and how many places they are to fill. */
  method Digits(x: nat, width: int, trim: bool) returns (digits: bytes, w: int)
    requires x <= 0x8000_0000_0000_0000
    ensures Padded(digits, w) == Decimal(x, width, trim)
  {
    hide Decimal, Dec, Padded;
    var u := x;
    var buf := new byte[20];
    var i, t := 20, trim;
    w := width;
    Room20(u);
    DecimalStep(u, w);
    assert Dec(u) + buf[i..] == Dec(u);
    while u >= 10
      invariant 0 <= u && 0 < i <= 20 && |Dec(u)| <= i
      invariant t ==> i == 20 && Decimal(u, w, true) == Decimal(x, width, trim)
      invariant !t ==> Padded(Dec(u) + buf[i..], w) == Decimal(x, width, trim)
    {
      DecStep(u);
      DecimalStep(u, w);
      assert buf[i..] == [] ==> Dec(u) + buf[i..] == Dec(u);
      var q := u / 10;
      t := t && u == q * 10;
      if t {
        w := w - 1;
      } else {
        OneDigitMore(Dec(q), 48 + u % 10, buf[i..]);
        i := i - 1;
        buf[i] := 48 + u - q * 10;
        assert buf[i..] == [48 + u % 10] + buf[i + 1..];
      }
      u := q;
    }
    DecStep(u);
    DecimalStep(u, w);
    assert buf[i..] == [] ==> Dec(u) + buf[i..] == Dec(u);
    i := i - 1;
    buf[i] := 48 + u;
    assert buf[i..] == Dec(u) + buf[i + 1..];
    digits := buf[i..];
  }

  method AppendZeros(b: bytes, n: int) returns (r: bytes)
    ensures r == b + Zeros(n)
  {
    r := b;
    var k := n;
    while k > 0
      invariant r + Zeros(k) == b + Zeros(n)
    {
      assert r + [48] + Zeros(k - 1) == r + ([48] + Zeros(k - 1));
      r := r + [48];
      k := k - 1;
    }
  }

  lemma Room20(u: nat)
    requires u <= 0x8000_0000_0000_0000
    ensures |Dec(u)| <= 20
  {
    assert Pow10(5) == 100_000;
    assert Pow10(10) == 10_000_000_000;
    assert Pow10(15) == 1_000_000_000_000_000;
    assert Pow10(20) == 100_000_000_000_000_000_000;
    DecLength(u, 20);
  }

  // -------------------------------------------------------------------------- printing

  const DASH: byte := 45
  const TEE: byte := 84
  const COLON: byte := 58
  const DOT: byte := 46
  const ZED: byte := 90

  function Two(x: nat): bytes { Decimal(x, 2, false) }

  function Four(x: nat): bytes { Decimal(x, 4, false) }

  /** `2006-01-02T15:04:05[.999999999]Z`. */
  function Text(p: Parts): bytes
    requires InRange(p) && p.year >= 0
  {
    Four(p.year) + [DASH] + Two(p.month) + [DASH] + Two(p.day) + [TEE]
    + Two(p.hour) + [COLON] + Two(p.min) + [COLON] + Two(p.sec) + Fraction(p.ns) + [ZED]
  }

  function Fraction(ns: nat): bytes {
    if ns == 0 then [] else [DOT] + Decimal(ns, 9, true)
  }

  lemma Front(b: bytes, x: bytes, y: bytes)
    ensures b + x + y == b + (x + y)
  {
  }

  /** Append x and c to b + done. */
  method Put(b: bytes, ghost b0: bytes, ghost done: bytes, x: nat, width: int, trim: bool, c: byte) returns (r: bytes)
    requires b == b0 + done && x < 0x8000_0000_0000_0000
    ensures r == b0 + (done + Decimal(x, width, trim) + [c])
  {
    hide Decimal;
    r := AppendInt(b, x, width, trim);
    assert b + [] == b;
    Front(b0, done, Decimal(x, width, trim));
    Front(b0, done + Decimal(x, width, trim), [c]);
    r := r + [c];
  }

  /** `AppendRFC3339Nano`. */
  method AppendRFC3339Nano(t: Time, b: bytes) returns (r: bytes)
    requires Packable(Unpack(t))
    ensures r == b + Text(Unpack(t))
  {
    hide Unpack, Decimal, DaysIn;
    var p := Unpack(t);
    DaysFit(p);
    assert b == b + [];
    r := Put(b, b, [], p.year, 4, false, DASH);
    ghost var x := [] + Four(p.year) + [DASH];
    r := Put(r, b, x, p.month, 2, false, DASH);
    x := x + Two(p.month) + [DASH];
    r := Put(r, b, x, p.day, 2, false, TEE);
    x := x + Two(p.day) + [TEE];
    r := Put(r, b, x, p.hour, 2, false, COLON);
    x := x + Two(p.hour) + [COLON];
    r := Put(r, b, x, p.min, 2, false, COLON);
    x := x + Two(p.min) + [COLON];
    if p.ns == 0 {
      r := Put(r, b, x, p.sec, 2, false, ZED);
      assert x + Two(p.sec) + [] == x + Two(p.sec);
    } else {
      r := Put(r, b, x, p.sec, 2, false, DOT);
      r := Put(r, b, x + Two(p.sec) + [DOT], p.ns, 9, true, ZED);
      Front(x + Two(p.sec), [DOT], Decimal(p.ns, 9, true));
    }
    assert [] + Four(p.year) == Four(p.year);
  }

  // ---------------------------------------------------------------------------- parsing

  predicate Space(c: byte) { c == 32 || 9 <= c <= 13 }

  predicate Digit(c: byte) { 48 <= c <= 57 }

  predicate Sign(c: byte) { c == 43 || c == 45 }

  /** Transitions of `parseDate`; 0 is the error state, 32 and above accept. */
  function Next(cs: nat, c: byte): nat {
    match cs
    case 1 => if Space(c) then 1 else if Digit(c) then 2 else 0
    case 2 => if Digit(c) then 3 else 0
    case 3 => if Digit(c) then 4 else 0
    case 4 => if Digit(c) then 5 else 0
    case 5 => if c == DASH then 6 else 0
    case 6 => if c == 48 then 7 else if c == 49 then 31 else 0
    case 7 => if 49 <= c <= 57 then 8 else 0
    case 8 => if c == DASH then 9 else 0
    case 9 => if c == 48 then 10 else if c == 51 then 30 else if 49 <= c <= 50 then 29 else 0
    case 10 => if 49 <= c <= 57 then 11 else 0
    case 11 => if c == 32 || c == TEE then 12 else 0
    case 12 => if c == 50 then 28 else if 48 <= c <= 49 then 13 else 0
    case 13 => if Digit(c) then 14 else 0
    case 14 => if c == COLON then 15 else 0
    case 15 => if 48 <= c <= 53 then 16 else 0
    case 16 => if Digit(c) then 17 else 0
    case 17 => if c == COLON then 18 else 0
    case 18 => if c == 54 then 27 else if 48 <= c <= 53 then 19 else 0
    case 19 => if Digit(c) then 32 else 0
    case 20 => if c == 50 then 25 else if 48 <= c <= 49 then 21 else 0
    case 21 => if Digit(c) then 22 else 0
    case 22 => if c == COLON then 23 else 0
    case 23 => if 48 <= c <= 53 then 24 else 0
    case 24 => if Digit(c) then 34 else 0
    case 25 => if 48 <= c <= 51 then 22 else 0
    case 26 => if Digit(c) then 35 else 0
    case 27 => if c == 48 then 44 else 0
    case 28 => if 48 <= c <= 51 then 14 else 0
    case 29 => if Digit(c) then 11 else 0
    case 30 => if 48 <= c <= 49 then 11 else 0
    case 31 => if 48 <= c <= 50 then 8 else 0
    case 32 => if Space(c) then 33 else if Sign(c) then 20 else if c == DOT then 26 else if c == ZED then 34 else 0
    case 33 => if Space(c) then 34 else if Sign(c) then 20 else 0
    case 34 => if Space(c) then 34 else 0
    case 43 => if Space(c) then 33 else if Sign(c) then 20 else if c == ZED then 34 else 0
    case 44 => if Space(c) then 33 else if Sign(c) then 20 else if c == DOT then 26 else if c == ZED then 34 else 0
    case _ => if 35 <= cs <= 42 then
                (if Space(c) then 33 else if Sign(c) then 20 else if c == ZED then 34 else if Digit(c) then cs + 1 else 0)
              else 0
  }

  /** What the actions have collected; frac is to be multiplied by fracdig. */
  datatype Regs = Regs(parts: Parts, frac: int, fracdig: int)

  const START := Regs(Parts(0, 0, 0, 0, 0, 0, 0), 0, 1_000_000_000)

  function Val(data: bytes, p: int): int {
    if 0 <= p < |data| then data[p] as int - 48 else 0
  }

  function Pair(data: bytes, p: int): int {
    Val(data, p) * 10 + Val(data, p + 1)
  }

  /** The action on the transition out of cs at position p. */
  function Act(cs: nat, data: bytes, p: nat, r: Regs): Regs
    requires p < |data|
  {
    match cs
    case 5 => r.(parts := r.parts.(year := Pair(data, p - 4) * 100 + Pair(data, p - 2)))
    case 8 => r.(parts := r.parts.(month := Pair(data, p - 2)))
    case 11 => r.(parts := r.parts.(day := Pair(data, p - 2)))
    case 14 => r.(parts := r.parts.(hour := Pair(data, p - 2)))
    case 17 => r.(parts := r.parts.(min := Pair(data, p - 2)))
    case 19 => r.(parts := r.parts.(sec := Pair(data, p - 1)))
    case 24 =>
      var s := if p >= 5 && data[p - 5] == DASH then -1 else 1;
      r.(parts := r.parts.(hour := r.parts.hour - s * Pair(data, p - 4), min := r.parts.min - s * Pair(data, p - 1)))
    case 44 => r.(parts := r.parts.(sec := 60))
    case _ =>
      if (cs == 26 || 35 <= cs <= 42) && Digit(data[p])
      then r.(frac := r.frac * 10 + Val(data, p), fracdig := TruncDiv(r.fracdig, 10))
      else r
  }

  /** The machine from state cs at position p to the end, or to an error. */
  function Run(data: bytes, p: nat, cs: nat, r: Regs): (nat, Regs)
    requires p <= |data|
    decreases |data| - p
  {
    if p == |data| then (cs, r)
    else if Next(cs, data[p]) == 0 then (0, r)
    else Run(data, p + 1, Next(cs, data[p]), Act(cs, data, p, r))
  }

  function Collected(cs: nat, r: Regs): Option<Parts> {
    if cs < 32 then None else Some(r.parts.(ns := if r.frac != 0 then r.frac * r.fracdig else 0))
  }

  /** `parseDate`. */
  method ParseDate(data: bytes) returns (parts: Option<Parts>)
    ensures parts == var (cs, r) := Run(data, 0, 1, START); Collected(cs, r)
  {
    hide Next, Act;
    var p, cs, r := 0, 1, START;
    while p < |data|
      invariant 0 <= p <= |data| && Run(data, p, cs, r) == Run(data, 0, 1, START)
    {
      var next := Next(cs, data[p]);
      if next == 0 {
        cs := 0;
        break;
      }
      r := Act(cs, data, p, r);
      cs, p := next, p + 1;
    }
    parts := Collected(cs, r);
  }

  /** What `Parse` returns. */
  function Parsed(data: bytes): Option<Time> {
    var (cs, r) := Run(data, 0, 1, START);
    match Collected(cs, r)
    case None => None
    case Some(p) => Some(Pack(Normal(p)))
  }

  lemma ParsedIs(data: bytes)
    ensures var (cs, r) := Run(data, 0, 1, START);
      Parsed(data) == match Collected(cs, r) case None => None case Some(p) => Some(Pack(Normal(p)))
  {
    hide Run, Normal, Pack;
  }

  /** `Parse`: among others, every text of a time with a four-digit year gives that time. */
  method Parse(data: bytes) returns (t: Option<Time>)
    ensures t == Parsed(data)
    ensures forall pre, p, post ::
      (AllSpace(pre) && AllSpace(post) && InRange(p) && 0 <= p.year < 10000 && data == pre + Text(p) + post)
      ==> t == Some(Pack(p))
  {
    hide Run, Normal, Pack, Text, AllSpace, InRange, Parsed;
    forall pre, p, post | AllSpace(pre) && AllSpace(post) && InRange(p) && 0 <= p.year < 10000 && data == pre + Text(p) + post
      ensures Parsed(data) == Some(Pack(p))
    {
      ParseText(pre, p, post);
    }
    ParsedIs(data);
    var parts := ParseDate(data);
    match parts
    case None => t := None;
    case Some(p) =>
      var q := Normalize(p);
      t := Some(Pack(q));
  }

  // ------------------------------------------------------------------------- round trip

  /** Digit by digit from the right, also through the padding. */
  lemma PadStep(u: nat, w: int)
    requires w >= 2
    ensures Padded(Dec(u), w) == Padded(Dec(u / 10), w - 1) + [48 + u % 10]
  {
    hide Zeros;
    if u < 10 {
      assert Dec(u / 10) == [48];
      ZerosEnd(w - 2);
      Front(Zeros(w - 2), [48], [48 + u]);
    } else {
      Front(Zeros(w - |Dec(u)|), Dec(u / 10), [48 + u % 10]);
    }
  }

  lemma {:induction false} ZerosEnd(n: nat)
    ensures Zeros(n + 1) == Zeros(n) + [48]
  {
    if n > 0 {
      ZerosEnd(n - 1);
    }
  }

  lemma OneDigit(u: nat)
    requires u < 10
    ensures Padded(Dec(u), 1) == [48 + u]
  {
  }

  lemma TwoDigits(x: nat)
    requires x < 100
    ensures Two(x) == [48 + x / 10, 48 + x % 10]
  {
    hide Padded, Dec;
    DecimalStep(x, 2);
    PadStep(x, 2);
    OneDigit(x / 10);
  }

  lemma FourDigits(x: nat)
    requires x < 10000
    ensures Four(x) == [48 + x / 1000, 48 + x / 100 % 10, 48 + x / 10 % 10, 48 + x % 10]
  {
    hide Padded, Dec, Decimal;
    DecimalStep(x, 4);
    PadStep(x, 4);
    PadStep(x / 10, 3);
    PadStep(x / 10 / 10, 2);
    OneDigit(x / 10 / 10 / 10);
    assert x / 10 / 10 == x / 100 && x / 100 / 10 == x / 1000;
  }

  lemma Moves(data: bytes, p: nat, cs: nat, r: Regs, cs': nat, r': Regs)
    requires p < |data| && Next(cs, data[p]) == cs' != 0 && Act(cs, data, p, r) == r'
    ensures Run(data, p, cs, r) == Run(data, p + 1, cs', r')
  {
    hide Next, Act;
  }

  lemma {:induction false} LeadingSpace(data: bytes, p: nat, q: nat, r: Regs)
    requires p <= q <= |data| && forall i :: p <= i < q ==> Space(data[i])
    ensures Run(data, p, 1, r) == Run(data, q, 1, r)
    decreases q - p
  {
    hide Run;
    if p < q {
      Moves(data, p, 1, r, 1, r);
      LeadingSpace(data, p + 1, q, r);
    }
  }

  lemma {:induction false} TrailingSpace(data: bytes, p: nat, r: Regs)
    requires p <= |data| && forall i :: p <= i < |data| ==> Space(data[i])
    ensures Run(data, p, 34, r) == (34, r)
    decreases |data| - p
  {
    if p < |data| {
      TrailingSpace(data, p + 1, r);
    }
  }

  lemma YearField(data: bytes, p: nat, r: Regs, y: nat)
    requires p + 5 <= |data| && y < 10000 && data[p..p + 5] == Four(y) + [DASH]
    ensures Run(data, p, 1, r) == Run(data, p + 5, 6, r.(parts := r.parts.(year := y)))
  {
    hide Run, Four;
    FourDigits(y);
    assert data[p] == data[p..p + 5][0] && data[p + 1] == data[p..p + 5][1] && data[p + 2] == data[p..p + 5][2];
    assert data[p + 3] == data[p..p + 5][3] && data[p + 4] == data[p..p + 5][4];
    YearDigits(data, p, r, y / 1000, y / 100 % 10, y / 10 % 10, y % 10);
    DigitSum(y);
  }

  lemma DigitSum(y: nat)
    ensures ((y / 1000 * 10 + y / 100 % 10) * 10 + y / 10 % 10) * 10 + y % 10 == y
  {
    assert y / 100 == y / 1000 * 10 + y / 100 % 10;
    assert y / 10 == y / 100 * 10 + y / 10 % 10;
  }

  lemma YearDigits(data: bytes, p: nat, r: Regs, a: nat, b: nat, c: nat, d: nat)
    requires p + 5 <= |data| && a < 10 && b < 10 && c < 10 && d < 10
    requires data[p] == 48 + a && data[p + 1] == 48 + b && data[p + 2] == 48 + c && data[p + 3] == 48 + d && data[p + 4] == DASH
    ensures Run(data, p, 1, r) == Run(data, p + 5, 6, r.(parts := r.parts.(year := ((a * 10 + b) * 10 + c) * 10 + d)))
  {
    hide Run;
    Moves(data, p, 1, r, 2, r);
    Moves(data, p + 1, 2, r, 3, r);
    Moves(data, p + 2, 3, r, 4, r);
    Moves(data, p + 3, 4, r, 5, r);
    Moves(data, p + 4, 5, r, 6, r.(parts := r.parts.(year := ((a * 10 + b) * 10 + c) * 10 + d)));
  }

  lemma MonthField(data: bytes, p: nat, r: Regs, m: nat)
    requires p + 3 <= |data| && 1 <= m <= 12 && data[p..p + 3] == Two(m) + [DASH]
    ensures Run(data, p, 6, r) == Run(data, p + 3, 9, r.(parts := r.parts.(month := m)))
  {
    hide Run, Two;
    TwoDigits(m);
    Three(data, p, m, DASH);
    var mid := if m < 10 then 7 else 31;
    Moves(data, p, 6, r, mid, r);
    Moves(data, p + 1, mid, r, 8, r);
    Moves(data, p + 2, 8, r, 9, r.(parts := r.parts.(month := m)));
  }

  lemma Three(data: bytes, p: nat, x: nat, c: byte)
    requires p + 3 <= |data| && x < 100 && data[p..p + 3] == Two(x) + [c]
    ensures data[p] == 48 + x / 10 && data[p + 1] == 48 + x % 10 && data[p + 2] == c
  {
    hide Two;
    TwoDigits(x);
    assert data[p] == data[p..p + 3][0] && data[p + 1] == data[p..p + 3][1] && data[p + 2] == data[p..p + 3][2];
  }

  lemma DayField(data: bytes, p: nat, r: Regs, d: nat)
    requires p + 3 <= |data| && 1 <= d <= 31 && data[p..p + 3] == Two(d) + [TEE]
    ensures Run(data, p, 9, r) == Run(data, p + 3, 12, r.(parts := r.parts.(day := d)))
  {
    hide Run, Two;
    Three(data, p, d, TEE);
    var mid := if d < 10 then 10 else if d < 30 then 29 else 30;
    Moves(data, p, 9, r, mid, r);
    Moves(data, p + 1, mid, r, 11, r);
    Moves(data, p + 2, 11, r, 12, r.(parts := r.parts.(day := d)));
  }

  lemma HourField(data: bytes, p: nat, r: Regs, h: nat)
    requires p + 3 <= |data| && h < 24 && data[p..p + 3] == Two(h) + [COLON]
    ensures Run(data, p, 12, r) == Run(data, p + 3, 15, r.(parts := r.parts.(hour := h)))
  {
    hide Run, Two;
    Three(data, p, h, COLON);
    var mid := if h < 20 then 13 else 28;
    Moves(data, p, 12, r, mid, r);
    Moves(data, p + 1, mid, r, 14, r);
    Moves(data, p + 2, 14, r, 15, r.(parts := r.parts.(hour := h)));
  }

  lemma MinuteField(data: bytes, p: nat, r: Regs, m: nat)
    requires p + 3 <= |data| && m < 60 && data[p..p + 3] == Two(m) + [COLON]
    ensures Run(data, p, 15, r) == Run(data, p + 3, 18, r.(parts := r.parts.(min := m)))
  {
    hide Run, Two;
    Three(data, p, m, COLON);
    Moves(data, p, 15, r, 16, r);
    Moves(data, p + 1, 16, r, 17, r);
    Moves(data, p + 2, 17, r, 18, r.(parts := r.parts.(min := m)));
  }

  lemma SecondField(data: bytes, p: nat, r: Regs, s: nat)
    requires p + 2 <= |data| && s < 60 && data[p..p + 2] == Two(s)
    ensures Run(data, p, 18, r) == Run(data, p + 2, 32, r.(parts := r.parts.(sec := s)))
  {
    hide Run, Two;
    TwoDigits(s);
    assert data[p] == data[p..p + 2][0] && data[p + 1] == data[p..p + 2][1];
    Moves(data, p, 18, r, 19, r);
    Moves(data, p + 1, 19, r, 32, r.(parts := r.parts.(sec := s)));
  }

  // ------------------------------------------------------------------------- fractions

  predicate AllDigits(s: bytes) {
    forall i :: 0 <= i < |s| ==> Digit(s[i])
  }

  function Number(s: bytes): int {
    if s == [] then 0 else Number(s[..|s| - 1]) * 10 + (s[|s| - 1] as int - 48)
  }

  function AfterDigits(n: nat): nat {
    if n == 0 then 26 else 34 + n
  }

  /** Reading k digits behind the dot. */
  lemma {:induction false} FractionDigits(data: bytes, p: nat, k: nat, r: Regs)
    requires p + k <= |data| && k <= 9 && AllDigits(data[p..p + k]) && r.frac == 0 && r.fracdig == NANOS
    ensures Run(data, p, 26, r) == Run(data, p + k, AfterDigits(k), r.(frac := Number(data[p..p + k]), fracdig := Pow10(9 - k)))
    decreases k
  {
    hide Run, Next, Act;
    Billion();
    if k > 0 {
      var s := data[p..p + k];
      SliceOf(data, p, s, 0, k - 1);
      assert s[..k - 1] == s[0..k - 1] && s[k - 1] == data[p + k - 1];
      FractionDigits(data, p, k - 1, r);
      OneMoreDigit(data, p + k - 1, k - 1, r, Number(data[p..p + k - 1]));
    } else {
      assert data[p..p] == [];
    }
  }

  lemma Billion()
    ensures Pow10(9) == NANOS
  {
    assert Pow10(5) == 100_000;
  }

  lemma OneMoreDigit(data: bytes, p: nat, k: nat, r: Regs, frac: int)
    requires p < |data| && Digit(data[p]) && k < 9
    ensures Run(data, p, AfterDigits(k), r.(frac := frac, fracdig := Pow10(9 - k)))
         == Run(data, p + 1, AfterDigits(k + 1), r.(frac := frac * 10 + (data[p] as int - 48), fracdig := Pow10(8 - k)))
  {
    hide Run;
    Moves(data, p, AfterDigits(k), r.(frac := frac, fracdig := Pow10(9 - k)), AfterDigits(k + 1),
          r.(frac := frac * 10 + (data[p] as int - 48), fracdig := Pow10(8 - k)));
  }

  /** A trimmed fraction has at most width digits and stands for the whole number. */
  lemma {:induction false} TrimmedValue(u: nat, width: nat)
    requires 0 < u < Pow10(width) && width >= 1
    ensures var s := Decimal(u, width, true);
      1 <= |s| <= width && AllDigits(s) && Number(s) * Pow10(width - |s|) == u
    decreases u
  {
    hide Number, Zeros, Dec, AllDigits;
    if u >= 10 && u % 10 == 0 {
      TrimmedValue(u / 10, width - 1);
      var s := Decimal(u / 10, width - 1, true);
      assert Pow10(width - |s|) == 10 * Pow10(width - 1 - |s|);
      TimesTen(Number(s), Pow10(width - 1 - |s|));
    } else {
      DecLength(u, width);
      DecValue(u);
      ZerosValue(width - |Dec(u)|, Dec(u));
    }
  }

  lemma TimesTen(a: int, b: int)
    ensures a * (10 * b) == 10 * (a * b)
  {
  }

  lemma {:induction false} DecValue(u: nat)
    ensures AllDigits(Dec(u)) && Number(Dec(u)) == u
  {
    if u < 10 {
      assert Dec(u)[..0] == [];
    } else {
      DecValue(u / 10);
      assert Dec(u)[..|Dec(u)| - 1] == Dec(u / 10);
    }
  }

  lemma {:induction false} ZerosValue(n: nat, s: bytes)
    requires AllDigits(s)
    ensures AllDigits(Zeros(n) + s) && Number(Zeros(n) + s) == Number(s)
    decreases n
  {
    hide Number;
    if n > 0 {
      ZerosValue(n - 1, s);
      assert Zeros(n) + s == [48] + (Zeros(n - 1) + s);
      LeadingZero(Zeros(n - 1) + s);
    } else {
      assert Zeros(n) + s == s;
    }
  }

  lemma {:induction false} LeadingZero(s: bytes)
    ensures Number([48] + s) == Number(s)
    decreases |s|
  {
    if s == [] {
      assert ([48] + s)[..0] == [];
    } else {
      var t := [48] + s;
      assert t[..|t| - 1] == [48] + s[..|s| - 1] && t[|t| - 1] == s[|s| - 1];
      LeadingZero(s[..|s| - 1]);
    }
  }

  // ------------------------------------------------------------------------ whole texts

  /** The part before the seconds. */
  function ToMinute(p: Parts): bytes
    requires InRange(p) && p.year >= 0
  {
    (Four(p.year) + [DASH]) + (Two(p.month) + [DASH]) + (Two(p.day) + [TEE])
    + (Two(p.hour) + [COLON]) + (Two(p.min) + [COLON])
  }

  /** The fixed part, up to the seconds. */
  function Clock(p: Parts): bytes
    requires InRange(p) && p.year >= 0
  {
    ToMinute(p) + Two(p.sec)
  }

  lemma TextSplit(p: Parts)
    requires InRange(p) && 0 <= p.year < 10000
    ensures |Clock(p)| == 19 && Text(p) == Clock(p) + Fraction(p.ns) + [ZED]
  {
    hide DaysIn, Decimal;
    DaysFit(p);
    FourDigits(p.year);
    TwoDigits(p.month);
    TwoDigits(p.day);
    TwoDigits(p.hour);
    TwoDigits(p.min);
    TwoDigits(p.sec);
  }

  lemma ClockRuns(data: bytes, o: nat, r: Regs, p: Parts)
    requires InRange(p) && 0 <= p.year < 10000 && o + 19 <= |data| && data[o..o + 19] == Clock(p)
    ensures Run(data, o, 1, r) == Run(data, o + 19, 32, r.(parts := p.(ns := r.parts.ns)))
  {
    hide Run, Two, Four, DaysIn, ToMinute;
    ClockFields(p);
    TwoDigits(p.sec);
    SliceOf(data, o, Clock(p), 0, 17);
    SliceOf(data, o, Clock(p), 17, 19);
    MinuteRuns(data, o, r, p);
    SecondField(data, o + 17, r.(parts := p.(sec := r.parts.sec, ns := r.parts.ns)), p.sec);
  }

  /** The machine up to the seconds. */
  lemma MinuteRuns(data: bytes, o: nat, r: Regs, p: Parts)
    requires InRange(p) && 0 <= p.year < 10000 && o + 17 <= |data| && data[o..o + 17] == ToMinute(p)
    ensures Run(data, o, 1, r) == Run(data, o + 17, 18, r.(parts := p.(sec := r.parts.sec, ns := r.parts.ns)))
  {
    hide Run, Two, Four, DaysIn, ToMinute;
    DaysFit(p);
    ClockFields(p);
    var c := ToMinute(p);
    SliceOf(data, o, c, 0, 5);
    SliceOf(data, o, c, 5, 8);
    SliceOf(data, o, c, 8, 11);
    SliceOf(data, o, c, 11, 14);
    SliceOf(data, o, c, 14, 17);
    var r1 := r.(parts := r.parts.(year := p.year));
    YearField(data, o, r, p.year);
    var r2 := r1.(parts := r1.parts.(month := p.month));
    MonthField(data, o + 5, r1, p.month);
    var r3 := r2.(parts := r2.parts.(day := p.day));
    DayField(data, o + 8, r2, p.day);
    var r4 := r3.(parts := r3.parts.(hour := p.hour));
    HourField(data, o + 11, r3, p.hour);
    MinuteField(data, o + 14, r4, p.min);
  }

  lemma ClockFields(p: Parts)
    requires InRange(p) && 0 <= p.year < 10000
    ensures var c := ToMinute(p);
      && |c| == 17 && c[0..5] == Four(p.year) + [DASH] && c[5..8] == Two(p.month) + [DASH]
      && c[8..11] == Two(p.day) + [TEE] && c[11..14] == Two(p.hour) + [COLON] && c[14..17] == Two(p.min) + [COLON]
  {
    hide Two, Four, DaysIn;
    DaysFit(p);
    FourDigits(p.year);
    TwoDigits(p.month);
    TwoDigits(p.day);
    TwoDigits(p.hour);
    TwoDigits(p.min);
    FiveParts(Four(p.year) + [DASH], Two(p.month) + [DASH], Two(p.day) + [TEE], Two(p.hour) + [COLON], Two(p.min) + [COLON]);
  }

  lemma SliceOf(data: bytes, o: nat, c: bytes, i: nat, j: nat)
    requires o + |c| <= |data| && data[o..o + |c|] == c && i <= j <= |c|
    ensures data[o + i..o + j] == c[i..j]
  {
    forall k | i <= k < j ensures data[o + k] == c[k] {
      assert data[o..o + |c|][k] == c[k];
    }
  }

  lemma FiveParts(a: bytes, b: bytes, c: bytes, d: bytes, e: bytes)
    ensures var all := a + b + c + d + e;
      var n1 := |a|;
      var n2 := n1 + |b|;
      var n3 := n2 + |c|;
      var n4 := n3 + |d|;
      && all[0..n1] == a && all[n1..n2] == b && all[n2..n3] == c && all[n3..n4] == d && all[n4..] == e
  {
  }

  /** What reading a fraction leaves in the registers. */
  function FractionRegs(ns: nat, r: Regs): Regs
    requires ns < NANOS
  {
    if ns == 0 then r
    else
      var s := Decimal(ns, 9, true);
      r.(frac := Number(s), fracdig := if |s| <= 9 then Pow10(9 - |s|) else 0)
  }

  lemma FractionWorth(ns: nat, r: Regs)
    requires ns < NANOS && r.frac == 0
    ensures FractionRegs(ns, r).frac * FractionRegs(ns, r).fracdig == ns
  {
    hide Decimal;
    if ns != 0 {
      Billion();
      TrimmedValue(ns, 9);
    }
  }

  /** Fraction and zone designator, from the end of the seconds. */
  lemma FractionRuns(data: bytes, o: nat, r: Regs, ns: nat)
    requires ns < NANOS && r.frac == 0 && r.fracdig == NANOS
    requires var f := Fraction(ns) + [ZED]; o + |f| <= |data| && data[o..o + |f|] == f
    ensures Run(data, o, 32, r) == Run(data, o + |Fraction(ns)| + 1, 34, FractionRegs(ns, r))
  {
    hide Run, Decimal, Next, Act, Number, AllDigits;
    if ns == 0 {
      SliceOf(data, o, [ZED], 0, 1);
      assert data[o] == data[o..o + 1][0];
      Zone(data, o, 32, r);
    } else {
      TrimmedValue(ns, 9);
      Billion();
      SomeFraction(data, o, r, Decimal(ns, 9, true));
    }
  }

  lemma SomeFraction(data: bytes, o: nat, r: Regs, s: bytes)
    requires 1 <= |s| <= 9 && AllDigits(s) && r.frac == 0 && r.fracdig == NANOS
    requires o + |s| + 2 <= |data| && data[o..o + |s| + 2] == [DOT] + s + [ZED]
    ensures Run(data, o, 32, r) == Run(data, o + |s| + 2, 34, r.(frac := Number(s), fracdig := Pow10(9 - |s|)))
  {
    hide Run, Next, Act, Number, AllDigits, Pow10;
    Bracketed(data, o, s);
    Dot(data, o, r);
    FractionDigits(data, o + 1, |s|, r);
    Zone(data, o + 1 + |s|, AfterDigits(|s|), r.(frac := Number(s), fracdig := Pow10(9 - |s|)));
  }

  lemma Bracketed(data: bytes, o: nat, s: bytes)
    requires o + |s| + 2 <= |data| && data[o..o + |s| + 2] == [DOT] + s + [ZED]
    ensures data[o] == DOT && data[o + 1..o + 1 + |s|] == s && data[o + 1 + |s|] == ZED
  {
    var c := [DOT] + s + [ZED];
    SliceOf(data, o, c, 0, 1);
    SliceOf(data, o, c, 1, 1 + |s|);
    SliceOf(data, o, c, 1 + |s|, 2 + |s|);
    assert c[0] == DOT && c[1..1 + |s|] == s && c[1 + |s|] == ZED;
    assert data[o..o + 1][0] == data[o] && data[o + 1 + |s|..o + 2 + |s|][0] == data[o + 1 + |s|];
  }

  lemma Dot(data: bytes, o: nat, r: Regs)
    requires o < |data| && data[o] == DOT
    ensures Run(data, o, 32, r) == Run(data, o + 1, 26, r)
  {
    hide Run;
    Moves(data, o, 32, r, 26, r);
  }

  lemma Zone(data: bytes, o: nat, cs: nat, r: Regs)
    requires o < |data| && data[o] == ZED && (cs == 32 || 35 <= cs <= 43)
    ensures Run(data, o, cs, r) == Run(data, o + 1, 34, r)
  {
    hide Run;
    Moves(data, o, cs, r, 34, r);
  }

  predicate AllSpace(s: bytes) {
    forall i :: 0 <= i < |s| ==> Space(s[i])
  }

  /** Parsing undoes printing, whatever white space surrounds the text. */
  lemma ParseText(pre: bytes, p: Parts, post: bytes)
    requires AllSpace(pre) && AllSpace(post) && InRange(p) && 0 <= p.year < 10000
    ensures Parsed(pre + Text(p) + post) == Some(Pack(p))
  {
    hide Run, Text, Clock, Fraction, Normal, Pack, DaysIn, Instant;
    TextSplit(p);
    var data, o := pre + Text(p) + post, |pre|;
    Surrounded(pre, Clock(p), Fraction(p.ns) + [ZED], post, Text(p));
    LeadingSpace(data, 0, o, START);
    ClockRuns(data, o, START, p);
    var r := START.(parts := p.(ns := 0));
    FractionRuns(data, o + 19, r, p.ns);
    FractionWorth(p.ns, r);
    TrailingSpace(data, o + |Text(p)|, FractionRegs(p.ns, r));
    NormalInRange(p);
  }

  lemma Surrounded(pre: bytes, a: bytes, b: bytes, post: bytes, text: bytes)
    requires text == a + b && AllSpace(pre) && AllSpace(post)
    ensures var data := pre + text + post;
      && data[|pre|..|pre| + |a|] == a
      && data[|pre| + |a|..|pre| + |a| + |b|] == b
      && (forall i :: 0 <= i < |pre| ==> Space(data[i]))
      && (forall i :: |pre| + |text| <= i < |data| ==> Space(data[i]))
  {
    hide Space;
    var data := pre + text + post;
    forall i | |pre| + |text| <= i < |data| ensures Space(data[i]) {
      assert data[i] == post[i - |pre| - |text|];
    }
    forall i | 0 <= i < |pre| ensures Space(data[i]) {
      assert data[i] == pre[i];
    }
  }

  /** Every time with a four-digit year survives `AppendRFC3339Nano` and `Parse`. */
  lemma PrintParse(t: Time)
    requires Packable(Unpack(t)) && Unpack(t).year < 10000 && Pack(Unpack(t)) == t
    ensures Parsed(Text(Unpack(t))) == Some(t)
  {
    hide Parsed, Text, Unpack, Pack, InRange;
    ParseText([], Unpack(t), []);
    assert [] + Text(Unpack(t)) + [] == Text(Unpack(t));
  }

  // ----------------------------------------------------------------------- leap seconds

  /** The states behind the seconds. */
  predicate Late(cs: nat) {
    20 <= cs <= 26 || 33 <= cs <= 43
  }

  lemma LateStays(cs: nat, c: byte)
    requires Late(cs) || cs == 44
    ensures Next(cs, c) == 0 || Late(Next(cs, c))
  {
  }

  /** Nothing behind the seconds changes them. */
  lemma {:induction false} SecondsStay(data: bytes, p: nat, cs: nat, r: Regs)
    requires p <= |data| && Late(cs)
    ensures Run(data, p, cs, r).1.parts.sec == r.parts.sec
    decreases |data| - p
  {
    hide Next;
    if p < |data| && Next(cs, data[p]) != 0 {
      LateStays(cs, data[p]);
      SecondsStay(data, p + 1, Next(cs, data[p]), Act(cs, data, p, r));
    }
  }

  /** "60" is recorded exactly if something acceptable follows it; at the end of the input the text
      is accepted and the seconds stay as they were. */
  lemma LeapSecond(data: bytes, p: nat, r: Regs)
    requires p + 2 <= |data| && data[p] == 54 && data[p + 1] == 48
    ensures p + 2 == |data| ==> Run(data, p, 18, r) == (44, r)
    ensures p + 2 < |data| && Next(44, data[p + 2]) == 0 ==> Run(data, p, 18, r) == (0, r)
    ensures p + 2 < |data| && Next(44, data[p + 2]) != 0 ==>
      Run(data, p, 18, r) == Run(data, p + 3, Next(44, data[p + 2]), r.(parts := r.parts.(sec := 60)))
    ensures var (cs, q) := Run(data, p, 18, r);
      cs >= 32 && r.parts.sec != 60 ==> (q.parts.sec == 60 <==> p + 2 < |data|)
  {
    hide Run;
    Moves(data, p, 18, r, 27, r);
    Moves(data, p + 1, 27, r, 44, r);
    if p + 2 == |data| {
      Ends(data, 44, r);
    } else if Next(44, data[p + 2]) == 0 {
      Fails(data, p + 2, 44, r);
    } else {
      var q := r.(parts := r.parts.(sec := 60));
      LateStays(44, data[p + 2]);
      Moves(data, p + 2, 44, r, Next(44, data[p + 2]), q);
      SecondsStay(data, p + 3, Next(44, data[p + 2]), q);
    }
  }

  lemma Fails(data: bytes, p: nat, cs: nat, r: Regs)
    requires p < |data| && Next(cs, data[p]) == 0
    ensures Run(data, p, cs, r) == (0, r)
  {
    hide Next, Act;
  }

  /** Whole texts, for every minute: without a zone the leap second is read as second 0, with "Z"
      behind it as the first second of the next minute. */
  lemma LeapSecondAtEnd(p: Parts)
    requires InRange(p) && 0 <= p.year < 10000
    ensures Parsed(ToMinute(p) + [54, 48]) == Some(Pack(p.(sec := 0, ns := 0)))
    ensures Parsed(ToMinute(p) + [54, 48, ZED]) == Some(Pack(Normal(p.(sec := 60, ns := 0))))
    ensures Instant(Normal(p.(sec := 60, ns := 0))) == Instant(p.(sec := 0, ns := 0)) + 60 * NANOS
  {
    hide Run, ToMinute, Normal, Pack, DaysIn, Next, Act, InRange, Instant;
    ClockFields(p);
    var r := START.(parts := p.(sec := 0, ns := 0));
    var a, b := ToMinute(p) + [54, 48], ToMinute(p) + [54, 48, ZED];
    assert a[0..17] == b[0..17] == ToMinute(p);
    MinuteRuns(a, 0, START, p);
    MinuteRuns(b, 0, START, p);
    LeapSecond(a, 17, r);
    LeapSecond(b, 17, r);
    ZoneFollows();
    Ends(b, 34, r.(parts := r.parts.(sec := 60)));
    ZeroInRange(p);
    NormalInRange(p.(sec := 0, ns := 0));
    NextMinute(p);
  }

  lemma ZoneFollows()
    ensures Next(44, ZED) == 34
  {
  }

  lemma ZeroInRange(p: Parts)
    requires InRange(p)
    ensures InRange(p.(sec := 0, ns := 0))
  {
  }

  lemma NextMinute(p: Parts)
    ensures Instant(Normal(p.(sec := 60, ns := 0))) == Instant(p.(sec := 0, ns := 0)) + 60 * NANOS
  {
    hide Normal;
    NormalInstant(p.(sec := 60, ns := 0));
  }

  lemma Ends(data: bytes, cs: nat, r: Regs)
    ensures Run(data, |data|, cs, r) == (cs, r)
  {
  }
}
