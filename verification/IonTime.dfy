/** Timestamps in Ion: `WriteTime` and `ReadTime`, precise to the microsecond. */
module IonTime {
  import opened IonCodec
  import opened IonTree
  import opened IonBuffer
  import opened Calendar
  import opened PackedTime
  import opened DateTime

  /** What `WriteTime` appends. */
  function TimeBytes(p: Parts): bytes
    requires Packable(p)
  {
    DaysFit(p);
    var micro := p.ns / 1000;
    [TIMESTAMP_TYPE * 16 + if micro != 0 then 12 else 8, 0x80, p.year / 128, p.year % 128 + 128,
     p.month + 128, p.day + 128, p.hour + 128, p.min + 128, p.sec + 128]
    + if micro != 0 then [0xc6, micro / 0x1_0000, micro / 0x100 % 256, micro % 256] else []
  }

  // --------------------------------------------------------------------------- reading

  datatype Got<T> = Bad | Got(value: T, rest: bytes)

  /** `readuv1`. */
  function ReadUv1(msg: bytes): Got<nat>
    requires |msg| > 0
  {
    if msg[0] >= 128 then Got(msg[0] % 128, msg[1..]) else Bad
  }

  /** `readuv2`. */
  function ReadUv2(msg: bytes): Got<nat>
    requires |msg| > 0
  {
    if msg[0] >= 128 then Got(msg[0] % 128, msg[1..])
    else if |msg| < 2 || msg[1] < 128 then Bad
    else Got(msg[0] as int % 128 * 128 + msg[1] % 128, msg[2..])
  }

  /** `readiv1`. */
  function ReadIv1(msg: bytes): Got<int>
    requires |msg| > 0
  {
    if msg[0] < 128 then Bad
    else Got(Signed(msg[0], msg[0] % 64), msg[1..])
  }

  /** `readiv`: sign and six bits first, then seven bits a byte. */
  function ReadIv(msg: bytes): Got<int>
    requires |msg| > 0
  {
    if msg[0] >= 128 then ReadIv1(msg)
    else if |msg| == 1 then Got(Signed(msg[0], msg[0] % 64), [])
    else match ReadIvFrom(msg[1..], msg[0] % 64)
      case Bad => Bad
      case Got(v, rest) => Got(Signed(msg[0], v), rest)
  }

  function Signed(first: byte, v: nat): int {
    if first / 64 % 2 == 1 then 0 - v as int else v
  }

  function ReadIvFrom(msg: bytes, acc: nat): Got<nat> {
    if msg == [] then Bad
    else if msg[0] >= 128 then Got(acc * 128 + msg[0] % 128, msg[1..])
    else ReadIvFrom(msg[1..], acc * 128 + msg[0] % 128)
  }

  /** `readint`: sign bit, then big-endian. */
  function ReadFixed(msg: bytes): int
    requires |msg| > 0
  {
    var v: int := FixedFrom(msg[1..], msg[0] % 128);
    if msg[0] >= 128 then -v else v
  }

  function FixedFrom(msg: bytes, acc: nat): nat {
    if msg == [] then acc else FixedFrom(msg[1..], acc * 256 + msg[0])
  }

  /** One optional component: def when the body ends before it. */
  function Component(at: Got<nat>, def: nat): Got<nat> {
    match at
    case Bad => Bad
    case Got(_, rest) => if rest == [] then Got(def, []) else ReadUv1(rest)
  }

  /** The components of a timestamp body; nothing if it is cut short or malformed. */
  function ReadParts(body: bytes): Option<Parts> {
    if body == [] then None
    else match ReadIv(body)
      case Bad => None
      case Got(_, afterOffset) =>
        if afterOffset == [] then None
        else
          var year := ReadUv2(afterOffset);
          var month := Component(year, 1);
          var day := Component(month, 1);
          var hour := Component(day, 0);
          var min := Component(hour, 0);
          var sec := Component(min, 0);
          if sec.Bad? then None
          else
            match ReadNanos(sec.rest)
            case None => None
            case Some(ns) => Some(Parts(year.value, month.value, day.value, hour.value, min.value, sec.value, ns))
  }

  /** The fraction: only exponents -6 and -9 count. */
  function ReadNanos(body: bytes): Option<int> {
    if body == [] then Some(0)
    else match ReadIv1(body)
      case Bad => None
      case Got(exp, rest) =>
        var frac := if rest == [] then 0 else ReadFixed(rest);
        Some(if exp == -6 then frac * 1000 else if exp == -9 then frac else 0)
  }

  /** `ReadTime`. */
  function ReadTime(msg: bytes): Option<(Time, bytes)> {
    if |msg| == 0 || TypeOf(msg) != TIMESTAMP_TYPE then None
    else match Contents(msg)
      case None => None
      case Some(Split(body, rest)) =>
        match ReadParts(body)
        case None => None
        case Some(p) => Some((Pack(Normal(p)), rest))
  }

  // ------------------------------------------------------------------------ round trip

  function ToMicros(p: Parts): Parts {
    p.(ns := p.ns / 1000 * 1000)
  }

  lemma TimeFraming(p: Parts, rest: bytes)
    requires Packable(p)
    ensures var raw := TimeBytes(p);
      && IsAtom(raw) && TypeOf(raw + rest) == TIMESTAMP_TYPE
      && Contents(raw + rest) == Some(Split(raw[1..], rest))
  {
    hide InRange;
    var raw := TimeBytes(p);
    var n := |raw| - 1;
    assert raw[0] == 96 + n && (raw + rest)[0] == raw[0];
    assert (raw + rest)[1..1 + n] == raw[1..] && (raw + rest)[1 + n..] == rest;
  }

  lemma TimeParts(p: Parts)
    requires Packable(p)
    ensures ReadParts(TimeBytes(p)[1..]) == Some(ToMicros(p))
  {
    hide ReadNanos, Component, ReadUv2, DaysIn;
    DaysFit(p);
    var raw := TimeBytes(p);
    var body := raw[1..];
    ReadOffset(body);
    assert body[1..] == raw[2..];
    ReadYear(raw[2..], p.year);
    assert raw[2..][2..] == raw[4..];
    ReadComponent(p.year, p.month, raw, 4, 1);
    ReadComponent(p.month, p.day, raw, 5, 1);
    ReadComponent(p.day, p.hour, raw, 6, 0);
    ReadComponent(p.hour, p.min, raw, 7, 0);
    ReadComponent(p.min, p.sec, raw, 8, 0);
    Nanos(p);
  }

  lemma ReadOffset(body: bytes)
    requires |body| > 0 && body[0] == 0x80
    ensures ReadIv(body) == Got(0, body[1..])
  {
  }

  lemma ReadYear(msg: bytes, y: nat)
    requires |msg| >= 2 && y < 16384 && msg[0] == y / 128 && msg[1] == y % 128 + 128
    ensures ReadUv2(msg) == Got(y, msg[2..])
  {
  }

  lemma ReadComponent(before: nat, x: nat, raw: bytes, k: nat, def: nat)
    requires k < |raw| && x < 128 && raw[k] == x + 128
    ensures Component(Got(before, raw[k..]), def) == Got(x, raw[k + 1..])
  {
    assert raw[k..][0] == raw[k] && raw[k..][1..] == raw[k + 1..];
  }

  lemma Nanos(p: Parts)
    requires Packable(p)
    ensures ReadNanos(TimeBytes(p)[9..]) == Some(p.ns / 1000 * 1000)
  {
    var micro := p.ns / 1000;
    var tail := TimeBytes(p)[9..];
    if micro != 0 {
      assert tail[1..] == [micro / 0x1_0000, micro / 0x100 % 256, micro % 256];
      ThreeBytes(micro);
    }
  }

  lemma ThreeBytes(v: nat)
    requires v < 0x80_0000
    ensures ReadFixed([v / 0x1_0000, v / 0x100 % 256, v % 256]) == v
  {
    var a, b, c := v / 0x1_0000, v / 0x100 % 256, v % 256;
    assert [a, b, c][1..] == [b, c] && [b, c][1..] == [c] && [c][1..] == [];
    assert FixedFrom([c], a * 256 + b) == (a * 256 + b) * 256 + c;
  }

  /** Every packed time is read back, truncated to microseconds, with the rest untouched. */
  lemma TimeRoundTrip(p: Parts, rest: bytes)
    requires Packable(p)
    ensures ReadTime(TimeBytes(p) + rest) == Some((Pack(ToMicros(p)), rest))
  {
    hide Contents, ReadParts, TimeBytes, TypeOf, Pack, Normal;
    TimeFraming(p, rest);
    TimeParts(p);
    NormalInRange(ToMicros(p));
  }

  /** `Buffer.WriteTime`. */
  method WriteTime(b: Buffer, t: Time)
    requires b.Valid() && Ready(b.frames) && Packable(Unpack(t))
    modifies b
    ensures b.Valid()
    ensures b.base == AddBase(old(b.base), old(b.frames), Atom(TimeBytes(Unpack(t))))
    ensures b.frames == AddFrames(old(b.frames), Atom(TimeBytes(Unpack(t))))
  {
    hide TimeBytes, Unpack, Packable, StackBytes, SegsMatch, AddFrames;
    TimeFraming(Unpack(t), []);
    b.Emit(TimeBytes(Unpack(t)), Atom(TimeBytes(Unpack(t))));
  }
}
