/** Byte-level framing of Amazon Ion 1.0 as the `ion` package reads and writes it:
    VarUInt fields, type/length headers, integer magnitudes and NOP padding. */
module IonCodec {

  type byte = b: int | 0 <= b < 256
  type bytes = seq<byte>

  datatype Option<+T> = None | Some(value: T)

  // readuv and SizeOf look at no more than eight VarUInt bytes.
  const UV_LIMIT: nat := 0x100_0000_0000_0000

  // ---------------------------------------------------------------- VarUInt

  /** `bits.Len`: the number of significant bits. */
  function BitLen(v: nat): nat {
    if v == 0 then 0 else 1 + BitLen(v / 2)
  }

  /** `Uvsize`: oring in 1 only matters for zero, which still takes one byte. */
  function Uvsize(v: nat): nat {
    (BitLen(if v % 2 == 0 then v + 1 else v) + 6) / 7
  }

  /** Base-128 digits of v, most significant first, without the stop bit. */
  function UvDigits(v: nat): (r: bytes)
    ensures |r| >= 1
  {
    if v < 128 then [v] else UvDigits(v / 128) + [v % 128]
  }

  /** The VarUInt encoding: base-128 digits, stop bit on the last one. */
  function Uv(v: nat): (r: bytes)
    ensures |r| >= 1 && r[|r| - 1] >= 128
    ensures forall i :: 0 <= i < |r| - 1 ==> r[i] < 128
  {
    UvDigitsAre7Bit(v / 128);
    if v < 128 then [128 + v] else UvDigits(v / 128) + [128 + v % 128]
  }

  lemma UvDigitsAre7Bit(v: nat)
    ensures forall i :: 0 <= i < |UvDigits(v)| ==> UvDigits(v)[i] < 128
  {
  }

  lemma {:induction false} BitLenShift7(v: nat)
    requires v >= 128
    ensures BitLen(v) == 7 + BitLen(v / 128)
  {
    var a, b, c := v / 2, v / 4, v / 8;
    var d, e, f := v / 16, v / 32, v / 64;
    assert a / 2 == b && b / 2 == c && c / 2 == d && d / 2 == e && e / 2 == f && f / 2 == v / 128;
    assert BitLen(v) == 1 + BitLen(a) == 2 + BitLen(b) == 3 + BitLen(c);
    assert BitLen(c) == 1 + BitLen(d) == 2 + BitLen(e) == 3 + BitLen(f) == 4 + BitLen(v / 128);
  }

  lemma {:induction false} BitLenSmall(v: nat)
    requires 0 < v < 128
    ensures 1 <= BitLen(v) <= 7
  {
    var a, b, c := v / 2, v / 4, v / 8;
    var d, e, f := v / 16, v / 32, v / 64;
    assert a / 2 == b && b / 2 == c && c / 2 == d && d / 2 == e && e / 2 == f;
    assert BitLen(v) == 1 + BitLen(a);
    assert BitLen(f) <= 1;
    assert BitLen(e) <= 1 + BitLen(f);
    assert BitLen(d) <= 1 + BitLen(e);
    assert BitLen(c) <= 1 + BitLen(d);
    assert BitLen(b) <= 1 + BitLen(c);
    assert BitLen(a) <= 1 + BitLen(b);
  }

  /** `Uvsize` announces exactly the length of the encoding. */
  lemma {:induction false} UvsizeIsLength(v: nat)
    ensures Uvsize(v) == |Uv(v)|
    ensures v >= 128 ==> Uvsize(v) == 1 + Uvsize(v / 128)
    decreases v
  {
    if v < 128 {
      BitLenSmall(if v % 2 == 0 then v + 1 else v);
    } else {
      UvsizeIsLength(v / 128);
      UvsizeStep(v);
      assert |UvDigits(v / 128)| == |Uv(v / 128)|;
    }
  }

  lemma UvsizeStep(v: nat)
    requires v >= 128
    ensures Uvsize(v) == 1 + Uvsize(v / 128)
  {
    hide BitLen;
    var odd := if v % 2 == 0 then v + 1 else v;
    assert odd / 128 == v / 128;
    BitLenShift7(odd);
    BitLenOdd(v / 128);
  }

  lemma BitLenOdd(q: nat)
    requires q > 0
    ensures BitLen(if q % 2 == 0 then q + 1 else q) == BitLen(q)
  {
    if q % 2 == 0 {
      assert (q + 1) / 2 == q / 2;
    }
  }

  function Pow128(k: nat): nat {
    if k == 0 then 1 else 128 * Pow128(k - 1)
  }

  lemma {:induction false} UvLength(v: nat, k: nat)
    requires 1 <= k && v < Pow128(k)
    ensures |Uv(v)| <= k && |UvDigits(v)| <= k
    decreases k
  {
    if v >= 128 {
      UvLength(v / 128, k - 1);
    }
  }

  lemma UvAtMost8(v: nat)
    requires v < UV_LIMIT
    ensures |Uv(v)| <= 8
  {
    assert Pow128(4) == 0x1000_0000;
    assert Pow128(8) == UV_LIMIT by {
      assert Pow128(5) == 128 * Pow128(4) && Pow128(6) == 128 * Pow128(5);
      assert Pow128(7) == 128 * Pow128(6) && Pow128(8) == 128 * Pow128(7);
    }
    UvLength(v, 8);
  }

  datatype UvResult = UvOk(value: nat, used: nat) | UvBad

  /** What `readuv` returns, as a recursion from position i with accumulator acc. */
  function ReadUvFrom(s: bytes, i: nat, acc: nat): (r: UvResult)
    requires i <= |s|
    ensures r.UvOk? ==> i < r.used <= |s| && r.used <= 8
    decreases |s| - i
  {
    if i == |s| || i >= 8 then UvBad
    else if s[i] >= 128 then UvOk(acc * 128 + s[i] % 128, i + 1)
    else ReadUvFrom(s, i + 1, acc * 128 + s[i] % 128)
  }

  function ReadUv(s: bytes): (r: UvResult)
    ensures r.UvOk? ==> 0 < r.used <= |s|
  {
    ReadUvFrom(s, 0, 0)
  }

  /** `readuv`, the loop. */
  method ScanUv(msg: bytes) returns (r: UvResult)
    ensures r == ReadUv(msg)
  {
    var prefix := if |msg| > 8 then msg[..8] else msg;
    var out: nat := 0;
    for i := 0 to |prefix|
      invariant ReadUvFrom(msg, i, out) == ReadUv(msg)
    {
      out := out * 128 + prefix[i] % 128;
      if prefix[i] >= 128 {
        return UvOk(out, i + 1);
      }
    }
    return UvBad;
  }

  lemma {:induction false} ReadUvDigits(v: nat, s: bytes)
    requires |UvDigits(v)| <= |s| && |UvDigits(v)| <= 8
    requires s[..|UvDigits(v)|] == UvDigits(v)
    ensures ReadUv(s) == ReadUvFrom(s, |UvDigits(v)|, v)
    decreases v
  {
    var n := |UvDigits(v)|;
    UvDigitsAre7Bit(v);
    assert s[n - 1] == UvDigits(v)[n - 1];
    if v >= 128 {
      assert s[..n - 1] == UvDigits(v / 128) by {
        assert s[..n - 1] == s[..n][..n - 1];
      }
      ReadUvDigits(v / 128, s);
    }
  }

  /** Every VarUInt below 2^56 reads back, leaving the remainder untouched. */
  lemma {:induction false} UvRoundTrip(v: nat, rest: bytes)
    requires v < UV_LIMIT
    ensures ReadUv(Uv(v) + rest) == UvOk(v, |Uv(v)|)
    ensures (Uv(v) + rest)[|Uv(v)|..] == rest
  {
    var s := Uv(v) + rest;
    UvAtMost8(v);
    if v >= 128 {
      var d := UvDigits(v / 128);
      assert s[..|d|] == d;
      ReadUvDigits(v / 128, s);
      assert s[|d|] == 128 + v % 128;
    }
  }

  /** `putuv`: three straight-line cases, then a loop that fills digits from the back. */
  method PutUv(s: nat) returns (r: bytes)
    ensures r == Uv(s)
  {
    var n := Uvsize(s);
    UvsizeIsLength(s);
    if s >= 128 {
      UvsizeIsLength(s / 128);
      if s / 128 >= 128 {
        UvsizeIsLength(s / 128 / 128);
        assert |Uv(s / 128 / 128)| >= 1;
      }
    }
    if n == 1 {
      r := [128 + s];
    } else if n == 2 {
      r := [s / 128, 128 + s % 128];
    } else if n == 3 {
      assert s / 16384 == s / 128 / 128;
      r := [s / 16384, s / 128 % 128, 128 + s % 128];
    } else {
      r := FillUv(s, n);
    }
  }

  /** The back-to-front digit loop shared by `putuv`, `term` and `UnsafeWriteUVarint`. */
  method FillUv(s: nat, n: nat) returns (r: bytes)
    requires n == |Uv(s)|
    ensures r == Uv(s)
  {
    var v := s;
    r := [];
    ghost var left := Uv(s);
    var i := n;
    while i > 0
      invariant 0 <= i <= n && |left| == i
      invariant left + r == Uv(s)
      invariant i == n ==> v == s && r == []
      invariant 0 < i < n ==> left == UvDigits(v)
    {
      var low: byte := v % 128;
      if i == n { low := low + 128; }
      assert i > 1 ==> v >= 128 && left == UvDigits(v / 128) + [low];
      r := [low] + r;
      assert left == left[..i - 1] + [low];
      left := left[..i - 1];
      v := v / 128;
      i := i - 1;
    }
  }

  // ----------------------------------------------------- type/length headers

  const NULL_TYPE := 0
  const BOOL_TYPE := 1
  const UINT_TYPE := 2
  const INT_TYPE := 3
  const TIMESTAMP_TYPE := 6
  const SYMBOL_TYPE := 7
  const STRING_TYPE := 8
  const LIST_TYPE := 11
  const STRUCT_TYPE := 13
  const ANNOTATION_TYPE := 14

  function TypeOf(msg: bytes): (t: nat)
    requires |msg| > 0
    ensures t < 16
  {
    msg[0] / 16
  }

  /** `SizeOf`: -1 when the header is missing or unterminated. */
  function SizeOf(msg: bytes): (n: int)
    ensures n == -1 || n >= 1
  {
    if |msg| == 0 then -1
    else if msg[0] == 0x11 then 1
    else if msg[0] % 16 == 15 then 1
    else if msg[0] % 16 == 14 then
      match ReadUv(msg[1..])
      case UvOk(v, used) => v + used + 1
      case UvBad => -1
    else msg[0] % 16 + 1
  }

  method ComputeSizeOf(msg: bytes) returns (n: int)
    ensures n == SizeOf(msg)
  {
    if |msg| == 0 { return -1; }
    if msg[0] == 0x11 { return 1; }
    var lo := msg[0] % 16;
    if lo == 15 { return 1; }
    if lo == 14 {
      var u := ScanUv(msg[1..]);
      return if u.UvOk? then u.value + (u.used - 1) + 2 else -1;
    }
    return lo + 1;
  }

  /** Length field of `Contents`: the same digits, but with no limit on their number. */
  function ReadLenFrom(s: bytes, i: nat, acc: nat): (r: UvResult)
    requires i <= |s|
    ensures r.UvOk? ==> i < r.used <= |s|
    decreases |s| - i
  {
    if i == |s| then UvBad
    else if s[i] >= 128 then UvOk(acc * 128 + s[i] % 128, i + 1)
    else ReadLenFrom(s, i + 1, acc * 128 + s[i] % 128)
  }

  datatype Split = Split(body: bytes, rest: bytes)

  /** The n bytes from at on, and what follows them. */
  function CutOut(msg: bytes, at: nat, n: nat): (r: Option<Split>)
    requires 1 <= at
    ensures r.Some? ==> |r.value.body| + |r.value.rest| < |msg| && msg[|msg| - |r.value.rest|..] == r.value.rest
  {
    if |msg| < at + n then None else Some(Split(msg[at..at + n], msg[at + n..]))
  }

  /** `Contents`: body and remainder, or nothing when the object does not fit in msg. */
  function Contents(msg: bytes): (r: Option<Split>)
    ensures r.Some? ==> |msg| > 0 && |r.value.body| + |r.value.rest| < |msg|
    ensures r.Some? ==> msg[|msg| - |r.value.rest|..] == r.value.rest
  {
    if |msg| == 0 then None
    else if msg[0] == 0x11 || msg[0] % 16 == 15 then Some(Split([], msg[1..]))
    else if msg[0] % 16 < 14 then CutOut(msg, 1, msg[0] % 16)
    else
      match ReadLenFrom(msg[1..], 0, 0)
      case UvBad => None
      case UvOk(v, used) => CutOut(msg, 1 + used, v)
  }

  lemma TailSlices(msg: bytes, at: nat, n: nat)
    requires at + n + 1 <= |msg|
    ensures msg[1..][at..at + n] == msg[1 + at..1 + at + n]
    ensures msg[1..][at + n..] == msg[1 + at + n..]
  {
  }

  method ComputeContents(msg: bytes) returns (r: Option<Split>)
    ensures r == Contents(msg)
  {
    if |msg| == 0 { return None; }
    if msg[0] == 0x11 { return Some(Split([], msg[1..])); }
    var lo := msg[0] % 16;
    if lo == 15 { return Some(Split([], msg[1..])); }
    if lo < 14 {
      if |msg| < lo + 1 { return None; }
      return Some(Split(msg[1..1 + lo], msg[1 + lo..]));
    }
    var rest := msg[1..];
    var out: nat := 0;
    for i := 0 to |rest|
      invariant ReadLenFrom(rest, i, out) == ReadLenFrom(rest, 0, 0)
    {
      out := out * 128 + rest[i] % 128;
      if rest[i] >= 128 {
        if |rest| < i + out + 1 { return None; }
        TailSlices(msg, i + 1, out);
        return Some(Split(rest[i + 1..i + out + 1], rest[i + out + 1..]));
      }
    }
    return None;
  }

  lemma {:induction false} ReadLenAgrees(s: bytes, i: nat, acc: nat)
    requires i <= |s| && ReadUvFrom(s, i, acc).UvOk?
    ensures ReadLenFrom(s, i, acc) == ReadUvFrom(s, i, acc)
    decreases |s| - i
  {
    if s[i] < 128 {
      ReadLenAgrees(s, i + 1, acc * 128 + s[i] % 128);
    }
  }

  /** The header written by `begin`, `term` and `UnsafeAppendTag`. */
  function Header(tag: nat, size: nat): (r: bytes)
    requires tag < 16
    ensures |r| >= 1 && r[0] / 16 == tag
  {
    if size < 14 then [tag * 16 + size] else [tag * 16 + 14] + Uv(size)
  }

  function Tlv(tag: nat, body: bytes): (r: bytes)
    requires tag < 16
    ensures |r| >= 1 + |body| && r[0] / 16 == tag
  {
    Header(tag, |body|) + body
  }

  /** SizeOf and Contents agree on where a framed object ends. */
  lemma TlvFraming(tag: nat, body: bytes, rest: bytes)
    requires tag < 16 && tag != BOOL_TYPE && |body| < UV_LIMIT
    ensures var msg := Tlv(tag, body) + rest;
      && SizeOf(msg) == |Tlv(tag, body)|
      && Contents(msg) == Some(Split(body, rest))
      && TypeOf(msg) == tag
  {
    hide Uv, ReadUvFrom, ReadLenFrom;
    var msg := Tlv(tag, body) + rest;
    if |body| < 14 {
      assert msg[1..1 + |body|] == body && msg[1 + |body|..] == rest;
    } else {
      var u := Uv(|body|);
      assert msg == [tag * 16 + 14] + u + body + rest;
      FourParts([tag * 16 + 14], u, body, rest);
      UvRoundTrip(|body|, body + rest);
      ReadLenAgrees(msg[1..], 0, 0);
    }
  }

  lemma FourParts(a: bytes, b: bytes, c: bytes, d: bytes)
    ensures var s := a + b + c + d;
      && s[|a|..] == b + (c + d)
      && s[|a| + |b|..|a| + |b| + |c|] == c
      && s[|a| + |b| + |c|..] == d
  {
  }

  // ------------------------------------------------------ integer magnitudes

  /** Big-endian bytes of v with no leading zero byte, as `writeint` emits them. */
  function Mag(v: nat): bytes {
    if v == 0 then [] else Mag(v / 256) + [v % 256]
  }

  function ReadMag(s: bytes): nat {
    if s == [] then 0 else ReadMag(s[..|s| - 1]) * 256 + s[|s| - 1]
  }

  method ScanMag(msg: bytes) returns (u: nat)
    ensures u == ReadMag(msg)
  {
    u := 0;
    for i := 0 to |msg|
      invariant u == ReadMag(msg[..i])
    {
      assert msg[..i + 1][..i] == msg[..i];
      u := u * 256 + msg[i];
    }
    assert msg[..|msg|] == msg;
  }

  lemma {:induction false} MagRoundTrip(v: nat)
    ensures ReadMag(Mag(v)) == v
  {
    if v != 0 {
      MagRoundTrip(v / 256);
      assert Mag(v)[..|Mag(v)| - 1] == Mag(v / 256);
    }
  }

  function Pow256(k: nat): nat {
    if k == 0 then 1 else 256 * Pow256(k - 1)
  }

  lemma {:induction false} MagLength(v: nat, k: nat)
    requires v < Pow256(k)
    ensures |Mag(v)| <= k
  {
    if v != 0 {
      MagLength(v / 256, k - 1);
    }
  }
}
