/** Integers and symbols: `writeint`, `ReadInt`, `ReadUint`, `ReadSymbol`. */
module IonScalars {
  import opened IonCodec
  import opened IonTree

  const TWO63: int := 0x8000_0000_0000_0000
  const TWO64: nat := 0x1_0000_0000_0000_0000

  // ------------------------------------------------------- byte reversal as written

  /** v as n big-endian bytes. */
  function BigEndian(v: nat, n: nat): (r: bytes)
    ensures |r| == n
  {
    if n == 0 then [] else BigEndian(v / 256, n - 1) + [v % 256]
  }

  function LittleEndianValue(s: bytes): nat {
    if s == [] then 0 else s[0] + 256 * LittleEndianValue(s[1..])
  }

  /** `bits.ReverseBytes64`. */
  function ReverseBytes64(v: nat): nat {
    LittleEndianValue(BigEndian(v, 8))
  }

  /** `v >> (8*k)`. */
  function ShiftRightBytes(v: nat, k: nat): nat {
    if k == 0 then v else ShiftRightBytes(v / 256, k - 1)
  }

  function Zeros(n: nat): (r: bytes)
    ensures |r| == n
  {
    if n == 0 then [] else [0] + Zeros(n - 1)
  }

  lemma {:induction false} ZerosSnoc(n: nat)
    ensures Zeros(n) + [0] == Zeros(n + 1)
  {
    if n > 0 {
      ZerosSnoc(n - 1);
      assert Zeros(n) + [0] == [0] + (Zeros(n - 1) + [0]);
    }
  }

  lemma {:induction false} BigEndianIsPaddedMag(v: nat, n: nat)
    requires v < Pow256(n)
    ensures |Mag(v)| <= n && BigEndian(v, n) == Zeros(n - |Mag(v)|) + Mag(v)
  {
    MagLength(v, n);
    if n > 0 {
      BigEndianIsPaddedMag(v / 256, n - 1);
      if v == 0 {
        ZerosSnoc(n - 1);
        assert Zeros(n - 1) + [] == Zeros(n - 1) && Zeros(n) + [] == Zeros(n);
      } else {
        assert |Mag(v)| == |Mag(v / 256)| + 1;
        assert Zeros(n - |Mag(v)|) + Mag(v / 256) + [v % 256] == Zeros(n - |Mag(v)|) + Mag(v);
      }
    }
  }

  lemma {:induction false} ShiftDropsZeros(k: nat, s: bytes)
    ensures ShiftRightBytes(LittleEndianValue(Zeros(k) + s), k) == LittleEndianValue(s)
  {
    if k == 0 {
      assert Zeros(0) + s == s;
    } else {
      assert (Zeros(k) + s)[1..] == Zeros(k - 1) + s;
      ShiftDropsZeros(k - 1, s);
    }
  }

  lemma {:induction false} MagSize(v: nat)
    ensures |Mag(v)| == (BitLen(v) + 7) / 8
  {
    if v >= 256 {
      MagSize(v / 256);
      BitLenShift7(v);
      assert v / 128 / 2 == v / 256;
    } else if v > 0 {
      if v < 128 {
        BitLenSmall(v);
      } else {
        BitLenShift7(v);
        assert v / 128 == 1;
      }
    }
  }

  lemma MagOfWord(mag: nat)
    requires mag < TWO64
    ensures |Mag(mag)| <= 8 && mag < Pow256(8)
  {
    assert Pow256(4) == 0x1_0000_0000 && Pow256(8) == TWO64 by {
      assert Pow256(6) == 256 * (256 * Pow256(4)) && Pow256(8) == 256 * (256 * Pow256(6));
    }
    MagLength(mag, 8);
  }

  lemma ReversedMagnitude(mag: nat)
    requires mag < TWO64
    ensures |Mag(mag)| <= 8
    ensures ShiftRightBytes(ReverseBytes64(mag), 8 - |Mag(mag)|) == LittleEndianValue(Mag(mag))
  {
    MagOfWord(mag);
    BigEndianIsPaddedMag(mag, 8);
    ShiftDropsZeros(8 - |Mag(mag)|, Mag(mag));
  }

  lemma LowByte(s: bytes)
    requires s != []
    ensures LittleEndianValue(s) % 256 == s[0] && LittleEndianValue(s) / 256 == LittleEndianValue(s[1..])
  {
  }

  /** `writeint`: the magnitude is byte-reversed so that its bytes come out most significant first. */
  method WriteMag(mag: nat, tag: nat) returns (r: bytes)
    requires mag < TWO64 && tag < 16
    ensures r == Tlv(tag, Mag(mag))
  {
    hide Mag, BitLen, ReverseBytes64, ShiftRightBytes, LittleEndianValue;
    var size := (BitLen(mag) + 7) / 8;
    MagSize(mag);
    ReversedMagnitude(mag);
    var m := ShiftRightBytes(ReverseBytes64(mag), 8 - size);
    ghost var s := Mag(mag);
    r := [];
    while |r| < size
      invariant |r| <= size == |Mag(mag)|
      invariant m == LittleEndianValue(s)
      invariant Mag(mag) == r + s
    {
      LowByte(s);
      assert r + s == (r + [s[0]]) + s[1..];
      r := r + [m % 256];
      s := s[1..];
      m := m / 256;
    }
    assert s == [];
    r := [tag * 16 + size] + r;
  }

  // ----------------------------------------------------------------------- readers

  /** `ReadInt`: negative integers have their own type; both kinds must fit in an int64. */
  function ReadInt(msg: bytes): Option<(int, bytes)>
    requires |msg| > 0
  {
    var t := TypeOf(msg);
    if t < UINT_TYPE || t > INT_TYPE then None
    else match Contents(msg)
      case None => None
      case Some(Split(body, rest)) =>
        if |body| > 8 then None
        else
          var mag := ReadMag(body);
          if mag > (if t == INT_TYPE then TWO63 else TWO63 - 1) then None
          else Some((if t == INT_TYPE then 0 - mag else mag, rest))
  }

  function ReadUint(msg: bytes): Option<(nat, bytes)>
    requires |msg| > 0
  {
    if TypeOf(msg) != UINT_TYPE then None
    else match Contents(msg)
      case None => None
      case Some(Split(body, rest)) => if |body| > 8 then None else Some((ReadMag(body), rest))
  }

  function ReadSymbol(msg: bytes): Option<(nat, bytes)>
    requires |msg| > 0
  {
    if TypeOf(msg) != SYMBOL_TYPE then None
    else match Contents(msg)
      case None => None
      case Some(Split(body, rest)) => if |body| > 4 then None else Some((ReadMag(body), rest))
  }

  /** The bytes WriteInt produces. */
  function IntBytes(i: int): bytes {
    if i < 0 then Tlv(INT_TYPE, Mag(-i)) else Tlv(UINT_TYPE, Mag(i))
  }

  /** Every int64 reads back as itself with the remainder untouched. */
  lemma IntRoundTrip(i: int, rest: bytes)
    requires -TWO63 <= i < TWO63
    ensures ReadInt(IntBytes(i) + rest) == Some((i, rest))
    ensures IsAtom(IntBytes(i))
  {
    hide ReadMag, Mag, Tlv, Contents, SizeOf;
    var mag := if i < 0 then -i else i;
    var tag := if i < 0 then INT_TYPE else UINT_TYPE;
    MagOfWord(mag);
    TlvFraming(tag, Mag(mag), rest);
    TlvFraming(tag, Mag(mag), []);
    assert Tlv(tag, Mag(mag)) + [] == Tlv(tag, Mag(mag));
    MagRoundTrip(mag);
  }

  /** Every uint64 reads back as itself with the remainder untouched. */
  lemma UintRoundTrip(u: nat, rest: bytes)
    requires u < TWO64
    ensures ReadUint(Tlv(UINT_TYPE, Mag(u)) + rest) == Some((u, rest))
    ensures IsAtom(Tlv(UINT_TYPE, Mag(u)))
  {
    hide ReadMag, Mag, Tlv, Contents, SizeOf;
    MagOfWord(u);
    TlvFraming(UINT_TYPE, Mag(u), rest);
    TlvFraming(UINT_TYPE, Mag(u), []);
    assert Tlv(UINT_TYPE, Mag(u)) + [] == Tlv(UINT_TYPE, Mag(u));
    MagRoundTrip(u);
  }

  lemma SymbolRoundTrip(id: nat, rest: bytes)
    requires id < SYMBOL_LIMIT
    ensures ReadSymbol(Enc(Sym(id)) + rest) == Some((id, rest))
  {
    hide ReadMag, Mag, Tlv, Contents;
    SymbolFits(id);
    TlvFraming(SYMBOL_TYPE, Mag(id), rest);
    MagRoundTrip(id);
  }
}
