/** NOP padding: `UnsafeWriteUVarint`, `NopPadding`, `noppad`, working in place on a block. */
module IonPad {
  import opened IonCodec
  import opened IonTree
  import opened IonNormal

  /** A stretch of bytes that readers skip as a run of NOP pads. */
  predicate IsPads(s: bytes)
    decreases |s|
  {
    s == [] ||
    (TypeOf(s) == NULL_TYPE && 0 < SizeOf(s) <= |s| && IsPads(s[SizeOf(s)..]))
  }

  lemma {:induction false} PadsAppend(a: bytes, b: bytes)
    requires IsPads(a) && IsPads(b)
    ensures IsPads(a + b)
    decreases |a|
  {
    if a == [] {
      assert a + b == b;
    } else {
      var n := SizeOf(a);
      SizeOfIgnoresTail(a, b);
      assert (a + b)[n..] == a[n..] + b;
      PadsAppend(a[n..], b);
    }
  }

  // --------------------------------------------------------------- choosing the size

  /** Payload announced by NopPadding for a stretch of padsize bytes. */
  function PadPayload(padsize: nat): nat
    requires padsize > 0
  {
    var p := padsize - 1;
    if p < 14 then p
    else
      PayloadFits(p);
      var size1 := Uvsize(p);
      var size2 := Uvsize(p - size1);
      if size1 == size2 then p - size1 else p - size1 - 1
  }

  function PadHeader(padsize: nat): bytes
    requires padsize > 0
  {
    if padsize - 1 < 14 then [padsize - 1] else [0x0e] + Uv(PadPayload(padsize))
  }

  lemma {:induction false} PayloadFits(p: nat)
    requires p >= 14
    ensures Uvsize(p) + 1 <= p
    decreases p
  {
    UvsizeIsLength(p);
    if p >= 128 {
      UvsizeIsLength(p / 128);
      if p / 128 >= 14 {
        PayloadFits(p / 128);
      }
    }
  }

  /** Header and payload never exceed the stretch. */
  lemma PadWithin(padsize: nat)
    requires padsize > 0
    ensures 1 <= |PadHeader(padsize)| + PadPayload(padsize) <= padsize
  {
    hide Uv, BitLen;
    var p := padsize - 1;
    if p >= 14 {
      PayloadFits(p);
      var size1 := Uvsize(p);
      var q := PadPayload(padsize);
      UvsizeIsLength(p);
      UvsizeIsLength(p - size1);
      UvLengthMonotone(p - size1, p);
      UvLengthMonotone(q, p - size1);
    }
  }

  /** Whatever the payload bytes are, the result is one pad that SizeOf skips exactly. */
  lemma PadIsSkipped(padsize: nat, payload: bytes)
    requires 0 < padsize < UV_LIMIT && |payload| == PadPayload(padsize)
    ensures IsPads(PadHeader(padsize) + payload)
  {
    hide Uv, BitLen, SizeOf;
    PadWithin(padsize);
    if padsize - 1 < 14 {
      ShortPad([padsize - 1], payload);
    } else {
      LongPad(payload);
    }
  }

  lemma ShortPad(head: bytes, payload: bytes)
    requires |head| == 1 && head[0] == |payload| < 14
    ensures IsPads(head + payload)
  {
    hide IsPads;
    OnePad(head + payload);
  }

  lemma LongPad(payload: bytes)
    requires |payload| < UV_LIMIT
    ensures IsPads([0x0e] + Uv(|payload|) + payload)
  {
    hide Uv, ReadUv, IsPads;
    var s := [0x0e] + Uv(|payload|) + payload;
    assert s[1..] == Uv(|payload|) + payload;
    UvRoundTrip(|payload|, payload);
    OnePad(s);
  }

  lemma OnePad(s: bytes)
    requires |s| > 0 && TypeOf(s) == NULL_TYPE && SizeOf(s) == |s|
    ensures IsPads(s)
  {
    assert s[|s|..] == [];
  }

  // ------------------------------------------------------------------- in-place writes

  /** `UnsafeWriteUVarint` into dst at position at. */
  method WriteUVarint(dst: array<byte>, at: nat, uv: nat) returns (n: nat)
    requires at + |Uv(uv)| <= dst.Length
    modifies dst
    ensures n == |Uv(uv)|
    ensures forall i :: 0 <= i < n ==> dst[at + i] == Uv(uv)[i]
    ensures forall i :: 0 <= i < dst.Length && !(at <= i < at + n) ==> dst[i] == old(dst[i])
  {
    UvsizeIsLength(uv);
    n := Uvsize(uv);
    var v := uv;
    ghost var digits := Uv(uv);
    var off := n - 1;
    dst[at + off] := v % 128 + 128;
    UvFront(uv);
    hide Uv, UvDigits, BitLen;
    while off > 0
      invariant 0 <= off < n
      invariant off > 0 ==> digits[..off] == UvDigits(v / 128)
      invariant forall i :: 0 <= i < dst.Length && !(at + off <= i < at + n) ==> dst[i] == old(dst[i])
      invariant forall i :: off <= i < n ==> dst[at + i] == digits[i]
    {
      off := off - 1;
      v := v / 128;
      DigitsFront(v, digits, off);
      dst[at + off] := v % 128;
    }
  }

  lemma UvFront(v: nat)
    ensures |Uv(v)| > 1 ==> v >= 128 && Uv(v)[..|Uv(v)| - 1] == UvDigits(v / 128)
    ensures Uv(v)[|Uv(v)| - 1] == v % 128 + 128
  {
  }

  lemma DigitsFront(v: nat, digits: bytes, off: nat)
    requires off < |digits| && digits[..off + 1] == UvDigits(v)
    ensures digits[off] == v % 128
    ensures off > 0 ==> digits[..off] == UvDigits(v / 128)
  {
    assert digits[..off + 1][off] == digits[off];
    assert digits[..off + 1][..off] == digits[..off];
  }

  /** `NopPadding(dst[at:], padsize)`: writes the header only; the payload stays as it was. */
  method NopPadding(dst: array<byte>, at: nat, padsize: nat) returns (wrote: nat, padded: nat)
    requires 0 < padsize && at + padsize <= dst.Length
    modifies dst
    ensures wrote == |PadHeader(padsize)| && padded == PadPayload(padsize) && wrote + padded <= padsize
    ensures forall i :: 0 <= i < wrote ==> dst[at + i] == PadHeader(padsize)[i]
    ensures forall i :: 0 <= i < dst.Length && !(at <= i < at + wrote) ==> dst[i] == old(dst[i])
  {
    hide Uv, BitLen, PadHeader, PadPayload, Uvsize;
    PadWithin(padsize);
    PadIs(padsize);
    var p := padsize - 1;
    if p < 14 {
      dst[at] := p;
      wrote, padded := 1, p;
    } else {
      PayloadFits(p);
      var size1 := Uvsize(p);
      var size2 := Uvsize(p - size1);
      padded := if size1 == size2 then p - size1 else p - (size1 + 1);
      var n := WriteUVarint(dst, at + 1, padded);
      dst[at] := 0x0e;
      wrote := 1 + n;
      HeaderBytes(padded, n);
      forall i | 0 <= i < wrote ensures dst[at + i] == ([0x0e] + Uv(padded))[i] {
        if i > 0 { assert dst[at + 1 + (i - 1)] == Uv(padded)[i - 1]; }
      }
    }
  }

  lemma PadIs(padsize: nat)
    requires padsize > 0
    ensures padsize < 15 ==> PadHeader(padsize) == [padsize - 1] && PadPayload(padsize) == padsize - 1
    ensures padsize >= 15 ==>
      var p := padsize - 1;
      && Uvsize(p) + 1 <= p
      && PadPayload(padsize) == (if Uvsize(p) == Uvsize(p - Uvsize(p)) then p - Uvsize(p) else p - (Uvsize(p) + 1))
      && PadHeader(padsize) == [0x0e] + Uv(PadPayload(padsize))
  {
    hide Uv, Uvsize;
    if padsize >= 15 { PayloadFits(padsize - 1); }
  }

  lemma HeaderBytes(q: nat, n: nat)
    requires n == |Uv(q)|
    ensures ([0x0e] + Uv(q))[0] == 0x0e && forall i :: 1 <= i <= n ==> ([0x0e] + Uv(q))[i] == Uv(q)[i - 1]
  {
    hide Uv;
  }

  /** `noppad`: the bytes from position `from` on become a run of pads, nothing before them moves. */
  method Noppad(dst: array<byte>, from: nat)
    requires from <= dst.Length < UV_LIMIT
    modifies dst
    ensures dst[..from] == old(dst[..from])
    ensures IsPads(dst[from..])
  {
    hide IsPads, PadHeader, PadPayload;
    var off := from;
    NoPads();
    assert dst[from..off] == [];
    while off < dst.Length
      invariant from <= off <= dst.Length
      invariant forall i :: 0 <= i < from ==> dst[i] == old(dst[i])
      invariant IsPads(dst[from..off])
    {
      ghost var left := dst.Length - off;
      ghost var before := dst[from..off];
      PadWithin(left);
      var wrote, padded := NopPadding(dst, off, dst.Length - off);
      ghost var payload := dst[off + wrote..off + wrote + padded];
      PadIsSkipped(left, payload);
      assert dst[off..off + wrote] == PadHeader(left);
      PadsAppend(before, PadHeader(left) + payload);
      assert dst[from..off + wrote + padded] == before + (PadHeader(left) + payload);
      off := off + wrote + padded;
    }
    assert dst[from..off] == dst[from..];
  }

  lemma NoPads()
    ensures IsPads([])
  {
  }
}
