/** `ion.Buffer`: values are written at the end of one byte buffer; open structs, lists and
    annotations are kept on a segment stack, headers are patched when a segment ends and
    struct fields that arrive out of order are moved into place. */
module IonBuffer {
  import opened IonCodec
  import opened IonTree
  import opened IonScalars

  // ------------------------------------------------------------- sorted field lists

  /** Index of the first field whose symbol is not below sym. */
  function Slot(fields: seq<Field>, sym: nat): (k: nat)
    ensures k <= |fields|
    ensures forall i :: 0 <= i < k ==> fields[i].sym < sym
    ensures k < |fields| ==> fields[k].sym >= sym
  {
    if fields == [] || fields[0].sym >= sym then 0 else 1 + Slot(fields[1..], sym)
  }

  /** Insertion in symbol order; a symbol that is already present keeps its first value. */
  function InsertField(fields: seq<Field>, f: Field): seq<Field> {
    var k := Slot(fields, f.sym);
    if k < |fields| && fields[k].sym == f.sym then fields
    else fields[..k] + [f] + fields[k..]
  }

  lemma InsertKeepsOrder(fields: seq<Field>, f: Field)
    requires Sorted(fields)
    ensures Sorted(InsertField(fields, f))
    ensures WFFields(fields) && WFField(f) ==> WFFields(InsertField(fields, f))
    ensures fields != [] && f.sym <= fields[|fields| - 1].sym ==>
      InsertField(fields, f) != [] && InsertField(fields, f)[|InsertField(fields, f)| - 1] == fields[|fields| - 1]
  {
    hide WFField, Slot;
    var k := Slot(fields, f.sym);
    if !(k < |fields| && fields[k].sym == f.sym) {
      InsertedInOrder(fields, f, k);
      InsertedWell(fields, f, k);
    }
  }

  lemma InsertedInOrder(fields: seq<Field>, f: Field, k: nat)
    requires Sorted(fields) && k <= |fields| && (forall i :: 0 <= i < k ==> fields[i].sym < f.sym)
    requires k < |fields| ==> f.sym < fields[k].sym
    ensures Sorted(fields[..k] + [f] + fields[k..])
    ensures k < |fields| ==> (fields[..k] + [f] + fields[k..])[|fields|] == fields[|fields| - 1]
  {
    var all := fields[..k] + [f] + fields[k..];
    forall i, j | 0 <= i < j < |all| ensures all[i].sym < all[j].sym {
      assert all[i] == if i < k then fields[i] else if i == k then f else fields[i - 1];
      assert all[j] == if j < k then fields[j] else if j == k then f else fields[j - 1];
    }
  }

  lemma InsertedWell(fields: seq<Field>, f: Field, k: nat)
    requires k <= |fields|
    ensures WFFields(fields) && WFField(f) ==> WFFields(fields[..k] + [f] + fields[k..])
  {
    hide WFField;
    var all := fields[..k] + [f] + fields[k..];
    assert forall i :: 0 <= i < |all| ==> all[i] == if i < k then fields[i] else if i == k then f else fields[i - 1];
  }

  lemma InsertAtEnd(fields: seq<Field>, f: Field)
    requires forall i :: 0 <= i < |fields| ==> fields[i].sym < f.sym
    ensures InsertField(fields, f) == fields + [f]
  {
    var k := Slot(fields, f.sym);
    assert k == |fields|;
    assert fields[..k] == fields && fields[k..] == [];
  }

  // ----------------------------------------------------------------- the open stack

  /** What a segment of the buffer stands for while it is still open. */
  datatype Frame =
    | StructFrame(fields: seq<Field>, pending: Option<nat>)
    | ListFrame(items: seq<Ion>)
    | AnnotFrame(sym: Option<nat>, val: Option<Ion>)

  /** The header bytes reserved by BeginStruct, BeginList and BeginAnnotation. */
  function Placeholder(f: Frame): (r: bytes)
    ensures 1 <= |r| <= 2
  {
    match f
    case StructFrame(_, _) => [0xde, 0]
    case ListFrame(_) => [0xb0]
    case AnnotFrame(_, _) => [0xe0, 0]
  }

  function MaybeUv(sym: Option<nat>): bytes {
    if sym.Some? then Uv(sym.value) else []
  }

  function FrameBody(f: Frame): bytes {
    match f
    case StructFrame(fields, pending) => EncFields(fields) + MaybeUv(pending)
    case ListFrame(items) => EncAll(items)
    case AnnotFrame(sym, val) => Uv(1) + MaybeUv(sym) + (if val.Some? then Enc(val.value) else [])
  }

  function FrameBytes(f: Frame): bytes { Placeholder(f) + FrameBody(f) }

  function StackBytes(base: bytes, frames: seq<Frame>): bytes {
    if frames == [] then base
    else StackBytes(base, frames[..|frames| - 1]) + FrameBytes(frames[|frames| - 1])
  }

  lemma StackPush(base: bytes, frames: seq<Frame>, f: Frame)
    ensures StackBytes(base, frames + [f]) == StackBytes(base, frames) + FrameBytes(f)
  {
    assert (frames + [f])[..|frames|] == frames;
  }

  lemma StackTop(base: bytes, frames: seq<Frame>)
    requires frames != []
    ensures StackBytes(base, frames)
         == StackBytes(base, frames[..|frames| - 1]) + FrameBytes(frames[|frames| - 1])
  {
  }

  lemma Assoc(a: bytes, b: bytes, c: bytes)
    ensures a + b + c == a + (b + c)
  {
  }

  /** A value may be written here: at top level, in a list, or after a field label. */
  predicate Ready(frames: seq<Frame>) {
    frames == [] ||
    match frames[|frames| - 1]
    case StructFrame(_, pending) => pending.Some?
    case ListFrame(_) => true
    case AnnotFrame(sym, val) => sym.Some? && val.None?
  }

  function AddTo(f: Frame, v: Ion): Frame
    requires Ready([f])
  {
    match f
    case StructFrame(fields, pending) => StructFrame(InsertField(fields, Field(pending.value, v)), None)
    case ListFrame(items) => ListFrame(items + [v])
    case AnnotFrame(sym, _) => AnnotFrame(sym, Some(v))
  }

  function AddBase(base: bytes, frames: seq<Frame>, v: Ion): bytes {
    if frames == [] then base + Enc(v) else base
  }

  function AddFrames(frames: seq<Frame>, v: Ion): seq<Frame>
    requires Ready(frames)
  {
    if frames == [] then [] else frames[..|frames| - 1] + [AddTo(frames[|frames| - 1], v)]
  }

  /** Writing a value after a label adds that field. */
  lemma FieldAdded(below: seq<Frame>, fields: seq<Field>, sym: nat, v: Ion)
    ensures var open_ := below + [StructFrame(fields, Some(sym))];
      && Ready(open_)
      && AddFrames(open_, v) == below + [StructFrame(InsertField(fields, Field(sym, v)), None)]
  {
    hide InsertField;
    assert (below + [StructFrame(fields, Some(sym))])[..|below|] == below;
  }

  lemma LabelAdded(below: seq<Frame>, fields: seq<Field>, sym: nat)
    ensures var open_ := below + [StructFrame(fields, None)];
      && AwaitsLabel(open_[|open_| - 1])
      && open_[..|open_| - 1] + [WithLabel(open_[|open_| - 1], sym)] == below + [StructFrame(fields, Some(sym))]
      && open_[..|open_| - 1] == below
  {
    assert (below + [StructFrame(fields, None)])[..|below|] == below;
  }

  lemma ItemAdded(below: seq<Frame>, items: seq<Ion>, v: Ion)
    ensures var open_ := below + [ListFrame(items)];
      && Ready(open_)
      && open_[..|open_| - 1] == below
      && AddFrames(open_, v) == below + [ListFrame(items + [v])]
  {
    assert (below + [ListFrame(items)])[..|below|] == below;
  }

  lemma StackOfNone(base: bytes)
    ensures StackBytes(base, []) == base
  {
  }

  // ------------------------------------------------------------------ the segments

  datatype SegKind = SegStruct | SegList | SegAnnotation

  /** insert.None? is the source's ^Symbol(0): the current field is in order. */
  datatype Segment = Segment(off: nat, width: nat, kind: SegKind, tail: nat, prev: nat, insert: Option<nat>)

  function KindOf(f: Frame): SegKind {
    match f
    case StructFrame(_, _) => SegStruct
    case ListFrame(_) => SegList
    case AnnotFrame(_, _) => SegAnnotation
  }

  predicate SegMatches(s: Segment, f: Frame, off: nat) {
    && s.off == off
    && s.width == |Placeholder(f)|
    && s.kind == KindOf(f)
    && (f.StructFrame? ==> FieldsMatch(s, f.fields, f.pending))
  }

  /** prev is the largest label so far; tail and insert describe the field being written. */
  predicate FieldsMatch(s: Segment, fields: seq<Field>, pending: Option<nat>) {
    && Sorted(fields) && WFFields(fields)
    && (fields == [] && pending.None? ==> s.tail == 0)
    && (fields != [] ==> s.tail > 0)
    && (fields != [] && pending.None? ==> s.prev == fields[|fields| - 1].sym)
    && (pending.Some? ==>
          && pending.value < UV_LIMIT
          && s.tail == s.off + s.width + |EncFields(fields)|
          && if fields == [] || fields[|fields| - 1].sym < pending.value
             then s.insert == None && s.prev == pending.value
             else s.insert == pending && s.prev == fields[|fields| - 1].sym)
  }

  predicate SegsMatch(base: bytes, segs: seq<Segment>, frames: seq<Frame>) {
    && |segs| == |frames|
    && forall i :: 0 <= i < |segs| ==> SegMatches(segs[i], frames[i], |StackBytes(base, frames[..i])|)
  }

  lemma SegsMatchPush(base: bytes, segs: seq<Segment>, frames: seq<Frame>, s: Segment, f: Frame)
    requires SegsMatch(base, segs, frames)
    requires SegMatches(s, f, |StackBytes(base, frames)|)
    ensures SegsMatch(base, segs + [s], frames + [f])
  {
    hide StackBytes, SegMatches;
    assert (frames + [f])[..|frames|] == frames;
    forall i | 0 <= i < |frames| ensures (frames + [f])[..i] == frames[..i] {}
  }

  lemma SegsMatchPop(base: bytes, segs: seq<Segment>, frames: seq<Frame>)
    requires SegsMatch(base, segs, frames) && frames != []
    ensures |segs| == |frames|
    ensures SegsMatch(base, segs[..|segs| - 1], frames[..|frames| - 1])
    ensures SegMatches(segs[|segs| - 1], frames[|frames| - 1], |StackBytes(base, frames[..|frames| - 1])|)
  {
    hide StackBytes, SegMatches;
    forall i | 0 <= i < |frames| - 1 ensures frames[..|frames| - 1][..i] == frames[..i] {}
  }

  /** Go's `copy(buf[at:], src)`. */
  function Copy(buf: bytes, at: nat, src: bytes): (r: bytes)
    requires at <= |buf|
    ensures |r| == |buf|
  {
    var n := if |src| < |buf| - at then |src| else |buf| - at;
    buf[..at] + src[..n] + buf[at + n..]
  }

  // ---------------------------------------------------------------- locating a slot

  datatype Place = Before(at: nat) | Duplicate

  /** One turn of the scan: label, value and remainder of the k-th encoded field. */
  lemma ScanStep(fields: seq<Field>, k: nat)
    requires k < |fields| && WFFields(fields)
    ensures var rest := EncFields(fields[k..]);
      var used := |Uv(fields[k].sym)|;
      var n := |Enc(fields[k].val)|;
      && ReadUv(rest) == UvOk(fields[k].sym, used)
      && used <= |rest| && SizeOf(rest[used..]) == n
      && used + n <= |rest| && rest[used..][n..] == EncFields(fields[k + 1..])
  {
    var f := fields[k];
    var tail := EncFields(fields[k + 1..]);
    assert WFField(f) && fields[k..][0] == f && fields[k..][1..] == fields[k + 1..];
    var rest := EncFields(fields[k..]);
    assert rest == EncField(f) + tail;
    assert rest == Uv(f.sym) + (Enc(f.val) + tail);
    UvRoundTrip(f.sym, Enc(f.val) + tail);
    EncFraming(f.val, tail);
  }

  lemma EncFieldsSplit(fields: seq<Field>, k: nat)
    requires k <= |fields|
    ensures EncFields(fields) == EncFields(fields[..k]) + EncFields(fields[k..])
  {
    hide EncFields;
    EncFieldsAppend(fields[..k], fields[k..]);
    assert fields == fields[..k] + fields[k..];
  }

  /** The scan of `shift` over the encoded fields: where the field with this symbol belongs. */
  method FindSlot(mem: bytes, insert: nat, ghost fields: seq<Field>) returns (r: Place)
    requires mem == EncFields(fields) && WFFields(fields)
    requires fields != [] && insert <= fields[|fields| - 1].sym
    ensures var k := Slot(fields, insert);
      && k < |fields|
      && (r.Duplicate? <==> fields[k].sym == insert)
      && (r.Before? ==> r.at == |EncFields(fields[..k])|)
  {
    ghost var k := 0;
    var rest := mem;
    assert fields[0..] == fields;
    while |rest| > 0
      invariant 0 <= k < |fields|
      invariant rest == EncFields(fields[k..])
      invariant forall i :: 0 <= i < k ==> fields[i].sym < insert
      decreases |rest|
    {
      ScanStep(fields, k);
      var u := ScanUv(rest);
      var val := rest[u.used..];
      if u.value >= insert {
        SlotIs(fields, insert, k);
        EncFieldsSplit(fields, k);
        return if u.value == insert then Duplicate else Before(|mem| - |rest|);
      }
      var n := ComputeSizeOf(val);
      rest := val[n..];
      k := k + 1;
    }
    EncFieldsNonEmpty(fields[k..]);
    assert false;
  }

  lemma EncFieldsNonEmpty(fields: seq<Field>)
    requires fields != []
    ensures |EncFields(fields)| > 0
  {
  }

  lemma {:induction false} SlotIs(fields: seq<Field>, sym: nat, k: nat)
    requires k < |fields| && fields[k].sym >= sym
    requires forall i :: 0 <= i < k ==> fields[i].sym < sym
    ensures Slot(fields, sym) == k
  {
  }

  lemma SlotOfLast(fields: seq<Field>)
    requires fields != [] && Sorted(fields)
    ensures Slot(fields, fields[|fields| - 1].sym) == |fields| - 1
  {
    SlotIs(fields, fields[|fields| - 1].sym, |fields| - 1);
  }

  lemma EncFieldsSplice(a: seq<Field>, f: Field, b: seq<Field>)
    ensures EncFields(a + [f] + b) == EncFields(a) + EncField(f) + EncFields(b)
  {
    EncFieldsAppend(a + [f], b);
    EncFieldsSnoc(a, f);
  }

  /** The out-of-order part of `shift`: the field at the end of buf is moved to its slot,
      or dropped when its symbol is already there. */
  method PlaceField(buf: bytes, s: Segment, ghost front: bytes, ghost fields: seq<Field>, ghost f: Field)
    returns (r: bytes)
    requires buf == front + EncFields(fields) + EncField(f) && |front| == s.off + s.width
    requires FieldsMatch(s, fields, Some(f.sym)) && s.insert.Some?
    ensures r == front + EncFields(InsertField(fields, f))
  {
    hide EncField, EncFields, WFFields, Sorted, Copy;
    MiddleSlice(front, EncFields(fields), EncField(f));
    if s.insert.value == s.prev {
      SlotOfLast(fields);
      return buf[..s.tail];
    }
    var mem := buf[s.off + s.width..s.tail];
    var place := FindSlot(mem, s.insert.value, fields);
    if place.Duplicate? {
      return buf[..s.tail];
    }
    ghost var k := Slot(fields, f.sym);
    EncFieldsSplit(fields, k);
    EncFieldsSplice(fields[..k], f, fields[k..]);
    var target := s.off + s.width + place.at;
    MoveIntoPlace(front, EncFields(fields[..k]), EncFields(fields[k..]), EncField(f));
    var tmp := buf[s.tail..];
    r := Copy(buf, target + |tmp|, buf[target..]);
    r := Copy(r, target, tmp);
  }

  lemma MiddleSlice(a: bytes, b: bytes, c: bytes)
    ensures (a + b + c)[|a|..|a| + |b|] == b
    ensures (a + b + c)[..|a| + |b|] == a + b
  {
  }

  lemma CopyToEnd(a: bytes, b: bytes, src: bytes)
    requires |src| >= |b|
    ensures Copy(a + b, |a|, src) == a + src[..|b|]
  {
  }

  lemma CopyOver(a: bytes, b: bytes, c: bytes, src: bytes)
    requires |src| == |b|
    ensures Copy(a + b + c, |a|, src) == a + src + c
  {
    var buf := a + b + c;
    assert buf[..|a|] == a && buf[|a| + |b|..] == c && src[..|b|] == src;
  }

  lemma Regroup(a: bytes, b: bytes, c: bytes, d: bytes)
    ensures a + (b + c) + d == (a + b) + (c + d)
    ensures (a + b) + c + d == a + (b + c + d)
  {
  }

  lemma CopyTwice(p: bytes, back: bytes, item: bytes)
    ensures var q := back + item;
      Copy(Copy(p + q, |p| + |item|, q), |p|, item) == p + item + back
  {
    hide Copy;
    var q := back + item;
    var head, last := q[..|item|], q[|item|..];
    assert q == head + last && |last| == |back|;
    Assoc(p, head, last);
    CopyToEnd(p + head, last, q);
    assert q[..|back|] == back;
    CopyOver(p, head, back, item);
  }

  /** Two overlapping copies carry the item at the end of the buffer in front of `back`. */
  lemma MoveIntoPlace(front: bytes, lower: bytes, back: bytes, item: bytes)
    ensures var buf := front + (lower + back) + item;
      var target := |front| + |lower|;
      && buf[target..] == back + item
      && buf[target + |back|..] == item
      && Copy(Copy(buf, target + |item|, back + item), target, item) == front + (lower + item + back)
  {
    hide Copy;
    Regroup(front, lower, back, item);
    Regroup(front, lower, item, back);
    CopyTwice(front + lower, back, item);
    TailOf(front + lower, back, item);
  }

  lemma TailOf(a: bytes, b: bytes, c: bytes)
    ensures (a + (b + c))[|a|..] == b + c
    ensures (a + (b + c))[|a| + |b|..] == c
  {
  }

  lemma AddInOrder(s: Segment, f: Frame, off: nat, v: Ion)
    requires SegMatches(s, f, off) && Ready([f])
    requires s.kind != SegStruct || s.insert.None?
    ensures FrameBytes(AddTo(f, v)) == FrameBytes(f) + Enc(v)
  {
    hide Enc, EncFields, EncAll, WFFields, InsertField, Uv;
    match f
    case StructFrame(fields, pending) =>
      var g := Field(pending.value, v);
      InsertAtEnd(fields, g);
      EncFieldsSnoc(fields, g);
      FieldAtEnd([0xde, 0], EncFields(fields), Uv(pending.value), Enc(v));
    case ListFrame(items) =>
      EncAllSnoc(items, v);
      Assoc([0xb0], EncAll(items), Enc(v));
    case AnnotFrame(sym, _) =>
      FieldAtEnd([0xe0, 0], Uv(1), MaybeUv(sym), Enc(v));
      assert Uv(1) + MaybeUv(sym) + [] == Uv(1) + MaybeUv(sym);
  }

  lemma FieldAtEnd(a: bytes, b: bytes, c: bytes, d: bytes)
    ensures a + (b + c) + d == a + (b + (c + d)) && a + (b + c) + d == a + (b + c + d) && b + c + [] == b + c && b + [] == b
  {
  }

  lemma PendingField(below: bytes, f: Frame, v: Ion)
    requires f.StructFrame? && f.pending.Some?
    ensures below + FrameBytes(f) + Enc(v)
         == (below + Placeholder(f)) + EncFields(f.fields) + EncField(Field(f.pending.value, v))
    ensures below + FrameBytes(AddTo(f, v))
         == (below + Placeholder(f)) + EncFields(InsertField(f.fields, Field(f.pending.value, v)))
  {
    hide EncFields, Enc;
  }

  /** A segment still describes its frame after a value has been added to it. */
  lemma SegMatchesAdd(s: Segment, f: Frame, off: nat, v: Ion)
    requires SegMatches(s, f, off) && Ready([f]) && WF(v)
    ensures SegMatches(s, AddTo(f, v), off)
  {
    hide WF, EncFields;
    if f.StructFrame? {
      InsertKeepsOrder(f.fields, Field(f.pending.value, v));
    }
  }

  lemma ReplaceTop(base: bytes, segs: seq<Segment>, frames: seq<Frame>, v: Ion)
    requires SegsMatch(base, segs, frames) && frames != [] && Ready(frames) && WF(v)
    ensures SegsMatch(base, segs, AddFrames(frames, v))
    ensures StackBytes(base, AddFrames(frames, v))
         == StackBytes(base, frames[..|frames| - 1]) + FrameBytes(AddTo(frames[|frames| - 1], v))
  {
    hide Enc, EncFields, EncAll, WF, FrameBytes, FrameBody, StackBytes, SegMatches, SegsMatch, AddTo;
    var n := |frames| - 1;
    var next := AddTo(frames[n], v);
    SegsMatchPop(base, segs, frames);
    SegMatchesAdd(segs[n], frames[n], |StackBytes(base, frames[..n])|, v);
    StackPush(base, frames[..n], next);
    SegsMatchPush(base, segs[..n], frames[..n], segs[n], next);
    assert segs == segs[..n] + [segs[n]];
  }

  // --------------------------------------------------------------------- the class

  class Buffer {
    var buf: bytes
    var segs: seq<Segment>
    ghost var base: bytes          // everything before the outermost open segment
    ghost var frames: seq<Frame>   // what the open segments stand for

    ghost predicate Valid()
      reads this
    {
      buf == StackBytes(base, frames) && SegsMatch(base, segs, frames)
    }

    constructor ()
      ensures Valid() && buf == [] && base == [] && frames == []
    {
      buf, segs, base, frames := [], [], [], [];
    }

    /** `Set`: take over a buffer with nothing open in it. */
    method Set(p: bytes)
      modifies this
      ensures Valid() && buf == p && base == p && frames == []
    {
      buf, segs, base, frames := p, [], p, [];
    }

    /** Called with one complete value v just appended: `shift` puts it where it belongs. */
    method Shift(ghost v: Ion)
      requires Ready(frames) && WF(v)
      requires SegsMatch(base, segs, frames)
      requires buf == StackBytes(base, frames) + Enc(v)
      modifies this
      ensures Valid()
      ensures base == AddBase(old(base), old(frames), v)
      ensures frames == AddFrames(old(frames), v)
    {
      hide Enc, EncFields, EncAll, EncField, WF, FieldsMatch, FrameBytes, FrameBody, InsertField, Slot;
      if |segs| == 0 {
        base := base + Enc(v);
        return;
      }
      var s := segs[|segs| - 1];
      ghost var n := |frames| - 1;
      ghost var top := frames[n];
      ghost var below := StackBytes(base, frames[..n]);
      SegsMatchPop(base, segs, frames);
      ReplaceTop(base, segs, frames, v);
      StackTop(base, frames);
      hide StackBytes, SegsMatch, AddTo;
      if s.kind != SegStruct || s.insert.None? {
        AddInOrder(s, top, |below|, v);
        Assoc(below, FrameBytes(top), Enc(v));
      } else {
        PendingField(below, top, v);
        buf := PlaceField(buf, s, below + Placeholder(top), top.fields, Field(top.pending.value, v));
      }
      frames := AddFrames(frames, v);
    }

    /** Every write method ends this way: the bytes of one value, then `shift`. */
    method Emit(raw: bytes, ghost v: Ion)
      requires Valid() && Ready(frames) && WF(v) && raw == Enc(v)
      modifies this
      ensures Valid()
      ensures base == AddBase(old(base), old(frames), v)
      ensures frames == AddFrames(old(frames), v)
    {
      buf := buf + raw;
      Shift(v);
    }

    method WriteNull()
      requires Valid() && Ready(frames)
      modifies this
      ensures Valid()
      ensures base == AddBase(old(base), old(frames), Atom([0x0f]))
      ensures frames == AddFrames(old(frames), Atom([0x0f]))
    {
      Emit([0x0f], Atom([0x0f]));
    }

    method WriteBool(n: bool)
      requires Valid() && Ready(frames)
      modifies this
      ensures Valid()
      ensures base == AddBase(old(base), old(frames), Atom([if n then 0x11 else 0x10]))
      ensures frames == AddFrames(old(frames), Atom([if n then 0x11 else 0x10]))
    {
      var bt := 0x10;
      if n { bt := bt + 1; }
      Emit([bt], Atom([bt]));
    }

    method WriteInt(i: int)
      requires Valid() && Ready(frames) && -TWO63 <= i < TWO63
      modifies this
      ensures Valid()
      ensures base == AddBase(old(base), old(frames), Atom(IntBytes(i)))
      ensures frames == AddFrames(old(frames), Atom(IntBytes(i)))
    {
      IntRoundTrip(i, []);
      var raw := WriteMag(if i < 0 then 0 - i else i, if i < 0 then INT_TYPE else UINT_TYPE);
      Emit(raw, Atom(IntBytes(i)));
    }

    method WriteUint(u: nat)
      requires Valid() && Ready(frames) && u < TWO64
      modifies this
      ensures Valid()
      ensures base == AddBase(old(base), old(frames), Atom(Tlv(UINT_TYPE, Mag(u))))
      ensures frames == AddFrames(old(frames), Atom(Tlv(UINT_TYPE, Mag(u))))
    {
      UintRoundTrip(u, []);
      var raw := WriteMag(u, UINT_TYPE);
      Emit(raw, Atom(Tlv(UINT_TYPE, Mag(u))));
    }

    method WriteSymbol(id: nat)
      requires Valid() && Ready(frames) && id < SYMBOL_LIMIT
      modifies this
      ensures Valid()
      ensures base == AddBase(old(base), old(frames), Sym(id))
      ensures frames == AddFrames(old(frames), Sym(id))
    {
      var raw := WriteMag(id, SYMBOL_TYPE);
      Emit(raw, Sym(id));
    }

    /** `WriteString`, `WriteStringBytes`. */
    method WriteString(s: bytes)
      requires Valid() && Ready(frames) && |s| < UV_LIMIT
      modifies this
      ensures Valid()
      ensures base == AddBase(old(base), old(frames), Str(s))
      ensures frames == AddFrames(old(frames), Str(s))
    {
      var head: bytes := [0x8e];
      if |s| < 14 {
        head := [0x80 + |s|];
      } else {
        var uv := PutUv(|s|);
        head := [0x8e] + uv;
      }
      Emit(head + s, Str(s));
    }

    /** `UnsafeAppend` outside any container: any bytes, taken as they are. */
    method AppendRaw(raw: bytes)
      requires Valid() && frames == []
      modifies this
      ensures Valid() && frames == [] && buf == old(buf) + raw
    {
      buf := buf + raw;
      base := buf;
    }

    /** `UnsafeAppend` of exactly one datum. */
    method UnsafeAppend(raw: bytes, ghost v: Ion)
      requires Valid() && Ready(frames) && WF(v) && raw == Enc(v)
      modifies this
      ensures Valid()
      ensures base == AddBase(old(base), old(frames), v)
      ensures frames == AddFrames(old(frames), v)
    {
      Emit(raw, v);
    }

    method BeginStruct()
      requires Valid() && Ready(frames)
      modifies this
      ensures Valid() && base == old(base)
      ensures frames == old(frames) + [StructFrame([], None)]
    {
      PushFrame(Segment(|buf|, 2, SegStruct, 0, 0, Some(0)), [0xde, 0], StructFrame([], None));
    }

    method BeginList()
      requires Valid() && Ready(frames)
      modifies this
      ensures Valid() && base == old(base)
      ensures frames == old(frames) + [ListFrame([])]
    {
      PushFrame(Segment(|buf|, 1, SegList, 0, 0, Some(0)), [0xb0], ListFrame([]));
    }

    /** `BeginAnnotation(1)`. */
    method BeginAnnotation()
      requires Valid() && Ready(frames)
      modifies this
      ensures Valid() && base == old(base)
      ensures frames == old(frames) + [AnnotFrame(None, None)]
    {
      var n := PutUv(1);
      PushFrame(Segment(|buf|, 2, SegAnnotation, 0, 0, None), [0xe0, 0] + n, AnnotFrame(None, None));
    }

    method PushFrame(s: Segment, raw: bytes, ghost f: Frame)
      requires Valid() && raw == FrameBytes(f) && SegMatches(s, f, |buf|)
      modifies this
      ensures Valid() && base == old(base) && frames == old(frames) + [f]
    {
      hide FrameBytes, SegMatches;
      StackPush(base, frames, f);
      SegsMatchPush(base, segs, frames, s, f);
      segs := segs + [s];
      buf := buf + raw;
      frames := frames + [f];
    }

    /** A label inside a struct (in any order), or the label of an annotation. */
    method BeginField(sym: nat)
      requires Valid() && frames != [] && sym < UV_LIMIT
      requires AwaitsLabel(frames[|frames| - 1])
      modifies this
      ensures Valid() && base == old(base)
      ensures frames == old(frames)[..|old(frames)| - 1] + [WithLabel(old(frames)[|old(frames)| - 1], sym)]
    {
      hide StackBytes, SegMatches, FrameBytes;
      SegsMatchPop(base, segs, frames);
      ghost var n := |frames| - 1;
      var s := segs[|segs| - 1];
      assert frames[..n] + [frames[n]] == frames;
      LabelSegment(s, frames[n], base, frames[..n], sym, |buf|);
      LabelBytes(base, frames, sym);
      if s.tail == 0 || sym > s.prev {
        s := s.(prev := sym, insert := None);
      } else {
        s := s.(insert := Some(sym));
      }
      s := s.(tail := |buf|);
      SegsMatchPush(base, segs[..n], frames[..n], s, WithLabel(frames[n], sym));
      var lbl := PutUv(sym);
      segs := segs[..|segs| - 1] + [s];
      buf := buf + lbl;
      frames := frames[..n] + [WithLabel(frames[n], sym)];
    }

    method EndStruct()
      requires Valid() && frames != []
      requires var f := frames[|frames| - 1];
        f.StructFrame? && f.pending.None? && WF(Struct(f.fields))
      requires Ready(frames[..|frames| - 1])
      modifies this
      ensures Valid()
      ensures base == AddBase(old(base), old(frames)[..|old(frames)| - 1], Struct(old(frames)[|old(frames)| - 1].fields))
      ensures frames == AddFrames(old(frames)[..|old(frames)| - 1], Struct(old(frames)[|old(frames)| - 1].fields))
    {
      PopFrame(Struct(frames[|frames| - 1].fields));
    }

    method EndList()
      requires Valid() && frames != []
      requires var f := frames[|frames| - 1]; f.ListFrame? && WF(List(f.items))
      requires Ready(frames[..|frames| - 1])
      modifies this
      ensures Valid()
      ensures base == AddBase(old(base), old(frames)[..|old(frames)| - 1], List(old(frames)[|old(frames)| - 1].items))
      ensures frames == AddFrames(old(frames)[..|old(frames)| - 1], List(old(frames)[|old(frames)| - 1].items))
    {
      PopFrame(List(frames[|frames| - 1].items));
    }

    method EndAnnotation()
      requires Valid() && frames != []
      requires var f := frames[|frames| - 1];
        f.AnnotFrame? && f.sym.Some? && f.val.Some? && WF(Annot(f.sym.value, f.val.value))
      requires Ready(frames[..|frames| - 1])
      modifies this
      ensures Valid()
      ensures var f := old(frames)[|old(frames)| - 1];
        && base == AddBase(old(base), old(frames)[..|old(frames)| - 1], Annot(f.sym.value, f.val.value))
        && frames == AddFrames(old(frames)[..|old(frames)| - 1], Annot(f.sym.value, f.val.value))
    {
      PopFrame(Annot(frames[|frames| - 1].sym.value, frames[|frames| - 1].val.value));
    }

    /** Patch the header of the innermost segment and hand the finished value to its parent. */
    method PopFrame(ghost v: Ion)
      requires Valid() && frames != [] && Ready(frames[..|frames| - 1])
      requires WF(v) && Closes(frames[|frames| - 1], v)
      modifies this
      ensures Valid()
      ensures base == AddBase(old(base), old(frames)[..|old(frames)| - 1], v)
      ensures frames == AddFrames(old(frames)[..|old(frames)| - 1], v)
    {
      hide Enc, EncFields, EncAll, WF, FrameBody, Ready, Tlv, Header, StackBytes, SegsMatch, Closes, FieldsMatch;
      SegsMatchPop(base, segs, frames);
      ghost var n := |frames| - 1;
      ghost var top := frames[n];
      var s := segs[|segs| - 1];
      ClosedBytes(top, v);
      StackTop(base, frames);
      segs := segs[..|segs| - 1];
      buf := Term(buf, s.off, s.width, StackBytes(base, frames[..n]), Placeholder(top), FrameBody(top));
      frames := frames[..n];
      Shift(v);
    }
  }

  predicate AwaitsLabel(f: Frame) {
    match f
    case StructFrame(_, pending) => pending.None?
    case ListFrame(_) => false
    case AnnotFrame(sym, val) => sym.None? && val.None?
  }

  function WithLabel(f: Frame, sym: nat): Frame
    requires AwaitsLabel(f)
  {
    match f
    case StructFrame(fields, _) => StructFrame(fields, Some(sym))
    case AnnotFrame(_, val) => AnnotFrame(Some(sym), val)
  }

  lemma LabelBytes(base: bytes, frames: seq<Frame>, sym: nat)
    requires frames != [] && AwaitsLabel(frames[|frames| - 1])
    ensures var n := |frames| - 1;
      StackBytes(base, frames[..n] + [WithLabel(frames[n], sym)]) == StackBytes(base, frames) + Uv(sym)
  {
    hide StackBytes, FrameBytes, WithLabel;
    var n := |frames| - 1;
    StackPush(base, frames[..n], WithLabel(frames[n], sym));
    StackTop(base, frames);
    LabelFrame(frames[n], sym);
    Assoc(StackBytes(base, frames[..n]), FrameBytes(frames[n]), Uv(sym));
  }

  lemma LabelFrame(f: Frame, sym: nat)
    requires AwaitsLabel(f)
    ensures FrameBytes(WithLabel(f, sym)) == FrameBytes(f) + Uv(sym)
  {
    hide Uv, EncFields;
  }

  /** What BeginField records in the segment fits the frame with its new label. */
  lemma LabelSegment(s: Segment, f: Frame, base: bytes, below: seq<Frame>, sym: nat, size: nat)
    requires SegMatches(s, f, |StackBytes(base, below)|) && AwaitsLabel(f) && sym < UV_LIMIT
    requires size == |StackBytes(base, below + [f])|
    ensures var inOrder := s.tail == 0 || sym > s.prev;
      var t := s.(prev := if inOrder then sym else s.prev, insert := if inOrder then None else Some(sym), tail := size);
      SegMatches(t, WithLabel(f, sym), |StackBytes(base, below)|)
  {
    hide StackBytes, EncFields, WFFields, Uv;
    StackPush(base, below, f);
  }

  /** v is what ending this frame writes. */
  predicate Closes(f: Frame, v: Ion) {
    match f
    case StructFrame(fields, pending) => pending.None? && v == Struct(fields)
    case ListFrame(items) => v == List(items)
    case AnnotFrame(sym, val) => sym.Some? && val.Some? && v == Annot(sym.value, val.value)
  }

  lemma ClosedBytes(f: Frame, v: Ion)
    requires Closes(f, v)
    ensures !v.Atom? && Enc(v) == Tlv(Tag(v), Body(v))
    ensures Body(v) == FrameBody(f) && Placeholder(f)[0] / 16 == Tag(v)
  {
    hide EncFields, EncAll, Tlv;
    match f
    case StructFrame(fields, _) =>
      assert EncFields(fields) + [] == EncFields(fields);
    case ListFrame(_) =>
    case AnnotFrame(_, _) =>
  }

  /** `term`: shrink or widen the reserved header to what the final size needs. */
  method Term(buf: bytes, off: nat, width: nat, ghost below: bytes, ghost header: bytes, ghost body: bytes)
    returns (r: bytes)
    requires buf == below + (header + body)
    requires off == |below| && 1 <= width == |header|
    ensures r == below + Tlv(header[0] / 16, body)
  {
    hide Uv, Copy;
    ThreeParts(below, header, body);
    var tag := buf[off] / 16;
    var size := |buf| - (off + width);
    assert width == 1 ==> header == [header[0]];
    if size < 14 {
      r := buf;
      if width > 1 {
        ShrinkHeader(below, header, body);
        r := Copy(r, off + 1, r[off + width..]);
        r := r[..off + 1 + size];
      }
      FirstByte(below, header[0], body, tag * 16 + size);
      r := r[off := tag * 16 + size];
    } else {
      r := TermLong(buf, off, width, below, header, body);
    }
  }

  lemma FirstByte(below: bytes, was: byte, body: bytes, b: byte)
    ensures (below + ([was] + body))[|below| := b] == below + ([b] + body)
  {
  }

  method TermLong(buf: bytes, off: nat, width: nat, ghost below: bytes, ghost header: bytes, ghost body: bytes)
    returns (r: bytes)
    requires buf == below + (header + body) && |body| >= 14
    requires off == |below| && 1 <= width == |header|
    ensures r == below + Tlv(header[0] / 16, body)
  {
    hide Uv;
    ThreeParts(below, header, body);
    var tag := buf[off] / 16;
    var size := |buf| - (off + width);
    UvsizeIsLength(size);
    var need := Uvsize(size) + 1;
    r := buf;
    if width != need {
      r := Resize(r, off, width, need, below, header, body);
    }
    var uv := FillUv(size, need - 1);
    ghost var gap := r[off..off + need];
    ThreeSlices(r, below, body, need);
    CopyOver(below, gap, body, [tag * 16 + 14] + uv);
    r := Copy(r, off, [tag * 16 + 14] + uv);
    Assoc(below, [tag * 16 + 14] + uv, body);
  }

  lemma ThreeSlices(r: bytes, below: bytes, body: bytes, need: nat)
    requires |r| == |below| + need + |body| && r[..|below|] == below && r[|below| + need..] == body
    ensures r == below + r[|below|..|below| + need] + body
  {
  }

  lemma ThreeParts(a: bytes, b: bytes, c: bytes)
    requires |b| >= 1
    ensures var s := a + (b + c);
      s[|a|] == b[0] && s[|a| + |b|..] == c && s[..|a|] == a && s == a + b + c
  {
  }

  lemma ShrinkHeader(below: bytes, header: bytes, body: bytes)
    requires |header| > 1
    ensures var buf := below + (header + body);
      Copy(buf, |below| + 1, body)[..|below| + 1 + |body|] == below + ([header[0]] + body)
  {
    var rest := header[1..] + body;
    var a := below + [header[0]];
    assert below + (header + body) == a + rest[..|body|] + rest[|body|..];
    CopyOver(a, rest[..|body|], rest[|body|..], body);
  }

  /** Move the body so that exactly `need` bytes are free for the header. */
  method Resize(buf: bytes, off: nat, width: nat, need: nat, ghost below: bytes, ghost header: bytes, ghost body: bytes)
    returns (r: bytes)
    requires off == |below| && width == |header| && need >= 1
    requires buf == below + (header + body)
    ensures |r| == off + need + |body|
    ensures r[..off] == below && r[off + need..] == body
  {
    r := buf;
    var w := width;
    ghost var pad: bytes := [];
    while w < need
      invariant width <= w && |pad| == w - width && (w <= need || w == width)
      invariant r == buf + pad
    {
      r := r + [0];
      pad := pad + [0];
      w := w + 1;
    }
    var src := r[off + width..];
    assert src == body + pad;
    ghost var grown := r;
    var n := if |src| < |r| - (off + need) then |src| else |r| - (off + need);
    r := Copy(r, off + need, src);
    assert src[..n] == body;
    r := r[..off + need + n];
    assert r[..off] == grown[..off] == below;
  }
}
