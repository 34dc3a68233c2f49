/** What a well-bracketed sequence of Buffer calls leaves behind. The calls are described by
    the tree they spell out, with fields in call order; the buffer holds its normal form. */
module IonNormal {
  import opened IonCodec
  import opened IonTree
  import opened IonValue
  import opened IonBuffer

  /** Fields sorted by symbol at every depth, keeping the first value written for each. */
  function Normal(v: Ion): Ion
    decreases v, 0
  {
    match v
    case List(items) => List(NormalAll(items))
    case Struct(fields) => Struct(NormalFields(fields))
    case Annot(sym, val) => Annot(sym, Normal(val))
    case _ => v
  }

  function NormalAll(items: seq<Ion>): (r: seq<Ion>)
    ensures |r| == |items|
    decreases items, 1
  {
    if items == [] then [] else NormalAll(items[..|items| - 1]) + [Normal(items[|items| - 1])]
  }

  function NormalField(f: Field): Field
    decreases f, 1
  {
    Field(f.sym, Normal(f.val))
  }

  function NormalFields(fields: seq<Field>): seq<Field>
    decreases fields, 2
  {
    if fields == [] then []
    else InsertField(NormalFields(fields[..|fields| - 1]), NormalField(fields[|fields| - 1]))
  }

  /** Values the encoding has room for; nothing about the order of fields. */
  predicate Writable(v: Ion)
    decreases v, 0
  {
    match v
    case Atom(raw) => IsAtom(raw)
    case Sym(id) => id < SYMBOL_LIMIT
    case Str(text) => |text| < UV_LIMIT
    case List(items) => (forall i :: 0 <= i < |items| ==> Writable(items[i])) && |EncAll(items)| < UV_LIMIT
    case Struct(fields) => (forall i :: 0 <= i < |fields| ==> WritableField(fields[i])) && |EncFields(fields)| < UV_LIMIT
    case Annot(sym, val) => sym < UV_LIMIT && Writable(val) && |Body(v)| < UV_LIMIT
  }

  predicate WritableField(f: Field)
    decreases f, 1
  {
    f.sym < UV_LIMIT && Writable(f.val)
  }

  // ------------------------------------------------------------------------- sizes

  lemma {:induction false} UvLengthMonotone(a: nat, b: nat)
    requires a <= b
    ensures |Uv(a)| <= |Uv(b)| && |UvDigits(a)| <= |UvDigits(b)|
    decreases b
  {
    if a >= 128 {
      UvLengthMonotone(a / 128, b / 128);
    }
  }

  lemma TlvLengthMonotone(tag: nat, a: bytes, b: bytes)
    requires tag < 16 && |a| <= |b|
    ensures |Tlv(tag, a)| <= |Tlv(tag, b)|
  {
    hide Uv;
    UvLengthMonotone(|a|, |b|);
  }

  lemma InsertSize(fields: seq<Field>, f: Field)
    ensures |EncFields(InsertField(fields, f))| <= |EncFields(fields)| + |EncField(f)|
  {
    hide EncFields, EncField;
    var k := Slot(fields, f.sym);
    EncFieldsSplit(fields, k);
    EncFieldsSplice(fields[..k], f, fields[k..]);
  }

  lemma {:induction false} NormalNotLonger(v: Ion)
    ensures |Enc(Normal(v))| <= |Enc(v)|
    ensures !v.Atom? ==> |Body(Normal(v))| <= |Body(v)|
    decreases v, 0
  {
    match v
    case List(items) =>
      NormalAllNotLonger(items);
      TlvLengthMonotone(LIST_TYPE, Body(Normal(v)), Body(v));
    case Struct(fields) =>
      NormalFieldsNotLonger(fields);
      TlvLengthMonotone(STRUCT_TYPE, Body(Normal(v)), Body(v));
    case Annot(sym, val) =>
      NormalNotLonger(val);
      TlvLengthMonotone(ANNOTATION_TYPE, Body(Normal(v)), Body(v));
    case _ =>
  }

  lemma {:induction false} NormalAllNotLonger(items: seq<Ion>)
    ensures |EncAll(NormalAll(items))| <= |EncAll(items)|
    decreases items, 1
  {
    hide EncAll, Enc, Normal;
    if items != [] {
      var init, last := items[..|items| - 1], items[|items| - 1];
      NormalAllNotLonger(init);
      NormalNotLonger(last);
      EncAllSnoc(NormalAll(init), Normal(last));
      EncAllSnoc(init, last);
      assert items == init + [last];
    }
  }

  lemma {:induction false} NormalFieldNotLonger(f: Field)
    ensures |EncField(NormalField(f))| <= |EncField(f)|
    decreases f, 1
  {
    NormalNotLonger(f.val);
  }

  lemma {:induction false} NormalFieldsNotLonger(fields: seq<Field>)
    ensures |EncFields(NormalFields(fields))| <= |EncFields(fields)|
    decreases fields, 2
  {
    hide EncFields, EncField, NormalField, InsertField;
    if fields != [] {
      var init, last := fields[..|fields| - 1], fields[|fields| - 1];
      NormalFieldsNotLonger(init);
      NormalFieldNotLonger(last);
      InsertSize(NormalFields(init), NormalField(last));
      EncFieldsSnoc(init, last);
      assert fields == init + [last];
    }
  }

  // -------------------------------------------------- sorted at every depth, decodable

  /** The normal form is well formed: labels strictly increase in every struct at every
      depth, whatever order the fields were written in. */
  lemma {:induction false} NormalIsWellFormed(v: Ion)
    requires Writable(v)
    ensures WF(Normal(v))
    decreases v, 0
  {
    NormalNotLonger(v);
    match v
    case List(items) => NormalAllWellFormed(items);
    case Struct(fields) => NormalFieldsWellFormed(fields);
    case Annot(sym, val) => NormalIsWellFormed(val);
    case _ =>
  }

  lemma {:induction false} NormalAllWellFormed(items: seq<Ion>)
    requires forall i :: 0 <= i < |items| ==> Writable(items[i])
    ensures WFAll(NormalAll(items))
    decreases items, 1
  {
    if items != [] {
      NormalAllWellFormed(items[..|items| - 1]);
      NormalIsWellFormed(items[|items| - 1]);
    }
  }

  lemma {:induction false} NormalFieldWellFormed(f: Field)
    requires WritableField(f)
    ensures WFField(NormalField(f))
    decreases f, 1
  {
    NormalIsWellFormed(f.val);
  }

  lemma {:induction false} NormalFieldsWellFormed(fields: seq<Field>)
    requires forall i :: 0 <= i < |fields| ==> WritableField(fields[i])
    ensures Sorted(NormalFields(fields)) && WFFields(NormalFields(fields))
    decreases fields, 2
  {
    if fields != [] {
      var init, last := fields[..|fields| - 1], fields[|fields| - 1];
      NormalFieldsWellFormed(init);
      NormalFieldWellFormed(last);
      InsertKeepsOrder(NormalFields(init), NormalField(last));
    }
  }

  // ------------------------------------------------------------ the first value wins

  /** The value of the first field labelled sym, in the order the fields come. */
  function FirstValue(fields: seq<Field>, sym: nat): Option<Ion> {
    if fields == [] then None
    else if fields[0].sym == sym then Some(fields[0].val)
    else FirstValue(fields[1..], sym)
  }

  lemma {:induction false} FirstValueAppend(a: seq<Field>, b: seq<Field>, sym: nat)
    ensures FirstValue(a + b, sym) == if FirstValue(a, sym).Some? then FirstValue(a, sym) else FirstValue(b, sym)
  {
    if a == [] {
      assert a + b == b;
    } else {
      assert (a + b)[1..] == a[1..] + b;
      FirstValueAppend(a[1..], b, sym);
    }
  }

  lemma {:induction false} FirstValueMissing(fields: seq<Field>, sym: nat)
    requires forall i :: 0 <= i < |fields| ==> fields[i].sym != sym
    ensures FirstValue(fields, sym).None?
  {
    if fields != [] {
      FirstValueMissing(fields[1..], sym);
    }
  }

  lemma InsertLookup(fields: seq<Field>, f: Field, sym: nat)
    requires Sorted(fields)
    ensures FirstValue(InsertField(fields, f), sym)
         == if FirstValue(fields, sym).Some? then FirstValue(fields, sym)
            else if sym == f.sym then Some(f.val) else None
  {
    hide FirstValue;
    var k := Slot(fields, f.sym);
    var a, b := fields[..k], fields[k..];
    assert fields == a + b;
    FirstValueAppend(a, b, sym);
    FirstValueOf(f, sym);
    if k < |fields| && fields[k].sym == f.sym {
      if sym == f.sym {
        FirstValueMissing(a, sym);
        FirstValueHead(b);
      }
    } else {
      if sym == f.sym {
        assert forall i :: 0 <= i < |b| ==> b[i] == fields[k + i];
        FirstValueMissing(b, sym);
        FirstValueMissing(a, sym);
      }
      FirstValueAppend(a + [f], b, sym);
      FirstValueAppend(a, [f], sym);
    }
  }

  lemma FirstValueOfNone(sym: nat)
    ensures FirstValue([], sym) == None
  {
  }

  lemma FirstValueOf(f: Field, sym: nat)
    ensures FirstValue([f], sym) == if sym == f.sym then Some(f.val) else None
  {
    assert [f][1..] == [];
  }

  lemma FirstValueHead(fields: seq<Field>)
    requires fields != []
    ensures FirstValue(fields, fields[0].sym) == Some(fields[0].val)
  {
  }

  /** For every label the normal form holds the (normal form of the) first value written. */
  lemma {:induction false} NormalKeepsFirst(fields: seq<Field>, sym: nat)
    requires forall i :: 0 <= i < |fields| ==> WritableField(fields[i])
    ensures FirstValue(NormalFields(fields), sym)
         == if FirstValue(fields, sym).Some? then Some(Normal(FirstValue(fields, sym).value)) else None
  {
    hide FirstValue, InsertField, Normal, NormalField, WritableField, Sorted, WFFields;
    if fields == [] {
      FirstValueOfNone(sym);
    } else {
      var init, last := fields[..|fields| - 1], fields[|fields| - 1];
      NormalKeepsFirst(init, sym);
      NormalFieldsWellFormed(init);
      KeepsFirstStep(init, last, sym);
      assert fields == init + [last];
    }
  }

  lemma KeepsFirstStep(init: seq<Field>, last: Field, sym: nat)
    requires Sorted(NormalFields(init))
    requires FirstValue(NormalFields(init), sym)
          == if FirstValue(init, sym).Some? then Some(Normal(FirstValue(init, sym).value)) else None
    ensures FirstValue(InsertField(NormalFields(init), NormalField(last)), sym)
         == if FirstValue(init + [last], sym).Some? then Some(Normal(FirstValue(init + [last], sym).value)) else None
  {
    hide FirstValue, InsertField, Normal, NormalFields, Sorted;
    InsertLookup(NormalFields(init), NormalField(last), sym);
    FirstValueAppend(init, [last], sym);
    FirstValueOf(last, sym);
  }

  // ------------------------------------------------------------------------ the calls

  /** Any well-bracketed sequence of Buffer calls, driven by the tree v it spells out. */
  method WriteValue(b: Buffer, v: Ion)
    requires b.Valid() && Ready(b.frames) && Writable(v)
    modifies b
    ensures b.Valid()
    ensures b.base == AddBase(old(b.base), old(b.frames), Normal(v))
    ensures b.frames == AddFrames(old(b.frames), Normal(v))
    decreases v, 0
  {
    hide StackBytes, SegsMatch, NormalFields, NormalAll, WF;
    NormalIsWellFormed(v);
    match v {
      case Atom(raw) => b.UnsafeAppend(raw, v);
      case Sym(id) => b.WriteSymbol(id);
      case Str(text) => b.WriteString(text);
      case List(items) =>
        b.BeginList();
        WriteItems(b, items);
        b.EndList();
      case Struct(fields) =>
        b.BeginStruct();
        WriteFields(b, fields);
        b.EndStruct();
      case Annot(sym, val) =>
        b.BeginAnnotation();
        b.BeginField(sym);
        WriteValue(b, val);
        b.EndAnnotation();
    }
  }

  lemma NormalAllOfNone(items: seq<Ion>)
    ensures NormalAll(items[..0]) == []
  {
  }

  lemma NormalFieldsOfNone(fields: seq<Field>)
    ensures NormalFields(fields[..0]) == []
  {
  }

  lemma NormalAllStep(items: seq<Ion>, i: nat)
    requires i < |items|
    ensures NormalAll(items[..i + 1]) == NormalAll(items[..i]) + [Normal(items[i])]
  {
    assert items[..i + 1][..i] == items[..i];
  }

  lemma NormalFieldsStep(fields: seq<Field>, i: nat)
    requires i < |fields|
    ensures NormalFields(fields[..i + 1]) == InsertField(NormalFields(fields[..i]), NormalField(fields[i]))
  {
    assert fields[..i + 1][..i] == fields[..i];
  }

  method WriteItems(b: Buffer, items: seq<Ion>)
    requires b.Valid() && b.frames != [] && b.frames[|b.frames| - 1] == ListFrame([])
    requires forall i :: 0 <= i < |items| ==> Writable(items[i])
    modifies b
    ensures b.Valid() && b.base == old(b.base)
    ensures b.frames == old(b.frames)[..|old(b.frames)| - 1] + [ListFrame(NormalAll(items))]
    decreases items, 1
  {
    hide Writable, StackBytes, SegsMatch, NormalAll, Normal;
    NormalAllOfNone(items);
    ghost var below := b.frames[..|b.frames| - 1];
    for i := 0 to |items|
      invariant b.Valid() && b.base == old(b.base)
      invariant b.frames == below + [ListFrame(NormalAll(items[..i]))]
    {
      NormalAllStep(items, i);
      assert b.frames[..|b.frames| - 1] == below;
      WriteValue(b, items[i]);
    }
    assert items[..|items|] == items;
  }

  method WriteFields(b: Buffer, fields: seq<Field>)
    requires b.Valid() && b.frames != [] && b.frames[|b.frames| - 1] == StructFrame([], None)
    requires forall i :: 0 <= i < |fields| ==> WritableField(fields[i])
    modifies b
    ensures b.Valid() && b.base == old(b.base)
    ensures b.frames == old(b.frames)[..|old(b.frames)| - 1] + [StructFrame(NormalFields(fields), None)]
    decreases fields, 2
  {
    hide WritableField, StackBytes, SegsMatch, NormalFields, NormalField, InsertField;
    NormalFieldsOfNone(fields);
    ghost var below := b.frames[..|b.frames| - 1];
    for i := 0 to |fields|
      invariant b.Valid() && b.base == old(b.base)
      invariant b.frames == below + [StructFrame(NormalFields(fields[..i]), None)]
    {
      NormalFieldsStep(fields, i);
      WriteField(b, fields[i], below, NormalFields(fields[..i]));
    }
    assert fields[..|fields|] == fields;
  }

  method WriteField(b: Buffer, f: Field, ghost below: seq<Frame>, ghost sofar: seq<Field>)
    requires b.Valid() && b.frames == below + [StructFrame(sofar, None)]
    requires WritableField(f)
    modifies b
    ensures b.Valid() && b.base == old(b.base)
    ensures b.frames == below + [StructFrame(InsertField(sofar, NormalField(f)), None)]
    decreases f, 1
  {
    hide Writable, InsertField;
    b.BeginField(f.sym);
    assert b.frames[..|b.frames| - 1] == below;
    WriteValue(b, f.val);
  }

  /** One top-level value: the bytes are its normal form, which reads back from them. */
  method WriteTopLevel(b: Buffer, v: Ion)
    requires b.Valid() && b.frames == [] && Writable(v)
    modifies b
    ensures b.Valid() && b.frames == []
    ensures b.buf == old(b.buf) + Enc(Normal(v))
    ensures WF(Normal(v)) && Dec(b.buf[|old(b.buf)|..]) == Some((Normal(v), []))
  {
    NormalIsWellFormed(v);
    WriteValue(b, v);
    DecEnc(Normal(v), []);
    assert b.buf[|old(b.buf)|..] == Enc(Normal(v)) + [];
  }
}
