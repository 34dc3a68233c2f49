/** How long compressed values get (`compress` in ion/compress.go). */
module IonGrowth {
  import opened IonCodec
  import opened IonTree
  import opened IonValue
  import opened IonSymtab
  import opened IonNormal
  import opened IonCompress
  import opened IonStrtab

  /** No string has a symbol that needs more bytes than its text. */
  predicate Roomy(st: Symtab, v: Ion)
    decreases v, 0
  {
    match v
    case List(items) => forall i :: 0 <= i < |items| ==> Roomy(st, items[i])
    case Struct(fields) => forall i :: 0 <= i < |fields| ==> RoomyField(st, fields[i])
    case Str(text) => RoomyText(st, text)
    case _ => true
  }

  predicate RoomyField(st: Symtab, f: Field)
    decreases f, 1
  {
    Roomy(st, f.val)
  }

  predicate RoomyText(st: Symtab, text: bytes) {
    var id := Symbolize(st, text);
    id.None? || |Mag(id.value)| <= |text|
  }

  lemma TlvLength(tag: nat, tag': nat, a: bytes, b: bytes)
    requires tag < 16 && tag' < 16
    ensures |Tlv(tag, a)| <= |Tlv(tag', b)| <==> |a| <= |b|
  {
    hide Uv;
    if |a| <= |b| {
      UvLengthMonotone(|a|, |b|);
    } else {
      UvLengthMonotone(|b|, |a|);
    }
  }

  /** Exactly when replacing one string does not make it longer. */
  lemma TextGrows(st: Symtab, text: bytes)
    ensures |Enc(Compressed(st, Str(text)))| <= |Enc(Str(text))| <==> RoomyText(st, text)
  {
    hide Symbolize;
    var id := Symbolize(st, text);
    if id.Some? {
      TlvLength(SYMBOL_TYPE, STRING_TYPE, Mag(id.value), text);
    }
  }

  /** A value without such strings does not get longer. */
  lemma {:induction false} CompressedNotLonger(st: Symtab, v: Ion)
    requires Roomy(st, v)
    ensures |Enc(Compressed(st, v))| <= |Enc(v)|
    decreases v, 1
  {
    hide Symbolize, Tlv, Mag, Uv;
    match v
    case Str(text) => TextGrows(st, text);
    case List(items) =>
      AllNotLonger(st, items);
      TlvLength(LIST_TYPE, LIST_TYPE, EncAll(CompressedAll(st, items)), EncAll(items));
    case Struct(fields) =>
      FieldsNotLonger(st, fields);
      StructLength(CompressedFields(st, fields), fields);
    case _ =>
  }

  lemma StructLength(a: seq<Field>, b: seq<Field>)
    requires |EncFields(a)| <= |EncFields(b)|
    ensures |Enc(Struct(a))| <= |Enc(Struct(b))|
  {
    hide EncFields;
    TlvLength(STRUCT_TYPE, STRUCT_TYPE, EncFields(a), EncFields(b));
    EncStruct(a);
    EncStruct(b);
  }

  lemma {:induction false} AllNotLonger(st: Symtab, items: seq<Ion>)
    requires forall i :: 0 <= i < |items| ==> Roomy(st, items[i])
    ensures |EncAll(CompressedAll(st, items))| <= |EncAll(items)|
    decreases items, 2
  {
    hide Enc, EncAll, Compressed;
    if items != [] {
      var k := |items| - 1;
      assert items == items[..k] + [items[k]];
      AllNotLonger(st, items[..k]);
      CompressedNotLonger(st, items[k]);
      EncAllSnoc(items[..k], items[k]);
      EncAllSnoc(CompressedAll(st, items[..k]), Compressed(st, items[k]));
    }
  }

  lemma {:induction false} FieldNotLonger(st: Symtab, f: Field)
    requires RoomyField(st, f)
    ensures |EncField(CompressedField(st, f))| <= |EncField(f)|
    decreases f, 1
  {
    hide Enc, Compressed, Roomy;
    CompressedNotLonger(st, f.val);
  }

  lemma {:induction false} FieldsNotLonger(st: Symtab, fields: seq<Field>)
    requires forall i :: 0 <= i < |fields| ==> RoomyField(st, fields[i])
    ensures |EncFields(CompressedFields(st, fields))| <= |EncFields(fields)|
    decreases fields, 2
  {
    hide Enc, EncFields, EncField, Compressed, Roomy;
    if fields != [] {
      var k := |fields| - 1;
      assert fields == fields[..k] + [fields[k]];
      FieldsNotLonger(st, fields[..k]);
      FieldNotLonger(st, fields[k]);
      EncFieldsSnoc(fields[..k], fields[k]);
      EncFieldsSnoc(CompressedFields(st, fields[..k]), CompressedField(st, fields[k]));
    }
  }

  /** Strings of three bytes or more, and fewer than 2^24 symbols, are enough. */
  predicate LongStrings(v: Ion)
    decreases v, 0
  {
    match v
    case List(items) => forall i :: 0 <= i < |items| ==> LongStrings(items[i])
    case Struct(fields) => forall i :: 0 <= i < |fields| ==> LongStringsField(fields[i])
    case Str(text) => |text| >= 3
    case _ => true
  }

  predicate LongStringsField(f: Field)
    decreases f, 1
  {
    LongStrings(f.val)
  }

  lemma {:induction false} LongStringsAreRoomy(st: Symtab, v: Ion)
    requires Inv(st) && MaxID(st.interned) <= 0x100_0000 && LongStrings(v)
    ensures Roomy(st, v)
    decreases v
  {
    hide Symbolize, Inv, Mag;
    match v
    case List(items) =>
      forall i | 0 <= i < |items| ensures Roomy(st, items[i]) { LongStringsAreRoomy(st, items[i]); }
    case Struct(fields) =>
      forall i | 0 <= i < |fields| ensures RoomyField(st, fields[i]) {
        assert LongStringsField(fields[i]);
        LongStringsAreRoomy(st, fields[i].val);
      }
    case Str(text) =>
      SymbolizeSpec(st, text);
      if Symbolize(st, text).Some? {
        assert Pow256(3) == 256 * Pow256(2);
        MagLength(Symbolize(st, text).value, 3);
      }
    case _ =>
  }

  /** New symbols of three bytes or more do no harm, as long as there are fewer than 2^24. */
  lemma {:induction false} RoomyGrows(a: Symtab, b: Symtab, seen: seq<bytes>, v: Ion)
    requires Inv(a) && Inv(b) && Frequent(a.interned, b.interned, seen) && MaxID(b.interned) <= 0x100_0000
    requires Roomy(a, v)
    ensures Roomy(b, v)
    decreases v
  {
    hide Symbolize, Inv, Mag, Times, Frequent, RoomyText;
    match v
    case List(items) =>
      forall i | 0 <= i < |items| ensures Roomy(b, items[i]) { RoomyGrows(a, b, seen, items[i]); }
    case Struct(fields) =>
      forall i | 0 <= i < |fields| ensures RoomyField(b, fields[i]) {
        assert RoomyField(a, fields[i]);
        RoomyGrows(a, b, seen, fields[i].val);
      }
    case Str(text) => RoomyTextGrows(a, b, seen, text);
    case _ =>
  }

  lemma RoomyTextGrows(a: Symtab, b: Symtab, seen: seq<bytes>, text: bytes)
    requires Inv(a) && Inv(b) && Frequent(a.interned, b.interned, seen) && MaxID(b.interned) <= 0x100_0000
    requires RoomyText(a, text)
    ensures RoomyText(b, text)
  {
    hide Symbolize, Inv, Mag, Times;
    SymbolizeSpec(a, text);
    SymbolizeSpec(b, text);
    if Symbolize(b, text).Some? {
      var id := Symbolize(b, text).value;
      if id < MaxID(a.interned) {
        assert Get(a.interned, id) == Get(b.interned, id);
      } else {
        assert |b.interned[id - SYSTEM_COUNT]| >= MIN_LENGTH;
        assert Pow256(3) == 256 * Pow256(2);
        MagLength(id, 3);
      }
    }
  }

  /** Where "" is a symbol, a list of empty strings takes twice the room after compression. */
  lemma {:induction false} EmptyStringsDouble(st: Symtab, n: nat)
    requires Symbolize(st, []) == Some(SYSTEM_COUNT)
    ensures |EncAll(seq(n, _ => Str([])))| == n
    ensures |EncAll(CompressedAll(st, seq(n, _ => Str([]))))| == 2 * n
  {
    hide Symbolize, EncAll, Enc;
    var items := seq(n, _ => Str([]));
    if n == 0 {
      NoItemsEncode();
    } else {
      assert items[..n - 1] == seq(n - 1, _ => Str([])) && items == items[..n - 1] + [Str([])];
      EmptyStringsDouble(st, n - 1);
      EncAllSnoc(items[..n - 1], Str([]));
      EncAllSnoc(CompressedAll(st, items[..n - 1]), Sym(SYSTEM_COUNT));
      EmptyStringSizes();
    }
  }

  lemma NoItemsEncode()
    ensures EncAll([]) == []
  {
  }

  lemma EmptyStringSizes()
    ensures |Enc(Str([]))| == 1 && |Enc(Sym(SYSTEM_COUNT))| == 2
  {
    assert Mag(10) == Mag(0) + [10];
  }

  /** Such tables exist: the caller interned "" first. */
  lemma EmptyNameIsSymbol()
    ensures Inv(Intern(EMPTY, []).0) && Symbolize(Intern(EMPTY, []).0, []) == Some(SYSTEM_COUNT)
  {
    hide Inv, Symbolize;
    EmptyTable();
    InternSpec(EMPTY, []);
    SymbolizeSpec(Intern(EMPTY, []).0, []);
  }

  lemma EmptyTable()
    ensures Inv(EMPTY) && Symbolize(EMPTY, []).None? && EMPTY.interned == []
  {
  }
}
