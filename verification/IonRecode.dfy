/** When one tree is a faithful re-encoding of another under a different symbol table:
    same meaning, well formed, and no more than five times as long. */
module IonRecode {
  import opened IonCodec
  import opened IonTree
  import opened IonValue
  import opened IonBuffer
  import opened IonNormal

  // ------------------------------------------------------------------- field meanings

  lemma {:induction false} MeaningFieldsAppend(tab: Table, a: seq<Field>, b: seq<Field>)
    ensures MeaningFields(tab, a + b) == MeaningFields(tab, b) + MeaningFields(tab, a)
  {
    if a == [] {
      assert a + b == b;
    } else {
      assert (a + b)[1..] == a[1..] + b;
      MeaningFieldsAppend(tab, a[1..], b);
    }
  }

  lemma MeaningFieldsOne(tab: Table, f: Field)
    ensures MeaningFields(tab, [f]) == map[Get(tab, f.sym) := MeaningField(tab, f)]
  {
    assert [f][1..] == [];
  }

  lemma {:induction false} MeaningFieldsKeys(tab: Table, fields: seq<Field>, key: bytes)
    ensures key in MeaningFields(tab, fields) <==> exists i :: 0 <= i < |fields| && Get(tab, fields[i].sym) == key
  {
    if fields != [] {
      MeaningFieldsKeys(tab, fields[1..], key);
      if key in MeaningFields(tab, fields[1..]) {
        var i :| 0 <= i < |fields[1..]| && Get(tab, fields[1..][i].sym) == key;
        assert fields[1..][i] == fields[i + 1];
      }
      if i :| 0 < i < |fields| && Get(tab, fields[i].sym) == key {
        assert fields[1..][i - 1] == fields[i];
      }
    }
  }

  /** Inserting a field with a new name adds exactly that entry, wherever it is placed. */
  lemma MeaningInsert(tab: Table, fields: seq<Field>, f: Field)
    requires Get(tab, f.sym) !in MeaningFields(tab, fields)
    ensures MeaningFields(tab, InsertField(fields, f)) == MeaningFields(tab, fields)[Get(tab, f.sym) := MeaningField(tab, f)]
  {
    hide MeaningFields, MeaningField;
    var k := Slot(fields, f.sym);
    MeaningFieldsKeys(tab, fields, Get(tab, f.sym));
    assert fields == fields[..k] + fields[k..];
    MeaningSplice(tab, fields[..k], f, fields[k..]);
  }

  lemma MeaningSplice(tab: Table, a: seq<Field>, f: Field, b: seq<Field>)
    requires Get(tab, f.sym) !in MeaningFields(tab, a + b)
    ensures MeaningFields(tab, a + [f] + b) == MeaningFields(tab, a + b)[Get(tab, f.sym) := MeaningField(tab, f)]
  {
    hide MeaningFields, MeaningField, Get;
    MeaningFieldsAppend(tab, a, b);
    MeaningFieldsAppend(tab, a + [f], b);
    MeaningFieldsAppend(tab, a, [f]);
    MeaningFieldsOne(tab, f);
  }

  lemma MeaningFieldsSnoc(tab: Table, fields: seq<Field>, f: Field)
    requires Get(tab, f.sym) !in MeaningFields(tab, fields)
    ensures MeaningFields(tab, fields + [f]) == MeaningFields(tab, fields)[Get(tab, f.sym) := MeaningField(tab, f)]
  {
    hide MeaningFields, MeaningField;
    MeaningFieldsAppend(tab, fields, [f]);
    MeaningFieldsOne(tab, f);
  }

  /** In a table without duplicates, sorted labels name distinct fields. */
  lemma NextNameIsNew(tab: Table, fields: seq<Field>, k: nat)
    requires Distinct(tab) && Sorted(fields) && ResolvesFields(tab, fields) && k < |fields|
    ensures Get(tab, fields[k].sym) !in MeaningFields(tab, fields[..k])
  {
    hide MeaningFields;
    var key := Get(tab, fields[k].sym);
    MeaningFieldsKeys(tab, fields[..k], key);
    forall i | 0 <= i < k ensures Get(tab, fields[..k][i].sym) != key {
      assert ResolvesField(tab, fields[i]) && ResolvesField(tab, fields[k]);
    }
  }

  // --------------------------------------------------------------------------- sizes

  lemma TlvScales(tag: nat, a: bytes, b: bytes)
    requires tag < 16 && |a| <= 5 * |b|
    ensures |Tlv(tag, a)| <= 5 * |Tlv(tag, b)|
  {
    hide Uv;
    if |a| >= 14 {
      if |b| < 14 {
        UvLengthMonotone(|a|, 127);
        assert |Uv(127)| == 1 by { ShortUv(127); }
      } else {
        UvLengthMonotone(|a|, 128 * |b|);
        UvTimes128(|b|);
      }
    }
  }

  lemma ShortUv(v: nat)
    requires v < 128
    ensures |Uv(v)| == 1
  {
  }

  lemma UvTimes128(n: nat)
    requires n > 0
    ensures |Uv(128 * n)| == 1 + |Uv(n)|
  {
    assert 128 * n / 128 == n;
    assert |UvDigits(n)| == |Uv(n)|;
  }

  lemma LabelSize(id: nat)
    requires id < SYMBOL_LIMIT
    ensures |Uv(id)| <= 5
  {
    assert Pow128(5) == 128 * Pow128(4) && Pow128(4) == 0x1000_0000;
    UvLength(id, 5);
  }

  lemma SymbolSize(id: nat)
    requires id < SYMBOL_LIMIT
    ensures |Enc(Sym(id))| <= 5
  {
    SymbolFits(id);
  }

  // ------------------------------------------------------------- faithful re-encoding

  /** `now` under `dst` says what `was` said under `src`. */
  predicate Recoded(src: Table, dst: Table, was: Ion, now: Ion) {
    && WF(now)
    && Resolves(dst, now)
    && Meaning(dst, now) == Meaning(src, was)
    && |Enc(now)| <= 5 * |Enc(was)|
  }

  predicate RecodedAll(src: Table, dst: Table, was: seq<Ion>, now: seq<Ion>) {
    && WFAll(now)
    && ResolvesAll(dst, now)
    && MeaningAll(dst, now) == MeaningAll(src, was)
    && |EncAll(now)| <= 5 * |EncAll(was)|
  }

  predicate RecodedFields(src: Table, dst: Table, was: seq<Field>, now: seq<Field>) {
    && Sorted(now) && WFFields(now)
    && ResolvesFields(dst, now)
    && MeaningFields(dst, now) == MeaningFields(src, was)
    && |EncFields(now)| <= 5 * |EncFields(was)|
  }

  lemma RecodedGrows(src: Table, dst: Table, more: Table, was: Ion, now: Ion)
    requires Recoded(src, dst, was, now) && dst <= more
    ensures Recoded(src, more, was, now)
  {
    MeaningExtends(dst, more, now);
  }

  lemma RecodedList(src: Table, dst: Table, was: seq<Ion>, now: seq<Ion>)
    requires RecodedAll(src, dst, was, now) && 5 * |EncAll(was)| < UV_LIMIT
    ensures Recoded(src, dst, List(was), List(now))
  {
    EncList(was);
    EncList(now);
    TlvScales(LIST_TYPE, EncAll(now), EncAll(was));
  }

  lemma RecodedStruct(src: Table, dst: Table, was: seq<Field>, now: seq<Field>)
    requires RecodedFields(src, dst, was, now) && 5 * |EncFields(was)| < UV_LIMIT
    ensures Recoded(src, dst, Struct(was), Struct(now))
  {
    EncStruct(was);
    EncStruct(now);
    TlvScales(STRUCT_TYPE, EncFields(now), EncFields(was));
  }

  lemma RecodedAnnot(src: Table, dst: Table, sym: nat, id: nat, was: Ion, now: Ion)
    requires Recoded(src, dst, was, now) && 5 * |Body(Annot(sym, was))| < UV_LIMIT
    requires id < MaxID(dst) && id < SYMBOL_LIMIT && Get(dst, id) == Get(src, sym)
    ensures Recoded(src, dst, Annot(sym, was), Annot(id, now))
  {
    LabelSize(id);
    var a, b := Body(Annot(id, now)), Body(Annot(sym, was));
    assert |a| <= 5 * |b|;
    TlvScales(ANNOTATION_TYPE, a, b);
  }

  lemma RecodedItem(src: Table, dst: Table, more: Table, was: seq<Ion>, now: seq<Ion>, v: Ion, w: Ion)
    requires RecodedAll(src, dst, was, now) && Recoded(src, more, v, w) && dst <= more
    ensures RecodedAll(src, more, was + [v], now + [w])
  {
    hide WF, Resolves, Meaning, MeaningAll, EncAll, Enc;
    MeaningAllExtends(dst, more, now);
    MeaningAllSnoc(more, now, w);
    MeaningAllSnoc(src, was, v);
    EncAllSnoc(now, w);
    EncAllSnoc(was, v);
  }

  /** One more field, under its translated label, keeps the struct faithful. */
  lemma RecodedField(src: Table, dst: Table, more: Table, was: seq<Field>, now: seq<Field>, f: Field, id: nat, w: Ion)
    requires RecodedFields(src, dst, was, now) && dst <= more
    requires Get(src, f.sym) !in MeaningFields(src, was)
    requires Recoded(src, more, f.val, w)
    requires id < MaxID(more) && id < SYMBOL_LIMIT && Get(more, id) == Get(src, f.sym)
    ensures RecodedFields(src, more, was + [f], InsertField(now, Field(id, w)))
  {
    hide WF, Resolves, Meaning, MeaningFields, EncFields, Enc, InsertField, Sorted, WFFields, ResolvesFields;
    MeaningFieldsExtends(dst, more, now);
    MeaningInsert(more, now, Field(id, w));
    MeaningFieldsSnoc(src, was, f);
    EncFieldsSnoc(was, f);
    LabelSize(id);
    InsertSize(now, Field(id, w));
    InsertKeepsOrder(now, Field(id, w));
    InsertResolves(more, now, Field(id, w));
  }

  /** The case of an unchanged label above all the others. */
  lemma RecodedLastField(src: Table, dst: Table, was: seq<Field>, now: seq<Field>, f: Field, g: Field)
    requires RecodedFields(src, dst, was, now) && src <= dst
    requires Get(src, f.sym) !in MeaningFields(src, was)
    requires Recoded(src, dst, f.val, g.val)
    requires g.sym == f.sym < MaxID(src) && f.sym < SYMBOL_LIMIT
    requires forall i :: 0 <= i < |now| ==> now[i].sym < g.sym
    ensures RecodedFields(src, dst, was + [f], now + [g])
  {
    hide Recoded, RecodedFields, MeaningFields, InsertField, Get;
    GetExtends(src, dst, f.sym);
    RecodedField(src, dst, dst, was, now, f, g.sym, g.val);
    InsertAtEnd(now, g);
  }

  lemma InsertResolves(tab: Table, fields: seq<Field>, f: Field)
    requires ResolvesFields(tab, fields) && ResolvesField(tab, f)
    ensures ResolvesFields(tab, InsertField(fields, f))
  {
    hide Resolves;
  }
}
