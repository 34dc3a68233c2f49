/** `ion/compress.go`: find repeated strings, intern them, and rewrite a block with symbols in
    place of the strings the table knows. */
module IonCompress {
  import opened IonCodec
  import opened IonTree
  import opened IonValue
  import opened IonSymtab
  import opened IonScalars
  import opened IonBuffer
  import opened IonNormal
  import opened IonMarshal
  import opened IonRecode
  import opened IonResym
  import opened IonStrtab

  // ---------------------------------------------------------------------- the scan

  /** A table extended by strings that took at most n bytes of scanned data. */
  predicate Scanned(before: Symtab, after: Symtab, n: nat) {
    && Inv(after)
    && before.interned <= after.interned
    && |after.interned| <= |before.interned| + n
    && TableSize(after.interned) <= TableSize(before.interned) + n
  }

  /** Where the body of a datum starts within it. */
  function Offset(msg: bytes, c: Split): (n: nat)
    requires |c.body| + |c.rest| <= |msg|
  {
    |msg| - |c.rest| - |c.body|
  }

  lemma OffsetIs(v: Ion, rest: bytes, c: Split)
    requires !v.Atom? && c == Split(Body(v), rest)
    ensures |c.body| + |c.rest| <= |Enc(v) + rest| && Offset(Enc(v) + rest, c) == Prefix(v)
  {
    hide Body, Header;
  }

  /** `scanstrs`: mark every string of the datum at the front of body. */
  method ScanStrs(st: Symtab, body: bytes, pos: nat, stab: Strtab, ghost v: Ion, ghost rest: bytes)
    returns (r: bytes, grown: Symtab)
    requires WF(v) && body == Enc(v) + rest
    modifies stab
    ensures r == rest && (stab.State(), grown) == MarkedAll(stab.hash, old(stab.State()), st, Sightings(v, pos))
    decreases v, 1
  {
    hide Enc, WF, Contents, SizeOf, Marked, MarkedAll, SightingsAll, SightingsFields, Prefix;
    DatumShape(v, rest);
    PartsWellFormed(v);
    MarkedNone(stab.hash, stab.State(), st);
    if TypeOf(body) == LIST_TYPE {
      OpenContainer(v, rest);
      var c := ComputeContents(body);
      OffsetIs(v, rest, c.value);
      grown := ScanItems(st, c.value.body, pos + Offset(body, c.value), stab, v.items);
      r := c.value.rest;
    } else if TypeOf(body) == STRUCT_TYPE {
      OpenContainer(v, rest);
      var c := ComputeContents(body);
      OffsetIs(v, rest, c.value);
      grown := ScanFields(st, c.value.body, pos + Offset(body, c.value), stab, v.fields);
      r := c.value.rest;
    } else if TypeOf(body) == STRING_TYPE {
      OpenContainer(v, rest);
      var c := ComputeContents(body);
      OffsetIs(v, rest, c.value);
      MarkedOne(stab.hash, stab.State(), st, v.text, pos + Prefix(v));
      grown := stab.Mark(c.value.body, st, pos + Offset(body, c.value));
      r := c.value.rest;
    } else {
      var n := ComputeSizeOf(body);
      r, grown := body[n..], st;
    }
  }

  lemma PartsWellFormed(v: Ion)
    requires WF(v)
    ensures v.List? ==> WFAll(v.items)
    ensures v.Struct? ==> WFFields(v.fields)
  {
  }

  method ScanItems(st: Symtab, buf: bytes, pos: nat, stab: Strtab, ghost items: seq<Ion>) returns (grown: Symtab)
    requires WFAll(items) && buf == EncAll(items)
    modifies stab
    ensures (stab.State(), grown) == MarkedAll(stab.hash, old(stab.State()), st, SightingsAll(items, pos))
    decreases items, 2
  {
    hide Enc, EncAll, WF, Marked, MarkedAll, SightingsAll, Sightings;
    var body := buf;
    grown := st;
    ghost var k := 0;
    ghost var s0 := stab.State();
    ItemsStart(st.interned, st.interned, items);
    MarkedNone(stab.hash, s0, st);
    NothingSighted(items, pos);
    while |body| > 0
      invariant 0 <= k <= |items| && body == EncAll(items[k..]) && |body| + |EncAll(items[..k])| == |buf|
      invariant (stab.State(), grown) == MarkedAll(stab.hash, s0, st, SightingsAll(items[..k], pos))
      decreases |items| - k
    {
      ItemsStep(items, k);
      ItemSplit(items, k);
      SightingsAllStep(items, k, pos);
      ghost var at := pos + |EncAll(items[..k])|;
      MarkedAppend(stab.hash, s0, st, SightingsAll(items[..k], pos), Sightings(items[k], at));
      body, grown := ScanStrs(grown, body, pos + |buf| - |body|, stab, items[k], EncAll(items[k + 1..]));
      k := k + 1;
    }
    ItemsEnd(items, k);
  }

  lemma NothingSighted(items: seq<Ion>, pos: nat)
    ensures SightingsAll(items[..0], pos) == [] && EncAll(items[..0]) == []
  {
    assert items[..0] == [];
  }

  lemma SightingsAllStep(items: seq<Ion>, k: nat, pos: nat)
    requires k < |items|
    ensures SightingsAll(items[..k + 1], pos) == SightingsAll(items[..k], pos) + Sightings(items[k], pos + |EncAll(items[..k])|)
    ensures |EncAll(items[..k + 1])| == |EncAll(items[..k])| + |Enc(items[k])|
  {
    hide Sightings, Enc, EncAll;
    assert items[..k + 1][..k] == items[..k] && items[..k + 1] == items[..k] + [items[k]];
    EncAllSnoc(items[..k], items[k]);
  }

  lemma ItemSplit(items: seq<Ion>, k: nat)
    requires k < |items|
    ensures EncAll(items[k..]) == Enc(items[k]) + EncAll(items[k + 1..])
  {
    assert items[k..][0] == items[k] && items[k..][1..] == items[k + 1..];
  }

  method ScanFields(st: Symtab, buf: bytes, pos: nat, stab: Strtab, ghost fields: seq<Field>) returns (grown: Symtab)
    requires WFFields(fields) && buf == EncFields(fields)
    modifies stab
    ensures (stab.State(), grown) == MarkedAll(stab.hash, old(stab.State()), st, SightingsFields(fields, pos))
    decreases fields, 3
  {
    hide EncField, EncFields, WFFields, Marked, MarkedAll, SightingsFields, SightingsField;
    var body := buf;
    grown := st;
    ghost var k := 0;
    ghost var s0 := stab.State();
    FieldsStart(st.interned, st.interned, fields);
    MarkedNone(stab.hash, s0, st);
    NoFieldSighted(fields, pos);
    while |body| > 0
      invariant 0 <= k <= |fields| && body == EncFields(fields[k..]) && |body| + |EncFields(fields[..k])| == |buf|
      invariant (stab.State(), grown) == MarkedAll(stab.hash, s0, st, SightingsFields(fields[..k], pos))
      decreases |fields| - k
    {
      FieldSplit(fields, k);
      SightingsFieldsStep(fields, k, pos);
      ghost var at := pos + |EncFields(fields[..k])|;
      MarkedAppend(stab.hash, s0, st, SightingsFields(fields[..k], pos), SightingsField(fields[k], at));
      body, grown := ScanField(grown, body, pos + |buf| - |body|, stab, fields[k], EncFields(fields[k + 1..]));
      k := k + 1;
    }
    FieldsEnd(fields, k);
  }

  lemma NoFieldSighted(fields: seq<Field>, pos: nat)
    ensures SightingsFields(fields[..0], pos) == [] && EncFields(fields[..0]) == []
  {
    assert fields[..0] == [];
  }

  lemma SightingsFieldsStep(fields: seq<Field>, k: nat, pos: nat)
    requires k < |fields|
    ensures SightingsFields(fields[..k + 1], pos)
         == SightingsFields(fields[..k], pos) + SightingsField(fields[k], pos + |EncFields(fields[..k])|)
  {
    hide SightingsField, EncFields;
    assert fields[..k + 1][..k] == fields[..k];
  }

  lemma FieldSplit(fields: seq<Field>, k: nat)
    requires WFFields(fields) && k <= |fields| && |EncFields(fields[k..])| > 0
    ensures k < |fields| && WFField(fields[k])
    ensures EncFields(fields[k..]) == EncField(fields[k]) + EncFields(fields[k + 1..])
    ensures |EncFields(fields[..k + 1])| == |EncFields(fields[..k])| + |EncField(fields[k])|
    ensures fields[..k + 1] == fields[..k] + [fields[k]]
  {
    hide EncField;
    assert fields[k..] != [];
    assert fields[k..][0] == fields[k] && fields[k..][1..] == fields[k + 1..];
    assert fields[..k + 1] == fields[..k] + [fields[k]];
    EncFieldsSnoc(fields[..k], fields[k]);
  }

  method ScanField(st: Symtab, buf: bytes, pos: nat, stab: Strtab, ghost f: Field, ghost tail: bytes)
    returns (r: bytes, grown: Symtab)
    requires WFField(f) && buf == EncField(f) + tail
    modifies stab
    ensures r == tail && (stab.State(), grown) == MarkedAll(stab.hash, old(stab.State()), st, SightingsField(f, pos))
    decreases f, 2
  {
    hide Enc, Uv, ReadUv, WF, SizeOf, Marked, MarkedAll, Sightings;
    FieldShape(f, tail);
    var u := ScanUv(buf);
    r, grown := ScanStrs(st, buf[u.used..], pos + u.used, stab, f.val, tail);
  }

  /** What a scan of whole rows finds, from an empty counter. */
  function ScanOf(hash: bytes -> nat, st: Symtab, items: seq<Ion>): (Counter, Symtab) {
    MarkedAll(hash, NOTHING, st, SightingsAll(items, 0))
  }

  /** The table grows by frequent strings only, no more than the data; without rows nothing is found. */
  lemma ScanSpec(hash: bytes -> nat, st: Symtab, items: seq<Ion>)
    requires Inv(st)
    ensures var (s, r) := ScanOf(hash, st, items);
      && Scanned(st, r, |EncAll(items)|) && Frequent(st.interned, r.interned, StringsAll(items))
      && (r == st || s.prepop > 0) && (items == [] ==> s.prepop == 0)
  {
    hide Inv, MarkedAll, CountsOk, Frequent, TableSize, EncAll, StringsAll, Weight;
    NothingCounted();
    MarkedAllSpec(hash, NOTHING, st, [], SightingsAll(items, 0));
    SightedAll(items, 0);
    StringsWeighAll(items);
    assert [] + StringsAll(items) == StringsAll(items);
    if items == [] {
      NothingSighted(items, 0);
      assert items[..0] == items;
      MarkedNone(hash, NOTHING, st);
    }
    GrowthIs(st, ScanOf(hash, st, items).1, StringsAll(items), |EncAll(items)|);
  }

  /** Where slots do not collide, a scan makes symbols of exactly the strings that occur often enough. */
  lemma ScanExact(hash: bytes -> nat, st: Symtab, items: seq<Ion>, x: bytes)
    requires Inv(st) && Apart(hash, StringsAll(items))
    ensures Symbolize(ScanOf(hash, st, items).1, x).Some?
       <==> Symbolize(st, x).Some? || (|x| >= MIN_LENGTH && Times(StringsAll(items), x) >= THRESHOLD)
  {
    hide Inv, StringsAll, SightingsAll, MarkedAll, Apart, Times, Symbolize;
    SightedAll(items, 0);
    MarkedExact(hash, st, SightingsAll(items, 0));
  }

  /** Where every string is known and one of them is a symbol, compression goes ahead with the table
      as it is. */
  lemma ScanKnown(hash: bytes -> nat, st: Symtab, items: seq<Ion>, k: nat)
    requires forall t :: t in StringsAll(items) ==> Known(st, t)
    requires k < |StringsAll(items)| && |StringsAll(items)[k]| >= MIN_LENGTH
    ensures ScanOf(hash, st, items).1 == st && ScanOf(hash, st, items).0.prepop > 0
  {
    hide StringsAll, SightingsAll, MarkedAll, Known, Texts;
    var ss := SightingsAll(items, 0);
    SightedAll(items, 0);
    forall i | 0 <= i < |ss| ensures Known(st, ss[i].text) {
      TextAt(ss, i);
      assert StringsAll(items)[i] in StringsAll(items);
    }
    TextAt(ss, k);
    MarkedKnown(hash, NOTHING, st, ss);
  }

  lemma GrowthIs(st: Symtab, r: Symtab, seen: seq<bytes>, n: nat)
    requires Frequent(st.interned, r.interned, seen) && Inv(r) && |seen| <= n && Weight(seen) <= n
    requires |r.interned| <= |st.interned| + |seen| && TableSize(r.interned) <= TableSize(st.interned) + Weight(seen)
    ensures Scanned(st, r, n)
  {
    hide Inv, TableSize, Weight, Times;
  }

  // ------------------------------------------------------------------ the rewriting

  /** What `compress` writes for v. */
  function Compressed(st: Symtab, v: Ion): Ion
    decreases v, 0
  {
    match v
    case List(items) => List(CompressedAll(st, items))
    case Struct(fields) => Struct(CompressedFields(st, fields))
    case Str(text) =>
      (match Symbolize(st, text)
       case Some(id) => Sym(id)
       case None => v)
    case _ => v
  }

  function CompressedAll(st: Symtab, items: seq<Ion>): (r: seq<Ion>)
    ensures |r| == |items|
    decreases items, 1
  {
    if items == [] then [] else CompressedAll(st, items[..|items| - 1]) + [Compressed(st, items[|items| - 1])]
  }

  function CompressedField(st: Symtab, f: Field): Field
    decreases f, 1
  {
    Field(f.sym, Compressed(st, f.val))
  }

  function CompressedFields(st: Symtab, fields: seq<Field>): (r: seq<Field>)
    ensures |r| == |fields|
    ensures forall i :: 0 <= i < |r| ==> r[i].sym == fields[i].sym
    decreases fields, 2
  {
    if fields == [] then []
    else CompressedFields(st, fields[..|fields| - 1]) + [CompressedField(st, fields[|fields| - 1])]
  }

  /** The table the data was written with is a prefix of one with sound lookups. */
  predicate GrownTable(tab: Table, st: Symtab) {
    Inv(st) && tab <= st.interned && MaxID(st.interned) < SYMBOL_LIMIT
  }

  /** Compression preserves meaning under any table that has since grown. */
  lemma {:induction false} CompressedMeans(tab: Table, st: Symtab, v: Ion)
    requires GrownTable(tab, st) && WF(v) && Resolves(tab, v) && 5 * |Enc(v)| < UV_LIMIT
    ensures Recoded(tab, st.interned, v, Compressed(st, v))
    decreases v, 1
  {
    hide Recoded, RecodedAll, RecodedFields, Inv, CompressedAll, CompressedFields;
    match v
    case List(items) =>
      OpenContainer(v, []);
      CompressedAllMeans(tab, st, items);
      RecodedList(tab, st.interned, items, CompressedAll(st, items));
    case Struct(fields) =>
      OpenContainer(v, []);
      CompressedFieldsMeans(tab, st, fields);
      RecodedStruct(tab, st.interned, fields, CompressedFields(st, fields));
    case Str(text) =>
      RecodedScalar(tab, st.interned, v);
      SymbolForString(tab, st, text);
    case _ => RecodedAsIs(tab, st.interned, v);
  }

  lemma SymbolForString(tab: Table, st: Symtab, text: bytes)
    requires GrownTable(tab, st)
    ensures Symbolize(st, text).Some? ==> Recoded(tab, st.interned, Str(text), Sym(Symbolize(st, text).value))
  {
    SymbolizeSpec(st, text);
    if Symbolize(st, text).Some? {
      SymbolSize(Symbolize(st, text).value);
    }
  }

  lemma RecodedAsIs(tab: Table, more: Table, v: Ion)
    requires tab <= more && WF(v) && Resolves(tab, v)
    ensures Recoded(tab, more, v, v)
  {
    MeaningExtends(tab, more, v);
  }

  lemma {:induction false} CompressedAllMeans(tab: Table, st: Symtab, items: seq<Ion>)
    requires GrownTable(tab, st) && WFAll(items) && ResolvesAll(tab, items) && 5 * |EncAll(items)| < UV_LIMIT
    ensures RecodedAll(tab, st.interned, items, CompressedAll(st, items))
    decreases items, 2
  {
    hide Recoded, RecodedAll, Inv, Compressed, WF, Resolves, EncAll, Enc;
    if items == [] {
      ItemsStart(tab, st.interned, items);
    } else {
      var init, last := items[..|items| - 1], items[|items| - 1];
      assert items == init + [last];
      EncAllSnoc(init, last);
      CompressedAllMeans(tab, st, init);
      CompressedMeans(tab, st, last);
      RecodedItem(tab, st.interned, st.interned, init, CompressedAll(st, init), last, Compressed(st, last));
    }
  }

  lemma {:induction false} CompressedFieldMeans(tab: Table, st: Symtab, f: Field)
    requires GrownTable(tab, st) && WFField(f) && ResolvesField(tab, f) && 5 * |EncField(f)| < UV_LIMIT
    ensures Recoded(tab, st.interned, f.val, CompressedField(st, f).val)
    decreases f, 2
  {
    CompressedMeans(tab, st, f.val);
  }

  lemma {:induction false} CompressedFieldsMeans(tab: Table, st: Symtab, fields: seq<Field>)
    requires GrownTable(tab, st) && WFFields(fields) && Sorted(fields) && ResolvesFields(tab, fields)
    requires 5 * |EncFields(fields)| < UV_LIMIT
    ensures RecodedFields(tab, st.interned, fields, CompressedFields(st, fields))
    decreases fields, 3
  {
    hide Recoded, RecodedFields, Inv, CompressedField, WFField, ResolvesField, EncFields, EncField, MeaningFields;
    if fields == [] {
      FieldsStart(tab, st.interned, fields);
    } else {
      var k := |fields| - 1;
      var init, last := fields[..k], fields[k];
      assert fields == init + [last];
      EncFieldsSnoc(init, last);
      CompressedFieldsMeans(tab, st, init);
      CompressedFieldMeans(tab, st, last);
      CompressedNameIsNew(tab, st, fields);
      CompressedLabelsBelow(st, fields);
      LabelFits(tab, st, last);
      RecodedLastField(tab, st.interned, init, CompressedFields(st, init), last, CompressedField(st, last));
    }
  }

  /** A re-encoding keeps the names it has, so the next one is new there too. */
  lemma CompressedNameIsNew(tab: Table, st: Symtab, fields: seq<Field>)
    requires GrownTable(tab, st) && fields != [] && Sorted(fields) && ResolvesFields(tab, fields)
    ensures Get(tab, fields[|fields| - 1].sym) !in MeaningFields(tab, fields[..|fields| - 1])
  {
    InvIsDistinct(st);
    PrefixIsDistinct(tab, st.interned);
    NextNameIsNew(tab, fields, |fields| - 1);
  }

  lemma PrefixIsDistinct(tab: Table, more: Table)
    requires tab <= more && Distinct(more)
    ensures Distinct(tab)
  {
    assert forall i :: 0 <= i < MaxID(tab) ==> Get(more, i) == Get(tab, i);
  }

  lemma LabelFits(tab: Table, st: Symtab, f: Field)
    requires GrownTable(tab, st) && ResolvesField(tab, f)
    ensures CompressedField(st, f).sym == f.sym < MaxID(tab) && f.sym < SYMBOL_LIMIT
  {
  }

  lemma CompressedLabelsBelow(st: Symtab, fields: seq<Field>)
    requires fields != [] && Sorted(fields)
    ensures var now := CompressedFields(st, fields[..|fields| - 1]);
      forall i :: 0 <= i < |now| ==> now[i].sym < fields[|fields| - 1].sym
  {
  }

  // ---------------------------------------------------------------- the method itself

  lemma CompressedIsWF(tab: Table, st: Symtab, v: Ion)
    requires GrownTable(tab, st) && WF(v) && Resolves(tab, v) && 5 * |Enc(v)| < UV_LIMIT
    ensures WF(Compressed(st, v))
  {
    CompressedMeans(tab, st, v);
  }

  /** `compress`: rewrite the datum at the front of body into out. */
  method CompressValue(st: Symtab, out: Buffer, body: bytes, ghost tab: Table, ghost v: Ion, ghost rest: bytes)
    returns (r: bytes)
    requires out.Valid() && Ready(out.frames)
    requires body == Enc(v) + rest && WF(v) && Resolves(tab, v) && 5 * |Enc(v)| < UV_LIMIT
    requires GrownTable(tab, st)
    modifies out
    ensures out.Valid() && r == rest
    ensures out.base == AddBase(old(out.base), old(out.frames), Compressed(st, v))
    ensures out.frames == AddFrames(old(out.frames), Compressed(st, v))
    decreases v, 1
  {
    hide StackBytes, SegsMatch, Enc, WF, Contents, Inv, AddFrames, SizeOf, CompressedAll, CompressedFields;
    DatumShape(v, rest);
    CompressedIsWF(tab, st, v);
    if TypeOf(body) == STRUCT_TYPE {
      r := CompressStruct(st, out, body, tab, v, rest);
    } else if TypeOf(body) == LIST_TYPE {
      r := CompressList(st, out, body, tab, v, rest);
    } else if TypeOf(body) == STRING_TYPE {
      OpenContainer(v, rest);
      var c := ComputeContents(body);
      var str := c.value.body;
      StringBounds(v);
      match Symbolize(st, str) {
        case Some(id) =>
          SymbolizedFits(st, str);
          out.WriteSymbol(id);
        case None => out.WriteString(str);
      }
      r := c.value.rest;
    } else {
      var size := ComputeSizeOf(body);
      out.UnsafeAppend(body[..size], v);
      r := body[size..];
    }
  }

  lemma StringBounds(v: Ion)
    requires WF(v) && v.Str?
    ensures |v.text| < UV_LIMIT && Body(v) == v.text
  {
  }

  lemma SymbolizedFits(st: Symtab, x: bytes)
    requires Inv(st) && MaxID(st.interned) < SYMBOL_LIMIT && Symbolize(st, x).Some?
    ensures Symbolize(st, x).value < SYMBOL_LIMIT
  {
    SymbolizeSpec(st, x);
  }

  method CompressList(st: Symtab, out: Buffer, body: bytes, ghost tab: Table, ghost v: Ion, ghost rest: bytes)
    returns (r: bytes)
    requires out.Valid() && Ready(out.frames)
    requires v.List? && body == Enc(v) + rest && WF(v) && Resolves(tab, v) && 5 * |Enc(v)| < UV_LIMIT
    requires GrownTable(tab, st) && WF(Compressed(st, v))
    modifies out
    ensures out.Valid() && r == rest
    ensures out.base == AddBase(old(out.base), old(out.frames), Compressed(st, v))
    ensures out.frames == AddFrames(old(out.frames), Compressed(st, v))
    decreases v, 0
  {
    hide StackBytes, SegsMatch, Enc, EncAll, Contents, Inv, AddFrames, CompressedAll;
    ghost var below := out.frames;
    OpenContainer(v, rest);
    out.BeginList();
    var c := ComputeContents(body);
    CompressItems(st, out, c.value.body, tab, v.items, below);
    ItemAdded(below, CompressedAll(st, v.items), v);
    out.EndList();
    r := c.value.rest;
  }

  method CompressItems(st: Symtab, out: Buffer, buf: bytes, ghost tab: Table, ghost items: seq<Ion>, ghost below: seq<Frame>)
    requires out.Valid() && out.frames == below + [ListFrame([])]
    requires buf == EncAll(items) && WFAll(items) && ResolvesAll(tab, items) && 5 * |EncAll(items)| < UV_LIMIT
    requires GrownTable(tab, st)
    modifies out
    ensures out.Valid() && out.base == old(out.base)
    ensures out.frames == below + [ListFrame(CompressedAll(st, items))]
    decreases items, 2
  {
    hide StackBytes, SegsMatch, Enc, EncAll, Inv, AddFrames, CompressedAll, Compressed, WF, Resolves;
    var body := buf;
    ghost var k := 0;
    ItemsStart(tab, tab, items);
    CompressedAllStart(st, items);
    while |body| > 0
      invariant 0 <= k <= |items| && body == EncAll(items[k..]) && |body| <= |buf|
      invariant out.Valid() && out.base == old(out.base)
      invariant out.frames == below + [ListFrame(CompressedAll(st, items[..k]))]
      decreases |items| - k
    {
      ItemsStep(items, k);
      ItemSplit(items, k);
      CompressedAllStep(st, items, k);
      ItemAdded(below, CompressedAll(st, items[..k]), Compressed(st, items[k]));
      body := CompressValue(st, out, body, tab, items[k], EncAll(items[k + 1..]));
      k := k + 1;
    }
    ItemsEnd(items, k);
  }

  lemma CompressedAllStart(st: Symtab, items: seq<Ion>)
    ensures CompressedAll(st, items[..0]) == []
  {
  }

  lemma CompressedAllStep(st: Symtab, items: seq<Ion>, k: nat)
    requires k < |items|
    ensures CompressedAll(st, items[..k + 1]) == CompressedAll(st, items[..k]) + [Compressed(st, items[k])]
  {
    assert items[..k + 1][..k] == items[..k];
  }

  method CompressStruct(st: Symtab, out: Buffer, body: bytes, ghost tab: Table, ghost v: Ion, ghost rest: bytes)
    returns (r: bytes)
    requires out.Valid() && Ready(out.frames)
    requires v.Struct? && body == Enc(v) + rest && WF(v) && Resolves(tab, v) && 5 * |Enc(v)| < UV_LIMIT
    requires GrownTable(tab, st) && WF(Compressed(st, v))
    modifies out
    ensures out.Valid() && r == rest
    ensures out.base == AddBase(old(out.base), old(out.frames), Compressed(st, v))
    ensures out.frames == AddFrames(old(out.frames), Compressed(st, v))
    decreases v, 0
  {
    hide StackBytes, SegsMatch, Enc, EncFields, Contents, Inv, AddFrames, CompressedFields;
    ghost var below := out.frames;
    OpenContainer(v, rest);
    out.BeginStruct();
    var c := ComputeContents(body);
    CompressFields(st, out, c.value.body, tab, v.fields, below);
    LabelAdded(below, CompressedFields(st, v.fields), 0);
    out.EndStruct();
    r := c.value.rest;
  }

  method CompressFields(st: Symtab, out: Buffer, buf: bytes, ghost tab: Table, ghost fields: seq<Field>, ghost below: seq<Frame>)
    requires out.Valid() && out.frames == below + [StructFrame([], None)]
    requires buf == EncFields(fields) && Sorted(fields) && WFFields(fields) && ResolvesFields(tab, fields)
    requires 5 * |EncFields(fields)| < UV_LIMIT && GrownTable(tab, st)
    modifies out
    ensures out.Valid() && out.base == old(out.base)
    ensures out.frames == below + [StructFrame(CompressedFields(st, fields), None)]
    decreases fields, 3
  {
    hide StackBytes, SegsMatch, EncField, EncFields, Inv, CompressedFields, CompressedField, WFFields, ResolvesFields, InsertField;
    var body := buf;
    ghost var k := 0;
    FieldsStart(tab, tab, fields);
    CompressedFieldsStart(st, fields);
    while |body| > 0
      invariant 0 <= k <= |fields| && body == EncFields(fields[k..]) && |body| <= |buf|
      invariant out.Valid() && out.base == old(out.base)
      invariant out.frames == below + [StructFrame(CompressedFields(st, fields[..k]), None)]
      decreases |fields| - k
    {
      FieldsStep(tab, fields, k);
      CompressedFieldsStep(st, fields, k);
      body := CompressField(st, out, body, tab, fields[k], EncFields(fields[k + 1..]), below, CompressedFields(st, fields[..k]));
      k := k + 1;
    }
    FieldsEnd(fields, k);
  }

  lemma CompressedFieldsStart(st: Symtab, fields: seq<Field>)
    ensures CompressedFields(st, fields[..0]) == []
  {
  }

  /** Labels arrive in order here, so every field goes to the end. */
  lemma CompressedFieldsStep(st: Symtab, fields: seq<Field>, k: nat)
    requires k < |fields| && Sorted(fields)
    ensures CompressedFields(st, fields[..k + 1])
         == InsertField(CompressedFields(st, fields[..k]), CompressedField(st, fields[k]))
  {
    hide InsertField;
    assert fields[..k + 1][..k] == fields[..k];
    InsertAtEnd(CompressedFields(st, fields[..k]), CompressedField(st, fields[k]));
  }

  method CompressField(st: Symtab, out: Buffer, buf: bytes, ghost tab: Table, ghost f: Field, ghost tail: bytes,
                       ghost below: seq<Frame>, ghost sofar: seq<Field>)
    returns (r: bytes)
    requires out.Valid() && out.frames == below + [StructFrame(sofar, None)]
    requires buf == EncField(f) + tail && WFField(f) && ResolvesField(tab, f)
    requires 5 * |EncField(f)| < UV_LIMIT && GrownTable(tab, st)
    modifies out
    ensures out.Valid() && out.base == old(out.base) && r == tail
    ensures out.frames == below + [StructFrame(InsertField(sofar, CompressedField(st, f)), None)]
    decreases f, 2
  {
    hide StackBytes, SegsMatch, Inv, Enc, Uv, ReadUv, InsertField, AddFrames, WithLabel, AwaitsLabel, WF, Resolves, Compressed;
    FieldShape(f, tail);
    var u := ScanUv(buf);
    LabelAdded(below, sofar, u.value);
    out.BeginField(u.value);
    FieldAdded(below, sofar, f.sym, Compressed(st, f.val));
    r := CompressValue(st, out, buf[u.used..], tab, f.val, tail);
  }
}
