/** What compression costs and saves: every new symbol replaces so many strings that it pays for its
    place in the table. */
module IonSavings {
  import opened IonCodec
  import opened IonTree
  import opened IonValue
  import opened IonSymtab
  import opened IonMarshal
  import opened IonNormal
  import opened IonCompress
  import opened IonStrtab
  import opened IonGrowth
  import opened IonStream
  import opened IonBlock

  // -------------------------------------------------------------------- counting by weight

  function Sum(w: bytes -> nat, seen: seq<bytes>): nat {
    if seen == [] then 0 else Sum(w, seen[..|seen| - 1]) + w(seen[|seen| - 1])
  }

  /** The weight of the strings in xs, as often as they were seen. */
  function SumTimes(w: bytes -> nat, xs: seq<bytes>, seen: seq<bytes>): nat {
    if xs == [] then 0 else SumTimes(w, xs[1..], seen) + Times(seen, xs[0]) * w(xs[0])
  }

  predicate NoTwice(xs: seq<bytes>) {
    forall i, j :: 0 <= i < j < |xs| ==> xs[i] != xs[j]
  }

  lemma {:induction false} SumTimesSnoc(w: bytes -> nat, xs: seq<bytes>, seen: seq<bytes>, y: bytes)
    requires NoTwice(xs)
    ensures SumTimes(w, xs, seen + [y]) == SumTimes(w, xs, seen) + if y in xs then w(y) else 0
    decreases |xs|
  {
    hide Times;
    if xs != [] {
      var rest := xs[1..];
      assert xs == [xs[0]] + rest && xs[0] !in rest;
      SumTimesSnoc(w, rest, seen, y);
      TimesSnoc(seen, y, xs[0]);
      if xs[0] == y {
        OneMore(Times(seen, y), w(y));
      }
    }
  }

  lemma OneMore(n: nat, k: nat)
    ensures (n + 1) * k == n * k + k
  {
  }

  /** Different strings together weigh no more than everything seen. */
  lemma {:induction false} SumTimesBelow(w: bytes -> nat, xs: seq<bytes>, seen: seq<bytes>)
    requires NoTwice(xs)
    ensures SumTimes(w, xs, seen) <= Sum(w, seen)
    decreases |seen|
  {
    hide Times, SumTimes, NoTwice;
    if seen == [] {
      NeverSeen(w, xs);
    } else {
      var k := |seen| - 1;
      SumTimesBelow(w, xs, seen[..k]);
      SumTimesSnoc(w, xs, seen[..k], seen[k]);
      assert seen[..k] + [seen[k]] == seen;
    }
  }

  lemma {:induction false} NeverSeen(w: bytes -> nat, xs: seq<bytes>)
    ensures SumTimes(w, xs, []) == 0
    decreases |xs|
  {
    if xs != [] {
      NeverSeen(w, xs[1..]);
    }
  }

  /** Ten times the cost of each is covered by what is seen. */
  lemma {:induction false} TenTimes(w: bytes -> nat, c: bytes -> nat, xs: seq<bytes>, seen: seq<bytes>)
    requires forall i :: 0 <= i < |xs| ==> Times(seen, xs[i]) >= THRESHOLD && c(xs[i]) <= THRESHOLD * w(xs[i])
    ensures SumFront(c, xs) <= SumTimes(w, xs, seen)
    decreases |xs|
  {
    hide Times;
    if xs != [] {
      TenTimes(w, c, xs[1..], seen);
      AtLeast(THRESHOLD, Times(seen, xs[0]), w(xs[0]));
    }
  }

  function SumFront(w: bytes -> nat, xs: seq<bytes>): nat {
    if xs == [] then 0 else w(xs[0]) + SumFront(w, xs[1..])
  }

  lemma AtLeast(a: nat, b: nat, k: nat)
    requires a <= b
    ensures a * k <= b * k
  {
  }

  // ------------------------------------------------------------------------ symbol tables

  function Size(x: bytes): nat { |Enc(Str(x))| }

  function TenSize(x: bytes): nat { 10 * Size(x) }

  lemma {:induction false} TableSizeIs(xs: Table)
    ensures TableSize(xs) == SumFront(Size, xs)
    decreases |xs|
  {
    hide Enc;
    if xs == [] {
      assert Strs(xs) == [];
    } else {
      assert Strs(xs)[0] == Str(xs[0]) && Strs(xs)[1..] == Strs(xs[1..]);
      TableSizeIs(xs[1..]);
    }
  }

  lemma {:induction false} WeightIs(texts: seq<bytes>)
    ensures Weight(texts) == Sum(Size, texts)
    decreases |texts|
  {
    hide Enc;
    if texts != [] {
      WeightIs(texts[..|texts| - 1]);
    }
  }

  /** The symbols a scan has added. */
  function Added(before: Table, after: Table): Table
    requires before <= after
  {
    after[|before|..]
  }

  lemma AddedOnce(before: Table, after: Table)
    requires before <= after && Distinct(after)
    ensures NoTwice(Added(before, after))
  {
    var xs := Added(before, after);
    forall i, j | 0 <= i < j < |xs| ensures xs[i] != xs[j] {
      var a, b := MaxID(before) + i, MaxID(before) + j;
      assert Get(after, a) == xs[i] && Get(after, b) == xs[j];
    }
  }

  /** Frequent strings take little room in the table: a tenth of what they took in the data. */
  lemma TableGrowth(before: Table, after: Table, seen: seq<bytes>)
    requires Frequent(before, after, seen) && Distinct(after)
    ensures 10 * TableSize(Added(before, after)) <= Weight(seen)
    ensures 4 * |Added(before, after)| <= TableSize(Added(before, after))
  {
    hide Times, Distinct, TableSize, Weight, Enc;
    var xs := Added(before, after);
    AddedOnce(before, after);
    forall i | 0 <= i < |xs| ensures Times(seen, xs[i]) >= THRESHOLD && TenSize(xs[i]) <= THRESHOLD * Size(xs[i]) {
      assert xs[i] == after[|before| + i];
    }
    TenTimes(Size, TenSize, xs, seen);
    SumTimesBelow(Size, xs, seen);
    WeightIs(seen);
    TableSizeIs(xs);
    Tenfold(xs);
    forall i | 0 <= i < |xs| ensures |xs[i]| >= 3 {
      assert xs[i] == after[|before| + i];
    }
    FourEach(xs);
  }

  lemma {:induction false} Tenfold(xs: Table)
    ensures SumFront(TenSize, xs) == 10 * SumFront(Size, xs)
    decreases |xs|
  {
    hide Size;
    if xs != [] {
      Tenfold(xs[1..]);
      assert SumFront(TenSize, xs) == TenSize(xs[0]) + SumFront(TenSize, xs[1..]);
      assert SumFront(Size, xs) == Size(xs[0]) + SumFront(Size, xs[1..]);
    }
  }

  lemma {:induction false} FourEach(xs: Table)
    requires forall i :: 0 <= i < |xs| ==> |xs[i]| >= 3
    ensures 4 * |xs| <= SumFront(Size, xs)
    decreases |xs|
  {
    hide Enc;
    if xs != [] {
      LongerThanText(xs[0]);
      FourEach(xs[1..]);
      assert SumFront(Size, xs) == Size(xs[0]) + SumFront(Size, xs[1..]);
    }
  }

  // ------------------------------------------------------------------------------ savings

  /** What replacing one string saves. */
  function Gain(st: Symtab, text: bytes): nat {
    var id := Symbolize(st, text);
    if id.Some? && |Mag(id.value)| <= |text| then |text| - |Mag(id.value)| else 0
  }

  /** Shortening a body shortens the whole by at least as much. */
  lemma TlvSaves(tag: nat, tag': nat, a: bytes, b: bytes, d: nat)
    requires tag < 16 && tag' < 16 && |a| + d <= |b|
    ensures |Tlv(tag, a)| + d <= |Tlv(tag', b)|
  {
    hide Uv;
    UvLengthMonotone(|a|, |b|);
  }

  function Gains(st: Symtab, texts: seq<bytes>): nat {
    if texts == [] then 0 else Gains(st, texts[..|texts| - 1]) + Gain(st, texts[|texts| - 1])
  }

  lemma {:induction false} GainsAppend(st: Symtab, a: seq<bytes>, b: seq<bytes>)
    ensures Gains(st, a + b) == Gains(st, a) + Gains(st, b)
    decreases |b|
  {
    hide Gain;
    if b == [] {
      assert a + b == a;
    } else {
      var k := |b| - 1;
      GainsAppend(st, a, b[..k]);
      assert (a + b)[..|a + b| - 1] == a + b[..k];
    }
  }

  lemma {:induction false} GainsAre(st: Symtab, texts: seq<bytes>)
    ensures Gains(st, texts) == Sum(x => Gain(st, x), texts)
    decreases |texts|
  {
    hide Gain;
    if texts != [] {
      GainsAre(st, texts[..|texts| - 1]);
    }
  }

  /** A value is shortened by at least what its strings save. */
  lemma {:induction false} Saves(st: Symtab, v: Ion)
    requires Roomy(st, v)
    ensures |Enc(Compressed(st, v))| + Gains(st, Strings(v)) <= |Enc(v)|
    decreases v, 1
  {
    hide Symbolize, Tlv, Mag, Uv, Gains, StringsAll, StringsFields, CompressedAll, CompressedFields, EncAll, EncFields;
    match v
    case Str(text) => SavesText(st, text);
    case List(items) =>
      SavesAll(st, items);
      TlvSaves(LIST_TYPE, LIST_TYPE, EncAll(CompressedAll(st, items)), EncAll(items), Gains(st, StringsAll(items)));
    case Struct(fields) =>
      SavesFields(st, fields);
      SavesStruct(CompressedFields(st, fields), fields, Gains(st, StringsFields(fields)));
    case _ => NoGains(st);
  }

  lemma NoGains(st: Symtab)
    ensures Gains(st, []) == 0
  {
  }

  lemma SavesText(st: Symtab, text: bytes)
    requires RoomyText(st, text)
    ensures |Enc(Compressed(st, Str(text)))| + Gains(st, [text]) <= |Enc(Str(text))|
  {
    hide Symbolize, Tlv, Mag, Uv;
    assert [text][..0] == [];
    NoGains(st);
    var id := Symbolize(st, text);
    if id.Some? {
      TlvSaves(SYMBOL_TYPE, STRING_TYPE, Mag(id.value), text, |text| - |Mag(id.value)|);
    }
  }

  lemma SavesStruct(a: seq<Field>, b: seq<Field>, d: nat)
    requires |EncFields(a)| + d <= |EncFields(b)|
    ensures |Enc(Struct(a))| + d <= |Enc(Struct(b))|
  {
    hide EncFields;
    TlvSaves(STRUCT_TYPE, STRUCT_TYPE, EncFields(a), EncFields(b), d);
    EncStruct(a);
    EncStruct(b);
  }

  lemma {:induction false} SavesAll(st: Symtab, items: seq<Ion>)
    requires forall i :: 0 <= i < |items| ==> Roomy(st, items[i])
    ensures |EncAll(CompressedAll(st, items))| + Gains(st, StringsAll(items)) <= |EncAll(items)|
    decreases items, 2
  {
    hide Enc, EncAll, Compressed, Gains, Strings, Roomy;
    if items == [] {
      NoGains(st);
      NoItemsEncode();
    } else {
      var k := |items| - 1;
      assert items == items[..k] + [items[k]];
      SavesAll(st, items[..k]);
      Saves(st, items[k]);
      EncAllSnoc(items[..k], items[k]);
      EncAllSnoc(CompressedAll(st, items[..k]), Compressed(st, items[k]));
      GainsAppend(st, StringsAll(items[..k]), Strings(items[k]));
    }
  }

  lemma {:induction false} SavesField(st: Symtab, f: Field)
    requires RoomyField(st, f)
    ensures |EncField(CompressedField(st, f))| + Gains(st, StringsField(f)) <= |EncField(f)|
    decreases f, 1
  {
    hide Enc, Compressed, Roomy, Gains, Strings, Uv;
    Saves(st, f.val);
  }

  lemma {:induction false} SavesFields(st: Symtab, fields: seq<Field>)
    requires forall i :: 0 <= i < |fields| ==> RoomyField(st, fields[i])
    ensures |EncFields(CompressedFields(st, fields))| + Gains(st, StringsFields(fields)) <= |EncFields(fields)|
    decreases fields, 2
  {
    hide EncField, EncFields, CompressedField, RoomyField, Gains, StringsField;
    if fields == [] {
      NoGains(st);
      NoFieldsEncode();
    } else {
      var k := |fields| - 1;
      assert fields == fields[..k] + [fields[k]];
      SavesFields(st, fields[..k]);
      SavesField(st, fields[k]);
      EncFieldsSnoc(fields[..k], fields[k]);
      EncFieldsSnoc(CompressedFields(st, fields[..k]), CompressedField(st, fields[k]));
      GainsAppend(st, StringsFields(fields[..k]), StringsField(fields[k]));
    }
  }

  lemma NoFieldsEncode()
    ensures EncFields([]) == []
  {
  }

  /** With two-byte symbols, ten uses save more than the place in the table costs. */
  lemma PaysForItself(st: Symtab, x: bytes, id: nat)
    requires Symbolize(st, x) == Some(id) && id < 0x1_0000 && |x| >= MIN_LENGTH && |x| < UV_LIMIT
    ensures Size(x) <= THRESHOLD * Gain(st, x)
  {
    hide Symbolize, Mag, Uv;
    assert Pow256(2) == 256 * Pow256(1) && Pow256(1) == 256 * Pow256(0);
    MagLength(id, 2);
    UvAtMost8(|x|);
    assert Gain(st, x) >= |x| - 2;
    SizeIs(x);
    assert Size(x) <= if |x| < 14 then |x| + 1 else |x| + 9;
  }

  /** The rows and the symbols added take no more room than the rows took before. */
  lemma PaysForTable(a: Symtab, b: Symtab, items: seq<Ion>)
    requires Inv(a) && Inv(b) && Frequent(a.interned, b.interned, StringsAll(items)) && MaxID(b.interned) <= 0x1_0000
    requires forall i :: 0 <= i < |items| ==> Roomy(a, items[i])
    requires |EncAll(items)| < UV_LIMIT
    ensures |EncAll(CompressedAll(b, items))| + TableSize(Added(a.interned, b.interned)) <= |EncAll(items)|
  {
    hide Times, Inv, TableSize, Enc, EncAll, Compressed, CompressedAll, Gain, Gains, StringsAll, Roomy, Size, Symbolize;
    var seen, xs := StringsAll(items), Added(a.interned, b.interned);
    forall i | 0 <= i < |items| ensures Roomy(b, items[i]) {
      RoomyGrows(a, b, seen, items[i]);
    }
    SavesAll(b, items);
    InvIsDistinct(b);
    AddedOnce(a.interned, b.interned);
    TableGrowth(a.interned, b.interned, seen);
    StringsWeighAll(items);
    TableSizeIs(xs);
    forall i | 0 <= i < |xs| ensures Times(seen, xs[i]) >= THRESHOLD && Size(xs[i]) <= THRESHOLD * (x => Gain(b, x))(xs[i]) {
      PartOfTable(xs, i);
      AddedPays(a, b, seen, i);
    }
    TenTimes(x => Gain(b, x), Size, xs, seen);
    SumTimesBelow(x => Gain(b, x), xs, seen);
    GainsAre(b, seen);
  }

  lemma AddedPays(a: Symtab, b: Symtab, seen: seq<bytes>, i: nat)
    requires Inv(b) && Frequent(a.interned, b.interned, seen) && MaxID(b.interned) <= 0x1_0000
    requires i < |Added(a.interned, b.interned)| && |Added(a.interned, b.interned)[i]| < UV_LIMIT
    ensures var x := Added(a.interned, b.interned)[i]; Times(seen, x) >= THRESHOLD && Size(x) <= THRESHOLD * Gain(b, x)
  {
    hide Times, Inv, Gain, Size, Symbolize;
    var x, id := Added(a.interned, b.interned)[i], MaxID(a.interned) + i;
    assert x == b.interned[|a.interned| + i] == Get(b.interned, id);
    SymbolizeSpec(b, x);
    PaysForItself(b, x, id);
  }

  lemma {:induction false} PartOfTable(xs: Table, i: nat)
    requires i < |xs|
    ensures |xs[i]| < Size(xs[i]) <= TableSize(xs)
    decreases i
  {
    hide Enc;
    assert Strs(xs)[0] == Str(xs[0]) && Strs(xs)[1..] == Strs(xs[1..]);
    LongerThanText(xs[0]);
    if i > 0 { PartOfTable(xs[1..], i - 1); }
  }

  lemma SizeIs(x: bytes)
    ensures Size(x) == |Tlv(STRING_TYPE, x)|
  {
    hide Tlv;
    var v := Str(x);
    assert Body(v) == x && Tag(v) == STRING_TYPE;
    assert Enc(v) == Tlv(Tag(v), Body(v));
  }

  lemma LongerThanText(x: bytes)
    ensures |Enc(Str(x))| > |x|
  {
  }

  // --------------------------------------------------------------------------- whole blocks

  /** The symbols readers of the block do not have yet. */
  function Unsent(b: Block): Table {
    if SYSTEM_COUNT < b.flushID <= MaxID(b.symbols.interned) then b.symbols.interned[b.flushID - SYSTEM_COUNT..]
    else b.symbols.interned
  }

  /** Everything around the strings of a table. */
  const TABLE_OVERHEAD: nat := 44

  lemma HeadLength(h: Head)
    requires HeadFits(h) && !h.NoTable?
    ensures |HeadBytes(h)| <= TableSize(h.syms) + TABLE_OVERHEAD
  {
    hide TableSize, EncFields, Tlv;
    var v := TableTree(h.syms, h.Fresh?);
    TableFieldsSize(h.syms, h.Fresh?);
    HeaderIsShort(STRUCT_TYPE, EncFields(v.val.fields));
    EncStruct(v.val.fields);
    assert Uv(1) == [129] && Uv(3) == [131];
    assert |Body(v)| == 2 + |Enc(v.val)|;
    HeaderIsShort(ANNOTATION_TYPE, Body(v));
  }

  /** The rows, the symbols to be sent with them and the rest of a table fit into a block, no string
      is shorter than its symbol, and symbols keep to two bytes. */
  predicate HasSlack(b: Block, g: Shadow, align: nat) {
    && |EncAll(g.all)| + TableSize(Unsent(b)) + TABLE_OVERHEAD <= align
    && MaxID(b.symbols.interned) + |EncAll(g.all)| / 40 <= 0x1_0000
    && forall i :: g.ncomp <= i < |g.all| ==> Roomy(b.symbols, g.all[i])
  }

  lemma NewHeadIs(b: Block, after: Table)
    requires b.symbols.interned <= after && (b.flushID == 0 || SYSTEM_COUNT < b.flushID <= MaxID(b.symbols.interned))
    ensures var h := NewHead(after, b.flushID); !h.NoTable? && h.syms == Unsent(b) + Added(b.symbols.interned, after)
  {
    var tab := b.symbols.interned;
    assert after == tab + after[|tab|..];
  }

  lemma TableSizeAppend(a: Table, b: Table)
    ensures TableSize(a + b) == TableSize(a) + TableSize(b)
  {
    hide TableSize;
    assert (a + b)[..|a|] == a && (a + b)[|a|..] == b;
    TableSizeSplit(a + b, |a|);
  }

  lemma UnsentPart(b: Block)
    ensures TableSize(Unsent(b)) <= TableSize(b.symbols.interned)
  {
    hide TableSize;
    if SYSTEM_COUNT < b.flushID <= MaxID(b.symbols.interned) {
      TableSizeSplit(b.symbols.interned, b.flushID - SYSTEM_COUNT);
    }
  }

  /** With such slack a compressed block is never longer than a block. */
  lemma SlackSuffices(b: Block, g: Shadow, align: nat, hash: bytes -> nat)
    requires BlockOk(b, g) && Fits(b.symbols.interned, |b.buf|) && HasSlack(b, g, align)
    requires Attempt(b, g, hash).Rewritten?
    ensures |Attempt(b, g, hash).buf| <= align
  {
    hide Inv, TableSize, Enc, EncAll, HeadBytes, CompressedAll, StringsAll, Roomy, Times, Ids, RowsOk, Labelled, ItemsOk, ScanOf, Frequent, Scanned, NewHead;
    CutCompressed(b, g);
    var done, todo := g.all[..g.ncomp], g.all[g.ncomp..];
    var w, tab := Attempt(b, g, hash), b.symbols.interned;
    IdsOrdered(tab, b.flushID, b.tmpID, Held(g), g.head);
    RewritingSpec(b.symbols, hash, b.flushID, done, todo);
    RewrittenIs(b, g, hash);
    CutAt([], g.all, g.ncomp);
    assert forall i :: 0 <= i < |todo| ==> todo[i] == g.all[g.ncomp + i];
    ScannedIsPrefix(b.symbols, w.st, |EncAll(todo)|);
    FewAdded(b.symbols, w.st, todo);
    PaysForTable(b.symbols, w.st, todo);
    NewHeadIs(b, w.st.interned);
    var h := NewHead(w.st.interned, b.flushID);
    TableSizeAppend(Unsent(b), Added(tab, w.st.interned));
    UnsentPart(b);
    HeadLength(h);
  }

  lemma FewAdded(a: Symtab, b: Symtab, items: seq<Ion>)
    requires Inv(b) && Frequent(a.interned, b.interned, StringsAll(items))
    ensures a.interned <= b.interned && MaxID(b.interned) <= MaxID(a.interned) + |EncAll(items)| / 40
  {
    hide Inv, TableSize, EncAll, StringsAll, Times, Weight;
    InvIsDistinct(b);
    TableGrowth(a.interned, b.interned, StringsAll(items));
    StringsWeighAll(items);
  }
}
