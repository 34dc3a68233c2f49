/** The reading side of a block stream: symbol tables update the reader, structs are rows,
    anything else is skipped (`Chunker.Write`, `Decoder.Decode`). */
module IonStream {
  import opened IonCodec
  import opened IonTree
  import opened IonValue
  import opened IonMarshal
  import opened IonPad

  /** Rows read from src by a reader that holds tab, and the table it ends with. */
  function ReadStream(tab: Table, src: bytes): Option<(seq<Value>, Table)>
    decreases |src|
  {
    if src == [] then Some(([], tab))
    else if IsBVM(src) || TypeOf(src) == ANNOTATION_TYPE then
      match Unmarshal(tab, src)
      case None => None
      case Some((now, rest)) => ReadStream(now, rest)
    else
      var size := SizeOf(src);
      if size <= 0 || size > |src| then None
      else if TypeOf(src) != STRUCT_TYPE then ReadStream(tab, src[size..])
      else match ReadRow(tab, src[..size])
        case None => None
        case Some(row) =>
          match ReadStream(tab, src[size..])
          case None => None
          case Some((rows, last)) => Some(([row] + rows, last))
  }

  /** One row: it must decode completely and use defined symbols only. */
  function ReadRow(tab: Table, dat: bytes): Option<Value> {
    match Dec(dat)
    case None => None
    case Some((v, rest)) => if rest == [] && Resolves(tab, v) then Some(Meaning(tab, v)) else None
  }

  // -------------------------------------------------------------- what writers put out

  /** A symbol table: none, a fresh one, or an extension of the current one. */
  datatype Head = NoTable | Fresh(syms: Table) | Extend(syms: Table)

  datatype Item = Tab(head: Head) | Row(v: Ion) | Pad(raw: bytes)

  function HeadBytes(h: Head): bytes {
    match h
    case NoTable => []
    case Fresh(syms) => BVM + Enc(TableTree(syms, true))
    case Extend(syms) => Enc(TableTree(syms, false))
  }

  function Learned(tab: Table, h: Head): Table {
    match h
    case NoTable => tab
    case Fresh(syms) => syms
    case Extend(syms) => tab + syms
  }

  predicate HeadFits(h: Head) {
    h.NoTable? || TableSize(h.syms) + 64 < UV_LIMIT
  }

  function EncItem(i: Item): bytes {
    match i
    case Tab(h) => HeadBytes(h)
    case Row(v) => Enc(v)
    case Pad(raw) => raw
  }

  function EncItems(items: seq<Item>): bytes {
    if items == [] then [] else EncItem(items[0]) + EncItems(items[1..])
  }

  function TableAfterItem(tab: Table, i: Item): Table {
    if i.Tab? then Learned(tab, i.head) else tab
  }

  predicate RowOk(tab: Table, v: Ion) {
    v.Struct? && WF(v) && Resolves(tab, v)
  }

  predicate ItemOk(tab: Table, i: Item) {
    match i
    case Tab(h) => HeadFits(h)
    case Row(v) => RowOk(tab, v)
    case Pad(raw) => IsPads(raw)
  }

  function RowsOfItem(tab: Table, i: Item): seq<Value> {
    if i.Row? then [Meaning(tab, i.v)] else []
  }

  predicate ItemsOk(tab: Table, items: seq<Item>)
    decreases |items|
  {
    items == [] || (ItemOk(tab, items[0]) && ItemsOk(TableAfterItem(tab, items[0]), items[1..]))
  }

  function TableAfter(tab: Table, items: seq<Item>): Table
    decreases |items|
  {
    if items == [] then tab else TableAfter(TableAfterItem(tab, items[0]), items[1..])
  }

  function RowsOf(tab: Table, items: seq<Item>): seq<Value>
    decreases |items|
  {
    if items == [] then []
    else RowsOfItem(tab, items[0]) + RowsOf(TableAfterItem(tab, items[0]), items[1..])
  }

  // ------------------------------------------------------------------ reading items back

  lemma {:induction false} ReadPads(tab: Table, raw: bytes, rest: bytes)
    requires IsPads(raw)
    ensures ReadStream(tab, raw + rest) == ReadStream(tab, rest)
    decreases |raw|
  {
    hide Unmarshal, ReadRow;
    if raw == [] {
      assert raw + rest == rest;
    } else {
      var n := SizeOf(raw);
      SizeOfIgnoresTail(raw, rest);
      var src := raw + rest;
      assert src[0] == raw[0] && src[..n][0] == raw[0];
      assert src[n..] == raw[n..] + rest;
      ReadPads(tab, raw[n..], rest);
    }
  }

  lemma ReadRowBack(tab: Table, v: Ion)
    requires WF(v) && Resolves(tab, v)
    ensures ReadRow(tab, Enc(v)) == Some(Meaning(tab, v))
  {
    DecEnc(v, []);
    assert Enc(v) + [] == Enc(v);
  }

  /** A table in the stream brings the reader up to date. */
  lemma ReadHead(tab: Table, h: Head, rest: bytes)
    requires HeadFits(h)
    ensures ReadStream(tab, HeadBytes(h) + rest) == ReadStream(Learned(tab, h), rest)
  {
    hide Enc, UnmarshalTable, TableSize, TableTree, SizeOf, ReadRow;
    match h
    case NoTable =>
      assert [] + rest == rest;
    case Fresh(syms) =>
      TableTreeWellFormed(syms, true);
      UnmarshalTree([], syms, true, rest);
      MarkerPrefix(Enc(TableTree(syms, true)), rest);
      assert [] + syms == syms;
    case Extend(syms) =>
      TableTreeWellFormed(syms, false);
      UnmarshalTree(tab, syms, false, rest);
  }

  lemma StructType(v: Ion, rest: bytes)
    requires v.Struct? && WF(v)
    ensures var src := Enc(v) + rest;
      && |src| > 0 && TypeOf(src) == STRUCT_TYPE && !IsBVM(src)
      && SizeOf(src) == |Enc(v)| && 0 < |Enc(v)|
      && src[..|Enc(v)|] == Enc(v) && src[|Enc(v)|..] == rest
      && TypeOf(Enc(v)) == STRUCT_TYPE
  {
    EncFraming(v, rest);
    EncStruct(v.fields);
  }

  lemma ReadStruct(tab: Table, v: Ion, rest: bytes)
    requires RowOk(tab, v)
    ensures ReadStream(tab, Enc(v) + rest)
         == match ReadStream(tab, rest)
            case None => None
            case Some((rows, last)) => Some(([Meaning(tab, v)] + rows, last))
  {
    hide Unmarshal, ReadRow, Enc, WF, IsBVM, Meaning, SizeOf, Resolves;
    StructType(v, rest);
    ReadRowBack(tab, v);
  }

  /** A reader recovers every row and ends with the writer's table. */
  lemma {:induction false} ReadItems(tab: Table, items: seq<Item>, rest: bytes)
    requires ItemsOk(tab, items)
    ensures ReadStream(tab, EncItems(items) + rest)
         == match ReadStream(TableAfter(tab, items), rest)
            case None => None
            case Some((rows, last)) => Some((RowsOf(tab, items) + rows, last))
    decreases |items|
  {
    hide ReadStream, Enc, HeadBytes, Meaning, Learned, ItemOk, IsPads;
    if items == [] {
      assert EncItems(items) + rest == rest;
      assert forall rows: seq<Value> :: [] + rows == rows;
    } else {
      var i, more := items[0], EncItems(items[1..]) + rest;
      var next := TableAfterItem(tab, i);
      ReadItems(next, items[1..], rest);
      assert EncItems(items) + rest == EncItem(i) + more;
      ReadOne(tab, i, more);
      Regroup3(RowsOfItem(tab, i), RowsOf(next, items[1..]), ReadStream(TableAfter(next, items[1..]), rest));
    }
  }

  lemma Regroup3(a: seq<Value>, b: seq<Value>, c: Option<(seq<Value>, Table)>)
    ensures c.Some? ==> a + (b + c.value.0) == (a + b) + c.value.0
  {
  }

  lemma ReadOne(tab: Table, i: Item, more: bytes)
    requires ItemOk(tab, i)
    ensures ReadStream(tab, EncItem(i) + more)
         == match ReadStream(TableAfterItem(tab, i), more)
            case None => None
            case Some((rows, last)) => Some((RowsOfItem(tab, i) + rows, last))
  {
    hide ReadStream, Enc, HeadBytes, Meaning, Learned, IsPads, RowOk;
    assert forall rows: seq<Value> :: [] + rows == rows;
    match i
    case Tab(h) => ReadHead(tab, h, more);
    case Row(v) => ReadStruct(tab, v, more);
    case Pad(raw) => ReadPads(tab, raw, more);
  }

  lemma Assoc3(a: bytes, b: bytes, c: bytes)
    ensures a + b + c == a + (b + c)
  {
  }

  /** Reading the whole of what was written. */
  lemma ReadAllItems(tab: Table, items: seq<Item>)
    requires ItemsOk(tab, items)
    ensures ReadStream(tab, EncItems(items)) == Some((RowsOf(tab, items), TableAfter(tab, items)))
  {
    ReadItems(tab, items, []);
    assert EncItems(items) + [] == EncItems(items);
    assert RowsOf(tab, items) + [] == RowsOf(tab, items);
  }

  // ------------------------------------------------------------------------- appending

  lemma {:induction false} ItemsAppend(tab: Table, a: seq<Item>, b: seq<Item>)
    ensures EncItems(a + b) == EncItems(a) + EncItems(b)
    ensures TableAfter(tab, a + b) == TableAfter(TableAfter(tab, a), b)
    ensures RowsOf(tab, a + b) == RowsOf(tab, a) + RowsOf(TableAfter(tab, a), b)
    ensures ItemsOk(tab, a + b) <==> ItemsOk(tab, a) && ItemsOk(TableAfter(tab, a), b)
    decreases |a|
  {
    hide EncItem, ItemOk, RowsOfItem, TableAfterItem;
    if a == [] {
      assert a + b == b;
    } else {
      assert (a + b)[0] == a[0] && (a + b)[1..] == a[1..] + b;
      ItemsAppend(TableAfterItem(tab, a[0]), a[1..], b);
    }
  }

  function PlainRows(rows: seq<Ion>): (r: seq<Item>)
    ensures |r| == |rows|
  {
    if rows == [] then [] else PlainRows(rows[..|rows| - 1]) + [Row(rows[|rows| - 1])]
  }

  predicate RowsOk(tab: Table, rows: seq<Ion>) {
    forall i :: 0 <= i < |rows| ==> RowOk(tab, rows[i])
  }

  lemma ItemAlone(tab: Table, i: Item)
    ensures EncItems([i]) == EncItem(i)
    ensures TableAfter(tab, [i]) == TableAfterItem(tab, i)
    ensures RowsOf(tab, [i]) == RowsOfItem(tab, i)
    ensures ItemsOk(tab, [i]) <==> ItemOk(tab, i)
  {
    assert [i][1..] == [];
  }

  lemma {:induction false} PlainRowsRead(tab: Table, rows: seq<Ion>)
    requires RowsOk(tab, rows)
    ensures EncItems(PlainRows(rows)) == EncAll(rows)
    ensures ItemsOk(tab, PlainRows(rows))
    ensures TableAfter(tab, PlainRows(rows)) == tab
    ensures RowsOf(tab, PlainRows(rows)) == MeaningAll(tab, rows)
    decreases |rows|
  {
    hide RowOk, EncItems, EncAll, ItemsOk, TableAfter, RowsOf, MeaningAll, Enc, WF, Resolves;
    if rows == [] {
      EmptyRows(tab);
    } else {
      var init, last := rows[..|rows| - 1], rows[|rows| - 1];
      PlainRowsRead(tab, init);
      assert rows == init + [last];
      ItemAlone(tab, Row(last));
      ItemsAppend(tab, PlainRows(init), [Row(last)]);
      EncAllSnoc(init, last);
      MeaningAllSnoc(tab, init, last);
    }
  }

  lemma EmptyRows(tab: Table)
    ensures EncItems([]) == [] && EncAll([]) == []
    ensures ItemsOk(tab, []) && TableAfter(tab, []) == tab
    ensures RowsOf(tab, []) == [] && MeaningAll(tab, []) == []
  {
  }

  // ------------------------------------------------------------------------ one block

  /** A block: table, rows and padding. */
  function BlockItems(h: Head, rows: seq<Ion>, pad: bytes): seq<Item> {
    [Tab(h)] + PlainRows(rows) + [Pad(pad)]
  }

  /** What a reader holding `held` makes of one block. */
  lemma BlockReads(held: Table, h: Head, rows: seq<Ion>, pad: bytes)
    requires HeadFits(h) && IsPads(pad) && RowsOk(Learned(held, h), rows)
    ensures EncItems(BlockItems(h, rows, pad)) == HeadBytes(h) + EncAll(rows) + pad
    ensures ItemsOk(held, BlockItems(h, rows, pad))
    ensures TableAfter(held, BlockItems(h, rows, pad)) == Learned(held, h)
    ensures RowsOf(held, BlockItems(h, rows, pad)) == MeaningAll(Learned(held, h), rows)
  {
    hide EncItems, ItemsOk, TableAfter, RowsOf, RowOk, MeaningAll, EncAll, IsPads, HeadBytes, HeadFits, Learned;
    var now := Learned(held, h);
    ItemAlone(held, Tab(h));
    PlainRowsRead(now, rows);
    ItemAlone(now, Pad(pad));
    ItemsAppend(held, [Tab(h)], PlainRows(rows));
    ItemsAppend(held, [Tab(h)] + PlainRows(rows), [Pad(pad)]);
    assert [] + MeaningAll(now, rows) + [] == MeaningAll(now, rows);
  }

  // -------------------------------------------------------------- reading item by item

  /** What the front of a stream looks like, by kind of its first item. */
  lemma TableInFront(tab: Table, h: Head, rest: bytes)
    requires HeadFits(h) && !h.NoTable?
    ensures var src := HeadBytes(h) + rest;
      && |src| > 0 && (IsBVM(src) || TypeOf(src) == ANNOTATION_TYPE)
      && (IsBVM(src) <==> h.Fresh?)
      && Unmarshal(tab, src) == Some((Learned(tab, h), rest))
  {
    hide Enc, UnmarshalTable, TableSize, TableTree, SizeOf;
    TableTreeWellFormed(h.syms, h.Fresh?);
    var at := if h.Fresh? then [] else tab;
    UnmarshalTree(at, h.syms, h.Fresh?, rest);
    MarkerPrefix(Enc(TableTree(h.syms, true)), rest);
    assert [] + h.syms == h.syms;
  }

  /** The size of a table, counted the way `Peek` does. */
  lemma TableSizeInFront(h: Head, rest: bytes)
    requires HeadFits(h) && !h.NoTable?
    ensures var src := HeadBytes(h) + rest;
      var skip := if IsBVM(src) then 4 else 0;
      && skip < |src| && TypeOf(src[skip..]) == ANNOTATION_TYPE
      && SizeOf(src[skip..]) + skip == |HeadBytes(h)|
  {
    hide Enc, UnmarshalTable, TableSize, TableTree, SizeOf;
    TableTreeWellFormed(h.syms, h.Fresh?);
    var v := TableTree(h.syms, h.Fresh?);
    UnmarshalTree([], h.syms, h.Fresh?, rest);
    MarkerPrefix(Enc(v), rest);
    EncFraming(v, rest);
  }

  lemma PadInFront(raw: bytes, rest: bytes)
    requires IsPads(raw) && raw != []
    ensures TypeOf(raw + rest) == NULL_TYPE && !IsBVM(raw + rest)
    ensures SizeOf(raw + rest) == SizeOf(raw) && 0 < SizeOf(raw) <= |raw| && IsPads(raw[SizeOf(raw)..])
    ensures TypeOf((raw + rest)[..SizeOf(raw)]) == NULL_TYPE && (raw + rest)[SizeOf(raw)..] == raw[SizeOf(raw)..] + rest
  {
    hide SizeOf, TypeOf, IsBVM;
    var n := SizeOf(raw);
    var src := raw + rest;
    SizeOfIgnoresTail(raw, rest);
    SameFirst(raw, src);
    SameFirst(raw, src[..n]);
    Behind(raw, rest, n);
  }

  lemma Behind(a: bytes, b: bytes, n: nat)
    requires n <= |a|
    ensures (a + b)[n..] == a[n..] + b
  {
  }

  lemma SameFirst(a: bytes, b: bytes)
    requires |a| > 0 && |b| > 0 && a[0] == b[0]
    ensures TypeOf(a) == TypeOf(b) && (TypeOf(b) == NULL_TYPE ==> !IsBVM(b))
  {
  }

  /** Items without bytes in front of the first one with bytes. */
  function DropEmpty(items: seq<Item>): seq<Item> {
    if items != [] && EncItem(items[0]) == [] then DropEmpty(items[1..]) else items
  }

  lemma {:induction false} DropEmptyReads(tab: Table, items: seq<Item>)
    requires ItemsOk(tab, items)
    ensures var rest := DropEmpty(items);
      && EncItems(rest) == EncItems(items) && RowsOf(tab, rest) == RowsOf(tab, items)
      && ItemsOk(tab, rest) && TableAfter(tab, rest) == TableAfter(tab, items)
      && (rest != [] ==> EncItem(rest[0]) != [])
    decreases |items|
  {
    hide ItemOk, Enc, HeadBytes, Meaning;
    if items != [] && EncItem(items[0]) == [] {
      EmptyItem(tab, items[0]);
      DropEmptyReads(tab, items[1..]);
    }
  }

  lemma EmptyHead(h: Head)
    requires HeadFits(h)
    ensures |HeadBytes(h)| == 0 <==> h.NoTable?
  {
    hide Enc, TableTree, TableSize;
    if h.Extend? {
      TableTreeWellFormed(h.syms, false);
      EncFraming(TableTree(h.syms, false), []);
    }
  }

  lemma EmptyItem(tab: Table, i: Item)
    requires ItemOk(tab, i) && EncItem(i) == []
    ensures TableAfterItem(tab, i) == tab && RowsOfItem(tab, i) == [] && !i.Row?
    ensures i == Tab(NoTable) || i == Pad([])
  {
    hide Enc, HeadBytes, Meaning, HeadFits, IsPads, WF, Resolves;
    match i
    case Tab(h) => EmptyHead(h);
    case Row(v) => StructType(v, []);
    case Pad(raw) =>
  }
}
