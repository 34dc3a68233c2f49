/** Whole runs of a Chunker: `Datum.Encode` and `Chunker.ReadFrom`. */
module IonIngest {
  import opened IonCodec
  import opened IonTree
  import opened IonValue
  import opened IonSymtab
  import opened IonBuffer
  import opened IonMarshal
  import opened IonPad
  import opened IonRecode
  import opened IonResym
  import opened IonResymbolize
  import opened IonStream
  import opened IonBlock
  import opened IonChunker
  import IonCompress
  import IonGrowth

  // ----------------------------------------------------------------------- one row

  /** `Datum.Encode`: a copy where the tables agree, a translation otherwise. */
  method Encode(dat: bytes, tab: Table, st: Symtab, ghost v: Ion) returns (enc: bytes, now: Symtab, ghost w: Ion)
    requires dat == Enc(v) && RowOk(tab, v) && HasOwnLabel(v) && Distinct(tab) && Inv(st)
    requires HasRoom(st.interned, |dat|)
    ensures enc == Enc(w) && RowOk(now.interned, w) && HasOwnLabel(w)
    ensures Inv(now) && st.interned <= now.interned
    ensures Meaning(now.interned, w) == Meaning(tab, v)
  {
    hide Enc, WF, Inv, Distinct, CacheSound, Meaning, HasOwnLabel, Resolves;
    if tab <= st.interned {
      MeaningExtends(tab, st.interned, v);
      return dat, st, v;
    }
    var rs := new Resymbolizer(tab, st);
    enc, w := Translate(rs, dat, v);
    now := rs.dsttab;
  }

  /** `resym` of one row into a buffer of its own. */
  method Translate(rs: Resymbolizer, dat: bytes, ghost v: Ion) returns (enc: bytes, ghost w: Ion)
    requires rs.Valid() && dat == Enc(v) && RowOk(rs.srctab, v) && HasOwnLabel(v)
    requires HasRoom(rs.dsttab.interned, |dat|)
    modifies rs`idmap, rs`dsttab
    ensures rs.Valid() && old(rs.dsttab.interned) <= rs.dsttab.interned
    ensures enc == Enc(w) && RowOk(rs.dsttab.interned, w) && HasOwnLabel(w)
    ensures Meaning(rs.dsttab.interned, w) == Meaning(rs.srctab, v)
  {
    hide StackBytes, SegsMatch, Enc, WF, Inv, Distinct, CacheSound, Meaning, HasOwnLabel, Resolves;
    var dst := new Buffer();
    StackOfNone(dst.base);
    var rest;
    assert dat == Enc(v) + [];
    rest, w := rs.Resym(dst, dat, v, []);
    StackOfNone(dst.base);
    OwnLabelSurvives(rs.srctab, rs.dsttab.interned, v, w);
    LabelledIsStruct(w);
    enc := dst.buf;
  }

  /** Encode one row and commit it. */
  method PutRow(c: Chunker, dat: bytes, tab: Table, ghost v: Ion) returns (res: Outcome)
    requires c.Valid() && |c.g.all| == c.g.n
    requires dat == Enc(v) && RowOk(tab, v) && HasOwnLabel(v) && Distinct(tab)
    modifies c, c.ranges
    ensures c.Live() && old(c.out) <= c.out && c.noCompress == old(c.noCompress)
    ensures res.Ok? ==> c.Valid() && |c.g.all| == c.g.n
    ensures !res.Malformed? && (res.Panicked? ==> old(c.b).lastoff > c.align)
    ensures res.Ok? && c.b.lastoff > c.align ==> !c.noCompress
    ensures res.Ok? ==> c.Rows() == old(c.Rows()) + [Meaning(tab, v)]
    ensures res.Ok? ==> c.Times() == old(c.Times()) + [old(c.pendingTimes)] && c.pendingTimes == map[]
  {
    hide Enc, Inv, Distinct, Meaning, HasOwnLabel, RowOk, HasRoom, Fits, BlockOk, IonGrowth.Roomy, IonCompress.Compressed, NoRoom, Covered, Wire, Total, IonRanges.Tracks, AllReported, FlatTimes;
    if !HasRoom(c.b.symbols.interned, |dat|) {
      return OutOfRange;
    }
    KnownTable(c.b, c.g);
    var enc, st, w := Encode(dat, tab, c.b.symbols, v);
    c.Append(enc, st, w);
    if !Fits(c.b.symbols.interned, 5 * |c.b.buf|) {
      return OutOfRange;
    }
    res := c.Commit();
  }

  lemma KnownTable(b: Block, g: Shadow)
    requires BlockOk(b, g)
    ensures Inv(b.symbols)
  {
  }

  // --------------------------------------------------------------------- whole streams

  lemma {:induction false} DropEmptyPortable(tab: Table, items: seq<Item>)
    requires ItemsOk(tab, items) && Portable(tab, items)
    ensures Portable(tab, DropEmpty(items))
    decreases |items|
  {
    hide ItemOk, Enc, HeadBytes, HasOwnLabel, Distinct;
    if items != [] && EncItem(items[0]) == [] {
      EmptyItem(tab, items[0]);
      DropEmptyPortable(tab, items[1..]);
    }
  }

  /** What is left to read. */
  ghost predicate Left(tab: Table, src: bytes, todo: seq<Item>) {
    src == EncItems(todo) && ItemsOk(tab, todo) && Portable(tab, todo)
  }

  /** The first item with bytes, and what follows it. */
  lemma NextItem(tab: Table, src: bytes, todo: seq<Item>) returns (i: Item, more: seq<Item>)
    requires Left(tab, src, todo) && src != []
    ensures src == EncItem(i) + EncItems(more) && EncItem(i) != [] && ItemOk(tab, i)
    ensures i.Row? ==> HasOwnLabel(i.v) && Distinct(tab)
    ensures Left(TableAfterItem(tab, i), EncItems(more), more)
    ensures RowsOf(tab, todo) == RowsOfItem(tab, i) + RowsOf(TableAfterItem(tab, i), more)
  {
    hide ItemOk, EncItem, RowsOfItem, TableAfterItem, HasOwnLabel, Distinct;
    DropEmptyReads(tab, todo);
    DropEmptyPortable(tab, todo);
    var rest := DropEmpty(todo);
    i, more := rest[0], rest[1..];
  }

  /** The bytes of an item decide how it is read: size and type the way `Peek` sees them. */
  lemma PeekItem(tab: Table, i: Item, rest: bytes)
    requires ItemOk(tab, i) && EncItem(i) != []
    ensures var src := EncItem(i) + rest;
      var skip := if IsBVM(src) then 4 else 0;
      && skip < |src| && (TypeOf(src[skip..]) == NULL_TYPE <==> i.Pad?)
      && (i.Pad? ==> skip == 0 && 0 < SizeOf(src) <= |i.raw| && src[SizeOf(src)..] == i.raw[SizeOf(src)..] + rest
                     && IsPads(i.raw[SizeOf(src)..]) && TypeOf(src[..SizeOf(src)]) == NULL_TYPE)
      && (!i.Pad? ==> SizeOf(src[skip..]) + skip == |EncItem(i)|)
    ensures i.Tab? ==> IsBVM(EncItem(i)) || TypeOf(EncItem(i)) == ANNOTATION_TYPE
    ensures i.Tab? ==> Unmarshal(tab, EncItem(i)) == Some((Learned(tab, i.head), []))
    ensures i.Row? ==> !IsBVM(EncItem(i)) && TypeOf(EncItem(i)) == STRUCT_TYPE
  {
    hide Unmarshal, SizeOf, TypeOf, IsBVM, HeadBytes, Enc, HeadFits, RowOk, IsPads;
    match i
    case Tab(h) =>
      EmptyHead(h);
      TableSizeInFront(h, rest);
      TableInFront(tab, h, []);
      assert HeadBytes(h) + [] == HeadBytes(h);
    case Row(v) =>
      RowInFront(tab, v, rest);
      RowInFront(tab, v, []);
      assert Enc(v) + [] == Enc(v);
    case Pad(raw) =>
      PadInFront(raw, rest);
      assert (raw + rest)[0..] == raw + rest;
  }

  lemma RowInFront(tab: Table, v: Ion, rest: bytes)
    requires RowOk(tab, v)
    ensures var src := Enc(v) + rest;
      && |src| > 0 && TypeOf(src) == STRUCT_TYPE && !IsBVM(src) && SizeOf(src) == |Enc(v)| && src[0..] == src
  {
    hide SizeOf, IsBVM, TypeOf, Enc;
    StructType(v, rest);
  }

  /** One step of `ReadFrom`: skip a pad, learn a table, or put a row. */
  method ReadOne(c: Chunker, src: bytes, tab: Table, ghost todo: seq<Item>)
    returns (res: Outcome, rest: bytes, now: Table, ghost left: seq<Item>)
    requires c.Valid() && |c.g.all| == c.g.n && Left(tab, src, todo) && src != []
    modifies c, c.ranges
    ensures c.Live() && old(c.out) <= c.out && c.noCompress == old(c.noCompress)
    ensures res.Ok? ==> c.Valid() && |c.g.all| == c.g.n && Left(now, rest, left) && |rest| < |src|
    ensures res.Ok? ==> c.Rows() + RowsOf(now, left) == old(c.Rows()) + RowsOf(tab, todo)
    ensures !res.Malformed?
  {
    hide EncItems, RowsOf, Left, Unmarshal, SizeOf, TypeOf, IsBVM, Enc, HeadBytes, Meaning, HasOwnLabel, Distinct, RowOk, IsPads;
    hide BlockOk, Wire, IonRanges.Tracks, AllReported, Covered, Total;
    ghost var i, more := NextItem(tab, src, todo);
    PeekItem(tab, i, EncItems(more));
    var skip := if IsBVM(src) then 4 else 0;
    var p := src[skip..];
    var size := ComputeSizeOf(p);
    size := size + skip;
    if TypeOf(p) == NULL_TYPE {
      left := [Pad(i.raw[size..])] + more;
      PadPut(tab, i, i.raw[size..], more);
      return Ok, src[size..], tab, left;
    }
    if size >= c.align {
      return TooLarge, src, tab, todo;
    }
    var dat := src[..size];
    rest, left := src[size..], more;
    if IsBVM(dat) || TypeOf(dat) == ANNOTATION_TYPE {
      match Unmarshal(tab, dat)
      case None => return Malformed, src, tab, todo;
      case Some((grown, _)) => return Ok, rest, grown, more;
    }
    now := tab;
    res := PutRow(c, dat, tab, i.v);
  }

  /** `Chunker.ReadFrom`: on success the blocks written hold the chunker's rows followed by those
      of the source, and every block is exactly `align` bytes long. */
  method ReadFrom(c: Chunker, src: bytes, ghost items: seq<Item>) returns (res: Outcome)
    requires c.Valid() && |c.g.all| == c.g.n
    requires src == EncItems(items) && ItemsOk([], items) && Portable([], items)
    modifies c, c.ranges
    ensures c.Live() && old(c.out) <= c.out && !res.Malformed?
    ensures forall i :: 0 <= i < |c.out| ==> |c.out[i]| == c.align
    ensures ReadStream([], src) == Some((RowsOf([], items), TableAfter([], items)))
    ensures res.Ok? ==> c.Rows() == old(c.Rows()) + RowsOf([], items)
    ensures res.Ok? ==> c.g.all == [] && ReadStream([], Flat(c.out)) == Some((c.Rows(), Held(c.g)))
  {
    hide EncItem, EncItems, RowsOf, Left, Unmarshal, ItemsOk, Portable, Fits, ReadStream, TableAfter;
    ReadAllItems([], items);
    hide BlockOk, IonRanges.Tracks, AllReported, Covered, Total;
    var rest, tab := src, [];
    ghost var todo := items;
    StartReading([], src, items);
    while rest != []
      invariant c.Valid() && |c.g.all| == c.g.n && Left(tab, rest, todo) && old(c.out) <= c.out
      invariant c.Rows() + RowsOf(tab, todo) == old(c.Rows()) + RowsOf([], items)
      decreases |rest|
    {
      var r, rest', tab';
      ghost var todo';
      r, rest', tab', todo' := ReadOne(c, rest, tab, todo);
      if !r.Ok? {
        return r;
      }
      rest, tab, todo := rest', tab', todo';
    }
    NothingLeft(tab, todo);
    assert c.Rows() + [] == c.Rows();
    if !Fits(c.b.symbols.interned, 5 * |c.b.buf|) {
      return OutOfRange;
    }
    res := c.Flush();
  }

  lemma StartReading(tab: Table, src: bytes, items: seq<Item>)
    requires src == EncItems(items) && ItemsOk(tab, items) && Portable(tab, items)
    ensures Left(tab, src, items)
  {
  }

  lemma NothingLeft(tab: Table, todo: seq<Item>)
    requires Left(tab, [], todo)
    ensures RowsOf(tab, todo) == []
  {
    hide ItemsOk, RowsOf, Portable, EncItem;
    DropEmptyReads(tab, todo);
    NoItems(tab, DropEmpty(todo));
  }

  lemma NoItems(tab: Table, rest: seq<Item>)
    requires EncItems(rest) == [] && (rest != [] ==> EncItem(rest[0]) != [])
    ensures RowsOf(tab, rest) == []
  {
  }

  lemma PadPut(tab: Table, i: Item, raw: bytes, more: seq<Item>)
    requires i.Pad? && Left(TableAfterItem(tab, i), EncItems(more), more)
    ensures IsPads(raw) ==> Left(tab, raw + EncItems(more), [Pad(raw)] + more)
    ensures RowsOf(tab, [Pad(raw)] + more) == RowsOf(tab, more)
  {
    var all := [Pad(raw)] + more;
    assert all[0] == Pad(raw) && all[1..] == more;
    assert [] + RowsOf(tab, more) == RowsOf(tab, more);
  }

  lemma FrontItem(tab: Table, i: Item, rest: bytes)
    requires ItemOk(tab, i) && EncItem(i) != []
    ensures var src := EncItem(i) + rest;
      && |src| > 0 && (IsBVM(src) || TypeOf(src) == ANNOTATION_TYPE <==> i.Tab?)
      && (i.Tab? ==> (IsBVM(src) <==> i.head.Fresh?) && !i.head.NoTable? && Unmarshal(tab, src) == Some((Learned(tab, i.head), rest)))
      && (i.Tab? && !i.head.Fresh? ==> tab <= Learned(tab, i.head))
  {
    hide Unmarshal, SizeOf, TypeOf, IsBVM, HeadBytes, Enc, HeadFits, RowOk, IsPads;
    match i
    case Tab(h) =>
      EmptyHead(h);
      TableInFront(tab, h, rest);
    case Row(v) =>
      RowInFront(tab, v, rest);
    case Pad(raw) =>
      PadInFront(raw, rest);
  }
}
