/** `Chunker.Write`: rows of a stream, translated with remembered symbols. After a table it goes
    straight on to the next value, so that it does not hear every stream the way a reader does. */
module IonWrite {
  import opened IonCodec
  import opened IonTree
  import opened IonValue
  import opened IonSymtab
  import opened IonMarshal
  import opened IonPad
  import opened IonResym
  import opened IonResymbolize
  import opened IonStream
  import opened IonBlock
  import opened IonChunker
  import opened IonIngest
  import IonCompress
  import IonGrowth

  // ------------------------------------------------------------------ how Write hears a stream

  /** The items that count, and whether the stream is taken to its end without an error. */
  datatype Hearing = Hearing(items: seq<Item>, fine: bool)

  /** Directly behind a table an extension is skipped like padding, a fresh table is torn apart by
      reading its version marker byte by byte, and the end of the stream is an error. */
  function Heard(items: seq<Item>, after: bool): Hearing {
    if items == [] then Hearing([], !after)
    else
      var i, rest := items[0], items[1..];
      if EncItem(i) == [] then Heard(rest, after)
      else if i.Tab? && after then (if i.head.Fresh? then Hearing([], false) else Heard(rest, false))
      else var h := Heard(rest, i.Tab?); Hearing([i] + h.items, h.fine)
  }

  /** What any writer may put out, whatever readers make of it. */
  predicate Encodable(i: Item) {
    match i
    case Tab(h) => HeadFits(h)
    case Row(v) => v.Struct? && WF(v)
    case Pad(raw) => IsPads(raw)
  }

  predicate AllEncodable(items: seq<Item>) {
    forall k :: 0 <= k < |items| ==> Encodable(items[k])
  }

  /** What is left of a stream: encoded items, of which those that are heard make sense. */
  ghost predicate Hears(tab: Table, src: bytes, items: seq<Item>, after: bool) {
    && src == EncItems(items) && AllEncodable(items)
    && ItemsOk(tab, Heard(items, after).items) && Portable(tab, Heard(items, after).items)
  }

  lemma FirstItem(items: seq<Item>, after: bool)
    requires items != []
    ensures EncItems(items) == EncItem(items[0]) + EncItems(items[1..])
    ensures EncItem(items[0]) == [] ==> Heard(items, after) == Heard(items[1..], after) && EncItems(items) == EncItems(items[1..])
    ensures AllEncodable(items) ==> Encodable(items[0]) && AllEncodable(items[1..])
  {
    hide EncItem, Encodable;
    assert [] + EncItems(items[1..]) == EncItems(items[1..]);
  }

  /** The first item with bytes, and what becomes of it. */
  lemma {:induction false} NextHeard(tab: Table, src: bytes, items: seq<Item>, after: bool) returns (i: Item, more: seq<Item>)
    requires Hears(tab, src, items, after) && src != []
    ensures src == EncItem(i) + EncItems(more) && EncItem(i) != [] && Encodable(i)
    ensures i.Tab? && after && i.head.Fresh? ==> Heard(items, after) == Hearing([], false)
    ensures i.Tab? && after && !i.head.Fresh? ==> Heard(items, after) == Heard(more, false) && Hears(tab, EncItems(more), more, false)
    ensures !(i.Tab? && after) ==>
      && Heard(items, after) == Hearing([i] + Heard(more, i.Tab?).items, Heard(more, i.Tab?).fine)
      && ItemOk(tab, i) && (i.Row? ==> HasOwnLabel(i.v) && Distinct(tab))
      && Hears(TableAfterItem(tab, i), EncItems(more), more, i.Tab?)
    decreases |items|
  {
    hide EncItem, ItemOk, TableAfterItem, HasOwnLabel, Distinct, Encodable;
    FirstItem(items, after);
    if EncItem(items[0]) == [] {
      i, more := NextHeard(tab, src, items[1..], after);
    } else {
      i, more := items[0], items[1..];
      if !(i.Tab? && after) {
        Unfold(tab, i, Heard(more, i.Tab?).items);
      }
    }
  }

  lemma Unfold(tab: Table, i: Item, more: seq<Item>)
    ensures ItemsOk(tab, [i] + more) <==> ItemOk(tab, i) && ItemsOk(TableAfterItem(tab, i), more)
    ensures Portable(tab, [i] + more) <==> (i.Row? ==> HasOwnLabel(i.v) && Distinct(tab)) && Portable(TableAfterItem(tab, i), more)
    ensures RowsOf(tab, [i] + more) == RowsOfItem(tab, i) + RowsOf(TableAfterItem(tab, i), more)
  {
    hide ItemOk, TableAfterItem, HasOwnLabel, Distinct, RowsOfItem;
    assert ([i] + more)[0] == i && ([i] + more)[1..] == more;
  }

  lemma {:induction false} NothingHeard(items: seq<Item>, after: bool)
    requires EncItems(items) == []
    ensures Heard(items, after) == Hearing([], !after)
    decreases |items|
  {
    hide EncItem;
    if items != [] {
      FirstItem(items, after);
      NothingHeard(items[1..], after);
    }
  }

  lemma NoRowsHeard(tab: Table)
    ensures RowsOf(tab, []) == []
  {
  }

  // -------------------------------------------------------------------------- torn tables

  /** The rest of a fresh table from byte n of its version marker on. */
  ghost predicate Torn(src: bytes, n: nat) {
    n <= 4 && exists syms, rest :: HeadFits(Fresh(syms)) && src == TornBytes(n, syms, rest)
  }

  function TornBytes(n: nat, syms: Table, rest: bytes): bytes
    requires n <= 4
  {
    BVM[n..] + Enc(TableTree(syms, true)) + rest
  }

  lemma TearOpen(syms: Table, rest: bytes)
    requires HeadFits(Fresh(syms))
    ensures var src := HeadBytes(Fresh(syms)) + rest;
      |src| > 0 && SizeOf(src) == 1 && TypeOf(src[..1]) != STRUCT_TYPE && Torn(src[1..], 1)
  {
    hide Enc, TableTree, HeadFits;
    var src := HeadBytes(Fresh(syms)) + rest;
    assert src[0] == 0xe0;
    assert src[1..] == TornBytes(1, syms, rest);
  }

  /** The two bytes in the middle of the marker pass for padding. */
  lemma TornMiddle(src: bytes)
    requires Torn(src, 1)
    ensures |src| > 2 && !IsBVM(src) && TypeOf(src) == NULL_TYPE && SizeOf(src) == 2 && TypeOf(src[..2]) == NULL_TYPE && Torn(src[2..], 3)
  {
    hide Enc, TableTree, HeadFits;
    var syms, rest :| HeadFits(Fresh(syms)) && src == TornBytes(1, syms, rest);
    assert BVM[1..] == [0x01, 0x00, 0xea] && BVM[3..] == [0xea];
    assert src[0] == 0x01 && src[..2][0] == 0x01;
    assert src[2..] == TornBytes(3, syms, rest);
  }

  /** The last byte passes for an annotation, which cannot be a table: its label count is the first
      byte of one. */
  lemma TornEnd(tab: Table, src: bytes)
    requires Torn(src, 3)
    ensures |src| > 0 && !IsBVM(src) && TypeOf(src) == ANNOTATION_TYPE && Unmarshal(tab, src) == None
  {
    hide Enc, TableTree, HeadFits, UnmarshalTable;
    var syms, rest :| HeadFits(Fresh(syms)) && src == TornBytes(3, syms, rest);
    var t := Enc(TableTree(syms, true));
    AnnotationFirst(syms);
    assert BVM[3..] == [0xea];
    assert src[0] == 0xea && src[1] == t[0];
    ManyLabels(tab, src);
  }

  /** Eleven bytes that claim to be an annotation with some hundred labels. */
  lemma ManyLabels(tab: Table, src: bytes)
    requires |src| >= 2 && src[0] == 0xea && src[1] / 16 == 14
    ensures UnmarshalTable(tab, src) == None
  {
    hide UnmarshalBody;
    if |src| >= 11 {
      assert SizeOf(src) == 11 && Contents(src) == Some(Split(src[1..11], src[11..]));
      LabelCount(tab, src[1..11]);
    } else {
      assert SizeOf(src) == 11;
    }
  }

  lemma LabelCount(tab: Table, body: bytes)
    requires |body| > 0 && body[0] / 16 == 14
    ensures UnmarshalBody(tab, body) == None
  {
    hide ReadTableFields;
    assert ReadUv(body) == UvOk(body[0] % 128, 1);
  }

  lemma AnnotationFirst(syms: Table)
    ensures |Enc(TableTree(syms, true))| > 0 && Enc(TableTree(syms, true))[0] / 16 == 14
  {
  }

  // ---------------------------------------------------------------------------- the method

  /** Translate one row with the translations remembered so far and commit it. */
  method WriteRow(c: Chunker, rs: Resymbolizer, dat: bytes, ghost v: Ion) returns (res: Outcome)
    requires c.Valid() && |c.g.all| == c.g.n && c.noCompress && c.b.lastoff <= c.align
    requires dat == Enc(v) && RowOk(rs.srctab, v) && HasOwnLabel(v) && Distinct(rs.srctab)
    requires CacheSound(rs.idmap, rs.srctab, c.b.symbols.interned)
    modifies c, c.ranges, rs`idmap, rs`dsttab
    ensures c.Live() && old(c.out) <= c.out && c.noCompress && !res.Malformed? && !res.Panicked?
    ensures res.Ok? ==> c.Valid() && |c.g.all| == c.g.n && c.b.lastoff <= c.align
    ensures res.Ok? ==> CacheSound(rs.idmap, rs.srctab, c.b.symbols.interned)
    ensures res.Ok? ==> c.Rows() == old(c.Rows()) + [Meaning(rs.srctab, v)]
  {
    hide Enc, Inv, Distinct, Meaning, HasOwnLabel, HasRoom, Fits, Covered, Wire, Total, IonRanges.Tracks, AllReported, FlatTimes;
    hide CacheSound, RowOk;
    if !HasRoom(c.b.symbols.interned, |dat|) {
      return OutOfRange;
    }
    KnownTable(c.b, c.g);
    rs.dsttab := c.b.symbols;
    var enc, w := Translate(rs, dat, v);
    c.Append(enc, rs.dsttab, w);
    if !Fits(c.b.symbols.interned, 5 * |c.b.buf|) {
      return OutOfRange;
    }
    var epoch := c.symEpoch;
    ghost var tab := c.b.symbols.interned;
    res := c.Commit();
    if res.Ok? {
      if c.symEpoch != epoch {
        rs.Reset();
      } else {
        CacheGrows(rs.idmap, rs.srctab, tab, c.b.symbols.interned);
      }
    }
  }

  /** Where in the stream Write is: at an item, or inside a torn table. */
  datatype Place = At(items: seq<Item>) | In(n: nat)

  ghost predicate Reads(tab: Table, src: bytes, p: Place, after: bool) {
    match p
    case At(items) => Hears(tab, src, items, after)
    case In(n) => (n == 1 || n == 3) && Torn(src, n)
  }

  function ToCome(p: Place, after: bool): Hearing {
    match p
    case At(items) => Heard(items, after)
    case In(_) => Hearing([], false)
  }

  /** A table at the front of what is left, if there is one. */
  method LearnTable(rs: Resymbolizer, src: bytes, ghost p: Place, ghost dst: Table)
    returns (ok: bool, rest: bytes, ghost q: Place, ghost after: bool)
    requires Reads(rs.srctab, src, p, false) && src != [] && CacheSound(rs.idmap, rs.srctab, dst)
    modifies rs`idmap, rs`srctab
    ensures CacheSound(rs.idmap, rs.srctab, dst)
    ensures ok ==> Reads(rs.srctab, rest, q, after)
    ensures ok && after ==> q.At? && |rest| < |src|
    ensures ok && !after ==> rest == src && q == p && (q.In? ==> q.n == 1) && !IsBVM(src) && TypeOf(src) != ANNOTATION_TYPE
    ensures ok ==> ToCome(q, after).fine == ToCome(p, false).fine
    ensures ok ==> RowsOf(rs.srctab, ToCome(q, after).items) == RowsOf(old(rs.srctab), ToCome(p, false).items)
    ensures !ok ==> ToCome(p, false) == Hearing([], false)
  {
    hide EncItems, RowsOf, Hears, Unmarshal, SizeOf, TypeOf, IsBVM, Enc, HeadBytes, RowOk, IsPads, CacheSound, HeadFits, Meaning, Heard, Torn;
    ghost var i, more := Tab(NoTable), [];
    if p.At? {
      i, more := NextHeard(rs.srctab, src, p.items, false);
      FrontItem(rs.srctab, i, EncItems(more));
    } else if p.n == 1 {
      TornMiddle(src);
    } else {
      TornEnd(rs.srctab, src);
    }
    if !IsBVM(src) && TypeOf(src) != ANNOTATION_TYPE {
      return true, src, p, false;
    }
    ghost var was := rs.srctab;
    if IsBVM(src) {
      rs.Reset();
    } else if p.At? {
      CacheFollows(rs.idmap, was, Learned(was, i.head), dst);
    }
    match Unmarshal(rs.srctab, src) {
      case None =>
        return false, src, p, false;
      case Some((grown, behind)) =>
        rs.srctab := grown;
        ok, rest, q, after := true, behind, At(more), true;
        Unfold(was, i, Heard(more, true).items);
        NoRowsInTable(was, i, RowsOf(grown, Heard(more, true).items));
    }
  }

  lemma NoRowsInTable(tab: Table, i: Item, rows: seq<Value>)
    requires !i.Row?
    ensures RowsOfItem(tab, i) + rows == rows
  {
  }

  /** The value at the front of what is left, seen by size and type. */
  lemma ValueInFront(tab: Table, src: bytes, q: Place, after: bool) returns (i: Item, more: seq<Item>)
    requires Reads(tab, src, q, after) && src != [] && (q.In? ==> q.n == 1)
    requires after || (!IsBVM(src) && TypeOf(src) != ANNOTATION_TYPE)
    ensures 0 < SizeOf(src) <= |src| && |src[..SizeOf(src)]| > 0
    ensures TypeOf(src[..SizeOf(src)]) == STRUCT_TYPE <==> q.At? && i.Row?
    ensures q.In? ==> Reads(tab, src[2..], In(3), false) && SizeOf(src) == 2
    ensures q.At? && i.Row? ==>
      && src[..SizeOf(src)] == Enc(i.v) && RowOk(tab, i.v) && HasOwnLabel(i.v) && Distinct(tab)
      && Reads(tab, src[SizeOf(src)..], At(more), false)
      && ToCome(q, after) == Hearing([i] + ToCome(At(more), false).items, ToCome(At(more), false).fine)
    ensures q.At? && !i.Row? ==>
      var to := Skip(i, more, SizeOf(src));
      && Reads(tab, src[SizeOf(src)..], to, false) && ToCome(to, false).fine == ToCome(q, after).fine
      && RowsOf(tab, ToCome(to, false).items) == RowsOf(tab, ToCome(q, after).items)
  {
    hide EncItems, RowsOf, Hears, Unmarshal, SizeOf, TypeOf, IsBVM, Enc, HeadBytes, IsPads, HeadFits, Meaning, Heard, Torn, HasOwnLabel, Distinct, RowOk;
    i, more := Tab(NoTable), [];
    if q.In? {
      TornMiddle(src);
    } else {
      i, more := NextHeard(tab, src, q.items, after);
      var rest := EncItems(more);
      if i.Tab? {
        EmptyHead(i.head);
        if !after {
          FrontItem(tab, i, rest);
        } else if i.head.Fresh? {
          TearOpen(i.head.syms, rest);
          NoRowsHeard(tab);
        } else {
          ExtensionSkipped(i.head, rest);
        }
      } else {
        PeekItem(tab, i, rest);
        FrontItem(tab, i, rest);
        assert src[0..] == src;
        Unfold(tab, i, Heard(more, false).items);
        if i.Row? {
          assert src[..SizeOf(src)] == Enc(i.v) && src[SizeOf(src)..] == rest;
        } else {
          PadHeard(tab, i.raw[SizeOf(src)..], more);
          NoRowsInTable(tab, i, RowsOf(tab, Heard(more, false).items));
        }
      }
    }
  }

  /** Where Write is behind a value that is not a row. */
  function Skip(i: Item, more: seq<Item>, n: nat): Place {
    match i
    case Tab(h) => if h.Fresh? then In(1) else At(more)
    case Row(_) => At(more)
    case Pad(raw) => At([Pad(if n <= |raw| then raw[n..] else [])] + more)
  }

  lemma ExtensionSkipped(h: Head, rest: bytes)
    requires HeadFits(h) && h.Extend?
    ensures var src := HeadBytes(h) + rest;
      && |HeadBytes(h)| > 0 && SizeOf(src) == |HeadBytes(h)| && TypeOf(src[..SizeOf(src)]) == ANNOTATION_TYPE
      && src[SizeOf(src)..] == rest
  {
    hide SizeOf, HeadBytes, HeadFits, TypeOf, IsBVM, Unmarshal;
    TableInFront([], h, rest);
    TableSizeInFront(h, rest);
    EmptyHead(h);
    var src := HeadBytes(h) + rest;
    assert src[0..] == src;
    FirstType(src, |HeadBytes(h)|);
  }

  lemma FirstType(src: bytes, n: nat)
    requires 0 < n <= |src|
    ensures TypeOf(src[..n]) == TypeOf(src)
  {
  }

  lemma PadHeard(tab: Table, raw: bytes, more: seq<Item>)
    requires IsPads(raw) && Hears(tab, EncItems(more), more, false)
    ensures var all := [Pad(raw)] + more;
      && Hears(tab, raw + EncItems(more), all, false) && Heard(all, false).fine == Heard(more, false).fine
      && RowsOf(tab, Heard(all, false).items) == RowsOf(tab, Heard(more, false).items)
  {
    hide RowsOf, IsPads, ItemsOk, Portable;
    var all := [Pad(raw)] + more;
    assert all[0] == Pad(raw) && all[1..] == more;
    Unfold(tab, Pad(raw), Heard(more, false).items);
    NoRowsInTable(tab, Pad(raw), RowsOf(tab, Heard(more, false).items));
  }

  /** One turn of `Write`: perhaps a table, then a value. */
  method WriteOne(c: Chunker, rs: Resymbolizer, src: bytes, ghost p: Place)
    returns (res: Outcome, rest: bytes, ghost to: Place)
    requires c.Valid() && |c.g.all| == c.g.n && c.noCompress && c.b.lastoff <= c.align
    requires Reads(rs.srctab, src, p, false) && src != []
    requires CacheSound(rs.idmap, rs.srctab, c.b.symbols.interned)
    modifies c, c.ranges, rs
    ensures c.Live() && old(c.out) <= c.out && c.noCompress && !res.Panicked?
    ensures res.Ok? ==> c.Valid() && |c.g.all| == c.g.n && c.b.lastoff <= c.align
    ensures res.Ok? ==> CacheSound(rs.idmap, rs.srctab, c.b.symbols.interned)
    ensures res.Ok? ==> Reads(rs.srctab, rest, to, false) && |rest| < |src|
    ensures res.Ok? ==> ToCome(to, false).fine == ToCome(p, false).fine
    ensures res.Ok? ==> c.Rows() + RowsOf(rs.srctab, ToCome(to, false).items) == old(c.Rows()) + RowsOf(old(rs.srctab), ToCome(p, false).items)
    ensures res.Malformed? ==> !ToCome(p, false).fine
    ensures res.Malformed? ==> c.Rows() == old(c.Rows()) + RowsOf(old(rs.srctab), ToCome(p, false).items)
  {
    hide EncItems, RowsOf, Hears, Unmarshal, SizeOf, TypeOf, IsBVM, Enc, HeadBytes, IsPads, HeadFits, Meaning, Heard, Torn, HasOwnLabel, Distinct, RowOk, CacheSound;
    hide BlockOk, Wire, IonRanges.Tracks, AllReported, Covered, Total, Reads;
    ghost var q, after;
    var ok, block;
    ok, block, q, after := LearnTable(rs, src, p, c.b.symbols.interned);
    NoRowsHeard(old(rs.srctab));
    assert c.Rows() + [] == c.Rows();
    if !ok {
      return Malformed, src, p;
    }
    ghost var i, more := Tab(NoTable), [];
    if block == [] {
      NothingToCome(rs.srctab, q, after);
    } else {
      i, more := ValueInFront(rs.srctab, block, q, after);
    }
    var size := ComputeSizeOf(block);
    if size <= 0 || size > |block| {
      return Malformed, src, p;
    }
    var dat := block[..size];
    rest := block[size..];
    if TypeOf(dat) != STRUCT_TYPE {
      to := if q.In? then In(3) else Skip(i, more, size);
      return Ok, rest, to;
    }
    to := At(more);
    res := WriteRow(c, rs, dat, i.v);
    OneMoreRow(rs.srctab, i, ToCome(to, false).items, old(c.Rows()));
  }

  lemma OneMoreRow(tab: Table, i: Item, more: seq<Item>, rows: seq<Value>)
    requires i.Row?
    ensures rows + RowsOf(tab, [i] + more) == (rows + [Meaning(tab, i.v)]) + RowsOf(tab, more)
  {
    hide Meaning;
    Unfold(tab, i, more);
  }

  lemma NothingToCome(tab: Table, q: Place, after: bool)
    requires Reads(tab, [], q, after)
    ensures q.At? && ToCome(q, after) == Hearing([], !after) && SizeOf([]) == -1
    ensures RowsOf(tab, []) == []
  {
    hide EncItems, Heard, Enc, HeadFits;
    if q.At? {
      NothingHeard(q.items, after);
    }
  }

  /** `Chunker.Write`, for every stream whose rows make sense the way it is heard: exactly those rows
      are added, and it ends in an error exactly if the stream is not fine. */
  method Write(c: Chunker, rs: Resymbolizer, src: bytes, ghost items: seq<Item>) returns (res: Outcome)
    requires c.Valid() && |c.g.all| == c.g.n && c.b.lastoff <= c.align
    requires Hears(rs.srctab, src, items, false)
    requires CacheSound(rs.idmap, rs.srctab, c.b.symbols.interned)
    modifies c, c.ranges, rs
    ensures c.Live() && old(c.out) <= c.out && !c.noCompress && !res.Panicked?
    ensures forall i :: 0 <= i < |c.out| ==> |c.out[i]| == c.align
    ensures res.Ok? ==> c.Valid() && |c.g.all| == c.g.n && c.b.lastoff <= c.align
    ensures res.Ok? ==> CacheSound(rs.idmap, rs.srctab, c.b.symbols.interned)
    ensures (res.Ok? ==> Heard(items, false).fine) && (res.Malformed? ==> !Heard(items, false).fine)
    ensures res.Ok? || res.Malformed? ==> c.Rows() == old(c.Rows()) + RowsOf(old(rs.srctab), Heard(items, false).items)
  {
    hide EncItem, EncItems, RowsOf, Hears, CacheSound, Heard, Torn, SizeOf;
    hide BlockOk, IonRanges.Tracks, AllReported, Covered, Total;
    c.noCompress := true;
    var rest := src;
    ghost var p := At(items);
    while rest != []
      invariant c.Valid() && |c.g.all| == c.g.n && c.noCompress && c.b.lastoff <= c.align && old(c.out) <= c.out
      invariant Reads(rs.srctab, rest, p, false) && ToCome(p, false).fine == Heard(items, false).fine
      invariant CacheSound(rs.idmap, rs.srctab, c.b.symbols.interned)
      invariant c.Rows() + RowsOf(rs.srctab, ToCome(p, false).items) == old(c.Rows()) + RowsOf(old(rs.srctab), Heard(items, false).items)
      decreases |rest|
    {
      var behind;
      ghost var q;
      res, behind, q := WriteOne(c, rs, rest, p);
      if !res.Ok? {
        c.noCompress := false;
        return;
      }
      rest, p := behind, q;
    }
    NothingToCome(rs.srctab, p, false);
    assert c.Rows() + [] == c.Rows();
    c.noCompress := false;
    res := Ok;
  }

  // ------------------------------------------------------------- hearing it as a reader does

  /** No row means something else under the table Write holds there than under the reader's, and no
      row is cut off. */
  predicate NoneMisread(tab: Table, held: Table, items: seq<Item>, after: bool)
    decreases |items|
  {
    items == [] ||
    (var i, rest := items[0], items[1..];
     if EncItem(i) == [] then NoneMisread(tab, held, rest, after)
     else if i.Tab? && after then
       if i.head.Fresh? then RowsOf(Learned(tab, i.head), rest) == [] else NoneMisread(Learned(tab, i.head), held, rest, false)
     else
       && (i.Row? ==> Meaning(tab, i.v) == Meaning(held, i.v))
       && NoneMisread(TableAfterItem(tab, i), TableAfterItem(held, i), rest, i.Tab?))
  }

  /** Write delivers the rows of a stream exactly if none is misread. */
  lemma {:induction false} HeardRowsIff(tab: Table, held: Table, items: seq<Item>, after: bool)
    requires AllEncodable(items)
    ensures RowsOf(held, Heard(items, after).items) == RowsOf(tab, items) <==> NoneMisread(tab, held, items, after)
    decreases |items|
  {
    hide EncItem, Meaning, Encodable, Learned, RowsOf;
    if items == [] {
      NoRowsHeard(tab);
      NoRowsHeard(held);
    } else {
      var i, rest := items[0], items[1..];
      assert items == [i] + rest;
      FirstItem(items, after);
      Unfold(tab, i, rest);
      if EncItem(i) == [] {
        NoBytes(tab, i);
        HeardRowsIff(tab, held, rest, after);
      } else if i.Tab? && after {
        NoRowsInTable(tab, i, RowsOf(Learned(tab, i.head), rest));
        if i.head.Fresh? {
          NoRowsHeard(held);
        } else {
          HeardRowsIff(Learned(tab, i.head), held, rest, false);
        }
      } else {
        HeardRowsIff(TableAfterItem(tab, i), TableAfterItem(held, i), rest, i.Tab?);
        Unfold(held, i, Heard(rest, i.Tab?).items);
        FirstRows(RowsOfItem(tab, i), RowsOfItem(held, i), RowsOf(TableAfterItem(tab, i), rest),
                  RowsOf(TableAfterItem(held, i), Heard(rest, i.Tab?).items));
      }
    }
  }

  lemma NoBytes(tab: Table, i: Item)
    requires Encodable(i) && EncItem(i) == []
    ensures TableAfterItem(tab, i) == tab && (forall rows: seq<Value> :: RowsOfItem(tab, i) + rows == rows) && !i.Row?
  {
    hide Enc, HeadBytes, HeadFits, IsPads, WF, Meaning;
    match i
    case Tab(h) => EmptyHead(h);
    case Row(v) => StructType(v, []);
    case Pad(_) =>
  }

  lemma FirstRows(a: seq<Value>, b: seq<Value>, x: seq<Value>, y: seq<Value>)
    requires |a| == |b|
    ensures b + y == a + x <==> b == a && y == x
  {
    if b + y == a + x {
      assert b == (b + y)[..|b|] && a == (a + x)[..|a|];
      assert y == (b + y)[|b|..] && x == (a + x)[|a|..];
    }
  }

  /** Such streams are heard the way they are read, without an error. */
  lemma {:induction false} SpacedIsHeard(tab: Table, items: seq<Item>, after: bool)
    requires Spaced(items, after) && ItemsOk(tab, items) && Portable(tab, items)
    ensures AllEncodable(items) && NoneMisread(tab, tab, items, after)
    ensures var h := Heard(items, after); h.fine && ItemsOk(tab, h.items) && Portable(tab, h.items)
    decreases |items|
  {
    hide EncItem, Meaning, Learned, HasOwnLabel, Distinct, ItemsOk, Portable;
    if items == [] {
      NoItemsAreFine(tab);
    } else {
      var i, rest := items[0], items[1..];
      assert items == [i] + rest;
      Unfold(tab, i, rest);
      OkIsEncodable(tab, i);
      if EncItem(i) == [] {
        NoBytes(tab, i);
        SpacedIsHeard(tab, rest, after);
      } else {
        SpacedIsHeard(TableAfterItem(tab, i), rest, i.Tab?);
        Unfold(tab, i, Heard(rest, i.Tab?).items);
      }
    }
  }

  lemma NoItemsAreFine(tab: Table)
    ensures ItemsOk(tab, []) && Portable(tab, [])
  {
  }

  lemma OkIsEncodable(tab: Table, i: Item)
    requires ItemOk(tab, i)
    ensures Encodable(i)
  {
  }

  /** Everything a flushed chunker has written can be given to Write of another one, unless a block was
      filled by its table alone: the rows are the same. */
  method Relay(c: Chunker, d: Chunker, rs: Resymbolizer) returns (res: Outcome)
    requires c.Valid() && c.g.all == [] && !c.solid && c != d && c.ranges != d.ranges
    requires d.Valid() && |d.g.all| == d.g.n && d.b.lastoff <= d.align
    requires rs.srctab == [] && CacheSound(rs.idmap, rs.srctab, d.b.symbols.interned)
    modifies d, d.ranges, rs
    ensures d.Live() && !res.Panicked? && !res.Malformed?
    ensures res.Ok? ==> d.Valid() && d.Rows() == old(d.Rows()) + c.Rows()
  {
    hide BlockOk, Wire, IonRanges.Tracks, AllReported, Covered, Total, Portable, Spaced, RowsOf, Heard, ItemsOk, EncItems, CacheSound;
    Relayed(c.b, c.g, c.align, c.out);
    res := Write(d, rs, Flat(c.out), c.g.items);
  }

  lemma Relayed(b: Block, g: Shadow, align: nat, out: seq<bytes>)
    requires BlockOk(b, g) && g.all == [] && Wire(out, align, g.items) && Portable([], g.items) && Spaced(g.items, false)
    ensures Hears([], Flat(out), g.items, false) && Heard(g.items, false).fine
    ensures RowsOf([], Heard(g.items, false).items) == Total(b, g)
  {
    hide Inv, Layout, Ids, RowsOk, Labelled, ItemsOk, Portable, Spaced, Heard, RowsOf, EncItems, NoneMisread, AllEncodable, Flat;
    SpacedIsHeard([], g.items, false);
    HeardRowsIff([], [], g.items, false);
    assert MeaningAll(b.symbols.interned, []) == [];
    assert RowsOf([], g.items) + [] == RowsOf([], g.items);
  }

  // --------------------------------------------------------------------------- what goes wrong

  /** A row with one field, null, of the given label. */
  function NullRow(sym: nat): Ion { Struct([Field(sym, Atom([0x0f]))]) }

  lemma NullRowIs(tab: Table, sym: nat)
    requires sym < MaxID(tab) && sym < UV_LIMIT
    ensures RowOk(tab, NullRow(sym)) && (sym >= SYSTEM_COUNT ==> HasOwnLabel(NullRow(sym)))
    ensures Meaning(tab, NullRow(sym)) == StructOf(map[Get(tab, sym) := Scalar([0x0f])])
  {
    NullField(tab, sym);
    NullIsWF();
    var f := Field(sym, Atom([0x0f]));
    assert WFField(f) by { hide IsAtom; }
    assert ResolvesField(tab, f);
    assert sym >= SYSTEM_COUNT ==> NullRow(sym).fields[0].sym >= SYSTEM_COUNT;
    assert |EncFields([f])| < UV_LIMIT by {
      hide Uv;
      UvAtMost8(sym);
      assert [f][1..] == [];
    }
  }

  lemma NullIsWF()
    ensures WF(Atom([0x0f]))
  {
    var raw: bytes := [0x0f];
    assert IsAtom(raw);
  }

  lemma NullField(tab: Table, sym: nat)
    ensures MeaningFields(tab, [Field(sym, Atom([0x0f]))]) == map[Get(tab, sym) := Scalar([0x0f])]
    ensures IsAtom([0x0f])
  {
    var f := Field(sym, Atom([0x0f]));
    assert [f][1..] == [];
    var none: map<bytes, Value> := map[];
    assert MeaningFields(tab, []) == none;
    assert MeaningField(tab, f) == Scalar([0x0f]);
    assert MeaningFields(tab, [f]) == none[Get(tab, sym) := Scalar([0x0f])];
    assert none[Get(tab, sym) := Scalar([0x0f])] == map[Get(tab, sym) := Scalar([0x0f])];
  }

  lemma SmallTable(x: bytes)
    requires |x| == 1
    ensures HeadFits(Fresh([x])) && HeadFits(Extend([x]))
  {
    TableSizeSnoc([], x);
    assert [] + [x] == [x];
    assert TableSize([]) == 0;
  }

  /** A table and right behind it a fresh one, as a block filled by its table may be followed by: Write
      gives up. */
  lemma FreshTableRejected(h: Head, syms: Table, more: seq<Item>)
    requires HeadFits(h) && !h.NoTable? && HeadFits(Fresh(syms))
    ensures Heard([Tab(h), Tab(Fresh(syms))] + more, false) == Hearing([Tab(h)], false)
  {
    hide EncItem, HeadFits;
    TableHasBytes(h);
    TableHasBytes(Fresh(syms));
    var items := [Tab(h), Tab(Fresh(syms))] + more;
    assert items[0] == Tab(h) && items[1..] == [Tab(Fresh(syms))] + more;
    assert items[1..][0] == Tab(Fresh(syms));
    assert [Tab(h)] + [] == [Tab(h)];
  }

  /** Two tables in a row: readers know both symbols, Write only the first, and the field of the row
      has no name for it. */
  lemma SecondTableLost()
    ensures var a, b, row := [97], [98], NullRow(11);
      var items := [Tab(Fresh([a])), Tab(Extend([b])), Row(row)];
      && ItemsOk([], items) && RowsOf([], items) == [StructOf(map[b := Scalar([0x0f])])]
      && Heard(items, false) == Hearing([Tab(Fresh([a])), Row(row)], true)
      && !Resolves([a], row) && Meaning([a], row) == StructOf(map[[] := Scalar([0x0f])])
  {
    hide EncItem, Enc, Meaning, HeadFits, TableSize;
    var a: bytes, b: bytes, row := [97], [98], NullRow(11);
    var items := [Tab(Fresh([a])), Tab(Extend([b])), Row(row)];
    SmallTable(a);
    SmallTable(b);
    NullRowIs([a, b], 11);
    RowHasBytes([a, b], row);
    TableHasBytes(Fresh([a]));
    TableHasBytes(Extend([b]));
    assert [a] + [b] == [a, b];
    Three(items[0], items[1], items[2], [], [a], [a, b]);
    UndefinedLabel([a], 11);
    assert items[1..] == [items[1], items[2]] && items[1..][1..] == [items[2]] && items[1..][1..][1..] == [];
    LastHeard(items[2]);
  }

  lemma RowHasBytes(tab: Table, v: Ion)
    requires RowOk(tab, v)
    ensures EncItem(Row(v)) != []
  {
    StructType(v, []);
  }

  lemma TableHasBytes(h: Head)
    requires HeadFits(h) && !h.NoTable?
    ensures EncItem(Tab(h)) != []
  {
    EmptyHead(h);
  }

  lemma UndefinedLabel(tab: Table, sym: nat)
    requires sym >= MaxID(tab)
    ensures !Resolves(tab, NullRow(sym)) && Meaning(tab, NullRow(sym)) == StructOf(map[[] := Scalar([0x0f])])
  {
    NullField(tab, sym);
    assert !ResolvesField(tab, NullRow(sym).fields[0]);
  }

  lemma LastHeard(i: Item)
    requires EncItem(i) != [] && !i.Tab?
    ensures Heard([i], false) == Hearing([i], true) && Heard([i], true) == Hearing([i], true)
  {
    hide EncItem;
    assert [i][1..] == [] && [i] + [] == [i];
  }

  lemma Three(x: Item, y: Item, z: Item, tab: Table, tab1: Table, tab2: Table)
    requires TableAfterItem(tab, x) == tab1 && TableAfterItem(tab1, y) == tab2
    requires ItemOk(tab, x) && ItemOk(tab1, y) && ItemOk(tab2, z)
    ensures ItemsOk(tab, [x, y, z])
    ensures RowsOf(tab, [x, y, z]) == RowsOfItem(tab, x) + (RowsOfItem(tab1, y) + RowsOfItem(tab2, z))
  {
    hide ItemOk, TableAfterItem, RowsOfItem;
    NoItemsAreFine(TableAfterItem(tab2, z));
    assert [z] + [] == [z] && [y, z] == [y] + [z] && [x, y, z] == [x] + [y, z];
    Unfold(tab2, z, []);
    Unfold(tab1, y, [z]);
    Unfold(tab, x, [y, z]);
    assert RowsOfItem(tab2, z) + [] == RowsOfItem(tab2, z);
  }

  /** Three tables in a row: Write takes the third for the second, and the field "b" becomes "c". */
  lemma FieldRenamed()
    ensures var a, b, c := [97], [98], [99];
      var items := [Tab(Fresh([a])), Tab(Extend([b])), Tab(Extend([c])), Row(NullRow(11))];
      var heard := [Tab(Fresh([a])), Tab(Extend([c])), Row(NullRow(11))];
      && ItemsOk([], items) && RowsOf([], items) == [StructOf(map[b := Scalar([0x0f])])]
      && Heard(items, false) == Hearing(heard, true) && AllEncodable(items)
      && ItemsOk([], heard) && RowsOf([], heard) == [StructOf(map[c := Scalar([0x0f])])]
  {
    hide EncItem, Enc, Meaning, HeadFits, TableSize;
    var a: bytes, b: bytes, c: bytes, row := [97], [98], [99], Row(NullRow(11));
    var t0, t1, t2 := Tab(Fresh([a])), Tab(Extend([b])), Tab(Extend([c]));
    SmallTable(a);
    SmallTable(b);
    SmallTable(c);
    assert [a] + [b] == [a, b] && [a, b] + [c] == [a, b, c] && [a] + [c] == [a, c];
    NullRowIs([a, b, c], 11);
    NullRowIs([a, c], 11);
    RowHasBytes([a, c], row.v);
    TableHasBytes(t0.head);
    TableHasBytes(t1.head);
    TableHasBytes(t2.head);
    Three(t1, t2, row, [a], [a, b], [a, b, c]);
    Three(t0, t2, row, [], [a], [a, c]);
    Unfold([], t0, [t1, t2, row]);
    assert [t0, t1, t2, row] == [t0] + [t1, t2, row];
    SecondSkipped(t0, t1, t2, row);
  }

  lemma SecondSkipped(t0: Item, t1: Item, t2: Item, row: Item)
    requires t0.Tab? && t1.Tab? && !t1.head.Fresh? && t2.Tab? && row.Row?
    requires EncItem(t0) != [] && EncItem(t1) != [] && EncItem(t2) != [] && EncItem(row) != []
    ensures Heard([t0, t1, t2, row], false) == Hearing([t0, t2, row], true)
  {
    hide EncItem;
    var items := [t0, t1, t2, row];
    assert items[1..] == [t1, t2, row] && [t1, t2, row][1..] == [t2, row] && [t2, row][1..] == [row];
    LastHeard(row);
    assert Heard([t2, row], false) == Hearing([t2] + [row], true);
    assert Heard([t1, t2, row], true) == Heard([t2, row], false);
    assert [t0] + ([t2] + [row]) == [t0, t2, row];
  }
}
