/** `ion.Chunker`: rows are collected in a buffer behind an incremental symbol table and
    written out in blocks of exactly `align` bytes. */
module IonChunker {
  import opened IonCodec
  import opened IonTree
  import opened IonValue
  import opened IonSymtab
  import opened IonMarshal
  import opened IonRecode
  import opened IonResym
  import opened IonCompress
  import opened IonStrtab
  import opened IonGrowth
  import opened IonSavings
  import opened IonRanges
  import opened IonResymbolize
  import opened IonStream
  import opened IonBlock
  import opened PackedTime

  datatype Outcome =
    | Ok
    | TooLarge        // the object alone exceeds a block
    | BlockTooSmall   // one object and its symbol table exceed a block
    | NotCommitted    // Flush without a preceding Commit
    | Panicked        // one of the bookkeeping panics
    | Malformed       // the input is not an Ion stream
    | OutOfRange      // more symbols or longer values than the format can express

  function Flat(out: seq<bytes>): bytes {
    if out == [] then [] else Flat(out[..|out| - 1]) + out[|out| - 1]
  }

  /** Every write was one full block, and together they are the items. */
  predicate Wire(out: seq<bytes>, align: nat, items: seq<Item>) {
    && Flat(out) == EncItems(items)
    && forall i :: 0 <= i < |out| ==> |out[i]| == align
  }

  lemma WireGrows(out: seq<bytes>, align: nat, items: seq<Item>, block: bytes, now: seq<Item>)
    requires Wire(out, align, items) && |block| == align && EncItems(now) == EncItems(items) + block
    ensures Wire(out + [block], align, now)
  {
    hide EncItems;
    assert (out + [block])[..|out|] == out;
  }

  function FlatTimes(sections: seq<seq<RowTimes>>): seq<RowTimes> {
    if sections == [] then [] else FlatTimes(sections[..|sections| - 1]) + sections[|sections| - 1]
  }

  /** Each section of rows was reported once, exactly. */
  ghost predicate AllReported(sections: seq<seq<RowTimes>>, reports: seq<seq<Report>>) {
    |sections| == |reports| && forall i :: 0 <= i < |reports| ==> Reported(sections[i], reports[i])
  }

  lemma SectionEnds(sections: seq<seq<RowTimes>>, reports: seq<seq<Report>>, rows: seq<RowTimes>, rs: seq<Report>)
    requires AllReported(sections, reports) && Reported(rows, rs)
    ensures AllReported(sections + [rows], reports + [rs])
    ensures FlatTimes(sections + [rows]) + [] == FlatTimes(sections) + rows
  {
    hide Reported;
    assert (sections + [rows])[..|sections|] == sections;
  }

  lemma NoRowsCovered(tab: Table, tmpID: nat)
    ensures Covered(tab, tmpID, [])
  {
  }

  /** Once the buffer is empty, a reader recovers every row. */
  lemma Written(b: Block, g: Shadow, align: nat, out: seq<bytes>)
    requires BlockOk(b, g) && Wire(out, align, g.items) && g.all == []
    ensures ReadStream([], Flat(out)) == Some((Total(b, g), Held(g)))
  {
    hide Inv, EncAll, HeadBytes, RowsOk, Ids, Labelled, Layout, ReadStream, EncItems, RowsOf, Flat;
    ReadAllItems([], g.items);
    assert MeaningAll(b.symbols.interned, []) == [];
    assert RowsOf([], g.items) + [] == RowsOf([], g.items);
  }

  /** Once a block is written, the next one starts with a table of its own. */
  predicate StartsOver(memsize: int, written: nat, align: nat, rangeAlign: nat) {
    written + align >= rangeAlign || memsize >= align / 2
  }

  /** A row is compressed to more than a block and stays in the buffer: it begins within the block
      that is written, and the next one needs no new table. */
  predicate Outgrows(b: Block, g: Shadow, align: nat, hash: bytes -> nat, written: nat, rangeAlign: nat) {
    && Compresses(b, g, align, hash)
    && var w := Attempt(b, g, hash);
       |w.buf| - w.off > align && !StartsOver(w.st.memsize, written, align, rangeAlign)
  }

  /** The last block has no room for its rows: as they are, they need more symbols than the table
      in front announces; compressed, they are longer than the block. */
  predicate Overflows(b: Block, g: Shadow, align: nat, hash: bytes -> nat, compress: bool) {
    if compress && Compresses(b, g, align, hash) then |Attempt(b, g, hash).buf| > align
    else b.tmpID < MaxID(b.symbols.interned)
  }

  /** A row that is roomy before stays so while it is compressed, and is not lengthened. */
  lemma StaysRoomy(b: Block, g: Shadow, hash: bytes -> nat)
    requires BlockOk(b, g) && |g.all| == g.n + 1 && Attempt(b, g, hash).Rewritten?
    ensures var st, row := Attempt(b, g, hash).st, g.all[g.n];
      Roomy(b.symbols, row) && MaxID(b.symbols.interned) + |b.buf| <= 0x100_0000 ==> |Enc(Compressed(st, row))| <= |Enc(row)|
  {
    hide Inv, EncAll, Enc, HeadBytes, Layout, Ids, RowsOk, ItemsOk, Labelled, Roomy, Compressed, Scanned, Frequent, StringsAll, Rewriting;
    var todo := g.all[g.ncomp..];
    var w, row := Attempt(b, g, hash), g.all[g.n];
    CutCompressed(b, g);
    RewritingSpec(b.symbols, hash, b.flushID, g.all[..g.ncomp], todo);
    if Roomy(b.symbols, row) && MaxID(b.symbols.interned) + |b.buf| <= 0x100_0000 {
      ScannedCount(b.symbols, w.st, |EncAll(todo)|);
      RoomyGrows(b.symbols, w.st, StringsAll(todo), row);
      CompressedNotLonger(w.st, row);
    }
  }

  lemma OutgrownRow(b: Block, g: Shadow, align: nat, hash: bytes -> nat, written: nat, rangeAlign: nat)
    requires BlockOk(b, g) && |g.all| == g.n + 1 && Outgrows(b, g, align, hash, written, rangeAlign)
    ensures var st, row := Attempt(b, g, hash).st, g.all[g.n];
      Roomy(b.symbols, row) && MaxID(b.symbols.interned) + |b.buf| <= 0x100_0000 ==> |Enc(Compressed(st, row))| <= |Enc(row)|
  {
    hide BlockOk, Attempt, Roomy, Enc, Compressed;
    StaysRoomy(b, g, hash);
  }

  /** With slack in the last block, whatever compression finds in it fits. */
  lemma EnoughSlack(b: Block, g: Shadow, align: nat, hash: bytes -> nat, compress: bool)
    requires BlockOk(b, g) && Fits(b.symbols.interned, |b.buf|) && b.tmpID == MaxID(b.symbols.interned) && HasSlack(b, g, align)
    ensures !Overflows(b, g, align, hash, compress)
  {
    hide BlockOk, Attempt, HasSlack, Fits;
    if Attempt(b, g, hash).Rewritten? {
      SlackSuffices(b, g, align, hash);
    }
  }

  lemma ShortEnough(b: Block, g: Shadow, align: nat)
    ensures JoinsBlock(b, g, align) ==> |b.buf| <= align
  {
    hide HeadBytes, EncAll, NewHead;
  }

  lemma StaysReadable(b: Block, g: Shadow, align: nat, cut: bool, items: seq<Item>, padding: bytes)
    requires BlockOk(b, g) && g.n <= |g.all| && |b.buf| != b.lastst && (if cut then b.lastoff else |b.buf|) <= align
    requires Covered(b.symbols.interned, b.tmpID, if cut then g.all[..g.n] else g.all)
    requires items == g.items + BlockItems(g.head, if cut then g.all[..g.n] else g.all, padding) && Portable([], g.items)
    requires |padding| == align - if cut then b.lastoff else |b.buf|
    ensures Portable([], items)
    ensures Spaced(g.items, false) && !(g.n == 0 && cut && AllTable(b, align)) ==> Spaced(items, false)
  {
    hide BlockOk, Covered, Portable, Spaced, BlockItems, Layout, EncAll, HeadBytes;
    RowsTakeRoom(b, g);
    LayoutOf(b, g);
    assert g.all[..|g.all|] == g.all;
    CutOff(b, g);
    WrittenRelays(b, g, align, if cut then g.n else |g.all|, items, padding);
  }

  lemma CutOff(b: Block, g: Shadow)
    requires Layout(b, g)
    ensures g.n == 0 ==> b.lastoff == b.lastst
  {
    hide EncAll, HeadBytes;
    assert g.all[..0] == [];
    EmptyRowsEncode();
  }

  lemma ScannedCount(a: Symtab, b: Symtab, n: nat)
    requires Scanned(a, b, n)
    ensures Inv(b) && MaxID(b.interned) <= MaxID(a.interned) + n
  {
    hide TableSize, Inv;
  }

  class Chunker {
    const align: nat
    const rangeAlign: nat
    var hash: bytes -> nat         // the string hash of the next compression run, seeded anew each time
    var noCompress: bool

    var b: Block                   // buffer, symbols and offsets
    const ranges: Ranges
    var symEpoch: nat              // incremented when symbols start over
    var compressed: bool
    var written: nat
    var rowcount: nat

    var out: seq<bytes>            // what W received
    var reports: seq<seq<Report>>  // what W was told about ranges, flush by flush

    ghost var g: Shadow                     // what out and b stand for
    ghost var solid: bool                   // a block was written that is nothing but a table
    ghost var rowTimes: seq<RowTimes>       // timestamps of the rows since the last range flush,
    ghost var pendingTimes: RowTimes        // of the row being written,
    ghost var sections: seq<seq<RowTimes>>  // and of the rows reported before

    ghost predicate Live()
      reads this`b, this`g, this`solid, this`out, this`reports, this`rowcount, this`rowTimes, this`pendingTimes, this`sections
      reads ranges
    {
      && 0 < align < UV_LIMIT
      && BlockOk(b, g)
      && Wire(out, align, g.items)
      && ranges.Valid()
      && Tracks(b.symbols.interned, ranges.m, rowTimes, pendingTimes)
      && rowcount == |rowTimes|
      && AllReported(sections, reports)
      && Portable([], g.items) && (solid || Spaced(g.items, false))
    }

    /** Between calls: at most the last row is uncommitted, and the committed ones can be
        written with the table in front. */
    ghost predicate Valid()
      reads this`b, this`g, this`solid, this`out, this`reports, this`rowcount, this`rowTimes, this`pendingTimes, this`sections
      reads ranges
    {
      && Live()
      && g.n <= |g.all| <= g.n + 1 && g.ncomp <= g.n
      && Covered(b.symbols.interned, b.tmpID, g.all[..g.n])
    }

    lemma Inside()
      requires Live()
      ensures BlockOk(b, g) && 0 < align < UV_LIMIT
    {
    }

    /** Every row, flushed or not, in order. */
    ghost function Rows(): seq<Value>
      reads this`b, this`g
    {
      Total(b, g)
    }

    /** The timestamps of every committed row, in order. */
    ghost function Times(): seq<RowTimes>
      reads this`sections, this`rowTimes
    {
      FlatTimes(sections) + rowTimes
    }

    constructor (blockSize: nat, rangeSize: nat, h: bytes -> nat)
      requires 0 < blockSize < UV_LIMIT
      ensures Valid() && fresh(ranges) && align == blockSize && rangeAlign == rangeSize
      ensures out == [] && reports == [] && g.all == [] && Rows() == [] && Times() == [] && pendingTimes == map[]
      ensures b.symbols == EMPTY && b.flushID == 0 && b.tmpID == 0 && g == Shadow([], NoTable, [], 0, 0)
      ensures !noCompress && written == 0 && hash == h && !solid
    {
      align, rangeAlign, hash, noCompress := blockSize, rangeSize, h, false;
      b := Block([], EMPTY, 0, 0, 0, 0, 0);
      symEpoch, compressed, written, rowcount, out, reports := 0, false, 0, 0, [], [];
      g, rowTimes, pendingTimes, sections := Shadow([], NoTable, [], 0, 0), [], map[], [];
      solid := false;
      ranges := new Ranges();
    }

    /** `flushRanges`: report the rows since the last flush, and make readers start over. */
    method FlushRanges()
      requires Live() && g.head.NoTable?
      modifies this`b, this`rowcount, this`written, this`reports, this`rowTimes, this`sections, ranges
      ensures Live() && Rows() == old(Rows()) && Times() == old(Times())
      ensures b == old(b).(tmpID := 0, flushID := 0) && rowcount == 0 && written == 0
      ensures |reports| == |old(reports)| + 1 && reports[..|old(reports)|] == old(reports)
      ensures sections == old(sections) + [old(rowTimes)] && rowTimes == []
    {
      hide BlockOk, Total, Wire, Tracks, Reported, AllReported, Portable, Spaced, FlatTimes;
      StartOver(b, g);
      var rs := ReportAll(ranges, b.symbols.interned, rowcount, rowTimes, pendingTimes);
      SectionEnds(sections, reports, rowTimes, rs);
      FlushTracks(b.symbols.interned, ranges.m, rowTimes, pendingTimes);
      b := b.(tmpID := 0, flushID := 0);
      reports := reports + [rs];
      ranges.Flush();
      rowcount, written := 0, 0;
      sections, rowTimes := sections + [rowTimes], [];
    }

    /** `forceFlush`: write what has been committed as one block; a row still being written is
        kept, under a table of its own if readers are to start over. */
    method ForceFlush(final: bool) returns (res: Outcome)
      requires Live() && g.n <= |g.all| && Covered(b.symbols.interned, b.tmpID, g.all[..g.n])
      requires b.symbols.interned != [] && Fits(b.symbols.interned, 0) && HasRoom([], |EncAll(g.all)|)
      requires !final ==> |g.all| == g.n + 1 && (|b.buf| > align || b.tmpID < MaxID(b.symbols.interned))
      modifies this`b, this`g, this`solid, this`out, this`rowcount, this`written, this`reports, this`rowTimes, this`sections, this`symEpoch, ranges
      ensures Live() && Rows() == old(Rows()) && Times() == old(Times())
      ensures old(out) <= out
      ensures symEpoch == old(symEpoch) ==> old(b).symbols.interned <= b.symbols.interned
      ensures final ==> res == if |old(b).buf| != old(b).lastst && (|old(b).buf| > align || old(b).tmpID < MaxID(old(b).symbols.interned))
                               then Panicked else Ok
      ensures !final ==> (res.Panicked? <==> old(b).lastoff > align) && (res.Ok? || res.BlockTooSmall? || res.Panicked?)
      ensures res.Panicked? ==> b == old(b) && g == old(g)
      ensures res.BlockTooSmall? ==> |g.all| == 1 && NoRoom(b, g, align)
      ensures |old(b).buf| == old(b).lastst || res.Panicked? ==> out == old(out) && reports == old(reports) && written == old(written)
      ensures |old(b).buf| != old(b).lastst && !res.Panicked? ==>
        && |out| == |old(out)| + 1
        && (if old(written) + align >= rangeAlign || final
            then written == 0 && |reports| == |old(reports)| + 1 && rowTimes == []
            else written == old(written) + align && reports == old(reports) && rowTimes == old(rowTimes))
      ensures solid <==> old(solid) || (!res.Panicked? && !final && old(g).n == 0 && AllTable(old(b), align))
      ensures final && res.Ok? ==> g.all == [] && g.n == 0 && g.ncomp == 0
      ensures !final && res.Ok? ==>
        && |g.all| == g.n == 1 && g.ncomp == 0 && b.tmpID == MaxID(b.symbols.interned)
        && b.lastoff == |b.buf|
        && (b.lastoff <= align || (b.lastoff == |old(b).buf| - old(b).lastoff && b.symbols == old(b).symbols))
      ensures !final ==> (res.Ok? && b.lastoff > align <==>
        && old(b).lastoff <= align && |old(b).buf| - old(b).lastoff > align && old(b).tmpID == MaxID(old(b).symbols.interned)
        && !StartsOver(old(b).symbols.memsize, old(written), align, rangeAlign))
    {
      hide BlockOk, Total, Wire, Tracks, AllReported, Portable, Spaced, FlatTimes, Covered, EncAll, HasRoom, Fits, EncItems;
      if |b.buf| == b.lastst {
        NoRowsLeft(b, g);
        return Ok;
      }
      var cut := |b.buf| > align || b.tmpID < MaxID(b.symbols.interned);
      if cut && (final || b.lastoff > align) {
        return Panicked;
      }
      if !cut { CoveredWhole(b, g); }
      Emit(cut);
      if written >= rangeAlign || final {
        FlushRanges();
      }
      if final {
        return Ok;
      }
      RoomShrinks(|EncAll(g.all)|, |EncAll(old(g).all)|);
      res := NextBlock();
    }

    /** The rows before lastoff, or all of them, leave as one block. */
    method Emit(cut: bool)
      requires Live() && g.n <= |g.all| && Covered(b.symbols.interned, b.tmpID, if cut then g.all[..g.n] else g.all)
      requires (if cut then b.lastoff else |b.buf|) <= align && |b.buf| != b.lastst
      modifies this`b, this`g, this`solid, this`out, this`written
      ensures Live() && Rows() == old(Rows()) && old(out) <= out && |out| == |old(out)| + 1 && written == old(written) + align
      ensures b.symbols == old(b).symbols && b.tmpID == b.flushID == old(b).tmpID && g.head.NoTable?
      ensures g.all == (if cut then old(g).all[old(g).n..] else []) && g.n == |g.all| && g.ncomp == 0
      ensures b.buf == EncAll(g.all) && b.lastoff == |b.buf| && (cut ==> |b.buf| == |old(b).buf| - old(b).lastoff)
      ensures |EncAll(g.all)| <= |EncAll(old(g).all)|
      ensures solid <==> old(solid) || (cut && old(g).n == 0 && AllTable(old(b), align))
    {
      hide BlockOk, Total, Wire, Tracks, AllReported, Portable, Spaced, FlatTimes, Covered, EncAll, EncItems, Enc, AllTable;
      var block, r;
      ghost var h, padding;
      block, r, h, padding := WriteBlock(b, align, g, cut);
      WireGrows(out, align, g.items, block, h.items);
      StaysReadable(b, g, align, cut, h.items, padding);
      if g.n == 0 && cut && AllTable(b, align) { solid := true; }
      out := out + [block];
      b, g := r, h;
      written := written + align;
    }

    /** The row left over starts the next block. */
    method NextBlock() returns (res: Outcome)
      requires Live() && g.head.NoTable? && |g.all| == 1 && g.n == 1 && g.ncomp == 0 && b.buf == EncAll(g.all)
      requires b.symbols.interned != [] && Fits(b.symbols.interned, 0) && HasRoom([], |b.buf|)
      modifies this`b, this`g, this`symEpoch, ranges
      ensures Live() && Rows() == old(Rows())
      ensures symEpoch == old(symEpoch) ==> old(b).symbols.interned <= b.symbols.interned
      ensures res.Ok? || res.BlockTooSmall?
      ensures res.BlockTooSmall? ==> |g.all| == 1 && NoRoom(b, g, align)
      ensures res.Ok? ==>
        && |g.all| == g.n == 1 && g.ncomp == 0 && b.tmpID == MaxID(b.symbols.interned)
        && b.lastoff == |b.buf|
        && (b.lastoff <= align || (b.lastoff == |old(b).buf| && b.symbols == old(b).symbols))
      ensures res.Ok? && b.lastoff > align <==>
        && old(b).flushID != 0 && old(b).symbols.memsize < align / 2
        && old(b).tmpID == MaxID(old(b).symbols.interned) && |old(b).buf| > align
    {
      hide BlockOk, Total, Wire, Tracks, AllReported, Portable, Spaced, FlatTimes, EncAll, HasRoom, Fits, EncItems, TableSize, HeadBytes, NewHead;
      TableFits(b.symbols.interned, 0);
      if b.flushID == 0 || b.symbols.memsize >= align / 2 {
        CarryOver();
      }
      var ok, r, h := AdjustSyms(b, align, g);
      b, g := r, h;
      LayoutOf(b, g);
      return if ok then Ok else BlockTooSmall;
    }

    /** Resymbolize the one row in the buffer, and the ranges with it. */
    method CarryOver()
      requires Live() && g.head.NoTable? && |g.all| == 1 && b.buf == EncAll(g.all)
      requires b.symbols.interned != [] && HasRoom([], |b.buf|)
      modifies this`b, this`g, this`symEpoch, ranges
      ensures Live() && Rows() == old(Rows()) && g.items == old(g).items && symEpoch == old(symEpoch) + 1
      ensures b.symbols.interned != [] && TableSize(b.symbols.interned) <= TableSize(old(b).symbols.interned)
      ensures g == Shadow(old(g).items, NoTable, g.all, 1, 0) && |g.all| == 1 && b.tmpID == 0
    {
      hide Total, Wire, Tracks, AllReported, Portable, Spaced, FlatTimes, EncAll, Enc, HasRoom, EncItems, Inv, WF, Resolves, TableSize, Recoded;
      hide HasOwnLabel, Layout, Ids, ItemsOk;
      ghost var v := g.all[0];
      assert g.all == [v];
      OneRow(b.symbols.interned, v);
      assert RowOk(b.symbols.interned, v);
      var buf, st;
      ghost var now;
      buf, st, now := Resymbolize(ranges, b.symbols, b.buf, v, rowTimes, pendingTimes);
      var r := Block(buf, st, 0, |buf|, 0, 0, 0);
      ghost var h := CarriedOver(b, g, r, now);
      b, g, symEpoch := r, h, symEpoch + 1;
    }

    /** `Commit`: the row being written joins the block, or starts the next one. */
    method Commit() returns (res: Outcome)
      requires Valid() && |g.all| == g.n + 1 && Fits(b.symbols.interned, 5 * |b.buf|)
      modifies this`b, this`g, this`solid, this`out, this`rowcount, this`written, this`reports, this`compressed
      modifies this`rowTimes, this`sections, this`pendingTimes, this`symEpoch, ranges
      ensures Live() && Rows() == old(Rows()) && old(out) <= out
      ensures symEpoch == old(symEpoch) ==> old(b).symbols.interned <= b.symbols.interned
      ensures res.TooLarge? <==> |old(b).buf| - old(b).lastoff > align
      ensures res.TooLarge? ==> Valid() && b == old(b) && g == old(g) && Times() == old(Times())
      ensures res.Panicked? <==> old(b).lastoff > align && |old(b).buf| - old(b).lastoff <= align
      ensures res.Ok? ==>
        && Valid() && g.n == |g.all| && b.lastoff == |b.buf| && b.tmpID == MaxID(b.symbols.interned)
        && Times() == old(Times()) + [old(pendingTimes)] && pendingTimes == map[]
      ensures res.Ok? && b.lastoff > align <==>
        && !noCompress && |old(b).buf| - old(b).lastoff <= align && !JoinsBlock(old(b), old(g), align)
        && Outgrows(old(b), old(g), align, hash, old(written), rangeAlign)
      ensures res.Ok? && b.lastoff > align ==>
        b.lastoff == |Enc(Compressed(b.symbols, old(g).all[old(g).n]))| && b.symbols == Attempt(old(b), old(g), hash).st
      ensures Roomy(old(b).symbols, old(g).all[old(g).n]) && MaxID(old(b).symbols.interned) + |old(b).buf| <= 0x100_0000 && res.Ok?
        ==> b.lastoff <= align
      ensures res.Ok? || res.TooLarge? || res.BlockTooSmall? || res.Panicked?
      ensures res.BlockTooSmall? ==> |g.all| == 1 && NoRoom(b, g, align)
      ensures |out| <= |old(out)| + 1 && (solid ==> old(solid) || |old(g).all| == 1)
      ensures JoinsBlock(old(b), old(g), align) ==>
        && res.Ok? && out == old(out) && written == old(written) && !compressed
        && b.symbols == old(b).symbols && b.flushID == old(b).flushID
        && g == old(g).(n := |old(g).all|, head :=
             if old(b).tmpID == MaxID(old(b).symbols.interned) then old(g).head else NewHead(old(b).symbols.interned, old(b).flushID))
    {
      hide Roomy, BlockOk, Total, Wire, Tracks, AllReported, Portable, Spaced, FlatTimes, Covered, EncAll, HasRoom, Fits, EncItems, Compressed, Enc, TableSize, Layout, Attempt;
      hide Outgrows, JoinsBlock, NewHead, HeadBytes, NoRoom, Inv, Live, Rows;
      Inside();
      ShortEnough(b, g, align);
      if |b.buf| - b.lastoff > align {
        return TooLarge;
      }
      compressed := false;
      UncommittedRow(b, g);
      RowsNeedTable(b, g);
      LayoutOf(b, g);
      FitsRoom(b.symbols.interned, |b.buf|);
      TableFits(b.symbols.interned, |b.buf|);
      var ok := false;
      if |b.buf| > align {
        TooLongToJoin(b, g, align);
      } else {
        ok := Join();
      }
      if !ok {
        res := CompressOrFlush();
        if !res.Ok? {
          return;
        }
      }
      CountRow();
      if b.lastoff > align { OutgrownRow(old(b), old(g), align, hash, old(written), rangeAlign); }
      res := Ok;
    }

    /** The row joins the block if there is room for it and for the table it needs. */
    method Join() returns (ok: bool)
      requires Valid() && |g.all| == g.n + 1 && |b.buf| <= align
      requires b.symbols.interned != [] && TableSize(b.symbols.interned) + 64 < UV_LIMIT
      modifies this`b, this`g
      ensures Live() && Rows() == old(Rows())
      ensures ok <==> JoinsBlock(old(b), old(g), align)
      ensures !ok ==> Valid() && b == old(b) && g == old(g) && b.tmpID != MaxID(b.symbols.interned)
      ensures ok ==>
        && Valid() && b.lastoff == |b.buf| <= align && b.tmpID == MaxID(b.symbols.interned)
        && b.symbols == old(b).symbols && b.flushID == old(b).flushID
        && g == old(g).(n := |old(g).all|, head :=
             if old(b).tmpID == MaxID(old(b).symbols.interned) then old(g).head else NewHead(old(b).symbols.interned, old(b).flushID))
    {
      hide BlockOk, Total, Wire, Tracks, AllReported, Portable, Spaced, FlatTimes, Covered, EncAll, EncItems, Enc, TableSize, Layout, JoinsBlock, NewHead, HeadBytes, Inv;
      var r;
      ghost var h;
      ok, r, h := AdjustSyms(b, align, g);
      b, g := r, h;
      if ok {
        assert |b.buf| <= align;   // "bad bookkeeping" cannot happen
        MarkCommitted();
      }
    }

    /** The row counts, and its pending timestamps become part of the ranges. */
    method CountRow()
      requires Live()
      modifies this`rowcount, this`rowTimes, this`pendingTimes, ranges
      ensures Live() && Times() == old(Times()) + [old(pendingTimes)] && pendingTimes == map[]
    {
      hide BlockOk, Wire, Tracks, AllReported, Portable, Spaced, FlatTimes;
      rowcount := rowcount + 1;
      CommitTracks(b.symbols.interned, ranges.m, rowTimes, pendingTimes);
      ranges.Commit();
      assert FlatTimes(sections) + (rowTimes + [pendingTimes]) == FlatTimes(sections) + rowTimes + [pendingTimes];
      rowTimes, pendingTimes := rowTimes + [pendingTimes], map[];
    }

    /** All rows in the buffer are committed. */
    method MarkCommitted()
      requires Live() && b.tmpID == MaxID(b.symbols.interned)
      modifies this`b, this`g
      ensures Live() && Rows() == old(Rows())
      ensures b == old(b).(lastoff := |b.buf|) && g == old(g).(n := |g.all|)
      ensures Covered(b.symbols.interned, b.tmpID, g.all[..g.n])
    {
      hide Wire, Tracks, AllReported, Portable, Spaced;
      AllCommitted(b, g);
      b, g := b.(lastoff := |b.buf|), g.(n := |g.all|);
    }

    /** `compressOrFlush`. */
    method CompressOrFlush() returns (res: Outcome)
      requires Valid() && |g.all| == g.n + 1 && !compressed && b.symbols.interned != []
      requires Fits(b.symbols.interned, 5 * |b.buf|) && HasRoom([], 5 * |b.buf|)
      requires |b.buf| > align || b.tmpID < MaxID(b.symbols.interned)
      requires |b.buf| - b.lastoff <= align
      modifies this`b, this`g, this`solid, this`out, this`rowcount, this`written, this`reports, this`compressed
      modifies this`rowTimes, this`sections, this`symEpoch, ranges
      ensures Live() && Rows() == old(Rows()) && Times() == old(Times()) && old(out) <= out
      ensures symEpoch == old(symEpoch) ==> old(b).symbols.interned <= b.symbols.interned
      ensures res.Panicked? <==> old(b).lastoff > align
      ensures res.Ok? || res.BlockTooSmall? || res.Panicked?
      ensures res.BlockTooSmall? ==> |g.all| == 1 && NoRoom(b, g, align)
      ensures |out| <= |old(out)| + 1 && (solid ==> old(solid) || |old(g).all| == 1)
      ensures res.Ok? ==>
        && Valid() && g.n == |g.all| && b.lastoff == |b.buf| && b.tmpID == MaxID(b.symbols.interned)
      ensures res.Ok? && b.lastoff > align <==> !noCompress && Outgrows(old(b), old(g), align, hash, old(written), rangeAlign)
      ensures res.Ok? && b.lastoff > align ==>
        && b.lastoff == |Enc(Compressed(b.symbols, old(g).all[old(g).n]))| && b.symbols == Attempt(old(b), old(g), hash).st
    {
      hide BlockOk, Total, Wire, Tracks, AllReported, Portable, Spaced, FlatTimes, Covered, EncAll, HasRoom, Fits, EncItems, Compressed, Enc, TableSize, Layout, Attempt;
      if !noCompress && !compressed {
        var panicked := TryCompress();
        if panicked {
          return Panicked;
        }
        if |b.buf| <= align && compressed {
          MarkCommitted();
          return Ok;
        }
      } else {
        FitsRoom(b.symbols.interned, |b.buf|);
        LayoutOf(b, g);
        RoomShrinks(|EncAll(g.all)|, 5 * |b.buf|);
      }
      res := ForceFlush(false);
      if res.Ok? { CoveredWhole(b, g); }
    }

    /** `c.compressed = c.compress()`. */
    method TryCompress() returns (panicked: bool)
      requires Live() && b.symbols.interned != [] && Fits(b.symbols.interned, 5 * |b.buf|)
      requires g.ncomp <= g.n <= |g.all| && Covered(b.symbols.interned, b.tmpID, g.all[..g.n])
      modifies this`b, this`g, this`compressed
      ensures Live() && Rows() == old(Rows()) && g.items == old(g).items
      ensures panicked <==> old(b).lastoff > align
      ensures panicked ==> b == old(b) && g == old(g)
      ensures !panicked ==> (compressed <==> Compresses(old(b), old(g), align, hash))
      ensures !panicked && compressed ==> b == Recast(Attempt(old(b), old(g), hash), old(b).flushID)
      ensures old(b).symbols.interned <= b.symbols.interned
      ensures g.n <= |g.all| && Covered(b.symbols.interned, b.tmpID, g.all[..g.n])
      ensures b.symbols.interned != [] && Fits(b.symbols.interned, 0) && HasRoom([], |EncAll(g.all)|)
      ensures !panicked && !compressed ==> g == old(g) && b == old(b).(symbols := b.symbols) && b.symbols.interned == old(b).symbols.interned
      ensures !panicked && compressed ==>
        && old(g).all != [] && |g.all| == |old(g).all| == g.n + 1 == g.ncomp && b.tmpID == MaxID(b.symbols.interned) && b.lastoff <= align
        && |b.buf| - b.lastoff == |Enc(Compressed(b.symbols, old(g).all[|old(g).all| - 1]))|
    {
      hide BlockOk, Total, Wire, Tracks, AllReported, Portable, Spaced, FlatTimes, Covered, EncAll, HasRoom, Fits, EncItems, Compressed, Enc, GrownTable, CompressedAll, Layout, Attempt;
      FitsRoom(b.symbols.interned, |b.buf|);
      LayoutOf(b, g);
      RoomShrinks(|EncAll(g.all)|, 5 * |b.buf|);
      var ok, r;
      ghost var h;
      ok, panicked, r, h := Compress(b, align, hash, g);
      if panicked {
        return;
      }
      GrowTracks(b.symbols.interned, r.symbols.interned, ranges.m, rowTimes, pendingTimes);
      RoomShrinks(|EncAll(h.all)|, 5 * |b.buf|);
      if ok {
        CoveredWhole(r, h);
        LayoutOf(r, h);
        LastRow(r, h, g.all[..g.ncomp], g.all[g.ncomp..]);
      }
      b, g, compressed := r, h, ok;
    }

    /** `Flush`: on success nothing is left behind. */
    method Flush() returns (res: Outcome)
      requires Valid() && |g.all| == g.n && Fits(b.symbols.interned, 5 * |b.buf|)
      modifies this`b, this`g, this`solid, this`out, this`rowcount, this`written, this`reports, this`compressed
      modifies this`rowTimes, this`sections, this`symEpoch, ranges
      ensures Live() && Rows() == old(Rows()) && Times() == old(Times()) && old(out) <= out
      ensures res.NotCommitted? <==> |old(b).buf| > align
      ensures res.Ok? || res.NotCommitted? || res.Panicked?
      ensures solid == old(solid) && (res.Ok? ==> Valid() && g.all == [])
      ensures res.Ok? ==> ReadStream([], Flat(out)) == Some((Rows(), Held(g)))
      ensures res.Panicked? <==>
        |old(b).buf| <= align && old(g).all != [] && Overflows(old(b), old(g), align, hash, !noCompress && !old(compressed))
      ensures old(b).tmpID == MaxID(old(b).symbols.interned) && HasSlack(old(b), old(g), align) ==> !res.Panicked?
    {
      hide BlockOk, Total, Wire, Tracks, AllReported, Portable, Spaced, FlatTimes, Covered, EncAll, HasRoom, Fits, EncItems, Compressed, Enc, Flat, ReadStream, TableAfter, Attempt;
      hide HasSlack, Overflows;
      if |b.buf| > align {
        return NotCommitted;
      }
      if b.lastoff == 0 {
        NothingCommitted(b, g);
        if written != 0 {
          FlushRanges();
        }
        NoRowsCovered(b.symbols.interned, b.tmpID);
        Written(b, g, align, out);
        return Ok;
      }
      RowsOrTable(b, g);
      if b.tmpID == MaxID(b.symbols.interned) && HasSlack(b, g, align) {
        FitsRoom(b.symbols.interned, |b.buf|);
        EnoughSlack(b, g, align, hash, !noCompress && !compressed);
      }
      res := LastBlock();
    }

    /** Its second half: compress once more if that has not been done, and write what there is. */
    method LastBlock() returns (res: Outcome)
      requires Valid() && |g.all| == g.n && Fits(b.symbols.interned, 5 * |b.buf|)
      requires |b.buf| <= align && b.symbols.interned != []
      modifies this`b, this`g, this`solid, this`out, this`rowcount, this`written, this`reports, this`compressed
      modifies this`rowTimes, this`sections, this`symEpoch, ranges
      ensures Live() && Rows() == old(Rows()) && Times() == old(Times()) && old(out) <= out
      ensures res.Ok? || res.Panicked?
      ensures solid == old(solid) && (res.Ok? ==> Valid() && g.all == [])
      ensures res.Ok? ==> ReadStream([], Flat(out)) == Some((Rows(), Held(g)))
      ensures res.Panicked? <==> old(g).all != [] && Overflows(old(b), old(g), align, hash, !noCompress && !old(compressed))
    {
      hide BlockOk, Total, Wire, Tracks, AllReported, Portable, Spaced, FlatTimes, Covered, EncAll, HasRoom, Fits, EncItems, Compressed, Enc, Flat, ReadStream, TableAfter, Attempt;
      hide Inv, HeadBytes, Live, Rows, Times;
      Inside();
      FitsRoom(b.symbols.interned, |b.buf|);
      LayoutOf(b, g);
      if !noCompress && !compressed {
        var panicked := TryCompress();
        if panicked {
          return Panicked;
        }
      } else {
        RoomShrinks(|EncAll(g.all)|, 5 * |b.buf|);
      }
      Inside();
      RowsTakeRoom(b, g);
      res := ForceFlush(true);
      if res.Ok? {
        NoRowsCovered(b.symbols.interned, b.tmpID);
        AllWritten();
      }
    }

    lemma AllWritten()
      requires Live() && g.all == []
      ensures ReadStream([], Flat(out)) == Some((Rows(), Held(g)))
    {
      hide BlockOk, Total, Wire, Flat, ReadStream, TableAfter;
      Written(b, g, align, out);
    }

    /** The caller interned some names and wrote one row. */
    method Append(dat: bytes, st: Symtab, ghost v: Ion)
      requires Valid() && |g.all| == g.n && dat == Enc(v) && RowOk(st.interned, v) && HasOwnLabel(v)
      requires Inv(st) && b.symbols.interned <= st.interned
      modifies this`b, this`g
      ensures Valid() && g == old(g).(all := old(g).all + [v])
      ensures b == old(b).(buf := old(b).buf + dat, symbols := st)
      ensures Rows() == old(Rows()) + [Meaning(st.interned, v)]
    {
      hide BlockOk, Total, Wire, Tracks, AllReported, Portable, Spaced, FlatTimes, Covered, Enc, Inv, HasOwnLabel, Meaning, RowOk;
      RowAppended(b, g, st, v);
      GrowTracks(b.symbols.interned, st.interned, ranges.m, rowTimes, pendingTimes);
      CoveredGrow(b.symbols.interned, st.interned, b.tmpID, g.all[..g.n]);
      b, g := b.(buf := b.buf + dat, symbols := st), g.(all := g.all + [v]);
    }

    /** A timestamp of the row being written; the last one on a path counts. */
    method AddTime(p: Path, t: Time)
      requires Valid() && PathResolves(b.symbols.interned, p)
      modifies this`pendingTimes, ranges
      ensures Valid() && pendingTimes == old(pendingTimes)[NamesOf(b.symbols.interned, p) := t]
    {
      hide Total, Wire, Tracks, AllReported, Portable, Spaced, FlatTimes, Covered, Inv, RowOk, NamesOf, PathResolves, Layout, Ids, RowsOk, Labelled, ItemsOk;
      InvIsDistinct(b.symbols);
      AddTracks(b.symbols.interned, ranges.m, rowTimes, pendingTimes, p, t);
      ranges.AddTime(p, t);
      pendingTimes := pendingTimes[NamesOf(b.symbols.interned, p) := t];
    }
  }
}
