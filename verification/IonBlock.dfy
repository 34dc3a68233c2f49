/** The block a Chunker is building: `adjustSyms` and `compress` of ion/chunker.go and
    ion/compress.go, on the fields they keep in step. */
module IonBlock {
  import opened IonCodec
  import opened IonTree
  import opened IonValue
  import opened IonSymtab
  import opened IonBuffer
  import opened IonMarshal
  import opened IonRecode
  import opened IonResym
  import opened IonCompress
  import opened IonStrtab
  import opened IonResymbolize
  import opened IonStream
  import opened IonPad

  /** Buffer, symbol table and bookkeeping offsets. */
  datatype Block = Block(
    buf: bytes,
    symbols: Symtab,
    lastst: nat,     // size of the symbol table in front
    lastoff: nat,    // end of the last committed object
    lastcomp: nat,   // end of the compressed part
    tmpID: nat,      // marshalled
    flushID: nat)    // and flushed maximum symbol IDs

  /** What the block stands for: the items already written, the table in front of the buffer,
      the rows in it, and how many of them lie before lastoff and before lastcomp. */
  datatype Shadow = Shadow(items: seq<Item>, head: Head, all: seq<Ion>, n: nat, ncomp: nat)

  /** The reader's table after everything written. */
  function Held(g: Shadow): Table { TableAfter([], g.items) }

  predicate Layout(b: Block, g: Shadow) {
    && b.buf == HeadBytes(g.head) + EncAll(g.all)
    && b.lastst == |HeadBytes(g.head)|
    && g.n <= |g.all| && g.ncomp <= |g.all|
    && b.lastoff == b.lastst + |EncAll(g.all[..g.n])|
    && b.lastcomp == b.lastst + |EncAll(g.all[..g.ncomp])|
  }

  /** flushID counts the symbols readers have, tmpID those the table in front brings them to. */
  predicate Ids(tab: Table, flushID: nat, tmpID: nat, held: Table, head: Head) {
    && flushID <= tmpID <= MaxID(tab)
    && HeadFits(head)
    && (flushID != 0 ==> flushID > SYSTEM_COUNT && held == tab[..flushID - SYSTEM_COUNT])
    && (tmpID == 0 ==> head.NoTable?)
    && (tmpID != 0 ==> tmpID > SYSTEM_COUNT && Learned(held, head) == tab[..tmpID - SYSTEM_COUNT])
  }

  /** Every row names a field with a symbol of its own: a table without symbols cannot be extended. */
  predicate Labelled(rows: seq<Ion>) {
    forall i :: 0 <= i < |rows| ==> HasOwnLabel(rows[i])
  }

  predicate BlockOk(b: Block, g: Shadow) {
    && Inv(b.symbols)
    && Layout(b, g)
    && Ids(b.symbols.interned, b.flushID, b.tmpID, Held(g), g.head)
    && RowsOk(b.symbols.interned, g.all)
    && Labelled(g.all)
    && ItemsOk([], g.items)
  }

  /** The rows need no symbols beyond those the table in front announces. */
  predicate Covered(tab: Table, tmpID: nat, rows: seq<Ion>) {
    rows == [] || (SYSTEM_COUNT <= tmpID <= MaxID(tab) && RowsOk(tab[..tmpID - SYSTEM_COUNT], rows))
  }

  /** Everything written so far, flushed or not, in order. */
  function Total(b: Block, g: Shadow): seq<Value> {
    RowsOf([], g.items) + MeaningAll(b.symbols.interned, g.all)
  }

  /** The format's own limits: four-byte symbols, eight-byte lengths. */
  predicate Fits(tab: Table, n: nat) {
    MaxID(tab) + n < SYMBOL_LIMIT && TableSize(tab) + 5 * n + 64 < UV_LIMIT
  }

  // --------------------------------------------------------------------- new tables

  /** The table that brings a reader at flushID up to the whole of tab. */
  function NewHead(tab: Table, flushID: nat): Head {
    if SYSTEM_COUNT < flushID <= MaxID(tab) then Extend(tab[flushID - SYSTEM_COUNT..]) else Fresh(tab)
  }

  lemma NewHeadBytes(tab: Table, flushID: nat)
    requires flushID == 0 || SYSTEM_COUNT < flushID <= MaxID(tab)
    ensures HeadBytes(NewHead(tab, flushID))
         == if flushID == 0 then MarshalBytes(tab, 0, true) else MarshalBytes(tab, flushID, false)
  {
    assert tab[0..] == tab;
  }

  lemma NewHeadReads(tab: Table, flushID: nat, tmpID: nat, held: Table, head: Head)
    requires Ids(tab, flushID, tmpID, held, head) && tab != [] && TableSize(tab) + 64 < UV_LIMIT
    ensures Ids(tab, flushID, MaxID(tab), held, NewHead(tab, flushID))
  {
    hide TableSize;
    assert tab[..|tab|] == tab;
    if flushID != 0 {
      var k := flushID - SYSTEM_COUNT;
      TableSizeSplit(tab, k);
      assert tab[..k] + tab[k..] == tab;
    }
  }

  lemma IdsOrdered(tab: Table, flushID: nat, tmpID: nat, held: Table, head: Head)
    requires Ids(tab, flushID, tmpID, held, head)
    ensures flushID <= tmpID <= MaxID(tab) && (flushID == 0 || flushID > SYSTEM_COUNT)
  {
  }

  lemma IdsGrow(tab: Table, more: Table, flushID: nat, tmpID: nat, held: Table, head: Head)
    requires Ids(tab, flushID, tmpID, held, head) && tab <= more
    ensures Ids(more, flushID, tmpID, held, head)
  {
    if tmpID != 0 {
      assert more[..tmpID - SYSTEM_COUNT] == tab[..tmpID - SYSTEM_COUNT];
    }
    if flushID != 0 {
      assert more[..flushID - SYSTEM_COUNT] == tab[..flushID - SYSTEM_COUNT];
    }
  }

  /** Marshal the table a reader at flushID is missing. */
  method MarshalHead(tab: Table, flushID: nat) returns (prefix: bytes)
    requires flushID == 0 || SYSTEM_COUNT < flushID <= MaxID(tab)
    requires TableSize(tab) + 64 < UV_LIMIT
    ensures prefix == HeadBytes(NewHead(tab, flushID))
  {
    hide HeadBytes, TableSize, StackBytes, SegsMatch, NewHead, MarshalBytes;
    var tmpbuf := new Buffer();
    if flushID == 0 {
      Marshal(tmpbuf, tab, 0, true);
    } else {
      Marshal(tmpbuf, tab, flushID, false);
    }
    NewHeadBytes(tab, flushID);
    prefix := tmpbuf.buf;
  }

  // ------------------------------------------------------------------------ layouts

  /** Exchanging the table in front of the rows moves every offset by the same amount. */
  lemma SwapHead(b: Block, g: Shadow, now: Head, tmpID: nat)
    requires Layout(b, g)
    ensures b.lastst <= |b.buf| && b.buf[b.lastst..] == EncAll(g.all) && b.lastst <= b.lastoff && b.lastst <= b.lastcomp
    ensures var size := |HeadBytes(now)|;
      Layout(b.(buf := HeadBytes(now) + EncAll(g.all), lastst := size, lastoff := b.lastoff - b.lastst + size,
                lastcomp := b.lastcomp - b.lastst + size, tmpID := tmpID), g.(head := now))
  {
    hide EncAll, HeadBytes;
  }

  lemma CutAt(h: bytes, all: seq<Ion>, k: nat)
    requires k <= |all|
    ensures var buf := h + EncAll(all);
      var at := |h| + |EncAll(all[..k])|;
      && at <= |buf| && buf[at..] == EncAll(all[k..])
      && buf[|h|..at] == EncAll(all[..k]) && buf[..at] == h + EncAll(all[..k])
  {
    hide EncAll;
    assert all == all[..k] + all[k..];
    EncAllAppend(all[..k], all[k..]);
  }

  /** Where the buffer is cut: behind the table and behind lastcomp. */
  lemma CutCompressed(b: Block, g: Shadow)
    requires Layout(b, g)
    ensures g.ncomp <= |g.all| && b.lastst <= b.lastcomp <= |b.buf| && |EncAll(g.all)| <= |b.buf|
    ensures b.buf[b.lastcomp..] == EncAll(g.all[g.ncomp..]) && b.buf[b.lastst..b.lastcomp] == EncAll(g.all[..g.ncomp])
  {
    hide EncAll, HeadBytes;
    CutAt(HeadBytes(g.head), g.all, g.ncomp);
  }

  /** And behind lastoff. */
  lemma CutCommitted(b: Block, g: Shadow)
    requires Layout(b, g)
    ensures g.n <= |g.all| && b.lastst <= b.lastoff <= |b.buf|
    ensures b.buf[b.lastoff..] == EncAll(g.all[g.n..]) && b.buf[..b.lastoff] == HeadBytes(g.head) + EncAll(g.all[..g.n])
  {
    hide EncAll, HeadBytes;
    CutAt(HeadBytes(g.head), g.all, g.n);
  }

  lemma SameTable(b: Block, r: Block, g: Shadow)
    requires BlockOk(b, g) && Inv(r.symbols) && r.symbols.interned == b.symbols.interned && r == b.(symbols := r.symbols)
    ensures BlockOk(r, g)
  {
    hide Inv, EncAll, HeadBytes, RowsOk, Ids, ItemsOk;
  }

  // --------------------------------------------------------------------------- rows

  lemma RowsOkGrow(tab: Table, more: Table, rows: seq<Ion>)
    requires RowsOk(tab, rows) && tab <= more
    ensures RowsOk(more, rows) && MeaningAll(more, rows) == MeaningAll(tab, rows)
  {
    hide WF;
    forall i | 0 <= i < |rows| ensures RowOk(more, rows[i]) {
      assert RowOk(tab, rows[i]);
      MeaningExtends(tab, more, rows[i]);
    }
    assert ResolvesAll(tab, rows) by {
      forall i | 0 <= i < |rows| ensures Resolves(tab, rows[i]) { assert RowOk(tab, rows[i]); }
    }
    MeaningAllExtends(tab, more, rows);
  }

  lemma RowsSplit(tab: Table, all: seq<Ion>, k: nat)
    requires RowsOk(tab, all) && k <= |all|
    ensures RowsOk(tab, all[..k]) && RowsOk(tab, all[k..])
    ensures WFAll(all[k..]) && ResolvesAll(tab, all[k..])
    ensures MeaningAll(tab, all) == MeaningAll(tab, all[..k]) + MeaningAll(tab, all[k..])
  {
    hide WF, Resolves, MeaningAll;
    assert all == all[..k] + all[k..];
    MeaningAllAppend(tab, all[..k], all[k..]);
    forall i | 0 <= i < |all[k..]| ensures RowOk(tab, all[k..][i]) {
      assert all[k..][i] == all[k + i];
    }
    forall i | 0 <= i < |all[k..]| ensures WF(all[k..][i]) && Resolves(tab, all[k..][i]) {
      assert RowOk(tab, all[k..][i]);
    }
  }

  // --------------------------------------------------------------------- adjustSyms

  /** The rows do not fit into a block together with the table they need. */
  predicate NoRoom(b: Block, g: Shadow, align: nat) {
    && (b.flushID == 0 || SYSTEM_COUNT < b.flushID <= MaxID(b.symbols.interned))
    && |HeadBytes(NewHead(b.symbols.interned, b.flushID))| + |EncAll(g.all)| > align
  }

  /** The block as it is has room for its rows and for the table they need. */
  predicate JoinsBlock(b: Block, g: Shadow, align: nat) {
    |b.buf| <= align && (b.tmpID == MaxID(b.symbols.interned)
                         || |HeadBytes(NewHead(b.symbols.interned, b.flushID))| + |EncAll(g.all)| <= align)
  }

  lemma TooLongToJoin(b: Block, g: Shadow, align: nat)
    requires |b.buf| > align
    ensures !JoinsBlock(b, g, align)
  {
  }

  /** `adjustSyms`: put an up-to-date table in front, if the block has room for it. */
  method AdjustSyms(b: Block, align: nat, ghost g: Shadow) returns (ok: bool, r: Block, ghost h: Shadow)
    requires BlockOk(b, g) && b.symbols.interned != [] && TableSize(b.symbols.interned) + 64 < UV_LIMIT
    ensures BlockOk(r, h) && Total(r, h) == Total(b, g)
    ensures r.symbols == b.symbols && r.flushID == b.flushID && h == g.(head := h.head)
    ensures b.flushID == 0 || SYSTEM_COUNT < b.flushID <= MaxID(b.symbols.interned)
    ensures ok <==> b.tmpID == MaxID(b.symbols.interned)
                    || |HeadBytes(NewHead(b.symbols.interned, b.flushID))| + |EncAll(g.all)| <= align
    ensures |b.buf| <= align ==> (ok <==> JoinsBlock(b, g, align))
    ensures ok ==> r.tmpID == MaxID(b.symbols.interned)
    ensures ok ==> h.head == if b.tmpID == MaxID(b.symbols.interned) then g.head else NewHead(b.symbols.interned, b.flushID)
    ensures ok && b.tmpID != MaxID(b.symbols.interned) ==> |r.buf| <= align
    ensures !ok || b.tmpID == MaxID(b.symbols.interned) ==> r == b && h == g
  {
    hide Inv, EncAll, HeadBytes, TableSize, RowsOk, Layout, Ids, NewHead, ItemsOk, MeaningAll, RowsOf;
    var tab := b.symbols.interned;
    IdsOrdered(tab, b.flushID, b.tmpID, Held(g), g.head);
    var max := MaxID(tab);
    assert b.flushID <= b.tmpID <= max;   // "bad symbol ID bookkeeping" cannot happen
    if max == b.tmpID {
      return true, b, g;
    }
    var prefix := MarshalHead(tab, b.flushID);
    ghost var now := NewHead(tab, b.flushID);
    SwapHead(b, g, now, max);
    var data := b.buf[b.lastst..];
    if |prefix| + |data| > align {
      return false, b, g;
    }
    NewHeadReads(tab, b.flushID, b.tmpID, Held(g), g.head);
    var adj := |prefix| - b.lastst;
    r := b.(buf := prefix + data, lastst := |prefix|, lastoff := b.lastoff + adj, lastcomp := b.lastcomp + adj, tmpID := max);
    ok, h := true, g.(head := now);
  }

  // ------------------------------------------------------------------------ compress

  /** The re-encoding loop: every row of buf in turn; off is where the last one starts. */
  method CompressRows(st: Symtab, out: Buffer, buf: bytes, ghost tab: Table, ghost rows: seq<Ion>) returns (off: nat)
    requires out.Valid() && out.frames == []
    requires buf == EncAll(rows) && WFAll(rows) && ResolvesAll(tab, rows) && 5 * |EncAll(rows)| < UV_LIMIT
    requires GrownTable(tab, st)
    modifies out
    ensures out.Valid() && out.frames == []
    ensures out.buf == old(out.buf) + EncAll(CompressedAll(st, rows))
    ensures off == if rows == [] then |old(out.buf)|
                   else |old(out.buf)| + |EncAll(CompressedAll(st, rows[..|rows| - 1]))|
  {
    hide StackBytes, SegsMatch, Enc, EncAll, Inv, CompressedAll, Compressed, WF, Resolves, GrownTable;
    var body := buf;
    off := |out.buf|;
    ghost var k := 0;
    ItemsStart(tab, tab, rows);
    CompressedAllStart(st, rows);
    StackOfNone(out.base);
    ghost var before := out.buf;
    assert before + EncAll(CompressedAll(st, rows[..0])) == before;
    while |body| > 0
      invariant 0 <= k <= |rows| && body == EncAll(rows[k..]) && |body| <= |buf|
      invariant out.Valid() && out.frames == []
      invariant out.buf == before + EncAll(CompressedAll(st, rows[..k]))
      invariant off == if k == 0 then |before| else |before| + |EncAll(CompressedAll(st, rows[..k - 1]))|
      decreases |rows| - k
    {
      ItemsStep(rows, k);
      ItemSplit(rows, k);
      CompressedAllStep(st, rows, k);
      EncAllSnoc(CompressedAll(st, rows[..k]), Compressed(st, rows[k]));
      off := |out.buf|;
      StackOfNone(out.base);
      body := CompressValue(st, out, body, tab, rows[k], EncAll(rows[k + 1..]));
      StackOfNone(out.base);
      k := k + 1;
    }
    ItemsEnd(rows, k);
  }

  datatype Rewrite = NoGain | Rewritten(st: Symtab, buf: bytes, lastst: nat, off: nat)

  /** The block written again, if its new part holds a string worth a symbol: a table for readers at
      flushID, the rows compressed before, and the new ones. */
  function Rewriting(symbols: Symtab, hash: bytes -> nat, flushID: nat, done: seq<Ion>, todo: seq<Ion>): Rewrite {
    var (s, st) := ScanOf(hash, symbols, todo);
    if s.prepop == 0 then NoGain
    else
      var head := HeadBytes(NewHead(st.interned, flushID));
      Rewritten(st, head + EncAll(done) + EncAll(CompressedAll(st, todo)), |head|,
                |head| + |EncAll(done)| + |EncAll(CompressedAll(st, todo[..if todo == [] then 0 else |todo| - 1]))|)
  }

  lemma RewritingSpec(symbols: Symtab, hash: bytes -> nat, flushID: nat, done: seq<Ion>, todo: seq<Ion>)
    requires Inv(symbols)
    ensures var r := Rewriting(symbols, hash, flushID, done, todo);
      r.Rewritten? ==> todo != [] && Scanned(symbols, r.st, |EncAll(todo)|) && Frequent(symbols.interned, r.st.interned, StringsAll(todo))
  {
    hide Inv, EncAll, HeadBytes, NewHead, CompressedAll, Scanned, Frequent, StringsAll, ScanOf;
    ScanSpec(hash, symbols, todo);
  }

  /** Scan the new part of a block for strings and write the block again under the grown table. */
  method RewriteBlock(symbols: Symtab, hash: bytes -> nat, flushID: nat, prefix: bytes, body: bytes, ghost size: nat,
                      ghost done: seq<Ion>, ghost todo: seq<Ion>)
    returns (r: Rewrite)
    requires Inv(symbols) && symbols.interned != [] && Fits(symbols.interned, size)
    requires flushID == 0 || SYSTEM_COUNT < flushID <= MaxID(symbols.interned)
    requires prefix == EncAll(done) && body == EncAll(todo) && |body| <= size
    requires WFAll(todo) && ResolvesAll(symbols.interned, todo)
    ensures r == Rewriting(symbols, hash, flushID, done, todo)
    ensures r.Rewritten? ==>
      && todo != [] && Scanned(symbols, r.st, |body|) && GrownTable(symbols.interned, r.st) && r.st.interned != []
      && Frequent(symbols.interned, r.st.interned, StringsAll(todo))
      && flushID <= MaxID(r.st.interned)
  {
    hide Inv, EncAll, HeadBytes, TableSize, NewHead, CompressedAll, WFAll, ResolvesAll, Scanned, GrownTable, StackBytes, SegsMatch;
    hide Frequent, StringsAll, MarkedAll, SightingsAll;
    EmptyRowsEncode();
    ScanSpec(hash, symbols, todo);
    var stab := new Strtab(hash);
    var st := ScanItems(symbols, body, 0, stab, todo);
    assert stab.prepop == stab.State().prepop;
    if stab.prepop == 0 {
      return NoGain;
    }
    ScannedIsPrefix(symbols, st, |body|);
    ScannedFits(symbols, st, |body|, size);
    var newbuf := MarshalHead(st.interned, flushID);
    var tmpbuf := new Buffer();
    tmpbuf.AppendRaw(newbuf + prefix);
    assert tmpbuf.buf == newbuf + prefix;
    var off := CompressRows(st, tmpbuf, body, symbols.interned, todo);
    r := Rewritten(st, tmpbuf.buf, |newbuf|, off);
  }

  /** What `compress` tries with a block. */
  function Attempt(b: Block, g: Shadow, hash: bytes -> nat): Rewrite {
    if g.ncomp <= |g.all| then Rewriting(b.symbols, hash, b.flushID, g.all[..g.ncomp], g.all[g.ncomp..]) else NoGain
  }

  /** It succeeds exactly if a string was found and the last row still starts within the block. */
  predicate Compresses(b: Block, g: Shadow, align: nat, hash: bytes -> nat) {
    b.lastoff <= align && Attempt(b, g, hash).Rewritten? && Attempt(b, g, hash).off <= align
  }

  function Recast(w: Rewrite, flushID: nat): Block
    requires w.Rewritten?
  {
    Block(w.buf, w.st, w.lastst, w.off, |w.buf|, MaxID(w.st.interned), flushID)
  }

  lemma EmptyRowsEncode()
    ensures EncAll([]) == []
  {
  }

  lemma ScannedIsPrefix(a: Symtab, b: Symtab, n: nat)
    requires Scanned(a, b, n)
    ensures a.interned <= b.interned && Inv(b)
  {
  }

  lemma ScannedFits(a: Symtab, b: Symtab, n: nat, m: nat)
    requires Inv(a) && Scanned(a, b, n) && Fits(a.interned, m) && n <= m && a.interned != []
    ensures GrownTable(a.interned, b) && Fits(b.interned, 0) && 5 * n < UV_LIMIT && b.interned != []
    ensures TableSize(b.interned) + 64 < UV_LIMIT
  {
    hide TableSize, Inv;
  }

  lemma TruncateBack(a: Symtab, b: Symtab, n: nat)
    requires Inv(a) && Scanned(a, b, n)
    ensures SYSTEM_COUNT <= MaxID(a.interned) <= MaxID(b.interned)
    ensures Inv(Truncate(b, MaxID(a.interned))) && Truncate(b, MaxID(a.interned)).interned == a.interned
  {
    hide TableSize, Inv;
    TruncateKeepsInv(b, MaxID(a.interned));
  }

  lemma CompressedLayout(h: Head, done: seq<Ion>, st: Symtab, todo: seq<Ion>, b: Block, g: Shadow)
    requires todo != [] && g.head == h && g.all == done + CompressedAll(st, todo)
    requires g.n == |g.all| - 1 && g.ncomp == |g.all|
    requires b.buf == HeadBytes(h) + EncAll(done) + EncAll(CompressedAll(st, todo))
    requires b.lastst == |HeadBytes(h)| && b.lastcomp == |b.buf|
    requires b.lastoff == b.lastst + |EncAll(done)| + |EncAll(CompressedAll(st, todo[..|todo| - 1]))|
    ensures Layout(b, g)
  {
    hide EncAll, HeadBytes, CompressedAll;
    EncAllAppend(done, CompressedAll(st, todo));
    var k := |todo| - 1;
    CompressedAllStep(st, todo, k);
    assert todo[..k + 1] == todo;
    assert g.all[..g.n] == done + CompressedAll(st, todo[..k]);
    EncAllAppend(done, CompressedAll(st, todo[..k]));
    assert g.all[..g.ncomp] == g.all;
  }

  lemma CompressedRowsMean(tab: Table, st: Symtab, done: seq<Ion>, todo: seq<Ion>)
    requires GrownTable(tab, st) && RowsOk(tab, done) && RowsOk(tab, todo) && 5 * |EncAll(todo)| < UV_LIMIT
    requires WFAll(todo) && ResolvesAll(tab, todo)
    requires Distinct(tab) && Labelled(done) && Labelled(todo)
    ensures RowsOk(st.interned, done + CompressedAll(st, todo)) && Labelled(done + CompressedAll(st, todo))
    ensures |EncAll(CompressedAll(st, todo))| <= 5 * |EncAll(todo)|
    ensures MeaningAll(st.interned, done + CompressedAll(st, todo)) == MeaningAll(tab, done) + MeaningAll(tab, todo)
  {
    hide EncAll, WF, Resolves, MeaningAll, CompressedAll, Inv, Distinct, HasOwnLabel;
    CompressedAllMeans(tab, st, todo);
    RowsOkGrow(tab, st.interned, done);
    MeaningAllAppend(st.interned, done, CompressedAll(st, todo));
    CompressedAreStructs(tab, st, todo);
    CompressedKeepLabels(tab, st, todo);
  }

  lemma {:induction false} CompressedKeepLabels(tab: Table, st: Symtab, todo: seq<Ion>)
    requires GrownTable(tab, st) && Distinct(tab) && Labelled(todo) && 5 * |EncAll(todo)| < UV_LIMIT
    requires WFAll(todo) && ResolvesAll(tab, todo)
    ensures Labelled(CompressedAll(st, todo))
    decreases |todo|
  {
    hide EncAll, Enc, WF, Resolves, GrownTable, HasOwnLabel, Distinct, Recoded;
    if todo != [] {
      var k := |todo| - 1;
      assert todo == todo[..k] + [todo[k]];
      EncAllSnoc(todo[..k], todo[k]);
      CompressedKeepLabels(tab, st, todo[..k]);
      CompressedMeans(tab, st, todo[k]);
      OwnLabelSurvives(tab, st.interned, todo[k], Compressed(st, todo[k]));
    }
  }

  lemma {:induction false} CompressedAreStructs(tab: Table, st: Symtab, todo: seq<Ion>)
    requires RowsOk(tab, todo)
    ensures forall i :: 0 <= i < |todo| ==> CompressedAll(st, todo)[i].Struct?
    decreases |todo|
  {
    hide WF, Resolves;
    if todo != [] {
      var k := |todo| - 1;
      assert RowOk(tab, todo[k]);
      CompressedAreStructs(tab, st, todo[..k]);
    }
  }

  /** `compress`. On success all rows denote what they did before and the last one starts at
      lastoff; otherwise nothing has changed but stale index entries. */
  method Compress(b: Block, align: nat, hash: bytes -> nat, ghost g: Shadow)
    returns (ok: bool, panicked: bool, r: Block, ghost h: Shadow)
    requires BlockOk(b, g) && b.symbols.interned != [] && Fits(b.symbols.interned, |b.buf|)
    ensures BlockOk(r, h) && Total(r, h) == Total(b, g)
    ensures panicked <==> b.lastoff > align
    ensures ok <==> Compresses(b, g, align, hash)
    ensures ok ==> r == Recast(Attempt(b, g, hash), b.flushID)
    ensures b.symbols.interned <= r.symbols.interned && Fits(r.symbols.interned, 0)
    ensures !ok ==> h == g && r == b.(symbols := r.symbols) && r.symbols.interned == b.symbols.interned
    ensures ok ==>
      && r.lastoff <= align && r.flushID == b.flushID && r.tmpID == MaxID(r.symbols.interned)
      && h.items == g.items && g.ncomp < |g.all| && GrownTable(b.symbols.interned, r.symbols)
      && h.all == g.all[..g.ncomp] + CompressedAll(r.symbols, g.all[g.ncomp..])
      && h.n == |h.all| - 1 && h.ncomp == |h.all| == |g.all|
      && Frequent(b.symbols.interned, r.symbols.interned, StringsAll(g.all[g.ncomp..]))
    ensures |EncAll(h.all)| <= 5 * |b.buf|
  {
    hide Inv, EncAll, HeadBytes, TableSize, RowsOk, Layout, Ids, NewHead, CompressedAll, MeaningAll, RowsOf, Truncate, ItemsOk, WFAll, ResolvesAll, Scanned, GrownTable;
    hide Frequent, StringsAll, ScanOf;
    LessFits(b.symbols.interned, |b.buf|);
    CutCompressed(b, g);
    if b.lastoff > align { return false, true, b, g; }
    IdsOrdered(b.symbols.interned, b.flushID, b.tmpID, Held(g), g.head);
    assert b.lastcomp >= b.lastst;   // "lastcomp < c.lastst" cannot happen
    RowsSplit(b.symbols.interned, g.all, g.ncomp);
    ghost var done, todo := g.all[..g.ncomp], g.all[g.ncomp..];
    var w := RewriteBlock(b.symbols, hash, b.flushID, b.buf[b.lastst..b.lastcomp], b.buf[b.lastcomp..], |b.buf|, done, todo);
    if w.NoGain? {
      return false, false, b, g;
    }
    TruncateBack(b.symbols, w.st, |EncAll(todo)|);
    if w.off > align {
      r := b.(symbols := Truncate(w.st, MaxID(b.symbols.interned)));
      SameTable(b, r, g);
      return false, false, r, g;
    }
    ok, panicked := true, false;
    r := Recast(w, b.flushID);
    RewrittenIs(b, g, hash);
    h := CommitRewrite(b, g, w, r);
  }

  lemma RewrittenIs(b: Block, g: Shadow, hash: bytes -> nat)
    requires g.ncomp < |g.all| && Attempt(b, g, hash).Rewritten?
    ensures var w, todo := Attempt(b, g, hash), g.all[g.ncomp..];
      var head := HeadBytes(NewHead(w.st.interned, b.flushID));
      && w.lastst == |head| && w.buf == head + EncAll(g.all[..g.ncomp]) + EncAll(CompressedAll(w.st, todo))
      && w.off == |head| + |EncAll(g.all[..g.ncomp])| + |EncAll(CompressedAll(w.st, todo[..|todo| - 1]))|
  {
    hide EncAll, HeadBytes, NewHead, CompressedAll, ScanOf;
  }

  lemma CommitRewrite(b: Block, g: Shadow, w: Rewrite, r: Block) returns (h: Shadow)
    requires BlockOk(b, g) && w.Rewritten? && Fits(b.symbols.interned, |b.buf|) && g.ncomp <= |g.all|
    requires b.symbols.interned != [] && (b.flushID == 0 || SYSTEM_COUNT < b.flushID <= MaxID(w.st.interned))
    requires var todo := g.all[g.ncomp..];
      && todo != [] && Scanned(b.symbols, w.st, |EncAll(todo)|) && GrownTable(b.symbols.interned, w.st)
      && w.lastst == |HeadBytes(NewHead(w.st.interned, b.flushID))|
      && w.buf == HeadBytes(NewHead(w.st.interned, b.flushID)) + EncAll(g.all[..g.ncomp]) + EncAll(CompressedAll(w.st, todo))
      && w.off == w.lastst + |EncAll(g.all[..g.ncomp])| + |EncAll(CompressedAll(w.st, todo[..|todo| - 1]))|
    requires r == Block(w.buf, w.st, w.lastst, w.off, |w.buf|, MaxID(w.st.interned), b.flushID)
    ensures BlockOk(r, h) && Total(r, h) == Total(b, g)
    ensures b.symbols.interned <= r.symbols.interned && Fits(r.symbols.interned, 0)
    ensures h.items == g.items && h.all == g.all[..g.ncomp] + CompressedAll(w.st, g.all[g.ncomp..])
    ensures h.n == |h.all| - 1 && h.ncomp == |h.all| == |g.all|
    ensures |EncAll(h.all)| <= 5 * |b.buf|
  {
    hide Inv, EncAll, HeadBytes, TableSize, RowsOk, Layout, Ids, NewHead, CompressedAll, MeaningAll, RowsOf, ItemsOk, WFAll, ResolvesAll, Scanned, GrownTable, Distinct, Labelled;
    InvIsDistinct(b.symbols);
    LabelledSplit(g.all, g.ncomp);
    var tab, done, todo := b.symbols.interned, g.all[..g.ncomp], g.all[g.ncomp..];
    var head := NewHead(w.st.interned, b.flushID);
    CutCompressed(b, g);
    RowsSplit(tab, g.all, g.ncomp);
    var all := done + CompressedAll(w.st, todo);
    h := Shadow(g.items, head, all, |all| - 1, |all|);
    CompressedLayout(head, done, w.st, todo, r, h);
    EncAllAppend(done, CompressedAll(w.st, todo));
    ScannedFits(b.symbols, w.st, |EncAll(todo)|, |b.buf|);
    CompressedRowsMean(tab, w.st, done, todo);
    ScannedIsPrefix(b.symbols, w.st, |EncAll(todo)|);
    IdsGrow(tab, w.st.interned, b.flushID, b.tmpID, Held(g), g.head);
    NewHeadReads(w.st.interned, b.flushID, b.tmpID, Held(g), g.head);
  }

  lemma LabelledSplit(rows: seq<Ion>, k: nat)
    requires Labelled(rows) && k <= |rows|
    ensures Labelled(rows[..k]) && Labelled(rows[k..])
  {
    hide HasOwnLabel;
    forall i | 0 <= i < |rows[k..]| ensures HasOwnLabel(rows[k..][i]) {
      assert rows[k..][i] == rows[k + i];
    }
  }

  lemma LessFits(tab: Table, n: nat)
    requires Fits(tab, n)
    ensures Fits(tab, 0)
  {
  }

  // --------------------------------------------------------------- streams that can be read on

  /** Every row has a label of its own and is read under a table without duplicates. */
  predicate Portable(tab: Table, items: seq<Item>)
    decreases |items|
  {
    items == [] ||
    (&& (items[0].Row? ==> HasOwnLabel(items[0].v) && Distinct(tab))
     && Portable(TableAfterItem(tab, items[0]), items[1..]))
  }

  /** Every table is followed by a row or padding. */
  predicate Spaced(items: seq<Item>, after: bool) {
    if items == [] then !after
    else if EncItem(items[0]) == [] then Spaced(items[1..], after)
    else if items[0].Tab? then !after && Spaced(items[1..], true)
    else Spaced(items[1..], false)
  }

  lemma {:induction false} PortableAppend(tab: Table, a: seq<Item>, b: seq<Item>)
    requires Portable(tab, a) && Portable(TableAfter(tab, a), b)
    ensures Portable(tab, a + b)
    decreases |a|
  {
    hide TableAfterItem, HasOwnLabel, Distinct;
    if a == [] {
      assert a + b == b;
    } else {
      assert (a + b)[0] == a[0] && (a + b)[1..] == a[1..] + b;
      PortableAppend(TableAfterItem(tab, a[0]), a[1..], b);
    }
  }

  lemma {:induction false} SpacedAppend(a: seq<Item>, b: seq<Item>, after: bool)
    requires Spaced(a, after) && Spaced(b, false)
    ensures Spaced(a + b, after)
    decreases |a|
  {
    hide EncItem;
    if a == [] {
      assert a + b == b;
    } else {
      assert (a + b)[0] == a[0] && (a + b)[1..] == a[1..] + b;
      SpacedAppend(a[1..], b, if EncItem(a[0]) == [] then after else a[0].Tab?);
    }
  }

  lemma {:induction false} RowsPortable(tab: Table, rows: seq<Ion>)
    requires Labelled(rows) && (rows != [] ==> Distinct(tab)) && RowsOk(tab, rows)
    ensures Portable(tab, PlainRows(rows)) && Spaced(PlainRows(rows), false) && (rows != [] ==> Spaced(PlainRows(rows), true))
    decreases |rows|
  {
    hide HasOwnLabel, Distinct, EncItem, RowOk, Portable, Spaced;
    if rows == [] {
      NothingWritten(tab);
    } else {
      var k := |rows| - 1;
      RowsPortable(tab, rows[..k]);
      PlainRowsRead(tab, rows[..k]);
      OneRowWritten(tab, rows[k]);
      PortableAppend(tab, PlainRows(rows[..k]), [Row(rows[k])]);
      SpacedAppend(PlainRows(rows[..k]), [Row(rows[k])], false);
      if k > 0 {
        SpacedAppend(PlainRows(rows[..k]), [Row(rows[k])], true);
      } else {
        assert PlainRows(rows[..k]) + [Row(rows[k])] == [Row(rows[k])];
      }
    }
  }

  lemma NothingWritten(tab: Table)
    ensures Portable(tab, []) && Spaced([], false)
  {
  }

  lemma OneRowWritten(tab: Table, v: Ion)
    requires HasOwnLabel(v) && Distinct(tab) && RowOk(tab, v)
    ensures Portable(tab, [Row(v)]) && Spaced([Row(v)], false) && Spaced([Row(v)], true)
  {
    hide HasOwnLabel, Distinct, Enc;
    StructType(v, []);
    assert [Row(v)][1..] == [];
  }

  /** A block can be read on, unless it is a table and nothing else. */
  lemma BlockRelays(held: Table, h: Head, rows: seq<Ion>, pad: bytes)
    requires HeadFits(h) && Labelled(rows) && RowsOk(Learned(held, h), rows) && (rows != [] ==> Distinct(Learned(held, h)))
    ensures Portable(held, BlockItems(h, rows, pad))
    ensures |HeadBytes(h)| == 0 || rows != [] || pad != [] ==> Spaced(BlockItems(h, rows, pad), false)
  {
    hide HasOwnLabel, Distinct, RowOk, Portable, Spaced, HeadBytes, Learned, PlainRows, Labelled, HeadFits;
    var now, body := Learned(held, h), PlainRows(rows);
    RowsPortable(now, rows);
    PlainRowsRead(now, rows);
    TableAlone(held, h, body + [Pad(pad)]);
    PadAlone(now, pad);
    PortableAppend(now, body, [Pad(pad)]);
    SpacedAppend(body, [Pad(pad)], false);
    if rows != [] {
      SpacedAppend(body, [Pad(pad)], true);
    } else {
      assert body == [];
      assert body + [Pad(pad)] == [Pad(pad)];
    }
    assert BlockItems(h, rows, pad) == [Tab(h)] + (body + [Pad(pad)]);
  }

  lemma TableAlone(tab: Table, h: Head, more: seq<Item>)
    ensures Portable(Learned(tab, h), more) ==> Portable(tab, [Tab(h)] + more)
    ensures |HeadBytes(h)| == 0 && Spaced(more, false) ==> Spaced([Tab(h)] + more, false)
    ensures Spaced(more, true) ==> Spaced(more, false) && Spaced([Tab(h)] + more, false)
  {
    hide HasOwnLabel, Distinct, HeadBytes;
    assert ([Tab(h)] + more)[0] == Tab(h) && ([Tab(h)] + more)[1..] == more;
    if Spaced(more, true) { SpacedAnyway(more); }
  }

  lemma {:induction false} SpacedAnyway(items: seq<Item>)
    requires Spaced(items, true)
    ensures Spaced(items, false)
  {
    hide EncItem;
    if EncItem(items[0]) == [] { SpacedAnyway(items[1..]); }
  }

  lemma PadAlone(tab: Table, raw: bytes)
    ensures Portable(tab, [Pad(raw)]) && Spaced([Pad(raw)], false) && (raw != [] ==> Spaced([Pad(raw)], true))
  {
    assert [Pad(raw)][1..] == [];
  }

  // ------------------------------------------------------------------- writing a block

  /** `pad`: cur and nop pads, exactly size bytes. */
  method PadTo(cur: bytes, size: nat) returns (block: bytes)
    requires |cur| <= size < UV_LIMIT
    ensures |block| == size && block[..|cur|] == cur && IsPads(block[|cur|..])
  {
    hide IsPads;
    var ret := new byte[size];
    forall i | 0 <= i < |cur| {
      ret[i] := cur[i];
    }
    assert ret[..|cur|] == cur;
    Noppad(ret, |cur|);
    block := ret[..];
    assert block[..|cur|] == ret[..|cur|] && block[|cur|..] == ret[|cur|..];
  }

  /** The rows before lastoff, or all of them, leave as one padded block; the rest stays behind
      without a table. */
  method WriteBlock(b: Block, align: nat, ghost g: Shadow, cut: bool)
    returns (block: bytes, r: Block, ghost h: Shadow, ghost padding: bytes)
    requires BlockOk(b, g) && align < UV_LIMIT
    requires Covered(b.symbols.interned, b.tmpID, if cut then g.all[..g.n] else g.all)
    requires (if cut then b.lastoff else |b.buf|) <= align
    ensures BlockOk(r, h) && Total(r, h) == Total(b, g)
    ensures |block| == align && EncItems(h.items) == EncItems(g.items) + block
    ensures h.items == g.items + BlockItems(g.head, if cut then g.all[..g.n] else g.all, padding)
    ensures |padding| == align - if cut then b.lastoff else |b.buf|
    ensures r.symbols == b.symbols && r.tmpID == r.flushID == b.tmpID && h.head.NoTable?
    ensures h.all == (if cut then g.all[g.n..] else []) && h.n == |h.all| && h.ncomp == 0
    ensures r.buf == EncAll(h.all) && r.lastoff == |r.buf|
    ensures cut ==> |r.buf| == |b.buf| - b.lastoff
    ensures |EncAll(h.all)| <= |EncAll(g.all)|
  {
    hide Inv, EncAll, HeadBytes, Layout, RowsOk, Ids, ItemsOk, MeaningAll, RowsOf, EncItems, IsPads, TableAfter, Labelled;
    CutCommitted(b, g);
    WholeBuffer(b, g);
    var cur := if cut then b.buf[..b.lastoff] else b.buf;
    var tail := if cut then b.buf[b.lastoff..] else [];
    block := PadTo(cur, align);
    r := Block(tail, b.symbols, 0, |tail|, 0, b.tmpID, b.tmpID);
    h := BlockWritten(b, g, r, block, if cut then g.n else |g.all|);
    padding := block[|cur|..];
  }

  lemma WholeBuffer(b: Block, g: Shadow)
    requires Layout(b, g)
    ensures b.buf == HeadBytes(g.head) + EncAll(g.all) && |EncAll(g.all[g.n..])| <= |EncAll(g.all)|
    ensures g.all[..|g.all|] == g.all && g.all[|g.all|..] == [] && EncAll([]) == []
  {
    hide EncAll, HeadBytes;
    EmptyRowsEncode();
    CutAt([], g.all, g.n);
  }

  lemma BlockWritten(b: Block, g: Shadow, r: Block, block: bytes, k: nat) returns (h: Shadow)
    requires BlockOk(b, g) && k <= |g.all| && Covered(b.symbols.interned, b.tmpID, g.all[..k])
    requires r == Block(EncAll(g.all[k..]), b.symbols, 0, |EncAll(g.all[k..])|, 0, b.tmpID, b.tmpID)
    requires var cur := HeadBytes(g.head) + EncAll(g.all[..k]);
      |cur| <= |block| && block[..|cur|] == cur && IsPads(block[|cur|..])
    ensures BlockOk(r, h) && Total(r, h) == Total(b, g)
    ensures EncItems(h.items) == EncItems(g.items) + block
    ensures h.head.NoTable? && h.all == g.all[k..] && h.n == |h.all| && h.ncomp == 0
    ensures h.items == g.items + BlockItems(g.head, g.all[..k], block[|HeadBytes(g.head) + EncAll(g.all[..k])|..])
  {
    hide Inv, EncAll, HeadBytes, Layout, RowsOk, Ids, ItemsOk, MeaningAll, RowsOf, EncItems, IsPads, TableAfter, Labelled, Learned, BlockItems, Covered;
    var tab := b.symbols.interned;
    var cur := HeadBytes(g.head) + EncAll(g.all[..k]);
    var padding := block[|cur|..];
    assert block == cur + padding;
    var rows := g.all[..k];
    TableReaches(tab, b.flushID, b.tmpID, Held(g), g.head, rows);
    BlockReads(Held(g), g.head, rows, padding);
    ItemsAppend([], g.items, BlockItems(g.head, rows, padding));
    h := Shadow(g.items + BlockItems(g.head, rows, padding), NoTable, g.all[k..], |g.all[k..]|, 0);
    RowsSplit(tab, g.all, k);
    LabelledSplit(g.all, k);
    BareLayout(r, h);
    TotalMoves(RowsOf([], g.items), MeaningAll(tab, rows), MeaningAll(tab, g.all[k..]));
  }

  lemma TotalMoves(a: seq<Value>, b: seq<Value>, c: seq<Value>)
    ensures a + (b + c) == (a + b) + c
  {
  }

  /** The table in front is enough to read the rows it covers. */
  lemma TableReaches(tab: Table, flushID: nat, tmpID: nat, held: Table, head: Head, rows: seq<Ion>)
    requires Ids(tab, flushID, tmpID, held, head) && Covered(tab, tmpID, rows)
    ensures HeadFits(head) && RowsOk(Learned(held, head), rows)
    ensures MeaningAll(Learned(held, head), rows) == MeaningAll(tab, rows)
    ensures Ids(tab, tmpID, tmpID, Learned(held, head), NoTable)
  {
    hide HeadFits, RowsOk, MeaningAll;
    if rows == [] {
      NoRows(Learned(held, head), tab);
    } else {
      RowsOkGrow(tab[..tmpID - SYSTEM_COUNT], tab, rows);
    }
    NoTableFits();
  }

  lemma NoTableFits()
    ensures HeadFits(NoTable)
  {
  }

  lemma NoRows(a: Table, b: Table)
    ensures RowsOk(a, []) && MeaningAll(a, []) == MeaningAll(b, [])
  {
  }

  lemma BareLayout(r: Block, h: Shadow)
    requires h.head.NoTable? && r.buf == EncAll(h.all) && h.n == |h.all| && h.ncomp == 0
    requires r.lastst == 0 && r.lastoff == |r.buf| && r.lastcomp == 0
    ensures Layout(r, h)
  {
    hide EncAll;
    EmptyRowsEncode();
    assert h.all[..h.n] == h.all && h.all[..0] == [];
    assert [] + EncAll(h.all) == EncAll(h.all);
  }

  /** Behind a block without a table, readers may be made to start over. */
  lemma StartOver(b: Block, g: Shadow)
    requires BlockOk(b, g) && g.head.NoTable?
    ensures BlockOk(b.(tmpID := 0, flushID := 0), g) && Total(b.(tmpID := 0, flushID := 0), g) == Total(b, g)
  {
    hide Inv, EncAll, HeadBytes, RowsOk, ItemsOk, Labelled, TableAfter;
  }

  /** A single row carried over to a table of its own. */
  lemma CarriedOver(b: Block, g: Shadow, r: Block, now: Ion) returns (h: Shadow)
    requires BlockOk(b, g) && g.head.NoTable? && |g.all| == 1
    requires Recoded(b.symbols.interned, r.symbols.interned, g.all[0], now) && HasOwnLabel(now) && Inv(r.symbols)
    requires r == Block(Enc(now), r.symbols, 0, |Enc(now)|, 0, 0, 0)
    ensures BlockOk(r, h) && Total(r, h) == Total(b, g)
    ensures h == Shadow(g.items, NoTable, [now], 1, 0)
  {
    hide Inv, EncAll, HeadBytes, ItemsOk, HasOwnLabel, TableAfter, WF, Resolves, Enc, Layout, Meaning, RowsOf, MeaningAll;
    h := Shadow(g.items, NoTable, [now], 1, 0);
    OneRow(b.symbols.interned, g.all[0]);
    OneRow(r.symbols.interned, now);
    assert g.all == [g.all[0]];
    NoTableFits();
    BareLayout(r, h);
    LabelledIsStruct(now);
  }

  lemma LabelledIsStruct(v: Ion)
    requires HasOwnLabel(v)
    ensures v.Struct?
  {
  }

  lemma OneRow(tab: Table, v: Ion)
    ensures EncAll([v]) == Enc(v) && MeaningAll(tab, [v]) == [Meaning(tab, v)]
  {
    hide Enc, Meaning;
    assert [v][..0] == [];
  }

  // -------------------------------------------------------------------- what follows

  lemma NoRowsLeft(b: Block, g: Shadow)
    requires BlockOk(b, g) && |b.buf| == b.lastst
    ensures g.all == [] && g.n == 0 && g.ncomp == 0
  {
    hide Inv, EncAll, HeadBytes, RowsOk, Ids, ItemsOk, Labelled;
    if g.all != [] {
      RowsSplit(b.symbols.interned, g.all, 0);
      assert g.all[0..] == g.all;
      EncAllNonEmpty(g.all);
    }
  }

  lemma RowsTakeRoom(b: Block, g: Shadow)
    requires BlockOk(b, g)
    ensures |b.buf| == b.lastst <==> g.all == []
  {
    hide Inv, EncAll, HeadBytes, RowsOk, Ids, ItemsOk, Labelled;
    EmptyRowsEncode();
    if |b.buf| == b.lastst { NoRowsLeft(b, g); }
  }

  /** With the whole table in front, every row can be written. */
  lemma CoveredWhole(b: Block, g: Shadow)
    requires BlockOk(b, g) && b.tmpID >= MaxID(b.symbols.interned)
    ensures Covered(b.symbols.interned, b.tmpID, g.all)
    ensures forall k :: 0 <= k <= |g.all| ==> Covered(b.symbols.interned, b.tmpID, g.all[..k])
  {
    hide Inv, EncAll, HeadBytes, RowOk, Layout, ItemsOk, Labelled;
    var tab := b.symbols.interned;
    assert tab[..|tab|] == tab;
  }

  lemma RowsNeedTable(b: Block, g: Shadow)
    requires BlockOk(b, g) && g.all != []
    ensures b.symbols.interned != []
  {
    hide Inv, EncAll, HeadBytes, Layout, Ids, ItemsOk, WF;
    var v := g.all[0];
    assert RowOk(b.symbols.interned, v) && HasOwnLabel(v);
    var i :| 0 <= i < |v.fields| && v.fields[i].sym >= SYSTEM_COUNT;
    assert ResolvesFields(b.symbols.interned, v.fields);
    assert ResolvesField(b.symbols.interned, v.fields[i]);
  }

  lemma FitsRoom(tab: Table, n: nat)
    requires Fits(tab, 5 * n)
    ensures Fits(tab, n) && Fits(tab, 0) && HasRoom([], 5 * n) && HasRoom([], n)
  {
    hide TableSize;
  }

  lemma TableFits(tab: Table, n: nat)
    requires Fits(tab, n)
    ensures TableSize(tab) + 64 < UV_LIMIT
  {
    hide TableSize;
  }

  lemma RoomShrinks(n: nat, m: nat)
    requires HasRoom([], m) && n <= m
    ensures HasRoom([], n)
  {
  }

  lemma AllCommitted(b: Block, g: Shadow)
    requires BlockOk(b, g) && b.tmpID == MaxID(b.symbols.interned)
    ensures var r, h := b.(lastoff := |b.buf|), g.(n := |g.all|);
      BlockOk(r, h) && Total(r, h) == Total(b, g) && Covered(r.symbols.interned, r.tmpID, h.all[..h.n])
  {
    hide Inv, EncAll, HeadBytes, RowsOk, Ids, ItemsOk, Labelled, Covered;
    CoveredWhole(b, g);
    assert g.all[..|g.all|] == g.all;
  }

  /** After compression the last row starts at lastoff. */
  lemma LastRow(b: Block, h: Shadow, done: seq<Ion>, todo: seq<Ion>)
    requires Layout(b, h) && todo != [] && h.all == done + CompressedAll(b.symbols, todo) && h.n == |h.all| - 1
    requires |CompressedAll(b.symbols, todo)| == |todo|
    ensures |b.buf| - b.lastoff == |Enc(Compressed(b.symbols, todo[|todo| - 1]))|
  {
    hide EncAll, HeadBytes, Compressed, Enc, CompressedAll;
    CutCommitted(b, h);
    var k := |todo| - 1;
    CompressedAllStep(b.symbols, todo, k);
    assert todo[..k + 1] == todo;
    assert h.all[h.n..] == [Compressed(b.symbols, todo[k])];
    OneRow([], Compressed(b.symbols, todo[k]));
  }

  lemma LayoutOf(b: Block, g: Shadow)
    requires BlockOk(b, g)
    ensures Layout(b, g) && g.n <= |g.all| && b.lastoff <= |b.buf| && b.tmpID <= MaxID(b.symbols.interned)
    ensures g.n == |g.all| ==> b.lastoff == |b.buf|
    ensures |EncAll(g.all)| <= |b.buf|
  {
    hide Inv, EncAll, HeadBytes, RowsOk, ItemsOk, Labelled;
    CutCommitted(b, g);
    WholeBuffer(b, g);
  }

  /** An empty buffer has no table in front of it. */
  lemma NothingCommitted(b: Block, g: Shadow)
    requires BlockOk(b, g) && b.lastoff == 0 && g.n == |g.all|
    ensures g.all == [] && g.head.NoTable?
  {
    hide Inv, EncAll, HeadBytes, RowsOk, ItemsOk, Labelled;
    CutCommitted(b, g);
    WholeBuffer(b, g);
    NoRowsLeft(b, g);
    EmptyHead(g.head);
  }

  lemma RowsOrTable(b: Block, g: Shadow)
    requires BlockOk(b, g) && b.lastoff != 0
    ensures b.symbols.interned != []
  {
    hide Inv, EncAll, HeadBytes, RowsOk, ItemsOk, Labelled;
    if g.all == [] {
      assert g.all[..g.n] == [];
      EmptyRowsEncode();
      EmptyHead(g.head);
    } else {
      RowsNeedTable(b, g);
    }
  }

  /** A row written behind the others under a table that may have grown. */
  lemma RowAppended(b: Block, g: Shadow, st: Symtab, v: Ion)
    requires BlockOk(b, g) && Inv(st) && b.symbols.interned <= st.interned
    requires RowOk(st.interned, v) && HasOwnLabel(v)
    ensures var r, h := b.(buf := b.buf + Enc(v), symbols := st), g.(all := g.all + [v]);
      && BlockOk(r, h) && Total(r, h) == Total(b, g) + [Meaning(st.interned, v)]
      && h.all[..h.n] == g.all[..g.n]
  {
    hide Inv, EncAll, HeadBytes, RowOk, Ids, ItemsOk, HasOwnLabel, MeaningAll, Meaning, Enc, RowsOf, TableAfter;
    var tab, h := st.interned, g.(all := g.all + [v]);
    assert h.all[..g.n] == g.all[..g.n] && h.all[..g.ncomp] == g.all[..g.ncomp];
    EncAllSnoc(g.all, v);
    Assoc3(HeadBytes(g.head), EncAll(g.all), Enc(v));
    RowsOkGrow(b.symbols.interned, tab, g.all);
    MeaningAllSnoc(tab, g.all, v);
    TotalMoves(RowsOf([], g.items), MeaningAll(tab, g.all), [Meaning(tab, v)]);
    IdsGrow(b.symbols.interned, tab, b.flushID, b.tmpID, Held(g), g.head);
  }

  lemma CoveredGrow(tab: Table, more: Table, tmpID: nat, rows: seq<Ion>)
    requires Covered(tab, tmpID, rows) && tab <= more
    ensures Covered(more, tmpID, rows)
  {
    hide RowsOk;
    if rows != [] {
      assert more[..tmpID - SYSTEM_COUNT] == tab[..tmpID - SYSTEM_COUNT];
    }
  }

  /** The order of the offsets and of the symbol counts. */
  lemma BookkeepingOrder(b: Block, g: Shadow)
    requires BlockOk(b, g) && g.ncomp <= g.n
    ensures b.flushID <= b.tmpID <= MaxID(b.symbols.interned)
    ensures b.lastst <= b.lastcomp <= b.lastoff <= |b.buf|
  {
    hide Inv, EncAll, HeadBytes, RowsOk, ItemsOk, Labelled;
    CutCommitted(b, g);
    assert g.all[..g.n][..g.ncomp] == g.all[..g.ncomp];
    CutAt([], g.all[..g.n], g.ncomp);
  }

  lemma UncommittedRow(b: Block, g: Shadow)
    requires BlockOk(b, g) && |g.all| == g.n + 1
    ensures |b.buf| - b.lastoff == |Enc(g.all[g.n])|
  {
    hide Inv, EncAll, HeadBytes, RowsOk, ItemsOk, Labelled, Enc, Ids;
    CutCommitted(b, g);
    assert g.all[g.n..] == [g.all[g.n]];
    OneRow([], g.all[g.n]);
  }

  /** A block that consists of its table. */
  predicate AllTable(b: Block, align: nat) {
    0 < b.lastst == b.lastoff == align
  }

  /** What was readable on stays so when the rows of a block are written. */
  lemma WrittenRelays(b: Block, g: Shadow, align: nat, k: nat, items: seq<Item>, padding: bytes)
    requires BlockOk(b, g) && k <= |g.all| && Covered(b.symbols.interned, b.tmpID, g.all[..k])
    requires items == g.items + BlockItems(g.head, g.all[..k], padding) && Portable([], g.items)
    ensures Portable([], items)
    ensures Spaced(g.items, false) && (k > 0 || b.lastst == 0 || padding != []) ==> Spaced(items, false)
  {
    hide Inv, EncAll, HeadBytes, RowsOk, ItemsOk, Portable, Spaced, Labelled, BlockItems, HeadFits, Learned, Covered;
    var tab, rows := b.symbols.interned, g.all[..k];
    LabelledSplit(g.all, k);
    TableReaches(tab, b.flushID, b.tmpID, Held(g), g.head, rows);
    InvIsDistinct(b.symbols);
    LearnedIsDistinct(tab, b.flushID, b.tmpID, Held(g), g.head, rows);
    BlockRelays(Held(g), g.head, rows, padding);
    PortableAppend([], g.items, BlockItems(g.head, rows, padding));
    if Spaced(g.items, false) && (k > 0 || b.lastst == 0 || padding != []) {
      SpacedAppend(g.items, BlockItems(g.head, rows, padding), false);
    }
  }

  lemma LearnedIsDistinct(tab: Table, flushID: nat, tmpID: nat, held: Table, head: Head, rows: seq<Ion>)
    requires Ids(tab, flushID, tmpID, held, head) && Covered(tab, tmpID, rows) && Distinct(tab)
    ensures rows != [] ==> Distinct(Learned(held, head))
  {
    hide RowsOk, HeadFits;
    if rows != [] {
      PrefixIsDistinct(tab[..tmpID - SYSTEM_COUNT], tab);
    }
  }
}
