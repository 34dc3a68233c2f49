/** Inputs at which the bookkeeping of a Chunker gives way. */
module IonLimits {
  import opened IonCodec
  import opened IonTree
  import opened IonValue
  import opened IonSymtab
  import opened IonMarshal
  import opened IonResym
  import opened IonResymbolize
  import opened IonCompress
  import opened IonStrtab
  import opened IonGrowth
  import opened IonSavings
  import opened IonStream
  import opened IonBlock
  import opened IonChunker
  import opened IonWrite

  const LABEL: bytes := [97]
  const FOO: bytes := [102, 111, 111]
  const TABLE: Table := [[], LABEL, FOO]

  /** A table with the symbols "", "a" and "foo". */
  function Symbols(): Symtab {
    Intern(Intern(Intern(EMPTY, []).0, LABEL).0, FOO).0
  }

  lemma SymbolIsThere(s: Symtab, x: bytes)
    requires Inv(s)
    ensures Symbolize(s, x).Some? ==> x in s.interned || x in SYSTEM
  {
    hide Inv, Symbolize;
    SymbolizeSpec(s, x);
    if Symbolize(s, x).Some? {
      var id := Symbolize(s, x).value;
      if id >= SYSTEM_COUNT {
        assert s.interned[id - SYSTEM_COUNT] == x;
      } else {
        assert SYSTEM[id] == x;
      }
    }
  }

  lemma NotThere(s: Symtab, x: bytes)
    requires Inv(s) && x !in s.interned && x !in SYSTEM
    ensures var t := Intern(s, x).0; Inv(t) && t.interned == s.interned + [x] && t.memsize == s.memsize + |x|
  {
    hide Inv;
    InternSpec(s, x);
    SymbolIsThere(s, x);
  }

  lemma SymbolsAre()
    ensures Inv(Symbols()) && Symbols().interned == TABLE && Symbols().memsize == 4
    ensures Symbolize(Symbols(), []) == Some(10) && Symbolize(Symbols(), FOO) == Some(12)
  {
    hide Inv, Intern, Symbolize;
    EmptyTable();
    NotThere(EMPTY, []);
    var a := Intern(EMPTY, []).0;
    NotThere(a, LABEL);
    var b := Intern(a, LABEL).0;
    NotThere(b, FOO);
    var c := Intern(b, FOO).0;
    assert c.interned == TABLE;
    assert Get(TABLE, 10) == [] && Get(TABLE, 12) == FOO;
    SymbolizeSpec(c, []);
    SymbolizeSpec(c, FOO);
  }

  // ----------------------------------------------------------------------- rows and their sizes

  /** {a: ["", ..., "", "foo"]} */
  function Long(n: nat): Ion {
    Struct([Field(11, List(Empties(n)))])
  }

  function Empties(n: nat): seq<Ion> {
    seq(n, _ => Str([])) + [Str(FOO)]
  }

  lemma OneField(f: Field)
    ensures EncFields([f]) == Uv(f.sym) + Enc(f.val) && Enc(Struct([f])) == Tlv(STRUCT_TYPE, EncFields([f]))
  {
    hide Enc, Uv;
    EncStruct([f]);
    assert [f][1..] == [] && EncFields([]) == [];
  }

  lemma EmptiesSize(n: nat, st: Symtab)
    requires Symbolize(st, []) == Some(10) && Symbolize(st, FOO) == Some(12)
    ensures |EncAll(Empties(n))| == n + 4 && |EncAll(CompressedAll(st, Empties(n)))| == 2 * n + 2
  {
    hide Symbolize, Enc, EncAll;
    var es := seq(n, _ => Str([]));
    EmptyStringsDouble(st, n);
    assert Empties(n)[..n] == es && Empties(n)[n] == Str(FOO);
    EncAllSnoc(es, Str(FOO));
    EncAllSnoc(CompressedAll(st, es), Sym(12));
    FooSizes();
  }

  lemma FooSizes()
    ensures |Enc(Str(FOO))| == 4 && |Enc(Sym(12))| == 2
  {
    assert Mag(12) == Mag(0) + [12];
  }

  /** Compressed, such a row is longer. */
  lemma LongGrows(n: nat, st: Symtab)
    requires n >= 3 && Symbolize(st, []) == Some(10) && Symbolize(st, FOO) == Some(12)
    ensures n + 4 < |Enc(Long(n))| < |Enc(Compressed(st, Long(n)))|
  {
    hide Symbolize, EncAll, Tlv, Uv, Empties, CompressedAll;
    var a, b := Empties(n), CompressedAll(st, Empties(n));
    EmptiesSize(n, st);
    var f, h := Field(11, List(a)), Field(11, List(b));
    CompressedOne(st, f);
    OneField(f);
    OneField(h);
    TlvLength(LIST_TYPE, LIST_TYPE, EncAll(b), EncAll(a));
    assert Enc(List(a)) == Tlv(LIST_TYPE, EncAll(a)) && Enc(List(b)) == Tlv(LIST_TYPE, EncAll(b));
    TlvLength(STRUCT_TYPE, STRUCT_TYPE, EncFields([h]), EncFields([f]));
  }

  lemma CompressedOne(st: Symtab, f: Field)
    ensures Compressed(st, Struct([f])) == Struct([CompressedField(st, f)])
  {
    hide Symbolize;
    assert [f][..0] == [];
  }

  lemma EmptiesAreOk(n: nat)
    ensures WFAll(Empties(n)) && ResolvesAll(TABLE, Empties(n))
  {
    hide EncAll, Tlv, Uv;
  }

  lemma LongLength(n: nat)
    requires n <= 1000
    ensures |EncAll(Empties(n))| < UV_LIMIT && |EncFields(Long(n).fields)| < UV_LIMIT && |Enc(Long(n))| <= n + 40
  {
    hide EncAll, Tlv, Uv, Symbolize, Empties;
    var a := Empties(n);
    SymbolsAre();
    EmptiesSize(n, Symbols());
    var f := Field(11, List(a));
    OneField(f);
    HeaderIsShort(LIST_TYPE, EncAll(a));
    UvAtMost8(11);
    assert Enc(List(a)) == Tlv(LIST_TYPE, EncAll(a));
    HeaderIsShort(STRUCT_TYPE, EncFields([f]));
  }

  lemma LongIsOk(n: nat)
    requires n <= 1000
    ensures RowOk(TABLE, Long(n)) && HasOwnLabel(Long(n)) && |Enc(Long(n))| <= n + 40
  {
    hide EncAll, EncFields, Enc, Empties, WFAll, ResolvesAll;
    LongLength(n);
    EmptiesAreOk(n);
    var f := Field(11, List(Empties(n)));
    assert WFField(f) && ResolvesField(TABLE, f);
    assert WFFields([f]) && ResolvesFields(TABLE, [f]) && Long(n).fields == [f];
    assert WF(Long(n)) && Resolves(TABLE, Long(n));
    assert Long(n).fields[0].sym >= SYSTEM_COUNT;
  }

  lemma ShortIsOk()
    ensures RowOk(TABLE, NullRow(11)) && HasOwnLabel(NullRow(11)) && |Enc(NullRow(11))| <= 20
  {
    NullRowIs(TABLE, 11);
    var f := Field(11, Atom([0x0f]));
    hide Tlv, Uv;
    OneField(f);
    UvAtMost8(11);
    HeaderIsShort(STRUCT_TYPE, EncFields([f]));
  }

  lemma TableLength()
    ensures HeadFits(Fresh(TABLE)) && TableSize(TABLE) == 7 && |HeadBytes(Fresh(TABLE))| <= 51
  {
    hide HeadBytes;
    var a, b: bytes := [], LABEL;
    TableSizeSnoc([], a);
    TableSizeSnoc([a], b);
    TableSizeSnoc([a, b], FOO);
    assert [] + [a] == [a] && [a] + [b] == [a, b] && [a, b] + [FOO] == TABLE;
    assert TableSize([]) == 0;
    FooSizes();
    HeadLength(Fresh(TABLE));
  }

  lemma {:induction false} EmptiesStrings(n: nat)
    ensures StringsAll(seq(n, _ => Str([]))) == seq(n, _ => [])
  {
    hide Strings;
    var es := seq(n, _ => Str([]));
    if n > 0 {
      EmptiesStrings(n - 1);
      assert es[..n - 1] == seq(n - 1, _ => Str([])) && es[n - 1] == Str([]);
      TextString([]);
    }
  }

  lemma TextString(x: bytes)
    ensures Strings(Str(x)) == [x]
  {
  }

  lemma LongStrings(n: nat)
    ensures Strings(Long(n)) == seq(n, _ => []) + [FOO]
  {
    hide StringsAll;
    var a, f := Empties(n), Field(11, List(Empties(n)));
    assert [f][..0] == [];
    assert StringsFields([f]) == [] + StringsField(f);
    assert Strings(Long(n)) == StringsAll(a);
    LastString(seq(n, _ => Str([])), Str(FOO));
    EmptiesStrings(n);
    TextString(FOO);
  }

  lemma LastString(items: seq<Ion>, v: Ion)
    ensures StringsAll(items + [v]) == StringsAll(items) + Strings(v)
  {
    hide Strings;
    assert (items + [v])[..|items|] == items;
  }

  /** All strings of a short and a long row are known, and one is a symbol. */
  lemma RowsKnown(n: nat, hash: bytes -> nat)
    ensures var (s, st) := ScanOf(hash, Symbols(), [NullRow(11), Long(n)]); st == Symbols() && s.prepop > 0
  {
    hide Strings, Symbols, ScanOf, Symbolize, StringsAll;
    var rows := [NullRow(11), Long(n)];
    LastString([NullRow(11)], Long(n));
    LastString([], NullRow(11));
    assert [] + [NullRow(11)] == [NullRow(11)] && [NullRow(11)] + [Long(n)] == rows;
    NoStringsIn();
    LongStrings(n);
    SymbolsAre();
    assert StringsAll(rows) == seq(n, _ => []) + [FOO];
    forall t | t in StringsAll(rows) ensures Known(Symbols(), t) {
      assert t == [] || t == FOO;
    }
    assert StringsAll(rows)[n] == FOO;
    ScanKnown(hash, Symbols(), rows, n);
  }

  lemma NoStringsIn()
    ensures Strings(NullRow(11)) == [] && StringsAll([]) == []
  {
    var f := Field(11, Atom([0x0f]));
    assert [f][..0] == [];
    assert StringsFields([f]) == [] + StringsField(f);
  }

  // --------------------------------------------------------------- a row that outgrows its block

  /** The block holds its table and a short row, and the long one is just as long as a block. */
  predicate Tight(b: Block, g: Shadow, align: nat, n: nat) {
    && BlockOk(b, g) && g == Shadow([], Fresh(TABLE), [NullRow(11), Long(n)], 1, 0)
    && b.symbols == Symbols() && b.flushID == 0 && b.tmpID == MaxID(TABLE)
    && 100 <= n <= 1000 && align == |Enc(Long(n))|
  }

  lemma TightIs(b: Block, g: Shadow, align: nat, n: nat)
    requires Tight(b, g, align, n)
    ensures b.buf == HeadBytes(Fresh(TABLE)) + EncAll(g.all) && |EncAll(g.all)| == |Enc(NullRow(11))| + align
    ensures b.lastoff == |HeadBytes(Fresh(TABLE))| + |Enc(NullRow(11))| && 0 < b.lastoff < align && |b.buf| - b.lastoff == align
    ensures |b.buf| <= n + 140
  {
    hide Inv, Enc, EncAll, HeadBytes, Ids, RowsOk, ItemsOk, Labelled, Symbols;
    var x, y := NullRow(11), Long(n);
    OneRow([], x);
    assert g.all[..1] == [x] && g.all == [x] + [y];
    EncAllSnoc([x], y);
    TableLength();
    ShortIsOk();
    LongIsOk(n);
    SymbolsAre();
    LongGrows(n, Symbols());
    RowHasBytes(TABLE, x);
  }

  /** Committing the long row compresses it to more than a block, and leaves it there. */
  lemma TightOutgrows(b: Block, g: Shadow, align: nat, n: nat, hash: bytes -> nat, rangeAlign: nat)
    requires Tight(b, g, align, n) && rangeAlign > align
    ensures Outgrows(b, g, align, hash, 0, rangeAlign) && !JoinsBlock(b, g, align)
  {
    hide Inv, Enc, EncAll, HeadBytes, Ids, RowsOk, ItemsOk, Labelled, Layout, Symbols, ScanOf, CompressedAll, Compressed;
    var x, y, st := NullRow(11), Long(n), Symbols();
    TightIs(b, g, align, n);
    RowsKnown(n, hash);
    SymbolsAre();
    assert g.all[..0] == [] && g.all[0..] == g.all && g.all[..1] == [x];
    RewrittenIs(b, g, hash);
    var w := Attempt(b, g, hash);
    EmptyRowsEncode();
    CompressedTwo(st, x, y);
    CompressedNull(st);
    LongGrows(n, st);
    assert w.st == st && NewHead(TABLE, 0) == Fresh(TABLE);
    TooLongToJoin(b, g, align);
  }

  lemma CompressedTwo(st: Symtab, x: Ion, y: Ion)
    ensures |EncAll(CompressedAll(st, [x]))| == |Enc(Compressed(st, x))|
    ensures |EncAll(CompressedAll(st, [x, y]))| == |Enc(Compressed(st, x))| + |Enc(Compressed(st, y))|
  {
    hide Enc, EncAll, Compressed;
    var a, b := Compressed(st, x), Compressed(st, y);
    assert [x][..0] == [] && [x, y][..1] == [x];
    assert CompressedAll(st, [x]) == [] + [a] == [a];
    assert CompressedAll(st, [x, y]) == [a] + [b];
    OneRow([], a);
    EncAllSnoc([a], b);
  }

  lemma CompressedNull(st: Symtab)
    ensures Compressed(st, NullRow(11)) == NullRow(11)
  {
    CompressedOne(st, Field(11, Atom([0x0f])));
  }

  lemma RoomForAll(size: nat)
    requires size <= 10000
    ensures Fits(TABLE, 5 * size) && HasRoom([], 5 * size)
  {
    hide TableSize;
    TableLength();
  }

  lemma FirstJoins(b: Block, g: Shadow, align: nat)
    requires BlockOk(b, g) && g == Shadow([], NoTable, [NullRow(11)], 0, 0) && b.symbols == Symbols() && b.flushID == 0 && align >= 100
    ensures JoinsBlock(b, g, align) && |b.buf| <= 20
  {
    hide Inv, Enc, EncAll, Ids, RowsOk, ItemsOk, Labelled, Symbols, HeadBytes;
    OneRow([], NullRow(11));
    ShortIsOk();
    TableLength();
    SymbolsAre();
    NoHeadBytes();
    assert NewHead(TABLE, 0) == Fresh(TABLE);
  }

  lemma NoHeadBytes()
    ensures HeadBytes(NoTable) == []
  {
  }

  /** A new chunker, and a short row in it. */
  method AddFirst(n: nat, h: bytes -> nat) returns (c: Chunker, res: Outcome)
    requires 100 <= n <= 1000
    ensures fresh(c) && fresh(c.ranges) && res.Ok? && c.Valid() && c.align == |Enc(Long(n))| && c.rangeAlign == 2 * c.align
    ensures !c.noCompress && c.written == 0
    ensures c.g == Shadow([], Fresh(TABLE), [NullRow(11)], 1, 0) && c.b.symbols == Symbols() && c.b.flushID == 0
    ensures c.b.tmpID == MaxID(TABLE)
  {
    hide Enc, Symbols, BlockOk, Total, Wire, IonRanges.Tracks, AllReported, FlatTimes, Covered, Inv, Fits, HasOwnLabel, RowOk, Meaning, Outgrows, JoinsBlock, Roomy, Compressed, Attempt, NoRoom, NullRow, Long;
    ShortIsOk();
    LongIsOk(n);
    SymbolsAre();
    LongGrows(n, Symbols());
    c := new Chunker(|Enc(Long(n))|, 2 * |Enc(Long(n))|, h);
    assert EMPTY.interned == [];
    c.Append(Enc(NullRow(11)), Symbols(), NullRow(11));
    assert [] + [NullRow(11)] == [NullRow(11)];
    FirstJoins(c.b, c.g, c.align);
    RoomForAll(|c.b.buf|);
    NewTable();
    res := c.Commit();
  }

  lemma NewTable()
    ensures NewHead(TABLE, 0) == Fresh(TABLE)
  {
  }

  /** The long row is committed, and outgrows the block. */
  method AddSecond(c: Chunker, n: nat) returns (res: Outcome)
    requires 100 <= n <= 1000 && c.Valid() && c.align == |Enc(Long(n))| && c.rangeAlign == 2 * c.align && !c.noCompress && c.written == 0
    requires c.g == Shadow([], Fresh(TABLE), [NullRow(11)], 1, 0) && c.b.symbols == Symbols() && c.b.flushID == 0
    requires c.b.tmpID == MaxID(TABLE)
    modifies c, c.ranges
    ensures res.Ok? && c.Valid() && |c.g.all| == c.g.n && c.b.symbols == Symbols()
    ensures c.b.lastoff == |c.b.buf| && c.align < c.b.lastoff <= 2 * n + 40
  {
    hide Enc, Symbols, BlockOk, Total, Wire, IonRanges.Tracks, AllReported, FlatTimes, Covered, Inv, Fits, HasOwnLabel, RowOk, Meaning, Outgrows, JoinsBlock, Roomy, Compressed, Attempt, NoRoom, NullRow, Long;
    LongIsOk(n);
    SymbolsAre();
    c.Append(Enc(Long(n)), Symbols(), Long(n));
    assert [NullRow(11)] + [Long(n)] == [NullRow(11), Long(n)];
    TightIs(c.b, c.g, c.align, n);
    TightOutgrows(c.b, c.g, c.align, n, c.hash, c.rangeAlign);
    RoomForAll(|c.b.buf|);
    AttemptIs(c.b, c.g, n, c.hash);
    CompressedLength(n);
    res := c.Commit();
  }

  /** A whole run: a short row, a long one that fits a block exactly, and the next Commit panics. */
  method PanickingRun(n: nat, h: bytes -> nat) returns (c: Chunker, first: Outcome, second: Outcome, third: Outcome)
    requires 100 <= n <= 1000
    ensures first.Ok? && second.Ok? && third.Panicked?
  {
    hide Enc, Symbols, BlockOk, Total, Wire, IonRanges.Tracks, AllReported, FlatTimes, Covered, Inv, Fits, HasOwnLabel, RowOk, Meaning, Outgrows, JoinsBlock, Roomy, Compressed, Attempt, NoRoom, NullRow, Long;
    c, first := AddFirst(n, h);
    second := AddSecond(c, n);
    ShortIsOk();
    SymbolsAre();
    LongGrows(n, Symbols());
    c.Append(Enc(NullRow(11)), Symbols(), NullRow(11));
    RoomForAll(|c.b.buf|);
    third := c.Commit();
  }

  lemma AttemptIs(b: Block, g: Shadow, n: nat, hash: bytes -> nat)
    requires g.all == [NullRow(11), Long(n)] && g.ncomp == 0 && b.symbols == Symbols()
    ensures Attempt(b, g, hash).Rewritten? && Attempt(b, g, hash).st == Symbols()
  {
    hide Symbols, ScanOf, CompressedAll, EncAll, HeadBytes, NewHead;
    RowsKnown(n, hash);
    assert g.all[0..] == g.all;
  }

  lemma CompressedLength(n: nat)
    requires n <= 1000
    ensures |Enc(Compressed(Symbols(), Long(n)))| <= 2 * n + 40
  {
    hide Symbolize, EncAll, Tlv, Uv, Empties, CompressedAll, Symbols;
    SymbolsAre();
    var b := CompressedAll(Symbols(), Empties(n));
    EmptiesSize(n, Symbols());
    var h := Field(11, List(b));
    CompressedOne(Symbols(), Field(11, List(Empties(n))));
    OneField(h);
    UvAtMost8(11);
    HeaderIsShort(LIST_TYPE, EncAll(b));
    assert Enc(List(b)) == Tlv(LIST_TYPE, EncAll(b));
    HeaderIsShort(STRUCT_TYPE, EncFields([h]));
  }

  // ------------------------------------------------------- a last block that overflows when compressed

  /** {"": "foo", a: [null, ..., null]} with twenty nulls. */
  function Nulls(): seq<Ion> { seq(20, _ => Atom([0x0f])) }

  function Full(x: Ion): Ion {
    Struct([Field(10, x), Field(11, List(Nulls()))])
  }

  lemma {:induction false} NullsSize(n: nat)
    ensures |EncAll(seq(n, _ => Atom([0x0f])))| == n
  {
    var es := seq(n, _ => Atom([0x0f]));
    if n > 0 {
      assert es[0] == Atom([0x0f]) && es[1..] == seq(n - 1, _ => Atom([0x0f]));
      NullsSize(n - 1);
    }
  }

  lemma OneByte(n: nat)
    requires n < 128
    ensures |Uv(n)| == 1
  {
  }

  lemma MediumTlv(tag: nat, body: bytes)
    requires tag < 16 && 14 <= |body| < 128
    ensures |Tlv(tag, body)| == |body| + 2
  {
    hide Uv;
    OneByte(|body|);
  }

  lemma FullSize(x: Ion)
    requires 1 <= |Enc(x)| <= 50
    ensures |EncFields(Full(x).fields)| == |Enc(x)| + 24 && |Enc(Full(x))| == |Enc(x)| + 26
  {
    hide Enc, EncAll, Uv, Tlv, Nulls, EncFields;
    var f, h := Field(10, x), Field(11, List(Nulls()));
    NullsLength();
    OneByte(10);
    OneByte(11);
    OneField(f);
    EncFieldsSnoc([f], h);
    assert [f] + [h] == [f, h];
    EncStruct([f, h]);
    MediumTlv(STRUCT_TYPE, EncFields([f, h]));
  }

  lemma NullsLength()
    ensures |EncAll(Nulls())| == 20 && |Enc(List(Nulls()))| == 22
  {
    hide EncAll, Tlv;
    NullsSize(20);
    assert Enc(List(Nulls())) == Tlv(LIST_TYPE, EncAll(Nulls()));
    MediumTlv(LIST_TYPE, EncAll(Nulls()));
  }

  lemma FullIsOk()
    ensures RowOk(TABLE, Full(Str(FOO))) && HasOwnLabel(Full(Str(FOO)))
  {
    hide Enc, EncAll, Uv, Tlv, EncFields;
    FooSizes();
    FullSize(Str(FOO));
    NullsLength();
    NullsAreOk();
    var f, h := Field(10, Str(FOO)), Field(11, List(Nulls()));
    assert WFField(f) && WFField(h) && ResolvesField(TABLE, f) && ResolvesField(TABLE, h);
    assert Full(Str(FOO)).fields == [f, h];
    assert WFFields([f, h]) && ResolvesFields(TABLE, [f, h]);
    assert WF(Full(Str(FOO))) && Resolves(TABLE, Full(Str(FOO)));
    assert Full(Str(FOO)).fields[0].sym >= SYSTEM_COUNT;
  }

  lemma NullsAreOk()
    ensures WFAll(Nulls()) && ResolvesAll(TABLE, Nulls())
  {
    NullField([], 10);
  }

  lemma {:induction false} NullsStay(st: Symtab, n: nat)
    ensures var es := seq(n, _ => Atom([0x0f])); CompressedAll(st, es) == es && StringsAll(es) == []
  {
    var es := seq(n, _ => Atom([0x0f]));
    if n > 0 {
      assert es[..n - 1] == seq(n - 1, _ => Atom([0x0f])) && es[n - 1] == Atom([0x0f]);
      NullsStay(st, n - 1);
    }
  }

  lemma FullStrings(st: Symtab)
    requires Symbolize(st, FOO) == Some(12)
    ensures StringsAll([Full(Str(FOO))]) == [FOO]
    ensures Compressed(st, Full(Str(FOO))) == Full(Sym(12))
  {
    hide Symbolize, StringsAll, CompressedAll;
    var f, h := Field(10, Str(FOO)), Field(11, List(Nulls()));
    NullsStay(st, 20);
    assert [f, h][..1] == [f] && [f][..0] == [];
    assert StringsFields([f]) == [] + [FOO];
    assert StringsFields([f, h]) == [FOO] + [];
    LastString([], Full(Str(FOO)));
    NoStringsIn();
    assert [] + [Full(Str(FOO))] == [Full(Str(FOO))] && [] + [FOO] == [FOO];
    assert CompressedFields(st, [f]) == [] + [Field(10, Sym(12))];
    assert CompressedFields(st, [f, h]) == [Field(10, Sym(12))] + [h];
  }

  lemma EmptyExtension()
    ensures HeadFits(Extend([])) && |HeadBytes(Extend([]))| == 9
  {
    hide Tlv;
    var imports, symbols := Field(SYM_IMPORTS, Sym(SYM_SYMBOL_TABLE)), Field(SYM_SYMBOLS, List([]));
    assert Strs([]) == [] && TableStruct([], false) == Struct([imports, symbols]);
    assert Mag(3) == Mag(0) + [3];
    OneByte(6);
    OneByte(7);
    OneByte(3);
    OneByte(1);
    ShortTlv(SYMBOL_TYPE, Mag(3));
    ShortTlv(LIST_TYPE, []);
    OneField(imports);
    EncFieldsSnoc([imports], symbols);
    assert [imports] + [symbols] == [imports, symbols];
    EncStruct([imports, symbols]);
    ShortTlv(STRUCT_TYPE, EncFields([imports, symbols]));
    var v := TableTree([], false);
    ShortTlv(ANNOTATION_TYPE, Body(v));
  }

  lemma ShortTlv(tag: nat, body: bytes)
    requires tag < 16 && |body| < 14
    ensures |Tlv(tag, body)| == |body| + 1
  {
  }

  /** A block that readers need no table for, filled by one row with a known symbol in it. */
  lemma FullBlock(hash: bytes -> nat) returns (b: Block, g: Shadow, align: nat)
    ensures BlockOk(b, g) && g.n == |g.all| == 1 && g.ncomp == 0 && Covered(b.symbols.interned, b.tmpID, g.all[..g.n])
    ensures b.tmpID == MaxID(b.symbols.interned) && |b.buf| == align > 0 && Fits(b.symbols.interned, 5 * |b.buf|)
    ensures Overflows(b, g, align, hash, true) && !Overflows(b, g, align, hash, false)
  {
    hide Enc, EncAll, HeadBytes, Symbols, ItemsOk, Inv, ScanOf, CompressedAll, Compressed, Full, StringsAll, Fits, RowOk, HasOwnLabel, Layout, Symbolize;
    var v := Full(Str(FOO));
    SymbolsAre();
    FullIsOk();
    FooSizes();
    FullSize(Str(FOO));
    FullSize(Sym(12));
    FullStrings(Symbols());
    align := |Enc(v)|;
    g := Shadow([Tab(Fresh(TABLE))], NoTable, [v], 1, 0);
    b := Block(Enc(v), Symbols(), 0, align, 0, MaxID(TABLE), MaxID(TABLE));
    OneRow([], v);
    BareLayout(b, g);
    TableLength();
    TableSent();
    NoTableFits();
    assert TABLE[..3] == TABLE;
    CoveredWhole(b, g);
    assert g.all[..1] == g.all && g.all[..0] == [] && g.all[0..] == g.all;
    RoomForAll(align);
    assert Known(Symbols(), FOO);
    ScanKnown(hash, Symbols(), [v], 0);
    RewrittenIs(b, g, hash);
    EmptyRowsEncode();
    assert [v][..0] == [];
    OneCompressed(Symbols(), v);
    EmptyExtension();
    assert NewHead(TABLE, MaxID(TABLE)) == Extend([]);
  }

  lemma TableSent()
    ensures ItemsOk([], [Tab(Fresh(TABLE))]) && TableAfter([], [Tab(Fresh(TABLE))]) == TABLE
  {
    TableLength();
    ItemAlone([], Tab(Fresh(TABLE)));
  }

  lemma OneCompressed(st: Symtab, v: Ion)
    ensures EncAll(CompressedAll(st, [v])) == Enc(Compressed(st, v)) && EncAll(CompressedAll(st, [])) == []
  {
    hide Enc, Compressed;
    assert [v][..0] == [];
    assert CompressedAll(st, [v]) == [] + [Compressed(st, v)] == [Compressed(st, v)];
    OneRow([], Compressed(st, v));
  }

  // --------------------------------------------------------------------- rows without own labels

  /** Why rows need a label of their own: behind a row that uses system symbols only, a table that readers
      hold empty is to be extended, nothing is written, and the next row cannot be read. */
  lemma ExtensionMissing()
    ensures var row := NullRow(4);
      && RowOk([], row) && !HasOwnLabel(row) && RowOk([LABEL], NullRow(10))
      && ReadStream([], HeadBytes(Fresh([])) + Enc(row)) == Some(([StructOf(map[SYSTEM[4] := Scalar([0x0f])])], []))
      && ReadStream([], HeadBytes(Fresh([])) + Enc(row) + MarshalBytes([LABEL], SYSTEM_COUNT, false) + Enc(NullRow(10))) == None
  {
    hide Enc, HeadBytes, ReadStream, RowOk, Meaning, EncItems, MarshalBytes;
    NullRowIs([], 4);
    NullRowIs([LABEL], 10);
    MarshalPartSilentIff([LABEL], SYSTEM_COUNT);
    var items := [Tab(Fresh([])), Row(NullRow(4))];
    NoSymbols();
    TwoItems(Fresh([]), NullRow(4));
    var front := HeadBytes(Fresh([])) + Enc(NullRow(4));
    ReadItems([], items, Enc(NullRow(10)));
    ReadAllItems([], items);
    Unreadable();
    assert front + [] + Enc(NullRow(10)) == front + Enc(NullRow(10));
  }

  lemma NoSymbols()
    ensures HeadFits(Fresh([]))
  {
    assert TableSize([]) == 0;
  }

  lemma TwoItems(h: Head, v: Ion)
    requires HeadFits(h) && RowOk(Learned([], h), v)
    ensures var items := [Tab(h), Row(v)];
      && EncItems(items) == HeadBytes(h) + Enc(v) && ItemsOk([], items) && TableAfter([], items) == Learned([], h)
      && RowsOf([], items) == [Meaning(Learned([], h), v)]
  {
    hide HeadBytes, Enc, HeadFits, RowOk, Meaning, Learned;
    var items := [Tab(h), Row(v)];
    assert items == [Tab(h)] + [Row(v)];
    ItemAlone([], Tab(h));
    ItemAlone(Learned([], h), Row(v));
    ItemsAppend([], [Tab(h)], [Row(v)]);
    var none: seq<Value> := [];
    assert none + [Meaning(Learned([], h), v)] == [Meaning(Learned([], h), v)];
  }

  lemma Unreadable()
    ensures ReadStream([], Enc(NullRow(10))) == None
  {
    hide Enc, Unmarshal, SizeOf, TypeOf, IsBVM;
    var v := NullRow(10);
    NullRowIs([LABEL], 10);
    StructType(v, []);
    DecEnc(v, []);
    UndefinedLabel([], 10);
    assert Enc(v) + [] == Enc(v) && Enc(v)[..|Enc(v)|] == Enc(v);
  }
}
