/** Symbol tables on the wire: `Symtab.marshal` and `Symtab.Unmarshal`. */
module IonMarshal {
  import opened IonCodec
  import opened IonTree
  import opened IonValue
  import opened IonScalars
  import opened IonBuffer

  /** Version marker that starts a fresh table. */
  const BVM: bytes := [0xe0, 0x01, 0x00, 0xea]

  predicate IsBVM(src: bytes) {
    |src| >= 4 && src[0] == 0xe0 && src[3] == 0xea
  }

  function Strs(syms: Table): (r: seq<Ion>)
    ensures |r| == |syms|
    ensures forall i :: 0 <= i < |r| ==> r[i] == Str(syms[i])
  {
    seq(|syms|, i requires 0 <= i < |syms| => Str(syms[i]))
  }

  /** Encoded size of the strings of a table. */
  function TableSize(syms: Table): nat { |EncAll(Strs(syms))| }

  /** $ion_symbol_table::{ symbols: [...] }, with imports: $ion_symbol_table when it extends. */
  function TableTree(syms: Table, fresh_: bool): Ion {
    Annot(SYM_SYMBOL_TABLE, TableStruct(syms, fresh_))
  }

  function TableStruct(syms: Table, fresh_: bool): (v: Ion)
    ensures v.Struct?
  {
    var symbols := Field(SYM_SYMBOLS, List(Strs(syms)));
    Struct(if fresh_ then [symbols] else [Field(SYM_IMPORTS, Sym(SYM_SYMBOL_TABLE)), symbols])
  }

  lemma TableTreeParts(syms: Table, fresh_: bool)
    requires WF(TableTree(syms, fresh_))
    ensures WF(TableStruct(syms, fresh_))
  {
  }

  /** How many leading strings `marshal` leaves out. */
  function Skipped(tab: Table, starting: nat): (n: nat)
    ensures n <= |tab|
  {
    if starting <= SYSTEM_COUNT then 0
    else if starting - SYSTEM_COUNT > |tab| then |tab|
    else starting - SYSTEM_COUNT
  }

  /** The bytes `marshal` appends. */
  function MarshalBytes(tab: Table, starting: nat, withBVM: bool): bytes {
    var n := Skipped(tab, starting);
    if withBVM then BVM + Enc(TableTree(tab[n..], true))
    else if n == 0 then []
    else Enc(TableTree(tab[n..], false))
  }

  // -------------------------------------------------------------------- well-formed

  lemma {:induction false} TableSizeSnoc(syms: Table, x: bytes)
    ensures TableSize(syms + [x]) == TableSize(syms) + |Enc(Str(x))|
  {
    hide EncAll, Enc;
    assert Strs(syms + [x]) == Strs(syms) + [Str(x)];
    EncAllSnoc(Strs(syms), Str(x));
  }

  lemma TableSizeSplit(syms: Table, n: nat)
    requires n <= |syms|
    ensures TableSize(syms) == TableSize(syms[..n]) + TableSize(syms[n..])
  {
    hide EncAll;
    EncAllAppend(Strs(syms[..n]), Strs(syms[n..]));
    assert Strs(syms) == Strs(syms[..n]) + Strs(syms[n..]);
  }

  lemma StringsFit(syms: Table)
    requires TableSize(syms) < UV_LIMIT
    ensures WFAll(Strs(syms))
  {
    forall i | 0 <= i < |syms| ensures WF(Strs(syms)[i]) {
      StringFits(syms, i);
    }
  }

  lemma StringFits(syms: Table, i: nat)
    requires i < |syms| && TableSize(syms) < UV_LIMIT
    ensures |syms[i]| < UV_LIMIT
  {
    hide TableSize;
    TableSizeSplit(syms, i + 1);
    TableSizeSnoc(syms[..i], syms[i]);
    assert syms[..i + 1] == syms[..i] + [syms[i]];
  }

  /** A table whose strings take less than the VarUInt limit marshals to a well-formed tree. */
  lemma TableTreeWellFormed(syms: Table, fresh_: bool)
    requires TableSize(syms) + 64 < UV_LIMIT
    ensures WF(TableTree(syms, fresh_))
  {
    StringsFit(syms);
    TableFieldsSize(syms, fresh_);
    var tree := TableTree(syms, fresh_);
    var fields := tree.val.fields;
    assert WFFields(fields) by {
      assert forall i :: 0 <= i < |fields| ==> WFField(fields[i]);
    }
    assert |Body(tree)| < UV_LIMIT by {
      HeaderIsShort(STRUCT_TYPE, EncFields(fields));
      assert Enc(tree.val) == Tlv(STRUCT_TYPE, EncFields(fields));
      assert Uv(1) == [129] && Uv(3) == [131];
    }
  }

  lemma HeaderIsShort(tag: nat, body: bytes)
    requires tag < 16 && |body| < UV_LIMIT
    ensures |Tlv(tag, body)| <= |body| + 9
  {
    UvAtMost8(|body|);
  }

  lemma TableFieldsSize(syms: Table, fresh_: bool)
    requires TableSize(syms) + 64 < UV_LIMIT
    ensures |EncFields(TableTree(syms, fresh_).val.fields)| <= TableSize(syms) + 20
  {
    var fields := TableTree(syms, fresh_).val.fields;
    HeaderIsShort(LIST_TYPE, EncAll(Strs(syms)));
    var symbols := Field(SYM_SYMBOLS, List(Strs(syms)));
    assert Uv(7) == [135] && Uv(6) == [134];
    assert Enc(symbols.val) == Tlv(LIST_TYPE, EncAll(Strs(syms)));
    assert |EncField(symbols)| <= TableSize(syms) + 10;
    EncFieldsSnoc([], symbols);
    assert [] + [symbols] == [symbols];
    if !fresh_ {
      var imports := Field(SYM_IMPORTS, Sym(SYM_SYMBOL_TABLE));
      assert Mag(3) == [3];
      assert |EncField(imports)| == 3;
      EncFieldsSnoc([], imports);
      EncFieldsSnoc([imports], symbols);
      assert [] + [imports] == [imports] && [imports] + [symbols] == fields;
    }
  }

  // ------------------------------------------------------------------------ writing

  /** `marshal`. */
  method Marshal(dst: Buffer, tab: Table, starting: nat, withBVM: bool)
    requires dst.Valid() && dst.frames == []
    requires TableSize(tab) + 64 < UV_LIMIT
    modifies dst
    ensures dst.Valid() && dst.frames == []
    ensures dst.buf == old(dst.buf) + MarshalBytes(tab, starting, withBVM)
  {
    hide Enc, TableSize, StackBytes, SegsMatch;
    if withBVM {
      dst.Set(dst.buf + BVM);
    }
    var count := 0;
    if starting > SYSTEM_COUNT {
      count := starting - SYSTEM_COUNT;
      if count > |tab| { count := |tab|; }
    }
    if count == 0 && !withBVM { return; }
    TableSizeSplit(tab, count);
    WriteTable(dst, tab[count..], withBVM);
  }

  method WriteTable(dst: Buffer, syms: Table, fresh_: bool)
    requires dst.Valid() && dst.frames == []
    requires TableSize(syms) + 64 < UV_LIMIT
    modifies dst
    ensures dst.Valid() && dst.frames == []
    ensures dst.buf == old(dst.buf) + Enc(TableTree(syms, fresh_))
  {
    hide StackBytes, SegsMatch, Enc, WF, TableSize, TableStruct;
    TableTreeWellFormed(syms, fresh_);
    TableTreeParts(syms, fresh_);
    StackOfNone(dst.base);
    dst.BeginAnnotation();
    dst.BeginField(SYM_SYMBOL_TABLE);
    WriteTableStruct(dst, syms, fresh_);
    dst.EndAnnotation();
    StackOfNone(dst.base);
  }

  method WriteTableStruct(dst: Buffer, syms: Table, fresh_: bool)
    requires dst.Valid() && Ready(dst.frames) && WF(TableStruct(syms, fresh_))
    modifies dst
    ensures dst.Valid() && dst.base == AddBase(old(dst.base), old(dst.frames), TableStruct(syms, fresh_))
    ensures dst.frames == AddFrames(old(dst.frames), TableStruct(syms, fresh_))
  {
    hide StackBytes, SegsMatch, EncAll, EncFields, WFAll, AddFrames, WithLabel, InsertField;
    ghost var below := dst.frames;
    SymbolsFieldFits(syms, fresh_);
    dst.BeginStruct();
    if !fresh_ {
      WriteImports(dst, below);
    }
    ghost var fields := if fresh_ then [] else [Field(SYM_IMPORTS, Sym(SYM_SYMBOL_TABLE))];
    WriteSymbols(dst, syms, below, fields);
    assert fields + [Field(SYM_SYMBOLS, List(Strs(syms)))] == TableStruct(syms, fresh_).fields;
    LabelAdded(below, TableStruct(syms, fresh_).fields, 0);
    dst.EndStruct();
  }

  method WriteImports(dst: Buffer, ghost below: seq<Frame>)
    requires dst.Valid() && dst.frames == below + [StructFrame([], None)]
    modifies dst
    ensures dst.Valid() && dst.base == old(dst.base)
    ensures dst.frames == below + [StructFrame([Field(SYM_IMPORTS, Sym(SYM_SYMBOL_TABLE))], None)]
  {
    hide StackBytes, SegsMatch, AddFrames, WithLabel, InsertField, AwaitsLabel;
    LabelAdded(below, [], SYM_IMPORTS);
    dst.BeginField(SYM_IMPORTS);
    FieldAdded(below, [], SYM_IMPORTS, Sym(SYM_SYMBOL_TABLE));
    dst.WriteSymbol(SYM_SYMBOL_TABLE);
    ghost var imports := Field(SYM_IMPORTS, Sym(SYM_SYMBOL_TABLE));
    InsertAtEnd([], imports);
    assert [] + [imports] == [imports];
  }

  method WriteSymbols(dst: Buffer, syms: Table, ghost below: seq<Frame>, ghost fields: seq<Field>)
    requires dst.Valid() && dst.frames == below + [StructFrame(fields, None)] && WF(List(Strs(syms)))
    requires forall i :: 0 <= i < |fields| ==> fields[i].sym < SYM_SYMBOLS
    modifies dst
    ensures dst.Valid() && dst.base == old(dst.base)
    ensures dst.frames == below + [StructFrame(fields + [Field(SYM_SYMBOLS, List(Strs(syms)))], None)]
  {
    hide StackBytes, SegsMatch, AddFrames, WithLabel, InsertField, AwaitsLabel, WF;
    LabelAdded(below, fields, SYM_SYMBOLS);
    dst.BeginField(SYM_SYMBOLS);
    FieldAdded(below, fields, SYM_SYMBOLS, List(Strs(syms)));
    WriteSymbolList(dst, syms);
    InsertAtEnd(fields, Field(SYM_SYMBOLS, List(Strs(syms))));
  }

  lemma SymbolsFieldFits(syms: Table, fresh_: bool)
    requires WF(TableStruct(syms, fresh_))
    ensures WF(List(Strs(syms)))
  {
    var fields := TableStruct(syms, fresh_).fields;
    assert WFField(fields[|fields| - 1]);
  }

  method WriteSymbolList(dst: Buffer, syms: Table)
    requires dst.Valid() && Ready(dst.frames) && WF(List(Strs(syms)))
    modifies dst
    ensures dst.Valid() && dst.base == AddBase(old(dst.base), old(dst.frames), List(Strs(syms)))
    ensures dst.frames == AddFrames(old(dst.frames), List(Strs(syms)))
  {
    hide StackBytes, SegsMatch, EncAll;
    ghost var below := dst.frames;
    dst.BeginList();
    WriteStrings(dst, syms);
    assert dst.frames[..|dst.frames| - 1] == below;
    dst.EndList();
  }

  method WriteStrings(dst: Buffer, syms: Table)
    requires dst.Valid() && dst.frames != [] && dst.frames[|dst.frames| - 1] == ListFrame([])
    requires WFAll(Strs(syms))
    modifies dst
    ensures dst.Valid() && dst.base == old(dst.base)
    ensures dst.frames == old(dst.frames)[..|old(dst.frames)| - 1] + [ListFrame(Strs(syms))]
  {
    hide StackBytes, SegsMatch, Enc, EncAll;
    ghost var below := dst.frames[..|dst.frames| - 1];
    for i := 0 to |syms|
      invariant dst.Valid() && dst.base == old(dst.base)
      invariant dst.frames == below + [ListFrame(Strs(syms)[..i])]
    {
      assert WF(Strs(syms)[i]);
      assert dst.frames[..|dst.frames| - 1] == below;
      dst.WriteString(syms[i]);
      assert Strs(syms)[..i + 1] == Strs(syms)[..i] + [Strs(syms)[i]];
    }
    assert Strs(syms)[..|syms|] == Strs(syms);
  }

  // ------------------------------------------------------------------------ reading

  /** The strings of an encoded `symbols` list. */
  function ReadStrings(lst: bytes): Option<Table>
    decreases |lst|
  {
    if lst == [] then Some([])
    else if TypeOf(lst) != STRING_TYPE then None
    else match Contents(lst)
      case None => None
      case Some(Split(text, rest)) =>
        match ReadStrings(rest)
        case None => None
        case Some(syms) => Some([text] + syms)
  }

  /** The field loop of `Unmarshal`: every `symbols` list is appended, other fields are skipped. */
  function ReadTableFields(tab: Table, body: bytes): Option<Table>
    decreases |body|
  {
    if body == [] then Some(tab)
    else match ReadUv(body)
      case UvBad => None
      case UvOk(sym, used) =>
        var val := body[used..];
        if sym == SYM_SYMBOLS then
          match Contents(val)
          case None => None
          case Some(Split(lst, rest)) =>
            match ReadStrings(lst)
            case None => None
            case Some(syms) => ReadTableFields(tab + syms, rest)
        else
          var n := SizeOf(val);
          if n < 0 || |val| < n then None else ReadTableFields(tab, val[n..])
  }

  /** `Unmarshal`: the reader's strings afterwards and the rest of the input. */
  function Unmarshal(tab: Table, src: bytes): (r: Option<(Table, bytes)>)
    ensures r.Some? ==> |r.value.1| < |src|
  {
    if IsBVM(src) then UnmarshalTable([], src[4..]) else UnmarshalTable(tab, src)
  }

  function UnmarshalTable(tab: Table, src: bytes): (r: Option<(Table, bytes)>)
    ensures r.Some? ==> |r.value.1| < |src|
  {
    if |src| == 0 || TypeOf(src) != ANNOTATION_TYPE || |src| < SizeOf(src) then None
    else match Contents(src)
      case None => None
      case Some(Split(body, rest)) =>
        match UnmarshalBody(tab, body)
        case None => None
        case Some(grown) => Some((grown, rest))
  }

  function UnmarshalBody(tab: Table, body: bytes): Option<Table> {
    match ReadUv(body)
    case UvBad => None
    case UvOk(count, used) =>
      if count != 1 then None
      else match ReadUv(body[used..])
        case UvBad => None
        case UvOk(sym, used') =>
          var inner := body[used + used'..];
          if sym != SYM_SYMBOL_TABLE || |inner| == 0 || TypeOf(inner) != STRUCT_TYPE then None
          else match Contents(inner)
            case None => None
            case Some(Split(fields, _)) => ReadTableFields(tab, fields)
  }

  // --------------------------------------------------------------------- round trip

  lemma {:induction false} ReadStringsOf(syms: Table)
    requires WFAll(Strs(syms))
    ensures ReadStrings(EncAll(Strs(syms))) == Some(syms)
    decreases |syms|
  {
    if syms != [] {
      var tail := EncAll(Strs(syms[1..]));
      assert Strs(syms)[1..] == Strs(syms[1..]);
      assert WF(Strs(syms)[0]);
      TlvFraming(STRING_TYPE, syms[0], tail);
      assert Enc(Str(syms[0])) == Tlv(STRING_TYPE, syms[0]);
      assert EncAll(Strs(syms)) == Enc(Strs(syms)[0]) + tail;
      ReadStringsOf(syms[1..]);
      assert [syms[0]] + syms[1..] == syms;
    }
  }

  lemma ReadSymbolsField(tab: Table, syms: Table)
    requires WF(List(Strs(syms)))
    ensures ReadTableFields(tab, EncField(Field(SYM_SYMBOLS, List(Strs(syms))))) == Some(tab + syms)
  {
    hide ReadStrings, EncAll, Contents;
    var v := List(Strs(syms));
    var body := Uv(SYM_SYMBOLS) + Enc(v);
    UvRoundTrip(SYM_SYMBOLS, Enc(v));
    TlvFraming(LIST_TYPE, EncAll(Strs(syms)), []);
    assert Enc(v) + [] == Enc(v);
    ReadStringsOf(syms);
    assert ReadTableFields(tab + syms, []) == Some(tab + syms);
  }

  lemma ReadImportsField(tab: Table, rest: bytes)
    ensures ReadTableFields(tab, EncField(Field(SYM_IMPORTS, Sym(SYM_SYMBOL_TABLE))) + rest) == ReadTableFields(tab, rest)
  {
    hide SizeOf;
    var v := Sym(SYM_SYMBOL_TABLE);
    var body := EncField(Field(SYM_IMPORTS, v)) + rest;
    assert body == Uv(SYM_IMPORTS) + (Enc(v) + rest);
    UvRoundTrip(SYM_IMPORTS, Enc(v) + rest);
    EncFraming(v, rest);
  }

  lemma ReadTableStruct(tab: Table, syms: Table, fresh_: bool)
    requires WF(TableStruct(syms, fresh_))
    ensures ReadTableFields(tab, EncFields(TableStruct(syms, fresh_).fields)) == Some(tab + syms)
  {
    hide ReadTableFields, EncField, WF;
    SymbolsFieldFits(syms, fresh_);
    var symbols := Field(SYM_SYMBOLS, List(Strs(syms)));
    ReadSymbolsField(tab, syms);
    EncFieldsSnoc([], symbols);
    assert [] + [symbols] == [symbols] && EncFields([]) + EncField(symbols) == EncField(symbols);
    if !fresh_ {
      var imports := Field(SYM_IMPORTS, Sym(SYM_SYMBOL_TABLE));
      ReadImportsField(tab, EncField(symbols));
      EncFieldsSnoc([imports], symbols);
      EncFieldsSnoc([], imports);
      assert [] + [imports] == [imports] && [imports] + [symbols] == [imports, symbols];
      assert EncFields([]) + EncField(imports) == EncField(imports);
    }
  }

  lemma UnmarshalBodyOf(tab: Table, syms: Table, fresh_: bool)
    requires WF(TableTree(syms, fresh_))
    ensures UnmarshalBody(tab, Body(TableTree(syms, fresh_))) == Some(tab + syms)
  {
    hide ReadTableFields, EncFields, Contents, ReadUv;
    var v := TableStruct(syms, fresh_);
    TableTreeParts(syms, fresh_);
    var inner := Enc(v);
    var body := Uv(1) + Uv(SYM_SYMBOL_TABLE) + inner;
    assert body == Uv(1) + (Uv(SYM_SYMBOL_TABLE) + inner);
    UvRoundTrip(1, Uv(SYM_SYMBOL_TABLE) + inner);
    UvRoundTrip(SYM_SYMBOL_TABLE, inner);
    assert body[|Uv(1)| + |Uv(SYM_SYMBOL_TABLE)|..] == inner;
    TlvFraming(STRUCT_TYPE, EncFields(v.fields), []);
    assert inner + [] == inner;
    EncStruct(v.fields);
    assert Body(TableTree(syms, fresh_)) == body;
    ReadTableStruct(tab, syms, fresh_);
  }

  lemma UnmarshalTree(tab: Table, syms: Table, fresh_: bool, rest: bytes)
    requires WF(TableTree(syms, fresh_))
    ensures var src := Enc(TableTree(syms, fresh_)) + rest;
      && !IsBVM(src) && |src| > 0 && TypeOf(src) == ANNOTATION_TYPE
      && UnmarshalTable(tab, src) == Some((tab + syms, rest))
  {
    hide UnmarshalBody, Contents, SizeOf;
    var v := TableTree(syms, fresh_);
    BodyFits(v);
    TlvFraming(ANNOTATION_TYPE, Body(v), rest);
    UnmarshalBodyOf(tab, syms, fresh_);
    assert |Body(v)| > 0;
  }

  lemma MarkerPrefix(a: bytes, b: bytes)
    ensures var src := BVM + a + b; IsBVM(src) && src[4..] == a + b
  {
  }

  /** A table written with a version marker is recovered whatever the reader held before. */
  lemma MarshalRecovers(held: Table, tab: Table, rest: bytes)
    requires TableSize(tab) + 64 < UV_LIMIT
    ensures Unmarshal(held, MarshalBytes(tab, 0, true) + rest) == Some((tab, rest))
  {
    hide UnmarshalTable, TableTree, TableSize, Enc;
    TableTreeWellFormed(tab, true);
    UnmarshalTree([], tab, true, rest);
    assert tab[0..] == tab && [] + tab == tab;
    MarkerPrefix(Enc(TableTree(tab, true)), rest);
  }

  /** An incremental table is recovered by a reader that holds the first `starting`-10 strings. */
  lemma MarshalPartRecovers(tab: Table, starting: nat, rest: bytes)
    requires SYSTEM_COUNT < starting <= MaxID(tab)
    requires TableSize(tab) + 64 < UV_LIMIT
    ensures Unmarshal(tab[..starting - SYSTEM_COUNT], MarshalBytes(tab, starting, false) + rest) == Some((tab, rest))
  {
    hide UnmarshalTable, TableTree, TableSize, Enc, IsBVM;
    var n := starting - SYSTEM_COUNT;
    TableSizeSplit(tab, n);
    TableTreeWellFormed(tab[n..], false);
    UnmarshalTree(tab[..n], tab[n..], false, rest);
    assert tab[..n] + tab[n..] == tab;
  }

  /** What a reader holds after an incremental table: nothing is read where nothing was written. */
  function Received(held: Table, msg: bytes): Option<Table> {
    if msg == [] then Some(held)
    else match Unmarshal(held, msg)
      case None => None
      case Some((tab, _)) => Some(tab)
  }

  /** `MarshalPart` brings a reader of the first `starting`-10 strings up to date exactly when
      `starting` is past the system symbols or there is nothing to send: from 10 it writes nothing. */
  lemma MarshalPartRecoversIff(tab: Table, starting: nat)
    requires SYSTEM_COUNT <= starting <= MaxID(tab)
    requires TableSize(tab) + 64 < UV_LIMIT
    ensures Received(tab[..starting - SYSTEM_COUNT], MarshalBytes(tab, starting, false)) == Some(tab)
       <==> starting > SYSTEM_COUNT || tab == []
  {
    hide Unmarshal, Enc, TableSize;
    if starting > SYSTEM_COUNT {
      MarshalPartRecovers(tab, starting, []);
      var msg := MarshalBytes(tab, starting, false);
      assert msg + [] == msg;
    } else {
      assert MarshalBytes(tab, starting, false) == [];
    }
  }

  /** `MarshalPart` writes nothing exactly if it starts at or before the first symbol or the table
      has none. */
  lemma MarshalPartSilentIff(tab: Table, starting: nat)
    ensures MarshalBytes(tab, starting, false) == [] <==> starting <= SYSTEM_COUNT || tab == []
  {
    hide Enc;
    if Skipped(tab, starting) != 0 {
      NonEmptyTree(tab[Skipped(tab, starting)..], false);
    }
  }

  lemma NonEmptyTree(syms: Table, fresh_: bool)
    ensures |Enc(TableTree(syms, fresh_))| > 0
  {
  }

  /** It is to write nothing exactly if there is nothing new. The two agree exactly if the start lies
      strictly between, or the table is empty: with nothing new it still writes an empty table, and
      from 10 it leaves everything out. */
  lemma MarshalPartAsPromisedIff(tab: Table, starting: nat)
    requires SYSTEM_COUNT <= starting <= MaxID(tab)
    ensures (MarshalBytes(tab, starting, false) == [] <==> starting == MaxID(tab))
       <==> tab == [] || SYSTEM_COUNT < starting < MaxID(tab)
  {
    hide MarshalBytes;
    MarshalPartSilentIff(tab, starting);
  }
}
