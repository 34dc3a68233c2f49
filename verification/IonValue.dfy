/** What encoded data denotes: symbols resolved to strings, structs as maps. */
module IonValue {
  import opened IonCodec
  import opened IonTree

  /** The interned strings of a symbol table, in ID order from 10 up. */
  type Table = seq<bytes>

  // $0, $ion, $ion_1_0, $ion_symbol_table, name, version, imports, symbols, max_id, $ion_shared_symbol_table
  const SYSTEM: seq<bytes> := [
    [36, 48],
    [36, 105, 111, 110],
    [36, 105, 111, 110, 95, 49, 95, 48],
    [36, 105, 111, 110, 95, 115, 121, 109, 98, 111, 108, 95, 116, 97, 98, 108, 101],
    [110, 97, 109, 101],
    [118, 101, 114, 115, 105, 111, 110],
    [105, 109, 112, 111, 114, 116, 115],
    [115, 121, 109, 98, 111, 108, 115],
    [109, 97, 120, 95, 105, 100],
    [36, 105, 111, 110, 95, 115, 104, 97, 114, 101, 100, 95, 115, 121, 109, 98, 111, 108, 95, 116, 97, 98, 108, 101]
  ]

  const SYSTEM_COUNT: nat := 10
  const SYM_SYMBOL_TABLE: nat := 3
  const SYM_IMPORTS: nat := 6
  const SYM_SYMBOLS: nat := 7

  function MaxID(tab: Table): nat { SYSTEM_COUNT + |tab| }

  /** `Symtab.Get`: the empty string stands for an undefined symbol. */
  function Get(tab: Table, id: nat): bytes {
    if id < SYSTEM_COUNT then SYSTEM[id]
    else if id < MaxID(tab) then tab[id - SYSTEM_COUNT]
    else []
  }

  /** No string is stored twice, and none repeats a system symbol. */
  predicate Distinct(tab: Table) {
    forall i, j :: 0 <= i < MaxID(tab) && 0 <= j < MaxID(tab) && Get(tab, i) == Get(tab, j) ==> i == j
  }

  datatype Value =
    | Scalar(raw: bytes)
    | Text(text: bytes)
    | ListOf(items: seq<Value>)
    | StructOf(fields: map<bytes, Value>)
    | Annotated(name: bytes, val: Value)

  /** Strings and the symbols standing for them denote the same Text. */
  function Meaning(tab: Table, v: Ion): Value
    decreases v, 0
  {
    match v
    case Atom(raw) => Scalar(raw)
    case Sym(id) => Text(Get(tab, id))
    case Str(text) => Text(text)
    case List(items) => ListOf(MeaningAll(tab, items))
    case Struct(fields) => StructOf(MeaningFields(tab, fields))
    case Annot(sym, val) => Annotated(Get(tab, sym), Meaning(tab, val))
  }

  function MeaningAll(tab: Table, items: seq<Ion>): (r: seq<Value>)
    ensures |r| == |items|
    decreases items, 1
  {
    if items == [] then [] else [Meaning(tab, items[0])] + MeaningAll(tab, items[1..])
  }

  function MeaningField(tab: Table, f: Field): Value
    decreases f, 1
  {
    Meaning(tab, f.val)
  }

  /** Where a name occurs twice the first field counts. */
  function MeaningFields(tab: Table, fields: seq<Field>): map<bytes, Value>
    decreases fields, 2
  {
    if fields == [] then map[]
    else MeaningFields(tab, fields[1..])[Get(tab, fields[0].sym) := MeaningField(tab, fields[0])]
  }

  /** Every symbol used in v is defined. */
  predicate Resolves(tab: Table, v: Ion)
    decreases v, 0
  {
    match v
    case Atom(_) => true
    case Sym(id) => id < MaxID(tab)
    case Str(_) => true
    case List(items) => ResolvesAll(tab, items)
    case Struct(fields) => ResolvesFields(tab, fields)
    case Annot(sym, val) => sym < MaxID(tab) && Resolves(tab, val)
  }

  predicate ResolvesAll(tab: Table, items: seq<Ion>)
    decreases items, 1
  {
    forall i :: 0 <= i < |items| ==> Resolves(tab, items[i])
  }

  predicate ResolvesField(tab: Table, f: Field)
    decreases f, 1
  {
    f.sym < MaxID(tab) && Resolves(tab, f.val)
  }

  predicate ResolvesFields(tab: Table, fields: seq<Field>)
    decreases fields, 2
  {
    forall i :: 0 <= i < |fields| ==> ResolvesField(tab, fields[i])
  }

  // ------------------------------------------------ growing the table is harmless

  lemma GetExtends(tab: Table, more: Table, id: nat)
    requires tab <= more && id < MaxID(tab)
    ensures Get(more, id) == Get(tab, id)
  {
  }

  /** A value keeps its meaning under every extension of the table it was written with. */
  lemma {:induction false} MeaningExtends(tab: Table, more: Table, v: Ion)
    requires tab <= more && Resolves(tab, v)
    ensures Resolves(more, v) && Meaning(more, v) == Meaning(tab, v)
    decreases v, 0
  {
    match v
    case Atom(_) =>
    case Sym(_) =>
    case Str(_) =>
    case List(items) => MeaningAllExtends(tab, more, items);
    case Struct(fields) => MeaningFieldsExtends(tab, more, fields);
    case Annot(_, val) => MeaningExtends(tab, more, val);
  }

  lemma {:induction false} MeaningAllExtends(tab: Table, more: Table, items: seq<Ion>)
    requires tab <= more && ResolvesAll(tab, items)
    ensures ResolvesAll(more, items) && MeaningAll(more, items) == MeaningAll(tab, items)
    decreases items, 1
  {
    if items != [] {
      MeaningExtends(tab, more, items[0]);
      MeaningAllExtends(tab, more, items[1..]);
      assert forall i :: 0 < i < |items| ==> items[i] == items[1..][i - 1];
    }
  }

  lemma {:induction false} MeaningFieldExtends(tab: Table, more: Table, f: Field)
    requires tab <= more && ResolvesField(tab, f)
    ensures ResolvesField(more, f) && MeaningField(more, f) == MeaningField(tab, f)
    decreases f, 1
  {
    MeaningExtends(tab, more, f.val);
  }

  lemma {:induction false} MeaningFieldsExtends(tab: Table, more: Table, fields: seq<Field>)
    requires tab <= more && ResolvesFields(tab, fields)
    ensures ResolvesFields(more, fields) && MeaningFields(more, fields) == MeaningFields(tab, fields)
    decreases fields, 2
  {
    if fields != [] {
      assert ResolvesField(tab, fields[0]);
      MeaningFieldExtends(tab, more, fields[0]);
      assert ResolvesFields(tab, fields[1..]);
      MeaningFieldsExtends(tab, more, fields[1..]);
      forall i | 0 <= i < |fields| ensures ResolvesField(more, fields[i]) {
        if i > 0 { assert fields[i] == fields[1..][i - 1]; }
      }
    }
  }

  // ----------------------------------------------------------------- list append

  lemma {:induction false} MeaningAllAppend(tab: Table, a: seq<Ion>, b: seq<Ion>)
    ensures MeaningAll(tab, a + b) == MeaningAll(tab, a) + MeaningAll(tab, b)
  {
    if a == [] {
      assert a + b == b;
    } else {
      assert (a + b)[1..] == a[1..] + b;
      MeaningAllAppend(tab, a[1..], b);
    }
  }

  lemma {:induction false} MeaningAllSnoc(tab: Table, items: seq<Ion>, v: Ion)
    ensures MeaningAll(tab, items + [v]) == MeaningAll(tab, items) + [Meaning(tab, v)]
  {
    if items == [] {
      assert [v][1..] == [] && items + [v] == [v];
    } else {
      assert (items + [v])[1..] == items[1..] + [v];
      MeaningAllSnoc(tab, items[1..], v);
    }
  }
}
