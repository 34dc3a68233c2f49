/** `strtab` of ion/compress.go: a lossy hash table that counts the strings of a block and interns
    the frequent ones. */
module IonStrtab {
  import opened IonCodec
  import opened IonTree
  import opened IonValue
  import opened IonSymtab
  import opened IonMarshal

  const STRTAB_SIZE: nat := 512
  const EVICT_WINDOW: nat := 65536
  const MIN_LENGTH: nat := 3
  const THRESHOLD: nat := 10

  /** A counted string and the offset at which it was first seen. */
  datatype Entry = Entry(enc: bytes, count: nat, pos: nat)

  /** The table; an absent slot is an empty entry. */
  datatype Counter = Counter(entries: map<nat, Entry>, misses: nat, hits: nat, prepop: nat)

  const NOTHING := Counter(map[], 0, 0, 0)

  function Slot0(hash: bytes -> nat, str: bytes): nat { hash(str) % STRTAB_SIZE }

  function Slot1(hash: bytes -> nat, str: bytes): nat { hash(str) / STRTAB_SIZE % STRTAB_SIZE }

  // ------------------------------------------------------------------------------- mark

  /** A string moves into slot i. */
  function Placed(s: Counter, i: nat, str: bytes, pos: nat): Counter {
    s.(entries := s.entries[i := Entry(str, 1, pos)], hits := s.hits + 1)
  }

  /** The string in slot i is seen once more; at the threshold it becomes a symbol. */
  function CountedIn(s: Counter, i: nat, st: Symtab): (Counter, Symtab)
    requires i in s.entries
  {
    var e := s.entries[i].(count := s.entries[i].count + 1);
    if e.count >= THRESHOLD then (s.(entries := s.entries - {i}, prepop := s.prepop + 1), Intern(st, e.enc).0)
    else (s.(entries := s.entries[i := e]), st)
  }

  /** Of two occupied slots the one that counts less, or else the older one. */
  function Weaker(s: Counter, i0: nat, i1: nat): nat
    requires i0 in s.entries && i1 in s.entries
  {
    var e0, e1 := s.entries[i0], s.entries[i1];
    if e1.count < e0.count || (e0.count == e1.count && e1.pos < e0.pos) then i1 else i0
  }

  /** What `mark` makes of the table and of the symbols. */
  function Marked(hash: bytes -> nat, s: Counter, st: Symtab, str: bytes, pos: nat): (Counter, Symtab) {
    if |str| < MIN_LENGTH then (s, st)
    else if Symbolize(st, str).Some? then (s.(prepop := s.prepop + 1), st)
    else
      var i0, i1 := Slot0(hash, str), Slot1(hash, str);
      if i0 !in s.entries then (Placed(s, i0, str, pos), st)
      else if s.entries[i0].enc == str then CountedIn(s, i0, st)
      else if i1 !in s.entries then (Placed(s, i1, str, pos), st)
      else if s.entries[i1].enc == str then CountedIn(s, i1, st)
      else
        var lo := Weaker(s, i0, i1);
        if s.entries[lo].count == 1 && pos - s.entries[lo].pos >= EVICT_WINDOW then (Placed(s, lo, str, pos), st)
        else (s.(misses := s.misses + 1), st)
  }

  class Strtab {
    var entries: map<nat, Entry>
    var misses: nat
    var hits: nat
    var prepop: nat
    const hash: bytes -> nat

    function State(): Counter
      reads this
    {
      Counter(entries, misses, hits, prepop)
    }

    constructor (h: bytes -> nat)
      ensures State() == NOTHING && hash == h
    {
      entries, misses, hits, prepop, hash := map[], 0, 0, 0, h;
    }

    /** `mark`: count str unless it is short or already a symbol; intern it at the threshold. */
    method Mark(str: bytes, st: Symtab, pos: nat) returns (r: Symtab)
      modifies this
      ensures (State(), r) == Marked(hash, old(State()), st, str, pos)
    {
      hide Symbolize, Intern;
      r := st;
      if |str| < MIN_LENGTH { return; }
      if Symbolize(st, str).Some? {
        prepop := prepop + 1;
        return;
      }
      var i0 := hash(str) % STRTAB_SIZE;
      var i1 := hash(str) / STRTAB_SIZE % STRTAB_SIZE;
      if i0 !in entries {
        entries := entries[i0 := Entry(str, 1, pos)];
        hits := hits + 1;
        return;
      }
      if str == entries[i0].enc {
        r := Count(i0, st);
        return;
      }
      if i1 !in entries {
        entries := entries[i1 := Entry(str, 1, pos)];
        hits := hits + 1;
        return;
      }
      if str == entries[i1].enc {
        r := Count(i1, st);
        return;
      }
      var e0, e1 := entries[i0], entries[i1];
      var lo := i0;
      if e1.count < e0.count || (e0.count == e1.count && e1.pos < e0.pos) {
        lo := i1;
      }
      if entries[lo].count == 1 && pos - entries[lo].pos >= EVICT_WINDOW {
        entries := entries[lo := Entry(str, 1, pos)];
        hits := hits + 1;
        return;
      }
      misses := misses + 1;
    }

    method Count(i: nat, st: Symtab) returns (r: Symtab)
      requires i in entries
      modifies this
      ensures (State(), r) == CountedIn(old(State()), i, st)
    {
      hide Intern;
      r := st;
      var e := entries[i].(count := entries[i].count + 1);
      if e.count >= THRESHOLD {
        r := Intern(st, e.enc).0;
        entries := entries - {i};
        prepop := prepop + 1;
      } else {
        entries := entries[i := e];
      }
    }
  }

  // --------------------------------------------------------------------------- counting

  function Times(seen: seq<bytes>, x: bytes): nat {
    if seen == [] then 0 else Times(seen[..|seen| - 1], x) + if seen[|seen| - 1] == x then 1 else 0
  }

  lemma TimesSnoc(seen: seq<bytes>, y: bytes, x: bytes)
    ensures Times(seen + [y], x) == Times(seen, x) + if y == x then 1 else 0
  {
    assert (seen + [y])[..|seen|] == seen;
  }

  lemma {:induction false} TimesAppend(a: seq<bytes>, b: seq<bytes>, x: bytes)
    ensures Times(a + b, x) == Times(a, x) + Times(b, x)
    decreases |b|
  {
    if b == [] {
      assert a + b == a;
    } else {
      TimesAppend(a, b[..|b| - 1], x);
      assert a + b == (a + b[..|b| - 1]) + [b[|b| - 1]];
      TimesSnoc(a + b[..|b| - 1], b[|b| - 1], x);
    }
  }

  /** No slot has counted more than there was. */
  predicate CountsOk(s: Counter, seen: seq<bytes>) {
    forall i :: i in s.entries ==> s.entries[i].count <= Times(seen, s.entries[i].enc)
  }

  lemma SeenMore(s: Counter, seen: seq<bytes>, str: bytes)
    requires CountsOk(s, seen)
    ensures CountsOk(s, seen + [str]) && Times(seen + [str], str) >= 1
    ensures forall i :: i in s.entries && s.entries[i].enc == str ==> s.entries[i].count < Times(seen + [str], str)
  {
    TimesSnoc(seen, str, str);
    forall i | i in s.entries
      ensures s.entries[i].count + (if s.entries[i].enc == str then 1 else 0) <= Times(seen + [str], s.entries[i].enc)
    {
      TimesSnoc(seen, str, s.entries[i].enc);
    }
  }

  /** A string becomes a symbol only if it has three bytes and has been seen often enough; prepop counts
      the hits. */
  lemma MarkedSpec(hash: bytes -> nat, s: Counter, st: Symtab, seen: seq<bytes>, str: bytes, pos: nat)
    requires CountsOk(s, seen) && Inv(st)
    ensures var (t, r) := Marked(hash, s, st, str, pos);
      && CountsOk(t, seen + [str]) && Inv(r)
      && (r == st || (r.interned == st.interned + [str] && |str| >= MIN_LENGTH && Times(seen + [str], str) >= THRESHOLD))
      && t.prepop == s.prepop + if r != st || (|str| >= MIN_LENGTH && Symbolize(st, str).Some?) then 1 else 0
  {
    hide Times, Inv, Symbolize, Intern;
    SeenMore(s, seen, str);
    InternSpec(st, str);
  }

  // -------------------------------------------------------------------------- whole scans

  /** A string and where its text starts. */
  datatype Sighting = Sighting(text: bytes, pos: nat)

  /** The strings of a value that compression considers, in order, for a value at pos. */
  function Sightings(v: Ion, pos: nat): seq<Sighting>
    decreases v, 0
  {
    match v
    case Str(text) => [Sighting(text, pos + Prefix(v))]
    case List(items) => SightingsAll(items, pos + Prefix(v))
    case Struct(fields) => SightingsFields(fields, pos + Prefix(v))
    case _ => []
  }

  /** The length of the header of v. */
  function Prefix(v: Ion): nat
    requires !v.Atom?
  {
    |Header(Tag(v), |Body(v)|)|
  }

  function SightingsAll(items: seq<Ion>, pos: nat): seq<Sighting>
    decreases items, 1
  {
    if items == [] then []
    else SightingsAll(items[..|items| - 1], pos) + Sightings(items[|items| - 1], pos + |EncAll(items[..|items| - 1])|)
  }

  function SightingsField(f: Field, pos: nat): seq<Sighting>
    decreases f, 1
  {
    Sightings(f.val, pos + |Uv(f.sym)|)
  }

  function SightingsFields(fields: seq<Field>, pos: nat): seq<Sighting>
    decreases fields, 2
  {
    if fields == [] then []
    else SightingsFields(fields[..|fields| - 1], pos)
         + SightingsField(fields[|fields| - 1], pos + |EncFields(fields[..|fields| - 1])|)
  }

  /** All of them marked in turn. */
  function MarkedAll(hash: bytes -> nat, s: Counter, st: Symtab, ss: seq<Sighting>): (Counter, Symtab) {
    if ss == [] then (s, st)
    else
      var (t, r) := MarkedAll(hash, s, st, ss[..|ss| - 1]);
      Marked(hash, t, r, ss[|ss| - 1].text, ss[|ss| - 1].pos)
  }

  lemma MarkedNone(hash: bytes -> nat, s: Counter, st: Symtab)
    ensures MarkedAll(hash, s, st, []) == (s, st)
  {
  }

  lemma MarkedOne(hash: bytes -> nat, s: Counter, st: Symtab, text: bytes, pos: nat)
    ensures MarkedAll(hash, s, st, [Sighting(text, pos)]) == Marked(hash, s, st, text, pos)
  {
    hide Marked;
    assert [Sighting(text, pos)][..0] == [];
  }

  lemma {:induction false} MarkedAppend(hash: bytes -> nat, s: Counter, st: Symtab, a: seq<Sighting>, b: seq<Sighting>)
    ensures var (t, r) := MarkedAll(hash, s, st, a);
      MarkedAll(hash, s, st, a + b) == MarkedAll(hash, t, r, b)
    decreases |b|
  {
    hide Marked;
    if b == [] {
      assert a + b == a;
    } else {
      var k := |b| - 1;
      MarkedAppend(hash, s, st, a, b[..k]);
      assert (a + b)[..|a + b| - 1] == a + b[..k];
    }
  }

  function Texts(ss: seq<Sighting>): (r: seq<bytes>)
    ensures |r| == |ss|
  {
    if ss == [] then [] else Texts(ss[..|ss| - 1]) + [ss[|ss| - 1].text]
  }

  lemma {:induction false} TextsAppend(a: seq<Sighting>, b: seq<Sighting>)
    ensures Texts(a + b) == Texts(a) + Texts(b)
    decreases |b|
  {
    if b == [] {
      assert a + b == a;
    } else {
      var k := |b| - 1;
      TextsAppend(a, b[..k]);
      assert (a + b)[..|a + b| - 1] == a + b[..k];
    }
  }

  /** New symbols are strings of three bytes or more that were seen often enough. */
  predicate Frequent(before: Table, after: Table, seen: seq<bytes>) {
    && before <= after
    && forall i :: |before| <= i < |after| ==> |after[i]| >= MIN_LENGTH && Times(seen, after[i]) >= THRESHOLD
  }

  lemma FrequentMore(a: Table, b: Table, c: Table, seen: seq<bytes>, x: bytes)
    requires Frequent(a, b, seen)
    requires c == b || (c == b + [x] && |x| >= MIN_LENGTH && Times(seen + [x], x) >= THRESHOLD)
    ensures Frequent(a, c, seen + [x])
  {
    hide Times;
    forall i | |a| <= i < |c| ensures |c[i]| >= MIN_LENGTH && Times(seen + [x], c[i]) >= THRESHOLD {
      if i < |b| {
        assert c[i] == b[i];
        TimesSnoc(seen, x, b[i]);
      }
    }
  }

  /** A whole scan: counts stay honest, new symbols are frequent, and only hits are counted. */
  lemma {:induction false} MarkedAllSpec(hash: bytes -> nat, s: Counter, st: Symtab, seen: seq<bytes>, ss: seq<Sighting>)
    requires CountsOk(s, seen) && Inv(st)
    ensures var (t, r) := MarkedAll(hash, s, st, ss);
      && CountsOk(t, seen + Texts(ss)) && Inv(r) && Frequent(st.interned, r.interned, seen + Texts(ss))
      && t.prepop >= s.prepop && (r == st || t.prepop > s.prepop)
      && |r.interned| <= |st.interned| + |ss| && TableSize(r.interned) <= TableSize(st.interned) + Weight(Texts(ss))
    decreases |ss|
  {
    hide Inv, Marked, CountsOk, Frequent, TableSize, Times;
    if ss == [] {
      assert seen + [] == seen;
      NothingNew(st.interned, seen);
    } else {
      var k := |ss| - 1;
      MarkedAllSpec(hash, s, st, seen, ss[..k]);
      var (t, r) := MarkedAll(hash, s, st, ss[..k]);
      var so := seen + Texts(ss[..k]);
      MarkedSpec(hash, t, r, so, ss[k].text, ss[k].pos);
      assert seen + Texts(ss) == so + [ss[k].text];
      var (t', r') := MarkedAll(hash, s, st, ss);
      FrequentMore(st.interned, r.interned, r'.interned, so, ss[k].text);
      TableSizeSnoc(r.interned, ss[k].text);
      WeightSnoc(Texts(ss[..k]), ss[k].text);
    }
  }

  lemma NothingNew(tab: Table, seen: seq<bytes>)
    ensures Frequent(tab, tab, seen)
  {
  }

  lemma NothingCounted()
    ensures CountsOk(NOTHING, [])
  {
  }

  /** What strings take up in data. */
  function Weight(texts: seq<bytes>): nat {
    if texts == [] then 0 else Weight(texts[..|texts| - 1]) + |Enc(Str(texts[|texts| - 1]))|
  }

  lemma WeightSnoc(texts: seq<bytes>, x: bytes)
    ensures Weight(texts + [x]) == Weight(texts) + |Enc(Str(x))|
  {
    hide Enc;
    assert (texts + [x])[..|texts|] == texts;
  }

  lemma {:induction false} WeightAppend(a: seq<bytes>, b: seq<bytes>)
    ensures Weight(a + b) == Weight(a) + Weight(b)
    decreases |b|
  {
    hide Enc;
    if b == [] {
      assert a + b == a;
    } else {
      var k := |b| - 1;
      WeightAppend(a, b[..k]);
      assert a + b == (a + b[..k]) + [b[k]];
      WeightSnoc(a + b[..k], b[k]);
    }
  }

  // ------------------------------------------------------- the strings of a value, and their size

  /** The strings of a value that compression considers, in order. */
  function Strings(v: Ion): seq<bytes>
    decreases v, 0
  {
    match v
    case Str(text) => [text]
    case List(items) => StringsAll(items)
    case Struct(fields) => StringsFields(fields)
    case _ => []
  }

  function StringsAll(items: seq<Ion>): seq<bytes>
    decreases items, 1
  {
    if items == [] then [] else StringsAll(items[..|items| - 1]) + Strings(items[|items| - 1])
  }

  function StringsField(f: Field): seq<bytes>
    decreases f, 1
  {
    Strings(f.val)
  }

  function StringsFields(fields: seq<Field>): seq<bytes>
    decreases fields, 2
  {
    if fields == [] then [] else StringsFields(fields[..|fields| - 1]) + StringsField(fields[|fields| - 1])
  }

  lemma {:induction false} SightedStrings(v: Ion, pos: nat)
    ensures Texts(Sightings(v, pos)) == Strings(v)
    decreases v, 0
  {
    hide Prefix, Texts, SightingsAll, SightingsFields, StringsAll, StringsFields;
    match v
    case Str(text) => OneText(text, pos + Prefix(v));
    case List(items) => SightedAll(items, pos + Prefix(v));
    case Struct(fields) => SightedFields(fields, pos + Prefix(v));
    case _ => NoTexts();
  }

  lemma OneText(text: bytes, pos: nat)
    ensures Texts([Sighting(text, pos)]) == [text]
  {
    assert [Sighting(text, pos)][..0] == [];
  }

  lemma {:induction false} SightedAll(items: seq<Ion>, pos: nat)
    ensures Texts(SightingsAll(items, pos)) == StringsAll(items)
    decreases items, 1
  {
    hide Sightings, Strings, EncAll, Texts;
    if items == [] {
      NoTexts();
    } else {
      var k := |items| - 1;
      SightedAll(items[..k], pos);
      SightedStrings(items[k], pos + |EncAll(items[..k])|);
      TextsAppend(SightingsAll(items[..k], pos), Sightings(items[k], pos + |EncAll(items[..k])|));
    }
  }

  lemma NoTexts()
    ensures Texts([]) == []
  {
  }

  lemma {:induction false} SightedField(f: Field, pos: nat)
    ensures Texts(SightingsField(f, pos)) == StringsField(f)
    decreases f, 1
  {
    hide Sightings, Strings, Texts, Uv;
    SightedStrings(f.val, pos + |Uv(f.sym)|);
  }

  lemma {:induction false} SightedFields(fields: seq<Field>, pos: nat)
    ensures Texts(SightingsFields(fields, pos)) == StringsFields(fields)
    decreases fields, 2
  {
    hide SightingsField, StringsField, EncFields, Texts;
    if fields == [] {
      NoTexts();
    } else {
      var k := |fields| - 1;
      var at := pos + |EncFields(fields[..k])|;
      SightedFields(fields[..k], pos);
      SightedField(fields[k], at);
      TextsAppend(SightingsFields(fields[..k], pos), SightingsField(fields[k], at));
    }
  }

  /** Strings are part of the data. */
  lemma {:induction false} StringsWeigh(v: Ion)
    ensures Weight(Strings(v)) <= |Enc(v)| && |Strings(v)| <= |Enc(v)|
    decreases v, 0
  {
    hide Tlv, Uv, StringsAll, StringsFields, EncAll, EncFields;
    match v
    case Str(text) => assert [text][..0] == [];
    case List(items) => StringsWeighAll(items);
    case Struct(fields) => StringsWeighFields(fields);
    case _ =>
  }

  lemma {:induction false} StringsWeighAll(items: seq<Ion>)
    ensures Weight(StringsAll(items)) <= |EncAll(items)| && |StringsAll(items)| <= |EncAll(items)|
    decreases items, 1
  {
    hide Strings, Enc, EncAll;
    if items != [] {
      var k := |items| - 1;
      StringsWeighAll(items[..k]);
      StringsWeigh(items[k]);
      WeightAppend(StringsAll(items[..k]), Strings(items[k]));
      assert items == items[..k] + [items[k]];
      EncAllSnoc(items[..k], items[k]);
    }
  }

  lemma {:induction false} StringsWeighField(f: Field)
    ensures Weight(StringsField(f)) <= |EncField(f)| && |StringsField(f)| <= |EncField(f)|
    decreases f, 1
  {
    hide Strings, Enc, Uv;
    StringsWeigh(f.val);
  }

  lemma {:induction false} StringsWeighFields(fields: seq<Field>)
    ensures Weight(StringsFields(fields)) <= |EncFields(fields)| && |StringsFields(fields)| <= |EncFields(fields)|
    decreases fields, 2
  {
    hide StringsField, EncField, EncFields;
    if fields != [] {
      var k := |fields| - 1;
      StringsWeighFields(fields[..k]);
      StringsWeighField(fields[k]);
      WeightAppend(StringsFields(fields[..k]), StringsField(fields[k]));
      assert fields == fields[..k] + [fields[k]];
      EncFieldsSnoc(fields[..k], fields[k]);
    }
  }

  // ----------------------------------------------------------------- strings that are known already

  /** Too short to count, or a symbol already. */
  predicate Known(st: Symtab, text: bytes) {
    |text| < MIN_LENGTH || Symbolize(st, text).Some?
  }

  lemma {:induction false} TextAt(ss: seq<Sighting>, k: nat)
    requires k < |ss|
    ensures Texts(ss)[k] == ss[k].text
    decreases |ss|
  {
    if k < |ss| - 1 {
      TextAt(ss[..|ss| - 1], k);
    }
  }

  /** A scan of known strings adds nothing and only counts the symbols among them. */
  lemma {:induction false} MarkedKnown(hash: bytes -> nat, s: Counter, st: Symtab, ss: seq<Sighting>)
    requires forall k :: 0 <= k < |ss| ==> Known(st, ss[k].text)
    ensures var (t, r) := MarkedAll(hash, s, st, ss);
      r == st && t.prepop >= s.prepop && ((exists k :: 0 <= k < |ss| && |ss[k].text| >= MIN_LENGTH) ==> t.prepop > s.prepop)
    decreases |ss|
  {
    hide Symbolize, Slot0, Slot1, CountedIn, Weaker, Placed;
    if ss != [] {
      var k := |ss| - 1;
      MarkedKnown(hash, s, st, ss[..k]);
      assert Known(st, ss[k].text);
      if j :| 0 <= j < |ss| && |ss[j].text| >= MIN_LENGTH && j != k {
        assert ss[..k][j] == ss[j];
      }
    }
  }

  // ------------------------------------------------------------- without collisions nothing is lost

  /** No two different strings that count want the same first slot. */
  predicate Apart(hash: bytes -> nat, texts: seq<bytes>) {
    forall i, j ::
      (0 <= i < |texts| && 0 <= j < |texts| && |texts[i]| >= MIN_LENGTH && |texts[j]| >= MIN_LENGTH
       && Slot0(hash, texts[i]) == Slot0(hash, texts[j])) ==> texts[i] == texts[j]
  }

  lemma {:induction false} SeenTimes(seen: seq<bytes>, x: bytes)
    ensures x in seen <==> Times(seen, x) > 0
  {
    if seen != [] {
      SeenTimes(seen[..|seen| - 1], x);
      assert seen == seen[..|seen| - 1] + [seen[|seen| - 1]];
    }
  }

  /** An occupied slot holds the exact count of a string that wants it and is no symbol yet. */
  predicate EntryExact(hash: bytes -> nat, i: nat, e: Entry, st: Symtab, seen: seq<bytes>) {
    e.enc in seen && |e.enc| >= MIN_LENGTH && i == Slot0(hash, e.enc) && e.count == Times(seen, e.enc) && Symbolize(st, e.enc).None?
  }

  predicate SlotsExact(hash: bytes -> nat, s: Counter, st: Symtab, seen: seq<bytes>) {
    && (forall i :: i in s.entries ==> EntryExact(hash, i, s.entries[i], st, seen))
    && (forall k :: 0 <= k < |seen| && |seen[k]| >= MIN_LENGTH && Symbolize(st, seen[k]).None? ==>
         Slot0(hash, seen[k]) in s.entries && s.entries[Slot0(hash, seen[k])].enc == seen[k])
  }

  /** The symbols are those of before and the frequent strings. */
  ghost predicate SymbolsExact(before: Symtab, st: Symtab, seen: seq<bytes>) {
    forall x :: Symbolize(st, x).Some? <==> Symbolize(before, x).Some? || (|x| >= MIN_LENGTH && Times(seen, x) >= THRESHOLD)
  }

  lemma SymbolAdded(st: Symtab, str: bytes, x: bytes)
    requires Inv(st) && Symbolize(st, str).None?
    ensures var t := Intern(st, str).0; Symbolize(t, x).Some? <==> Symbolize(st, x).Some? || x == str
  {
    hide Inv, Symbolize, Intern;
    InternSpec(st, str);
    var t := Intern(st, str).0;
    SymbolizeSpec(st, x);
    SymbolizeSpec(t, x);
    if Symbolize(st, x).Some? {
      assert Get(t.interned, Symbolize(st, x).value) == x;
    }
    if x == str {
      assert Get(t.interned, MaxID(st.interned)) == x;
    }
    if Symbolize(t, x).Some? && x != str {
      assert Symbolize(t, x).value < MaxID(st.interned);
      assert Get(st.interned, Symbolize(t, x).value) == x;
    }
  }

  /** The string wants a slot of its own: it is empty, or holds the string. */
  lemma OwnSlot(hash: bytes -> nat, s: Counter, st: Symtab, seen: seq<bytes>, str: bytes)
    requires SlotsExact(hash, s, st, seen) && Apart(hash, seen + [str]) && |str| >= MIN_LENGTH && Symbolize(st, str).None?
    ensures var i := Slot0(hash, str);
      if i in s.entries then s.entries[i].enc == str && s.entries[i].count == Times(seen, str) else str !in seen
  {
    hide Symbolize, Slot0, Times;
    var i, all := Slot0(hash, str), seen + [str];
    if i in s.entries {
      assert EntryExact(hash, i, s.entries[i], st, seen);
      var k :| 0 <= k < |seen| && seen[k] == s.entries[i].enc;
      assert all[k] == seen[k] && all[|seen|] == str;
    }
  }

  /** What `mark` does where slots do not collide. */
  lemma MarkedOwn(hash: bytes -> nat, s: Counter, st: Symtab, seen: seq<bytes>, str: bytes, pos: nat)
    requires SlotsExact(hash, s, st, seen) && Apart(hash, seen + [str])
    ensures Marked(hash, s, st, str, pos)
         == if |str| < MIN_LENGTH then (s, st)
            else if Symbolize(st, str).Some? then (s.(prepop := s.prepop + 1), st)
            else if Slot0(hash, str) in s.entries then CountedIn(s, Slot0(hash, str), st)
            else (Placed(s, Slot0(hash, str), str, pos), st)
  {
    hide Symbolize, Slot0, Slot1, CountedIn, Placed, Weaker, Times, SlotsExact, Apart;
    if |str| >= MIN_LENGTH && Symbolize(st, str).None? {
      OwnSlot(hash, s, st, seen, str);
    }
  }

  lemma ApartFrom(hash: bytes -> nat, seen: seq<bytes>, str: bytes, x: bytes)
    requires Apart(hash, seen + [str]) && x in seen + [str] && |x| >= MIN_LENGTH && |str| >= MIN_LENGTH
    ensures Slot0(hash, x) == Slot0(hash, str) ==> x == str
  {
    hide Slot0;
    var all := seen + [str];
    var k :| 0 <= k < |all| && all[k] == x;
    assert all[|seen|] == str;
  }

  /** Nothing changes for a string that does not count. */
  lemma StillExact(hash: bytes -> nat, s: Counter, st: Symtab, seen: seq<bytes>, str: bytes)
    requires SlotsExact(hash, s, st, seen) && (|str| < MIN_LENGTH || Symbolize(st, str).Some?)
    ensures SlotsExact(hash, s, st, seen + [str]) && forall p: nat :: SlotsExact(hash, s.(prepop := p), st, seen + [str])
  {
    hide Symbolize, Slot0, Times;
    var all := seen + [str];
    forall i | i in s.entries ensures EntryExact(hash, i, s.entries[i], st, all) {
      assert EntryExact(hash, i, s.entries[i], st, seen);
      TimesSnoc(seen, str, s.entries[i].enc);
    }
    forall k | 0 <= k < |all| && |all[k]| >= MIN_LENGTH && Symbolize(st, all[k]).None?
      ensures Slot0(hash, all[k]) in s.entries && s.entries[Slot0(hash, all[k])].enc == all[k]
    {
      assert k < |seen| && all[k] == seen[k];
    }
  }

  lemma StepEntries(hash: bytes -> nat, s: Counter, st: Symtab, seen: seq<bytes>, str: bytes, t: Counter, r: Symtab, pos: nat)
    requires Inv(st) && SlotsExact(hash, s, st, seen) && Apart(hash, seen + [str]) && (t, r) == Marked(hash, s, st, str, pos)
    requires |str| >= MIN_LENGTH && Symbolize(st, str).None?
    ensures SlotsExact(hash, t, r, seen + [str])
    ensures r == if Times(seen, str) + 1 >= THRESHOLD then Intern(st, str).0 else st
  {
    hide Inv, Symbolize, Intern, Slot0, Slot1, Weaker, Times, Apart;
    var all, i0 := seen + [str], Slot0(hash, str);
    MarkedOwn(hash, s, st, seen, str, pos);
    OwnSlot(hash, s, st, seen, str);
    SeenTimes(seen, str);
    TimesSnoc(seen, str, str);
    assert forall i :: i in t.entries && i != i0 ==> i in s.entries && t.entries[i] == s.entries[i];
    forall i | i in t.entries ensures EntryExact(hash, i, t.entries[i], r, all) {
      var x := t.entries[i].enc;
      if i != i0 {
        assert EntryExact(hash, i, s.entries[i], st, seen);
        TimesSnoc(seen, str, x);
      }
      SymbolAdded(st, str, x);
    }
    forall k | 0 <= k < |all| && |all[k]| >= MIN_LENGTH && Symbolize(r, all[k]).None?
      ensures Slot0(hash, all[k]) in t.entries && t.entries[Slot0(hash, all[k])].enc == all[k]
    {
      SymbolAdded(st, str, all[k]);
      ApartFrom(hash, seen, str, all[k]);
      if all[k] != str {
        assert all[k] == seen[k];
      }
    }
  }

  lemma StepSymbols(before: Symtab, st: Symtab, r: Symtab, seen: seq<bytes>, str: bytes)
    requires Inv(st) && SymbolsExact(before, st, seen)
    requires r == if |str| >= MIN_LENGTH && Symbolize(st, str).None? && Times(seen, str) + 1 >= THRESHOLD then Intern(st, str).0 else st
    ensures SymbolsExact(before, r, seen + [str])
  {
    hide Inv, Symbolize, Intern, Times;
    forall x ensures Symbolize(r, x).Some? <==> Symbolize(before, x).Some? || (|x| >= MIN_LENGTH && Times(seen + [str], x) >= THRESHOLD) {
      TimesSnoc(seen, str, x);
      if Symbolize(st, str).None? { SymbolAdded(st, str, x); }
      assert Symbolize(st, x).Some? <==> Symbolize(before, x).Some? || (|x| >= MIN_LENGTH && Times(seen, x) >= THRESHOLD);
    }
  }

  /** A scan without collisions makes symbols of exactly the frequent strings. */
  lemma {:induction false} MarkedExact(hash: bytes -> nat, st: Symtab, ss: seq<Sighting>)
    requires Inv(st) && Apart(hash, Texts(ss))
    ensures var (t, r) := MarkedAll(hash, NOTHING, st, ss);
      Inv(r) && SlotsExact(hash, t, r, Texts(ss)) && SymbolsExact(st, r, Texts(ss))
    decreases |ss|
  {
    hide Inv, Symbolize, Intern, Marked, SlotsExact, SymbolsExact, Apart, Times;
    NothingCounted();
    MarkedAllSpec(hash, NOTHING, st, [], ss);
    if ss == [] {
      NothingExact(hash, st);
    } else {
      var k := |ss| - 1;
      var str, seen := ss[k].text, Texts(ss[..k]);
      FewerApart(hash, seen, str);
      MarkedExact(hash, st, ss[..k]);
      var (t, r) := MarkedAll(hash, NOTHING, st, ss[..k]);
      var (t', r') := Marked(hash, t, r, str, ss[k].pos);
      if |str| >= MIN_LENGTH && Symbolize(r, str).None? {
        StepEntries(hash, t, r, seen, str, t', r', ss[k].pos);
      } else {
        StillExact(hash, t, r, seen, str);
        MarkedOwn(hash, t, r, seen, str, ss[k].pos);
      }
      StepSymbols(st, r, r', seen, str);
    }
  }

  lemma NothingExact(hash: bytes -> nat, st: Symtab)
    ensures SlotsExact(hash, NOTHING, st, []) && SymbolsExact(st, st, [])
  {
  }

  lemma FewerApart(hash: bytes -> nat, seen: seq<bytes>, str: bytes)
    requires Apart(hash, seen + [str])
    ensures Apart(hash, seen)
  {
    hide Slot0;
    var all := seen + [str];
    assert forall k :: 0 <= k < |seen| ==> seen[k] == all[k];
  }
}
