/** `ion/resymbolize.go`: carry the last row and the ranges over to a table of their own. */
module IonResymbolize {
  import opened IonCodec
  import opened IonTree
  import opened IonValue
  import opened IonSymtab
  import opened IonBuffer
  import opened IonMarshal
  import opened IonRecode
  import opened IonResym
  import opened IonRanges

  // -------------------------------------------------------- fewer symbols, smaller table

  predicate NoRepeats(a: Table) {
    forall i, j :: 0 <= i < j < |a| ==> a[i] != a[j]
  }

  lemma DistinctHasNoRepeats(tab: Table)
    requires Distinct(tab)
    ensures NoRepeats(tab)
  {
    assert forall i :: 0 <= i < |tab| ==> Get(tab, SYSTEM_COUNT + i) == tab[i];
  }

  /** Distinct strings taken from b need no more room than b. */
  lemma {:induction false} SubtableSize(a: Table, b: Table)
    requires NoRepeats(a) && forall i :: 0 <= i < |a| ==> a[i] in b
    ensures |a| <= |b| && TableSize(a) <= TableSize(b)
  {
    hide TableSize;
    if a == [] {
      NoTableSize();
    } else {
      var init, x := a[..|a| - 1], a[|a| - 1];
      assert a == init + [x];
      var j :| 0 <= j < |b| && b[j] == x;
      var less := b[..j] + b[j + 1..];
      forall i | 0 <= i < |init| ensures init[i] in less {
        var k :| 0 <= k < |b| && b[k] == a[i];
        if k < j { assert less[k] == a[i]; } else { assert less[k - 1] == a[i]; }
      }
      SubtableSize(init, less);
      TableSizeSnoc(init, x);
      RemoveOne(b, j);
    }
  }

  lemma NoTableSize()
    ensures TableSize([]) == 0
  {
    assert Strs([]) == [];
  }

  lemma RemoveOne(b: Table, j: nat)
    requires j < |b|
    ensures TableSize(b) == TableSize(b[..j] + b[j + 1..]) + |Enc(Str(b[j]))|
  {
    hide TableSize;
    TableSizeSplit(b, j + 1);
    assert b[..j + 1] == b[..j] + [b[j]];
    TableSizeSnoc(b[..j], b[j]);
    var less := b[..j] + b[j + 1..];
    TableSizeSplit(less, j);
    assert less[..j] == b[..j] && less[j..] == b[j + 1..];
  }

  // -------------------------------------------------------------------- own symbols

  /** The row names at least one field with a symbol of the table itself. */
  predicate HasOwnLabel(v: Ion) {
    v.Struct? && exists i :: 0 <= i < |v.fields| && v.fields[i].sym >= SYSTEM_COUNT
  }

  lemma RecodedRow(src: Table, dst: Table, was: Ion, now: Ion)
    requires Recoded(src, dst, was, now) && was.Struct?
    ensures now.Struct? && ResolvesFields(dst, now.fields)
    ensures MeaningFields(dst, now.fields) == MeaningFields(src, was.fields)
  {
    hide WF, Enc, MeaningFields;
    assert Meaning(src, was).StructOf?;
  }

  lemma OwnLabelSurvives(src: Table, dst: Table, was: Ion, now: Ion)
    requires Distinct(src) && HasOwnLabel(was) && Resolves(src, was)
    requires Recoded(src, dst, was, now)
    ensures HasOwnLabel(now) && dst != []
  {
    hide Recoded;
    RecodedRow(src, dst, was, now);
    var i :| 0 <= i < |was.fields| && was.fields[i].sym >= SYSTEM_COUNT;
    assert ResolvesField(src, was.fields[i]);
    OwnLabelStays(src, dst, was.fields, now.fields, i);
  }

  lemma OwnLabelStays(src: Table, dst: Table, was: seq<Field>, now: seq<Field>, i: nat)
    requires Distinct(src) && i < |was| && SYSTEM_COUNT <= was[i].sym < MaxID(src)
    requires ResolvesFields(dst, now) && MeaningFields(dst, now) == MeaningFields(src, was)
    ensures (exists j :: 0 <= j < |now| && now[j].sym >= SYSTEM_COUNT) && dst != []
  {
    hide MeaningFields, Resolves;
    var name := Get(src, was[i].sym);
    MeaningFieldsKeys(src, was, name);
    MeaningFieldsKeys(dst, now, name);
    var j :| 0 <= j < |now| && Get(dst, now[j].sym) == name;
    assert ResolvesField(dst, now[j]);
    assert now[j].sym < SYSTEM_COUNT ==> Get(src, now[j].sym) == name;
  }

  // ----------------------------------------------------------------------- the ranges

  /** `transcode`: the same names under the new table. */
  method Transcode(rs: Resymbolizer, p: Path) returns (q: Path)
    requires rs.Valid() && PathResolves(rs.srctab, p)
    modifies rs`idmap, rs`dsttab
    ensures rs.Valid()
    ensures PathResolves(rs.dsttab.interned, q) && NamesOf(rs.dsttab.interned, q) == NamesOf(rs.srctab, p)
    ensures Grown(rs.srctab, old(rs.dsttab.interned), rs.dsttab.interned, |p|)
  {
    hide Inv, Distinct, CacheSound, Get;
    q := [];
    ghost var start := rs.dsttab.interned;
    for i := 0 to |p|
      invariant rs.Valid() && |q| == i
      invariant Grown(rs.srctab, start, rs.dsttab.interned, i)
      invariant PathResolves(rs.dsttab.interned, q)
      invariant forall j :: 0 <= j < i ==> Get(rs.dsttab.interned, q[j]) == Get(rs.srctab, p[j])
    {
      ghost var before := rs.dsttab.interned;
      var id := rs.GetSymbol(p[i]);
      GrownTrans(rs.srctab, start, before, rs.dsttab.interned, i, 1);
      forall j | 0 <= j < i ensures Get(rs.dsttab.interned, q[j]) == Get(rs.srctab, p[j]) {
        GetExtends(before, rs.dsttab.interned, q[j]);
      }
      q := q + [id];
    }
    assert NamesOf(rs.dsttab.interned, q) == NamesOf(rs.srctab, p);
  }

  /** keys[i] and renamed[i] are the same path under the two tables. */
  predicate SameNames(src: Table, dst: Table, keys: seq<Path>, renamed: seq<Path>) {
    && |keys| == |renamed|
    && forall i :: 0 <= i < |keys| ==>
      && PathResolves(src, keys[i]) && PathResolves(dst, renamed[i])
      && NamesOf(dst, renamed[i]) == NamesOf(src, keys[i])
  }

  lemma SameNamesGrow(src: Table, dst: Table, more: Table, keys: seq<Path>, renamed: seq<Path>)
    requires SameNames(src, dst, keys, renamed) && dst <= more
    ensures SameNames(src, more, keys, renamed)
  {
    forall i | 0 <= i < |keys|
      ensures PathResolves(more, renamed[i]) && NamesOf(more, renamed[i]) == NamesOf(dst, renamed[i])
    {
      NamesExtend(dst, more, renamed[i]);
    }
  }

  lemma RenamedDiffer(src: Table, dst: Table, keys: seq<Path>, renamed: seq<Path>)
    requires SameNames(src, dst, keys, renamed) && Distinct(src)
    requires forall i, j :: 0 <= i < j < |keys| ==> keys[i] != keys[j]
    ensures |keys| == |renamed| && forall i, j :: 0 <= i < j < |keys| ==> renamed[i] != renamed[j]
  {
    hide Distinct, PathResolves, NamesOf;
    forall i, j | 0 <= i < j < |keys| ensures renamed[i] != renamed[j] {
      if NamesOf(src, keys[i]) == NamesOf(src, keys[j]) {
        NamesInjective(src, keys[i], keys[j]);
      }
    }
  }

  /** The loop over the range map, in any order. */
  method TranscodeAll(rs: Resymbolizer, rng: Ranges) returns (keys: seq<Path>, renamed: seq<Path>)
    requires rs.Valid() && rng.Valid() && PathsResolve(rs.srctab, rng.m)
    modifies rs`idmap, rs`dsttab
    ensures rs.Valid() && SameNames(rs.srctab, rs.dsttab.interned, keys, renamed)
    ensures forall p :: p in keys <==> p in rng.m
    ensures forall i, j :: 0 <= i < j < |keys| ==> keys[i] != keys[j]
    ensures old(rs.dsttab.interned) <= rs.dsttab.interned
    ensures forall i :: |old(rs.dsttab.interned)| <= i < |rs.dsttab.interned| ==> rs.dsttab.interned[i] in rs.srctab
  {
    hide Inv, Distinct, CacheSound, SameNames, PathResolves, NamesOf;
    keys, renamed := [], [];
    var left := rng.m.Keys;
    ghost var start := rs.dsttab.interned;
    NothingRenamed(rs.srctab, start);
    while left != {}
      invariant rs.Valid() && SameNames(rs.srctab, rs.dsttab.interned, keys, renamed)
      invariant left <= rng.m.Keys
      invariant forall p :: p in keys <==> p in rng.m && p !in left
      invariant forall i, j :: 0 <= i < j < |keys| ==> keys[i] != keys[j]
      invariant start <= rs.dsttab.interned
      invariant forall i :: |start| <= i < |rs.dsttab.interned| ==> rs.dsttab.interned[i] in rs.srctab
      decreases |left|
    {
      var p :| p in left;
      ghost var before := rs.dsttab.interned;
      var q := Transcode(rs, p);
      OneMoreRenamed(rs.srctab, before, rs.dsttab.interned, keys, renamed, p, q);
      forall i | |start| <= i < |rs.dsttab.interned| ensures rs.dsttab.interned[i] in rs.srctab {
        if i < |before| { assert rs.dsttab.interned[i] == before[i]; }
      }
      keys, renamed := keys + [p], renamed + [q];
      left := left - {p};
    }
  }

  lemma NothingRenamed(src: Table, dst: Table)
    ensures SameNames(src, dst, [], [])
  {
  }

  lemma OneMoreRenamed(src: Table, dst: Table, more: Table, keys: seq<Path>, renamed: seq<Path>, p: Path, q: Path)
    requires SameNames(src, dst, keys, renamed) && dst <= more
    requires PathResolves(src, p) && PathResolves(more, q) && NamesOf(more, q) == NamesOf(src, p)
    ensures SameNames(src, more, keys + [p], renamed + [q])
  {
    hide PathResolves, NamesOf;
    SameNamesGrow(src, dst, more, keys, renamed);
  }

  // ------------------------------------------------------------------- resymbolize

  /** The row at hand and all tracked ranges move to a fresh table that holds only their symbols. */
  method Resymbolize(rng: Ranges, st: Symtab, tail: bytes, ghost v: Ion, ghost rows: seq<RowTimes>, ghost pending: RowTimes)
    returns (buf: bytes, newst: Symtab, ghost now: Ion)
    requires Inv(st) && st.interned != [] && rng.Valid()
    requires tail == Enc(v) && WF(v) && Resolves(st.interned, v) && HasOwnLabel(v)
    requires HasRoom([], |Enc(v)|)
    requires Tracks(st.interned, rng.m, rows, pending)
    modifies rng
    ensures rng.Valid() && Inv(newst)
    ensures buf == Enc(now) && Recoded(st.interned, newst.interned, v, now) && HasOwnLabel(now)
    ensures newst.interned != [] && |newst.interned| <= |st.interned| && TableSize(newst.interned) <= TableSize(st.interned)
    ensures Tracks(newst.interned, rng.m, rows, pending)
  {
    hide Inv, Distinct, CacheSound, SameNames, Tracks, Recoded, TableSize, WF, Resolves, Enc, CloneInto, StackBytes, SegsMatch, HasOwnLabel, PathsResolve;
    DistinctSource(st);
    TracksResolve(st.interned, rng.m, rows, pending);
    var rs := new Resymbolizer(st.interned, EMPTY);
    var dst := new Buffer();
    StackOfNone(dst.base);
    ghost var w;
    var rest;
    assert tail == Enc(v) + [];
    rest, w := rs.Resym(dst, tail, v, []);
    StackOfNone(dst.base);
    ghost var mid := rs.dsttab.interned;
    var keys, renamed := TranscodeAll(rs, rng);
    ghost var tab := rs.dsttab.interned;
    RecodedGrows(st.interned, mid, tab, v, w);
    OwnLabelSurvives(st.interned, tab, v, w);
    DistinctSource(rs.dsttab);
    DistinctHasNoRepeats(tab);
    SubtableSize(tab, st.interned);
    RenamedDiffer(st.interned, tab, keys, renamed);
    ghost var m := rng.m;
    rng.Rename(keys, renamed);
    MovedRanges(st.interned, tab, m, rng.m, keys, renamed, rows, pending);
    CloneKeepsInv(rs.dsttab, st);
    newst := CloneInto(rs.dsttab, st);
    buf, now := dst.buf, w;
  }

  lemma DistinctSource(st: Symtab)
    requires Inv(st)
    ensures Distinct(st.interned)
    ensures Inv(EMPTY) && EMPTY.interned == []
  {
    InvIsDistinct(st);
  }

  lemma TracksResolve(tab: Table, m: map<Path, TimeRange>, rows: seq<RowTimes>, pending: RowTimes)
    requires Tracks(tab, m, rows, pending)
    ensures PathsResolve(tab, m)
  {
  }

  lemma MovedRanges(src: Table, dst: Table, m: map<Path, TimeRange>, c: map<Path, TimeRange>,
                    keys: seq<Path>, renamed: seq<Path>, rows: seq<RowTimes>, pending: RowTimes)
    requires Tracks(src, m, rows, pending) && SameNames(src, dst, keys, renamed)
    requires forall p :: p in keys <==> p in m
    requires forall q :: q in c <==> q in renamed
    requires forall i :: 0 <= i < |keys| ==> c[renamed[i]] == m[keys[i]]
    ensures Tracks(dst, c, rows, pending)
  {
    hide Tracks, PathResolves, NamesOf;
    RenameTracks(src, dst, m, c, keys, renamed, rows, pending);
  }

  lemma CloneKeepsInv(s: Symtab, o: Symtab)
    requires Inv(s) && Inv(o) && o.interned != []
    ensures Inv(CloneInto(s, o)) && CloneInto(s, o).interned == s.interned
  {
    CloneIntoSpec(s, o);
  }
}
