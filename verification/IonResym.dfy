/** `resymbolizer` (ion/datum.go): re-encode a datum for another symbol table, interning the
    symbols it uses there. Labels change, so structs come out in a new field order. */
module IonResym {
  import opened IonCodec
  import opened IonTree
  import opened IonValue
  import opened IonSymtab
  import opened IonScalars
  import opened IonBuffer
  import opened IonRecode

  class Resymbolizer {
    var idmap: seq<nat>     // cache of old to new symbols; 0 is no entry
    var srctab: Table
    var dsttab: Symtab

    /** Cached translations name the same string in both tables. */
    ghost predicate Valid()
      reads this
    {
      && Inv(dsttab)
      && Distinct(srctab)
      && CacheSound(idmap, srctab, dsttab.interned)
    }

    constructor (src: Table, dst: Symtab)
      requires Distinct(src) && Inv(dst)
      ensures Valid() && srctab == src && dsttab == dst
    {
      idmap, srctab, dsttab := [], src, dst;
    }

    /** `reset`: what is remembered afterwards is right for any two tables. */
    method Reset()
      modifies this`idmap
      ensures |idmap| == |old(idmap)| && forall src, dst :: CacheSound(idmap, src, dst)
    {
      idmap := seq(|idmap|, _ => 0);
    }

    /** `get`: the symbol that stands in dsttab for the string sym stands for in srctab. */
    method GetSymbol(sym: nat) returns (id: nat)
      requires Valid() && sym < MaxID(srctab)
      modifies this`idmap, this`dsttab
      ensures Valid() && Grown(srctab, old(dsttab.interned), dsttab.interned, 1)
      ensures id < MaxID(dsttab.interned) && Get(dsttab.interned, id) == Get(srctab, sym)
    {
      hide Inv, Distinct, CacheSound, Get, Intern;
      if sym < |idmap| && idmap[sym] != 0 {
        CacheHit(idmap, srctab, dsttab.interned, sym);
        return idmap[sym];
      }
      if sym >= |idmap| {
        CacheWidened(idmap, srctab, dsttab.interned, sym + 1 - |idmap|);
        idmap := idmap + seq(sym + 1 - |idmap|, _ => 0);
      }
      var s := Get(srctab, sym);
      InternSpec(dsttab, s);
      InternedFromSource(dsttab, srctab, sym);
      var (t, k) := Intern(dsttab, s);
      CacheGrows(idmap, srctab, dsttab.interned, t.interned);
      CacheStored(idmap, srctab, t.interned, sym, k);
      dsttab := t;
      idmap := idmap[sym := k];
      id := k;
    }

    /** `resym`: writes the re-encoding of the datum at the front of buf, returns what follows it.
        now is the tree that was written. */
    method Resym(dst: Buffer, buf: bytes, ghost v: Ion, ghost rest: bytes) returns (r: bytes, ghost now: Ion)
      requires Valid() && dst.Valid() && Ready(dst.frames)
      requires buf == Enc(v) + rest && WF(v) && Resolves(srctab, v)
      requires HasRoom(dsttab.interned, |Enc(v)|)
      modifies this`idmap, this`dsttab, dst
      ensures Valid() && dst.Valid() && r == rest
      ensures Recoded(srctab, dsttab.interned, v, now)
      ensures dst.base == AddBase(old(dst.base), old(dst.frames), now)
      ensures dst.frames == AddFrames(old(dst.frames), now)
      ensures Grown(srctab, old(dsttab.interned), dsttab.interned, |Enc(v)|)
      decreases v, 1
    {
      hide StackBytes, SegsMatch, Enc, WF, Contents, Inv, Distinct, CacheSound, Recoded, AddFrames, Meaning;
      DatumShape(v, rest);
      if TypeOf(buf) == SYMBOL_TYPE {
        r, now := ResymSymbol(dst, buf, v, rest);
      } else if TypeOf(buf) == STRUCT_TYPE {
        r, now := ResymStruct(dst, buf, v, rest);
      } else if TypeOf(buf) == LIST_TYPE {
        r, now := ResymList(dst, buf, v, rest);
      } else if TypeOf(buf) == ANNOTATION_TYPE {
        r, now := ResymAnnotation(dst, buf, v, rest);
      } else {
        RecodedScalar(srctab, dsttab.interned, v);
        var s := ComputeSizeOf(buf);
        dst.UnsafeAppend(buf[..s], v);
        r, now := buf[s..], v;
      }
    }

    method ResymSymbol(dst: Buffer, buf: bytes, ghost v: Ion, ghost rest: bytes) returns (r: bytes, ghost now: Ion)
      requires Valid() && dst.Valid() && Ready(dst.frames)
      requires v.Sym? && buf == Enc(v) + rest && WF(v) && Resolves(srctab, v)
      requires HasRoom(dsttab.interned, |Enc(v)|)
      modifies this`idmap, this`dsttab, dst
      ensures Valid() && dst.Valid() && r == rest
      ensures Recoded(srctab, dsttab.interned, v, now)
      ensures dst.base == AddBase(old(dst.base), old(dst.frames), now)
      ensures dst.frames == AddFrames(old(dst.frames), now)
      ensures Grown(srctab, old(dsttab.interned), dsttab.interned, |Enc(v)|)
    {
      hide StackBytes, SegsMatch, Contents, Inv, Distinct, CacheSound, AddFrames, Tlv, Mag, ReadMag;
      SymbolRoundTrip(v.id, rest);
      EncFraming(v, rest);
      var m := ReadSymbol(buf);
      var id := GetSymbol(m.value.0);
      RecodedSymbol(srctab, dsttab.interned, v.id, id);
      dst.WriteSymbol(id);
      r, now := m.value.1, Sym(id);
    }

    method ResymList(dst: Buffer, buf: bytes, ghost v: Ion, ghost rest: bytes) returns (r: bytes, ghost now: Ion)
      requires Valid() && dst.Valid() && Ready(dst.frames)
      requires v.List? && buf == Enc(v) + rest && WF(v) && Resolves(srctab, v)
      requires HasRoom(dsttab.interned, |Enc(v)|)
      modifies this`idmap, this`dsttab, dst
      ensures Valid() && dst.Valid() && r == rest
      ensures Recoded(srctab, dsttab.interned, v, now)
      ensures dst.base == AddBase(old(dst.base), old(dst.frames), now)
      ensures dst.frames == AddFrames(old(dst.frames), now)
      ensures Grown(srctab, old(dsttab.interned), dsttab.interned, |Enc(v)|)
      decreases v, 0
    {
      hide StackBytes, SegsMatch, Inv, Distinct, CacheSound, Contents, Enc, EncAll, Recoded, AddFrames, Tlv, RecodedAll;
      ghost var below := dst.frames;
      OpenContainer(v, rest);
      dst.BeginList();
      var c := ComputeContents(buf);
      ghost var items := ResymItems(dst, c.value.body, v.items, below);
      RecodedList(srctab, dsttab.interned, v.items, items);
      RecodedIsWF(srctab, dsttab.interned, v, List(items));
      ItemAdded(below, items, v);
      dst.EndList();
      r, now := c.value.rest, List(items);
    }

    method ResymItems(dst: Buffer, buf: bytes, ghost items: seq<Ion>, ghost below: seq<Frame>) returns (ghost now: seq<Ion>)
      requires Valid() && dst.Valid() && dst.frames == below + [ListFrame([])]
      requires buf == EncAll(items) && WFAll(items) && ResolvesAll(srctab, items)
      requires HasRoom(dsttab.interned, |EncAll(items)|)
      modifies this`idmap, this`dsttab, dst
      ensures Valid() && dst.Valid() && dst.base == old(dst.base)
      ensures dst.frames == below + [ListFrame(now)]
      ensures RecodedAll(srctab, dsttab.interned, items, now)
      ensures Grown(srctab, old(dsttab.interned), dsttab.interned, |EncAll(items)|)
      decreases items, 2
    {
      hide StackBytes, SegsMatch, Inv, Distinct, CacheSound, Enc, EncAll, Recoded, AddFrames, Grown, HasRoom, RecodedAll, WF, Resolves;
      var body := buf;
      ghost var start := dsttab.interned;
      ghost var k := 0;
      now := [];
      ItemsStart(srctab, start, items);
      while |body| > 0
        invariant 0 <= k <= |items| && body == EncAll(items[k..])
        invariant Valid() && dst.Valid() && dst.base == old(dst.base)
        invariant dst.frames == below + [ListFrame(now)]
        invariant RecodedAll(srctab, dsttab.interned, items[..k], now)
        invariant Grown(srctab, start, dsttab.interned, |EncAll(items[..k])|)
        invariant HasRoom(dsttab.interned, |EncAll(items[k..])|)
        decreases |items| - k
      {
        ItemsStep(items, k);
        ghost var tab := dsttab.interned;
        LessRoom(tab, |EncAll(items[k..])|, |Enc(items[k])|);
        ItemAdded(below, now, items[k]);
        ghost var w;
        var size := ComputeSizeOf(body);
        var rest;
        rest, w := Resym(dst, body[..size], items[k], []);
        ItemAdded(below, now, w);
        GrownTrans(srctab, start, tab, dsttab.interned, |EncAll(items[..k])|, |Enc(items[k])|);
        RoomAfter(srctab, tab, dsttab.interned, |Enc(items[k])|, |EncAll(items[k + 1..])|);
        GrownIsPrefix(srctab, tab, dsttab.interned, |Enc(items[k])|);
        RecodedItem(srctab, tab, dsttab.interned, items[..k], now, items[k], w);
        body := body[size..];
        now := now + [w];
        k := k + 1;
      }
      ItemsEnd(items, k);
    }

    method ResymStruct(dst: Buffer, buf: bytes, ghost v: Ion, ghost rest: bytes) returns (r: bytes, ghost now: Ion)
      requires Valid() && dst.Valid() && Ready(dst.frames)
      requires v.Struct? && buf == Enc(v) + rest && WF(v) && Resolves(srctab, v)
      requires HasRoom(dsttab.interned, |Enc(v)|)
      modifies this`idmap, this`dsttab, dst
      ensures Valid() && dst.Valid() && r == rest
      ensures Recoded(srctab, dsttab.interned, v, now)
      ensures dst.base == AddBase(old(dst.base), old(dst.frames), now)
      ensures dst.frames == AddFrames(old(dst.frames), now)
      ensures Grown(srctab, old(dsttab.interned), dsttab.interned, |Enc(v)|)
      decreases v, 0
    {
      hide StackBytes, SegsMatch, Inv, Distinct, CacheSound, Contents, Enc, EncFields, Recoded, AddFrames, Tlv, RecodedFields;
      ghost var below := dst.frames;
      OpenContainer(v, rest);
      dst.BeginStruct();
      var c := ComputeContents(buf);
      ghost var fields := ResymFields(dst, c.value.body, v.fields, below);
      RecodedStruct(srctab, dsttab.interned, v.fields, fields);
      RecodedIsWF(srctab, dsttab.interned, v, Struct(fields));
      LabelAdded(below, fields, 0);
      dst.EndStruct();
      r, now := c.value.rest, Struct(fields);
    }

    method ResymFields(dst: Buffer, buf: bytes, ghost fields: seq<Field>, ghost below: seq<Frame>) returns (ghost now: seq<Field>)
      requires Valid() && dst.Valid() && dst.frames == below + [StructFrame([], None)]
      requires buf == EncFields(fields) && Sorted(fields) && WFFields(fields) && ResolvesFields(srctab, fields)
      requires HasRoom(dsttab.interned, |EncFields(fields)|)
      modifies this`idmap, this`dsttab, dst
      ensures Valid() && dst.Valid() && dst.base == old(dst.base)
      ensures dst.frames == below + [StructFrame(now, None)]
      ensures RecodedFields(srctab, dsttab.interned, fields, now)
      ensures Grown(srctab, old(dsttab.interned), dsttab.interned, |EncFields(fields)|)
      decreases fields, 3
    {
      hide StackBytes, SegsMatch, Inv, Distinct, CacheSound, EncField, EncFields, Recoded, InsertField, Grown, HasRoom, RecodedFields, Sorted, WFFields, ResolvesFields, MeaningFields;
      var body := buf;
      ghost var start := dsttab.interned;
      ghost var k := 0;
      now := [];
      FieldsStart(srctab, start, fields);
      while |body| > 0
        invariant 0 <= k <= |fields| && body == EncFields(fields[k..])
        invariant Valid() && dst.Valid() && dst.base == old(dst.base)
        invariant dst.frames == below + [StructFrame(now, None)]
        invariant RecodedFields(srctab, dsttab.interned, fields[..k], now)
        invariant Grown(srctab, start, dsttab.interned, |EncFields(fields[..k])|)
        invariant HasRoom(dsttab.interned, |EncFields(fields[k..])|)
        decreases |fields| - k
      {
        FieldsStep(srctab, fields, k);
        NextNameIsNew(srctab, fields, k);
        ghost var tab := dsttab.interned;
        LessRoom(tab, |EncFields(fields[k..])|, |EncField(fields[k])|);
        ghost var id, w;
        body, id, w := ResymField(dst, body, fields[k], EncFields(fields[k + 1..]), below, now);
        GrownTrans(srctab, start, tab, dsttab.interned, |EncFields(fields[..k])|, |EncField(fields[k])|);
        RoomAfter(srctab, tab, dsttab.interned, |EncField(fields[k])|, |EncFields(fields[k + 1..])|);
        GrownIsPrefix(srctab, tab, dsttab.interned, |EncField(fields[k])|);
        RecodedField(srctab, tab, dsttab.interned, fields[..k], now, fields[k], id, w);
        now := InsertField(now, Field(id, w));
        k := k + 1;
      }
      FieldsEnd(fields, k);
    }

    method ResymField(dst: Buffer, buf: bytes, ghost f: Field, ghost tail: bytes, ghost below: seq<Frame>, ghost sofar: seq<Field>)
      returns (r: bytes, ghost id: nat, ghost w: Ion)
      requires Valid() && dst.Valid() && dst.frames == below + [StructFrame(sofar, None)]
      requires buf == EncField(f) + tail && WFField(f) && ResolvesField(srctab, f)
      requires HasRoom(dsttab.interned, |EncField(f)|)
      modifies this`idmap, this`dsttab, dst
      ensures Valid() && dst.Valid() && dst.base == old(dst.base) && r == tail
      ensures dst.frames == below + [StructFrame(InsertField(sofar, Field(id, w)), None)]
      ensures id < MaxID(dsttab.interned) && id < SYMBOL_LIMIT && Get(dsttab.interned, id) == Get(srctab, f.sym)
      ensures Recoded(srctab, dsttab.interned, f.val, w)
      ensures Grown(srctab, old(dsttab.interned), dsttab.interned, |EncField(f)|)
      decreases f, 2
    {
      hide StackBytes, SegsMatch, Inv, Distinct, CacheSound, Enc, Uv, ReadUv, Recoded, InsertField, AddFrames, WithLabel, AwaitsLabel, WF, Resolves;
      FieldShape(f, tail);
      ghost var start := dsttab.interned;
      var u := ScanUv(buf);
      var body := buf[u.used..];
      var k := GetSymbol(u.value);
      ghost var tab := dsttab.interned;
      LabelAdded(below, sofar, k);
      dst.BeginField(k);
      var size := ComputeSizeOf(body);
      FieldAdded(below, sofar, k, f.val);
      var rest;
      rest, w := Resym(dst, body[..size], f.val, []);
      FieldAdded(below, sofar, k, w);
      GrownTrans(srctab, start, tab, dsttab.interned, 1, |Enc(f.val)|);
      GetExtends(tab, dsttab.interned, k);
      r, id := body[size..], k;
    }

    method ResymAnnotation(dst: Buffer, buf: bytes, ghost v: Ion, ghost rest: bytes) returns (r: bytes, ghost now: Ion)
      requires Valid() && dst.Valid() && Ready(dst.frames)
      requires v.Annot? && buf == Enc(v) + rest && WF(v) && Resolves(srctab, v)
      requires HasRoom(dsttab.interned, |Enc(v)|)
      modifies this`idmap, this`dsttab, dst
      ensures Valid() && dst.Valid() && r == rest
      ensures Recoded(srctab, dsttab.interned, v, now)
      ensures dst.base == AddBase(old(dst.base), old(dst.frames), now)
      ensures dst.frames == AddFrames(old(dst.frames), now)
      ensures Grown(srctab, old(dsttab.interned), dsttab.interned, |Enc(v)|)
      decreases v, 0
    {
      hide StackBytes, SegsMatch, Inv, Distinct, CacheSound, Contents, Enc, Uv, ReadUv, Recoded, Tlv;
      ghost var below := dst.frames;
      ghost var start := dsttab.interned;
      OpenContainer(v, rest);
      AnnotationShape(v);
      var c := ComputeContents(buf);
      var n := ScanUv(c.value.body);
      var after := c.value.body[n.used..];
      var u := ScanUv(after);
      dst.BeginAnnotation();
      var k := GetSymbol(u.value);
      dst.BeginField(k);
      ghost var tab := dsttab.interned;
      ghost var w;
      var none;
      assert dst.frames[..|dst.frames| - 1] == below;
      none, w := Resym(dst, after[u.used..], v.val, []);
      assert dst.frames[..|dst.frames| - 1] == below;
      GrownTrans(srctab, start, tab, dsttab.interned, 1, |Enc(v.val)|);
      GetExtends(tab, dsttab.interned, k);
      RecodedAnnot(srctab, dsttab.interned, v.sym, k, v.val, w);
      RecodedIsWF(srctab, dsttab.interned, v, Annot(k, w));
      dst.EndAnnotation();
      r, now := c.value.rest, Annot(k, w);
    }
  }

  predicate CacheSound(idmap: seq<nat>, src: Table, dst: Table) {
    forall i :: 0 <= i < |idmap| && idmap[i] != 0 ==>
      i < MaxID(src) && idmap[i] < MaxID(dst) && Get(dst, idmap[i]) == Get(src, i)
  }

  /** Forgetting everything is always safe. */
  lemma CacheForgets(n: nat, src: Table, dst: Table)
    ensures CacheSound(seq(n, _ => 0), src, dst)
  {
  }

  lemma CacheHit(idmap: seq<nat>, src: Table, dst: Table, sym: nat)
    requires CacheSound(idmap, src, dst) && sym < |idmap| && idmap[sym] != 0
    ensures idmap[sym] < MaxID(dst) && Get(dst, idmap[sym]) == Get(src, sym) && Grown(src, dst, dst, 1)
  {
  }

  lemma CacheWidened(idmap: seq<nat>, src: Table, dst: Table, n: nat)
    requires CacheSound(idmap, src, dst)
    ensures CacheSound(idmap + seq(n, _ => 0), src, dst)
  {
  }

  lemma CacheStored(idmap: seq<nat>, src: Table, dst: Table, sym: nat, k: nat)
    requires CacheSound(idmap, src, dst) && sym < |idmap| && sym < MaxID(src)
    requires k < MaxID(dst) && Get(dst, k) == Get(src, sym)
    ensures CacheSound(idmap[sym := k], src, dst)
  {
  }

  lemma CacheFollows(idmap: seq<nat>, src: Table, more: Table, dst: Table)
    requires CacheSound(idmap, src, dst) && src <= more
    ensures CacheSound(idmap, more, dst)
  {
  }

  lemma CacheGrows(idmap: seq<nat>, src: Table, dst: Table, more: Table)
    requires CacheSound(idmap, src, dst) && dst <= more
    ensures CacheSound(idmap, src, more)
  {
  }

  /** The destination grew by at most n strings, all of them strings of the source table. */
  predicate Grown(src: Table, before: Table, after: Table, n: nat) {
    && before <= after
    && |after| <= |before| + n
    && forall i :: |before| <= i < |after| ==> after[i] in src
  }

  predicate HasRoom(dst: Table, n: nat) {
    MaxID(dst) + n < SYMBOL_LIMIT && 5 * n < UV_LIMIT
  }

  lemma InternedFromSource(dst: Symtab, src: Table, sym: nat)
    requires Inv(dst) && sym < MaxID(src)
    ensures Grown(src, dst.interned, Intern(dst, Get(src, sym)).0.interned, 1)
  {
    var s := Get(src, sym);
    InternSpec(dst, s);
    if sym < SYSTEM_COUNT {
      SymbolizeSpec(dst, s);
      assert Get(dst.interned, sym) == s;
    } else {
      assert s in src;
    }
  }

  lemma GrownTrans(src: Table, a: Table, b: Table, c: Table, n: nat, m: nat)
    requires Grown(src, a, b, n) && Grown(src, b, c, m)
    ensures Grown(src, a, c, n + m)
  {
    forall i | |a| <= i < |c| ensures c[i] in src {
      if i < |b| { assert c[i] == b[i]; }
    }
  }

  lemma GrownIsPrefix(src: Table, a: Table, b: Table, n: nat)
    requires Grown(src, a, b, n)
    ensures a <= b
  {
  }

  lemma LessRoom(dst: Table, n: nat, m: nat)
    requires HasRoom(dst, n) && m <= n
    ensures HasRoom(dst, m)
  {
  }

  lemma RoomAfter(src: Table, a: Table, b: Table, used: nat, left: nat)
    requires HasRoom(a, used + left) && Grown(src, a, b, used)
    ensures HasRoom(b, left)
  {
  }

  // ----------------------------------------------------------------- shapes in bytes

  /** The type nibble tells the cases of a well-formed datum apart. */
  lemma DatumShape(v: Ion, rest: bytes)
    requires WF(v)
    ensures var buf := Enc(v) + rest;
      && |buf| > 0 && SizeOf(buf) == |Enc(v)|
      && buf[..|Enc(v)|] == Enc(v) && buf[|Enc(v)|..] == rest
      && (TypeOf(buf) == SYMBOL_TYPE <==> v.Sym?)
      && (TypeOf(buf) == STRING_TYPE <==> v.Str?)
      && (TypeOf(buf) == STRUCT_TYPE <==> v.Struct?)
      && (TypeOf(buf) == LIST_TYPE <==> v.List?)
      && (TypeOf(buf) == ANNOTATION_TYPE <==> v.Annot?)
  {
    hide SizeOf, Body, Tlv;
    EncFraming(v, rest);
    if v.Atom? {
      AtomType(v.raw);
    } else {
      TlvType(Tag(v), Body(v), rest);
    }
  }

  lemma AtomType(raw: bytes)
    requires IsAtom(raw)
    ensures TypeOf(raw) !in {SYMBOL_TYPE, STRING_TYPE, STRUCT_TYPE, LIST_TYPE, ANNOTATION_TYPE}
  {
  }

  lemma TlvType(tag: nat, body: bytes, rest: bytes)
    requires tag < 16
    ensures TypeOf(Tlv(tag, body) + rest) == tag
  {
  }

  lemma OpenContainer(v: Ion, rest: bytes)
    requires WF(v) && !v.Atom?
    ensures Contents(Enc(v) + rest) == Some(Split(Body(v), rest))
    ensures |Body(v)| < |Enc(v)|
  {
    BodyFits(v);
    TlvFraming(Tag(v), Body(v), rest);
  }

  lemma AnnotationShape(v: Ion)
    requires v.Annot? && WF(v)
    ensures var body := Body(v);
      && ReadUv(body) == UvOk(1, |Uv(1)|)
      && ReadUv(body[|Uv(1)|..]) == UvOk(v.sym, |Uv(v.sym)|)
      && body[|Uv(1)|..][|Uv(v.sym)|..] == Enc(v.val) + []
      && |body| >= 2 + |Enc(v.val)|
  {
    hide Uv, ReadUv, Enc;
    var body := Uv(1) + Uv(v.sym) + Enc(v.val);
    assert body == Uv(1) + (Uv(v.sym) + Enc(v.val));
    UvRoundTrip(1, Uv(v.sym) + Enc(v.val));
    UvRoundTrip(v.sym, Enc(v.val));
  }

  lemma FieldShape(f: Field, tail: bytes)
    requires WFField(f)
    ensures var buf := EncField(f) + tail;
      var used := |Uv(f.sym)|;
      && ReadUv(buf) == UvOk(f.sym, used)
      && buf[used..] == Enc(f.val) + tail
      && SizeOf(buf[used..]) == |Enc(f.val)|
      && buf[used..][..|Enc(f.val)|] == Enc(f.val) + []
      && buf[used..][|Enc(f.val)|..] == tail
      && |EncField(f)| >= 1 + |Enc(f.val)|
  {
    hide Uv, ReadUv, Enc, SizeOf;
    assert EncField(f) + tail == Uv(f.sym) + (Enc(f.val) + tail);
    UvRoundTrip(f.sym, Enc(f.val) + tail);
    EncFraming(f.val, tail);
  }

  lemma ItemsStep(items: seq<Ion>, k: nat)
    requires WFAll(items) && k <= |items| && |EncAll(items[k..])| > 0
    ensures k < |items| && WF(items[k])
    ensures SizeOf(EncAll(items[k..])) == |Enc(items[k])| <= |EncAll(items[k..])|
    ensures EncAll(items[k..])[..|Enc(items[k])|] == Enc(items[k]) + []
    ensures EncAll(items[k..])[|Enc(items[k])|..] == EncAll(items[k + 1..])
    ensures |EncAll(items[..k + 1])| == |EncAll(items[..k])| + |Enc(items[k])|
    ensures |EncAll(items[k..])| == |Enc(items[k])| + |EncAll(items[k + 1..])|
    ensures items[..k + 1] == items[..k] + [items[k]]
  {
    assert items[k..] != [];
    assert items[k..][0] == items[k] && items[k..][1..] == items[k + 1..];
    assert items[..k + 1] == items[..k] + [items[k]];
    EncFraming(items[k], EncAll(items[k + 1..]));
    EncAllSnoc(items[..k], items[k]);
  }

  lemma ItemsStart(src: Table, dst: Table, items: seq<Ion>)
    ensures items[0..] == items && items[..0] == []
    ensures EncAll(items[..0]) == []
    ensures RecodedAll(src, dst, items[..0], [])
    ensures Grown(src, dst, dst, 0)
  {
  }

  lemma ItemsEnd(items: seq<Ion>, k: nat)
    requires k <= |items| && |EncAll(items[k..])| == 0 && WFAll(items)
    ensures items[..k] == items
  {
    hide EncAll;
    if k < |items| {
      EncAllNonEmpty(items[k..]);
    }
  }

  lemma EncAllNonEmpty(items: seq<Ion>)
    requires items != [] && WFAll(items)
    ensures |EncAll(items)| > 0
  {
    EncFraming(items[0], []);
  }

  lemma FieldsStep(src: Table, fields: seq<Field>, k: nat)
    requires WFFields(fields) && ResolvesFields(src, fields) && k <= |fields| && |EncFields(fields[k..])| > 0
    ensures k < |fields| && WFField(fields[k]) && ResolvesField(src, fields[k])
    ensures EncFields(fields[k..]) == EncField(fields[k]) + EncFields(fields[k + 1..])
    ensures |EncFields(fields[..k + 1])| == |EncFields(fields[..k])| + |EncField(fields[k])|
    ensures fields[..k + 1] == fields[..k] + [fields[k]]
  {
    hide EncField;
    assert fields[k..] != [];
    assert fields[k..][0] == fields[k] && fields[k..][1..] == fields[k + 1..];
    assert fields[..k + 1] == fields[..k] + [fields[k]];
    EncFieldsSnoc(fields[..k], fields[k]);
  }

  lemma FieldsStart(src: Table, dst: Table, fields: seq<Field>)
    ensures fields[0..] == fields && fields[..0] == []
    ensures EncFields(fields[..0]) == []
    ensures RecodedFields(src, dst, fields[..0], [])
    ensures Grown(src, dst, dst, 0)
  {
  }

  lemma FieldsEnd(fields: seq<Field>, k: nat)
    requires k <= |fields| && |EncFields(fields[k..])| == 0
    ensures fields[..k] == fields
  {
    if k < |fields| {
      EncFieldsNonEmpty(fields[k..]);
    }
  }

  // ------------------------------------------------------------------- small recodings

  lemma RecodedScalar(src: Table, dst: Table, v: Ion)
    requires WF(v) && (v.Atom? || v.Str?)
    ensures Recoded(src, dst, v, v)
  {
    EncFraming(v, []);
  }

  lemma RecodedSymbol(src: Table, dst: Table, sym: nat, id: nat)
    requires id < SYMBOL_LIMIT && id < MaxID(dst) && Get(dst, id) == Get(src, sym)
    ensures Recoded(src, dst, Sym(sym), Sym(id))
  {
    SymbolSize(id);
  }

  lemma RecodedIsWF(src: Table, dst: Table, was: Ion, now: Ion)
    requires Recoded(src, dst, was, now)
    ensures WF(now)
  {
  }
}
