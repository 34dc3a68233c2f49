/** Ion data as trees: how a tree is laid out in bytes (`Enc`), how the package's
    readers take it apart again (`Dec`), and when a tree is well formed. */
module IonTree {
  import opened IonCodec

  /** Atom is any scalar that re-encoding copies verbatim (null, bool, numbers,
      timestamps, blobs); its raw bytes include the header. */
  datatype Ion =
    | Atom(raw: bytes)
    | Sym(id: nat)
    | Str(text: bytes)
    | List(items: seq<Ion>)
    | Struct(fields: seq<Field>)
    | Annot(sym: nat, val: Ion)

  datatype Field = Field(sym: nat, val: Ion)

  function Tag(v: Ion): (t: nat)
    requires !v.Atom?
    ensures t < 16 && t != BOOL_TYPE
  {
    match v
    case Sym(_) => SYMBOL_TYPE
    case Str(_) => STRING_TYPE
    case List(_) => LIST_TYPE
    case Struct(_) => STRUCT_TYPE
    case Annot(_, _) => ANNOTATION_TYPE
  }

  function Body(v: Ion): bytes
    requires !v.Atom?
    decreases v, 0
  {
    match v
    case Sym(id) => Mag(id)
    case Str(text) => text
    case List(items) => EncAll(items)
    case Struct(fields) => EncFields(fields)
    case Annot(sym, val) => Uv(1) + Uv(sym) + Enc(val)
  }

  function Enc(v: Ion): bytes
    decreases v, 1
  {
    if v.Atom? then v.raw else Tlv(Tag(v), Body(v))
  }

  function EncAll(items: seq<Ion>): bytes
    decreases items, 2
  {
    if items == [] then [] else Enc(items[0]) + EncAll(items[1..])
  }

  function EncField(f: Field): (r: bytes)
    ensures |r| >= 1
    decreases f, 2
  {
    Uv(f.sym) + Enc(f.val)
  }

  function EncFields(fields: seq<Field>): bytes
    decreases fields, 3
  {
    if fields == [] then [] else EncField(fields[0]) + EncFields(fields[1..])
  }

  lemma EncStruct(fields: seq<Field>)
    ensures Enc(Struct(fields)) == Tlv(STRUCT_TYPE, EncFields(fields))
  {
  }

  lemma EncList(items: seq<Ion>)
    ensures Enc(List(items)) == Tlv(LIST_TYPE, EncAll(items))
  {
  }

  // ------------------------------------------------------------ well-formedness

  predicate IsAtom(raw: bytes) {
    && |raw| > 0
    && SizeOf(raw) == |raw|
    && (TypeOf(raw) in {1, 2, 3, 4, 5, 6, 9, 10} || raw == [0x0f])
  }

  predicate Sorted(fields: seq<Field>) {
    forall i, j :: 0 <= i < j < |fields| ==> fields[i].sym < fields[j].sym
  }

  const SYMBOL_LIMIT: nat := 0x1_0000_0000  // ReadSymbol takes at most four bytes

  predicate WF(v: Ion)
    decreases v, 0
  {
    match v
    case Atom(raw) => IsAtom(raw)
    case Sym(id) => id < SYMBOL_LIMIT
    case Str(text) => |text| < UV_LIMIT
    case List(items) => WFAll(items) && |EncAll(items)| < UV_LIMIT
    case Struct(fields) => WFFields(fields) && Sorted(fields) && |EncFields(fields)| < UV_LIMIT
    case Annot(sym, val) => sym < UV_LIMIT && WF(val) && |Body(v)| < UV_LIMIT
  }

  predicate WFAll(items: seq<Ion>)
    decreases items, 1
  {
    forall i :: 0 <= i < |items| ==> WF(items[i])
  }

  predicate WFField(f: Field)
    decreases f, 1
  {
    f.sym < UV_LIMIT && WF(f.val)
  }

  predicate WFFields(fields: seq<Field>)
    decreases fields, 2
  {
    forall i :: 0 <= i < |fields| ==> WFField(fields[i])
  }

  // -------------------------------------------------------------- append lemmas

  lemma {:induction false} EncAllAppend(a: seq<Ion>, b: seq<Ion>)
    ensures EncAll(a + b) == EncAll(a) + EncAll(b)
  {
    if a == [] {
      assert a + b == b;
    } else {
      assert (a + b)[1..] == a[1..] + b;
      EncAllAppend(a[1..], b);
    }
  }

  lemma EncAllSnoc(a: seq<Ion>, v: Ion)
    ensures EncAll(a + [v]) == EncAll(a) + Enc(v)
  {
    EncAllAppend(a, [v]);
    assert [v][1..] == [];
    assert EncAll([v]) == Enc(v);
  }

  lemma {:induction false} EncFieldsAppend(a: seq<Field>, b: seq<Field>)
    ensures EncFields(a + b) == EncFields(a) + EncFields(b)
  {
    if a == [] {
      assert a + b == b;
    } else {
      assert (a + b)[1..] == a[1..] + b;
      EncFieldsAppend(a[1..], b);
    }
  }

  lemma EncFieldsSnoc(a: seq<Field>, f: Field)
    ensures EncFields(a + [f]) == EncFields(a) + EncField(f)
  {
    EncFieldsAppend(a, [f]);
    assert [f][1..] == [];
    assert EncFields([f]) == EncField(f);
  }

  // -------------------------------------------------------------------- framing

  lemma {:induction false} ReadUvIgnoresTail(s: bytes, rest: bytes, i: nat, acc: nat)
    requires i <= |s| && ReadUvFrom(s, i, acc).UvOk?
    ensures ReadUvFrom(s + rest, i, acc) == ReadUvFrom(s, i, acc)
    decreases |s| - i
  {
    if s[i] < 128 {
      ReadUvIgnoresTail(s, rest, i + 1, acc * 128 + s[i] % 128);
    }
  }

  lemma SizeOfIgnoresTail(s: bytes, rest: bytes)
    requires SizeOf(s) != -1
    ensures SizeOf(s + rest) == SizeOf(s)
  {
    if s[0] != 0x11 && s[0] % 16 == 14 {
      ReadUvIgnoresTail(s[1..], rest, 0, 0);
      assert (s + rest)[1..] == s[1..] + rest;
    }
  }

  lemma SymbolFits(id: nat)
    requires id < SYMBOL_LIMIT
    ensures |Mag(id)| <= 4
  {
    assert Pow256(4) == SYMBOL_LIMIT;
    MagLength(id, 4);
  }

  /** SizeOf delimits every well-formed value, whatever follows it. */
  lemma EncFraming(v: Ion, rest: bytes)
    requires WF(v)
    ensures |Enc(v)| > 0
    ensures SizeOf(Enc(v) + rest) == |Enc(v)|
    ensures TypeOf(Enc(v) + rest) == TypeOf(Enc(v)) != NULL_TYPE || Enc(v) == [0x0f]
    ensures (Enc(v) + rest)[|Enc(v)|..] == rest
    ensures (Enc(v) + rest)[..|Enc(v)|] == Enc(v)
  {
    if v.Atom? {
      SizeOfIgnoresTail(v.raw, rest);
    } else {
      BodyFits(v);
      TlvFraming(Tag(v), Body(v), rest);
    }
  }

  lemma BodyFits(v: Ion)
    requires WF(v) && !v.Atom?
    ensures |Body(v)| < UV_LIMIT
  {
    if v.Sym? { SymbolFits(v.id); }
  }

  // ------------------------------------------------------------------- decoding

  /** Reads one datum the way ReadDatum, UnpackList, UnpackStruct and ReadAnnotation do. */
  function Dec(msg: bytes): (r: Option<(Ion, bytes)>)
    ensures r.Some? ==> |r.value.1| < |msg|
    decreases |msg|, 0
  {
    if |msg| == 0 then None
    else if TypeOf(msg) in {SYMBOL_TYPE, STRING_TYPE, LIST_TYPE, STRUCT_TYPE, ANNOTATION_TYPE} then
      match Contents(msg)
      case None => None
      case Some(Split(body, rest)) =>
        match DecBody(TypeOf(msg), body)
        case None => None
        case Some(v) => Some((v, rest))
    else
      var n := SizeOf(msg);
      if 0 < n <= |msg| && IsAtom(msg[..n]) then Some((Atom(msg[..n]), msg[n..])) else None
  }

  function DecBody(tag: nat, body: bytes): Option<Ion>
    decreases |body|, 3
  {
    if tag == SYMBOL_TYPE then
      if |body| <= 4 then Some(Sym(ReadMag(body))) else None
    else if tag == STRING_TYPE then Some(Str(body))
    else if tag == LIST_TYPE then
      match DecAll(body)
      case None => None
      case Some(items) => Some(List(items))
    else if tag == STRUCT_TYPE then
      match DecFields(body)
      case None => None
      case Some(fields) => Some(Struct(fields))
    else
      match ReadUv(body)
      case UvBad => None
      case UvOk(labels, used) =>
        if labels != 1 then None
        else match ReadUv(body[used..])
          case UvBad => None
          case UvOk(sym, used') =>
            match Dec(body[used + used'..])
            case Some((v, rest)) => if rest == [] then Some(Annot(sym, v)) else None
            case None => None
  }

  function DecAll(body: bytes): Option<seq<Ion>>
    decreases |body|, 1
  {
    if body == [] then Some([])
    else match Dec(body)
      case None => None
      case Some((v, rest)) =>
        match DecAll(rest)
        case None => None
        case Some(items) => Some([v] + items)
  }

  function DecFields(body: bytes): Option<seq<Field>>
    decreases |body|, 1
  {
    if body == [] then Some([])
    else match ReadUv(body)
      case UvBad => None
      case UvOk(sym, used) =>
        match Dec(body[used..])
        case None => None
        case Some((v, rest)) =>
          match DecFields(rest)
          case None => None
          case Some(fields) => Some([Field(sym, v)] + fields)
  }

  /** Decoding undoes encoding and leaves what follows untouched. */
  lemma {:induction false} DecEnc(v: Ion, rest: bytes)
    requires WF(v)
    ensures Dec(Enc(v) + rest) == Some((v, rest))
    decreases v, 1
  {
    EncFraming(v, rest);
    if !v.Atom? {
      BodyFits(v);
      TlvFraming(Tag(v), Body(v), rest);
      DecEncBody(v);
    }
  }

  lemma {:induction false} DecEncBody(v: Ion)
    requires WF(v) && !v.Atom?
    ensures DecBody(Tag(v), Body(v)) == Some(v)
    decreases v, 0
  {
    match v
    case Sym(id) => SymbolFits(id); MagRoundTrip(id);
    case Str(text) =>
    case List(items) => DecEncAll(items);
    case Struct(fields) => DecEncFields(fields);
    case Annot(sym, val) => DecEncAnnot(sym, val);
  }

  lemma {:induction false} DecEncAnnot(sym: nat, val: Ion)
    requires sym < UV_LIMIT && WF(val)
    ensures DecBody(ANNOTATION_TYPE, Uv(1) + Uv(sym) + Enc(val)) == Some(Annot(sym, val))
    decreases val, 2
  {
    hide Enc, Uv, ReadUv, Dec, DecAll, DecFields;
    var body := Uv(1) + Uv(sym) + Enc(val);
    assert body == Uv(1) + (Uv(sym) + Enc(val));
    UvRoundTrip(1, Uv(sym) + Enc(val));
    UvRoundTrip(sym, Enc(val));
    assert body[|Uv(1)| + |Uv(sym)|..] == Enc(val) + [];
    DecEnc(val, []);
  }

  lemma {:induction false} DecEncAll(items: seq<Ion>)
    requires WFAll(items)
    ensures DecAll(EncAll(items)) == Some(items)
    decreases items, 2
  {
    if items != [] {
      EncFraming(items[0], EncAll(items[1..]));
      hide Dec, Enc;
      DecEnc(items[0], EncAll(items[1..]));
      DecEncAll(items[1..]);
      assert items == [items[0]] + items[1..];
    }
  }

  lemma {:induction false} DecEncField(f: Field, tail: bytes)
    requires WFField(f)
    ensures ReadUv(EncField(f) + tail) == UvOk(f.sym, |Uv(f.sym)|)
    ensures Dec((EncField(f) + tail)[|Uv(f.sym)|..]) == Some((f.val, tail))
    decreases f, 2
  {
    assert EncField(f) + tail == Uv(f.sym) + (Enc(f.val) + tail);
    UvRoundTrip(f.sym, Enc(f.val) + tail);
    DecEnc(f.val, tail);
  }

  lemma {:induction false} DecEncFields(fields: seq<Field>)
    requires WFFields(fields)
    ensures DecFields(EncFields(fields)) == Some(fields)
    decreases fields, 3
  {
    hide Dec, EncField, ReadUv;
    if fields != [] {
      DecEncField(fields[0], EncFields(fields[1..]));
      DecEncFields(fields[1..]);
      assert fields == [fields[0]] + fields[1..];
    }
  }
}
