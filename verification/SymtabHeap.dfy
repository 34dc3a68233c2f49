/** `Symtab` storage: stores and snapshots share backing arrays; a table copies before it
    writes below its `aliased` mark (`append`, `set`, `alias`, `CloneInto`). */
module SymtabHeap {
  import opened IonCodec
  import opened IonValue
  import S = IonSymtab

  /** A slice handed out by `alias`, with what it showed at that time. */
  datatype Snap = Snap(arr: array<bytes>, n: nat, shown: Table)

  /** The stores and snapshots that may share arrays: whoever can still write into an array
      keeps below the part that others can see. */
  ghost predicate Shared(stores: set<Store>, snaps: set<Snap>)
    reads stores, set t | t in stores :: t.arr, set s | s in snaps :: s.arr
  {
    && (forall t :: t in stores ==> t.len <= t.cap <= t.arr.Length)
    && (forall t, u :: t in stores && u in stores && t != u && t.arr == u.arr && t.aliased < t.cap ==> u.cap <= t.aliased)
    && (forall t, s :: t in stores && s in snaps && t.arr == s.arr && t.aliased < t.cap ==> s.n <= t.aliased)
    && (forall s :: s in snaps ==> s.n <= s.arr.Length && s.arr[..s.n] == s.shown)
  }

  lemma InBounds(t: Store, stores: set<Store>, snaps: set<Snap>)
    requires Shared(stores, snaps) && t in stores
    ensures t.len <= t.cap <= t.arr.Length
  {
  }

  class Store {
    var arr: array<bytes>    // interned = arr[..len], with room up to cap
    var len: nat
    var cap: nat
    var aliased: nat
    constructor ()
      ensures fresh(arr) && len == cap == aliased == 0 && arr.Length == 0
    {
      arr := new bytes[0];
      len, cap, aliased := 0, 0, 0;
    }

    /** A private copy with room for n strings; the allocator may leave room for more. */
    method Reallocate(n: nat, slack: nat, ghost stores: set<Store>, ghost snaps: set<Snap>)
      requires Shared(stores, snaps) && this in stores && len <= n
      modifies this`arr, this`cap, this`aliased
      ensures Shared(stores, snaps)
      ensures fresh(arr) && arr.Length == cap == n + slack && aliased == 0
      ensures arr[..len] == old(arr[..len])
    {
      var was := arr[..len];
      arr := new bytes[n + slack](i => if 0 <= i < |was| then was[i] else []);
      cap, aliased := n + slack, 0;
    }

    /** `set`: never writes where somebody else can look. */
    method Set(i: nat, v: bytes, slack: nat, ghost stores: set<Store>, ghost snaps: set<Snap>)
      requires Shared(stores, snaps) && this in stores && i < len
      modifies this`arr, this`cap, this`aliased, arr
      ensures Shared(stores, snaps) && arr[..len] == old(arr[..len])[i := v]
      ensures arr == old(arr) || fresh(arr)
      ensures forall u :: u in stores && u != this ==> u.arr[..u.len] == old(u.arr[..u.len])
    {
      if arr[i] != v {
        if i < aliased {
          Reallocate(len, slack, stores, snaps);
        }
        Write(i, v, stores, snaps);
      }
    }

    /** Above the mark nobody else looks. */
    method Write(i: nat, v: bytes, ghost stores: set<Store>, ghost snaps: set<Snap>)
      requires Shared(stores, snaps) && this in stores && aliased <= i < cap
      modifies arr
      ensures Shared(stores, snaps) && arr[..] == old(arr[..])[i := v]
      ensures forall u :: u in stores && u != this ==> u.arr[..u.len] == old(u.arr[..u.len])
    {
      arr[i] := v;
    }

    /** Reslicing within the capacity. */
    method Reslice(n: nat, ghost stores: set<Store>, ghost snaps: set<Snap>)
      requires Shared(stores, snaps) && this in stores && n <= cap
      modifies this`len
      ensures Shared(stores, snaps) && len == n <= arr.Length
    {
      len := n;
    }

    /** `append`. */
    method Append(v: bytes, slack: nat, ghost stores: set<Store>, ghost snaps: set<Snap>)
      requires Shared(stores, snaps) && this in stores
      modifies this`arr, this`len, this`cap, this`aliased, arr
      ensures Shared(stores, snaps) && len == old(len) + 1 <= arr.Length && arr[..len] == old(arr[..len]) + [v]
      ensures arr == old(arr) || fresh(arr)
      ensures forall u :: u in stores && u != this ==> u.arr[..u.len] == old(u.arr[..u.len])
    {
      InBounds(this, stores, snaps);
      hide Shared;
      ghost var was := arr[..len];
      if len < cap {
        Reslice(len + 1, stores, snaps);
        Set(len - 1, v, slack, stores, snaps);
      } else {
        Reallocate(len + 1, slack, stores, snaps);
        Write(len, v, stores, snaps);
        Reslice(len + 1, stores, snaps);
      }
      assert arr[..len] == was + [v];
    }

    /** `alias`: the slice is remembered and the table will not write into it. */
    method Alias(ghost stores: set<Store>, ghost snaps: set<Snap>) returns (a: array<bytes>, n: nat)
      requires Shared(stores, snaps) && this in stores
      modifies this`aliased
      ensures a == arr && n == len && aliased >= len
      ensures Shared(stores, snaps + {Snap(arr, len, arr[..len])})
    {
      if len > aliased {
        aliased := len;
      }
      a, n := arr, len;
    }

    /** `o.interned = s.alias()`: o looks at the same array, up to the mark. */
    method Share(o: Store, ghost stores: set<Store>, ghost snaps: set<Snap>)
      requires Shared(stores, snaps) && this in stores && o in stores
      modifies this`aliased, o
      ensures Shared(stores, snaps) && o.arr == old(arr) && o.len == old(len) && o.len <= o.arr.Length
      ensures o.arr[..o.len] == old(arr[..len])
    {
      InBounds(this, stores, snaps);
      hide Shared;
      ghost var seen := Snap(arr, len, arr[..len]);
      var a, n := Alias(stores, snaps);
      o.Attach(a, n, seen, stores, snaps + {seen});
      FewerSnaps(stores, snaps, snaps + {seen});
    }

    /** A slice somebody holds may be taken over, read-only. */
    method Attach(a: array<bytes>, n: nat, ghost s: Snap, ghost stores: set<Store>, ghost snaps: set<Snap>)
      requires Shared(stores, snaps) && this in stores && s in snaps && s.arr == a && s.n == n
      modifies this
      ensures Shared(stores, snaps) && arr == a && len == n <= arr.Length
    {
      arr, len, cap, aliased := a, n, n, n;
    }
  }

  lemma FewerSnaps(stores: set<Store>, snaps: set<Snap>, more: set<Snap>)
    requires Shared(stores, more) && snaps <= more
    ensures Shared(stores, snaps)
  {
  }

  /** The index without the given strings. */
  method Without(m: map<bytes, nat>, tail: Table) returns (r: map<bytes, nat>)
    ensures r == m - (set k | k in tail)
  {
    r := m;
    for i := 0 to |tail|
      invariant r == m - (set j | 0 <= j < i :: tail[j])
    {
      r := r - {tail[i]};
    }
    assert (set k | k in tail) == set j | 0 <= j < |tail| :: tail[j];
  }

  function Below(m: map<bytes, nat>, max: nat): map<bytes, nat> {
    map k | k in m && m[k] < max :: m[k]
  }

  /** The entries of m below max whose keys are not left. */
  ghost function Laid(m: map<bytes, nat>, left: set<bytes>, max: nat): map<bytes, nat> {
    map k | k in m && k !in left && m[k] < max :: m[k]
  }

  lemma LaidStep(base: map<bytes, nat>, m: map<bytes, nat>, left: set<bytes>, max: nat, k: bytes)
    requires k in left && k in m
    ensures base + Laid(m, left - {k}, max) == if m[k] < max then (base + Laid(m, left, max))[k := m[k]] else base + Laid(m, left, max)
  {
    if m[k] < max {
      assert Laid(m, left - {k}, max) == Laid(m, left, max)[k := m[k]];
    } else {
      assert Laid(m, left - {k}, max) == Laid(m, left, max);
    }
  }

  lemma LaidAll(m: map<bytes, nat>, max: nat)
    ensures Laid(m, m.Keys, max) == map[] && Laid(m, {}, max) == Below(m, max)
  {
  }

  /** The entries of m below max, put over base. */
  method Overlay(base: map<bytes, nat>, m: map<bytes, nat>, max: nat) returns (r: map<bytes, nat>)
    ensures r == base + Below(m, max)
  {
    hide Laid, Below;
    r := base;
    var left := m.Keys;
    LaidAll(m, max);
    assert base + map[] == base;
    while left != {}
      invariant left <= m.Keys && r == base + Laid(m, left, max)
      decreases |left|
    {
      var k :| k in left;
      LaidStep(base, m, left, max, k);
      if m[k] < max {
        r := r[k := m[k]];
      }
      left := left - {k};
    }
  }

  class Tab {
    const names: Store
    var index: Option<map<bytes, nat>>
    var memsize: int

    /** The table as a value. */
    ghost function Value(): S.Symtab
      reads this, names, names.arr
    {
      S.Symtab(if names.len <= names.arr.Length then names.arr[..names.len] else [], index, memsize)
    }

    constructor ()
      ensures fresh(names) && fresh(names.arr) && names.len == names.cap == names.aliased == 0 == names.arr.Length
      ensures Value() == S.EMPTY
    {
      names := new Store();
      index, memsize := None, 0;
    }

    /** The lookup fields are not part of what is shared. */
    method Update(m: Option<map<bytes, nat>>, size: int, ghost stores: set<Store>, ghost snaps: set<Snap>)
      requires Shared(stores, snaps)
      modifies this
      ensures Shared(stores, snaps) && index == m && memsize == size
    {
      index, memsize := m, size;
    }

    /** `Truncate`. */
    method Truncate(max: nat, ghost stores: set<Store>, ghost snaps: set<Snap>)
      requires Shared(stores, snaps) && names in stores && SYSTEM_COUNT <= max <= SYSTEM_COUNT + names.len
      modifies names`len, this
      ensures Shared(stores, snaps) && names.len <= names.arr.Length && Value() == S.Truncate(old(Value()), max)
    {
      InBounds(names, stores, snaps);
      hide Shared;
      var n := max - SYSTEM_COUNT;
      ghost var was := names.arr[..names.len];
      var size := 0;
      for i := n to names.len
        invariant size == S.TotalLength(was[n..i])
      {
        assert was[n..i + 1][..i - n] == was[n..i];
        size := size + |names.arr[i]|;
      }
      assert was[n..names.len] == was[n..];
      Update(index, memsize - size, stores, snaps);
      names.Reslice(n, stores, snaps);
      assert names.arr[..names.len] == was[..n];
    }

    /** `clear`. */
    method Clear(ghost stores: set<Store>, ghost snaps: set<Snap>)
      requires Shared(stores, snaps) && names in stores
      modifies names`len, this
      ensures Shared(stores, snaps) && names.len <= names.arr.Length && Value() == S.Clear(old(Value()))
    {
      InBounds(names, stores, snaps);
      hide Shared;
      if index.Some? && names.len > S.CLEAR_TO_ITEMS {
        var m := Without(index.value, names.arr[S.CLEAR_TO_ITEMS..names.len]);
        assert names.arr[..names.len][S.CLEAR_TO_ITEMS..] == names.arr[S.CLEAR_TO_ITEMS..names.len];
        Update(Some(m), 0, stores, snaps);
      } else {
        Update(index, 0, stores, snaps);
      }
      names.Reslice(0, stores, snaps);
    }

    /** `Intern`. */
    method Intern(x: bytes, slack: nat, ghost stores: set<Store>, ghost snaps: set<Snap>) returns (id: nat)
      requires Shared(stores, snaps) && names in stores
      modifies this, names, names.arr
      ensures Shared(stores, snaps) && names.len <= names.arr.Length && (Value(), id) == S.Intern(old(Value()), x)
      ensures names.arr == old(names.arr) || fresh(names.arr)
      ensures forall u :: u in stores && u != names ==> u.arr[..u.len] == old(u.arr[..u.len])
    {
      InBounds(names, stores, snaps);
      hide Shared, S.SystemIndex, S.Init, S.RawGet, S.Intern, S.Loaded;
      InternIs(Value(), x);
      EnsureIndex(stores, snaps);
      var known := Lookup(x);
      if known.Some? {
        return known.value;
      }
      id := names.len + SYSTEM_COUNT;
      LoadOne(x, slack, stores, snaps);
    }

    /** `init`, if it has not been done. */
    method EnsureIndex(ghost stores: set<Store>, ghost snaps: set<Snap>)
      requires Shared(stores, snaps) && names.len <= names.arr.Length
      modifies this
      ensures Shared(stores, snaps) && index.Some? && Value() == S.Init(old(Value()))
    {
      hide Shared;
      if index.None? {
        Update(Some(S.SystemIndex()), memsize, stores, snaps);
      }
    }

    /** `rawGet`. */
    method Lookup(x: bytes) returns (r: Option<nat>)
      requires index.Some? && names.len <= names.arr.Length
      ensures r == S.RawGet(Value(), x)
    {
      if x !in index.value {
        return None;
      }
      var i := index.value[x];
      if i >= SYSTEM_COUNT {
        var n := i - SYSTEM_COUNT;
        if n >= names.len || names.arr[n] != x {
          return None;
        }
      }
      r := Some(i);
    }

    /** The `symbols` loop of `Unmarshal`. */
    method Load(syms: Table, slack: nat, ghost stores: set<Store>, ghost snaps: set<Snap>)
      requires Shared(stores, snaps) && names in stores && index.Some?
      modifies this, names, names.arr
      ensures Shared(stores, snaps) && names.len <= names.arr.Length && Value() == S.Load(old(Value()), syms)
      ensures names.arr == old(names.arr) || fresh(names.arr)
      ensures forall u :: u in stores && u != names ==> u.arr[..u.len] == old(u.arr[..u.len])
    {
      InBounds(names, stores, snaps);
      hide Shared, S.Loaded;
      var i := 0;
      assert syms[0..] == syms;
      while i < |syms|
        invariant Shared(stores, snaps) && i <= |syms| && index.Some? && names.len <= names.arr.Length
        invariant names.arr == old(names.arr) || fresh(names.arr)
        invariant S.Load(Value(), syms[i..]) == S.Load(old(Value()), syms)
        invariant forall u :: u in stores && u != names ==> u.arr[..u.len] == old(u.arr[..u.len])
      {
        assert syms[i..][0] == syms[i] && syms[i..][1..] == syms[i + 1..];
        LoadOne(syms[i], slack, stores, snaps);
        i := i + 1;
      }
    }

    /** Append and index, found or not. */
    method LoadOne(x: bytes, slack: nat, ghost stores: set<Store>, ghost snaps: set<Snap>)
      requires Shared(stores, snaps) && names in stores && index.Some? && names.len <= names.arr.Length
      modifies this, names, names.arr
      ensures Shared(stores, snaps) && names.len <= names.arr.Length && index.Some?
      ensures Value() == S.Loaded(old(Value()), x)
      ensures names.arr == old(names.arr) || fresh(names.arr)
      ensures forall u :: u in stores && u != names ==> u.arr[..u.len] == old(u.arr[..u.len])
    {
      hide Shared;
      names.Append(x, slack, stores, snaps);
      Update(Some(index.value[x := names.len - 1 + SYSTEM_COUNT]), memsize + |x|, stores, snaps);
    }

    /** `CloneInto`. */
    method CloneInto(o: Tab, ghost stores: set<Store>, ghost snaps: set<Snap>)
      requires Shared(stores, snaps) && names in stores && o.names in stores
      modifies names`aliased, o, o.names
      ensures Shared(stores, snaps) && o.names.len <= o.names.arr.Length
      ensures o.Value() == S.CloneInto(old(Value()), old(o.Value())) && o.names.arr == old(names.arr)
    {
      InBounds(names, stores, snaps);
      InBounds(o.names, stores, snaps);
      hide Shared, S.CloneInto, Below;
      ghost var s, was := Value(), o.Value();
      var base := if o.index.Some? then o.index.value else map[];
      var mine := if index.Some? then index.value else map[];
      var m := Overlay(base, mine, SYSTEM_COUNT + names.len);
      CloneIs(s, was, base, mine, m);
      var size := memsize;
      names.Share(o.names, stores, snaps);
      o.Update(Some(m), size, stores, snaps);
    }
  }

  lemma InternIs(s: S.Symtab, x: bytes)
    ensures var t := S.Init(s);
      && t.index.Some? && t.interned == s.interned
      && S.Intern(s, x) == match S.RawGet(t, x)
                           case Some(id) => (t, id)
                           case None => (S.Loaded(t, x), MaxID(t.interned))
  {
    hide S.RawGet, S.SystemIndex;
  }

  lemma CloneIs(s: S.Symtab, o: S.Symtab, base: map<bytes, nat>, mine: map<bytes, nat>, m: map<bytes, nat>)
    requires base == if o.index.Some? then o.index.value else map[]
    requires mine == if s.index.Some? then s.index.value else map[]
    requires m == base + Below(mine, MaxID(s.interned))
    ensures S.CloneInto(s, o) == S.Symtab(s.interned, Some(m), s.memsize)
  {
  }

  // ------------------------------------------------------------------------ whole runs

  datatype Op =
    | Intern(t: nat, x: bytes)
    | Truncate(t: nat, max: nat)
    | Reset(t: nat)
    | Load(t: nat, syms: Table)
    | Clone(t: nat, to: nat)
    | Snapshot(t: nat)

  predicate Sensible(op: Op, vals: seq<S.Symtab>) {
    && op.t < |vals|
    && (op.Clone? ==> op.to < |vals|)
    && InRange(op, vals[op.t])
  }

  /** Truncate panics outside this range. */
  predicate InRange(op: Op, v: S.Symtab) {
    op.Truncate? ==> SYSTEM_COUNT <= op.max <= MaxID(v.interned)
  }

  /** What an operation on a single table does to its value. */
  function StepValue(v: S.Symtab, op: Op): S.Symtab
    requires InRange(op, v)
  {
    match op
    case Intern(_, x) => S.Intern(v, x).0
    case Truncate(_, max) => S.Truncate(v, max)
    case Reset(_) => S.Clear(v)
    case Load(_, syms) => S.Load(S.Init(v), syms)
    case _ => v
  }

  function StepValues(vals: seq<S.Symtab>, op: Op): (r: seq<S.Symtab>)
    requires Sensible(op, vals)
    ensures |r| == |vals|
  {
    if op.Clone? then vals[op.to := S.CloneInto(vals[op.t], vals[op.to])]
    else vals[op.t := StepValue(vals[op.t], op)]
  }

  ghost function Stores(ts: seq<Tab>): set<Store> {
    set t | t in ts :: t.names
  }

  ghost function Arrays(ts: seq<Tab>): set<array<bytes>>
    reads Stores(ts)
  {
    set t | t in ts :: t.names.arr
  }

  ghost predicate Pool(ts: seq<Tab>, snaps: set<Snap>)
    reads Stores(ts), Arrays(ts), set s | s in snaps :: s.arr
  {
    && (forall i, j :: 0 <= i < j < |ts| ==> ts[i] != ts[j] && ts[i].names != ts[j].names)
    && Shared(Stores(ts), snaps)
  }

  /** The tables hold the given values. */
  ghost predicate Holds(ts: seq<Tab>, vals: seq<S.Symtab>)
    reads ts, Stores(ts), Arrays(ts)
  {
    |vals| == |ts| && forall i :: 0 <= i < |ts| ==> ts[i].Value() == vals[i]
  }

  method StepTable(t: Tab, op: Op, slack: nat, ghost stores: set<Store>, ghost snaps: set<Snap>)
    returns (ghost more: set<Snap>)
    requires Shared(stores, snaps) && t.names in stores && !op.Clone? && InRange(op, t.Value())
    modifies t, t.names, t.names.arr
    ensures Shared(stores, more) && snaps <= more && t.Value() == StepValue(old(t.Value()), op)
    ensures t.names.arr == old(t.names.arr) || fresh(t.names.arr)
    ensures forall u :: u in stores && u != t.names ==> u.arr[..u.len] == old(u.arr[..u.len])
  {
    InBounds(t.names, stores, snaps);
    hide Shared, S.Intern, S.Truncate, S.Clear, S.Load, S.Init, S.CloneInto;
    more := snaps;
    match op {
      case Intern(_, x) =>
        var _ := t.Intern(x, slack, stores, snaps);
      case Truncate(_, max) =>
        t.Truncate(max, stores, snaps);
      case Reset(_) =>
        t.Clear(stores, snaps);
      case Load(_, syms) =>
        t.EnsureIndex(stores, snaps);
        t.Load(syms, slack, stores, snaps);
      case Snapshot(_) =>
        more := snaps + {Snap(t.names.arr, t.names.len, t.names.arr[..t.names.len])};
        var _, _ := t.names.Alias(stores, snaps);
    }
  }

  /** One operation on the tables does exactly what it does to the values, and no snapshot
      changes. */
  method Step(ts: seq<Tab>, op: Op, slack: nat, ghost vals: seq<S.Symtab>, ghost snaps: set<Snap>)
    returns (ghost more: set<Snap>)
    requires Pool(ts, snaps) && Holds(ts, vals) && Sensible(op, vals)
    modifies ts, Stores(ts), Arrays(ts)
    ensures Pool(ts, more) && snaps <= more && Holds(ts, StepValues(vals, op))
    ensures forall t :: t in ts ==> t.names.arr in old(Arrays(ts)) || fresh(t.names.arr)
  {
    hide Shared, StepValue, S.CloneInto;
    var t := ts[op.t];
    ghost var stores := Stores(ts);
    assert t.names in stores;
    if op.Clone? {
      more := snaps;
      t.CloneInto(ts[op.to], stores, snaps);
    } else {
      more := StepTable(t, op, slack, stores, snaps);
    }
  }

  /** Any number of operations: everything ever handed out still shows what it showed. */
  method Run(ts: seq<Tab>, ops: seq<Op>, slack: seq<nat>, ghost vals: seq<S.Symtab>, ghost snaps: set<Snap>)
    returns (ghost last: seq<S.Symtab>, ghost more: set<Snap>)
    requires Pool(ts, snaps) && Holds(ts, vals) && |slack| == |ops| && Possible(vals, ops)
    modifies ts, Stores(ts), Arrays(ts)
    ensures Pool(ts, more) && snaps <= more && last == RunValues(vals, ops) && Holds(ts, last)
    ensures forall s :: s in more ==> s.n <= s.arr.Length && s.arr[..s.n] == s.shown
  {
    hide Pool, Holds, StepValues, Sensible;
    last, more := vals, snaps;
    assert ops[0..] == ops;
    for i := 0 to |ops|
      invariant Pool(ts, more) && snaps <= more && Holds(ts, last)
      invariant Possible(last, ops[i..]) && RunValues(last, ops[i..]) == RunValues(vals, ops)
      invariant forall t :: t in ts ==> t.names.arr in old(Arrays(ts)) || fresh(t.names.arr)
    {
      assert ops[i..][0] == ops[i] && ops[i..][1..] == ops[i + 1..];
      more := Step(ts, ops[i], slack[i], last, more);
      last := StepValues(last, ops[i]);
    }
    SnapsHold(ts, more);
  }

  lemma SnapsHold(ts: seq<Tab>, snaps: set<Snap>)
    requires Pool(ts, snaps)
    ensures forall s :: s in snaps ==> s.n <= s.arr.Length && s.arr[..s.n] == s.shown
  {
  }

  predicate Possible(vals: seq<S.Symtab>, ops: seq<Op>)
    decreases |ops|
  {
    ops == [] || (Sensible(ops[0], vals) && Possible(StepValues(vals, ops[0]), ops[1..]))
  }

  function RunValues(vals: seq<S.Symtab>, ops: seq<Op>): seq<S.Symtab>
    requires Possible(vals, ops)
    decreases |ops|
  {
    if ops == [] then vals else RunValues(StepValues(vals, ops[0]), ops[1..])
  }
}
