/** `ion/ranges.go`: per-path minimum and maximum timestamps, kept separately for committed
    rows and for the row being written. */
module IonRanges {
  import opened IonCodec
  import opened IonValue
  import opened PackedTime

  /** A path as written: one symbol per component. */
  type Path = seq<nat>
  /** A path as meant: one string per component. */
  type Names = seq<bytes>

  datatype TimeRange = TimeRange(commits: nat, min: Time, max: Time, hasRange: bool, pending: Time, hasPending: bool)

  function NewTimeRange(t: Time): TimeRange {
    TimeRange(0, Time(0, 0), Time(0, 0), false, t, true)
  }

  function Add(r: TimeRange, t: Time): TimeRange {
    r.(pending := t, hasPending := true)
  }

  function CommitOne(r: TimeRange): TimeRange {
    if !r.hasPending then r
    else
      var s := if !r.hasRange then r.(min := r.pending, max := r.pending, hasRange := true)
               else if Before(r.pending, r.min) then r.(min := r.pending)
               else if After(r.pending, r.max) then r.(max := r.pending)
               else r;
      s.(commits := r.commits + 1, hasPending := false)
  }

  function FlushOne(r: TimeRange): TimeRange {
    r.(hasRange := false, commits := 0)
  }

  class Ranges {
    var paths: seq<Path>           // in insertion order
    var m: map<Path, TimeRange>

    ghost predicate Valid()
      reads this
    {
      && (forall p :: p in paths <==> p in m)
      && (forall i, j :: 0 <= i < j < |paths| ==> paths[i] != paths[j])
    }

    constructor ()
      ensures Valid() && m == map[]
    {
      paths, m := [], map[];
    }

    /** `AddTime`: the value stays pending until the row is committed. */
    method AddTime(p: Path, t: Time)
      requires Valid()
      modifies this
      ensures Valid()
      ensures m == old(m)[p := if p in old(m) then Add(old(m)[p], t) else NewTimeRange(t)]
    {
      if p in m {
        m := m[p := Add(m[p], t)];
        return;
      }
      paths := paths + [p];
      m := m[p := NewTimeRange(t)];
    }

    /** `commit`. */
    method Commit()
      requires Valid()
      modifies this`m
      ensures Valid()
      ensures m == map p | p in old(m) :: CommitOne(old(m)[p])
    {
      var left := m.Keys;
      while left != {}
        invariant left <= m.Keys == old(m).Keys
        invariant forall p :: p in m ==> m[p] == if p in left then old(m)[p] else CommitOne(old(m)[p])
        decreases |left|
      {
        var p :| p in left;
        m := m[p := CommitOne(m[p])];
        left := left - {p};
      }
    }

    /** `flush`: committed values are dropped; a path survives if it has a pending value. */
    method Flush()
      requires Valid()
      modifies this
      ensures Valid()
      ensures m == map p | p in old(m) && old(m)[p].hasPending :: FlushOne(old(m)[p])
    {
      var ps := paths;
      paths := [];
      ghost var done: set<Path> := {};
      for i := 0 to |ps|
        invariant forall j :: 0 <= j < |ps| ==> (ps[j] in done <==> j < i)
        invariant Flushed(old(m), done, paths, m)
      {
        hide FlushOne, Flushed;
        var k := ps[i];
        FlushStep(old(m), done, paths, m, k);
        if m[k].hasPending {
          m := m[k := FlushOne(m[k])];
          paths := paths + [k];
        } else {
          m := m - {k};
        }
        done := done + {k};
      }
      assert forall p :: p in old(m) ==> p in done;
    }

    /** The tail of `resymbolize`: replace every key by its translation. */
    method Rename(keys: seq<Path>, renamed: seq<Path>)
      requires Valid() && |keys| == |renamed|
      requires forall p :: p in keys <==> p in m
      requires forall i, j :: 0 <= i < j < |keys| ==> keys[i] != keys[j] && renamed[i] != renamed[j]
      modifies this
      ensures Valid()
      ensures forall q :: q in m <==> q in renamed
      ensures forall i :: 0 <= i < |keys| ==> m[renamed[i]] == old(m)[keys[i]]
    {
      var newm: map<Path, TimeRange> := map[];
      for i := 0 to |keys|
        invariant forall q :: q in newm <==> q in renamed[..i]
        invariant forall j :: 0 <= j < i ==> newm[renamed[j]] == m[keys[j]]
      {
        newm := newm[renamed[i] := m[keys[i]]];
        assert renamed[..i + 1] == renamed[..i] + [renamed[i]];
      }
      assert renamed[..|keys|] == renamed;
      m := newm;
      paths := renamed;
    }
  }

  /** The paths in done have been flushed, the others are untouched. */
  ghost predicate Flushed(was: map<Path, TimeRange>, done: set<Path>, paths: seq<Path>, m: map<Path, TimeRange>) {
    && done <= was.Keys
    && (forall p :: p in paths <==> p in done && was[p].hasPending)
    && (forall i, j :: 0 <= i < j < |paths| ==> paths[i] != paths[j])
    && (forall p :: p in m <==> p in was && (p in done ==> was[p].hasPending))
    && (forall p :: p in m ==> m[p] == if p in done then FlushOne(was[p]) else was[p])
  }

  lemma FlushStep(was: map<Path, TimeRange>, done: set<Path>, paths: seq<Path>, m: map<Path, TimeRange>, k: Path)
    requires Flushed(was, done, paths, m) && k in was && k !in done
    ensures k in m && m[k] == was[k]
    ensures if m[k].hasPending then Flushed(was, done + {k}, paths + [k], m[k := FlushOne(m[k])])
            else Flushed(was, done + {k}, paths, m - {k})
  {
    hide FlushOne;
    assert k !in paths;
  }

  // ----------------------------------------------------------------- paths by meaning

  function NamesOf(tab: Table, p: Path): (r: Names)
    ensures |r| == |p|
  {
    seq(|p|, i requires 0 <= i < |p| => Get(tab, p[i]))
  }

  predicate PathResolves(tab: Table, p: Path) {
    forall i :: 0 <= i < |p| ==> p[i] < MaxID(tab)
  }

  predicate PathsResolve(tab: Table, m: map<Path, TimeRange>) {
    forall p :: p in m ==> PathResolves(tab, p)
  }

  /** Without duplicate symbols, a path is determined by its names. */
  lemma NamesInjective(tab: Table, p: Path, q: Path)
    requires Distinct(tab) && PathResolves(tab, p) && PathResolves(tab, q)
    requires NamesOf(tab, p) == NamesOf(tab, q)
    ensures p == q
  {
    forall i | 0 <= i < |p| ensures p[i] == q[i] {
      assert NamesOf(tab, p)[i] == Get(tab, p[i]) && NamesOf(tab, q)[i] == Get(tab, q[i]);
    }
  }

  lemma NamesExtend(tab: Table, more: Table, p: Path)
    requires tab <= more && PathResolves(tab, p)
    ensures PathResolves(more, p) && NamesOf(more, p) == NamesOf(tab, p)
  {
  }

  // ------------------------------------------------------------------------ soundness

  /** The timestamps one row contributes, by path. */
  type RowTimes = map<Names, Time>

  /** lo and hi bound every timestamp of path n in the rows. */
  predicate Bounds(rows: seq<RowTimes>, n: Names, lo: Time, hi: Time) {
    forall i :: 0 <= i < |rows| && n in rows[i] ==> !Before(rows[i][n], lo) && !Before(hi, rows[i][n])
  }

  /** Some row has exactly t at path n. */
  predicate Attained(rows: seq<RowTimes>, n: Names, t: Time) {
    exists i :: 0 <= i < |rows| && n in rows[i] && rows[i][n] == t
  }

  predicate Occurs(rows: seq<RowTimes>, n: Names) {
    exists i :: 0 <= i < |rows| && n in rows[i]
  }

  function Occurrences(rows: seq<RowTimes>, n: Names): nat {
    if rows == [] then 0
    else Occurrences(rows[..|rows| - 1], n) + if n in rows[|rows| - 1] then 1 else 0
  }

  /** One range describes path n in the committed rows and in the pending one. */
  predicate Describes(r: TimeRange, rows: seq<RowTimes>, pending: RowTimes, n: Names) {
    && r.commits == Occurrences(rows, n)
    && (r.hasRange <==> Occurs(rows, n))
    && (r.hasRange ==> Bounds(rows, n, r.min, r.max) && Attained(rows, n, r.min) && Attained(rows, n, r.max))
    && (r.hasPending <==> n in pending)
    && (r.hasPending ==> r.pending == pending[n])
  }

  /** Every tracked path is described, and every path that occurs is tracked. */
  ghost predicate Tracks(tab: Table, m: map<Path, TimeRange>, rows: seq<RowTimes>, pending: RowTimes) {
    && PathsResolve(tab, m)
    && (forall p :: p in m ==> Describes(m[p], rows, pending, NamesOf(tab, p)))
    && (forall n :: n in pending || Occurs(rows, n) ==> Tracked(tab, m, n))
  }

  ghost predicate Tracked(tab: Table, m: map<Path, TimeRange>, n: Names) {
    exists p :: p in m && NamesOf(tab, p) == n
  }

  lemma OccursSnoc(rows: seq<RowTimes>, row: RowTimes, n: Names)
    ensures Occurs(rows + [row], n) <==> Occurs(rows, n) || n in row
    ensures Occurrences(rows + [row], n) == Occurrences(rows, n) + if n in row then 1 else 0
  {
    var all := rows + [row];
    assert all[..|rows|] == rows && all[|rows|] == row;
    if Occurs(rows, n) {
      var i :| 0 <= i < |rows| && n in rows[i];
      assert n in all[i];
    }
    if Occurs(all, n) && n !in row {
      var i :| 0 <= i < |all| && n in all[i];
      assert n in rows[i];
    }
  }

  lemma AttainedSnoc(rows: seq<RowTimes>, row: RowTimes, n: Names, t: Time)
    ensures Attained(rows, n, t) || (n in row && row[n] == t) ==> Attained(rows + [row], n, t)
  {
    var all := rows + [row];
    if Attained(rows, n, t) {
      var i :| 0 <= i < |rows| && n in rows[i] && rows[i][n] == t;
      assert all[i] == rows[i];
    } else if n in row && row[n] == t {
      assert all[|rows|] == row;
    }
  }

  lemma BoundsSnoc(rows: seq<RowTimes>, row: RowTimes, n: Names, lo: Time, hi: Time)
    ensures Bounds(rows + [row], n, lo, hi)
       <==> Bounds(rows, n, lo, hi) && (n in row ==> !Before(row[n], lo) && !Before(hi, row[n]))
  {
    var all := rows + [row];
    assert all[|rows|] == row;
    assert forall i :: 0 <= i < |rows| ==> all[i] == rows[i];
  }

  /** Committing a range folds the pending row into the described ones. */
  lemma CommitDescribes(r: TimeRange, rows: seq<RowTimes>, pending: RowTimes, n: Names)
    requires Describes(r, rows, pending, n)
    ensures Describes(CommitOne(r), rows + [pending], map[], n)
  {
    hide Bounds, Occurs, Occurrences, Attained;
    var c := CommitOne(r);
    AttainedSnoc(rows, pending, n, c.min);
    AttainedSnoc(rows, pending, n, c.max);
    OccursSnoc(rows, pending, n);
    BoundsSnoc(rows, pending, n, c.min, c.max);
    if r.hasRange {
      NotReversed(rows, n, r.min, r.max);
      BoundsWiden(rows, n, r.min, r.max, c.min, c.max);
    } else {
      BoundsOfNone(rows, n, c.min, c.max);
    }
  }

  lemma NotReversed(rows: seq<RowTimes>, n: Names, lo: Time, hi: Time)
    requires Bounds(rows, n, lo, hi) && Attained(rows, n, lo)
    ensures !Before(hi, lo)
  {
  }

  lemma BoundsWiden(rows: seq<RowTimes>, n: Names, lo: Time, hi: Time, lo': Time, hi': Time)
    requires Bounds(rows, n, lo, hi) && !Before(lo, lo') && !Before(hi', hi)
    ensures Bounds(rows, n, lo', hi')
  {
  }

  lemma BoundsOfNone(rows: seq<RowTimes>, n: Names, lo: Time, hi: Time)
    requires !Occurs(rows, n)
    ensures Bounds(rows, n, lo, hi)
  {
  }

  lemma CommitTracks(tab: Table, m: map<Path, TimeRange>, rows: seq<RowTimes>, pending: RowTimes)
    requires Tracks(tab, m, rows, pending)
    ensures Tracks(tab, map p | p in m :: CommitOne(m[p]), rows + [pending], map[])
  {
    hide Describes, Occurs;
    var c := map p | p in m :: CommitOne(m[p]);
    forall p | p in c ensures Describes(c[p], rows + [pending], map[], NamesOf(tab, p)) {
      CommitDescribes(m[p], rows, pending, NamesOf(tab, p));
    }
    forall n | Occurs(rows + [pending], n) ensures Tracked(tab, c, n) {
      OccursSnoc(rows, pending, n);
      var p :| p in m && NamesOf(tab, p) == n;
      assert p in c;
    }
  }

  /** After a flush only the row still being written is tracked. */
  lemma FlushTracks(tab: Table, m: map<Path, TimeRange>, rows: seq<RowTimes>, pending: RowTimes)
    requires Tracks(tab, m, rows, pending)
    ensures Tracks(tab, map p | p in m && m[p].hasPending :: FlushOne(m[p]), [], pending)
  {
    hide Bounds, Attained;
    var c := map p | p in m && m[p].hasPending :: FlushOne(m[p]);
    forall n | n in pending ensures Tracked(tab, c, n) {
      var p :| p in m && NamesOf(tab, p) == n;
      assert Describes(m[p], rows, pending, n);
      assert p in c;
    }
  }

  /** AddTime records a timestamp for the row; a second one on the same path replaces it. */
  lemma AddTracks(tab: Table, m: map<Path, TimeRange>, rows: seq<RowTimes>, pending: RowTimes, p: Path, t: Time)
    requires Tracks(tab, m, rows, pending) && Distinct(tab) && PathResolves(tab, p)
    ensures Tracks(tab, m[p := if p in m then Add(m[p], t) else NewTimeRange(t)], rows, pending[NamesOf(tab, p) := t])
  {
    hide Occurs, Bounds, Occurrences, Attained, Distinct;
    var n := NamesOf(tab, p);
    var c := m[p := if p in m then Add(m[p], t) else NewTimeRange(t)];
    var q := pending[n := t];
    if p !in m {
      NewPathIsUnseen(tab, m, rows, pending, p);
    }
    forall x | x in c ensures Describes(c[x], rows, q, NamesOf(tab, x)) {
      if x != p {
        assert Describes(m[x], rows, pending, NamesOf(tab, x));
        if NamesOf(tab, x) == n { NamesInjective(tab, x, p); }
      } else if p in m {
        assert Describes(m[p], rows, pending, n);
      }
    }
    forall y | y in q || Occurs(rows, y) ensures Tracked(tab, c, y) {
      if y == n {
        assert p in c;
      } else {
        var x :| x in m && NamesOf(tab, x) == y;
        assert x in c;
      }
    }
  }

  lemma NewPathIsUnseen(tab: Table, m: map<Path, TimeRange>, rows: seq<RowTimes>, pending: RowTimes, p: Path)
    requires Tracks(tab, m, rows, pending) && Distinct(tab) && PathResolves(tab, p) && p !in m
    ensures !Occurs(rows, NamesOf(tab, p)) && Occurrences(rows, NamesOf(tab, p)) == 0
  {
    var n := NamesOf(tab, p);
    if Tracked(tab, m, n) {
      var x :| x in m && NamesOf(tab, x) == n;
      NamesInjective(tab, x, p);
      assert false;
    }
    OccurrencesOfNone(rows, n);
  }

  lemma {:induction false} OccurrencesOfNone(rows: seq<RowTimes>, n: Names)
    requires !Occurs(rows, n)
    ensures Occurrences(rows, n) == 0
  {
    if rows != [] {
      var init, last := rows[..|rows| - 1], rows[|rows| - 1];
      assert rows == init + [last];
      OccursSnoc(init, last, n);
      OccurrencesOfNone(init, n);
    }
  }

  lemma GrowTracks(tab: Table, more: Table, m: map<Path, TimeRange>, rows: seq<RowTimes>, pending: RowTimes)
    requires Tracks(tab, m, rows, pending) && tab <= more
    ensures Tracks(more, m, rows, pending)
  {
    hide Describes, Occurs;
    forall p | p in m ensures PathResolves(more, p) && NamesOf(more, p) == NamesOf(tab, p) {
      NamesExtend(tab, more, p);
    }
    forall n | n in pending || Occurs(rows, n) ensures Tracked(more, m, n) {
      var p :| p in m && NamesOf(tab, p) == n;
    }
  }

  /** Renaming every key to one with the same names under the new table changes nothing. */
  lemma RenameTracks(tab: Table, now: Table, m: map<Path, TimeRange>, c: map<Path, TimeRange>,
                     keys: seq<Path>, renamed: seq<Path>, rows: seq<RowTimes>, pending: RowTimes)
    requires Tracks(tab, m, rows, pending) && |keys| == |renamed|
    requires forall p :: p in keys <==> p in m
    requires forall q :: q in c <==> q in renamed
    requires forall i :: 0 <= i < |keys| ==>
      c[renamed[i]] == m[keys[i]] && PathResolves(now, renamed[i]) && NamesOf(now, renamed[i]) == NamesOf(tab, keys[i])
    ensures Tracks(now, c, rows, pending)
  {
    hide Describes, Occurs, PathResolves;
    forall q | q in c ensures PathResolves(now, q) && Describes(c[q], rows, pending, NamesOf(now, q)) {
      var i :| 0 <= i < |renamed| && renamed[i] == q;
      assert keys[i] in m;
    }
    forall n | n in pending || Occurs(rows, n) ensures Tracked(now, c, n) {
      var p :| p in m && NamesOf(tab, p) == n;
      var i :| 0 <= i < |keys| && keys[i] == p;
      assert renamed[i] in c;
    }
  }

  // -------------------------------------------------------------------------- reports

  /** A SetMinMax call on the output. */
  datatype Report = Report(path: Names, min: Time, max: Time)

  predicate Dense(r: TimeRange, rowcount: nat) {
    r.commits >= rowcount / 3 && r.hasRange
  }

  predicate DensePath(rows: seq<RowTimes>, n: Names) {
    Occurs(rows, n) && Occurrences(rows, n) >= |rows| / 3
  }

  predicate ExactBounds(rows: seq<RowTimes>, x: Report) {
    Bounds(rows, x.path, x.min, x.max) && Attained(rows, x.path, x.min) && Attained(rows, x.path, x.max)
  }

  /** Exact bounds for exactly the paths that occur in enough of the rows. */
  ghost predicate Reported(rows: seq<RowTimes>, rs: seq<Report>) {
    && (forall x :: x in rs ==> DensePath(rows, x.path) && ExactBounds(rows, x))
    && (forall n :: DensePath(rows, n) ==> Mentions(rs, n))
  }

  predicate Mentions(rs: seq<Report>, n: Names) {
    exists i :: 0 <= i < |rs| && rs[i].path == n
  }

  function ReportOf(tab: Table, p: Path, r: TimeRange): Report {
    Report(NamesOf(tab, p), r.min, r.max)
  }

  /** The loop of `flushRanges`: report every path that is not too sparse. */
  method ReportAll(rng: Ranges, tab: Table, rowcount: nat, ghost rows: seq<RowTimes>, ghost pending: RowTimes)
    returns (rs: seq<Report>)
    requires rng.Valid() && Tracks(tab, rng.m, rows, pending) && rowcount == |rows|
    ensures Reported(rows, rs)
  {
    hide Tracks, NamesOf;
    rs := [];
    for i := 0 to |rng.paths|
      invariant forall x :: x in rs ==>
        exists j :: 0 <= j < i && Dense(rng.m[rng.paths[j]], rowcount) && x == ReportOf(tab, rng.paths[j], rng.m[rng.paths[j]])
      invariant forall j :: 0 <= j < i && Dense(rng.m[rng.paths[j]], rowcount) ==>
        ReportOf(tab, rng.paths[j], rng.m[rng.paths[j]]) in rs
    {
      var p := rng.paths[i];
      var r := rng.m[p];
      if Dense(r, rowcount) {
        rs := rs + [ReportOf(tab, p, r)];
      }
    }
    ReportsDescribe(tab, rng.m, rng.paths, rows, pending, rs);
  }

  lemma ReportsDescribe(tab: Table, m: map<Path, TimeRange>, paths: seq<Path>, rows: seq<RowTimes>, pending: RowTimes, rs: seq<Report>)
    requires Tracks(tab, m, rows, pending) && forall p :: p in paths <==> p in m
    requires forall x :: x in rs ==> exists j :: 0 <= j < |paths| && Dense(m[paths[j]], |rows|) && x == ReportOf(tab, paths[j], m[paths[j]])
    requires forall j :: 0 <= j < |paths| && Dense(m[paths[j]], |rows|) ==> ReportOf(tab, paths[j], m[paths[j]]) in rs
    ensures Reported(rows, rs)
  {
    hide Bounds, Attained, Occurs, Occurrences;
    forall x | x in rs ensures DensePath(rows, x.path) && ExactBounds(rows, x) {
      var j :| 0 <= j < |paths| && Dense(m[paths[j]], |rows|) && x == ReportOf(tab, paths[j], m[paths[j]]);
      assert Describes(m[paths[j]], rows, pending, NamesOf(tab, paths[j]));
    }
    forall n | DensePath(rows, n) ensures Mentions(rs, n) {
      var p :| p in m && NamesOf(tab, p) == n;
      assert Describes(m[p], rows, pending, n);
      var j :| 0 <= j < |paths| && paths[j] == p;
      var x := ReportOf(tab, p, m[p]);
      assert x in rs;
      var i :| 0 <= i < |rs| && rs[i] == x;
    }
  }
}
