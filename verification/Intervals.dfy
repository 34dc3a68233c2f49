/** `ints/interval.go`: lists of half-open intervals. */
module Intervals {

  datatype Interval = Interval(start: int, end: int)

  predicate Ok(s: seq<Interval>) {
    forall i :: 0 <= i < |s| ==> s[i].start <= s[i].end
  }

  predicate Empty(v: Interval) { v.start >= v.end }

  predicate In(v: Interval, x: int) { v.start <= x < v.end }

  /** The integers a list stands for. */
  predicate Has(s: seq<Interval>, x: int) {
    exists i :: 0 <= i < |s| && In(s[i], x)
  }

  /** In order, with a strict gap between neighbours. */
  predicate Gapped(s: seq<Interval>) {
    forall i :: 0 <= i < |s| - 1 ==> s[i].end < s[i + 1].start
  }

  lemma HasCons(v: Interval, s: seq<Interval>, x: int)
    ensures Has([v] + s, x) <==> In(v, x) || Has(s, x)
  {
    var t := [v] + s;
    assert t[0] == v && forall i :: 0 <= i < |s| ==> t[i + 1] == s[i];
    if Has(t, x) && !In(v, x) {
      var i :| 0 <= i < |t| && In(t[i], x);
      assert In(s[i - 1], x);
    }
    if Has(s, x) {
      var i :| 0 <= i < |s| && In(s[i], x);
      assert In(t[i + 1], x);
    }
  }

  lemma Cons(s: seq<Interval>)
    requires s != []
    ensures s == [s[0]] + s[1..]
  {
  }

  // ---------------------------------------------------------------------------- sorting

  predicate NotAfter(a: Interval, b: Interval) {
    a.start < b.start || (a.start == b.start && a.end <= b.end)
  }

  predicate Sorted(s: seq<Interval>) {
    forall i :: 0 <= i < |s| - 1 ==> NotAfter(s[i], s[i + 1])
  }

  function Insert(v: Interval, s: seq<Interval>): seq<Interval> {
    if s == [] || NotAfter(v, s[0]) then [v] + s else [s[0]] + Insert(v, s[1..])
  }

  /** What sorting by start, then by end, yields; equal intervals cannot be told apart. */
  function Sort(s: seq<Interval>): seq<Interval> {
    if s == [] then [] else Insert(s[0], Sort(s[1..]))
  }

  lemma {:induction false} InsertSpec(v: Interval, s: seq<Interval>, x: int)
    requires Sorted(s)
    ensures Sorted(Insert(v, s)) && (Has(Insert(v, s), x) <==> In(v, x) || Has(s, x))
    ensures |Insert(v, s)| == |s| + 1 && (Insert(v, s)[0] == v || (s != [] && Insert(v, s)[0] == s[0]))
  {
    hide Has, In;
    HasCons(v, s, x);
    if s != [] && !NotAfter(v, s[0]) {
      Cons(s);
      assert forall i :: 0 <= i < |s[1..]| ==> s[1..][i] == s[i + 1];
      InsertSpec(v, s[1..], x);
      HasCons(s[0], s[1..], x);
      HasCons(s[0], Insert(v, s[1..]), x);
      var r := Insert(v, s);
      forall i | 0 <= i < |r| - 1 ensures NotAfter(r[i], r[i + 1]) {
        if i > 0 { assert r[i] == Insert(v, s[1..])[i - 1] && r[i + 1] == Insert(v, s[1..])[i]; }
      }
    }
  }

  lemma {:induction false} InsertAdds(v: Interval, s: seq<Interval>)
    ensures multiset(Insert(v, s)) == multiset(s) + multiset{v}
  {
    if s != [] && !NotAfter(v, s[0]) {
      Cons(s);
      InsertAdds(v, s[1..]);
    }
  }

  lemma {:induction false} SortSpec(s: seq<Interval>, x: int)
    ensures Sorted(Sort(s)) && (Has(Sort(s), x) <==> Has(s, x)) && multiset(Sort(s)) == multiset(s)
  {
    hide Has, In;
    if s != [] {
      Cons(s);
      SortSpec(s[1..], x);
      InsertSpec(s[0], Sort(s[1..]), x);
      InsertAdds(s[0], Sort(s[1..]));
      HasCons(s[0], s[1..], x);
    }
  }

  lemma SortOk(s: seq<Interval>)
    requires Ok(s)
    ensures Ok(Sort(s)) && |Sort(s)| == |s|
  {
    SortSpec(s, 0);
    forall i | 0 <= i < |Sort(s)| ensures Sort(s)[i].start <= Sort(s)[i].end {
      assert Sort(s)[i] in multiset(s);
    }
    assert |multiset(Sort(s))| == |multiset(s)|;
  }

  /** `slices.Compact`: one of each run of equal neighbours. */
  function Compact(s: seq<Interval>): seq<Interval> {
    if |s| <= 1 then s
    else if s[0] == s[1] then Compact(s[1..])
    else [s[0]] + Compact(s[1..])
  }

  lemma {:induction false} CompactSpec(s: seq<Interval>, x: int)
    requires Sorted(s) && Ok(s)
    ensures Sorted(Compact(s)) && Ok(Compact(s)) && |Compact(s)| <= |s| && (Has(Compact(s), x) <==> Has(s, x))
    ensures s != [] ==> Compact(s) != [] && Compact(s)[0] == s[0]
  {
    hide Has, In;
    if |s| > 1 {
      Cons(s);
      assert forall i :: 0 <= i < |s[1..]| ==> s[1..][i] == s[i + 1];
      CompactSpec(s[1..], x);
      HasCons(s[0], s[1..], x);
      HasCons(s[0], Compact(s[1..]), x);
      if s[0] == s[1] {
        Cons(s[1..]);
        HasCons(s[1], s[1..][1..], x);
      } else {
        var r := Compact(s);
        forall i | 0 <= i < |r| - 1 ensures NotAfter(r[i], r[i + 1]) {
          if i > 0 { assert r[i] == Compact(s[1..])[i - 1] && r[i + 1] == Compact(s[1..])[i]; }
        }
      }
    }
  }

  /** No two neighbours, and so no two intervals of a sorted list, are equal. */
  predicate NoTwins(s: seq<Interval>) {
    forall i :: 0 <= i < |s| - 1 ==> s[i] != s[i + 1]
  }

  lemma SameMembers(a: seq<Interval>, b: seq<Interval>, v: Interval)
    requires multiset(a) == multiset(b)
    ensures v in a <==> v in b
  {
    assert v in a <==> v in multiset(a);
    assert v in b <==> v in multiset(b);
  }

  lemma {:induction false} CompactMembers(s: seq<Interval>, v: Interval)
    ensures v in Compact(s) <==> v in s
  {
    if |s| > 1 {
      CompactMembers(s[1..], v);
      assert s == [s[0]] + s[1..] && s[1] == s[1..][0];
    }
  }

  lemma {:induction false} CompactNoTwins(s: seq<Interval>)
    ensures NoTwins(Compact(s)) && (s != [] ==> Compact(s) != [] && Compact(s)[0] == s[0])
  {
    if |s| > 1 {
      CompactNoTwins(s[1..]);
      var r := Compact(s);
      forall i | 0 <= i < |r| - 1 ensures r[i] != r[i + 1] {
        if s[0] != s[1] && i > 0 {
          assert r[i] == Compact(s[1..])[i - 1] && r[i + 1] == Compact(s[1..])[i];
        }
      }
    }
  }

  // ---------------------------------------------------------------------------- merging

  function Wider(a: Interval, b: Interval): Interval {
    if b.end > a.end then Interval(a.start, b.end) else a
  }

  /** Collapse whatever starts at or before the end of v into v. */
  function MergeFrom(v: Interval, s: seq<Interval>): (r: seq<Interval>)
    ensures |r| >= 1
    decreases |s|
  {
    if s == [] then [v]
    else if s[0].start > v.end then [v] + MergeFrom(s[0], s[1..])
    else MergeFrom(Wider(v, s[0]), s[1..])
  }

  function Merge(s: seq<Interval>): seq<Interval> {
    if s == [] then [] else MergeFrom(s[0], s[1..])
  }

  lemma {:induction false} MergeSpec(v: Interval, s: seq<Interval>, x: int)
    requires v.start <= v.end && Ok(s) && Sorted(s) && (s != [] ==> v.start <= s[0].start)
    ensures var r := MergeFrom(v, s);
      Ok(r) && Gapped(r) && r[0].start == v.start && (Has(r, x) <==> In(v, x) || Has(s, x))
    decreases |s|
  {
    hide Has;
    if s == [] {
      HasNone(x);
      HasCons(v, [], x);
      assert [v] + [] == [v];
    } else {
      var rest := s[1..];
      Cons(s);
      assert forall i :: 0 <= i < |rest| ==> rest[i] == s[i + 1];
      HasCons(s[0], rest, x);
      if s[0].start > v.end {
        MergeSpec(s[0], rest, x);
        var m := MergeFrom(s[0], rest);
        HasCons(v, m, x);
        var r := [v] + m;
        forall i | 0 <= i < |r| - 1 ensures r[i].end < r[i + 1].start {
          if i > 0 { assert r[i] == m[i - 1] && r[i + 1] == m[i]; }
        }
      } else {
        MergeSpec(Wider(v, s[0]), rest, x);
      }
    }
  }

  lemma HasNone(x: int)
    ensures !Has([], x)
  {
  }

  /** The normal form of a list. */
  function Normal(s: seq<Interval>): seq<Interval> {
    Merge(Compact(Sort(s)))
  }

  /** Normalising keeps the integers and leaves strict gaps. */
  lemma NormalSpec(s: seq<Interval>, x: int)
    requires Ok(s)
    ensures Ok(Normal(s)) && Gapped(Normal(s)) && (Has(Normal(s), x) <==> Has(s, x))
  {
    hide Has, In, MergeFrom;
    SortOk(s);
    SortSpec(s, x);
    CompactSpec(Sort(s), x);
    var c := Compact(Sort(s));
    if c != [] {
      Cons(c);
      assert forall i :: 0 <= i < |c[1..]| ==> c[1..][i] == c[i + 1];
      HasCons(c[0], c[1..], x);
      MergeSpec(c[0], c[1..], x);
    }
  }

  /** `Compress`, in place: the front of the array becomes the normal form. */
  method Compress(a: array<Interval>) returns (n: nat)
    requires Ok(a[..])
    modifies a
    ensures n <= a.Length && a[..n] == Normal(old(a[..]))
  {
    hide Sort, Compact, MergeFrom, Merge;
    ghost var target := Normal(a[..]);
    var len := SortAndCompact(a);
    var i, w := 0, 0;
    assert a[0..len] == a[..len];
    while i < len
      invariant 0 <= w <= i <= len <= a.Length
      invariant a[..w] + Merge(a[i..len]) == target
    {
      ghost var front := a[..w];
      MergeUnfold(a[i..len]);
      assert a[i..len][1..] == a[i + 1..len];
      var j := Absorb(a, i, len);
      assert a[..w] == front;
      ghost var rest := a[j..len];
      a[w] := a[i];
      Moved(front, a[w], Merge(rest));
      assert a[..w + 1] == front + [a[w]] && a[j..len] == rest;
      w := w + 1;
      i := j;
    }
    MergeUnfold(a[i..len]);
    n := w;
  }

  lemma MergeUnfold(s: seq<Interval>)
    ensures s == [] ==> Merge(s) == []
    ensures s != [] ==> Merge(s) == MergeFrom(s[0], s[1..])
  {
  }

  lemma Moved(front: seq<Interval>, v: Interval, rest: seq<Interval>)
    ensures front + ([v] + rest) == (front + [v]) + rest
  {
  }

  /** The inner loop: a[i] swallows its successors as long as they touch it. */
  method Absorb(a: array<Interval>, i: nat, len: nat) returns (j: nat)
    requires i < len <= a.Length
    modifies a
    ensures i < j <= len && a[..i] == old(a[..i]) && a[i + 1..] == old(a[i + 1..])
    ensures [a[i]] + Merge(a[j..len]) == MergeFrom(old(a[i]), old(a[i + 1..len]))
  {
    hide MergeFrom;
    j := i + 1;
    while j < len
      invariant i < j <= len && a[..i] == old(a[..i]) && a[i + 1..] == old(a[i + 1..])
      invariant MergeFrom(a[i], a[j..len]) == MergeFrom(old(a[i]), old(a[i + 1..len]))
    {
      MergeStep(a[i], a[j..len]);
      assert a[j..len][1..] == a[j + 1..len];
      if a[j].start > a[i].end { break; }
      ghost var rest := a[j + 1..len];
      if a[j].end > a[i].end {
        a[i] := Interval(a[i].start, a[j].end);
      }
      assert a[j + 1..len] == rest;
      j := j + 1;
    }
    MergeEnd(a[i], a[j..len]);
  }

  lemma MergeStep(v: Interval, s: seq<Interval>)
    requires s != []
    ensures s[0].start <= v.end ==> MergeFrom(v, s) == MergeFrom(Wider(v, s[0]), s[1..])
  {
  }

  lemma MergeEnd(v: Interval, s: seq<Interval>)
    requires s == [] || s[0].start > v.end
    ensures MergeFrom(v, s) == [v] + Merge(s)
  {
  }

  /** The front of the array holds the same intervals, each once, in order. */
  method SortAndCompact(a: array<Interval>) returns (n: nat)
    requires Ok(a[..])
    modifies a
    ensures n <= a.Length && a[..n] == Compact(Sort(old(a[..])))
    ensures Sorted(a[..n]) && NoTwins(a[..n]) && forall v :: v in a[..n] <==> v in old(a[..])
  {
    hide Sort, Compact;
    var c := Compact(Sort(a[..]));
    SortOk(a[..]);
    SortSpec(a[..], 0);
    CompactSpec(Sort(a[..]), 0);
    forall v ensures v in c <==> v in a[..] {
      SameMembers(Sort(a[..]), a[..], v);
      CompactMembers(Sort(a[..]), v);
    }
    CompactNoTwins(Sort(a[..]));
    n := |c|;
    forall k | 0 <= k < n {
      a[k] := c[k];
    }
  }

  // --------------------------------------------------------------------- uniqueness, size

  predicate NonEmpty(s: seq<Interval>) {
    forall i :: 0 <= i < |s| ==> s[i].start < s[i].end
  }

  /** In a gapped list everything behind the first interval lies beyond its end. */
  lemma {:induction false} BeyondFirst(s: seq<Interval>, x: int)
    requires s != [] && Ok(s) && Gapped(s) && Has(s[1..], x)
    ensures x > s[0].end
    decreases |s|
  {
    var rest := s[1..];
    assert forall i :: 0 <= i < |rest| ==> rest[i] == s[i + 1];
    var i :| 0 <= i < |rest| && In(rest[i], x);
    if i > 0 {
      assert In(rest[1..][i - 1], x);
      BeyondFirst(rest, x);
    }
  }

  ghost predicate Equivalent(a: seq<Interval>, b: seq<Interval>) {
    forall x :: Has(a, x) <==> Has(b, x)
  }

  /** Gapped lists of non-empty intervals are determined by the integers they stand for. */
  lemma {:induction false} Canonical(a: seq<Interval>, b: seq<Interval>)
    requires NonEmpty(a) && NonEmpty(b) && Gapped(a) && Gapped(b) && Equivalent(a, b)
    ensures a == b
    decreases |a|
  {
    hide Has;
    if a == [] {
      if b != [] { FirstIn(b); HasNone(b[0].start); }
    } else if b == [] {
      FirstIn(a);
      HasNone(a[0].start);
    } else {
      Cons(a);
      Cons(b);
      SameFirst(a, b);
      RestEquivalent(a, b);
      assert forall i :: 0 <= i < |a[1..]| ==> a[1..][i] == a[i + 1];
      assert forall i :: 0 <= i < |b[1..]| ==> b[1..][i] == b[i + 1];
      Canonical(a[1..], b[1..]);
    }
  }

  lemma FirstIn(s: seq<Interval>)
    requires s != [] && NonEmpty(s)
    ensures Has(s, s[0].start) && Has(s, s[0].end - 1)
  {
    assert In(s[0], s[0].start) && In(s[0], s[0].end - 1);
  }

  /** Nothing lies before the first interval, and its end is not in the list. */
  lemma AroundFirst(s: seq<Interval>, x: int)
    requires s != [] && NonEmpty(s) && Gapped(s)
    ensures x < s[0].start || x == s[0].end ==> !Has(s, x)
    ensures s[0].start <= x < s[0].end ==> Has(s, x)
  {
    hide Has;
    Cons(s);
    HasCons(s[0], s[1..], x);
    if Has(s[1..], x) {
      BeyondFirst(s, x);
    }
  }

  lemma SameFirst(a: seq<Interval>, b: seq<Interval>)
    requires a != [] && b != [] && NonEmpty(a) && NonEmpty(b) && Gapped(a) && Gapped(b) && Equivalent(a, b)
    ensures a[0] == b[0]
  {
    hide Has;
    assert Has(a, a[0].start) <==> Has(b, a[0].start);
    assert Has(a, b[0].start) <==> Has(b, b[0].start);
    AroundFirst(a, a[0].start);
    AroundFirst(b, a[0].start);
    AroundFirst(a, b[0].start);
    AroundFirst(b, b[0].start);
    assert Has(a, a[0].end) <==> Has(b, a[0].end);
    assert Has(a, b[0].end) <==> Has(b, b[0].end);
    AroundFirst(a, a[0].end);
    AroundFirst(b, a[0].end);
    AroundFirst(a, b[0].end);
    AroundFirst(b, b[0].end);
  }

  lemma RestEquivalent(a: seq<Interval>, b: seq<Interval>)
    requires a != [] && b != [] && NonEmpty(a) && NonEmpty(b) && Gapped(a) && Gapped(b) && Equivalent(a, b) && a[0] == b[0]
    ensures Equivalent(a[1..], b[1..])
  {
    hide Has;
    Cons(a);
    Cons(b);
    forall x ensures Has(a[1..], x) <==> Has(b[1..], x) {
      HasCons(a[0], a[1..], x);
      HasCons(b[0], b[1..], x);
      assert Has(a, x) <==> Has(b, x);
      if Has(a[1..], x) { BeyondFirst(a, x); }
      if Has(b[1..], x) { BeyondFirst(b, x); }
    }
  }

  // ------------------------------------------------------- when two lists normalise alike

  /** x lies in an interval or is the end of one. */
  predicate Reaches(s: seq<Interval>, x: int) {
    exists i :: 0 <= i < |s| && s[i].start <= x <= s[i].end
  }

  /** Twice as fine: odd numbers are the integers of an interval, even ones its points from start
      to end. No interval is empty at this scale. */
  function Finer(v: Interval): Interval {
    Interval(2 * v.start, 2 * v.end + 1)
  }

  function FinerAll(s: seq<Interval>): (r: seq<Interval>)
    ensures |r| == |s|
  {
    seq(|s|, i requires 0 <= i < |s| => Finer(s[i]))
  }

  lemma FinerHas(s: seq<Interval>, x: int)
    ensures Has(FinerAll(s), 2 * x + 1) <==> Has(s, x)
    ensures Has(FinerAll(s), 2 * x) <==> Reaches(s, x)
  {
    var f := FinerAll(s);
    assert forall i :: 0 <= i < |s| ==> f[i] == Finer(s[i]);
    assert forall i :: 0 <= i < |s| ==> (In(f[i], 2 * x + 1) <==> In(s[i], x));
    assert forall i :: 0 <= i < |s| ==> (In(f[i], 2 * x) <==> s[i].start <= x <= s[i].end);
  }

  lemma FinerCons(v: Interval, s: seq<Interval>)
    ensures FinerAll([v] + s) == [Finer(v)] + FinerAll(s)
    ensures FinerAll([]) == []
  {
  }

  lemma FinerFirst(s: seq<Interval>)
    requires s != []
    ensures FinerAll(s) == [Finer(s[0])] + FinerAll(s[1..]) && FinerAll(s)[1..] == FinerAll(s[1..]) && FinerAll(s)[0] == Finer(s[0])
  {
  }

  lemma {:induction false} FinerInsert(v: Interval, s: seq<Interval>)
    ensures FinerAll(Insert(v, s)) == Insert(Finer(v), FinerAll(s))
  {
    hide FinerAll;
    FinerCons(v, s);
    if s != [] {
      FinerFirst(s);
      FinerInsert(v, s[1..]);
      FinerCons(s[0], Insert(v, s[1..]));
    }
  }

  lemma {:induction false} FinerSort(s: seq<Interval>)
    ensures FinerAll(Sort(s)) == Sort(FinerAll(s))
  {
    hide FinerAll, Insert;
    if s == [] {
      FinerCons(Interval(0, 0), []);
    } else {
      FinerFirst(s);
      FinerSort(s[1..]);
      FinerInsert(s[0], Sort(s[1..]));
    }
  }

  lemma {:induction false} FinerCompact(s: seq<Interval>)
    ensures FinerAll(Compact(s)) == Compact(FinerAll(s))
  {
    hide FinerAll;
    if |s| > 1 {
      FinerFirst(s);
      FinerFirst(s[1..]);
      FinerCompact(s[1..]);
      FinerCons(s[0], Compact(s[1..]));
    }
  }

  lemma {:induction false} FinerMerge(v: Interval, s: seq<Interval>)
    ensures FinerAll(MergeFrom(v, s)) == MergeFrom(Finer(v), FinerAll(s))
    decreases |s|
  {
    hide FinerAll;
    FinerCons(v, []);
    assert [v] + [] == [v] && [Finer(v)] + [] == [Finer(v)];
    if s != [] {
      FinerFirst(s);
      if s[0].start > v.end {
        FinerMerge(s[0], s[1..]);
        FinerCons(v, MergeFrom(s[0], s[1..]));
      } else {
        FinerMerge(Wider(v, s[0]), s[1..]);
      }
    }
  }

  /** Normalising does not depend on the scale. */
  lemma FinerNormal(s: seq<Interval>)
    ensures FinerAll(Normal(s)) == Normal(FinerAll(s))
  {
    hide FinerAll, Sort, Compact, MergeFrom;
    FinerSort(s);
    FinerCompact(Sort(s));
    var c := Compact(Sort(s));
    FinerCons(Interval(0, 0), []);
    if c != [] {
      FinerFirst(c);
      FinerMerge(c[0], c[1..]);
    }
  }

  lemma FinerIsNonEmpty(s: seq<Interval>)
    requires Ok(s)
    ensures NonEmpty(FinerAll(s)) && Ok(FinerAll(s)) && (Gapped(s) ==> Gapped(FinerAll(s)))
  {
  }

  lemma FinerInjective(a: seq<Interval>, b: seq<Interval>)
    requires FinerAll(a) == FinerAll(b)
    ensures a == b
  {
    forall i | 0 <= i < |a| ensures a[i] == b[i] {
      assert FinerAll(a)[i] == FinerAll(b)[i];
    }
  }

  /** Two lists have the same normal form exactly if they hold the same integers and reach the
      same points. */
  lemma NormalIff(a: seq<Interval>, b: seq<Interval>)
    requires Ok(a) && Ok(b)
    ensures Normal(a) == Normal(b) <==> Equivalent(a, b) && forall x :: Reaches(a, x) <==> Reaches(b, x)
  {
    hide Has, Normal, FinerAll, Reaches, Ok, NonEmpty, Gapped;
    FinerIsNonEmpty(a);
    FinerIsNonEmpty(b);
    FinerNormal(a);
    FinerNormal(b);
    if Normal(a) == Normal(b) {
      forall x ensures (Has(a, x) <==> Has(b, x)) && (Reaches(a, x) <==> Reaches(b, x)) {
        NormalKeepsBoth(a, x);
        NormalKeepsBoth(b, x);
      }
    }
    if Equivalent(a, b) && forall x :: Reaches(a, x) <==> Reaches(b, x) {
      NormalSpec(a, 0);
      NormalSpec(b, 0);
      FinerIsNonEmpty(Normal(a));
      FinerIsNonEmpty(Normal(b));
      forall y ensures Has(FinerAll(Normal(a)), y) <==> Has(FinerAll(Normal(b)), y) {
        FinerAt(a, y);
        FinerAt(b, y);
        assert (Has(a, y / 2) <==> Has(b, y / 2)) && (Reaches(a, y / 2) <==> Reaches(b, y / 2));
      }
      Canonical(FinerAll(Normal(a)), FinerAll(Normal(b)));
      FinerInjective(Normal(a), Normal(b));
    }
  }

  lemma NormalKeepsBoth(a: seq<Interval>, x: int)
    requires Ok(a)
    ensures (Has(Normal(a), x) <==> Has(a, x)) && (Reaches(Normal(a), x) <==> Reaches(a, x))
  {
    hide Has, Normal, FinerAll, Reaches;
    FinerIsNonEmpty(a);
    FinerNormal(a);
    NormalSpec(a, x);
    NormalSpec(FinerAll(a), 2 * x);
    FinerHas(a, x);
    FinerHas(Normal(a), x);
  }

  lemma FinerAt(a: seq<Interval>, y: int)
    requires Ok(a)
    ensures Has(FinerAll(Normal(a)), y) <==> if y % 2 == 1 then Has(a, y / 2) else Reaches(a, y / 2)
  {
    hide Has, Normal, FinerAll, Reaches;
    NormalKeepsBoth(a, y / 2);
    FinerHas(Normal(a), y / 2);
    assert y == 2 * (y / 2) + y % 2;
  }

  /** Without empty intervals the integers decide. */
  lemma NonEmptyReaches(s: seq<Interval>, x: int)
    requires NonEmpty(s)
    ensures Reaches(s, x) <==> Has(s, x) || Has(s, x - 1)
  {
    if Reaches(s, x) {
      var i :| 0 <= i < |s| && s[i].start <= x <= s[i].end;
      assert In(s[i], x) || In(s[i], x - 1);
    }
    if Has(s, x - 1) {
      var i :| 0 <= i < |s| && In(s[i], x - 1);
      assert s[i].start <= x <= s[i].end;
    }
  }

  /** Equal sets of non-empty intervals give equal lists. */
  lemma NormalCanonical(a: seq<Interval>, b: seq<Interval>)
    requires NonEmpty(a) && NonEmpty(b) && Equivalent(a, b)
    ensures Normal(a) == Normal(b) && NonEmpty(Normal(a))
  {
    hide Has, Normal, Reaches;
    forall x ensures Reaches(a, x) <==> Reaches(b, x) {
      NonEmptyReaches(a, x);
      NonEmptyReaches(b, x);
      assert (Has(a, x) <==> Has(b, x)) && (Has(a, x - 1) <==> Has(b, x - 1));
    }
    NormalIff(a, b);
    NormalNonEmpty(a);
  }

  /** Empty intervals survive where nothing touches them: the same integers, another list. */
  lemma EmptyIntervalStays()
    ensures Equivalent([Interval(3, 3)], []) && Normal([Interval(3, 3)]) == [Interval(3, 3)] && Normal([]) == []
  {
    forall x ensures !Has([Interval(3, 3)], x) && !Has([], x) {
    }
    assert Sort([Interval(3, 3)]) == [Interval(3, 3)];
  }

  lemma NormalNonEmpty(s: seq<Interval>)
    requires NonEmpty(s)
    ensures NonEmpty(Normal(s))
  {
    hide Sort, Compact, MergeFrom;
    SortSpec(s, 0);
    var c := Compact(Sort(s));
    forall i | 0 <= i < |c| ensures c[i].start < c[i].end {
      CompactMembers(Sort(s), c[i]);
      SameMembers(Sort(s), s, c[i]);
    }
    if c != [] {
      MergeNonEmpty(c[0], c[1..]);
    }
  }

  lemma {:induction false} MergeNonEmpty(v: Interval, s: seq<Interval>)
    requires v.start < v.end && NonEmpty(s)
    ensures NonEmpty(MergeFrom(v, s))
    decreases |s|
  {
    if s != [] {
      if s[0].start > v.end {
        MergeNonEmpty(s[0], s[1..]);
      } else {
        MergeNonEmpty(Wider(v, s[0]), s[1..]);
      }
    }
  }

  function Range(lo: int, hi: int): set<int>
    decreases hi - lo
  {
    if lo >= hi then {} else Range(lo, hi - 1) + {hi - 1}
  }

  lemma {:induction false} RangeIn(lo: int, hi: int, x: int)
    ensures x in Range(lo, hi) <==> lo <= x < hi
    decreases hi - lo
  {
    if lo < hi {
      RangeIn(lo, hi - 1, x);
    }
  }

  lemma {:induction false} RangeSize(lo: int, hi: int)
    requires lo <= hi
    ensures |Range(lo, hi)| == hi - lo
    decreases hi - lo
  {
    if lo < hi {
      RangeSize(lo, hi - 1);
      RangeIn(lo, hi - 1, hi - 1);
    }
  }

  function Elements(s: seq<Interval>): set<int> {
    if s == [] then {} else Range(s[0].start, s[0].end) + Elements(s[1..])
  }

  lemma {:induction false} ElementsHas(s: seq<Interval>, x: int)
    ensures x in Elements(s) <==> Has(s, x)
  {
    hide Has;
    if s == [] {
      HasNone(x);
    } else {
      Cons(s);
      HasCons(s[0], s[1..], x);
      RangeIn(s[0].start, s[0].end, x);
      ElementsHas(s[1..], x);
    }
  }

  function Length(v: Interval): nat {
    if v.end <= v.start then 0 else v.end - v.start
  }

  function SumLengths(s: seq<Interval>): nat {
    if s == [] then 0 else SumLengths(s[..|s| - 1]) + Length(s[|s| - 1])
  }

  /** `Len`. */
  method Len(s: seq<Interval>) returns (n: nat)
    ensures n == SumLengths(s)
    ensures Ok(s) && Gapped(s) ==> n == |Elements(s)|
  {
    n := 0;
    for i := 0 to |s|
      invariant n == SumLengths(s[..i])
    {
      assert s[..i + 1][..i] == s[..i];
      n := n + Length(s[i]);
    }
    assert s[..|s|] == s;
    if Ok(s) && Gapped(s) {
      LenIsSize(s);
    }
  }

  lemma {:induction false} SumFront(s: seq<Interval>)
    requires s != []
    ensures SumLengths(s) == Length(s[0]) + SumLengths(s[1..])
    decreases |s|
  {
    if |s| > 1 {
      SumFront(s[..|s| - 1]);
      assert s[..|s| - 1][1..] == s[1..][..|s| - 2];
    }
  }

  /** For gapped lists the length is the number of integers. */
  lemma {:induction false} LenIsSize(s: seq<Interval>)
    requires Ok(s) && Gapped(s)
    ensures SumLengths(s) == |Elements(s)|
    decreases |s|
  {
    if s != [] {
      assert forall i :: 0 <= i < |s[1..]| ==> s[1..][i] == s[i + 1];
      SumFront(s);
      LenIsSize(s[1..]);
      RangeSize(s[0].start, s[0].end);
      forall x | x in Elements(s[1..]) ensures x !in Range(s[0].start, s[0].end) {
        ElementsHas(s[1..], x);
        BeyondFirst(s, x);
        RangeIn(s[0].start, s[0].end, x);
      }
      Disjoint(Range(s[0].start, s[0].end), Elements(s[1..]));
    }
  }

  lemma Disjoint(a: set<int>, b: set<int>)
    requires a !! b
    ensures |a + b| == |a| + |b|
  {
  }

  // ------------------------------------------------------------------------ intersection

  function IntersectOne(a: Interval, b: Interval): Interval {
    if a.end <= b.start || a.start >= b.end then Interval(0, 0)
    else Interval(if b.start > a.start then b.start else a.start, if b.end < a.end then b.end else a.end)
  }

  lemma IntersectOneSpec(a: Interval, b: Interval, x: int)
    ensures In(IntersectOne(a, b), x) <==> In(a, x) && In(b, x)
  {
  }

  /** `Intersect`: the intersection as a set, in normal form. */
  method Intersect(a: seq<Interval>, b: seq<Interval>) returns (out: seq<Interval>)
    ensures Gapped(out) && NonEmpty(out)
    ensures forall x :: Has(out, x) <==> Has(a, x) && Has(b, x)
  {
    hide Has, In, IntersectOne, Normal;
    var all: seq<Interval> := [];
    NothingYet(a);
    for i := 0 to |a|
      invariant NonEmpty(all) && forall x :: Has(all, x) <==> Has(a[..i], x) && Has(b, x)
    {
      var one := IntersectAll(a[i], b);
      ghost var before := all;
      all := all + one;
      OneMore(a, i, b, before, one);
    }
    assert a[..|a|] == a;
    var arr := new Interval[|all|](k requires 0 <= k < |all| => all[k]);
    assert arr[..] == all;
    var n := Compress(arr);
    out := arr[..n];
    forall x ensures Has(out, x) <==> Has(a, x) && Has(b, x) {
      NormalSpec(all, x);
    }
    NormalSpec(all, 0);
    NormalNonEmpty(all);
  }

  lemma NothingYet(a: seq<Interval>)
    ensures forall x :: !Has([], x) && !Has(a[..0], x)
  {
  }

  lemma HasAppend(s: seq<Interval>, t: seq<Interval>, x: int)
    ensures Has(s + t, x) <==> Has(s, x) || Has(t, x)
  {
    if Has(s + t, x) {
      var i :| 0 <= i < |s + t| && In((s + t)[i], x);
      if i < |s| { assert In(s[i], x); } else { assert In(t[i - |s|], x); }
    }
    if Has(s, x) {
      var i :| 0 <= i < |s| && In(s[i], x);
      assert In((s + t)[i], x);
    }
    if Has(t, x) {
      var i :| 0 <= i < |t| && In(t[i], x);
      assert In((s + t)[|s| + i], x);
    }
  }

  lemma OneMore(a: seq<Interval>, i: nat, b: seq<Interval>, all: seq<Interval>, one: seq<Interval>)
    requires i < |a| && (forall x :: Has(all, x) <==> Has(a[..i], x) && Has(b, x))
    requires forall x :: Has(one, x) <==> In(a[i], x) && Has(b, x)
    ensures forall x :: Has(all + one, x) <==> Has(a[..i + 1], x) && Has(b, x)
  {
    hide Has, In;
    assert a[..i + 1] == a[..i] + [a[i]];
    forall x ensures Has(all + one, x) <==> Has(a[..i + 1], x) && Has(b, x) {
      HasAppend(all, one, x);
      HasAppend(a[..i], [a[i]], x);
      assert [a[i]] + [] == [a[i]];
      HasCons(a[i], [], x);
      HasNone(x);
    }
  }

  /** The inner loop of `Intersect`. */
  method IntersectAll(v: Interval, b: seq<Interval>) returns (one: seq<Interval>)
    ensures NonEmpty(one) && forall x :: Has(one, x) <==> In(v, x) && Has(b, x)
  {
    hide Has, In, IntersectOne;
    one := [];
    NothingYet(b);
    for j := 0 to |b|
      invariant NonEmpty(one) && forall x :: Has(one, x) <==> In(v, x) && Has(b[..j], x)
    {
      var w := IntersectOne(v, b[j]);
      AddOne(v, b, j, one, w);
      if !Empty(w) {
        one := one + [w];
      }
    }
    assert b[..|b|] == b;
  }

  lemma AddOne(v: Interval, b: seq<Interval>, j: nat, one: seq<Interval>, w: Interval)
    requires j < |b| && w == IntersectOne(v, b[j]) && forall x :: Has(one, x) <==> In(v, x) && Has(b[..j], x)
    ensures forall x :: Has(if Empty(w) then one else one + [w], x) <==> In(v, x) && Has(b[..j + 1], x)
  {
    hide Has, In, IntersectOne;
    assert b[..j + 1] == b[..j] + [b[j]];
    forall x ensures Has(if Empty(w) then one else one + [w], x) <==> In(v, x) && Has(b[..j + 1], x) {
      IntersectOneSpec(v, b[j], x);
      HasAppend(one, [w], x);
      HasAppend(b[..j], [b[j]], x);
      assert [w] + [] == [w] && [b[j]] + [] == [b[j]];
      HasCons(w, [], x);
      HasCons(b[j], [], x);
      HasNone(x);
      NotIn(w, x);
    }
  }

  lemma NotIn(w: Interval, x: int)
    ensures Empty(w) ==> !In(w, x)
  {
  }

  // ------------------------------------------------------------------------- Next, Overlaps

  /** The integers of one interval, and of a list, one after the other. */
  function Run(v: Interval): seq<int> {
    if Empty(v) then [] else seq(v.end - v.start, i => v.start + i)
  }

  function Enumerate(s: seq<Interval>): seq<int> {
    if s == [] then [] else Run(s[0]) + Enumerate(s[1..])
  }

  /** `Next`: the first integer of the series, removed from it. */
  method Next(s: seq<Interval>) returns (rest: seq<Interval>, n: int, ok: bool)
    ensures ok ==> Enumerate(s) == [n] + Enumerate(rest)
    ensures !ok ==> Enumerate(s) == [] && n == 0 && rest == []
    ensures ok && Ok(s) && Gapped(s) ==> Ok(rest) && Gapped(rest)
  {
    hide Enumerate, Ok, Gapped, Run;
    rest := s;
    while rest != []
      invariant Enumerate(rest) == Enumerate(s) && (Ok(s) && Gapped(s) ==> Ok(rest) && Gapped(rest))
      decreases |rest|
    {
      var first := rest[0];
      if !Empty(first) {
        n, ok := first.start, true;
        EnumerateStep(rest);
        rest := rest[0 := Interval(first.start + 1, first.end)];
        return;
      }
      EnumerateSkip(rest);
      rest := rest[1..];
    }
    EnumerateNone();
    n, ok := 0, false;
  }

  lemma EnumerateNone()
    ensures Enumerate([]) == []
  {
  }

  lemma RunStep(v: Interval)
    requires !Empty(v)
    ensures Run(v) == [v.start] + Run(Interval(v.start + 1, v.end))
  {
  }

  lemma EnumerateStep(s: seq<Interval>)
    requires s != [] && !Empty(s[0])
    ensures var t := s[0 := Interval(s[0].start + 1, s[0].end)];
      && Enumerate(s) == [s[0].start] + Enumerate(t)
      && (Ok(s) && Gapped(s) ==> Ok(t) && Gapped(t))
  {
    hide Run;
    var t := s[0 := Interval(s[0].start + 1, s[0].end)];
    RunStep(s[0]);
    assert t[1..] == s[1..];
    assert [s[0].start] + Run(t[0]) + Enumerate(s[1..]) == [s[0].start] + (Run(t[0]) + Enumerate(s[1..]));
  }

  lemma EnumerateSkip(s: seq<Interval>)
    requires s != [] && Empty(s[0])
    ensures Enumerate(s) == Enumerate(s[1..])
    ensures Ok(s) && Gapped(s) ==> Ok(s[1..]) && Gapped(s[1..])
  {
    assert Enumerate(s) == [] + Enumerate(s[1..]);
    assert forall i :: 0 <= i < |s[1..]| ==> s[1..][i] == s[i + 1];
  }

  lemma RunIn(v: Interval, x: int)
    ensures x in Run(v) <==> In(v, x)
  {
    if In(v, x) {
      assert Run(v)[x - v.start] == x;
    }
  }

  /** What the series lists is what the intervals hold. */
  lemma {:induction false} EnumerateHas(s: seq<Interval>, x: int)
    ensures x in Enumerate(s) <==> Has(s, x)
    decreases |s|
  {
    hide Run, Has;
    if s == [] {
      HasNone(x);
    } else {
      RunIn(s[0], x);
      EnumerateHas(s[1..], x);
      Cons(s);
      HasCons(s[0], s[1..], x);
    }
  }

  predicate Increasing(xs: seq<int>) {
    forall i, j :: 0 <= i < j < |xs| ==> xs[i] < xs[j]
  }

  /** For a normalised list the series is strictly increasing, so that `Next` takes the least
      integer and leaves exactly the others. */
  lemma {:induction false} EnumerateIncreasing(s: seq<Interval>)
    requires Ok(s) && Gapped(s)
    ensures Increasing(Enumerate(s))
    decreases |s|
  {
    if s != [] {
      assert forall i :: 0 <= i < |s[1..]| ==> s[1..][i] == s[i + 1];
      EnumerateIncreasing(s[1..]);
      forall x | x in Enumerate(s[1..]) ensures x > s[0].end {
        EnumerateHas(s[1..], x);
        BeyondFirst(s, x);
      }
      Joined(Run(s[0]), Enumerate(s[1..]), s[0].end);
    }
  }

  lemma Joined(a: seq<int>, b: seq<int>, bound: int)
    requires Increasing(a) && Increasing(b)
    requires (forall x :: x in a ==> x < bound) && (forall x :: x in b ==> x > bound)
    ensures Increasing(a + b)
  {
    forall i, j | 0 <= i < j < |a + b| ensures (a + b)[i] < (a + b)[j] {
      if i < |a| <= j {
        assert a[i] in a && b[j - |a|] in b;
      }
    }
  }

  predicate StartsInOrder(s: seq<Interval>) {
    forall i, j :: 0 <= i < j < |s| ==> s[i].start <= s[j].start
  }

  /** Some interval, empty or not, ends after start and begins before end. */
  predicate Meets(s: seq<Interval>, start: int, end: int) {
    exists i :: 0 <= i < |s| && s[i].end > start && s[i].start < end
  }

  /** `Overlaps`: a positive answer names an interval that meets the range; a negative one says that
      none does if the intervals are in order of their starts. */
  method Overlaps(s: seq<Interval>, start: int, end: int) returns (r: bool)
    ensures r ==> Meets(s, start, end)
    ensures StartsInOrder(s) ==> (r <==> Meets(s, start, end))
    ensures r && NonEmpty(s) && start < end ==> exists x :: start <= x < end && Has(s, x)
    ensures !r && StartsInOrder(s) ==> !exists x :: start <= x < end && Has(s, x)
  {
    var i := 0;
    while i < |s|
      invariant 0 <= i <= |s| && forall k :: 0 <= k < i ==> s[k].end <= start
    {
      if s[i].end > start {
        if s[i].start >= end {
          return false;
        }
        if NonEmpty(s) && start < end { MeetsShares(s, start, end, i); }
        return true;
      }
      i := i + 1;
    }
    r := false;
  }

  lemma MeetsShares(s: seq<Interval>, start: int, end: int, i: nat)
    requires i < |s| && s[i].end > start && s[i].start < end && start < end && s[i].start < s[i].end
    ensures exists x :: start <= x < end && Has(s, x)
  {
    var x := if s[i].start > start then s[i].start else start;
    assert In(s[i], x) && Has(s, x);
  }

  /** Exactly when meeting a range means sharing an integer with it: some interval that meets it is
      not empty. An empty interval strictly inside the range is taken for an overlap. */
  lemma MeetsIff(s: seq<Interval>, start: int, end: int)
    requires start < end && Meets(s, start, end)
    ensures (exists x :: start <= x < end && Has(s, x))
       <==> exists i :: 0 <= i < |s| && s[i].end > start && s[i].start < end && !Empty(s[i])
  {
    if exists i :: 0 <= i < |s| && s[i].end > start && s[i].start < end && !Empty(s[i]) {
      var i :| 0 <= i < |s| && s[i].end > start && s[i].start < end && !Empty(s[i]);
      MeetsShares(s, start, end, i);
    }
  }
}
