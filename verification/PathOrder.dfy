/** `fsutil/dir.go`: comparing and cutting slash-separated paths segment by segment. */
module PathOrder {
  import opened IonCodec

  const SLASH: byte := 47
  const DOT: bytes := [46]
  const DOTDOT: bytes := [46, 46]

  type Name = bytes
  type Path = seq<Name>

  // ------------------------------------------------------------------------- the order

  /** Byte-wise lexicographic comparison, as Go compares strings. */
  function CmpName(a: Name, b: Name): (r: int)
    ensures r == -1 || r == 0 || r == 1
  {
    if a == [] then (if b == [] then 0 else -1)
    else if b == [] then 1
    else if a[0] < b[0] then -1
    else if a[0] > b[0] then 1
    else CmpName(a[1..], b[1..])
  }

  lemma {:induction false} CmpNameEqual(a: Name, b: Name)
    ensures CmpName(a, b) == 0 <==> a == b
    ensures CmpName(a, b) == -CmpName(b, a)
    decreases |a|
  {
    if a != [] && b != [] && a[0] == b[0] {
      CmpNameEqual(a[1..], b[1..]);
      assert a == [a[0]] + a[1..] && b == [b[0]] + b[1..];
    }
  }

  lemma {:induction false} CmpNameTransitive(a: Name, b: Name, c: Name)
    requires CmpName(a, b) < 0 && CmpName(b, c) < 0
    ensures CmpName(a, c) < 0
    decreases |a|
  {
    if a != [] && b != [] && c != [] && a[0] == b[0] == c[0] {
      CmpNameTransitive(a[1..], b[1..], c[1..]);
    }
  }

  /** Segment by segment; a prefix comes first. */
  function CmpPath(a: Path, b: Path): (r: int)
    ensures r == -1 || r == 0 || r == 1
  {
    if a == [] then (if b == [] then 0 else -1)
    else if b == [] then 1
    else if CmpName(a[0], b[0]) != 0 then CmpName(a[0], b[0])
    else CmpPath(a[1..], b[1..])
  }

  lemma {:induction false} CmpPathEqual(a: Path, b: Path)
    ensures CmpPath(a, b) == 0 <==> a == b
    ensures CmpPath(a, b) == -CmpPath(b, a)
    decreases |a|
  {
    if a != [] && b != [] {
      CmpNameEqual(a[0], b[0]);
      CmpPathEqual(a[1..], b[1..]);
      assert a == [a[0]] + a[1..] && b == [b[0]] + b[1..];
    }
  }

  lemma {:induction false} CmpPathTransitive(a: Path, b: Path, c: Path)
    requires CmpPath(a, b) < 0 && CmpPath(b, c) < 0
    ensures CmpPath(a, c) < 0
    decreases |a|
  {
    hide CmpName;
    if a != [] && b != [] && c != [] {
      CmpNameEqual(a[0], b[0]);
      CmpNameEqual(b[0], c[0]);
      CmpNameEqual(a[0], c[0]);
      if CmpName(a[0], b[0]) < 0 && CmpName(b[0], c[0]) < 0 {
        CmpNameTransitive(a[0], b[0], c[0]);
      } else if a[0] == b[0] == c[0] {
        CmpPathTransitive(a[1..], b[1..], c[1..]);
      }
    }
  }

  /** What follows a common front decides. */
  lemma {:induction false} CmpPathFront(front: Path, a: Path, b: Path)
    ensures CmpPath(front + a, front + b) == CmpPath(a, b)
    decreases |front|
  {
    if front == [] {
      assert front + a == a && front + b == b;
    } else {
      CmpNameEqual(front[0], front[0]);
      assert (front + a)[1..] == front[1..] + a && (front + b)[1..] == front[1..] + b;
      CmpPathFront(front[1..], a, b);
    }
  }

  // --------------------------------------------------------------------- strings as paths

  /** Position of the first slash, or the end. */
  function Slash(p: bytes): (i: nat)
    ensures i <= |p| && (i < |p| ==> p[i] == SLASH)
  {
    if p == [] || p[0] == SLASH then 0 else Slash(p[1..]) + 1
  }

  lemma {:induction false} NoSlashBefore(p: bytes)
    ensures SLASH !in p[..Slash(p)]
  {
    if p != [] && p[0] != SLASH {
      NoSlashBefore(p[1..]);
      assert p[..Slash(p)] == [p[0]] + p[1..][..Slash(p[1..])];
    }
  }

  function Split(p: bytes): (r: Path)
    ensures |r| >= 1
    decreases |p|
  {
    var i := Slash(p);
    if i == |p| then [p] else [p[..i]] + Split(p[i + 1..])
  }

  /** "" and "." are the root. */
  function Segs(p: bytes): Path {
    if p == [] || p == DOT then [] else Split(p)
  }

  /** The inner scan of all the functions below. */
  method FindSlash(p: bytes) returns (i: nat)
    ensures i == Slash(p)
  {
    i := 0;
    assert p[0..] == p;
    while i < |p| && p[i] != SLASH
      invariant i <= |p| && Slash(p) == i + Slash(p[i..])
    {
      assert p[i..][1..] == p[i + 1..];
      i := i + 1;
    }
  }

  /** `pathcmp`. */
  method PathCmp(a: bytes, b: bytes) returns (r: int)
    ensures r == CmpPath(Segs(a), Segs(b))
  {
    hide Split, Slash, CmpName;
    if a == [] || a == DOT {
      if b == [] || b == DOT {
        return 0;
      }
      return -1;
    }
    if b == [] || b == DOT {
      return 1;
    }
    var x, y := a, b;
    while true
      invariant CmpPath(Split(x), Split(y)) == CmpPath(Split(a), Split(b))
      decreases |x|
    {
      var ai := FindSlash(x);
      var bi := FindSlash(y);
      Unsplit(x);
      Unsplit(y);
      var c := CmpName(x[..ai], y[..bi]);
      if c < 0 { return -1; }
      if c > 0 { return 1; }
      if ai == |x| {
        if bi == |y| { return 0; }
        return -1;
      }
      if bi == |y| { return 1; }
      x, y := x[ai + 1..], y[bi + 1..];
    }
  }

  lemma Unsplit(p: bytes)
    ensures var i := Slash(p);
      && Split(p)[0] == p[..i]
      && (i < |p| ==> Split(p)[1..] == Split(p[i + 1..]))
      && (i == |p| ==> Split(p)[1..] == [])
  {
    SplitIs(p);
    hide Slash, Split;
    var i := Slash(p);
    if i == |p| {
      assert p[..i] == p;
    } else {
      Tail(p[..i], Split(p[i + 1..]));
    }
  }

  lemma SplitIs(p: bytes)
    ensures var i := Slash(p); Split(p) == if i == |p| then [p] else [p[..i]] + Split(p[i + 1..])
  {
    hide Slash;
  }

  lemma Tail(n: Name, segs: Path)
    ensures ([n] + segs)[0] == n && ([n] + segs)[1..] == segs
  {
  }

  /** Where p lies relative to the tree at root: before (-1), inside (0) or after it (1). */
  function TreeSide(root: Path, p: Path): int {
    if root <= p then 0 else if CmpPath(p, root) < 0 then -1 else 1
  }

  lemma TreeSideStep(root: Path, p: Path)
    requires root != [] && p != []
    ensures TreeSide(root, p) == if CmpName(root[0], p[0]) == 0 then TreeSide(root[1..], p[1..])
                                 else CmpName(p[0], root[0])
  {
    CmpNameEqual(root[0], p[0]);
    CmpPathEqual(root, p);
    assert root == [root[0]] + root[1..] && p == [p[0]] + p[1..];
    CmpPathFront([root[0]], p[1..], root[1..]);
  }

  /** `treecmp`. */
  method TreeCmp(root: bytes, p: bytes) returns (r: int)
    requires root != [] && p != []
    ensures r == TreeSide(Segs(root), Segs(p))
  {
    hide Split, Slash, CmpName;
    if root == DOT { return 0; }
    if p == DOT {
      CmpPathEqual([], Split(root));
      return -1;
    }
    var x, y := root, p;
    while true
      invariant TreeSide(Split(x), Split(y)) == TreeSide(Split(root), Split(p))
      decreases |x|
    {
      var ri := FindSlash(x);
      var pi := FindSlash(y);
      Unsplit(x);
      Unsplit(y);
      TreeSideStep(Split(x), Split(y));
      CmpNameEqual(x[..ri], y[..pi]);
      var c := CmpName(x[..ri], y[..pi]);
      if c < 0 { return 1; }
      if c > 0 { return -1; }
      if ri == |x| { return 0; }
      if pi == |y| { return -1; }
      x, y := x[ri + 1..], y[pi + 1..];
    }
  }

  // ---------------------------------------------------------------------------- cutting

  predicate ValidName(n: Name) {
    n != [] && n != DOT && n != DOTDOT && SLASH !in n
  }

  predicate ValidSegs(segs: Path) {
    forall i :: 0 <= i < |segs| ==> ValidName(segs[i])
  }

  // ------------------------------------------------------------------------------ UTF-8

  predicate Cont(c: byte) { 0x80 <= c <= 0xBF }

  /** The length of the character at the front (section 4 of RFC 3629), or 0 if there is none. */
  function CharLength(s: bytes): (n: nat)
    ensures n <= |s|
  {
    if s == [] then 0
    else if s[0] < 0x80 then 1
    else if |s| >= 2 && 0xC2 <= s[0] <= 0xDF && Cont(s[1]) then 2
    else if |s| >= 3 && 0xE0 <= s[0] <= 0xEF && Cont(s[1]) && Cont(s[2])
            && (s[0] == 0xE0 ==> s[1] >= 0xA0) && (s[0] == 0xED ==> s[1] <= 0x9F) then 3
    else if |s| >= 4 && 0xF0 <= s[0] <= 0xF4 && Cont(s[1]) && Cont(s[2]) && Cont(s[3])
            && (s[0] == 0xF0 ==> s[1] >= 0x90) && (s[0] == 0xF4 ==> s[1] <= 0x8F) then 4
    else 0
  }

  /** `utf8.ValidString`. */
  predicate ValidUtf8(s: bytes)
    decreases |s|
  {
    s == [] || (CharLength(s) > 0 && ValidUtf8(s[CharLength(s)..]))
  }

  /** A character never reaches across a slash. */
  lemma CharBeforeSlash(a: bytes, b: bytes)
    requires a != []
    ensures CharLength(a + [SLASH] + b) == CharLength(a)
  {
    var p := a + [SLASH] + b;
    assert p[0] == a[0] && p[|a|] == SLASH;
    assert |a| >= 2 ==> p[1] == a[1];
    assert |a| >= 3 ==> p[2] == a[2];
    assert |a| >= 4 ==> p[3] == a[3];
  }

  lemma {:induction false} Utf8Slash(a: bytes, b: bytes)
    ensures ValidUtf8(a + [SLASH] + b) <==> ValidUtf8(a) && ValidUtf8(b)
    decreases |a|
  {
    var p := a + [SLASH] + b;
    if a == [] {
      assert p[0] == SLASH && p[1..] == b;
    } else {
      hide CharLength;
      CharBeforeSlash(a, b);
      var n := CharLength(a);
      assert p[n..] == a[n..] + [SLASH] + b;
      if n > 0 { Utf8Slash(a[n..], b); }
    }
  }

  predicate AllUtf8(segs: Path) {
    forall i :: 0 <= i < |segs| ==> ValidUtf8(segs[i])
  }

  lemma AllUtf8Cons(n: Name, segs: Path)
    ensures AllUtf8([n] + segs) <==> ValidUtf8(n) && AllUtf8(segs)
  {
    hide ValidUtf8;
    var all := [n] + segs;
    assert all[0] == n && forall k :: 0 <= k < |segs| ==> all[k + 1] == segs[k];
    if AllUtf8(all) {
      forall k | 0 <= k < |segs| ensures ValidUtf8(segs[k]) { assert ValidUtf8(all[k + 1]); }
    }
  }

  /** A path is valid UTF-8 exactly if every segment is. */
  lemma {:induction false} Utf8Segments(p: bytes)
    ensures ValidUtf8(p) <==> AllUtf8(Split(p))
    decreases |p|
  {
    hide ValidUtf8, Slash, AllUtf8;
    var i := Slash(p);
    NoSlashBefore(p);
    if i == |p| {
      assert p[..i] == p && Split(p) == [p] + [];
      AllUtf8Cons(p, []);
      NoSegments();
    } else {
      assert p == p[..i] + [SLASH] + p[i + 1..];
      Utf8Slash(p[..i], p[i + 1..]);
      Utf8Segments(p[i + 1..]);
      AllUtf8Cons(p[..i], Split(p[i + 1..]));
    }
  }

  lemma NoSegments()
    ensures AllUtf8([])
  {
  }

  // ---------------------------------------------------------------------------- joining

  function Join(segs: Path): bytes {
    if segs == [] then []
    else if |segs| == 1 then segs[0]
    else Join(segs[..|segs| - 1]) + [SLASH] + segs[|segs| - 1]
  }

  lemma {:induction false} SplitSlash(a: bytes, b: bytes)
    requires SLASH !in b
    ensures Split(a + [SLASH] + b) == Split(a) + [b]
    decreases |a|
  {
    hide Slash;
    var p := a + [SLASH] + b;
    var i := Slash(a);
    NoSlashBefore(a);
    assert p[..i] == a[..i];
    SlashUnique(p, i);
    if i == |a| {
      assert p[..i] == a && p[i + 1..] == b;
      SplitOne(b);
    } else {
      assert p[..i] == a[..i] && p[i + 1..] == a[i + 1..] + [SLASH] + b;
      SplitSlash(a[i + 1..], b);
      assert Split(p) == [a[..i]] + (Split(a[i + 1..]) + [b]);
    }
  }

  lemma {:induction false} SlashUnique(p: bytes, i: nat)
    requires i <= |p| && SLASH !in p[..i] && (i < |p| ==> p[i] == SLASH)
    ensures Slash(p) == i
  {
    if i > 0 {
      assert p[..i][0] == p[0] && p[1..][..i - 1] == p[..i][1..];
      SlashUnique(p[1..], i - 1);
    }
  }

  lemma SplitOne(n: bytes)
    requires SLASH !in n
    ensures Split(n) == [n]
  {
    hide Slash;
    assert n[..|n|] == n;
    SlashUnique(n, |n|);
  }

  /** Joining and splitting are inverse. */
  lemma {:induction false} SplitJoin(segs: Path)
    requires segs != [] && forall i :: 0 <= i < |segs| ==> SLASH !in segs[i]
    ensures Split(Join(segs)) == segs
  {
    hide Split, Slash;
    if |segs| == 1 {
      SplitOne(segs[0]);
    } else {
      var k := |segs| - 1;
      assert segs == segs[..k] + [segs[k]];
      SplitJoin(segs[..k]);
      SplitSlash(Join(segs[..k]), segs[k]);
    }
  }

  /** `segments`: how many, and whether all are proper names. */
  method Segments(name: bytes) returns (n: nat, ok: bool)
    ensures ok <==> ValidUtf8(name) && ValidSegs(Segs(name))
    ensures ok ==> n == |Segs(name)|
  {
    hide Split, Slash;
    if name == [] || name == DOT { return 0, true; }
    if !ValidUtf8(name) { return 0, false; }
    var x := name;
    n := 1;
    ghost var done: Path := [];
    while true
      invariant Split(name) == done + Split(x) && ValidSegs(done) && n == |done| + 1
      decreases |x|
    {
      var i := FindSlash(x);
      Unsplit(x);
      NoSlashBefore(x);
      var elem := x[..i];
      assert Split(name)[|done|] == elem;
      if elem == [] || elem == DOT || elem == DOTDOT {
        return 0, false;
      }
      assert Split(x) == [elem] + Split(x)[1..];
      assert done + Split(x) == (done + [elem]) + Split(x)[1..];
      if i == |x| {
        assert Split(name) == done + [elem];
        return n, true;
      }
      done := done + [elem];
      x := x[i + 1..];
      n := n + 1;
    }
  }

  /** What `trim` cuts off: the first n segments and the one behind them. */
  function Front(segs: Path, n: nat): Path {
    if n <= |segs| then segs[..n] else segs
  }

  function Behind(segs: Path, n: nat): Name {
    if n < |segs| then segs[n] else []
  }

  /** `trim`. The root is passed through as it is written. */
  method Trim(p: bytes, n: nat) returns (front: bytes, next: bytes, ok: bool)
    ensures p == [] || p == DOT ==> ok && (front, next) == if n == 0 then ([], p) else (p, [])
    ensures p != [] && p != DOT ==> (ok <==> ValidUtf8(p) && ValidSegs(Split(p)))
    ensures ok && p != [] && p != DOT ==> front == Join(Front(Split(p), n)) && next == Behind(Split(p), n)
  {
    if p == [] || p == DOT {
      if n == 0 { return [], p, true; }
      return p, [], true;
    }
    var _, valid := Segments(p);
    if !valid { return [], [], false; }
    ok := true;
    front, next := Cut(p, n);
  }

  /** The loop of `trim`. */
  method Cut(p: bytes, n: nat) returns (front: bytes, next: bytes)
    ensures front == Join(Front(Split(p), n)) && next == Behind(Split(p), n)
  {
    hide Join, Split, Slash;
    var seen, i := 0, 0;
    ghost var segs := Split(p);
    assert p[0..] == p && segs[0..] == segs;
    JoinOfNone();
    while true
      invariant 0 <= i <= |p| && seen < |segs| && seen <= n && Split(p[i..]) == segs[seen..]
      invariant i == 0 <==> seen == 0
      invariant seen > 0 ==> p[i - 1] == SLASH && p[..i - 1] == Join(segs[..seen])
      decreases |p| - i
    {
      var k := FindSlash(p[i..]);
      var j := i + k;
      NextSegment(p, i, segs, seen);
      var elem := p[i..j];
      if n == 0 {
        return [], elem;
      }
      seen := seen + 1;
      if seen > n {
        return p[..i - 1], elem;
      }
      JoinNext(p, i, j, segs, seen);
      if j == |p| {
        assert segs[..seen] == segs;
        return p[..j], [];
      }
      i := j + 1;
    }
  }

  lemma NextSegment(p: bytes, i: nat, segs: Path, seen: nat)
    requires i <= |p| && seen < |segs| && Split(p[i..]) == segs[seen..]
    ensures var j := i + Slash(p[i..]);
      && p[i..j] == segs[seen]
      && (j < |p| ==> p[j] == SLASH && seen + 1 < |segs| && Split(p[j + 1..]) == segs[seen + 1..])
      && (j == |p| ==> |segs| == seen + 1)
  {
    hide Split;
    var k := Slash(p[i..]);
    Unsplit(p[i..]);
    assert p[i..i + k] == p[i..][..k];
    if i + k < |p| {
      assert p[i..][k + 1..] == p[i + k + 1..] && segs[seen..][1..] == segs[seen + 1..];
    }
  }

  lemma JoinOfNone()
    ensures Join([]) == []
  {
  }

  lemma JoinNext(p: bytes, i: nat, j: nat, segs: Path, seen: nat)
    requires i <= j <= |p| && 1 <= seen <= |segs| && p[i..j] == segs[seen - 1]
    requires i == 0 <==> seen == 1
    requires seen > 1 ==> p[i - 1] == SLASH && p[..i - 1] == Join(segs[..seen - 1])
    ensures p[..j] == Join(segs[..seen])
  {
    var front := segs[..seen];
    assert front[..seen - 1] == segs[..seen - 1] && front[seen - 1] == segs[seen - 1];
    if seen > 1 {
      assert p[..j] == p[..i - 1] + [p[i - 1]] + p[i..j];
    } else {
      assert p[..j] == p[0..j];
    }
  }
}
