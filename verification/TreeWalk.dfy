/** `walkDir` of fsutil/dir.go: a walk that prunes by pattern and starts from a seek path,
    against a full walk followed by filtering. Callbacks return nil; patterns are given segment
    by segment, with any matcher for one segment. */
module TreeWalk {
  import opened IonCodec
  import opened PathOrder

  datatype Tree = File | Dir(entries: seq<Entry>)
  datatype Entry = Entry(name: Name, sub: Tree)

  /** "" is no seek at all, "." is the root itself. */
  datatype Seek = NoSeek | Root | At(path: Path)

  datatype Query<!G> = Query(m: (G, Name) -> bool, pat: seq<G>, seek: Seek)

  function SeekPath(s: Seek): Path {
    if s.At? then s.path else []
  }

  /** Entries of a directory come in strictly increasing order. */
  predicate WF(t: Tree) {
    t.Dir? ==> WFEntries(t.entries)
  }

  predicate WFEntries(es: seq<Entry>) {
    && (forall i :: 0 <= i < |es| ==> ValidName(es[i].name) && WF(es[i].sub))
    && (forall i, j :: 0 <= i < j < |es| ==> CmpName(es[i].name, es[j].name) < 0)
  }

  predicate Match<G>(m: (G, Name) -> bool, pat: seq<G>, p: Path) {
    pat == [] || (|pat| == |p| && forall i :: 0 <= i < |pat| ==> m(pat[i], p[i]))
  }

  // ------------------------------------------------------------------- the reference walk

  function FullWalk(name: Path, t: Tree): seq<Path>
    decreases t, 0
  {
    [name] + if t.Dir? then FullEntries(name, t.entries) else []
  }

  function FullEntries(name: Path, es: seq<Entry>): seq<Path>
    decreases es, 1
  {
    if es == [] then [] else FullWalk(name + [es[0].name], es[0].sub) + FullEntries(name, es[1..])
  }

  predicate Wanted<G>(q: Query<G>, p: Path) {
    CmpPath(p, SeekPath(q.seek)) > 0 && Match(q.m, q.pat, p)
  }

  function Keep<G>(q: Query<G>, ps: seq<Path>): seq<Path> {
    if ps == [] then [] else (if Wanted(q, ps[0]) then [ps[0]] else []) + Keep(q, ps[1..])
  }

  // ------------------------------------------------------------------------ the real walk

  /** `walkInto`. */
  function WalkInto<G>(q: Query<G>, name: Path, t: Tree): seq<Path>
    decreases t, 2
  {
    (if Wanted(q, name) then [name] else []) + if t.Dir? then Descend(q, name, t.entries) else []
  }

  /** Its second half: descend unless seek or pattern rule the whole directory out. */
  function Descend<G>(q: Query<G>, name: Path, es: seq<Entry>): seq<Path>
    decreases es, 2
  {
    var n := |name|;
    if q.pat != [] && |q.pat| <= n then []
    else
      var cmp := CmpPath(name, Front(SeekPath(q.seek), n));
      if cmp < 0 || !Match(q.m, if q.pat == [] then [] else q.pat[..n], name) then []
      else VisitDir(q, name, es, if cmp > 0 then [] else SeekBehind(q.seek, n))
  }

  function SeekBehind(s: Seek, n: nat): Name {
    match s
    case NoSeek => []
    case Root => if n == 0 then DOT else []
    case At(p) => Behind(p, n)
  }

  /** `VisitDir` with the closure of walkInto: entries after `after` whose name matches. */
  function VisitDir<G>(q: Query<G>, name: Path, es: seq<Entry>, after: Name): seq<Path>
    requires q.pat == [] || |name| < |q.pat|
    decreases es, 1
  {
    if es == [] then []
    else
      (if CmpName(es[0].name, after) > 0 && (q.pat == [] || q.m(q.pat[|name|], es[0].name))
       then WalkInto(q, name + [es[0].name], es[0].sub) else [])
      + VisitDir(q, name, es[1..], after)
  }

  // ------------------------------------------------------------------------------ filters

  lemma {:induction false} KeepAppend<G>(q: Query<G>, a: seq<Path>, b: seq<Path>)
    ensures Keep(q, a + b) == Keep(q, a) + Keep(q, b)
  {
    hide Wanted;
    if a == [] {
      assert a + b == b;
    } else {
      assert (a + b)[1..] == a[1..] + b;
      KeepAppend(q, a[1..], b);
    }
  }

  /** Every path of the tree at name starts with name. */
  lemma {:induction false} Under(name: Path, t: Tree, i: nat)
    requires i < |FullWalk(name, t)|
    ensures name <= FullWalk(name, t)[i]
    decreases t, 0
  {
    if i > 0 && t.Dir? {
      UnderEntries(name, t.entries, i - 1);
    }
  }

  lemma {:induction false} UnderEntries(name: Path, es: seq<Entry>, i: nat)
    requires i < |FullEntries(name, es)|
    ensures name < FullEntries(name, es)[i]
    decreases es, 1
  {
    var first := FullWalk(name + [es[0].name], es[0].sub);
    if i < |first| {
      Under(name + [es[0].name], es[0].sub, i);
    } else {
      UnderEntries(name, es[1..], i - |first|);
    }
  }

  lemma {:induction false} KeepNone<G>(q: Query<G>, ps: seq<Path>)
    requires forall i :: 0 <= i < |ps| ==> !Wanted(q, ps[i])
    ensures Keep(q, ps) == []
  {
    hide Wanted;
    if ps != [] {
      assert forall i :: 0 <= i < |ps[1..]| ==> ps[1..][i] == ps[i + 1];
      KeepNone(q, ps[1..]);
    }
  }

  // --------------------------------------------------------------------------- the order

  /** What lies inside something after s lies after s. */
  lemma {:induction false} InsideAfter(name: Path, x: Path, s: Path)
    requires CmpPath(name, s) > 0
    ensures CmpPath(name + x, s) > 0
    decreases |name|
  {
    assert (name + x)[0] == name[0] && (name + x)[1..] == name[1..] + x;
    if s != [] && CmpName(name[0], s[0]) == 0 {
      InsideAfter(name[1..], x, s[1..]);
    }
  }

  /** What lies inside something before s lies before s, unless s is in there too. */
  lemma {:induction false} InsideBefore(name: Path, x: Path, s: Path)
    requires CmpPath(name, s) < 0 && !(name <= s)
    ensures CmpPath(name + x, s) < 0
    decreases |name|
  {
    assert (name + x)[0] == name[0] && (name + x)[1..] == name[1..] + x;
    CmpNameEqual(name[0], s[0]);
    if CmpName(name[0], s[0]) == 0 {
      assert name == [name[0]] + name[1..] && s == [s[0]] + s[1..];
      InsideBefore(name[1..], x, s[1..]);
    }
  }

  lemma {:induction false} FrontAfter(name: Path, s: Path)
    requires CmpPath(name, s) > 0
    ensures CmpPath(name, Front(s, |name|)) > 0
    decreases |name|
  {
    if |name| <= |s| && CmpName(name[0], s[0]) == 0 {
      FrontAfter(name[1..], s[1..]);
      assert Front(s, |name|)[0] == s[0] && Front(s, |name|)[1..] == Front(s[1..], |name| - 1);
    }
  }

  lemma PrefixNotAfter(name: Path, s: Path)
    requires name <= s
    ensures CmpPath(name, s) <= 0
  {
    assert s == name + s[|name|..] && name == name + [];
    CmpPathFront(name, [], s[|name|..]);
  }

  // ------------------------------------------------------------------- behind the seek path

  /** Patterns too short for what lies inside, or with another front, match nothing there. */
  lemma NoMatchInside<G>(q: Query<G>, name: Path, es: seq<Entry>)
    requires q.pat != [] && (|q.pat| <= |name| || !Match(q.m, q.pat[..|name|], name))
    ensures Keep(q, FullEntries(name, es)) == []
  {
    var ps := FullEntries(name, es);
    forall i | 0 <= i < |ps| ensures !Wanted(q, ps[i]) {
      UnderEntries(name, es, i);
    }
    KeepNone(q, ps);
  }

  lemma NoMatchBelow<G>(q: Query<G>, name: Path, e: Name, t: Tree)
    requires |name| < |q.pat| && !q.m(q.pat[|name|], e)
    ensures Keep(q, FullWalk(name + [e], t)) == []
  {
    var ps := FullWalk(name + [e], t);
    forall i | 0 <= i < |ps| ensures !Wanted(q, ps[i]) {
      Under(name + [e], t, i);
      assert ps[i][|name|] == e;
    }
    KeepNone(q, ps);
  }

  lemma {:induction false} After<G>(q: Query<G>, name: Path, t: Tree)
    requires WF(t) && CmpPath(name, SeekPath(q.seek)) > 0
    ensures WalkInto(q, name, t) == Keep(q, FullWalk(name, t))
    decreases t, 2
  {
    hide Wanted, Descend, WFEntries;
    if t.Dir? {
      AfterEntries(q, name, t.entries);
      assert FullWalk(name, t)[1..] == FullEntries(name, t.entries);
    } else {
      assert FullWalk(name, t)[1..] == [];
    }
  }

  lemma {:induction false} AfterEntries<G>(q: Query<G>, name: Path, es: seq<Entry>)
    requires WFEntries(es) && CmpPath(name, SeekPath(q.seek)) > 0
    ensures Descend(q, name, es) == Keep(q, FullEntries(name, es))
    decreases es, 1
  {
    hide VisitDir, WFEntries, Match, Keep, FullEntries, CmpPath, Front;
    FrontAfter(name, SeekPath(q.seek));
    if q.pat == [] {
      MatchAll(q.m, name);
      VisitAll(q, name, es);
    } else if |q.pat| <= |name| || !Match(q.m, q.pat[..|name|], name) {
      NoMatchInside(q, name, es);
    } else {
      VisitAll(q, name, es);
    }
  }

  lemma MatchAll<G>(m: (G, Name) -> bool, p: Path)
    ensures Match(m, [], p)
  {
  }

  lemma {:induction false} VisitAll<G>(q: Query<G>, name: Path, es: seq<Entry>)
    requires WFEntries(es) && (q.pat == [] || |name| < |q.pat|)
    requires CmpPath(name, SeekPath(q.seek)) > 0 || name == SeekPath(q.seek)
    ensures VisitDir(q, name, es, []) == Keep(q, FullEntries(name, es))
    decreases es, 0
  {
    hide WalkInto, Keep, FullWalk, CmpPath;
    if es == [] {
      KeepNone(q, []);
    } else {
      var e := es[0];
      KeepAppend(q, FullWalk(name + [e.name], e.sub), FullEntries(name, es[1..]));
      VisitAll(q, name, es[1..]);
      if q.pat == [] || q.m(q.pat[|name|], e.name) {
        EntryAfter(name, e.name, SeekPath(q.seek));
        After(q, name + [e.name], e.sub);
      } else {
        NoMatchBelow(q, name, e.name, e.sub);
      }
    }
  }

  lemma EntryAfter(name: Path, e: Name, s: Path)
    requires CmpPath(name, s) > 0 || name == s
    ensures CmpPath(name + [e], s) > 0
  {
    if name == s {
      assert s == s + [];
      CmpPathFront(s, [e], []);
    } else {
      InsideAfter(name, [e], s);
    }
  }

  // ---------------------------------------------------------------- along the seek path

  function Find(es: seq<Entry>, n: Name): Option<Tree> {
    if es == [] then None else if es[0].name == n then Some(es[0].sub) else Find(es[1..], n)
  }

  /** The file or directory at a path, relative to t. */
  function Lookup(t: Tree, p: Path): Option<Tree>
    decreases |p|
  {
    if p == [] then Some(t)
    else if t.File? then None
    else
      match Find(t.entries, p[0])
      case None => None
      case Some(sub) => Lookup(sub, p[1..])
  }

  function KeepTree<G>(q: Query<G>, name: Path, t: Option<Tree>): seq<Path> {
    match t
    case None => []
    case Some(tree) => Keep(q, FullWalk(name, tree))
  }

  /** Nothing in a tree that ends before the seek path is wanted. */
  lemma BeforeSeek<G>(q: Query<G>, name: Path, t: Tree)
    requires CmpPath(name, SeekPath(q.seek)) < 0 && !(name <= SeekPath(q.seek))
    ensures Keep(q, FullWalk(name, t)) == []
  {
    hide CmpPath;
    var ps := FullWalk(name, t);
    forall i | 0 <= i < |ps| ensures !Wanted(q, ps[i]) {
      Under(name, t, i);
      assert ps[i] == name + ps[i][|name|..];
      InsideBefore(name, ps[i][|name|..], SeekPath(q.seek));
    }
    KeepNone(q, ps);
  }

  /** How the entries of a directory on the seek path compare to it. */
  lemma EntryOrder(s: Path, n: nat, e: Name)
    requires n <= |s| && e != []
    ensures CmpName(e, Behind(s, n)) > 0 ==> CmpPath(s[..n] + [e], s) > 0
    ensures CmpName(e, Behind(s, n)) < 0 ==> CmpPath(s[..n] + [e], s) < 0 && !(s[..n] + [e] <= s)
  {
    assert s == s[..n] + s[n..];
    CmpPathFront(s[..n], [e], s[n..]);
    if n < |s| {
      CmpNameEqual(e, s[n]);
      assert s[n..][0] == s[n];
      if s[..n] + [e] <= s {
        assert (s[..n] + [e])[n] == s[n];
      }
    }
  }

  /** In a directory on the seek path: the entry the path goes through, then those behind it. */
  lemma {:induction false} EntriesSplit<G>(q: Query<G>, s: Path, n: nat, es: seq<Entry>)
    requires q.seek == At(s) && n <= |s| && WFEntries(es) && (q.pat == [] || n < |q.pat|)
    ensures Keep(q, FullEntries(s[..n], es))
         == KeepTree(q, s[..n] + [Behind(s, n)], Find(es, Behind(s, n))) + VisitDir(q, s[..n], es, Behind(s, n))
    decreases |es|
  {
    hide WalkInto, Keep, FullWalk, CmpPath, CmpName, ValidName;
    var name, after := s[..n], Behind(s, n);
    if es == [] {
      KeepNone(q, []);
    } else {
      var e := es[0];
      KeepAppend(q, FullWalk(name + [e.name], e.sub), FullEntries(name, es[1..]));
      EntriesSplit(q, s, n, es[1..]);
      NonEmptyName(e.name);
      EntryOrder(s, n, e.name);
      CmpNameEqual(e.name, after);
      if CmpName(e.name, after) < 0 {
        BeforeSeek(q, name + [e.name], e.sub);
      } else {
        NotFound(es, after);
        if e.name != after {
          if q.pat == [] || q.m(q.pat[n], e.name) {
            After(q, name + [e.name], e.sub);
          } else {
            NoMatchBelow(q, name, e.name, e.sub);
          }
        }
      }
    }
  }

  lemma NonEmptyName(n: Name)
    requires ValidName(n)
    ensures n != []
  {
  }

  /** Behind an entry that is not before n, nothing is called n. */
  lemma {:induction false} NotFound(es: seq<Entry>, n: Name)
    requires es != [] && WFEntries(es) && CmpName(es[0].name, n) >= 0
    ensures Find(es[1..], n) == None
    decreases |es|
  {
    hide CmpName;
    if |es| > 1 {
      assert CmpName(es[0].name, es[1].name) < 0;
      CmpNameEqual(es[0].name, n);
      CmpNameEqual(n, es[0].name);
      CmpNameEqual(es[1].name, n);
      if n != es[0].name {
        CmpNameTransitive(n, es[0].name, es[1].name);
      }
      CmpNameEqual(n, es[1].name);
      assert forall i :: 0 <= i < |es[1..]| ==> es[1..][i] == es[i + 1];
      NotFound(es[1..], n);
    }
  }

  /** Walking a directory on the seek path completes what walking its entry on the path left out. */
  lemma OnSeekPath<G>(q: Query<G>, s: Path, n: nat, t: Tree)
    requires q.seek == At(s) && n <= |s| && WF(t)
    ensures Keep(q, FullWalk(s[..n], t))
         == (if n < |s| then KeepTree(q, s[..n + 1], Lookup(t, [s[n]])) else []) + WalkInto(q, s[..n], t)
  {
    hide VisitDir, WFEntries, Match, FullEntries, CmpPath, Find, KeepTree;
    var name := s[..n];
    PrefixNotAfter(name, s);
    assert FullWalk(name, t)[1..] == if t.Dir? then FullEntries(name, t.entries) else [];
    if t.Dir? {
      DescendOnPath(q, s, n, t.entries);
      if n < |s| {
        LookupOne(t, s[n]);
        assert s[..n] + [s[n]] == s[..n + 1];
      }
    } else if n < |s| {
      NoTree(q, s[..n + 1]);
    }
  }

  lemma NoTree<G>(q: Query<G>, name: Path)
    ensures KeepTree(q, name, None) == []
  {
  }

  lemma LookupOne(t: Tree, n: Name)
    requires t.Dir?
    ensures Lookup(t, [n]) == Find(t.entries, n)
  {
    assert [n][1..] == [];
  }

  lemma DescendOnPath<G>(q: Query<G>, s: Path, n: nat, es: seq<Entry>)
    requires q.seek == At(s) && n <= |s| && WFEntries(es)
    ensures Keep(q, FullEntries(s[..n], es))
         == (if n < |s| then KeepTree(q, s[..n] + [s[n]], Find(es, s[n])) else []) + Descend(q, s[..n], es)
  {
    hide VisitDir, WFEntries, Match, Keep, FullEntries, CmpPath, KeepTree;
    var name := s[..n];
    CmpPathEqual(name, Front(s, n));
    if q.pat != [] && (|q.pat| <= n || !Match(q.m, q.pat[..n], name)) {
      NoMatchInside(q, name, es);
      if n < |s| {
        NoMatchEntry(q, name, es, s[n]);
      }
    } else {
      MatchAll(q.m, name);
      EntriesSplit(q, s, n, es);
      if n == |s| {
        NoEmptyName(es);
        NoTree(q, name + [[]]);
      }
    }
  }

  lemma {:induction false} NoEmptyName(es: seq<Entry>)
    requires WFEntries(es)
    ensures Find(es, []) == None
  {
    if es != [] {
      NoEmptyName(es[1..]);
    }
  }

  lemma NoMatchEntry<G>(q: Query<G>, name: Path, es: seq<Entry>, n: Name)
    requires q.pat != [] && (|q.pat| <= |name| || !Match(q.m, q.pat[..|name|], name))
    ensures KeepTree(q, name + [n], Find(es, n)) == []
  {
    var found := Find(es, n);
    if found.Some? {
      var ps := FullWalk(name + [n], found.value);
      forall i | 0 <= i < |ps| ensures !Wanted(q, ps[i]) {
        Under(name + [n], found.value, i);
        assert name <= ps[i];
      }
      KeepNone(q, ps);
    }
  }

  // ------------------------------------------------------------------------------ walkDir

  lemma {:induction false} LookupStep(t: Tree, p: Path, n: Name)
    ensures Lookup(t, p + [n]) == match Lookup(t, p) case None => None case Some(sub) => Lookup(sub, [n])
    decreases |p|
  {
    hide Find;
    if p == [] {
      assert p + [n] == [n];
    } else if t.Dir? {
      assert (p + [n])[0] == p[0] && (p + [n])[1..] == p[1..] + [n];
      var sub := Find(t.entries, p[0]);
      if sub.Some? {
        LookupStep(sub.value, p[1..], n);
      }
    }
  }

  lemma {:induction false} FindWF(es: seq<Entry>, n: Name)
    requires WFEntries(es)
    ensures Find(es, n).Some? ==> WF(Find(es, n).value)
  {
    if es != [] {
      FindWF(es[1..], n);
    }
  }

  lemma {:induction false} LookupWF(t: Tree, p: Path)
    requires WF(t)
    ensures Lookup(t, p).Some? ==> WF(Lookup(t, p).value)
    decreases |p|
  {
    if p != [] && t.Dir? {
      FindWF(t.entries, p[0]);
      if Find(t.entries, p[0]).Some? {
        LookupWF(Find(t.entries, p[0]).value, p[1..]);
      }
    }
  }

  /** `seekTo`: from the seek path upwards, as far as name. */
  method SeekTo<G>(q: Query<G>, root: Tree, name: Path, s: Path) returns (out: seq<Path>, seen: bool)
    requires q.seek == At(s) && WF(root) && name <= s
    ensures out == (if |name| < |s| then KeepTree(q, s[..|name| + 1], Lookup(root, s[..|name| + 1])) else [])
    ensures seen ==> Lookup(root, name).Some? && Lookup(root, name).value.Dir?
  {
    hide WalkInto, KeepTree, Lookup, WF;
    out, seen := [], false;
    var k := |s|;
    while k != |name|
      invariant |name| <= k <= |s|
      invariant out == (if k < |s| then KeepTree(q, s[..k + 1], Lookup(root, s[..k + 1])) else [])
      invariant seen <==> k < |s| && Lookup(root, s[..k + 1]).Some?
      decreases k
    {
      StepUp(q, root, s, k);
      var d := Lookup(root, s[..k]);
      if seen {
        out := out + WalkInto(q, s[..k], d.value);
      } else if d.Some? {
        seen := true;
        if d.value.Dir? {
          out := out + WalkInto(q, s[..k], d.value);
        }
      }
      k := k - 1;
    }
    StepUp(q, root, s, k);
    assert s[..k] == name;
  }

  /** One level up: what was found below, then the rest of the directory. */
  lemma StepUp<G>(q: Query<G>, root: Tree, s: Path, k: nat)
    requires q.seek == At(s) && WF(root) && k <= |s|
    ensures var d, below := Lookup(root, s[..k]), if k < |s| then KeepTree(q, s[..k + 1], Lookup(root, s[..k + 1])) else [];
      && (d.None? ==> below == [] && KeepTree(q, s[..k], d) == [] && (k < |s| ==> Lookup(root, s[..k + 1]).None?))
      && (d.Some? ==> KeepTree(q, s[..k], d) == below + WalkInto(q, s[..k], d.value))
      && (d.Some? && d.value.File? ==> below == [] && KeepTree(q, s[..k], d) == [] && (k < |s| ==> Lookup(root, s[..k + 1]).None?))
  {
    hide Keep, FullWalk, Find, WF;
    var d := Lookup(root, s[..k]);
    LookupWF(root, s[..k]);
    if k < |s| {
      assert s[..k + 1] == s[..k] + [s[k]];
      LookupStep(root, s[..k], s[k]);
    }
    if d.Some? {
      OnSeekPath(q, s, k, d.value);
      PrefixNotAfter(s[..k], s);
    }
  }

  /** With a seek of "." the walk of the root misses entries whose names sort before ".". */
  predicate Missed<G>(q: Query<G>, name: Path, p: Path) {
    q.seek.Root? && name == [] && p != [] && CmpName(p[0], DOT) <= 0
  }

  function Visited<G>(q: Query<G>, name: Path, ps: seq<Path>): seq<Path> {
    if ps == [] then []
    else (if Wanted(q, ps[0]) && !Missed(q, name, ps[0]) then [ps[0]] else []) + Visited(q, name, ps[1..])
  }

  lemma {:induction false} VisitedIsKept<G>(q: Query<G>, name: Path, ps: seq<Path>)
    requires forall i :: 0 <= i < |ps| ==> !Missed(q, name, ps[i])
    ensures Visited(q, name, ps) == Keep(q, ps)
  {
    hide Wanted, Missed;
    if ps != [] {
      assert forall i :: 0 <= i < |ps[1..]| ==> ps[1..][i] == ps[i + 1];
      VisitedIsKept(q, name, ps[1..]);
    }
  }

  lemma {:induction false} VisitedNone<G>(q: Query<G>, name: Path, ps: seq<Path>)
    requires forall i :: 0 <= i < |ps| ==> Missed(q, name, ps[i])
    ensures Visited(q, name, ps) == []
  {
    hide Wanted, Missed;
    if ps != [] {
      assert forall i :: 0 <= i < |ps[1..]| ==> ps[1..][i] == ps[i + 1];
      VisitedNone(q, name, ps[1..]);
    }
  }

  lemma {:induction false} VisitedAppend<G>(q: Query<G>, name: Path, a: seq<Path>, b: seq<Path>)
    ensures Visited(q, name, a + b) == Visited(q, name, a) + Visited(q, name, b)
  {
    hide Wanted, Missed;
    if a == [] {
      assert a + b == b;
    } else {
      assert (a + b)[1..] == a[1..] + b;
      VisitedAppend(q, name, a[1..], b);
    }
  }

  /** The walk of the root with a seek of ".". */
  lemma {:induction false} VisitLate<G>(q: Query<G>, es: seq<Entry>)
    requires q.seek.Root? && WFEntries(es)
    ensures VisitDir(q, [], es, DOT) == Visited(q, [], FullEntries([], es))
    decreases |es|
  {
    hide WalkInto, FullWalk, CmpName, Wanted, Visited;
    if es == [] {
      VisitedNone(q, [], []);
    } else {
      var e := es[0];
      var ps := FullWalk([] + [e.name], e.sub);
      VisitedAppend(q, [], ps, FullEntries([], es[1..]));
      VisitLate(q, es[1..]);
      forall i | 0 <= i < |ps| ensures ps[i] != [] && ps[i][0] == e.name {
        Under([] + [e.name], e.sub, i);
        assert ([] + [e.name])[0] == e.name;
      }
      if CmpName(e.name, DOT) <= 0 {
        VisitedNone(q, [], ps);
      } else {
        VisitedIsKept(q, [], ps);
        if q.pat == [] || q.m(q.pat[0], e.name) {
          EntryAfter([], e.name, []);
          After(q, [] + [e.name], e.sub);
        } else {
          NoMatchBelow(q, [], e.name, e.sub);
        }
      }
    }
  }

  /** What a walk from name is to visit. */
  function Visits<G>(q: Query<G>, root: Tree, name: Path): seq<Path> {
    match Lookup(root, name)
    case None => []
    case Some(t) => Visited(q, name, FullWalk(name, t))
  }

  /** `walkDir`: exactly the entries that match and come after seek, in the order of the full
      walk, except for the ones a seek of "." misses. */
  method WalkDir<G>(q: Query<G>, root: Tree, name: Path) returns (out: seq<Path>)
    requires WF(root) && (q.seek.At? ==> q.seek.path != [])
    ensures out == Visits(q, root, name) && Increasing(out)
  {
    hide WalkInto, KeepTree, Lookup, WF, FullWalk, Visited, Increasing;
    VisitsIncreasing(q, root, name);
    out := [];
    var seen := false;
    if !q.seek.NoSeek? {
      var side := TreeSide(name, SeekPath(q.seek));
      if side == 0 && q.seek.At? {
        out, seen := SeekTo(q, root, name, q.seek.path);
      } else if side == 1 {
        AfterTree(q, root, name);
        return [];
      }
    }
    WalkName(q, root, name);
    var d := Lookup(root, name);
    if d.None? {
      return;
    }
    out := out + WalkInto(q, name, d.value);
  }

  lemma AfterTree<G>(q: Query<G>, root: Tree, name: Path)
    requires TreeSide(name, SeekPath(q.seek)) == 1
    ensures Visits(q, root, name) == []
  {
    hide FullWalk, CmpPath;
    CmpPathEqual(name, SeekPath(q.seek));
    var d := Lookup(root, name);
    if d.Some? {
      BeforeSeek(q, name, d.value);
      NeverMissed(q, name, d.value);
    }
  }

  lemma NeverMissed<G>(q: Query<G>, name: Path, t: Tree)
    requires !(q.seek.Root? && name == [])
    ensures Visited(q, name, FullWalk(name, t)) == Keep(q, FullWalk(name, t))
  {
    hide FullWalk, CmpName;
    VisitedIsKept(q, name, FullWalk(name, t));
  }

  /** What remains to be walked once the seek path below name is done. */
  lemma WalkName<G>(q: Query<G>, root: Tree, name: Path)
    requires WF(root) && (q.seek.At? ==> q.seek.path != []) && TreeSide(name, SeekPath(q.seek)) <= 0
    ensures var s := SeekPath(q.seek);
      var d, below := Lookup(root, name), if q.seek.At? && name < s then KeepTree(q, s[..|name| + 1], Lookup(root, s[..|name| + 1])) else [];
      && (d.None? ==> Visits(q, root, name) == below == [])
      && (d.Some? ==> Visits(q, root, name) == below + WalkInto(q, name, d.value))
  {
    hide WalkInto, FullWalk, Visited, WF, CmpPath, Keep;
    var s := SeekPath(q.seek);
    var d := Lookup(root, name);
    LookupWF(root, name);
    if q.seek.At? && name <= s {
      StepUp(q, root, s, |name|);
      assert s[..|name|] == name;
      if d.Some? { NeverMissed(q, name, d.value); }
    } else if d.Some? {
      if name == [] {
        WalkRoot(q, d.value);
      } else {
        CmpPathEqual(name, s);
        EmptyFirst(name);
        After(q, name, d.value);
        NeverMissed(q, name, d.value);
      }
    }
  }

  lemma EmptyFirst(name: Path)
    requires name != []
    ensures CmpPath(name, []) > 0 && !(name <= [])
  {
  }

  lemma WalkRoot<G>(q: Query<G>, t: Tree)
    requires !q.seek.At? && WF(t)
    ensures WalkInto(q, [], t) == Visited(q, [], FullWalk([], t))
  {
    hide VisitDir, FullEntries, Match, Visited, Keep, WFEntries;
    RootItself(q, t);
    if t.Dir? {
      var es := t.entries;
      NoPattern(q);
      if q.seek.Root? {
        VisitLate(q, es);
      } else {
        VisitAll(q, [], es);
        NeverMissedEntries(q, es);
      }
    }
  }

  lemma RootItself<G>(q: Query<G>, t: Tree)
    requires !q.seek.At?
    ensures !Wanted(q, [])
    ensures Visited(q, [], FullWalk([], t)) == if t.Dir? then Visited(q, [], FullEntries([], t.entries)) else []
  {
    hide FullEntries;
    assert FullWalk([], t)[1..] == if t.Dir? then FullEntries([], t.entries) else [];
  }

  lemma NeverMissedEntries<G>(q: Query<G>, es: seq<Entry>)
    requires q.seek.NoSeek?
    ensures Visited(q, [], FullEntries([], es)) == Keep(q, FullEntries([], es))
  {
    hide FullEntries;
    VisitedIsKept(q, [], FullEntries([], es));
  }

  lemma NoPattern<G>(q: Query<G>)
    ensures Match(q.m, if q.pat == [] then [] else q.pat[..0], [])
  {
  }

  predicate NoneLost<G>(q: Query<G>, name: Path, ps: seq<Path>) {
    forall i :: 0 <= i < |ps| && Wanted(q, ps[i]) ==> !Missed(q, name, ps[i])
  }

  lemma NoneLostStep<G>(q: Query<G>, name: Path, ps: seq<Path>)
    requires ps != []
    ensures NoneLost(q, name, ps) <==> (Wanted(q, ps[0]) ==> !Missed(q, name, ps[0])) && NoneLost(q, name, ps[1..])
  {
    hide Wanted, Missed;
    assert forall i :: 0 <= i < |ps[1..]| ==> ps[1..][i] == ps[i + 1];
    if NoneLost(q, name, ps[1..]) && (Wanted(q, ps[0]) ==> !Missed(q, name, ps[0])) {
      forall i | 0 <= i < |ps| && Wanted(q, ps[i]) ensures !Missed(q, name, ps[i]) {
        if i > 0 { assert ps[i] == ps[1..][i - 1]; }
      }
    }
  }

  lemma {:induction false} SameFilterIff<G>(q: Query<G>, name: Path, ps: seq<Path>)
    ensures |Visited(q, name, ps)| <= |Keep(q, ps)|
    ensures Visited(q, name, ps) == Keep(q, ps) <==> NoneLost(q, name, ps)
  {
    hide Wanted, Missed;
    if ps != [] {
      SameFilterIff(q, name, ps[1..]);
      NoneLostStep(q, name, ps);
      if Wanted(q, ps[0]) && !Missed(q, name, ps[0]) {
        assert Visited(q, name, ps)[1..] == Visited(q, name, ps[1..]) && Keep(q, ps)[1..] == Keep(q, ps[1..]);
      } else if Wanted(q, ps[0]) {
        assert |Visited(q, name, ps)| < |Keep(q, ps)|;
      } else {
        assert Visited(q, name, ps) == Visited(q, name, ps[1..]) && Keep(q, ps) == Keep(q, ps[1..]);
      }
    }
  }

  /** The walk visits everything that is wanted, exactly if no wanted path of the tree goes through
      an entry of the root that a seek of "." misses. */
  lemma NothingLostIff<G>(q: Query<G>, root: Tree, name: Path)
    ensures Visits(q, root, name) == KeepTree(q, name, Lookup(root, name))
       <==> Lookup(root, name).None? || NoneLost(q, name, FullWalk(name, Lookup(root, name).value))
  {
    hide Wanted, Missed, FullWalk, Visited, Keep, NoneLost;
    var d := Lookup(root, name);
    if d.Some? {
      SameFilterIff(q, name, FullWalk(name, d.value));
    }
  }

  /** For instance a file called "-" in the root. */
  lemma DotSeekLoses<G>(q: Query<G>)
    requires q.seek.Root? && q.pat == []
    ensures var root := Dir([Entry([45], File)]);
      WF(root) && Visits(q, root, []) == [] && Keep(q, FullWalk([], root)) == [[[45]]]
  {
    hide Wanted, Missed, Keep, Visited;
    var root, p: Path := Dir([Entry([45], File)]), [[45]];
    OneFile([45]);
    RootItself(q, root);
    DashIsMissed(q);
    VisitedNone(q, [], [p]);
    KeepFirst(q, [[], p]);
    KeepFirst(q, [p]);
    KeepFirst(q, []);
    assert [[], p][1..] == [p] && [p][1..] == [];
  }

  lemma OneFile(n: Name)
    requires ValidName(n)
    ensures var root := Dir([Entry(n, File)]);
      WF(root) && FullWalk([], root) == [[], [n]] && FullEntries([], root.entries) == [[n]]
  {
    var e := Entry(n, File);
    var none: Path := [];
    assert none + [n] == [n];
    assert FullWalk(none + [n], File) == [[n]];
    assert [e][1..] == [];
    assert FullEntries([], []) == [];
    assert FullEntries([], [e]) == FullWalk(none + [n], File) + FullEntries([], [e][1..]);
  }

  lemma DashIsMissed<G>(q: Query<G>)
    requires q.seek.Root? && q.pat == []
    ensures ValidName([45]) && Wanted(q, [[45]]) && Missed(q, [], [[45]]) && !Wanted(q, [])
  {
    assert CmpName([45], DOT) == -1;
  }

  // ------------------------------------------------------------------ order and resumption

  predicate Increasing(ps: seq<Path>) {
    forall i, j :: 0 <= i < j < |ps| ==> CmpPath(ps[i], ps[j]) < 0
  }

  lemma IncreasingAppend(a: seq<Path>, b: seq<Path>)
    requires Increasing(a) && Increasing(b)
    requires forall i, j :: 0 <= i < |a| && 0 <= j < |b| ==> CmpPath(a[i], b[j]) < 0
    ensures Increasing(a + b)
  {
    hide CmpPath;
  }

  /** The full walk is in path order, so nothing comes twice. */
  lemma {:induction false} WalkIncreasing(name: Path, t: Tree)
    requires WF(t)
    ensures Increasing(FullWalk(name, t))
    decreases t, 0
  {
    hide CmpPath;
    if t.Dir? {
      EntriesIncreasing(name, t.entries);
      var ps := FullEntries(name, t.entries);
      forall i, j | 0 <= i < |[name]| && 0 <= j < |ps| ensures CmpPath([name][i], ps[j]) < 0 {
        UnderEntries(name, t.entries, j);
        PrefixBefore(name, ps[j]);
      }
      IncreasingAppend([name], ps);
    }
  }

  lemma PrefixBefore(a: Path, b: Path)
    requires a < b
    ensures CmpPath(a, b) < 0
  {
    assert b == a + b[|a|..] && a == a + [];
    CmpPathFront(a, [], b[|a|..]);
  }

  lemma {:induction false} EntriesIncreasing(name: Path, es: seq<Entry>)
    requires WFEntries(es)
    ensures Increasing(FullEntries(name, es))
    decreases es, 1
  {
    hide CmpPath, CmpName;
    if es != [] {
      var a, b := FullWalk(name + [es[0].name], es[0].sub), FullEntries(name, es[1..]);
      WalkIncreasing(name + [es[0].name], es[0].sub);
      EntriesIncreasing(name, es[1..]);
      forall i, j | 0 <= i < |a| && 0 <= j < |b| ensures CmpPath(a[i], b[j]) < 0 {
        Under(name + [es[0].name], es[0].sub, i);
        LaterEntry(name, es[0].name, es[1..], j);
        Siblings(name, a[i], b[j]);
      }
      IncreasingAppend(a, b);
    }
  }

  /** Paths behind the first entry go through entries with greater names. */
  lemma {:induction false} LaterEntry(name: Path, e: Name, es: seq<Entry>, j: nat)
    requires j < |FullEntries(name, es)| && forall i :: 0 <= i < |es| ==> CmpName(e, es[i].name) < 0
    ensures name < FullEntries(name, es)[j] && CmpName(e, FullEntries(name, es)[j][|name|]) < 0
    decreases |es|
  {
    hide CmpName;
    var first := FullWalk(name + [es[0].name], es[0].sub);
    if j < |first| {
      Under(name + [es[0].name], es[0].sub, j);
      assert first[j][|name|] == (name + [es[0].name])[|name|];
    } else {
      LaterEntry(name, e, es[1..], j - |first|);
    }
  }

  lemma Siblings(name: Path, a: Path, b: Path)
    requires name < a && name < b && CmpName(a[|name|], b[|name|]) < 0
    ensures CmpPath(a, b) < 0
  {
    hide CmpName;
    assert a == name + a[|name|..] && b == name + b[|name|..];
    CmpPathFront(name, a[|name|..], b[|name|..]);
  }

  lemma {:induction false} KeptIn<G>(q: Query<G>, ps: seq<Path>, k: nat)
    requires k < |Keep(q, ps)|
    ensures Wanted(q, Keep(q, ps)[k]) && exists i :: 0 <= i < |ps| && ps[i] == Keep(q, ps)[k]
  {
    hide Wanted;
    var n := if Wanted(q, ps[0]) then 1 else 0;
    if k >= n {
      KeptIn(q, ps[1..], k - n);
      var i :| 0 <= i < |ps[1..]| && ps[1..][i] == Keep(q, ps[1..])[k - n];
      assert ps[i + 1] == Keep(q, ps)[k];
    }
  }

  /** Stopping at the k-th visited path and seeking to it visits exactly the remaining ones. */
  lemma {:induction false} Resume<G>(q: Query<G>, ps: seq<Path>, k: nat)
    requires Increasing(ps) && k < |Keep(q, ps)|
    ensures Keep(q.(seek := At(Keep(q, ps)[k])), ps) == Keep(q, ps)[k + 1..]
    decreases |ps|
  {
    KeepFirst(q, ps);
    hide CmpPath, Wanted, Keep;
    var c := Keep(q, ps)[k];
    var q' := q.(seek := At(c));
    KeepFirst(q', ps);
    var rest := ps[1..];
    assert forall i :: 0 <= i < |rest| ==> rest[i] == ps[i + 1];
    CmpPathEqual(c, c);
    if Wanted(q, ps[0]) && k == 0 {
      NotWantedYet(q, c, ps[0]);
      SameBehind(q, q', rest, c);
    } else {
      var n := if Wanted(q, ps[0]) then 1 else 0;
      assert Keep(q, ps)[k] == Keep(q, rest)[k - n];
      KeptIn(q, rest, k - n);
      var i :| 0 <= i < |rest| && rest[i] == c;
      assert CmpPath(ps[0], ps[i + 1]) < 0;
      NotWantedYet(q, c, ps[0]);
      Resume(q, rest, k - n);
      assert Keep(q, ps)[k + 1..] == Keep(q, rest)[k - n + 1..];
    }
  }

  // ------------------------------------------------------------------ the walk itself

  /** The seek path the walk from name really obeys: at the root "." is taken for the name of an
      entry. */
  function Obeyed<G>(q: Query<G>, name: Path): Query<G> {
    if q.seek.Root? && name == [] then q.(seek := At([DOT])) else q
  }

  lemma {:induction false} EntryNames(es: seq<Entry>, j: nat)
    requires WFEntries(es) && j < |FullEntries([], es)|
    ensures FullEntries([], es)[j] != [] && FullEntries([], es)[j][0] != DOT
    decreases |es|
  {
    hide CmpName;
    var none: Path := [];
    var first := FullWalk(none + [es[0].name], es[0].sub);
    if j < |first| {
      Under(none + [es[0].name], es[0].sub, j);
      assert first[j][0] == (none + [es[0].name])[0];
    } else {
      EntryNames(es[1..], j - |first|);
    }
  }

  lemma AfterDot<G>(q: Query<G>, p: Path)
    requires q.seek.Root? && p != [] && p[0] != DOT
    ensures Wanted(q, p) && !Missed(q, [], p) <==> Wanted(q.(seek := At([DOT])), p)
  {
    hide CmpName, Match;
    CmpNameEqual(p[0], DOT);
    EmptyFirst(p);
  }

  lemma {:induction false} DotFilter<G>(q: Query<G>, ps: seq<Path>)
    requires q.seek.Root? && forall i :: 0 <= i < |ps| ==> ps[i] != [] && ps[i][0] != DOT
    ensures Visited(q, [], ps) == Keep(q.(seek := At([DOT])), ps)
  {
    hide Wanted, Missed;
    if ps != [] {
      assert forall i :: 0 <= i < |ps[1..]| ==> ps[1..][i] == ps[i + 1];
      AfterDot(q, ps[0]);
      DotFilter(q, ps[1..]);
    }
  }

  /** What the walk visits is one filter of the full walk, also for a seek of ".". */
  lemma VisitsIs<G>(q: Query<G>, root: Tree, name: Path)
    requires WF(root) && Lookup(root, name).Some?
    ensures var t := Lookup(root, name).value;
      WF(t) && Visits(q, root, name) == Keep(Obeyed(q, name), FullWalk(name, t))
  {
    hide Visited, Keep, FullEntries, Wanted;
    LookupWF(root, name);
    var t := Lookup(root, name).value;
    if q.seek.Root? && name == [] {
      RootItself(q, t);
      var q' := Obeyed(q, name);
      KeepFirst(q', FullWalk([], t));
      RootUnwanted(q);
      var ps := if t.Dir? then FullEntries([], t.entries) else [];
      assert FullWalk([], t)[1..] == ps;
      forall i | 0 <= i < |ps| ensures ps[i] != [] && ps[i][0] != DOT {
        EntryNames(t.entries, i);
      }
      DotFilter(q, ps);
      KeepFirst(q', []);
    } else {
      NeverMissed(q, name, t);
    }
  }

  lemma RootUnwanted<G>(q: Query<G>)
    ensures !Wanted(q.(seek := At([DOT])), [])
  {
  }

  lemma {:induction false} KeepIncreasing<G>(q: Query<G>, ps: seq<Path>)
    requires Increasing(ps)
    ensures Increasing(Keep(q, ps))
  {
    hide CmpPath, Wanted, Keep;
    KeepFirst(q, ps);
    if ps != [] {
      var rest := ps[1..];
      assert forall i :: 0 <= i < |rest| ==> rest[i] == ps[i + 1];
      KeepIncreasing(q, rest);
      if Wanted(q, ps[0]) {
        forall i, j | 0 <= i < |[ps[0]]| && 0 <= j < |Keep(q, rest)| ensures CmpPath([ps[0]][i], Keep(q, rest)[j]) < 0 {
          KeptIn(q, rest, j);
          var k :| 0 <= k < |rest| && rest[k] == Keep(q, rest)[j];
          assert CmpPath(ps[0], ps[k + 1]) < 0;
        }
        IncreasingAppend([ps[0]], Keep(q, rest));
      }
    }
  }

  /** Every walk, whatever its seek path and pattern, visits in strictly increasing path order, and
      so visits nothing twice. */
  lemma VisitsIncreasing<G>(q: Query<G>, root: Tree, name: Path)
    requires WF(root)
    ensures Increasing(Visits(q, root, name))
  {
    hide WF, FullWalk, Keep, Visited, Increasing, Lookup;
    if Lookup(root, name).Some? {
      VisitsIs(q, root, name);
      WalkIncreasing(name, Lookup(root, name).value);
      KeepIncreasing(Obeyed(q, name), FullWalk(name, Lookup(root, name).value));
    } else {
      NothingVisited();
    }
  }

  lemma NothingVisited()
    ensures Increasing([])
  {
  }

  /** Stopping a walk at the k-th path and walking again from there visits exactly the rest. */
  lemma ResumeWalk<G>(q: Query<G>, root: Tree, name: Path, k: nat)
    requires WF(root) && k < |Visits(q, root, name)|
    ensures var c := Visits(q, root, name)[k];
      c != [] && Visits(q.(seek := At(c)), root, name) == Visits(q, root, name)[k + 1..]
  {
    hide WF, FullWalk, Keep, Visited, Increasing;
    var c, t := Visits(q, root, name)[k], Lookup(root, name).value;
    VisitsIs(q, root, name);
    WalkIncreasing(name, t);
    Resume(Obeyed(q, name), FullWalk(name, t), k);
    KeptIn(Obeyed(q, name), FullWalk(name, t), k);
    WantedNonEmpty(Obeyed(q, name), c);
    VisitsIs(q.(seek := At(c)), root, name);
  }

  lemma WantedNonEmpty<G>(q: Query<G>, p: Path)
    requires Wanted(q, p)
    ensures p != []
  {
  }

  lemma KeepFirst<G>(q: Query<G>, ps: seq<Path>)
    ensures ps == [] ==> Keep(q, ps) == []
    ensures ps != [] ==> Keep(q, ps) == (if Wanted(q, ps[0]) then [ps[0]] + Keep(q, ps[1..]) else Keep(q, ps[1..]))
  {
    hide Wanted;
  }

  lemma NotWantedYet<G>(q: Query<G>, c: Path, p: Path)
    requires CmpPath(p, c) <= 0
    ensures !Wanted(q.(seek := At(c)), p)
  {
  }

  lemma {:induction false} SameBehind<G>(q: Query<G>, q': Query<G>, ps: seq<Path>, c: Path)
    requires q' == q.(seek := At(c)) && Wanted(q, c) && forall i :: 0 <= i < |ps| ==> CmpPath(c, ps[i]) < 0
    ensures Keep(q', ps) == Keep(q, ps)
  {
    hide CmpPath, Match;
    if ps != [] {
      assert forall i :: 0 <= i < |ps[1..]| ==> ps[1..][i] == ps[i + 1];
      SameBehind(q, q', ps[1..], c);
      CmpPathEqual(c, ps[0]);
      CmpPathEqual(SeekPath(q.seek), c);
      CmpPathEqual(SeekPath(q.seek), ps[0]);
      CmpPathTransitive(SeekPath(q.seek), c, ps[0]);
    }
  }
}
