/** `jsonrl/ndjson.go`: splitting newline-delimited input among parallel workers. Each worker
    looks for a newline behind its offset and starts its predecessor with that as the end. */
module Ndjson {
  import opened IonCodec

  const NEWLINE: byte := 10

  /** `process` was given the input from..to, behind one extra newline if lead is set. */
  datatype Call = Call(lead: bool, from: nat, to: nat)

  /** Lines of a text whose last line is terminated. */
  function Lines(s: bytes): seq<bytes>
    decreases |s|
  {
    if s == [] then []
    else
      var i := First(s);
      if i == |s| then [s] else [s[..i]] + Lines(s[i + 1..])
  }

  function First(s: bytes): (i: nat)
    ensures i <= |s| && (i < |s| ==> s[i] == NEWLINE)
  {
    if s == [] || s[0] == NEWLINE then 0 else First(s[1..]) + 1
  }

  predicate Terminated(s: bytes) {
    s == [] || s[|s| - 1] == NEWLINE
  }

  lemma {:induction false} FirstAppend(a: bytes, b: bytes)
    requires First(a) < |a|
    ensures First(a + b) == First(a)
  {
    assert (a + b)[0] == a[0] && (a + b)[1..] == a[1..] + b;
    if a[0] != NEWLINE {
      FirstAppend(a[1..], b);
    }
  }

  lemma {:induction false} HasNewline(s: bytes)
    requires s != [] && Terminated(s)
    ensures First(s) < |s|
  {
    if s[0] != NEWLINE {
      assert s[1..][|s| - 2] == s[|s| - 1];
      HasNewline(s[1..]);
    }
  }

  lemma LinesStep(s: bytes)
    requires First(s) < |s|
    ensures Lines(s) == [s[..First(s)]] + Lines(s[First(s) + 1..])
  {
    hide First;
  }

  /** Lines of a text are the lines of its terminated parts. */
  lemma {:induction false} LinesAppend(a: bytes, b: bytes)
    requires Terminated(a)
    ensures Lines(a + b) == Lines(a) + Lines(b)
    decreases |a|
  {
    hide First, Lines, Terminated;
    if a == [] {
      Nothing(b);
    } else {
      HasNewline(a);
      Behind(a, First(a));
      LinesAppend(a[First(a) + 1..], b);
      LinesAppendStep(a, b, First(a));
    }
  }

  lemma Nothing(b: bytes)
    ensures Lines([] + b) == Lines([]) + Lines(b)
  {
    hide First;
    assert [] + b == b;
  }

  lemma Behind(a: bytes, i: nat)
    requires i < |a| && Terminated(a)
    ensures Terminated(a[i + 1..])
  {
  }

  lemma LinesAppendStep(a: bytes, b: bytes, i: nat)
    requires i == First(a) < |a| && Lines(a[i + 1..] + b) == Lines(a[i + 1..]) + Lines(b)
    ensures Lines(a + b) == Lines(a) + Lines(b)
  {
    hide First, Lines;
    FirstAppend(a, b);
    Slices(a, b, i);
    LinesStep(a);
    LinesStep(a + b);
    Regroup([a[..i]], Lines(a[i + 1..]), Lines(b));
  }

  lemma Slices(a: bytes, b: bytes, i: nat)
    requires i < |a|
    ensures (a + b)[..i] == a[..i] && (a + b)[i + 1..] == a[i + 1..] + b
  {
  }

  lemma Regroup(x: seq<bytes>, y: seq<bytes>, z: seq<bytes>)
    ensures x + (y + z) == (x + y) + z
  {
  }

  // ------------------------------------------------------------------------------- tiling

  /** The calls cover lo..hi without gap or overlap, and every part ends with a newline. */
  predicate Tiled(data: bytes, calls: seq<Call>, lo: nat, hi: nat)
    decreases |calls|
  {
    if calls == [] then lo == hi
    else
      var c := calls[|calls| - 1];
      && c.to == hi <= |data| && lo <= c.from <= c.to
      && Terminated(data[c.from..c.to])
      && (c.lead ==> c.from > 0 && data[c.from - 1] == NEWLINE)
      && Tiled(data, calls[..|calls| - 1], lo, c.from)
  }

  /** The lines handed out, call by call. */
  function Handed(data: bytes, calls: seq<Call>): seq<bytes> {
    if calls == [] then []
    else
      var c := calls[|calls| - 1];
      Handed(data, calls[..|calls| - 1]) + if c.from <= c.to <= |data| then Lines(data[c.from..c.to]) else []
  }

  /** A tiling hands out every line once, in order. */
  lemma {:induction false} TiledLines(data: bytes, calls: seq<Call>, lo: nat, hi: nat)
    requires Tiled(data, calls, lo, hi) && lo <= hi <= |data|
    ensures Terminated(data[lo..hi]) && Handed(data, calls) == Lines(data[lo..hi])
    decreases |calls|
  {
    hide Lines, Terminated;
    if calls == [] {
      assert data[lo..hi] == [];
      NoLines();
    } else {
      var c := calls[|calls| - 1];
      TiledLines(data, calls[..|calls| - 1], lo, c.from);
      JoinParts(data, lo, c.from, hi);
      LinesAppend(data[lo..c.from], data[c.from..hi]);
    }
  }

  lemma JoinParts(data: bytes, lo: nat, mid: nat, hi: nat)
    requires lo <= mid <= hi <= |data| && Terminated(data[lo..mid]) && Terminated(data[mid..hi])
    ensures data[lo..hi] == data[lo..mid] + data[mid..hi] && Terminated(data[lo..hi])
  {
  }

  lemma NoLines()
    ensures Lines([]) == [] && Terminated([])
  {
  }

  lemma {:induction false} TiledAppend(data: bytes, a: seq<Call>, b: seq<Call>, lo: nat, mid: nat, hi: nat)
    requires Tiled(data, a, lo, mid) && Tiled(data, b, mid, hi) && lo <= mid
    ensures Tiled(data, a + b, lo, hi)
    decreases |b|
  {
    if b == [] {
      assert a + b == a;
    } else {
      var c := b[|b| - 1];
      assert (a + b)[|a + b| - 1] == c && (a + b)[..|a + b| - 1] == a + b[..|b| - 1];
      TiledAppend(data, a, b[..|b| - 1], lo, mid, c.from);
    }
  }

  lemma OneMore(data: bytes, calls: seq<Call>, c: Call, lo: nat, hi: nat)
    requires Tiled(data, calls, lo, c.from) && c.to == hi <= |data| && lo <= c.from <= c.to
    requires Terminated(data[c.from..c.to]) && (c.lead ==> c.from > 0 && data[c.from - 1] == NEWLINE)
    ensures Tiled(data, calls + [c], lo, hi)
  {
    assert (calls + [c])[..|calls|] == calls;
  }

  // ------------------------------------------------------------------------------ workers

  /** `bytes.LastIndexByte`, as `process` uses it: how much of buf is complete lines. */
  method Process(buf: bytes) returns (n: nat, ok: bool)
    ensures ok <==> NEWLINE in buf
    ensures ok ==> 1 <= n <= |buf| && buf[n - 1] == NEWLINE && NEWLINE !in buf[n..]
  {
    n := |buf|;
    while n > 0 && buf[n - 1] != NEWLINE
      invariant n <= |buf| && NEWLINE !in buf[n..]
    {
      assert buf[n - 1..] == [buf[n - 1]] + buf[n..];
      n := n - 1;
    }
    ok := n > 0;
    assert buf == buf[..n] + buf[n..];
  }

  method FindNewline(buf: bytes) returns (i: nat)
    ensures i <= |buf| && (i < |buf| ==> buf[i] == NEWLINE) && NEWLINE !in buf[..i]
  {
    i := 0;
    while i < |buf| && buf[i] != NEWLINE
      invariant i <= |buf| && NEWLINE !in buf[..i]
    {
      i := i + 1;
    }
  }

  /** What `ReadAt` delivers into a window of w bytes. */
  function Window(data: bytes, off: nat, w: nat): (r: bytes)
    ensures |r| <= w
  {
    if off > |data| then [] else if off + w <= |data| then data[off..off + w] else data[off..]
  }

  /** `splitAt`, with the workers it starts: ok if all of them succeed. The first window is not cut
      off at end: then complete lines behind end are taken along. */
  method SplitAt(data: bytes, w: nat, off: nat, end: nat, rem: seq<nat>) returns (ok: bool, calls: seq<Call>, to: nat)
    requires w > 0 && (off == 0 || off + w <= end || (off + |Window(data, off, w)| <= end))
    requires (rem == [] <==> off == 0) && Spread(rem, w, off)
    ensures ok ==> end <= to <= |data| && Tiled(data, calls, 0, to)
    ensures ok ==> (to == end <==> off + |Window(data, off, w)| <= end || NEWLINE !in Beyond(data, off, w, end))
    ensures off == 0 && NEWLINE in Beyond(data, off, w, end) ==> ok
    decreases |rem|
  {
    hide Terminated, Tiled, Window, Spread, Beyond;
    to := end;
    BeyondIn(data, off, w, end);
    var local := Window(data, off, w);
    if |local| == 0 {
      return false, [], 0;
    }
    var at, start := off, 0;
    calls := [];
    if off != 0 {
      start := FindNewline(local);
      if start == |local| {
        return false, [], 0;
      }
      WindowAt(data, off, w, start);
      var pend := off + start + 1;
      var pstart := rem[|rem| - 1];
      Previous(rem, w, off);
      ok, calls, at := SplitAt(data, w, pstart, pend, rem[..|rem| - 1]);
      if !ok {
        return false, [], 0;
      }
      WindowFits(data, pstart, w);
    }
    var n, found := Process(local[start..]);
    if !found {
      return false, [], 0;
    }
    var here := off + start + n;
    FirstPart(data, w, off, start, n, at, here);
    if off == 0 { NoCalls(data); }
    OneMore(data, calls, Call(off != 0, at, here), 0, here);
    calls := calls + [Call(off != 0, at, here)];
    ok, calls := Rest(data, w, here, end, calls);
    to := if here > end then here else end;
    Overrun(data, w, off, end, start, n);
  }

  lemma BeyondIn(data: bytes, off: nat, w: nat, end: nat)
    ensures NEWLINE in Beyond(data, off, w, end) ==> NEWLINE in Window(data, off, w) && off + |Window(data, off, w)| > end
    ensures Window(data, off, w)[0..] == Window(data, off, w)
  {
    hide Window;
  }

  /** The part of the first window behind end. */
  function Beyond(data: bytes, off: nat, w: nat, end: nat): bytes {
    var local := Window(data, off, w);
    if off <= end < off + |local| then local[end - off..] else []
  }

  lemma WindowFits(data: bytes, off: nat, w: nat)
    ensures off + |Window(data, off, w)| <= off + w
  {
  }

  /** How far the last newline of the first window lies behind end. */
  lemma Overrun(data: bytes, w: nat, off: nat, end: nat, start: nat, n: nat)
    requires var local := Window(data, off, w);
      && start < |local| && 1 <= n <= |local| - start && local[start..][n - 1] == NEWLINE && NEWLINE !in local[start..][n..]
    requires off == 0 ==> start == 0
    requires off <= end
    requires off != 0 ==> off + |Window(data, off, w)| <= end
    ensures off + start + n <= end <==> off + |Window(data, off, w)| <= end || NEWLINE !in Beyond(data, off, w, end)
  {
    hide Window;
    var local := Window(data, off, w);
    if off + |local| > end {
      assert off == 0 && local[0..] == local;
      var tail := local[end..];
      if n > end {
        assert tail[n - 1 - end] == NEWLINE;
      } else {
        assert tail == local[n..][end - n..];
      }
    }
  }

  /** Offsets of the other workers: the first is 0, and windows stay below the next one. */
  predicate Spread(rem: seq<nat>, w: nat, off: nat) {
    && (rem != [] ==> rem[0] == 0)
    && (forall i :: 0 <= i < |rem| ==> (rem[i] == 0 <==> i == 0))
    && (forall i :: 0 <= i < |rem| ==> rem[i] + w <= NextOffset(rem, off, i))
  }

  function NextOffset(rem: seq<nat>, off: nat, i: nat): nat {
    if i + 1 < |rem| then rem[i + 1] else off
  }

  lemma NoCalls(data: bytes)
    ensures Tiled(data, [], 0, 0)
  {
  }

  lemma Previous(rem: seq<nat>, w: nat, off: nat)
    requires rem != [] && Spread(rem, w, off)
    ensures var k := |rem| - 1;
      rem[k] + w <= off && Spread(rem[..k], w, rem[k]) && (rem[..k] == [] <==> rem[k] == 0)
  {
    var k := |rem| - 1;
    assert rem[k] + w <= NextOffset(rem, off, k);
    forall i | 0 <= i < k ensures rem[..k][i] + w <= NextOffset(rem[..k], rem[k], i) {
      assert rem[i] + w <= NextOffset(rem, off, i);
    }
  }

  lemma FirstPart(data: bytes, w: nat, off: nat, start: nat, n: nat, at: nat, to: nat)
    requires var local := Window(data, off, w);
      && start < |local| && 1 <= n <= |local| - start && local[start..][n - 1] == NEWLINE
      && (off != 0 ==> local[start] == NEWLINE && at == off + start + 1) && (off == 0 ==> at == start == 0)
    requires to == off + start + n
    ensures at <= to <= |data| && Terminated(data[at..to]) && (off != 0 ==> data[at - 1] == NEWLINE)
  {
    hide Window, Terminated;
    WindowAt(data, off, w, start);
    WindowAt(data, off, w, start + n - 1);
    EndsLine(data, at, to);
  }

  lemma WindowAt(data: bytes, off: nat, w: nat, k: nat)
    requires k < |Window(data, off, w)|
    ensures off + k < |data| && Window(data, off, w)[k] == data[off + k]
  {
  }

  lemma EndsLine(data: bytes, at: nat, to: nat)
    requires at <= to <= |data| && (at < to ==> data[to - 1] == NEWLINE)
    ensures Terminated(data[at..to])
  {
  }

  /** The loop over the windows behind the first one; these are cut off at end. */
  method Rest(data: bytes, w: nat, from: nat, end: nat, before: seq<Call>) returns (ok: bool, calls: seq<Call>)
    requires w > 0 && from <= |data| && Tiled(data, before, 0, from)
    ensures ok ==> Tiled(data, calls, 0, if from > end then from else end) && (from <= end ==> end <= |data|)
    ensures from >= end ==> ok
  {
    hide Window, Terminated, Tiled;
    calls := before;
    var off := from;
    while off < end
      invariant from <= off <= |data| && (from <= end ==> off <= end) && Tiled(data, calls, 0, off)
      invariant from > end ==> off == from
      decreases end - off
    {
      var inner := Window(data, off, w);
      if end - off < |inner| {
        inner := inner[..end - off];
      }
      var n, found := Process(inner);
      if !found {
        return false, [];
      }
      WindowAt(data, off, w, n - 1);
      EndsLine(data, off, off + n);
      OneMore(data, calls, Call(false, off, off + n), 0, off + n);
      calls := calls + [Call(false, off, off + n)];
      off := off + n;
    }
    ok := true;
  }

  /** `Split`: if every worker succeeds, each line up to a certain point has been handed to exactly one
      call. That point is size, as documented, exactly if size is at least a window or the input
      has no newline between size and the end of the first window. */
  method Split(data: bytes, size: nat, w: nat, maxParallel: nat) returns (ok: bool, calls: seq<Call>, to: nat)
    requires w > 0 && maxParallel > 0
    ensures ok ==> size <= to <= |data| && Tiled(data, calls, 0, to)
    ensures ok ==> Terminated(data[..to]) && Handed(data, calls) == Lines(data[..to])
    ensures ok ==> (to == size <==> size >= w || NEWLINE !in Beyond(data, 0, w, size))
    ensures size < w && NEWLINE in Beyond(data, 0, w, size) ==> ok
  {
    hide Spread, Tiled, Handed, Lines, Terminated, Window, Beyond;
    var offsets := Places(size, w, maxParallel);
    var last := offsets[|offsets| - 1];
    WindowFits(data, last, w);
    WindowCut(data, w, size);
    ok, calls, to := SplitAt(data, w, last, size, offsets[..|offsets| - 1]);
    if ok {
      TiledLines(data, calls, 0, to);
      assert data[0..to] == data[..to];
    }
  }

  lemma WindowCut(data: bytes, w: nat, size: nat)
    ensures size >= w ==> |Window(data, 0, w)| <= size
    ensures |Window(data, 0, w)| <= size ==> NEWLINE !in Beyond(data, 0, w, size)
  {
  }

  /** Where the workers start. */
  method Places(size: nat, w: nat, maxParallel: nat) returns (offsets: seq<nat>)
    requires w > 0 && maxParallel > 0
    ensures offsets != []
    ensures var k := |offsets| - 1;
      && Spread(offsets[..k], w, offsets[k]) && (offsets[..k] == [] <==> offsets[k] == 0)
      && (offsets[k] != 0 ==> offsets[k] + w <= size && size >= w)
  {
    hide Spread;
    var p := maxParallel;
    if size / w < p {
      p := size / w;
    }
    if p <= 0 {
      p := 1;
    }
    var stride := size / p;
    Strides(size, w, p, stride);
    offsets := Multiples(p, stride);
    Offsets(size, w, p, stride, offsets);
    ManyWindows(size, w, p, stride, offsets[p - 1]);
  }

  lemma ManyWindows(size: nat, w: nat, p: nat, stride: nat, last: nat)
    requires p > 0 && last == (p - 1) * stride && p * stride <= size && (p > 1 ==> stride >= w)
    ensures last != 0 ==> last + w <= size && size >= w
  {
    Next(p - 1, stride);
  }

  /** For instance: size ends the first of two lines, and both are handed out. */
  method BehindSize(w: nat) returns (data: bytes, calls: seq<Call>)
    requires w >= 4
    ensures |data| == 4 && Lines(data[..2]) == [[97]] && Lines(data) == [[97], [98]]
    ensures Handed(data, calls) == Lines(data)
  {
    data := [97, NEWLINE, 98, NEWLINE];
    TwoLines(data);
    var ok, to;
    ok, calls, to := Split(data, 2, w, 1);
    assert Beyond(data, 0, w, 2) == data[2..] && data[2..][1] == NEWLINE;
    assert data[..to][to - 1] == NEWLINE;
    assert data[..4] == data;
  }

  lemma TwoLines(data: bytes)
    requires data == [97, NEWLINE, 98, NEWLINE]
    ensures Lines(data[..2]) == [[97]] && Lines(data) == [[97], [98]]
  {
    assert data[..2] == [97, NEWLINE] && data[2..] == [98, NEWLINE];
    OneLine(97);
    OneLine(98);
    LinesAppend(data[..2], data[2..]);
    assert data[..2] + data[2..] == data;
  }

  lemma OneLine(c: byte)
    requires c != NEWLINE
    ensures Lines([c, NEWLINE]) == [[c]]
  {
    var s := [c, NEWLINE];
    assert s[1..] == [NEWLINE] && First(s[1..]) == 0 && First(s) == 1;
    assert s[..1] == [c] && s[2..] == [];
    NoLines();
  }

  method Multiples(p: nat, stride: nat) returns (offsets: seq<nat>)
    ensures |offsets| == p && forall i :: 0 <= i < p ==> offsets[i] == i * stride
  {
    offsets := [];
    for i := 0 to p
      invariant |offsets| == i && forall k :: 0 <= k < i ==> offsets[k] == k * stride
    {
      offsets := offsets + [i * stride];
    }
  }

  /** A stride is at least a window, so first windows stay in their own region. */
  lemma Strides(size: nat, w: nat, p: nat, stride: nat)
    requires w > 0 && p > 0 && (p == 1 || p <= size / w) && stride == size / p
    ensures p * stride <= size && (p > 1 ==> stride >= w)
  {
    Quotient(size, p);
    if p > 1 {
      Quotient(size, w);
      Scale(w, p, size / w);
      if stride < w {
        Scale(p, stride + 1, w);
        Next(stride, p);
      }
    }
  }

  lemma Quotient(x: nat, y: nat)
    requires y > 0
    ensures y * (x / y) <= x < y * (x / y) + y
  {
  }

  lemma Scale(k: nat, a: nat, b: nat)
    requires a <= b
    ensures k * a <= k * b
  {
  }

  lemma Offsets(size: nat, w: nat, p: nat, stride: nat, offsets: seq<nat>)
    requires w > 0 && p > 0 && p * stride <= size && (p > 1 ==> stride >= w)
    requires |offsets| == p && forall i :: 0 <= i < p ==> offsets[i] == i * stride
    ensures Spread(offsets[..p - 1], w, offsets[p - 1]) && (offsets[..p - 1] == [] <==> offsets[p - 1] == 0)
    ensures offsets[p - 1] <= size
  {
    forall i | 0 <= i < p ensures (offsets[i] == 0 <==> i == 0 || stride == 0) && (i + 1 < p ==> offsets[i] + stride == offsets[i + 1]) {
      Next(i, stride);
    }
    Next(p - 1, stride);
  }

  lemma Next(i: nat, stride: nat)
    ensures (i + 1) * stride == i * stride + stride && (i * stride == 0 <==> i == 0 || stride == 0)
  {
  }
}
