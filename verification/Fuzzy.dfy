/** `fuzzy/edit_distance_approx.go`: a greedy approximation of the edit distance that looks at
    most four characters ahead. */
module Fuzzy {
  import Calendar

  type Rune = int

  /** Stands for everything behind the end of a text. */
  const MAX_RUNE: Rune := 0x10_FFFF

  function At(a: seq<Rune>, i: nat): Rune {
    if i < |a| then a[i] else MAX_RUNE
  }

  /** `fillReg`: which of four characters equal n. */
  function Row(n: Rune, d: seq<Rune>, pd: nat): (r: seq<bool>)
    ensures |r| == 4
  {
    [n == At(d, pd), n == At(d, pd + 1), n == At(d, pd + 2), n == At(d, pd + 3)]
  }

  /** `test`: 1 must be set, 0 must not be set, X is either. */
  predicate Test(row: seq<bool>, desc: string)
    requires |row| == 4 && |desc| == 4
  {
    && (desc[0] == 'X' || row[0] == (desc[0] == '1'))
    && (desc[1] == 'X' || row[1] == (desc[1] == '1'))
    && (desc[2] == 'X' || row[2] == (desc[2] == '1'))
    && (desc[3] == 'X' || row[3] == (desc[3] == '1'))
  }

  /** Cost of a step and how far it moves in either text. */
  datatype Move = Move(cost: nat, data: nat, needle: nat)

  const EQUAL := Move(0, 1, 1)
  const SUBSTITUTE := Move(1, 1, 1)
  const TRANSPOSE := Move(1, 2, 2)
  const DELETE := Move(1, 0, 1)
  const INSERT := Move(1, 1, 0)
  const SWAP_OVER := Move(2, 3, 2)

  /** `editDistanceKernel`, on the four rows of comparisons. */
  function Decide(z0: seq<bool>, z1: seq<bool>, z2: seq<bool>, z3: seq<bool>, lookahead: int): Move
    requires |z0| == |z1| == |z2| == |z3| == 4
  {
    if lookahead == 1 then
      if Test(z0, "1XXX") then EQUAL else SUBSTITUTE
    else if lookahead == 2 then
      if Test(z0, "1XXX") then EQUAL
      else if Test(z0, "01XX") && Test(z1, "10XX") then TRANSPOSE
      else if Test(z0, "00XX") && Test(z1, "1XXX") then DELETE
      else if Test(z0, "01XX") && Test(z1, "0XXX") then INSERT
      else SUBSTITUTE
    else if lookahead == 3 then
      if Test(z0, "1XXX") then EQUAL
      else if Test(z0, "01XX") && Test(z1, "1XXX") then TRANSPOSE
      else if Test(z0, "00XX") && Test(z1, "1XXX") && Test(z2, "X1XX") then DELETE
      else if Test(z0, "000X") && Test(z1, "000X") && Test(z2, "100X") then DELETE
      else if Test(z0, "01XX") && Test(z1, "0X1X") then INSERT
      else if Test(z0, "001X") && Test(z1, "000X") && Test(z2, "000X") then INSERT
      else if Test(z0, "001X") && Test(z1, "100X") && Test(z2, "000X") then SWAP_OVER
      else SUBSTITUTE
    else if lookahead == 4 then
      if Test(z0, "1XXX") then EQUAL
      else if Test(z0, "01XX") && Test(z1, "1XXX") then TRANSPOSE
      else if Test(z0, "00XX") && Test(z1, "1XXX") && Test(z2, "X1XX") && Test(z3, "XX1X") then DELETE
      else if Test(z0, "000X") && Test(z1, "0000") && Test(z2, "1000") then DELETE
      else if Test(z0, "0000") && Test(z1, "0000") && Test(z2, "0000") && Test(z3, "1000") then DELETE
      else if Test(z0, "01XX") && Test(z1, "0X1X") then INSERT
      else if Test(z0, "0010") && Test(z1, "0001") then INSERT
      else if Test(z0, "0001") && Test(z1, "0000") && Test(z2, "0000") && Test(z3, "0000") then INSERT
      else if Test(z0, "001X") && Test(z1, "100X") && Test(z2, "000X") then SWAP_OVER
      else SUBSTITUTE
    else EQUAL
  }

  function Kernel(data: seq<Rune>, needle: seq<Rune>, pd: nat, pn: nat, lookahead: int): Move {
    Decide(Row(At(needle, pn), data, pd), Row(At(needle, pn + 1), data, pd),
           Row(At(needle, pn + 2), data, pd), Row(At(needle, pn + 3), data, pd), lookahead)
  }

  /** What each decision says about the characters it was made from. */
  predicate Justified(m: Move, data: seq<Rune>, needle: seq<Rune>, pd: nat, pn: nat) {
    var d0, d1, d2 := At(data, pd), At(data, pd + 1), At(data, pd + 2);
    var n0, n1, n2, n3 := At(needle, pn), At(needle, pn + 1), At(needle, pn + 2), At(needle, pn + 3);
    if n0 == d0 then m == EQUAL
    else
      || m == SUBSTITUTE
      || (m == TRANSPOSE && n0 == d1 && n1 == d0)
      || (m == DELETE && (n1 == d0 || n2 == d0 || n3 == d0))
      || (m == INSERT && (n0 == d1 || n0 == d2 || n0 == At(data, pd + 3)))
      || (m == SWAP_OVER && n0 == d2 && n1 == d0)
  }

  lemma KernelJustified(data: seq<Rune>, needle: seq<Rune>, pd: nat, pn: nat, lookahead: int)
    requires 1 <= lookahead <= 4
    ensures Justified(Kernel(data, needle, pd, pn, lookahead), data, needle, pd, pn)
  {
    hide At;
  }

  // ---------------------------------------------------------------------- edit scripts

  datatype Edit = Sub(i: nat, r: Rune) | Ins(i: nat, r: Rune) | Del(i: nat) | Swap(i: nat)

  predicate Fits(e: Edit, s: seq<Rune>) {
    match e
    case Sub(i, _) => i < |s|
    case Ins(i, _) => i <= |s|
    case Del(i) => i < |s|
    case Swap(i) => i + 1 < |s|
  }

  function Apply(e: Edit, s: seq<Rune>): (r: seq<Rune>)
    requires Fits(e, s)
    ensures |s| - 1 <= |r| <= |s| + 1
  {
    match e
    case Sub(i, r) => s[i := r]
    case Ins(i, r) => s[..i] + [r] + s[i..]
    case Del(i) => s[..i] + s[i + 1..]
    case Swap(i) => s[i := s[i + 1]][i + 1 := s[i]]
  }

  /** The script turns a into b, one edit after the other. */
  predicate Turns(script: seq<Edit>, a: seq<Rune>, b: seq<Rune>)
    decreases |script|
  {
    if script == [] then a == b
    else Fits(script[0], a) && Turns(script[1..], Apply(script[0], a), b)
  }

  lemma {:induction false} TurnsTrans(x: seq<Edit>, y: seq<Edit>, a: seq<Rune>, b: seq<Rune>, c: seq<Rune>)
    requires Turns(x, a, b) && Turns(y, b, c)
    ensures Turns(x + y, a, c)
    decreases |x|
  {
    hide Fits, Apply;
    if x == [] {
      assert x + y == y;
    } else {
      assert (x + y)[0] == x[0] && (x + y)[1..] == x[1..] + y;
      TurnsTrans(x[1..], y, Apply(x[0], a), b, c);
    }
  }

  /** A script is at least as long as the texts differ in length. */
  lemma {:induction false} LengthBound(script: seq<Edit>, a: seq<Rune>, b: seq<Rune>)
    requires Turns(script, a, b)
    ensures |a| - |script| <= |b| <= |a| + |script|
    decreases |script|
  {
    if script != [] {
      LengthBound(script[1..], Apply(script[0], a), b);
    }
  }

  lemma OneEdit(e: Edit, a: seq<Rune>, b: seq<Rune>)
    requires Fits(e, a) && Apply(e, a) == b
    ensures Turns([e], a, b)
  {
    assert [e][1..] == [];
    assert Turns([], b, b);
  }

  // --------------------------------------------------------------------------- one step

  predicate Plain(a: seq<Rune>) {
    forall i :: 0 <= i < |a| ==> a[i] != MAX_RUNE
  }

  function Upto(a: seq<Rune>, p: nat): nat {
    if p < |a| then p else |a|
  }

  /** The needle as far as it has been reached, then what is left of the data. */
  function Mixed(data: seq<Rune>, needle: seq<Rune>, pd: nat, pn: nat): seq<Rune> {
    needle[..Upto(needle, pn)] + data[Upto(data, pd)..]
  }

  /** What a move needs in order to be a sequence of edits: the characters it speaks of exist. */
  predicate Payable(m: Move, data: seq<Rune>, needle: seq<Rune>, pd: nat, pn: nat) {
    if m == EQUAL then pd < |data| && pn < |needle| && data[pd] == needle[pn]
    else if m == SUBSTITUTE then pd < |data| || pn < |needle|
    else if m == TRANSPOSE then pd + 1 < |data| && pn + 1 < |needle| && needle[pn] == data[pd + 1] && needle[pn + 1] == data[pd]
    else if m == DELETE then pn < |needle|
    else if m == INSERT then pd < |data|
    else m == SWAP_OVER && pd + 2 < |data| && pn + 1 < |needle| && needle[pn] == data[pd + 2] && needle[pn + 1] == data[pd]
  }

  lemma JustifiedIsPayable(m: Move, data: seq<Rune>, needle: seq<Rune>, pd: nat, pn: nat)
    requires Plain(data) && Plain(needle) && (pd < |data| || pn < |needle|) && Justified(m, data, needle, pd, pn)
    ensures Payable(m, data, needle, pd, pn)
  {
  }

  /** Every move is paid for by edits. */
  lemma StepScript(data: seq<Rune>, needle: seq<Rune>, pd: nat, pn: nat, m: Move) returns (es: seq<Edit>)
    requires Payable(m, data, needle, pd, pn)
    ensures |es| == m.cost && Turns(es, Mixed(data, needle, pd, pn), Mixed(data, needle, pd + m.data, pn + m.needle))
  {
    hide Turns, Mixed, Apply, Fits;
    var a, b := Mixed(data, needle, pd, pn), Mixed(data, needle, pd + m.data, pn + m.needle);
    if m == EQUAL {
      PayNothing(data, needle, pd, pn);
      Unchanged(a);
      es := [];
    } else if m == TRANSPOSE || m == SWAP_OVER {
      es := SwapScript(data, needle, pd, pn, m);
    } else {
      var e;
      if m == DELETE || (m == SUBSTITUTE && pd >= |data|) {
        e := PayInsert(data, needle, pd, pn);
      } else if m == INSERT || pn >= |needle| {
        e := PayDelete(data, needle, pd, pn);
      } else {
        e := PaySubstitute(data, needle, pd, pn);
      }
      OneEdit(e, a, b);
      es := [e];
    }
  }

  lemma PayNothing(data: seq<Rune>, needle: seq<Rune>, pd: nat, pn: nat)
    requires pd < |data| && pn < |needle| && data[pd] == needle[pn]
    ensures Mixed(data, needle, pd, pn) == Mixed(data, needle, pd + 1, pn + 1)
  {
  }

  lemma PayInsert(data: seq<Rune>, needle: seq<Rune>, pd: nat, pn: nat) returns (e: Edit)
    requires pn < |needle|
    ensures Fits(e, Mixed(data, needle, pd, pn)) && Apply(e, Mixed(data, needle, pd, pn)) == Mixed(data, needle, pd, pn + 1)
    ensures pd >= |data| ==> Mixed(data, needle, pd, pn + 1) == Mixed(data, needle, pd + 1, pn + 1)
  {
    e := Ins(pn, needle[pn]);
    assert Mixed(data, needle, pd, pn)[..pn] == needle[..pn];
    assert Mixed(data, needle, pd, pn)[pn..] == data[Upto(data, pd)..];
    assert needle[..Upto(needle, pn + 1)] == needle[..pn] + [needle[pn]];
  }

  lemma PayDelete(data: seq<Rune>, needle: seq<Rune>, pd: nat, pn: nat) returns (e: Edit)
    requires pd < |data|
    ensures Fits(e, Mixed(data, needle, pd, pn)) && Apply(e, Mixed(data, needle, pd, pn)) == Mixed(data, needle, pd + 1, pn)
    ensures pn >= |needle| ==> Mixed(data, needle, pd + 1, pn) == Mixed(data, needle, pd + 1, pn + 1)
  {
    e := Del(Upto(needle, pn));
    var k := Upto(needle, pn);
    assert Mixed(data, needle, pd, pn)[..k] == needle[..k];
    assert Mixed(data, needle, pd, pn)[k + 1..] == data[pd + 1..];
  }

  lemma PaySubstitute(data: seq<Rune>, needle: seq<Rune>, pd: nat, pn: nat) returns (e: Edit)
    requires pd < |data| && pn < |needle|
    ensures Fits(e, Mixed(data, needle, pd, pn)) && Apply(e, Mixed(data, needle, pd, pn)) == Mixed(data, needle, pd + 1, pn + 1)
  {
    e := Sub(pn, needle[pn]);
  }

  lemma Unchanged(a: seq<Rune>)
    ensures Turns([], a, a)
  {
  }

  lemma SwapScript(data: seq<Rune>, needle: seq<Rune>, pd: nat, pn: nat, m: Move) returns (es: seq<Edit>)
    requires Payable(m, data, needle, pd, pn) && (m == TRANSPOSE || m == SWAP_OVER)
    ensures |es| == m.cost && Turns(es, Mixed(data, needle, pd, pn), Mixed(data, needle, pd + m.data, pn + m.needle))
  {
    hide Turns;
    var a, b := Mixed(data, needle, pd, pn), Mixed(data, needle, pd + m.data, pn + m.needle);
    if m == TRANSPOSE {
      es := [Swap(pn)];
      assert Apply(es[0], a) == b;
      OneEdit(es[0], a, b);
    } else {
      var mid := Apply(Del(pn + 1), a);
      OneEdit(Del(pn + 1), a, mid);
      assert Apply(Swap(pn), mid) == b;
      OneEdit(Swap(pn), mid, b);
      TurnsTrans([Del(pn + 1)], [Swap(pn)], a, mid, b);
      es := [Del(pn + 1)] + [Swap(pn)];
    }
  }

  function Left(a: seq<Rune>, p: nat): nat {
    |a| - Upto(a, p)
  }

  /** Every move gets closer to the end of at least one text. */
  lemma Progress(data: seq<Rune>, needle: seq<Rune>, pd: nat, pn: nat, m: Move)
    requires (pd < |data| || pn < |needle|) && Justified(m, data, needle, pd, pn)
    ensures Left(data, pd + m.data) + Left(needle, pn + m.needle) < Left(data, pd) + Left(needle, pn)
  {
  }

  // ------------------------------------------------------------------------- whole texts

  /** `calcEditDistanceRunes` where the tails have to match. */
  method WholeDistance(data: seq<Rune>, needle: seq<Rune>, lookahead: int) returns (total: nat, ghost script: seq<Edit>)
    requires 1 <= lookahead <= 4
    ensures Plain(data) && Plain(needle) ==> |script| == total && Turns(script, data, needle)
    ensures total == 0 <==> data == needle || EndPadded(data, needle) || EndPadded(needle, data)
  {
    hide Kernel, Justified, Turns, Plain, Mixed, Left, Shortest, EndPadded, Agree, AgreeUpto;
    total, script := 0, [];
    var pd: nat, pn: nat := 0, 0;
    NoEdits(data, needle);
    NothingCompared(data, needle);
    while pn < |needle| || pd < |data|
      invariant Plain(data) && Plain(needle) ==> |script| == total && Turns(script, data, Mixed(data, needle, pd, pn))
      invariant total == 0 ==> pd == pn && AgreeUpto(data, needle, pd)
      invariant Agree(data, needle) ==> pd == pn && total == 0
      decreases Left(data, pd) + Left(needle, pn)
    {
      var m := Kernel(data, needle, pd, pn, lookahead);
      KernelJustified(data, needle, pd, pn, lookahead);
      Progress(data, needle, pd, pn, m);
      SameText(data, needle, pd, pn, m);
      if Plain(data) && Plain(needle) {
        JustifiedIsPayable(m, data, needle, pd, pn);
        ghost var es := StepScript(data, needle, pd, pn, m);
        TurnsTrans(script, es, data, Mixed(data, needle, pd, pn), Mixed(data, needle, pd + m.data, pn + m.needle));
        script := script + es;
      }
      total, pd, pn := total + m.cost, pd + m.data, pn + m.needle;
    }
    AllReached(data, needle, pd, pn);
    if total == 0 { AgreedToEnd(data, needle, pd); }
    AgreeIff(data, needle);
  }

  /** The texts look the same to the kernel, up to position p and everywhere. */
  ghost predicate AgreeUpto(a: seq<Rune>, b: seq<Rune>, p: nat) {
    forall i: nat :: i < p ==> At(a, i) == At(b, i)
  }

  ghost predicate Agree(a: seq<Rune>, b: seq<Rune>) {
    forall i: nat :: At(a, i) == At(b, i)
  }

  /** b is a with nothing but stand-ins for the end behind it. */
  predicate EndPadded(a: seq<Rune>, b: seq<Rune>) {
    |a| < |b| && a == b[..|a|] && forall i :: |a| <= i < |b| ==> b[i] == MAX_RUNE
  }

  lemma NothingCompared(a: seq<Rune>, b: seq<Rune>)
    ensures AgreeUpto(a, b, 0)
  {
  }

  lemma AgreedToEnd(a: seq<Rune>, b: seq<Rune>, p: nat)
    requires p >= |a| && p >= |b| && AgreeUpto(a, b, p)
    ensures Agree(a, b)
  {
    forall i: nat ensures At(a, i) == At(b, i) {
      if i < p { assert At(a, i) == At(b, i); }
    }
  }

  /** Exactly these texts look the same. */
  lemma AgreeIff(a: seq<Rune>, b: seq<Rune>)
    ensures Agree(a, b) <==> a == b || EndPadded(a, b) || EndPadded(b, a)
  {
    if Agree(a, b) {
      if |a| <= |b| { LooksPadded(a, b); } else { LooksPadded(b, a); }
    }
    if EndPadded(a, b) { PaddedLooks(a, b); }
    if EndPadded(b, a) { PaddedLooks(b, a); }
  }

  lemma LooksPadded(a: seq<Rune>, b: seq<Rune>)
    requires Agree(a, b) && |a| <= |b|
    ensures a == b || EndPadded(a, b)
  {
    forall i | 0 <= i < |a| ensures a[i] == b[i] {
      assert At(a, i) == At(b, i);
    }
    forall i | |a| <= i < |b| ensures b[i] == MAX_RUNE {
      assert At(a, i) == At(b, i);
    }
    assert a == b[..|a|];
  }

  lemma PaddedLooks(a: seq<Rune>, b: seq<Rune>)
    requires EndPadded(a, b)
    ensures Agree(a, b) && Agree(b, a)
  {
    forall i: nat ensures At(a, i) == At(b, i) {
      if i < |a| { assert a[i] == b[..|a|][i]; }
    }
  }

  lemma AllReached(data: seq<Rune>, needle: seq<Rune>, pd: nat, pn: nat)
    requires pd >= |data| && pn >= |needle|
    ensures Mixed(data, needle, pd, pn) == needle
  {
  }

  lemma NoEdits(data: seq<Rune>, needle: seq<Rune>)
    ensures Turns([], data, Mixed(data, needle, 0, 0))
  {
    assert Mixed(data, needle, 0, 0) == data;
  }

  lemma SameText(data: seq<Rune>, needle: seq<Rune>, pd: nat, pn: nat, m: Move)
    requires Justified(m, data, needle, pd, pn)
    ensures Agree(data, needle) && pd == pn ==> m == EQUAL
    ensures m.cost == 0 ==> m == EQUAL
    ensures m.cost == 0 && pd == pn && AgreeUpto(data, needle, pd) ==> AgreeUpto(data, needle, pd + 1)
  {
  }

  /** Edits of a text are edits of the same text with something behind it. */
  lemma {:induction false} TurnsTail(script: seq<Edit>, a: seq<Rune>, b: seq<Rune>, t: seq<Rune>)
    requires Turns(script, a, b)
    ensures Turns(script, a + t, b + t)
    decreases |script|
  {
    hide Apply, Fits;
    if script != [] {
      ApplyTail(script[0], a, t);
      TurnsTail(script[1..], Apply(script[0], a), b, t);
    }
  }

  lemma ApplyTail(e: Edit, a: seq<Rune>, t: seq<Rune>)
    requires Fits(e, a)
    ensures Fits(e, a + t) && Apply(e, a + t) == Apply(e, a) + t
  {
    match e
    case Sub(i, r) => UpdateFront(a, t, i, r);
    case Ins(i, r) => SliceFront(a, t, i);
    case Del(i) =>
      SliceFront(a, t, i);
      SliceFront(a, t, i + 1);
    case Swap(i) =>
      UpdateFront(a, t, i, a[i + 1]);
      UpdateFront(a[i := a[i + 1]], t, i + 1, a[i]);
  }

  lemma UpdateFront(a: seq<Rune>, t: seq<Rune>, i: nat, r: Rune)
    requires i < |a|
    ensures (a + t)[i := r] == a[i := r] + t
  {
  }

  lemma SliceFront(a: seq<Rune>, t: seq<Rune>, i: nat)
    requires i <= |a|
    ensures (a + t)[..i] == a[..i] && (a + t)[i..] == a[i..] + t
  {
  }

  /** One more step of a prefix match. */
  lemma PrefixStep(script: seq<Edit>, data: seq<Rune>, needle: seq<Rune>, pd: nat, pn: nat, m: Move) returns (more: seq<Edit>)
    requires pd < |data| && pn < |needle| && Payable(m, data, needle, pd, pn)
    requires Turns(script, data[..pd], needle[..pn])
    ensures pd + m.data <= |data| && pn + m.needle <= |needle| && |more| == |script| + m.cost
    ensures Turns(more, data[..pd + m.data], needle[..pn + m.needle])
  {
    hide Turns;
    var used, tail := data[..pd + m.data], data[pd..pd + m.data];
    assert used == data[..pd] + tail && used[pd..] == tail;
    TurnsTail(script, data[..pd], needle[..pn], tail);
    UsedPays(m, data, needle, pd, pn);
    var es := StepOn(used, needle, pd, pn, m);
    TurnsTrans(script, es, used, needle[..pn] + tail, needle[..pn + m.needle]);
    more := script + es;
  }

  lemma UsedPays(m: Move, data: seq<Rune>, needle: seq<Rune>, pd: nat, pn: nat)
    requires pd < |data| && pn < |needle| && Payable(m, data, needle, pd, pn)
    ensures pd + m.data <= |data| && Payable(m, data[..pd + m.data], needle, pd, pn)
  {
  }

  lemma StepOn(used: seq<Rune>, needle: seq<Rune>, pd: nat, pn: nat, m: Move) returns (es: seq<Edit>)
    requires |used| == pd + m.data && pn < |needle| && Payable(m, used, needle, pd, pn)
    ensures pn + m.needle <= |needle| && |es| == m.cost && Turns(es, needle[..pn] + used[pd..], needle[..pn + m.needle])
  {
    hide Turns;
    es := StepScript(used, needle, pd, pn, m);
    assert Mixed(used, needle, pd, pn) == needle[..pn] + used[pd..];
    assert Mixed(used, needle, pd + m.data, pn + m.needle) == needle[..pn + m.needle];
  }

  /** What is missing from the needle is inserted. */
  lemma {:induction false} InsertRest(script: seq<Edit>, a: seq<Rune>, needle: seq<Rune>, pn: nat) returns (more: seq<Edit>)
    requires pn <= |needle| && Turns(script, a, needle[..pn])
    ensures |more| == |script| + |needle| - pn && Turns(more, a, needle)
    decreases |needle| - pn
  {
    hide Turns;
    if pn == |needle| {
      assert needle[..pn] == needle;
      more := script;
    } else {
      var e := Ins(pn, needle[pn]);
      assert Apply(e, needle[..pn]) == needle[..pn + 1];
      OneEdit(e, needle[..pn], needle[..pn + 1]);
      TurnsTrans(script, [e], a, needle[..pn], needle[..pn + 1]);
      more := InsertRest(script + [e], a, needle, pn + 1);
    }
  }

  /** `calcEditDistanceRunes` where the data may go on: the needle against a front of the data. */
  method PrefixDistance(data: seq<Rune>, needle: seq<Rune>, lookahead: int)
    returns (total: nat, ghost script: seq<Edit>, ghost front: nat)
    requires 1 <= lookahead <= 4
    ensures Plain(data) && Plain(needle) ==> front <= |data| && |script| == total && Turns(script, data[..front], needle)
    ensures total == 0 <==> needle <= data
  {
    hide Kernel, Justified, Turns, Plain, Payable, AgreeUpto, Agree;
    total, script := 0, [];
    var pd: nat, pn: nat := 0, 0;
    Unchanged([]);
    NothingCompared(data, needle);
    assert data[..0] == needle[..0] == [];
    while pn < |needle| && pd < |data|
      invariant Plain(data) && Plain(needle) ==>
        pd <= |data| && pn <= |needle| && |script| == total && Turns(script, data[..pd], needle[..pn])
      invariant needle <= data ==> pd == pn <= |needle| && total == 0
      invariant total == 0 ==> pd == pn <= |needle| && pd <= |data| && AgreeUpto(data, needle, pd)
      decreases Left(data, pd) + Left(needle, pn)
    {
      var m := Kernel(data, needle, pd, pn, lookahead);
      KernelJustified(data, needle, pd, pn, lookahead);
      Progress(data, needle, pd, pn, m);
      SameFront(data, needle, pd, pn, m);
      SameText(data, needle, pd, pn, m);
      if Plain(data) && Plain(needle) {
        JustifiedIsPayable(m, data, needle, pd, pn);
        script := PrefixStep(script, data, needle, pd, pn, m);
      }
      total, pd, pn := total + m.cost, pd + m.data, pn + m.needle;
    }
    front := pd;
    if Plain(data) && Plain(needle) {
      script := InsertRest(script, data[..pd], needle, pn);
    }
    if total == 0 { AgreedFront(data, needle, pd); }
    if pn < |needle| {
      total := total + (|needle| - pn);
    }
  }

  lemma AgreedFront(data: seq<Rune>, needle: seq<Rune>, p: nat)
    requires p <= |data| && p <= |needle| && AgreeUpto(data, needle, p)
    ensures data[..p] == needle[..p]
  {
    forall i | 0 <= i < p ensures data[i] == needle[i] {
      assert At(data, i) == At(needle, i);
    }
  }

  lemma SameFront(data: seq<Rune>, needle: seq<Rune>, pd: nat, pn: nat, m: Move)
    requires Justified(m, data, needle, pd, pn)
    ensures needle <= data && pd == pn < |needle| ==> m == EQUAL
  {
  }

  /** d is the length of a shortest script. */
  ghost predicate Shortest(d: nat, a: seq<Rune>, b: seq<Rune>) {
    (exists s :: |s| == d && Turns(s, a, b)) && forall s :: Turns(s, a, b) ==> d <= |s|
  }

  /** The cost of an actual script is zero only for equal texts, and never below the distance
      or the difference in length. */
  lemma Sound(data: seq<Rune>, needle: seq<Rune>, script: seq<Edit>, total: nat)
    requires |script| == total && Turns(script, data, needle)
    ensures total == 0 ==> data == needle
    ensures |data| - |needle| <= total && |needle| - |data| <= total
    ensures forall d: nat :: Shortest(d, data, needle) ==> d <= total
  {
    LengthBound(script, data, needle);
  }

  /** Different texts of distance zero: any text, and the same text with stand-ins for the end
      behind it. */
  method EndIsMistaken(a: seq<Rune>, n: nat, lookahead: int) returns (total: nat)
    requires n > 0 && 1 <= lookahead <= 4
    ensures a != a + seq(n, _ => MAX_RUNE) && total == 0
  {
    var b := a + seq(n, _ => MAX_RUNE);
    assert |a| < |b|;
    ghost var script;
    total, script := WholeDistance(a, b, lookahead);
  }

  // ---------------------------------------------------------------- the table for Approx3

  datatype Rule = Rule(spec: string, m: Move)

  const RULES: seq<Rule> := [
    Rule("1XXX:XXXX:XXXX:XXXX", EQUAL),
    Rule("01XX:1XXX:XXXX:XXXX", TRANSPOSE),
    Rule("00XX:1XXX:X1XX:XXXX", DELETE),
    Rule("000X:000X:100X:XXXX", DELETE),
    Rule("01XX:0X1X:XXXX:XXXX", INSERT),
    Rule("001X:000X:000X:XXXX", INSERT),
    Rule("001X:100X:000X:XXXX", SWAP_OVER)]

  /** `pack`. */
  function PackMove(m: Move): int {
    m.cost * 16 + m.needle * 4 + m.data
  }

  function UnpackMove(v: int): Move
    requires v >= 0
  {
    Move(v / 16, v % 4, v / 4 % 4)
  }

  /** `getBit` at the place `getIdxKey` assigns to needle character n and data character d. */
  function KeyBit(idx: nat, n: nat, d: nat): bool
    requires n < 3 && d < 3
  {
    var pos := [[0, 4, 8], [2, 3, 7], [1, 5, 6]][n][d];
    idx / [1, 2, 4, 8, 16, 32, 64, 128, 256][pos] % 2 == 1
  }

  predicate Agrees(c: char, b: bool) {
    if c == '1' then b else if c == '0' then !b else true
  }

  /** `applies`. */
  predicate Applies(idx: nat, spec: string)
    requires |spec| == 19
  {
    && Agrees(spec[0], KeyBit(idx, 0, 0)) && Agrees(spec[1], KeyBit(idx, 0, 1)) && Agrees(spec[2], KeyBit(idx, 0, 2))
    && Agrees(spec[5], KeyBit(idx, 1, 0)) && Agrees(spec[6], KeyBit(idx, 1, 1)) && Agrees(spec[7], KeyBit(idx, 1, 2))
    && Agrees(spec[10], KeyBit(idx, 2, 0)) && Agrees(spec[11], KeyBit(idx, 2, 1)) && Agrees(spec[12], KeyBit(idx, 2, 2))
  }

  /** The nine comparisons behind a key. */
  datatype Bits = Bits(b00: bool, b01: bool, b02: bool, b10: bool, b11: bool, b12: bool, b20: bool, b21: bool, b22: bool)

  function BitsOf(idx: nat): Bits {
    Bits(KeyBit(idx, 0, 0), KeyBit(idx, 0, 1), KeyBit(idx, 0, 2), KeyBit(idx, 1, 0), KeyBit(idx, 1, 1),
         KeyBit(idx, 1, 2), KeyBit(idx, 2, 0), KeyBit(idx, 2, 1), KeyBit(idx, 2, 2))
  }

  /** The rules written out. */
  predicate Holds(r: nat, b: Bits) {
    match r
    case 0 => b.b00
    case 1 => !b.b00 && b.b01 && b.b10
    case 2 => !b.b00 && !b.b01 && b.b10 && b.b21
    case 3 => !b.b00 && !b.b01 && !b.b02 && !b.b10 && !b.b11 && !b.b12 && b.b20 && !b.b21 && !b.b22
    case 4 => !b.b00 && b.b01 && !b.b10 && b.b12
    case 5 => !b.b00 && !b.b01 && b.b02 && !b.b10 && !b.b11 && !b.b12 && !b.b20 && !b.b21 && !b.b22
    case 6 => !b.b00 && !b.b01 && b.b02 && b.b10 && !b.b11 && !b.b12 && !b.b20 && !b.b21 && !b.b22
    case _ => false
  }

  lemma Rule0(idx: nat)
    ensures Applies(idx, "1XXX:XXXX:XXXX:XXXX") <==> Holds(0, BitsOf(idx))
  {
    hide KeyBit;
  }

  lemma Rule1(idx: nat)
    ensures Applies(idx, "01XX:1XXX:XXXX:XXXX") <==> Holds(1, BitsOf(idx))
  {
    hide KeyBit;
  }

  lemma Rule2(idx: nat)
    ensures Applies(idx, "00XX:1XXX:X1XX:XXXX") <==> Holds(2, BitsOf(idx))
  {
    hide KeyBit;
  }

  lemma Rule3(idx: nat)
    ensures Applies(idx, "000X:000X:100X:XXXX") <==> Holds(3, BitsOf(idx))
  {
    hide KeyBit;
  }

  lemma Rule4(idx: nat)
    ensures Applies(idx, "01XX:0X1X:XXXX:XXXX") <==> Holds(4, BitsOf(idx))
  {
    hide KeyBit;
  }

  lemma Rule5(idx: nat)
    ensures Applies(idx, "001X:000X:000X:XXXX") <==> Holds(5, BitsOf(idx))
  {
    hide KeyBit;
  }

  lemma Rule6(idx: nat)
    ensures Applies(idx, "001X:100X:000X:XXXX") <==> Holds(6, BitsOf(idx))
  {
    hide KeyBit;
  }

  lemma RuleMeans(idx: nat, r: nat)
    requires r < |RULES|
    ensures Applies(idx, RULES[r].spec) <==> Holds(r, BitsOf(idx))
  {
    hide KeyBit, Applies, Holds, BitsOf;
    match r
    case 0 => Rule0(idx);
    case 1 => Rule1(idx);
    case 2 => Rule2(idx);
    case 3 => Rule3(idx);
    case 4 => Rule4(idx);
    case 5 => Rule5(idx);
    case 6 => Rule6(idx);
  }

  /** No two rules apply to the same key. */
  lemma Exclusive(idx: nat, i: nat, j: nat)
    requires i < j < |RULES| && Applies(idx, RULES[i].spec)
    ensures !Applies(idx, RULES[j].spec)
  {
    hide Applies, KeyBit;
    RuleMeans(idx, i);
    RuleMeans(idx, j);
  }

  const UNSET := 0xff

  /** What the first n rules put at idx. */
  function Chosen(idx: nat, n: nat): int
    requires n <= |RULES|
  {
    if n == 0 then UNSET else if Applies(idx, RULES[n - 1].spec) then PackMove(RULES[n - 1].m) else Chosen(idx, n - 1)
  }

  function Entry(idx: nat): int {
    var v := Chosen(idx, |RULES|);
    if v == UNSET then PackMove(SUBSTITUTE) else v
  }

  /** `compileTableData`: the "overwrite" panic does not happen. */
  method BuildTable() returns (ok: bool, table: array<int>)
    ensures ok && table.Length == 0x200
    ensures forall idx :: 0 <= idx < 0x200 ==> table[idx] == Entry(idx)
  {
    hide Applies, PackMove;
    table := new int[0x200](_ => UNSET);
    for r := 0 to |RULES|
      invariant forall idx :: 0 <= idx < 0x200 ==> table[idx] == Chosen(idx, r)
    {
      for idx := 0 to 0x200
        invariant forall k :: 0 <= k < 0x200 ==> table[k] == Chosen(k, if k < idx then r + 1 else r)
      {
        if Applies(idx, RULES[r].spec) {
          NotChosen(idx, r);
          if table[idx] != UNSET {
            return false, table;
          }
          table[idx] := PackMove(RULES[r].m);
        }
      }
    }
    for idx := 0 to 0x200
      invariant forall k :: 0 <= k < 0x200 ==> table[k] == if k < idx then Entry(k) else Chosen(k, |RULES|)
    {
      if table[idx] == UNSET {
        table[idx] := PackMove(SUBSTITUTE);
      }
    }
    ok := true;
  }

  lemma {:induction false} NotChosen(idx: nat, r: nat)
    requires r < |RULES| && Applies(idx, RULES[r].spec)
    ensures Chosen(idx, r) == UNSET
  {
    NoneBelow(idx, r, r);
  }

  lemma {:induction false} NoneBelow(idx: nat, r: nat, n: nat)
    requires n <= r < |RULES| && Applies(idx, RULES[r].spec)
    ensures Chosen(idx, n) == UNSET
  {
    hide Applies;
    if n > 0 {
      NoneBelow(idx, r, n - 1);
      if Applies(idx, RULES[n - 1].spec) {
        Exclusive(idx, n - 1, r);
      }
    }
  }

  function BitsOfRows(z0: seq<bool>, z1: seq<bool>, z2: seq<bool>): Bits
    requires |z0| == |z1| == |z2| == 4
  {
    Bits(z0[0], z0[1], z0[2], z1[0], z1[1], z1[2], z2[0], z2[1], z2[2])
  }

  function DecideBits(b: Bits): Move {
    if Holds(0, b) then EQUAL else if Holds(1, b) then TRANSPOSE else if Holds(2, b) then DELETE
    else if Holds(3, b) then DELETE else if Holds(4, b) then INSERT else if Holds(5, b) then INSERT
    else if Holds(6, b) then SWAP_OVER else SUBSTITUTE
  }

  lemma DecideByBits(z0: seq<bool>, z1: seq<bool>, z2: seq<bool>, z3: seq<bool>)
    requires |z0| == |z1| == |z2| == |z3| == 4
    ensures Decide(z0, z1, z2, z3, 3) == DecideBits(BitsOfRows(z0, z1, z2))
  {
  }

  lemma EntryByBits(idx: nat)
    ensures Entry(idx) == PackMove(DecideBits(BitsOf(idx)))
  {
    hide Applies, KeyBit, Holds, BitsOf;
    var b := BitsOf(idx);
    if r :| 0 <= r < |RULES| && Holds(r, b) {
      RuleMeans(idx, r);
      Found(idx, r, |RULES|);
      OneHolds(r, b);
    } else {
      NoneFound(idx, |RULES|);
    }
  }

  lemma {:induction false} Found(idx: nat, r: nat, n: nat)
    requires r < n <= |RULES| && Applies(idx, RULES[r].spec)
    ensures Chosen(idx, n) == PackMove(RULES[r].m)
  {
    hide Applies, PackMove;
    if r < n - 1 {
      Exclusive(idx, r, n - 1);
      Found(idx, r, n - 1);
    }
  }

  lemma {:induction false} NoneFound(idx: nat, n: nat)
    requires n <= |RULES| && forall r :: 0 <= r < |RULES| ==> !Holds(r, BitsOf(idx))
    ensures Chosen(idx, n) == UNSET
  {
    hide Applies, PackMove, Holds, BitsOf;
    if n > 0 {
      RuleMeans(idx, n - 1);
      NoneFound(idx, n - 1);
    }
  }

  lemma OneHolds(r: nat, b: Bits)
    requires r < |RULES| && Holds(r, b)
    ensures DecideBits(b) == RULES[r].m
  {
  }

  /** Looking a key up is deciding with a look-ahead of three. */
  lemma TableAgrees(idx: nat, z0: seq<bool>, z1: seq<bool>, z2: seq<bool>, z3: seq<bool>)
    requires |z0| == |z1| == |z2| == |z3| == 4 && BitsOf(idx) == BitsOfRows(z0, z1, z2)
    ensures Entry(idx) >= 0 && UnpackMove(Entry(idx)) == Decide(z0, z1, z2, z3, 3)
  {
    hide Entry, BitsOf, Decide, Holds;
    DecideByBits(z0, z1, z2, z3);
    EntryByBits(idx);
  }

  function Flag(b: bool): int { if b then 1 else 0 }

  /** The key of nine comparisons. */
  function KeyOf(b: Bits): int {
    Flag(b.b00) + 2 * Flag(b.b20) + 4 * Flag(b.b10) + 8 * Flag(b.b11) + 16 * Flag(b.b01) + 32 * Flag(b.b21)
    + 64 * Flag(b.b22) + 128 * Flag(b.b12) + 256 * Flag(b.b02)
  }

  lemma KeyField(x: int, hi: int, f: int, lo: int, unit: int)
    requires x == (hi * 2 + f) * unit + lo && 0 <= lo < unit && 0 <= f < 2
    ensures x / unit % 2 == f
  {
    Calendar.DivUnique(x, unit, hi * 2 + f);
    Calendar.DivUnique(hi * 2 + f, 2, hi);
  }

  lemma NineBits(x: int, f0: int, f1: int, f2: int, f3: int, f4: int, f5: int, f6: int, f7: int, f8: int)
    requires 0 <= f0 < 2 && 0 <= f1 < 2 && 0 <= f2 < 2 && 0 <= f3 < 2 && 0 <= f4 < 2
    requires 0 <= f5 < 2 && 0 <= f6 < 2 && 0 <= f7 < 2 && 0 <= f8 < 2
    requires x == f0 + 2 * f1 + 4 * f2 + 8 * f3 + 16 * f4 + 32 * f5 + 64 * f6 + 128 * f7 + 256 * f8
    ensures 0 <= x < 0x200
    ensures x / 1 % 2 == f0 && x / 2 % 2 == f1 && x / 4 % 2 == f2 && x / 8 % 2 == f3 && x / 16 % 2 == f4
    ensures x / 32 % 2 == f5 && x / 64 % 2 == f6 && x / 128 % 2 == f7 && x / 256 % 2 == f8
  {
    var h7 := f8 * 2 + f7;
    var h6 := h7 * 2 + f6;
    var h5 := h6 * 2 + f5;
    var h4 := h5 * 2 + f4;
    var h3 := h4 * 2 + f3;
    var h2 := h3 * 2 + f2;
    var h1 := h2 * 2 + f1;
    KeyField(x, h1, f0, 0, 1);
    KeyField(x, h2, f1, x - h1 * 2, 2);
    KeyField(x, h3, f2, x - h2 * 4, 4);
    KeyField(x, h4, f3, x - h3 * 8, 8);
    KeyField(x, h5, f4, x - h4 * 16, 16);
    KeyField(x, h6, f5, x - h5 * 32, 32);
    KeyField(x, h7, f6, x - h6 * 64, 64);
    KeyField(x, f8, f7, x - h7 * 128, 128);
    KeyField(x, 0, f8, x - f8 * 256, 256);
  }

  lemma KeyParts(b: Bits)
    ensures var x := KeyOf(b);
      && 0 <= x < 0x200
      && x / 1 % 2 == Flag(b.b00) && x / 2 % 2 == Flag(b.b20) && x / 4 % 2 == Flag(b.b10) && x / 8 % 2 == Flag(b.b11)
      && x / 16 % 2 == Flag(b.b01) && x / 32 % 2 == Flag(b.b21) && x / 64 % 2 == Flag(b.b22)
      && x / 128 % 2 == Flag(b.b12) && x / 256 % 2 == Flag(b.b02)
  {
    NineBits(KeyOf(b), Flag(b.b00), Flag(b.b20), Flag(b.b10), Flag(b.b11), Flag(b.b01), Flag(b.b21), Flag(b.b22), Flag(b.b12), Flag(b.b02));
  }

  /** Every combination has a key in the table. */
  lemma KeyInTable(b: Bits)
    ensures 0 <= KeyOf(b) < 0x200 && BitsOf(KeyOf(b)) == b
  {
    hide KeyOf;
    KeyParts(b);
  }
}
