/** Bracket matching. `Matched` is the declarative meaning of a bracket pair; `Pending`
    and `MapTables` are the start stack and the two jump maps every parser builds in one
    left-to-right pass, written as functions of the prefix of command kinds read so far. */
module Brackets {
  import opened Commands

  function Delta(k: Kind): int {
    if k == LoopStart then 1 else if k == LoopEnd then -1 else 0
  }

  /** Open brackets minus close brackets. */
  function Depth(ks: seq<Kind>): int {
    if ks == [] then 0 else Depth(ks[..|ks| - 1]) + Delta(ks[|ks| - 1])
  }

  /** The depth of the stretch `ks[a..b]`. */
  function DepthOf(ks: seq<Kind>, a: nat, b: nat): int
    requires a <= b <= |ks|
  {
    Depth(ks[a..b])
  }

  lemma {:induction false} DepthConcat(a: seq<Kind>, b: seq<Kind>)
    ensures Depth(a + b) == Depth(a) + Depth(b)
    decreases |b|
  {
    if b == [] {
      assert a + b == a;
    } else {
      var b' := b[..|b| - 1];
      assert (a + b)[..|a + b| - 1] == a + b';
      DepthConcat(a, b');
    }
  }

  lemma DepthOfStep(ks: seq<Kind>, a: nat, b: nat)
    requires a <= b < |ks|
    ensures DepthOf(ks, a, b + 1) == DepthOf(ks, a, b) + Delta(ks[b])
  {
    assert ks[a..b + 1][..b - a] == ks[a..b];
  }

  /** Appending a command changes no stretch that ends inside the old sequence, and adds
      its own weight to every stretch that runs to the end. */
  lemma DepthOfSnoc(ks: seq<Kind>, k: Kind)
    ensures forall a, b :: 0 <= a <= b <= |ks| ==> DepthOf(ks + [k], a, b) == DepthOf(ks, a, b)
    ensures forall a :: 0 <= a <= |ks| ==> DepthOf(ks + [k], a, |ks| + 1) == DepthOf(ks, a, |ks|) + Delta(k)
  {
    var ks' := ks + [k];
    forall a, b | 0 <= a <= b <= |ks| ensures DepthOf(ks', a, b) == DepthOf(ks, a, b) {
      assert ks'[a..b] == ks[a..b];
    }
    forall a | 0 <= a <= |ks| ensures DepthOf(ks', a, |ks| + 1) == DepthOf(ks, a, |ks|) + Delta(k) {
      DepthOfStep(ks', a, |ks|);
      assert ks'[a..|ks|] == ks[a..];
    }
  }

  /** The depth of the commands strictly after `s` and before `m`. */
  function Inside(ks: seq<Kind>, s: nat, m: nat): int
    requires s < m <= |ks|
  {
    DepthOf(ks, s + 1, m)
  }

  lemma InsideStep(ks: seq<Kind>, s: nat, m: nat)
    requires s < m < |ks|
    ensures Inside(ks, s, m + 1) == Inside(ks, s, m) + Delta(ks[m])
  {
    DepthOfStep(ks, s + 1, m);
  }

  lemma InsideSnocOld(ks: seq<Kind>, k: Kind, s: nat, m: nat)
    requires s < m <= |ks|
    ensures Inside(ks + [k], s, m) == Inside(ks, s, m)
  {
    assert (ks + [k])[s + 1..m] == ks[s + 1..m];
  }

  lemma InsideSnocNew(ks: seq<Kind>, k: Kind, s: nat)
    requires s < |ks|
    ensures Inside(ks + [k], s, |ks| + 1) == Inside(ks, s, |ks|) + Delta(k)
  {
    InsideStep(ks + [k], s, |ks|);
    InsideSnocOld(ks, k, s, |ks|);
  }

  /** The LoopStart at `s` and the LoopEnd at `e` enclose a balanced stretch that never
      closes more brackets than it opened. */
  ghost predicate Matched(ks: seq<Kind>, s: int, e: int) {
    && 0 <= s < e < |ks|
    && ks[s] == LoopStart && ks[e] == LoopEnd
    && Inside(ks, s, e) == 0
    && forall m :: s < m <= e ==> Inside(ks, s, m) >= 0
  }

  /** A LoopStart has at most one partner. */
  lemma MatchedUniqueEnd(ks: seq<Kind>, s: int, e1: int, e2: int)
    requires Matched(ks, s, e1) && Matched(ks, s, e2)
    ensures e1 == e2
  {
    if e1 < e2 {
      InsideStep(ks, s, e1);
      assert false;
    }
    if e2 < e1 {
      InsideStep(ks, s, e2);
      assert false;
    }
  }

  /** A LoopEnd has at most one partner. */
  lemma MatchedUniqueStart(ks: seq<Kind>, s1: int, s2: int, e: int)
    requires Matched(ks, s1, e) && Matched(ks, s2, e)
    ensures s1 == s2
  {
    if s1 < s2 {
      InnerStartRaisesDepth(ks, s1, s2, e);
      assert false;
    }
    if s2 < s1 {
      InnerStartRaisesDepth(ks, s2, s1, e);
      assert false;
    }
  }

  lemma InnerStartRaisesDepth(ks: seq<Kind>, s1: nat, s2: nat, e: nat)
    requires s1 < s2 < e <= |ks| && ks[s2] == LoopStart
    requires Inside(ks, s2, e) == 0
    ensures Inside(ks, s1, e) == Inside(ks, s1, s2) + 1
  {
    assert ks[s1 + 1..e] == ks[s1 + 1..s2] + ([ks[s2]] + ks[s2 + 1..e]);
    DepthConcat(ks[s1 + 1..s2], [ks[s2]] + ks[s2 + 1..e]);
    DepthConcat([ks[s2]], ks[s2 + 1..e]);
    assert Depth([ks[s2]]) == 1 by {
      assert [ks[s2]][..0] == [];
    }
  }

  /** The stack of unclosed LoopStart indices after reading `ks`. A LoopEnd pops the
      top; popping an empty stack leaves it empty. */
  function Pending(ks: seq<Kind>): seq<nat> {
    if ks == [] then []
    else
      var n := |ks| - 1;
      var p := Pending(ks[..n]);
      if ks[n] == LoopStart then p + [n]
      else if ks[n] == LoopEnd then (if p == [] then [] else p[..|p| - 1])
      else p
  }

  lemma PendingSnoc(ks: seq<Kind>, k: Kind)
    ensures Pending(ks + [k]) ==
      if k == LoopStart then Pending(ks) + [|ks|]
      else if k == LoopEnd then (if Pending(ks) == [] then [] else Pending(ks)[..|Pending(ks)| - 1])
      else Pending(ks)
  {
    assert (ks + [k])[..|ks|] == ks;
  }

  /** The start-to-end and end-to-start jump maps. */
  datatype Tables = Tables(startToEnd: map<nat, nat>, endToStart: map<nat, nat>)

  /** The jump maps after reading `ks`, or None once a LoopEnd found the stack empty. */
  function MapTables(ks: seq<Kind>): Option<Tables> {
    if ks == [] then Some(Tables(map[], map[]))
    else
      var n := |ks| - 1;
      match MapTables(ks[..n])
      case None => None
      case Some(t) =>
        if ks[n] != LoopEnd then Some(t)
        else
          var p := Pending(ks[..n]);
          if p == [] then None
          else
            var s := p[|p| - 1];
            Some(Tables(t.startToEnd[s := n], t.endToStart[n := s]))
  }

  lemma MapTablesSnoc(ks: seq<Kind>, k: Kind)
    ensures MapTables(ks + [k]) ==
      match MapTables(ks)
      case None => None
      case Some(t) =>
        if k != LoopEnd then Some(t)
        else if Pending(ks) == [] then None
        else
          var s := Pending(ks)[|Pending(ks)| - 1];
          Some(Tables(t.startToEnd[s := |ks|], t.endToStart[|ks| := s]))
  {
    assert (ks + [k])[..|ks|] == ks;
  }

  /** Some prefix closes more brackets than it opened. */
  ghost predicate HasUnmatchedEnd(ks: seq<Kind>) {
    exists m :: 0 <= m <= |ks| && DepthOf(ks, 0, m) < 0
  }

  /** The pending stack is strictly increasing, holds LoopStart indices only, and from each
      of its entries on the depth never drops below the number of entries above it. */
  ghost predicate StackInv(ks: seq<Kind>, stk: seq<nat>) {
    && (forall j :: 0 <= j < |stk| ==> stk[j] < |ks| && ks[stk[j]] == LoopStart)
    && (forall j1, j2 :: 0 <= j1 < j2 < |stk| ==> stk[j1] < stk[j2])
    && (forall j :: 0 <= j < |stk| ==> Inside(ks, stk[j], |ks|) == |stk| - 1 - j)
    && (forall j, m :: 0 <= j < |stk| && stk[j] < m <= |ks| ==> Inside(ks, stk[j], m) >= 0)
  }

  lemma StackInvPush(ks: seq<Kind>)
    requires StackInv(ks, Pending(ks))
    ensures StackInv(ks + [LoopStart], Pending(ks + [LoopStart]))
  {
    var ks' := ks + [LoopStart];
    PendingSnoc(ks, LoopStart);
    var p := Pending(ks);
    var p' := Pending(ks');
    assert p' == p + [|ks|];
    forall j | 0 <= j < |p'| ensures Inside(ks', p'[j], |ks'|) == |p'| - 1 - j {
      if j < |p| {
        InsideSnocNew(ks, LoopStart, p[j]);
      }
    }
    forall j, m | 0 <= j < |p'| && p'[j] < m <= |ks'| ensures Inside(ks', p'[j], m) >= 0 {
      if m <= |ks| {
        InsideSnocOld(ks, LoopStart, p'[j], m);
      } else if j < |p| {
        InsideSnocNew(ks, LoopStart, p[j]);
      }
    }
  }

  lemma StackInvPop(ks: seq<Kind>)
    requires StackInv(ks, Pending(ks))
    ensures StackInv(ks + [LoopEnd], Pending(ks + [LoopEnd]))
  {
    var ks' := ks + [LoopEnd];
    PendingSnoc(ks, LoopEnd);
    var p := Pending(ks);
    var p' := Pending(ks');
    if p == [] {
      assert p' == [];
      return;
    }
    assert p' == p[..|p| - 1];
    forall j | 0 <= j < |p'| ensures Inside(ks', p'[j], |ks'|) == |p'| - 1 - j {
      InsideSnocNew(ks, LoopEnd, p[j]);
    }
    forall j, m | 0 <= j < |p'| && p'[j] < m <= |ks'| ensures Inside(ks', p'[j], m) >= 0 {
      if m <= |ks| {
        InsideSnocOld(ks, LoopEnd, p[j], m);
      } else {
        InsideSnocNew(ks, LoopEnd, p[j]);
      }
    }
  }

  lemma StackInvOther(ks: seq<Kind>, k: Kind)
    requires k != LoopStart && k != LoopEnd
    requires StackInv(ks, Pending(ks))
    ensures StackInv(ks + [k], Pending(ks + [k]))
  {
    var ks' := ks + [k];
    PendingSnoc(ks, k);
    var p := Pending(ks);
    assert Pending(ks') == p;
    forall j | 0 <= j < |p| ensures Inside(ks', p[j], |ks'|) == |p| - 1 - j {
      InsideSnocNew(ks, k, p[j]);
    }
    forall j, m | 0 <= j < |p| && p[j] < m <= |ks'| ensures Inside(ks', p[j], m) >= 0 {
      if m <= |ks| {
        InsideSnocOld(ks, k, p[j], m);
      } else {
        InsideSnocNew(ks, k, p[j]);
      }
    }
  }

  lemma {:induction false} PendingInv(ks: seq<Kind>)
    ensures StackInv(ks, Pending(ks))
    decreases |ks|
  {
    if ks != [] {
      var n := |ks| - 1;
      var init := ks[..n];
      PendingInv(init);
      assert ks == init + [ks[n]];
      if ks[n] == LoopStart {
        StackInvPush(init);
      } else if ks[n] == LoopEnd {
        StackInvPop(init);
      } else {
        StackInvOther(init, ks[n]);
      }
    }
  }

  /** A LoopEnd that finds the stack non-empty closes the LoopStart on top of it. */
  lemma TopMatches(ks: seq<Kind>)
    requires Pending(ks) != []
    ensures Matched(ks + [LoopEnd], Pending(ks)[|Pending(ks)| - 1], |ks|)
  {
    PendingInv(ks);
    var p := Pending(ks);
    var s := p[|p| - 1];
    forall m | s < m <= |ks| ensures Inside(ks + [LoopEnd], s, m) == Inside(ks, s, m) {
      InsideSnocOld(ks, LoopEnd, s, m);
    }
  }

  /** Appending a command keeps every pair matched. */
  lemma MatchedSnoc(ks: seq<Kind>, k: Kind, s: int, e: int)
    requires Matched(ks, s, e)
    ensures Matched(ks + [k], s, e)
  {
    forall m | s < m <= e ensures Inside(ks + [k], s, m) == Inside(ks, s, m) {
      InsideSnocOld(ks, k, s, m);
    }
  }

  /** A pair matched after appending a command was already matched before it. */
  lemma MatchedPrefix(ks: seq<Kind>, k: Kind, s: int, e: int)
    requires Matched(ks + [k], s, e) && e < |ks|
    ensures Matched(ks, s, e)
  {
    forall m | s < m <= e ensures Inside(ks + [k], s, m) == Inside(ks, s, m) {
      InsideSnocOld(ks, k, s, m);
    }
  }

  /** Two pairs with different ends have different starts. */
  lemma PartnersDiffer(ks: seq<Kind>, s1: int, e1: int, s2: int, e2: int)
    requires Matched(ks, s1, e1) && Matched(ks, s2, e2) && e1 != e2
    ensures s1 != s2
  {
    if s1 == s2 {
      MatchedUniqueEnd(ks, s1, e1, e2);
    }
  }

  /** While the stretch after the LoopStart at `s` never closes more than it opens, `s`
      stays on the stack with `Inside(ks, s, m)` entries above it; an earlier LoopEnd that
      found the stack empty makes no difference. */
  lemma {:induction false} StartStaysPending(ks: seq<Kind>, s: nat, m: nat)
    requires s < m <= |ks| && ks[s] == LoopStart
    requires forall j :: s < j <= m ==> Inside(ks, s, j) >= 0
    ensures var p := Pending(ks[..m]);
      Inside(ks, s, m) < |p| && p[|p| - 1 - Inside(ks, s, m)] == s
    decreases m
  {
    if m == s + 1 {
      assert ks[..m] == ks[..s] + [LoopStart];
      PendingSnoc(ks[..s], LoopStart);
      assert ks[s + 1..m] == [];
    } else {
      var n := m - 1;
      StartStaysPending(ks, s, n);
      assert ks[..m] == ks[..n] + [ks[n]];
      PendingSnoc(ks[..n], ks[n]);
      InsideStep(ks, s, n);
    }
  }

  /** The LoopEnd of a matched pair pops its LoopStart, whatever came before the pair. */
  lemma EndPopsPartner(ks: seq<Kind>, s: int, e: int)
    requires Matched(ks, s, e)
    ensures var p := Pending(ks[..e]); p != [] && p[|p| - 1] == s
  {
    StartStaysPending(ks, s, e);
  }

  /** What the maps say about the prefix read so far. */
  ghost predicate TablesInv(ks: seq<Kind>, t: Tables) {
    EndsInv(ks, t) && StartsInv(ks, t)
  }

  /** Every `]` is a key of the end-to-start map, mapped to its matching `[`, and back. */
  ghost predicate EndsInv(ks: seq<Kind>, t: Tables) {
    && (forall e :: e in t.endToStart <==> 0 <= e < |ks| && ks[e] == LoopEnd)
    && (forall e :: e in t.endToStart ==> Matched(ks, t.endToStart[e], e))
    && (forall e :: e in t.endToStart ==> t.endToStart[e] in t.startToEnd && t.startToEnd[t.endToStart[e]] == e)
  }

  /** The start-to-end map is inverted by the end-to-start map, and its keys are the closed `[`. */
  ghost predicate StartsInv(ks: seq<Kind>, t: Tables) {
    && (forall s :: s in t.startToEnd ==> t.startToEnd[s] in t.endToStart && t.endToStart[t.startToEnd[s]] == s)
    && (forall s :: 0 <= s < |ks| && ks[s] == LoopStart ==> (s in t.startToEnd <==> s !in Pending(ks)))
  }

  /** The maps after a `]` closes the top of the stack of `ks`. */
  function Close(ks: seq<Kind>, t: Tables): Tables
    requires Pending(ks) != []
  {
    var p := Pending(ks);
    var s := p[|p| - 1];
    Tables(t.startToEnd[s := |ks|], t.endToStart[|ks| := s])
  }

  /** The end-to-start half of `TablesInvClose`. */
  lemma CloseEnds(ks: seq<Kind>, t: Tables)
    requires TablesInv(ks, t) && Pending(ks) != []
    ensures EndsInv(ks + [LoopEnd], Close(ks, t))
  {
    var ks' := ks + [LoopEnd];
    var p := Pending(ks);
    var s := p[|p| - 1];
    var t' := Close(ks, t);
    PendingInv(ks);
    assert s < |ks| && ks[s] == LoopStart && s !in t.startToEnd;
    forall e ensures e in t'.endToStart <==> 0 <= e < |ks'| && ks'[e] == LoopEnd {
      if e != |ks| {
        assert e in t'.endToStart <==> e in t.endToStart;
      }
    }
    forall e | e in t'.endToStart ensures Matched(ks', t'.endToStart[e], e) {
      if e == |ks| {
        TopMatches(ks);
      } else {
        MatchedSnoc(ks, LoopEnd, t.endToStart[e], e);
      }
    }
    forall e | e in t'.endToStart
      ensures t'.endToStart[e] in t'.startToEnd && t'.startToEnd[t'.endToStart[e]] == e
    {
      if e != |ks| {
        assert t.endToStart[e] in t.startToEnd;
      }
    }
  }

  /** The start-to-end half of `TablesInvClose`. */
  lemma CloseStarts(ks: seq<Kind>, t: Tables)
    requires TablesInv(ks, t) && Pending(ks) != []
    ensures StartsInv(ks + [LoopEnd], Close(ks, t))
  {
    CloseInverts(ks, t);
    CloseKeys(ks, t);
  }

  /** After a close, the end-to-start map still inverts the start-to-end map. */
  lemma CloseInverts(ks: seq<Kind>, t: Tables)
    requires TablesInv(ks, t) && Pending(ks) != []
    ensures var t' := Close(ks, t);
      forall x :: x in t'.startToEnd ==> t'.startToEnd[x] in t'.endToStart && t'.endToStart[t'.startToEnd[x]] == x
  {
    var t' := Close(ks, t);
    var p := Pending(ks);
    var s := p[|p| - 1];
    assert |ks| !in t.endToStart;
    forall x | x in t'.startToEnd
      ensures t'.startToEnd[x] in t'.endToStart && t'.endToStart[t'.startToEnd[x]] == x
    {
      if x != s {
        assert t.startToEnd[x] in t.endToStart;
      }
    }
  }

  /** After a close, the keys of the start-to-end map are still the closed `[`. */
  lemma CloseKeys(ks: seq<Kind>, t: Tables)
    requires StartsInv(ks, t) && Pending(ks) != []
    ensures var ks', t' := ks + [LoopEnd], Close(ks, t);
      forall x :: 0 <= x < |ks'| && ks'[x] == LoopStart ==> (x in t'.startToEnd <==> x !in Pending(ks'))
  {
    var ks' := ks + [LoopEnd];
    var p := Pending(ks);
    var s := p[|p| - 1];
    var t' := Close(ks, t);
    PendingSnoc(ks, LoopEnd);
    PendingInv(ks);
    var p' := Pending(ks');
    assert p' == p[..|p| - 1];
    forall x | 0 <= x < |ks'| && ks'[x] == LoopStart
      ensures x in t'.startToEnd <==> x !in p'
    {
      if x != s {
        assert x in p' <==> x in p;
      } else {
        forall j | 0 <= j < |p'| ensures p'[j] != s {
          assert p[j] < p[|p| - 1];
        }
      }
    }
  }

  lemma TablesInvClose(ks: seq<Kind>, t: Tables)
    requires TablesInv(ks, t) && Pending(ks) != []
    ensures TablesInv(ks + [LoopEnd], Close(ks, t))
  {
    CloseEnds(ks, t);
    CloseStarts(ks, t);
  }

  /** The end-to-start half of `TablesInvKeep`. */
  lemma KeepEnds(ks: seq<Kind>, k: Kind, t: Tables)
    requires EndsInv(ks, t) && k != LoopEnd
    ensures EndsInv(ks + [k], t)
  {
    forall e | e in t.endToStart ensures Matched(ks + [k], t.endToStart[e], e) {
      MatchedSnoc(ks, k, t.endToStart[e], e);
    }
  }

  /** The start-to-end half of `TablesInvKeep`. */
  lemma KeepStarts(ks: seq<Kind>, k: Kind, t: Tables)
    requires TablesInv(ks, t) && k != LoopEnd
    ensures StartsInv(ks + [k], t)
  {
    var ks' := ks + [k];
    PendingSnoc(ks, k);
    var p, p' := Pending(ks), Pending(ks');
    if k == LoopStart {
      assert p' == p + [|ks|];
      forall x | x in t.startToEnd ensures x < |ks| {
        var e := t.startToEnd[x];
        assert Matched(ks, t.endToStart[e], e);
      }
    } else {
      assert p' == p;
    }
    forall x | 0 <= x < |ks'| && ks'[x] == LoopStart
      ensures x in t.startToEnd <==> x !in p'
    {
      if x < |ks| {
        assert ks[x] == LoopStart;
        assert x in p' <==> x in p;
      }
    }
  }

  lemma TablesInvKeep(ks: seq<Kind>, k: Kind, t: Tables)
    requires TablesInv(ks, t) && k != LoopEnd
    ensures TablesInv(ks + [k], t)
  {
    KeepEnds(ks, k, t);
    KeepStarts(ks, k, t);
  }

  lemma {:induction false} MapTablesInv(ks: seq<Kind>)
    requires MapTables(ks).Some?
    ensures TablesInv(ks, MapTables(ks).value)
    ensures DepthOf(ks, 0, |ks|) == |Pending(ks)|
    ensures forall m :: 0 <= m <= |ks| ==> DepthOf(ks, 0, m) >= 0
    decreases |ks|
  {
    if ks != [] {
      var n := |ks| - 1;
      var init := ks[..n];
      assert ks == init + [ks[n]];
      MapTablesSnoc(init, ks[n]);
      MapTablesInv(init);
      if ks[n] == LoopEnd {
        TablesInvClose(init, MapTables(init).value);
      } else {
        TablesInvKeep(init, ks[n], MapTables(init).value);
      }
      PendingSnoc(init, ks[n]);
      DepthOfSnoc(init, ks[n]);
    }
  }

  /** Once a LoopEnd has found the stack empty the maps stay undefined. */
  lemma {:induction false} MapTablesNoneStays(ks: seq<Kind>, rest: seq<Kind>)
    requires MapTables(ks).None?
    ensures MapTables(ks + rest).None?
    decreases |rest|
  {
    if rest != [] {
      var init := rest[..|rest| - 1];
      MapTablesNoneStays(ks, init);
      assert ks + rest == (ks + init) + [rest[|rest| - 1]];
      MapTablesSnoc(ks + init, rest[|rest| - 1]);
    } else {
      assert ks + rest == ks;
    }
  }

  /** The maps are defined exactly when no LoopEnd finds the stack empty, that is, when no
      prefix closes more brackets than it opened; unclosed LoopStarts do not make them undefined. */
  lemma {:induction false} MapTablesDefinedIff(ks: seq<Kind>)
    ensures MapTables(ks).None? <==> HasUnmatchedEnd(ks)
    decreases |ks|
  {
    if MapTables(ks).Some? {
      MapTablesInv(ks);
    } else {
      var n := |ks| - 1;
      var init := ks[..n];
      assert ks == init + [ks[n]];
      MapTablesSnoc(init, ks[n]);
      DepthOfSnoc(init, ks[n]);
      if MapTables(init).None? {
        MapTablesDefinedIff(init);
        var m :| 0 <= m <= |init| && DepthOf(init, 0, m) < 0;
        assert DepthOf(ks, 0, m) < 0;
      } else {
        MapTablesInv(init);
        assert DepthOf(ks, 0, |ks|) < 0;
      }
    }
  }

  /** The jump maps hold exactly the matched pairs, in both directions, and have as keys
      every LoopEnd and every LoopStart that is not still pending. */
  lemma MapTablesCorrect(ks: seq<Kind>)
    requires MapTables(ks).Some?
    ensures var t := MapTables(ks).value;
      && (forall s, e :: Matched(ks, s, e) <==> s in t.startToEnd && t.startToEnd[s] == e)
      && (forall s, e :: Matched(ks, s, e) <==> e in t.endToStart && t.endToStart[e] == s)
      && (forall e :: e in t.endToStart <==> 0 <= e < |ks| && ks[e] == LoopEnd)
      && (forall s :: s in t.startToEnd <==> 0 <= s < |ks| && ks[s] == LoopStart && s !in Pending(ks))
  {
    var t := MapTables(ks).value;
    MapTablesInv(ks);
    forall s, e | Matched(ks, s, e)
      ensures s in t.startToEnd && t.startToEnd[s] == e && e in t.endToStart && t.endToStart[e] == s
    {
      MatchedUniqueStart(ks, t.endToStart[e], s, e);
    }
    forall s | s in t.startToEnd
      ensures 0 <= s < |ks| && ks[s] == LoopStart
    {
      assert Matched(ks, s, t.startToEnd[s]);
    }
  }

  /** The bracket bookkeeping of the Rust and Go parsers for the command `kind` at index
      `|ks|`: a `[` is pushed, a `]` pops its start and records the pair in both maps, and
      fails when the stack is empty. */
  method Track(kind: Kind, ip: nat, starts: seq<nat>, t: Tables, ghost ks: seq<Kind>)
    returns (ok: bool, starts': seq<nat>, t': Tables)
    requires ip == |ks| && MapTables(ks) == Some(t) && starts == Pending(ks)
    ensures ok <==> MapTables(ks + [kind]).Some?
    ensures ok ==> MapTables(ks + [kind]) == Some(t') && starts' == Pending(ks + [kind])
  {
    PendingSnoc(ks, kind);
    MapTablesSnoc(ks, kind);
    if kind == LoopStart {
      return true, starts + [ip], t;
    } else if kind == LoopEnd {
      if starts == [] {
        return false, starts, t;
      }
      var s := starts[|starts| - 1];
      return true, starts[..|starts| - 1], Tables(t.startToEnd[s := ip], t.endToStart[ip := s]);
    }
    return true, starts, t;
  }
}
