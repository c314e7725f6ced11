/** The parser of the C interpreter (`parse` in c/main.c): commands go into a
    `commands_t`, loop starts onto an `int_vec` stack, and each `]` writes both jump
    tables with `insert_vec`. */
module CParser {
  import opened Commands
  import opened Lexer
  import opened Brackets
  import opened CVec

  /** The parser's result: the commands in use and the whole slot arrays of both jump
      tables (their `len` stays 0; `run` reads any slot below `cap`). */
  datatype Program = Program(cmds: seq<Cmd>, startToEnd: seq<nat>, endToStart: seq<nat>)

  /** `Undefined` stands for the lookahead reading past the end of the source. */
  datatype ParseResult = Undefined | Parsed(prog: Program)

  datatype JumpTables = JumpTables(startToEnd: seq<nat>, endToStart: seq<nat>)

  /** What `pop_vec` returns from a stack holding `p`. */
  function PopOrZero(p: seq<nat>): nat {
    if p == [] then 0 else p[|p| - 1]
  }

  /** Both tables after the commands `ks`: every LoopEnd at index `n` inserts
      `start_to_end[s] = n` and `end_to_start[n] = s`, where `s` is what the stack pops. */
  function CTables(ks: seq<Kind>): (t: JumpTables)
    ensures |t.startToEnd| >= 8 && |t.endToStart| >= 8
  {
    if ks == [] then JumpTables(Zeros(8), Zeros(8))
    else
      var n := |ks| - 1;
      var t := CTables(ks[..n]);
      if ks[n] == LoopEnd then
        var s := PopOrZero(Pending(ks[..n]));
        JumpTables(InsertSpec(t.startToEnd, s, n), InsertSpec(t.endToStart, n, s))
      else t
  }

  lemma CTablesSnoc(ks: seq<Kind>, k: Kind)
    ensures CTables(ks + [k]) ==
      if k == LoopEnd then
        var t := CTables(ks);
        var s := PopOrZero(Pending(ks));
        JumpTables(InsertSpec(t.startToEnd, s, |ks|), InsertSpec(t.endToStart, |ks|, s))
      else CTables(ks)
  {
    assert (ks + [k])[..|ks|] == ks;
  }

  /** What `parse` returns for `src`. */
  function ParseSpec(src: seq<char>): ParseResult {
    var sc := Scan(C, src, 0);
    if sc.crashed then Undefined
    else
      var t := CTables(Kinds(sc.tokens));
      Parsed(Program(sc.tokens, t.startToEnd, t.endToStart))
  }

  /** The stack and table vectors are sound, distinct, and hold the stack and both tables
      that belong to the command kinds `ks` read so far. */
  ghost predicate Bookkeeping(ks: seq<Kind>, starts: IntVec, startToEnd: IntVec, endToStart: IntVec)
    reads starts, starts.items, startToEnd, startToEnd.items, endToStart, endToStart.items
  {
    && startToEnd.Valid() && endToStart.Valid() && starts.Valid()
    && starts != startToEnd && starts != endToStart && startToEnd != endToStart
    && startToEnd.items != endToStart.items && startToEnd.items != starts.items && endToStart.items != starts.items
    && starts.Contents() == Pending(ks)
    && startToEnd.items[..] == CTables(ks).startToEnd
    && endToStart.items[..] == CTables(ks).endToStart
  }

  /** What the loop of `parse` keeps: the command buffer and the bookkeeping for its commands. */
  ghost predicate Tracks(commands: CommandBuffer, starts: IntVec, startToEnd: IntVec, endToStart: IntVec)
    reads commands, commands.items, starts, starts.items, startToEnd, startToEnd.items, endToStart, endToStart.items
  {
    commands.Valid() && Bookkeeping(Kinds(commands.Contents()), starts, startToEnd, endToStart)
  }

  /** The bracket half of the loop body of `parse` for a command of kind `kind` at index
      `ip`: a `[` pushes `ip`, a `]` pops its start and writes both tables. */
  method RecordBracket(kind: Kind, ip: nat, ghost ks: seq<Kind>, starts: IntVec, startToEnd: IntVec, endToStart: IntVec)
    requires ip == |ks| && Bookkeeping(ks, starts, startToEnd, endToStart)
    modifies starts, starts.items, startToEnd, startToEnd.items, endToStart, endToStart.items
    ensures Bookkeeping(ks + [kind], starts, startToEnd, endToStart)
    ensures starts.items == old(starts.items) || fresh(starts.items)
    ensures startToEnd.items == old(startToEnd.items) || fresh(startToEnd.items)
    ensures endToStart.items == old(endToStart.items) || fresh(endToStart.items)
  {
    CTablesSnoc(ks, kind);
    PendingSnoc(ks, kind);
    if kind == LoopStart {
      starts.Push(ip);
    } else if kind == LoopEnd {
      var s := starts.Pop();
      startToEnd.Insert(s, ip);
      endToStart.Insert(ip, s);
    }
  }

  /** Records one emitted command: its bracket bookkeeping, then the command itself. */
  method Record(cmd: Cmd, commands: CommandBuffer, starts: IntVec, startToEnd: IntVec, endToStart: IntVec)
    requires Tracks(commands, starts, startToEnd, endToStart)
    modifies commands, commands.items, starts, starts.items, startToEnd, startToEnd.items, endToStart, endToStart.items
    ensures Tracks(commands, starts, startToEnd, endToStart)
    ensures commands.items == old(commands.items) || fresh(commands.items)
    ensures starts.items == old(starts.items) || fresh(starts.items)
    ensures startToEnd.items == old(startToEnd.items) || fresh(startToEnd.items)
    ensures endToStart.items == old(endToStart.items) || fresh(endToStart.items)
    ensures commands.Contents() == old(commands.Contents()) + [cmd]
  {
    ghost var done := commands.Contents();
    RecordBracket(cmd.kind, commands.len, Kinds(done), starts, startToEnd, endToStart);
    commands.Push(cmd);
    KindsSnoc(done, cmd);
  }

  lemma ScanUnfold(src: seq<char>, i: nat)
    requires i < |src| && !CrashAt(C, src, i)
    ensures Scan(C, src, i) == match LexAt(src, i)
      case Skip(n) => Scan(C, src, n)
      case Emit(c, n) => Scanned([c] + Scan(C, src, n).tokens, Scan(C, src, n).crashed)
  {
  }

  /** One pass of the loop of `parse`: lex the token at `i` and record it. */
  method ParseToken(src: seq<char>, i: nat, commands: CommandBuffer, starts: IntVec, startToEnd: IntVec, endToStart: IntVec)
    returns (fault: bool, next: nat)
    requires i < |src|
    requires Tracks(commands, starts, startToEnd, endToStart)
    modifies commands, commands.items, starts, starts.items, startToEnd, startToEnd.items, endToStart, endToStart.items
    ensures Tracks(commands, starts, startToEnd, endToStart)
    ensures commands.items == old(commands.items) || fresh(commands.items)
    ensures starts.items == old(starts.items) || fresh(starts.items)
    ensures startToEnd.items == old(startToEnd.items) || fresh(startToEnd.items)
    ensures endToStart.items == old(endToStart.items) || fresh(endToStart.items)
    ensures fault ==> Scan(C, src, i).crashed
    ensures !fault ==> i < next <= |src|
    ensures !fault ==> old(commands.Contents()) + Scan(C, src, i).tokens == commands.Contents() + Scan(C, src, next).tokens
    ensures !fault ==> Scan(C, src, i).crashed == Scan(C, src, next).crashed
  {
    var lx;
    fault, lx := LexUnguarded(src, i);
    OpenTail(src, i);
    next := lx.next;
    if fault {
      return;
    }
    ScanUnfold(src, i);
    if lx.Emit? {
      ghost var done := commands.Contents();
      ghost var rest := Scan(C, src, next).tokens;
      assert Scan(C, src, i).tokens == [lx.cmd] + rest;
      Record(lx.cmd, commands, starts, startToEnd, endToStart);
      assert commands.Contents() + rest == done + ([lx.cmd] + rest);
    }
  }

  /** `parse`. */
  method Parse(src: seq<char>) returns (r: ParseResult)
    ensures r == ParseSpec(src)
  {
    var commands := new CommandBuffer();
    var startToEnd := new IntVec();
    var endToStart := new IntVec();
    var starts := new IntVec();
    var i := 0;
    assert Kinds(commands.Contents()) == [];
    assert starts.Contents() == [] == Pending([]);
    assert CTables([]) == JumpTables(Zeros(8), Zeros(8));
    assert Bookkeeping([], starts, startToEnd, endToStart);
    ghost var whole := Scan(C, src, 0);
    while i < |src|
      invariant i <= |src|
      invariant fresh(commands.items) && fresh(startToEnd.items) && fresh(endToStart.items) && fresh(starts.items)
      invariant Tracks(commands, starts, startToEnd, endToStart)
      invariant whole.tokens == commands.Contents() + Scan(C, src, i).tokens
      invariant whole.crashed == Scan(C, src, i).crashed
      decreases |src| - i
    {
      var fault;
      fault, i := ParseToken(src, i, commands, starts, startToEnd, endToStart);
      if fault {
        return Undefined;
      }
    }
    assert Scan(C, src, i) == Scanned([], false);
    r := Parsed(Program(commands.Contents(), startToEnd.items[..], endToStart.items[..]));
  }

  // ---------------------------------------------------------------------------
  // Properties of the C jump tables

  /** The start-to-end half of `CTablesMatchMaps`. */
  lemma {:induction false} StartTableMatches(ks: seq<Kind>)
    requires MapTables(ks).Some?
    ensures var ct, mt := CTables(ks).startToEnd, MapTables(ks).value.startToEnd;
      && (forall k :: k in mt ==> k < |ct|)
      && (forall k :: 0 <= k < |ct| ==> ct[k] == if k in mt then mt[k] else 0)
    decreases |ks|
  {
    if ks != [] {
      var n := |ks| - 1;
      var init := ks[..n];
      assert ks == init + [ks[n]];
      MapTablesSnoc(init, ks[n]);
      CTablesSnoc(init, ks[n]);
      StartTableMatches(init);
      if ks[n] == LoopEnd {
        var p := Pending(init);
        var s := p[|p| - 1];
        assert s !in MapTables(init).value.startToEnd by {
          MapTablesInv(init);
          PendingInv(init);
          assert init[s] == LoopStart;
        }
      }
    }
  }

  /** The end-to-start half of `CTablesMatchMaps`. */
  lemma {:induction false} EndTableMatches(ks: seq<Kind>)
    requires MapTables(ks).Some?
    ensures var ct, mt := CTables(ks).endToStart, MapTables(ks).value.endToStart;
      && (forall k :: k in mt ==> k < |ct|)
      && (forall k :: 0 <= k < |ct| ==> ct[k] == if k in mt then mt[k] else 0)
    decreases |ks|
  {
    if ks != [] {
      var n := |ks| - 1;
      var init := ks[..n];
      assert ks == init + [ks[n]];
      MapTablesSnoc(init, ks[n]);
      CTablesSnoc(init, ks[n]);
      EndTableMatches(init);
      if ks[n] == LoopEnd {
        assert n !in MapTables(init).value.endToStart by {
          MapTablesInv(init);
        }
      }
    }
  }

  /** When no `]` finds the stack empty, the C tables hold exactly the jump maps: each
      slot holds its map entry, and every other slot is still 0. */
  lemma CTablesMatchMaps(ks: seq<Kind>)
    requires MapTables(ks).Some?
    ensures var ct, mt := CTables(ks), MapTables(ks).value;
      && (forall k :: k in mt.startToEnd ==> k < |ct.startToEnd|)
      && (forall k :: 0 <= k < |ct.startToEnd| ==> ct.startToEnd[k] == if k in mt.startToEnd then mt.startToEnd[k] else 0)
      && (forall k :: k in mt.endToStart ==> k < |ct.endToStart|)
      && (forall k :: 0 <= k < |ct.endToStart| ==> ct.endToStart[k] == if k in mt.endToStart then mt.endToStart[k] else 0)
  {
    StartTableMatches(ks);
    EndTableMatches(ks);
  }

  /** The end-to-start table in full: slot `e` of a LoopEnd holds what the stack popped
      there (0 when it was empty), and every other slot is 0. */
  lemma {:induction false} CEndToStart(ks: seq<Kind>)
    ensures var t := CTables(ks).endToStart;
      && (forall e :: 0 <= e < |ks| && ks[e] == LoopEnd ==> e < |t|)
      && (forall e :: 0 <= e < |t| ==>
            t[e] == if e < |ks| && ks[e] == LoopEnd then PopOrZero(Pending(ks[..e])) else 0)
    decreases |ks|
  {
    if ks != [] {
      var n := |ks| - 1;
      var init := ks[..n];
      assert ks == init + [ks[n]];
      CTablesSnoc(init, ks[n]);
      CEndToStart(init);
      forall e | 0 <= e < n
        ensures ks[..e] == init[..e]
      {
      }
    }
  }

  /** The start-to-end table, stray `]` included: every matched `[` has a slot, which holds
      its partner unless the `[` is command 0, and every nonzero slot past slot 0 holds
      the partner of its `[`. Slot 0 is also written by each `]` that finds the stack
      empty, as `UnmatchedEndPairsWithZero` shows. */
  lemma {:induction false} CStartToEnd(ks: seq<Kind>)
    ensures var t := CTables(ks).startToEnd;
      && (forall s, e :: Matched(ks, s, e) ==> s < |t| && (s != 0 ==> t[s] == e))
      && (forall s :: 0 < s < |t| && t[s] != 0 ==> Matched(ks, s, t[s]))
    decreases |ks|
  {
    if ks != [] {
      var n := |ks| - 1;
      var init := ks[..n];
      assert ks == init + [ks[n]];
      CTablesSnoc(init, ks[n]);
      CStartToEnd(init);
      var t0, t := CTables(init).startToEnd, CTables(ks).startToEnd;
      var pop := PopOrZero(Pending(init));
      forall s, e | Matched(ks, s, e)
        ensures s < |t| && (s != 0 ==> t[s] == e)
      {
        if e < n {
          MatchedPrefix(init, ks[n], s, e);
          if ks[n] == LoopEnd && Pending(init) != [] {
            TopMatches(init);
            PartnersDiffer(ks, s, e, pop, n);
          }
        } else {
          EndPopsPartner(ks, s, e);
          assert ks[..e] == init;
        }
      }
      forall s | 0 < s < |t| && t[s] != 0
        ensures Matched(ks, s, t[s])
      {
        if ks[n] == LoopEnd && s == pop {
          TopMatches(init);
        } else {
          MatchedSnoc(init, ks[n], s, t0[s]);
        }
      }
    }
  }

  /** Every slot of either table is 0 or a command index. */
  lemma {:induction false} CTablesInRange(ks: seq<Kind>)
    ensures var t := CTables(ks);
      && (forall k :: 0 <= k < |t.startToEnd| ==> t.startToEnd[k] == 0 || t.startToEnd[k] < |ks|)
      && (forall k :: 0 <= k < |t.endToStart| ==> t.endToStart[k] == 0 || t.endToStart[k] < |ks|)
    decreases |ks|
  {
    if ks != [] {
      var n := |ks| - 1;
      var init := ks[..n];
      assert ks == init + [ks[n]];
      CTablesSnoc(init, ks[n]);
      CTablesInRange(init);
      PendingInv(init);
    }
  }

  /** The parser's two outcomes: it reads past the end exactly when the source ends in an
      unfinished `[` lookahead; otherwise it returns the commands of the source. */
  lemma ParseDefinedIff(src: seq<char>)
    ensures ParseSpec(src).Undefined? <==> EndsInOpenLookahead(src)
    ensures ParseSpec(src).Parsed? ==> ParseSpec(src).prog.cmds == Tokens(src)
  {
    CAndGoFaultIffEndsOpen(C, src);
    if !Scan(C, src, 0).crashed {
      ScanAgreesWhenNoCrash(C, src, 0);
    }
  }

  /** In a parsed program every matched bracket pair is in the end-to-start table, and in
      the start-to-end table too unless its `[` is command 0 and some `]` found the stack
      empty (that `]` then overwrote slot 0). */
  lemma ParsedTablesHoldPairs(src: seq<char>)
    requires ParseSpec(src).Parsed?
    ensures var p := ParseSpec(src).prog; var ks := Kinds(p.cmds);
      forall s, e :: Matched(ks, s, e) ==>
        && e < |p.endToStart| && p.endToStart[e] == s
        && s < |p.startToEnd|
        && (s != 0 || !HasUnmatchedEnd(ks) ==> p.startToEnd[s] == e)
  {
    var p := ParseSpec(src).prog;
    var ks := Kinds(p.cmds);
    assert p.startToEnd == CTables(ks).startToEnd && p.endToStart == CTables(ks).endToStart;
    CStartToEnd(ks);
    CEndToStartPairs(ks);
    if !HasUnmatchedEnd(ks) {
      CStartToEndBalanced(ks);
    }
  }

  /** Every `]` of a matched pair records its partner in the end-to-start table. */
  lemma CEndToStartPairs(ks: seq<Kind>)
    ensures var t := CTables(ks).endToStart;
      forall s, e :: Matched(ks, s, e) ==> e < |t| && t[e] == s
  {
    var t := CTables(ks).endToStart;
    CEndToStart(ks);
    forall s, e | Matched(ks, s, e)
      ensures e < |t| && t[e] == s
    {
      var p := Pending(ks[..e]);
      EndPopsPartner(ks, s, e);
      assert e < |t| && t[e] == PopOrZero(p);
    }
  }

  /** When no `]` finds the stack empty, every matched `[`, command 0 included, records its
      partner in the start-to-end table. */
  lemma CStartToEndBalanced(ks: seq<Kind>)
    requires !HasUnmatchedEnd(ks)
    ensures var t := CTables(ks).startToEnd;
      forall s, e :: Matched(ks, s, e) ==> s < |t| && t[s] == e
  {
    MapTablesDefinedIff(ks);
    MapTablesCorrect(ks);
    CTablesMatchMaps(ks);
  }

  lemma ScanOfUnmatchedEnd()
    ensures Scan(C, "[]]", 0) == Scanned([Cmd(LoopStart, 0), Cmd(LoopEnd, 0), Cmd(LoopEnd, 0)], false)
  {
    var src := "[]]";
    assert Scan(C, src, 3) == Scanned([], false);
    assert Scan(C, src, 2) == Scanned([Cmd(LoopEnd, 0)], false);
    assert Scan(C, src, 1) == Scanned([Cmd(LoopEnd, 0), Cmd(LoopEnd, 0)], false);
    assert !ZeroIdiom(src, 0);
  }

  lemma TablesOfOpenClose(two: seq<Kind>)
    requires two == [LoopStart, LoopEnd]
    ensures Pending(two) == [] && CTables(two).endToStart[1] == 0
  {
    var one := [LoopStart];
    assert Pending(one) == [0] by {
      assert one[..0] == [];
    }
    assert Pending(two) == [] by {
      assert two[..1] == one;
    }
    CTablesSnoc([], LoopStart);
    assert [] + [LoopStart] == one;
    CTablesSnoc(one, LoopEnd);
    assert one + [LoopEnd] == two;
  }

  lemma TablesOfUnmatchedEnd(ks: seq<Kind>)
    requires ks == [LoopStart, LoopEnd, LoopEnd]
    ensures CTables(ks).startToEnd[0] == 2
    ensures CTables(ks).endToStart[1] == 0 && CTables(ks).endToStart[2] == 0
  {
    var two := [LoopStart, LoopEnd];
    TablesOfOpenClose(two);
    CTablesSnoc(two, LoopEnd);
    assert two + [LoopEnd] == ks;
  }

  lemma FirstPairOfUnmatchedEnd(ks: seq<Kind>)
    requires ks == [LoopStart, LoopEnd, LoopEnd]
    ensures Matched(ks, 0, 1)
  {
    assert Inside(ks, 0, 1) == 0 by {
      assert ks[1..1] == [];
    }
  }

  /** An unmatched `]` is silently paired with command 0, and the write to
      `start_to_end[0]` replaces the entry of a matched pair: in `[]]` the first `[` is
      matched with command 1, yet its slot ends up holding 2. */
  lemma UnmatchedEndPairsWithZero(src: seq<char>)
    requires src == "[]]"
    ensures ParseSpec(src).Parsed?
    ensures var p := ParseSpec(src).prog;
      && p.cmds == [Cmd(LoopStart, 0), Cmd(LoopEnd, 0), Cmd(LoopEnd, 0)]
      && Matched(Kinds(p.cmds), 0, 1)
      && p.endToStart[1] == 0 && p.endToStart[2] == 0
      && p.startToEnd[0] == 2
  {
    ScanOfUnmatchedEnd();
    var cmds := Scan(C, src, 0).tokens;
    var ks := Kinds(cmds);
    assert ks == [LoopStart, LoopEnd, LoopEnd];
    TablesOfUnmatchedEnd(ks);
    FirstPairOfUnmatchedEnd(ks);
  }
}
