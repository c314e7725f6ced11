/** Small programs run from source text to output: the commands the parsers produce for
    them, the jump tables, and what the C reference and the Go version print. */
module Samples {
  import opened Commands
  import opened Lexer
  import opened Brackets
  import CParser
  import CRun
  import GoInterp

  // ---------------------------------------------------------------------------
  // `++.`: a collapsed run, then its output

  /** `++.` is PLUS 2 then PRINT. */
  lemma TwoPlusPrintTokens()
    ensures Tokens("++.") == [Cmd(Plus, 2), Cmd(Print, 0)]
  {
    var src := "++.";
    assert RunEnd(src, 0, '-', '+') == 2;
    assert src[0..2] == "++";
    assert Net("++", '-', '+') == 2 by {
      assert "++"[..1] == "+";
      assert "+"[..0] == [];
    }
    assert Scan(Ts, src, 2) == Scanned([Cmd(Print, 0)], false);
  }

  /** C parses `++.` with both tables left at their eight zero slots. */
  lemma TwoPlusPrintParseC()
    ensures CParser.ParseSpec("++.")
      == CParser.Parsed(CParser.Program([Cmd(Plus, 2), Cmd(Print, 0)], Zeros(8), Zeros(8)))
  {
    TwoPlusPrintTokens();
    CParser.ParseDefinedIff("++.");
    var ks := Kinds([Cmd(Plus, 2), Cmd(Print, 0)]);
    assert ks == [Plus, Print];
    assert ks[..1] == [Plus] && [Plus][..0] == [];
  }

  lemma TwoPlusPrintRunC(p: CParser.Program)
    requires p.cmds == [Cmd(Plus, 2), Cmd(Print, 0)]
    ensures var o := CRun.RunSpec(p, CRun.Init(), 2); o.Finished? && o.st.out == [2]
  {
    var st1, st2 := CRun.State(1, 0, [2], []), CRun.State(2, 0, [2], [2]);
    assert CRun.Step(p, CRun.Init()) == CRun.Next(st1);
    assert CRun.Step(p, st1) == CRun.Next(st2);
    assert CRun.RunSpec(p, CRun.Init(), 2) == CRun.RunSpec(p, st1, 1) == CRun.RunSpec(p, st2, 0);
  }

  /** `++.` prints 2 in C. */
  lemma TwoPlusPrintC()
    ensures CParser.ParseSpec("++.").Parsed?
    ensures var o := CRun.RunSpec(CParser.ParseSpec("++.").prog, CRun.Init(), 2);
      o.Finished? && o.st.out == [2]
  {
    TwoPlusPrintParseC();
    TwoPlusPrintRunC(CParser.ParseSpec("++.").prog);
  }

  /** Go parses `++.` with both maps empty. */
  lemma TwoPlusPrintParseGo()
    ensures GoInterp.ParseSpec("++.")
      == GoInterp.Parsed(GoInterp.Program([Cmd(Plus, 2), Cmd(Print, 0)], map[], map[]))
  {
    var src := "++.";
    TwoPlusPrintTokens();
    CAndGoFaultIffEndsOpen(Go, src);
    ScanAgreesWhenNoCrash(Go, src, 0);
    var ks := Kinds([Cmd(Plus, 2), Cmd(Print, 0)]);
    assert ks == [Plus, Print];
    assert ks[..1] == [Plus] && [Plus][..0] == [];
    assert MapTables(ks) == Some(Tables(map[], map[]));
  }

  lemma TwoPlusPrintRunGo(p: GoInterp.Program)
    requires p.cmds == [Cmd(Plus, 2), Cmd(Print, 0)]
    ensures var o := GoInterp.RunSpec(p, GoInterp.Init(), 2); o.Finished? && o.st.out == [2]
  {
    var st1, st2 := GoInterp.State(1, 0, [2], []), GoInterp.State(2, 0, [2], [2]);
    assert GoInterp.Step(p, GoInterp.Init()) == GoInterp.Next(st1);
    assert GoInterp.Step(p, st1) == GoInterp.Next(st2);
    assert GoInterp.RunSpec(p, GoInterp.Init(), 2) == GoInterp.RunSpec(p, st1, 1) == GoInterp.RunSpec(p, st2, 0);
  }

  /** `++.` prints 2 in Go. */
  lemma TwoPlusPrintGo()
    ensures GoInterp.ParseSpec("++.").Parsed?
    ensures var o := GoInterp.RunSpec(GoInterp.ParseSpec("++.").prog, GoInterp.Init(), 2);
      o.Finished? && o.st.out == [2]
  {
    TwoPlusPrintParseGo();
    TwoPlusPrintRunGo(GoInterp.ParseSpec("++.").prog);
  }

  // ---------------------------------------------------------------------------
  // `+[-].`: the zero idiom

  /** `+[-].` is PLUS 1, ZERO, PRINT: the three bytes `[-]` become one command. */
  lemma ClearTokens()
    ensures Tokens("+[-].") == [Cmd(Plus, 1), Cmd(Zero, 0), Cmd(Print, 0)]
  {
    var src := "+[-].";
    assert RunEnd(src, 0, '-', '+') == 1;
    assert src[0..1] == "+" && "+"[..0] == [];
    assert ZeroIdiom(src, 1);
    assert Scan(Ts, src, 4) == Scanned([Cmd(Print, 0)], false);
    assert Scan(Ts, src, 1) == Scanned([Cmd(Zero, 0), Cmd(Print, 0)], false);
  }

  lemma ClearRunC(p: CParser.Program)
    requires p.cmds == [Cmd(Plus, 1), Cmd(Zero, 0), Cmd(Print, 0)]
    ensures var o := CRun.RunSpec(p, CRun.Init(), 3); o.Finished? && o.st.out == [0]
  {
    var st1, st2, st3 := CRun.State(1, 0, [1], []), CRun.State(2, 0, [0], []), CRun.State(3, 0, [0], [0]);
    assert CRun.Step(p, CRun.Init()) == CRun.Next(st1);
    assert CRun.Step(p, st1) == CRun.Next(st2);
    assert CRun.Step(p, st2) == CRun.Next(st3);
    assert CRun.RunSpec(p, CRun.Init(), 3) == CRun.RunSpec(p, st1, 2) == CRun.RunSpec(p, st2, 1) == CRun.RunSpec(p, st3, 0);
  }

  /** `+[-].` prints 0 in C. */
  lemma ClearC()
    ensures CParser.ParseSpec("+[-].").Parsed?
    ensures var o := CRun.RunSpec(CParser.ParseSpec("+[-].").prog, CRun.Init(), 3);
      o.Finished? && o.st.out == [0]
  {
    ClearTokens();
    CParser.ParseDefinedIff("+[-].");
    ClearRunC(CParser.ParseSpec("+[-].").prog);
  }

  lemma ClearParseGo()
    ensures GoInterp.ParseSpec("+[-].")
      == GoInterp.Parsed(GoInterp.Program([Cmd(Plus, 1), Cmd(Zero, 0), Cmd(Print, 0)], map[], map[]))
  {
    var src := "+[-].";
    ClearTokens();
    CAndGoFaultIffEndsOpen(Go, src);
    ScanAgreesWhenNoCrash(Go, src, 0);
    var ks := Kinds([Cmd(Plus, 1), Cmd(Zero, 0), Cmd(Print, 0)]);
    assert ks == [Plus, Zero, Print];
    assert ks[..2] == [Plus, Zero] && [Plus, Zero][..1] == [Plus] && [Plus][..0] == [];
    assert MapTables(ks) == Some(Tables(map[], map[]));
  }

  lemma ClearRunGo(p: GoInterp.Program)
    requires p.cmds == [Cmd(Plus, 1), Cmd(Zero, 0), Cmd(Print, 0)]
    ensures var o := GoInterp.RunSpec(p, GoInterp.Init(), 3); o.Finished? && o.st.out == [0]
  {
    var st1, st2, st3 := GoInterp.State(1, 0, [1], []), GoInterp.State(2, 0, [0], []), GoInterp.State(3, 0, [0], [0]);
    assert GoInterp.Step(p, GoInterp.Init()) == GoInterp.Next(st1);
    assert GoInterp.Step(p, st1) == GoInterp.Next(st2);
    assert GoInterp.Step(p, st2) == GoInterp.Next(st3);
    assert GoInterp.RunSpec(p, GoInterp.Init(), 3) == GoInterp.RunSpec(p, st1, 2)
      == GoInterp.RunSpec(p, st2, 1) == GoInterp.RunSpec(p, st3, 0);
  }

  /** `+[-].` prints 0 in Go. */
  lemma ClearGo()
    ensures GoInterp.ParseSpec("+[-].").Parsed?
    ensures var o := GoInterp.RunSpec(GoInterp.ParseSpec("+[-].").prog, GoInterp.Init(), 3);
      o.Finished? && o.st.out == [0]
  {
    ClearParseGo();
    ClearRunGo(GoInterp.ParseSpec("+[-].").prog);
  }

  // ---------------------------------------------------------------------------
  // `++[>+<-]>.`: a loop that moves cell 0 into cell 1

  /** The net count of a one-byte run. */
  lemma NetOfOne(c: char, neg: char, pos: char)
    ensures Net([c], neg, pos) == if c == neg then -1 else if c == pos then 1 else 0
  {
    assert [c][..0] == [];
  }

  /** The commands of `++[>+<-]>.`. */
  function MoveCmds(): seq<Cmd> {
    [Cmd(Plus, 2), Cmd(LoopStart, 0), Cmd(Right, 1), Cmd(Plus, 1), Cmd(Left, 1),
     Cmd(Minus, 1), Cmd(LoopEnd, 0), Cmd(Right, 1), Cmd(Print, 0)]
  }

  /** A token emitted at `i` heads the TypeScript scan from `i`. */
  lemma TsEmit(src: seq<char>, i: nat, c: Cmd, n: nat)
    requires i < |src| && LexAt(src, i) == Emit(c, n)
    ensures Scan(Ts, src, i) == Scanned([c] + Scan(Ts, src, n).tokens, Scan(Ts, src, n).crashed)
  {
  }

  /** A pointer or arithmetic byte whose neighbour on the right is of another kind lexes
      to one command of count 1. */
  lemma LexSingle(src: seq<char>, i: nat, a: char, b: char)
    requires i < |src| && (src[i] == a || src[i] == b)
    requires i + 1 == |src| || (src[i + 1] != a && src[i + 1] != b)
    ensures RunEnd(src, i, a, b) == i + 1
    ensures Net(src[i..i + 1], a, b) == if src[i] == a then -1 else 1
  {
    assert src[i..i + 1] == [src[i]];
    NetOfOne(src[i], a, b);
  }

  /** From byte 3 on, `++[>+<-]>.` lexes to seven one-byte commands. */
  lemma MoveTokensTail(src: seq<char>)
    requires src == "++[>+<-]>."
    ensures Scan(Ts, src, 3) == Scanned(MoveCmds()[2..], false)
  {
    LexSingle(src, 8, '<', '>');
    TsEmit(src, 9, Cmd(Print, 0), 10);
    TsEmit(src, 8, Cmd(Right, 1), 9);
    TsEmit(src, 7, Cmd(LoopEnd, 0), 8);
    LexSingle(src, 6, '-', '+');
    TsEmit(src, 6, Cmd(Minus, 1), 7);
    LexSingle(src, 5, '<', '>');
    TsEmit(src, 5, Cmd(Left, 1), 6);
    LexSingle(src, 4, '-', '+');
    TsEmit(src, 4, Cmd(Plus, 1), 5);
    LexSingle(src, 3, '<', '>');
    TsEmit(src, 3, Cmd(Right, 1), 4);
  }

  /** From byte 2 on, `++[>+<-]>.` lexes to LOOP_START and the rest: `[>` is no zero idiom. */
  lemma MoveTokensFromLoop(src: seq<char>)
    requires src == "++[>+<-]>."
    ensures Scan(Ts, src, 2) == Scanned(MoveCmds()[1..], false)
  {
    var cmds := MoveCmds();
    MoveTokensTail(src);
    assert !ZeroIdiom(src, 2);
    assert LexAt(src, 2) == Emit(Cmd(LoopStart, 0), 3);
    assert cmds[1..] == [Cmd(LoopStart, 0)] + cmds[2..];
  }

  /** `++[>+<-]>.` lexes to nine commands: every run here is one byte long except `++`. */
  lemma MoveTokens()
    ensures Tokens("++[>+<-]>.") == MoveCmds()
  {
    var src := "++[>+<-]>.";
    var cmds := MoveCmds();
    MoveTokensFromLoop(src);
    assert RunEnd(src, 0, '-', '+') == 2 && src[0..2] == "++";
    assert Net("++", '-', '+') == 2 by {
      assert "++"[..1] == "+";
      NetOfOne('+', '-', '+');
    }
    assert LexAt(src, 0) == Emit(Cmd(Plus, 2), 2);
    assert cmds == [Cmd(Plus, 2)] + cmds[1..];
  }

  /** The command kinds of `++[>+<-]>.`. */
  lemma MoveKinds()
    ensures Kinds(MoveCmds()) == [Plus, LoopStart, Right, Plus, Left, Minus, LoopEnd, Right, Print]
  {
  }

  /** In `++[>+<-]>.` the `[` at 1 and the `]` at 6 are a pair. */
  lemma MoveMatched()
    ensures Matched(Kinds(MoveCmds()), 1, 6)
  {
    var ks := Kinds(MoveCmds());
    MoveKinds();
    assert ks[2..2] == [];
    DepthOfStep(ks, 2, 2);
    DepthOfStep(ks, 2, 3);
    DepthOfStep(ks, 2, 4);
    DepthOfStep(ks, 2, 5);
    assert forall j :: 1 < j <= 6 ==> Inside(ks, 1, j) == 0;
  }

  /** No `]` of `++[>+<-]>.` finds the stack empty. */
  lemma MoveBalanced()
    ensures !HasUnmatchedEnd(Kinds(MoveCmds()))
  {
    var ks := Kinds(MoveCmds());
    MoveKinds();
    assert ks[0..0] == [];
    DepthOfStep(ks, 0, 0);
    DepthOfStep(ks, 0, 1);
    DepthOfStep(ks, 0, 2);
    DepthOfStep(ks, 0, 3);
    DepthOfStep(ks, 0, 4);
    DepthOfStep(ks, 0, 5);
    DepthOfStep(ks, 0, 6);
    DepthOfStep(ks, 0, 7);
    DepthOfStep(ks, 0, 8);
    assert forall m :: 0 <= m <= |ks| ==> DepthOf(ks, 0, m) >= 0;
  }

  /** C parses `++[>+<-]>.` into its nine commands and pairs the `[` at 1 with the `]` at 6. */
  lemma MoveParseC()
    ensures var r := CParser.ParseSpec("++[>+<-]>.");
      && r.Parsed? && r.prog.cmds == MoveCmds()
      && 1 < |r.prog.startToEnd| && r.prog.startToEnd[1] == 6
      && 6 < |r.prog.endToStart| && r.prog.endToStart[6] == 1
  {
    var src := "++[>+<-]>.";
    MoveTokens();
    assert !EndsInOpenLookahead(src);
    CParser.ParseDefinedIff(src);
    MoveMatched();
    CParser.ParsedTablesHoldPairs(src);
  }

  /** The first pass of the loop, up to the `<`: cell 0 is still 2, cell 1 is now 1. */
  lemma MoveIntoLoopC(p: CParser.Program)
    requires p.cmds == MoveCmds()
    ensures CRun.RunSpec(p, CRun.Init(), 14) == CRun.RunSpec(p, CRun.State(4, 1, [2, 1, 0], []), 10)
  {
    var s1, s2 := CRun.State(1, 0, [2], []), CRun.State(2, 0, [2], []);
    var s3, s4 := CRun.State(3, 1, [2, 0, 0], []), CRun.State(4, 1, [2, 1, 0], []);
    assert CRun.Step(p, CRun.Init()) == CRun.Next(s1);
    assert CRun.Step(p, s1) == CRun.Next(s2);
    assert CRun.Step(p, s2) == CRun.Next(s3);
    assert CRun.Step(p, s3) == CRun.Next(s4);
    assert CRun.RunSpec(p, CRun.Init(), 14) == CRun.RunSpec(p, s1, 13) == CRun.RunSpec(p, s2, 12)
      == CRun.RunSpec(p, s3, 11) == CRun.RunSpec(p, s4, 10);
  }

  /** The rest of the first pass: cell 0 drops to 1 and the `]` jumps back to the body. */
  lemma MoveFirstJumpC(p: CParser.Program)
    requires p.cmds == MoveCmds() && 6 < |p.endToStart| && p.endToStart[6] == 1
    ensures CRun.RunSpec(p, CRun.State(4, 1, [2, 1, 0], []), 10)
      == CRun.RunSpec(p, CRun.State(2, 0, [1, 1, 0], []), 7)
  {
    var s4, s5 := CRun.State(4, 1, [2, 1, 0], []), CRun.State(5, 0, [2, 1, 0], []);
    var s6, s7 := CRun.State(6, 0, [1, 1, 0], []), CRun.State(2, 0, [1, 1, 0], []);
    assert CRun.Step(p, s4) == CRun.Next(s5);
    assert CRun.Step(p, s5) == CRun.Next(s6);
    assert CRun.Step(p, s6) == CRun.Next(s7);
    assert CRun.RunSpec(p, s4, 10) == CRun.RunSpec(p, s5, 9) == CRun.RunSpec(p, s6, 8)
      == CRun.RunSpec(p, s7, 7);
  }

  /** The second pass, up to the `]`: cell 0 is now 0 and cell 1 is 2. */
  lemma MoveSecondPassC(p: CParser.Program)
    requires p.cmds == MoveCmds()
    ensures CRun.RunSpec(p, CRun.State(2, 0, [1, 1, 0], []), 7)
      == CRun.RunSpec(p, CRun.State(6, 0, [0, 2, 0], []), 3)
  {
    var s7, s8 := CRun.State(2, 0, [1, 1, 0], []), CRun.State(3, 1, [1, 1, 0], []);
    var s9, s10 := CRun.State(4, 1, [1, 2, 0], []), CRun.State(5, 0, [1, 2, 0], []);
    var s11 := CRun.State(6, 0, [0, 2, 0], []);
    assert CRun.Step(p, s7) == CRun.Next(s8);
    assert CRun.Step(p, s8) == CRun.Next(s9);
    assert CRun.Step(p, s9) == CRun.Next(s10);
    assert CRun.Step(p, s10) == CRun.Next(s11);
    assert CRun.RunSpec(p, s7, 7) == CRun.RunSpec(p, s8, 6) == CRun.RunSpec(p, s9, 5)
      == CRun.RunSpec(p, s10, 4) == CRun.RunSpec(p, s11, 3);
  }

  /** On a zero cell the `]` falls through, and `>.` prints cell 1. */
  lemma MoveExitC(p: CParser.Program)
    requires p.cmds == MoveCmds()
    ensures var o := CRun.RunSpec(p, CRun.State(6, 0, [0, 2, 0], []), 3);
      o.Finished? && o.st.out == [2]
  {
    var s11, s12 := CRun.State(6, 0, [0, 2, 0], []), CRun.State(7, 0, [0, 2, 0], []);
    var s13, s14 := CRun.State(8, 1, [0, 2, 0], []), CRun.State(9, 1, [0, 2, 0], [2]);
    assert CRun.Step(p, s11) == CRun.Next(s12);
    assert CRun.Step(p, s12) == CRun.Next(s13);
    assert CRun.Step(p, s13) == CRun.Next(s14);
    assert CRun.RunSpec(p, s11, 3) == CRun.RunSpec(p, s12, 2) == CRun.RunSpec(p, s13, 1)
      == CRun.RunSpec(p, s14, 0);
  }

  /** `++[>+<-]>.` prints 2 in C: the loop moves cell 0 into cell 1 in two passes. */
  lemma MoveC()
    ensures CParser.ParseSpec("++[>+<-]>.").Parsed?
    ensures var o := CRun.RunSpec(CParser.ParseSpec("++[>+<-]>.").prog, CRun.Init(), 14);
      o.Finished? && o.st.out == [2]
  {
    MoveParseC();
    var p := CParser.ParseSpec("++[>+<-]>.").prog;
    MoveIntoLoopC(p);
    MoveFirstJumpC(p);
    MoveSecondPassC(p);
    MoveExitC(p);
  }

  /** Go parses `++[>+<-]>.` into its nine commands with the pair 1, 6 in both maps. */
  lemma MoveParseGo()
    ensures var r := GoInterp.ParseSpec("++[>+<-]>.");
      && r.Parsed? && r.prog.cmds == MoveCmds()
      && 1 in r.prog.startToEnd && r.prog.startToEnd[1] == 6
      && 6 in r.prog.endToStart && r.prog.endToStart[6] == 1
  {
    var src := "++[>+<-]>.";
    MoveTokens();
    assert !EndsInOpenLookahead(src);
    MoveBalanced();
    GoInterp.PanicIff(src);
    CAndGoFaultIffEndsOpen(Go, src);
    ScanAgreesWhenNoCrash(Go, src, 0);
    var ks := Kinds(MoveCmds());
    MapTablesDefinedIff(ks);
    MapTablesCorrect(ks);
    MoveMatched();
  }

  /** In Go, the first pass of the loop up to the `<`. */
  lemma MoveIntoLoopGo(p: GoInterp.Program)
    requires p.cmds == MoveCmds()
    ensures GoInterp.RunSpec(p, GoInterp.Init(), 14) == GoInterp.RunSpec(p, GoInterp.State(4, 1, [2, 1, 0], []), 10)
  {
    var s1, s2 := GoInterp.State(1, 0, [2], []), GoInterp.State(2, 0, [2], []);
    var s3, s4 := GoInterp.State(3, 1, [2, 0, 0], []), GoInterp.State(4, 1, [2, 1, 0], []);
    assert GoInterp.Step(p, GoInterp.Init()) == GoInterp.Next(s1);
    assert GoInterp.Step(p, s1) == GoInterp.Next(s2);
    assert GoInterp.Step(p, s2) == GoInterp.Next(s3);
    assert GoInterp.Step(p, s3) == GoInterp.Next(s4);
    assert GoInterp.RunSpec(p, GoInterp.Init(), 14) == GoInterp.RunSpec(p, s1, 13)
      == GoInterp.RunSpec(p, s2, 12) == GoInterp.RunSpec(p, s3, 11) == GoInterp.RunSpec(p, s4, 10);
  }

  /** In Go, the rest of the first pass: the `]` looks 6 up in `endToStart` and jumps back. */
  lemma MoveFirstJumpGo(p: GoInterp.Program)
    requires p.cmds == MoveCmds() && 6 in p.endToStart && p.endToStart[6] == 1
    ensures GoInterp.RunSpec(p, GoInterp.State(4, 1, [2, 1, 0], []), 10)
      == GoInterp.RunSpec(p, GoInterp.State(2, 0, [1, 1, 0], []), 7)
  {
    var s4, s5 := GoInterp.State(4, 1, [2, 1, 0], []), GoInterp.State(5, 0, [2, 1, 0], []);
    var s6, s7 := GoInterp.State(6, 0, [1, 1, 0], []), GoInterp.State(2, 0, [1, 1, 0], []);
    assert GoInterp.Step(p, s4) == GoInterp.Next(s5);
    assert GoInterp.Step(p, s5) == GoInterp.Next(s6);
    assert GoInterp.Step(p, s6) == GoInterp.Next(s7);
    assert GoInterp.RunSpec(p, s4, 10) == GoInterp.RunSpec(p, s5, 9) == GoInterp.RunSpec(p, s6, 8)
      == GoInterp.RunSpec(p, s7, 7);
  }

  /** In Go, the second pass up to the `]`. */
  lemma MoveSecondPassGo(p: GoInterp.Program)
    requires p.cmds == MoveCmds()
    ensures GoInterp.RunSpec(p, GoInterp.State(2, 0, [1, 1, 0], []), 7)
      == GoInterp.RunSpec(p, GoInterp.State(6, 0, [0, 2, 0], []), 3)
  {
    var s7, s8 := GoInterp.State(2, 0, [1, 1, 0], []), GoInterp.State(3, 1, [1, 1, 0], []);
    var s9, s10 := GoInterp.State(4, 1, [1, 2, 0], []), GoInterp.State(5, 0, [1, 2, 0], []);
    var s11 := GoInterp.State(6, 0, [0, 2, 0], []);
    assert GoInterp.Step(p, s7) == GoInterp.Next(s8);
    assert GoInterp.Step(p, s8) == GoInterp.Next(s9);
    assert GoInterp.Step(p, s9) == GoInterp.Next(s10);
    assert GoInterp.Step(p, s10) == GoInterp.Next(s11);
    assert GoInterp.RunSpec(p, s7, 7) == GoInterp.RunSpec(p, s8, 6) == GoInterp.RunSpec(p, s9, 5)
      == GoInterp.RunSpec(p, s10, 4) == GoInterp.RunSpec(p, s11, 3);
  }

  /** In Go, the `]` falls through on the zero cell and `>.` prints cell 1. */
  lemma MoveExitGo(p: GoInterp.Program)
    requires p.cmds == MoveCmds()
    ensures var o := GoInterp.RunSpec(p, GoInterp.State(6, 0, [0, 2, 0], []), 3);
      o.Finished? && o.st.out == [2]
  {
    var s11, s12 := GoInterp.State(6, 0, [0, 2, 0], []), GoInterp.State(7, 0, [0, 2, 0], []);
    var s13, s14 := GoInterp.State(8, 1, [0, 2, 0], []), GoInterp.State(9, 1, [0, 2, 0], [2]);
    assert GoInterp.Step(p, s11) == GoInterp.Next(s12);
    assert GoInterp.Step(p, s12) == GoInterp.Next(s13);
    assert GoInterp.Step(p, s13) == GoInterp.Next(s14);
    assert GoInterp.RunSpec(p, s11, 3) == GoInterp.RunSpec(p, s12, 2) == GoInterp.RunSpec(p, s13, 1)
      == GoInterp.RunSpec(p, s14, 0);
  }

  /** `++[>+<-]>.` prints 2 in Go. */
  lemma MoveGo()
    ensures GoInterp.ParseSpec("++[>+<-]>.").Parsed?
    ensures var o := GoInterp.RunSpec(GoInterp.ParseSpec("++[>+<-]>.").prog, GoInterp.Init(), 14);
      o.Finished? && o.st.out == [2]
  {
    MoveParseGo();
    var p := GoInterp.ParseSpec("++[>+<-]>.").prog;
    MoveIntoLoopGo(p);
    MoveFirstJumpGo(p);
    MoveSecondPassGo(p);
    MoveExitGo(p);
  }
}
