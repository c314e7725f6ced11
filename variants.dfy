/** How the TypeScript, Rust and Go interpreters differ from the C reference: which
    sources each accepts, what commands each keeps, and what an unclosed `[` does. */
module Variants {
  import opened Commands
  import opened Lexer
  import opened Brackets
  import CParser
  import CRun
  import TsInterp
  import RsInterp
  import GoInterp

  /** Whatever parses yields the common commands: C and Go keep them as they are,
      TypeScript keeps every kind and every non-bracket command, and Rust keeps every kind
      with its count modulo 256. */
  lemma SameCommands(src: seq<char>)
    ensures CParser.ParseSpec(src).Parsed? ==> CParser.ParseSpec(src).prog.cmds == Tokens(src)
    ensures GoInterp.ParseSpec(src).Parsed? ==> GoInterp.ParseSpec(src).prog.cmds == Tokens(src)
    ensures TsInterp.ParseSpec(src).Parsed? ==>
      var cmds, toks := TsInterp.ParseSpec(src).cmds, Tokens(src);
      && Kinds(cmds) == Kinds(toks)
      && (forall k :: 0 <= k < |toks| && toks[k].kind !in {LoopStart, LoopEnd} ==> cmds[k] == toks[k])
    ensures RsInterp.ParseSpec(src).Parsed? ==>
      var cmds, toks := RsInterp.ParseSpec(src).prog.cmds, Tokens(src);
      && Kinds(cmds) == Kinds(toks)
      && (forall k :: 0 <= k < |toks| ==> cmds[k].val == toks[k].val % 256)
  {
    CParser.ParseDefinedIff(src);
    GoInterp.PanicIff(src);
    TsInterp.ExitIffUnmatchedEnd(src);
    RsInterp.ParseOutcomes(src);
  }

  /** C rejects only a source ending in `[` or `[-`; TypeScript only an unmatched `]`;
      Go rejects both, so it accepts exactly what C and TypeScript both accept; Rust
      accepts what Go accepts unless the source ends in one of `<>+-`. */
  lemma WhoAccepts(src: seq<char>)
    ensures CParser.ParseSpec(src).Parsed? <==> !EndsInOpenLookahead(src)
    ensures TsInterp.ParseSpec(src).Parsed? <==> !HasUnmatchedEnd(Kinds(Tokens(src)))
    ensures GoInterp.ParseSpec(src).Parsed? <==> CParser.ParseSpec(src).Parsed? && TsInterp.ParseSpec(src).Parsed?
    ensures RsInterp.ParseSpec(src).Parsed? <==>
      GoInterp.ParseSpec(src).Parsed? && !(|src| > 0 && IsRunByte(src[|src| - 1]))
  {
    CParser.ParseDefinedIff(src);
    GoInterp.PanicIff(src);
    TsInterp.ExitIffUnmatchedEnd(src);
    RustFaultIffEndsInRunOrOpen(src);
    if !Scan(Rs, src, 0).crashed {
      ScanAgreesWhenNoCrash(Rs, src, 0);
    }
  }

  /** Where the jump targets live: the TypeScript operands of a matched pair are the
      entries the C tables and the Rust and Go maps hold for it. */
  lemma OperandsMatchTables(src: seq<char>, s: nat, e: nat)
    requires CParser.ParseSpec(src).Parsed? && TsInterp.ParseSpec(src).Parsed?
    requires Matched(Kinds(Tokens(src)), s, e)
    ensures var c, t := CParser.ParseSpec(src).prog, TsInterp.ParseSpec(src).cmds;
      && s < |c.startToEnd| && c.startToEnd[s] == t[s].val
      && e < |c.endToStart| && c.endToStart[e] == t[e].val
    ensures GoInterp.ParseSpec(src).Parsed? ==>
      var g := GoInterp.ParseSpec(src).prog; var t := TsInterp.ParseSpec(src).cmds;
      s in g.startToEnd && g.startToEnd[s] == t[s].val && e in g.endToStart && g.endToStart[e] == t[e].val
  {
    WhoAccepts(src);
    SameCommands(src);
    CParser.ParsedTablesHoldPairs(src);
    TsInterp.OperandsAreJumpTargets(src);
    if GoInterp.ParseSpec(src).Parsed? {
      GoInterp.LoopJumps(src, GoInterp.State(s, 0, [0], []));
      MapTablesCorrect(Kinds(Tokens(src)));
      assert GoInterp.ParseSpec(src).prog.startToEnd == MapTables(Kinds(Tokens(src))).value.startToEnd;
    }
  }

  /** An unclosed `[` reached on a zero cell: TypeScript and Go resume at command 1; C
      does the same when the slot it reads lies inside its table, whose unwritten slots
      hold 0, and reads past the table otherwise; Rust panics on the missing key. */
  lemma UnclosedStart(src: seq<char>, s: nat)
    requires RsInterp.ParseSpec(src).Parsed?
    requires s < |Tokens(src)| && Tokens(src)[s].kind == LoopStart && s in Pending(Kinds(Tokens(src)))
    ensures CParser.ParseSpec(src).Parsed? && TsInterp.ParseSpec(src).Parsed? && GoInterp.ParseSpec(src).Parsed?
    ensures s < |TsInterp.ParseSpec(src).cmds| && s < |GoInterp.ParseSpec(src).prog.cmds|
    ensures s < |RsInterp.ParseSpec(src).prog.cmds|
    ensures var c := CParser.ParseSpec(src).prog;
      && s < |c.cmds|
      && CRun.Step(c, CRun.State(s, 0, [0], []))
         == if s < |c.startToEnd| then CRun.Next(CRun.State(1, 0, [0], [])) else CRun.BadRead
    ensures TsInterp.Step(TsInterp.ParseSpec(src).cmds, TsInterp.State(s, 0, map[], []))
      == TsInterp.Next(TsInterp.State(1, 0, map[], []))
    ensures GoInterp.Step(GoInterp.ParseSpec(src).prog, GoInterp.State(s, 0, [0], []))
      == GoInterp.Next(GoInterp.State(1, 0, [0], []))
    ensures RsInterp.Step(RsInterp.ParseSpec(src).prog, RsInterp.State(s, 0, [0], [], [])).Crash?
  {
    var ks := Kinds(Tokens(src));
    WhoAccepts(src);
    SameCommands(src);
    TsInterp.OperandsAreJumpTargets(src);
    GoInterp.LoopJumps(src, GoInterp.State(s, 0, [0], []));
    RsInterp.LoopsInParsedPrograms(src, RsInterp.State(s, 0, [0], [], []));
    MapTablesCorrect(ks);
    CParser.CTablesMatchMaps(ks);
    assert CParser.ParseSpec(src).prog.startToEnd == CParser.CTables(ks).startToEnd;
    assert GoInterp.ParseSpec(src).prog.startToEnd == MapTables(ks).value.startToEnd;
  }
}
