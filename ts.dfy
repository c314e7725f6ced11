/** The TypeScript interpreter (tsnode/src/main.ts). Its parser writes the jump targets
    into the operands of the bracket commands instead of separate tables, and stops the
    process on a `]` with no open `[`. Its executor reads and writes the tape as a map:
    a cell never written reads 0, and moving right never grows anything. */
module TsInterp {
  import opened Commands
  import opened Lexer
  import opened Brackets
  import Cells

  /** `Exit` is `process.exit(1)` on unmatched brackets. */
  datatype ParseResult = Exit | Parsed(cmds: seq<Cmd>)

  /** The command at index `k` with its jump target written in: a LoopStart holds the
      index of its LoopEnd (0 while it is unclosed), a LoopEnd the index of its LoopStart. */
  function PatchOne(c: Cmd, k: nat, t: Tables): Cmd {
    if c.kind == LoopStart then Cmd(LoopStart, if k in t.startToEnd then t.startToEnd[k] else 0)
    else if c.kind == LoopEnd then Cmd(LoopEnd, if k in t.endToStart then t.endToStart[k] else 0)
    else c
  }

  /** The tokens with every bracket operand patched from the jump maps `t`. */
  function Patched(toks: seq<Cmd>, t: Tables): (r: seq<Cmd>)
    ensures |r| == |toks|
    ensures forall k :: 0 <= k < |toks| ==> r[k].kind == toks[k].kind
    ensures forall k :: 0 <= k < |toks| && toks[k].kind !in {LoopStart, LoopEnd} ==> r[k] == toks[k]
  {
    seq(|toks|, k requires 0 <= k < |toks| => PatchOne(toks[k], k, t))
  }

  /** What `parse` returns for `src`. */
  function ParseSpec(src: seq<char>): ParseResult {
    var toks := Tokens(src);
    match MapTables(Kinds(toks))
    case None => Exit
    case Some(t) => Parsed(Patched(toks, t))
  }

  /** Appending a command other than `]` appends it unchanged (a LoopStart with operand 0). */
  lemma PatchedKeep(toks: seq<Cmd>, c: Cmd)
    requires MapTables(Kinds(toks)).Some? && c.kind != LoopEnd
    requires c.kind == LoopStart ==> c.val == 0
    ensures MapTables(Kinds(toks + [c])) == MapTables(Kinds(toks))
    ensures Patched(toks + [c], MapTables(Kinds(toks)).value) == Patched(toks, MapTables(Kinds(toks)).value) + [c]
  {
    var ks := Kinds(toks);
    KindsSnoc(toks, c);
    MapTablesSnoc(ks, c.kind);
    MapTablesCorrect(ks);
    var t := MapTables(ks).value;
    assert |toks| !in t.startToEnd;
    var lhs := Patched(toks + [c], t);
    var rhs := Patched(toks, t) + [c];
    forall k | 0 <= k < |lhs| ensures lhs[k] == rhs[k] {
      if k < |toks| {
        assert (toks + [c])[k] == toks[k];
      }
    }
  }

  /** Writing the pair (`s`, new `]`) into the maps patches exactly command `s` and the new
      LoopEnd. */
  lemma PatchedPair(toks: seq<Cmd>, t: Tables, s: nat)
    requires s < |toks| && toks[s].kind == LoopStart
    ensures var n := |toks|;
      Patched(toks + [Cmd(LoopEnd, 0)], Tables(t.startToEnd[s := n], t.endToStart[n := s]))
      == Patched(toks, t)[s := Cmd(LoopStart, n)] + [Cmd(LoopEnd, s)]
  {
    var n := |toks|;
    var c := Cmd(LoopEnd, 0);
    var toks' := toks + [c];
    var t' := Tables(t.startToEnd[s := n], t.endToStart[n := s]);
    var before := Patched(toks, t);
    var lhs := Patched(toks', t');
    var rhs := before[s := Cmd(LoopStart, n)] + [Cmd(LoopEnd, s)];
    forall k | 0 <= k < |lhs| ensures lhs[k] == rhs[k] {
      if k == n {
        assert lhs[k] == PatchOne(c, n, t');
      } else if k == s {
        assert lhs[k] == PatchOne(toks[s], s, t');
      } else {
        assert toks'[k] == toks[k];
        assert lhs[k] == PatchOne(toks[k], k, t');
        assert before[k] == PatchOne(toks[k], k, t);
      }
    }
    assert lhs == rhs;
  }

  /** Appending a `]` that closes the start `s` on top of the stack patches command `s`
      to point at the new command and appends a LoopEnd that points back at `s`. */
  lemma PatchedClose(toks: seq<Cmd>, s: nat)
    requires MapTables(Kinds(toks)).Some?
    requires Pending(Kinds(toks)) != [] && s == Pending(Kinds(toks))[|Pending(Kinds(toks))| - 1]
    ensures s < |toks|
    ensures MapTables(Kinds(toks + [Cmd(LoopEnd, 0)])).Some?
    ensures Patched(toks + [Cmd(LoopEnd, 0)], MapTables(Kinds(toks + [Cmd(LoopEnd, 0)])).value)
         == Patched(toks, MapTables(Kinds(toks)).value)[s := Cmd(LoopStart, |toks|)] + [Cmd(LoopEnd, s)]
  {
    var ks, n := Kinds(toks), |toks|;
    KindsSnoc(toks, Cmd(LoopEnd, 0));
    MapTablesSnoc(ks, LoopEnd);
    assert s < n && toks[s].kind == LoopStart by {
      PendingInv(ks);
    }
    PatchedPair(toks, MapTables(ks).value, s);
  }

  /** The parser's state after the tokens `done`: no `]` has found the stack empty, the
      commands so far are patched, and `starts` is the stack of unclosed `[`. */
  ghost predicate Parsing(commands: seq<Cmd>, starts: seq<nat>, done: seq<Cmd>) {
    && MapTables(Kinds(done)).Some?
    && commands == Patched(done, MapTables(Kinds(done)).value)
    && starts == Pending(Kinds(done))
  }

  /** One emitted token: a `]` pops its start and patches both operands, or fails on an
      empty stack; any other command is appended, a `[` also pushed. */
  method Append(commands: seq<Cmd>, starts: seq<nat>, ghost done: seq<Cmd>, cmd: Cmd)
    returns (ok: bool, commands': seq<Cmd>, starts': seq<nat>)
    requires Parsing(commands, starts, done)
    requires cmd.kind in {LoopStart, LoopEnd} ==> cmd.val == 0
    ensures ok <==> MapTables(Kinds(done + [cmd])).Some?
    ensures ok ==> Parsing(commands', starts', done + [cmd])
  {
    var ip := |commands|;
    KindsSnoc(done, cmd);
    PendingSnoc(Kinds(done), cmd.kind);
    MapTablesSnoc(Kinds(done), cmd.kind);
    if cmd.kind == LoopEnd {
      if starts == [] {
        return false, commands, starts;
      }
      var s := starts[|starts| - 1];
      PatchedClose(done, s);
      starts' := starts[..|starts| - 1];
      commands' := commands[s := Cmd(LoopStart, ip)] + [Cmd(LoopEnd, s)];
    } else {
      PatchedKeep(done, cmd);
      starts' := if cmd.kind == LoopStart then starts + [ip] else starts;
      commands' := commands + [cmd];
    }
    ok := true;
  }

  /** One pass of the parse loop from byte `i`: reads one token and appends it, or fails
      once a `]` finds the stack empty, in which case no later token can mend it. */
  method ParseAt(src: seq<char>, i: nat, commands: seq<Cmd>, starts: seq<nat>, ghost done: seq<Cmd>)
    returns (ok: bool, next: nat, commands': seq<Cmd>, starts': seq<nat>, ghost done': seq<Cmd>)
    requires i < |src| && Parsing(commands, starts, done)
    ensures i < next <= |src|
    ensures ok ==> Parsing(commands', starts', done')
    ensures ok ==> done' + Scan(Ts, src, next).tokens == done + Scan(Ts, src, i).tokens
    ensures !ok ==> MapTables(Kinds(done + Scan(Ts, src, i).tokens)).None?
  {
    var lx := LexOne(src, i);
    LexAtShape(src, i);
    ghost var rest := Scan(Ts, src, lx.next).tokens;
    assert Scan(Ts, src, i).tokens == if lx.Emit? then [lx.cmd] + rest else rest;
    next := lx.next;
    if lx.Skip? {
      return true, next, commands, starts, done;
    }
    ok, commands', starts' := Append(commands, starts, done, lx.cmd);
    done' := done + [lx.cmd];
    assert done + Scan(Ts, src, i).tokens == done' + rest;
    if !ok {
      MapTablesNoneStays(Kinds(done'), Kinds(rest));
      KindsConcat(done', rest);
    }
  }

  /** `parse`. */
  method Parse(src: seq<char>) returns (r: ParseResult)
    ensures r == ParseSpec(src)
  {
    var commands: seq<Cmd> := [];
    var starts: seq<nat> := [];
    ghost var done: seq<Cmd> := [];
    assert Kinds(done) == [] && Patched(done, Tables(map[], map[])) == [];
    var i := 0;
    while i < |src|
      invariant i <= |src|
      invariant done + Scan(Ts, src, i).tokens == Tokens(src)
      invariant Parsing(commands, starts, done)
      decreases |src| - i
    {
      var ok;
      ok, i, commands, starts, done := ParseAt(src, i, commands, starts, done);
      if !ok {
        return Exit;
      }
    }
    assert done == Tokens(src);
    r := Parsed(commands);
  }

  // ---------------------------------------------------------------------------
  // The executor

  /** The machine between two commands; `out` holds the UTF-16 code units written. */
  datatype State = State(ip: nat, dp: nat, tape: map<nat, int>, out: seq<nat>)

  datatype StepResult = Next(st: State) | Return

  datatype Outcome = Finished(st: State) | Returned(st: State) | OutOfFuel(st: State)

  /** The cell at `dp`; a cell never written reads 0. */
  function Cell(tape: map<nat, int>, dp: nat): int {
    if dp in tape then tape[dp] else 0
  }

  /** MINUS as written: 255 is added once when the difference is negative. */
  function MinusCell(x: int, v: nat): int {
    var d := x - v;
    if d < 0 then d + 255 else d
  }

  /** One pass of the loop of `run`. */
  function Step(cmds: seq<Cmd>, st: State): (r: StepResult)
    requires st.ip < |cmds|
    ensures r.Return? <==> cmds[st.ip].kind == Left && st.dp < cmds[st.ip].val
    ensures r.Next? && cmds[st.ip].kind !in {Plus, Minus, Zero} ==> r.st.tape == st.tape
    ensures r.Next? ==> st.out <= r.st.out
    ensures r.Next? && cmds[st.ip].kind !in {LoopStart, LoopEnd} ==> r.st.ip == st.ip + 1
  {
    var c := cmds[st.ip];
    var value := Cell(st.tape, st.dp);
    var ip := st.ip + 1;
    match c.kind
    case Left => if st.dp < c.val then Return else Next(st.(ip := ip, dp := st.dp - c.val))
    case Right => Next(st.(ip := ip, dp := st.dp + c.val))
    case Plus => Next(st.(ip := ip, tape := st.tape[st.dp := Cells.TruncRem(value + c.val)]))
    case Minus => Next(st.(ip := ip, tape := st.tape[st.dp := MinusCell(value, c.val)]))
    case Print => Next(st.(ip := ip, out := st.out + [value % 65536]))
    case Input => Next(st.(ip := ip))
    case LoopStart => Next(st.(ip := if value == 0 then c.val + 1 else ip))
    case LoopEnd => Next(st.(ip := if value != 0 then c.val + 1 else ip))
    case Zero => Next(st.(ip := ip, tape := st.tape[st.dp := 0]))
  }

  /** At most `fuel` steps from `st`. */
  function RunSpec(cmds: seq<Cmd>, st: State, fuel: nat): (o: Outcome)
    ensures o.Finished? ==> o.st.ip >= |cmds|
    ensures o.Returned? ==> o.st.ip < |cmds| && cmds[o.st.ip].kind == Left && o.st.dp < cmds[o.st.ip].val
    decreases fuel
  {
    if st.ip >= |cmds| then Finished(st)
    else if fuel == 0 then OutOfFuel(st)
    else match Step(cmds, st)
      case Return => Returned(st)
      case Next(st') => RunSpec(cmds, st', fuel - 1)
  }

  function Init(): State {
    State(0, 0, map[], [])
  }

  /** One pass of the loop of `run` from `st` with `f` passes left: either the run ends
      here with its outcome, or it goes on from `st'` with `f'` passes left. */
  method Advance(cmds: seq<Cmd>, st: State, f: nat) returns (stop: bool, o: Outcome, st': State, f': nat)
    requires st.ip < |cmds| && f > 0
    ensures stop ==> o == RunSpec(cmds, st, f)
    ensures !stop ==> f' < f && RunSpec(cmds, st', f') == RunSpec(cmds, st, f)
  {
    f' := f - 1;
    var r := Step(cmds, st);
    match r {
      case Return => return true, Returned(st), st, f';
      case Next(next) => return false, Finished(st), next, f';
    }
  }

  /** `run`, cut off after `fuel` commands. */
  method Run(cmds: seq<Cmd>, fuel: nat) returns (o: Outcome)
    ensures o == RunSpec(cmds, Init(), fuel)
  {
    var st := Init();
    var f := fuel;
    while st.ip < |cmds|
      invariant RunSpec(cmds, st, f) == RunSpec(cmds, Init(), fuel)
      decreases f
    {
      if f == 0 {
        return OutOfFuel(st);
      }
      var stop;
      stop, o, st, f := Advance(cmds, st, f);
      if stop {
        return;
      }
    }
    return Finished(st);
  }

  // ---------------------------------------------------------------------------
  // Properties

  /** `parse` exits exactly when some `]` finds no open `[`; otherwise it keeps the
      command kinds of the source. */
  lemma ExitIffUnmatchedEnd(src: seq<char>)
    ensures ParseSpec(src).Exit? <==> HasUnmatchedEnd(Kinds(Tokens(src)))
    ensures ParseSpec(src).Parsed? ==> Kinds(ParseSpec(src).cmds) == Kinds(Tokens(src))
  {
    MapTablesDefinedIff(Kinds(Tokens(src)));
  }

  /** The operands of a matched pair point at each other, and an unclosed `[` keeps 0. */
  lemma OperandsAreJumpTargets(src: seq<char>)
    requires ParseSpec(src).Parsed?
    ensures var cmds := ParseSpec(src).cmds; var ks := Kinds(cmds);
      && (forall s, e :: Matched(ks, s, e) ==> cmds[s].val == e && cmds[e].val == s)
      && (forall s :: 0 <= s < |cmds| && cmds[s].kind == LoopStart && s in Pending(ks) ==> cmds[s].val == 0)
  {
    var toks := Tokens(src);
    var ks := Kinds(toks);
    var t := MapTables(ks).value;
    var cmds := Patched(toks, t);
    assert ParseSpec(src).cmds == cmds;
    assert Kinds(cmds) == ks;
    MapTablesCorrect(ks);
    forall s, e | Matched(ks, s, e) ensures cmds[s].val == e && cmds[e].val == s {
      assert cmds[s] == PatchOne(toks[s], s, t);
      assert cmds[e] == PatchOne(toks[e], e, t);
    }
    forall s | 0 <= s < |cmds| && cmds[s].kind == LoopStart && s in Pending(ks) ensures cmds[s].val == 0 {
      assert cmds[s] == PatchOne(toks[s], s, t);
    }
  }

  /** In a parsed program a LoopStart on a zero cell resumes just after its partner, and a
      LoopEnd on a nonzero cell just after its own. */
  lemma LoopJumpsToPartner(src: seq<char>, st: State, s: nat, e: nat)
    requires ParseSpec(src).Parsed?
    requires Matched(Kinds(ParseSpec(src).cmds), s, e)
    ensures var cmds := ParseSpec(src).cmds;
      && (st.ip == s && Cell(st.tape, st.dp) == 0 ==> Step(cmds, st) == Next(st.(ip := e + 1)))
      && (st.ip == e && Cell(st.tape, st.dp) != 0 ==> Step(cmds, st) == Next(st.(ip := s + 1)))
  {
    OperandsAreJumpTargets(src);
  }

  /** MINUS is one short of 8-bit wrap-around whenever it wraps: 0 - 1 gives 254. */
  lemma MinusOffByOne(x: nat, v: nat)
    requires x < 256
    ensures v <= x ==> MinusCell(x, v) == Cells.SubByte(x, v)
    ensures x < v <= x + 256 ==> MinusCell(x, v) == Cells.SubByte(x, v) - 1
    ensures MinusCell(0, 1) == 254 && Cells.SubByte(0, 1) == 255
  {
    if x < v <= x + 256 {
      Cells.ModUnique(x - v, -1, x - v + 256);
    }
  }

  /** PLUS keeps a byte a byte, and MINUS stays at or above 0 only for `v <= x + 255`. */
  lemma CellRanges(x: nat, v: nat)
    requires x < 256
    ensures 0 <= Cells.TruncRem(x + v) < 256
    ensures 0 <= MinusCell(x, v) < 256 <==> v <= x + 255
  {
  }
}
