/** The Rust interpreter (r_st/src/main.rs). Its parser keeps the jump targets in two
    maps, stores every operand as a `u8`, returns None on a `]` with no open `[`, and
    panics on the reads past the end described in Lexer.CrashAt. Its executor keeps a
    vector of `u8` cells that grows on demand and reads input bytes. */
module RsInterp {
  import opened Commands
  import opened Lexer
  import opened Brackets
  import Cells

  // ---------------------------------------------------------------------------
  // Lexing as written

  /** The run loop's condition as written, `(i < len && b[i] == neg) || b[i] == pos`:
      None where it indexes `b[len]` and panics. It is the intended condition
      everywhere else. */
  function RunCondition(src: seq<char>, j: nat, neg: char, pos: char): (r: Option<bool>)
    ensures r.None? <==> j >= |src|
    ensures j < |src| ==> r == Some(src[j] == neg || src[j] == pos)
  {
    if j < |src| && src[j] == neg then Some(true)
    else if j >= |src| then None
    else Some(src[j] == pos)
  }

  /** The run loop as written: it panics exactly when the run reaches the end of the
      input, and otherwise ends where the intended loop ends with the same net count. */
  method ScanRunAsWritten(src: seq<char>, i: nat, neg: char, pos: char) returns (panicked: bool, j: nat, cnt: int)
    requires i < |src| && (src[i] == neg || src[i] == pos)
    ensures panicked <==> RunEnd(src, i, neg, pos) == |src|
    ensures !panicked ==> j == RunEnd(src, i, neg, pos) && cnt == Net(src[i..j], neg, pos)
  {
    j, cnt := i, 0;
    while true
      invariant i <= j <= |src|
      invariant RunEnd(src, j, neg, pos) == RunEnd(src, i, neg, pos)
      invariant cnt == Net(src[i..j], neg, pos)
      decreases |src| - j
    {
      var cond := RunCondition(src, j, neg, pos);
      if cond.None? {
        return true, j, cnt;
      }
      if !cond.value {
        break;
      }
      RunExtends(src, i, j, neg, pos);
      if src[j] == neg {
        cnt := cnt - 1;
      } else {
        cnt := cnt + 1;
      }
      j := j + 1;
    }
    panicked := false;
  }

  /** One token as the Rust parser reads it: `fault` is the panic, and otherwise the
      token is the common one. */
  method LexAsWritten(src: seq<char>, i: nat) returns (fault: bool, lx: Lexeme)
    requires i < |src|
    ensures fault == CrashAt(Rs, src, i)
    ensures !fault ==> lx == LexAt(src, i)
  {
    var c := src[i];
    if c == '<' || c == '>' {
      var panicked, j, cnt := ScanRunAsWritten(src, i, '<', '>');
      return panicked, Emit(Collapse(cnt, Left, Right), j);
    } else if c == '+' || c == '-' {
      var panicked, j, cnt := ScanRunAsWritten(src, i, '-', '+');
      return panicked, Emit(Collapse(cnt, Minus, Plus), j);
    }
    fault, lx := LexUnguarded(src, i);
    OpenTail(src, i);
  }

  // ---------------------------------------------------------------------------
  // The parser

  datatype Program = Program(cmds: seq<Cmd>, startToEnd: map<nat, nat>, endToStart: map<nat, nat>)

  /** `NoParse` is the None of `parse_input`; `ParsePanic` a panic inside it. */
  datatype ParseResult = NoParse | ParsePanic | Parsed(prog: Program)

  /** The `u8` operand: `cnt as u8` keeps the count modulo 256. */
  function Truncate(c: Cmd): (r: Cmd)
    ensures r.kind == c.kind && r.val < 256 && (r.val - c.val) % 256 == 0
  {
    Cmd(c.kind, c.val % 256)
  }

  function TruncateAll(cmds: seq<Cmd>): (r: seq<Cmd>)
    ensures |r| == |cmds| && Kinds(r) == Kinds(cmds)
    ensures forall k :: 0 <= k < |r| ==> r[k].val < 256
  {
    seq(|cmds|, k requires 0 <= k < |cmds| => Truncate(cmds[k]))
  }

  lemma TruncateSnoc(cmds: seq<Cmd>, c: Cmd)
    ensures TruncateAll(cmds + [c]) == TruncateAll(cmds) + [Truncate(c)]
  {
    var l, r := TruncateAll(cmds + [c]), TruncateAll(cmds) + [Truncate(c)];
    forall k | 0 <= k < |l| ensures l[k] == r[k] {
      if k < |cmds| {
        assert (cmds + [c])[k] == cmds[k];
      }
    }
  }

  /** What `parse_input` does with `src`: the tokens up to the first panic, paired by the
      bracket stack; a `]` that finds the stack empty comes before any later panic. */
  function ParseSpec(src: seq<char>): ParseResult {
    var sc := Scan(Rs, src, 0);
    match MapTables(Kinds(sc.tokens))
    case None => NoParse
    case Some(t) =>
      if sc.crashed then ParsePanic
      else Parsed(Program(TruncateAll(sc.tokens), t.startToEnd, t.endToStart))
  }

  /** The parser's state after the tokens `done`. */
  ghost predicate Parsing(commands: seq<Cmd>, starts: seq<nat>, t: Tables, done: seq<Cmd>) {
    && MapTables(Kinds(done)) == Some(t)
    && starts == Pending(Kinds(done))
    && commands == TruncateAll(done)
  }

  /** One pass of the parse loop from byte `i`. `stop` is None to go on, `NoParse` when a
      `]` found the stack empty, `ParsePanic` on a read past the end. */
  method ParseAt(src: seq<char>, i: nat, commands: seq<Cmd>, starts: seq<nat>, t: Tables, ghost done: seq<Cmd>)
    returns (stop: Option<ParseResult>, next: nat, commands': seq<Cmd>, starts': seq<nat>, t': Tables, ghost done': seq<Cmd>)
    requires i < |src| && Parsing(commands, starts, t, done)
    ensures i < next <= |src|
    ensures stop == None || stop == Some(NoParse) || stop == Some(ParsePanic)
    ensures stop == Some(ParsePanic) ==> Scan(Rs, src, i) == Scanned([], true)
    ensures stop == Some(NoParse) ==> MapTables(Kinds(done + Scan(Rs, src, i).tokens)).None?
    ensures stop == None ==>
      && Parsing(commands', starts', t', done')
      && done' + Scan(Rs, src, next).tokens == done + Scan(Rs, src, i).tokens
      && Scan(Rs, src, next).crashed == Scan(Rs, src, i).crashed
  {
    var fault, lx := LexAsWritten(src, i);
    if fault {
      return Some(ParsePanic), i + 1, commands, starts, t, done;
    }
    ghost var rest := Scan(Rs, src, lx.next);
    assert Scan(Rs, src, i).tokens == (if lx.Emit? then [lx.cmd] else []) + rest.tokens;
    next := lx.next;
    if lx.Skip? {
      return None, next, commands, starts, t, done;
    }
    var ok;
    KindsSnoc(done, lx.cmd);
    ok, starts', t' := Track(lx.cmd.kind, |commands|, starts, t, Kinds(done));
    done' := done + [lx.cmd];
    assert done + Scan(Rs, src, i).tokens == done' + rest.tokens;
    if !ok {
      MapTablesNoneStays(Kinds(done'), Kinds(rest.tokens));
      KindsConcat(done', rest.tokens);
      return Some(NoParse), next, commands, starts, t, done;
    }
    TruncateSnoc(done, lx.cmd);
    commands' := commands + [Truncate(lx.cmd)];
    stop := None;
  }

  /** `parse_input`. */
  method Parse(src: seq<char>) returns (r: ParseResult)
    ensures r == ParseSpec(src)
  {
    var commands: seq<Cmd> := [];
    var starts: seq<nat> := [];
    var t := Tables(map[], map[]);
    ghost var done: seq<Cmd> := [];
    ghost var whole := Scan(Rs, src, 0);
    assert Kinds(done) == [] && TruncateAll(done) == [];
    var i := 0;
    while i < |src|
      invariant i <= |src|
      invariant done + Scan(Rs, src, i).tokens == whole.tokens
      invariant Scan(Rs, src, i).crashed == whole.crashed
      invariant Parsing(commands, starts, t, done)
      decreases |src| - i
    {
      var stop, next, commands', starts', t';
      ghost var done';
      stop, next, commands', starts', t', done' := ParseAt(src, i, commands, starts, t, done);
      if stop == Some(ParsePanic) {
        assert done == whole.tokens;
        return ParsePanic;
      } else if stop == Some(NoParse) {
        return NoParse;
      }
      i, commands, starts, t, done := next, commands', starts', t', done';
    }
    assert Scan(Rs, src, i) == Scanned([], false);
    assert done == whole.tokens;
    r := Parsed(Program(commands, t.startToEnd, t.endToStart));
  }

  // ---------------------------------------------------------------------------
  // The executor

  /** The machine between two commands: `tape` is the `u8` vector, `input` the bytes not
      yet read, `out` the bytes printed. */
  datatype State = State(ip: nat, dp: nat, tape: seq<nat>, input: seq<nat>, out: seq<nat>)

  /** `Eof` is the `break` on exhausted input; `Crash` a panic. */
  datatype StepResult = Next(st: State) | Return | Eof | Crash

  datatype Outcome =
    | Finished(st: State)
    | Returned(st: State)
    | EndOfInput(st: State)
    | Panicked(st: State)
    | OutOfFuel(st: State)

  /** The cell under the pointer exists, and cells and unread input are bytes. */
  ghost predicate Sound(st: State) {
    && st.dp < |st.tape|
    && (forall k :: 0 <= k < |st.tape| ==> st.tape[k] < 256)
    && (forall k :: 0 <= k < |st.input| ==> st.input[k] < 256)
  }

  function Init(input: seq<nat>): State {
    State(0, 0, [0], input, [])
  }

  /** One pass of the loop of `run`. */
  function Step(p: Program, st: State): (r: StepResult)
    requires st.ip < |p.cmds| && Sound(st)
    ensures r.Next? ==> Sound(r.st)
  {
    var c := p.cmds[st.ip];
    var cell := st.tape[st.dp];
    var ip := st.ip + 1;
    match c.kind
    case Left => if st.dp < c.val then Return else Next(st.(ip := ip, dp := st.dp - c.val))
    case Right =>
      var dp := st.dp + c.val;
      Next(st.(ip := ip, dp := dp, tape := if |st.tape| <= dp then st.tape + Zeros(dp - |st.tape| + 1) else st.tape))
    case Plus => Next(st.(ip := ip, tape := st.tape[st.dp := Cells.AddByte(cell, c.val)]))
    case Minus => Next(st.(ip := ip, tape := st.tape[st.dp := Cells.SubByte(cell, c.val)]))
    case Print => Next(st.(ip := ip, out := st.out + [cell]))
    case Input =>
      if st.input == [] then Eof
      else Next(st.(ip := ip, tape := st.tape[st.dp := st.input[0]], input := st.input[1..]))
    case LoopStart =>
      if cell != 0 then Next(st.(ip := ip))
      else if st.ip in p.startToEnd then Next(st.(ip := p.startToEnd[st.ip] + 1))
      else Crash
    case LoopEnd =>
      if cell == 0 then Next(st.(ip := ip))
      else if st.ip in p.endToStart then Next(st.(ip := p.endToStart[st.ip] + 1))
      else Crash
    case Zero => Next(st.(ip := ip, tape := st.tape[st.dp := 0]))
  }

  /** How one pass of the loop can end: LEFT past cell 0 returns, INPUT with nothing left
      breaks, a jump whose key is missing panics, and nothing else stops the run. */
  lemma StepOutcomes(p: Program, st: State)
    requires st.ip < |p.cmds| && Sound(st)
    ensures var c, r := p.cmds[st.ip], Step(p, st);
      && (r.Return? <==> c.kind == Left && st.dp < c.val)
      && (r.Eof? <==> c.kind == Input && st.input == [])
      && (r.Crash? <==>
           || (c.kind == LoopStart && st.tape[st.dp] == 0 && st.ip !in p.startToEnd)
           || (c.kind == LoopEnd && st.tape[st.dp] != 0 && st.ip !in p.endToStart))
  {
  }

  /** A jump taken through a key that is present resumes just after the command it maps to. */
  lemma StepJumps(p: Program, st: State)
    requires st.ip < |p.cmds| && Sound(st)
    ensures var c, cell := p.cmds[st.ip], st.tape[st.dp];
      && (c.kind == LoopStart && cell == 0 && st.ip in p.startToEnd ==>
            Step(p, st) == Next(st.(ip := p.startToEnd[st.ip] + 1)))
      && (c.kind == LoopEnd && cell != 0 && st.ip in p.endToStart ==>
            Step(p, st) == Next(st.(ip := p.endToStart[st.ip] + 1)))
  {
  }

  /** What one pass that goes on changes: `ip` moves to the next command unless a jump is
      taken, output only grows, the tape only grows (to exactly `dp + 1` cells when RIGHT
      passes its end), and only the cell under the pointer can change. */
  lemma StepEffects(p: Program, st: State)
    requires st.ip < |p.cmds| && Sound(st)
    ensures var c, r := p.cmds[st.ip], Step(p, st);
      r.Next? ==>
        && (c.kind !in {LoopStart, LoopEnd} ==> r.st.ip == st.ip + 1)
        && st.out <= r.st.out && |r.st.tape| >= |st.tape|
        && (c.kind == Right && st.dp + c.val >= |st.tape| ==> |r.st.tape| == r.st.dp + 1)
        && (forall k :: 0 <= k < |st.tape| && k != st.dp ==> r.st.tape[k] == st.tape[k])
  {
  }

  /** At most `fuel` passes of `while ip != len` from `st`; an `ip` past the end panics
      on the index. */
  function RunSpec(p: Program, st: State, fuel: nat): (o: Outcome)
    requires Sound(st)
    ensures Sound(o.st)
    ensures o.Finished? ==> o.st.ip == |p.cmds|
    ensures o.EndOfInput? ==> o.st.input == []
    decreases fuel
  {
    if st.ip == |p.cmds| then Finished(st)
    else if fuel == 0 then OutOfFuel(st)
    else if st.ip > |p.cmds| then Panicked(st)
    else match Step(p, st)
      case Return => Returned(st)
      case Eof => EndOfInput(st)
      case Crash => Panicked(st)
      case Next(st') => RunSpec(p, st', fuel - 1)
  }

  /** One pass of the loop of `run` from `st` with `f` passes left: either the run ends
      here with its outcome, or it goes on from `st'` with `f'` passes left. */
  method Advance(p: Program, st: State, f: nat) returns (stop: bool, o: Outcome, st': State, f': nat)
    requires st.ip < |p.cmds| && Sound(st) && f > 0
    ensures stop ==> o == RunSpec(p, st, f)
    ensures !stop ==> Sound(st') && f' < f && RunSpec(p, st', f') == RunSpec(p, st, f)
  {
    f' := f - 1;
    var r := Step(p, st);
    match r {
      case Return => return true, Returned(st), st, f';
      case Eof => return true, EndOfInput(st), st, f';
      case Crash => return true, Panicked(st), st, f';
      case Next(next) => return false, Finished(st), next, f';
    }
  }

  /** `run`, cut off after `fuel` commands. */
  method Run(p: Program, input: seq<nat>, fuel: nat) returns (o: Outcome)
    requires forall k :: 0 <= k < |input| ==> input[k] < 256
    ensures o == RunSpec(p, Init(input), fuel)
  {
    var st := Init(input);
    var f := fuel;
    while st.ip != |p.cmds|
      invariant Sound(st)
      invariant RunSpec(p, st, f) == RunSpec(p, Init(input), fuel)
      decreases f
    {
      if f == 0 {
        return OutOfFuel(st);
      }
      if st.ip > |p.cmds| {
        return Panicked(st);
      }
      var stop;
      stop, o, st, f := Advance(p, st, f);
      if stop {
        return;
      }
    }
    return Finished(st);
  }

  /** What `feval` does: nothing runs unless the source parses. */
  datatype Evaluation = NotParsed | ParsePanicked | Ran(o: Outcome)

  /** `feval`. */
  method Feval(src: seq<char>, input: seq<nat>, fuel: nat) returns (e: Evaluation)
    requires forall k :: 0 <= k < |input| ==> input[k] < 256
    ensures e.NotParsed? <==> ParseSpec(src).NoParse?
    ensures e.ParsePanicked? <==> ParseSpec(src).ParsePanic?
    ensures ParseSpec(src).Parsed? ==> e == Ran(RunSpec(ParseSpec(src).prog, Init(input), fuel))
  {
    var parsed := Parse(src);
    match parsed {
      case NoParse => return NotParsed;
      case ParsePanic => return ParsePanicked;
      case Parsed(prog) =>
        var o := Run(prog, input, fuel);
        return Ran(o);
    }
  }

  // ---------------------------------------------------------------------------
  // Properties

  /** `parse_input` gives None exactly when a `]` before any panic finds no open `[`; it
      panics exactly when, short of that, the source ends in a run byte or in an open
      lookahead; otherwise it keeps the common commands with their counts modulo 256. */
  lemma ParseOutcomes(src: seq<char>)
    ensures ParseSpec(src).NoParse? <==> HasUnmatchedEnd(Kinds(Scan(Rs, src, 0).tokens))
    ensures ParseSpec(src).ParsePanic? <==>
      !HasUnmatchedEnd(Kinds(Scan(Rs, src, 0).tokens)) && |src| > 0 && src[|src| - 1] in "<>+-["
    ensures ParseSpec(src).Parsed? ==>
      var cmds, toks := ParseSpec(src).prog.cmds, Tokens(src);
      && |cmds| == |toks|
      && (forall k :: 0 <= k < |cmds| ==> cmds[k].kind == toks[k].kind && cmds[k].val == toks[k].val % 256)
  {
    var sc := Scan(Rs, src, 0);
    MapTablesDefinedIff(Kinds(sc.tokens));
    RustFaultIffEndsInRunOrOpen(src);
    if ParseSpec(src).Parsed? {
      ScanAgreesWhenNoCrash(Rs, src, 0);
    }
  }

  /** The maps of a parsed program hold exactly its matched pairs, and every LoopEnd is a
      key of `endToStart`. */
  lemma ParsedMapsArePairs(src: seq<char>)
    requires ParseSpec(src).Parsed?
    ensures var p := ParseSpec(src).prog; var ks := Kinds(p.cmds);
      && (forall s, e :: Matched(ks, s, e) <==> s in p.startToEnd && p.startToEnd[s] == e)
      && (forall s, e :: Matched(ks, s, e) <==> e in p.endToStart && p.endToStart[e] == s)
      && (forall e :: 0 <= e < |ks| && ks[e] == LoopEnd ==> e in p.endToStart)
      && (forall s :: s in p.startToEnd <==> 0 <= s < |ks| && ks[s] == LoopStart && s !in Pending(ks))
  {
    MapTablesCorrect(Kinds(Scan(Rs, src, 0).tokens));
  }

  /** In a parsed program a LoopEnd never panics and a matched LoopStart jumps past its
      partner; only an unclosed `[` reached with a zero cell panics. */
  lemma LoopsInParsedPrograms(src: seq<char>, st: State)
    requires ParseSpec(src).Parsed?
    requires st.ip < |ParseSpec(src).prog.cmds| && Sound(st)
    ensures var p := ParseSpec(src).prog; var ks := Kinds(p.cmds);
      && (Step(p, st).Crash? <==> ks[st.ip] == LoopStart && st.tape[st.dp] == 0 && st.ip in Pending(ks))
      && (forall e :: Matched(ks, st.ip, e) && st.tape[st.dp] == 0 ==> Step(p, st) == Next(st.(ip := e + 1)))
      && (forall s :: Matched(ks, s, st.ip) && st.tape[st.dp] != 0 ==> Step(p, st) == Next(st.(ip := s + 1)))
  {
    var p := ParseSpec(src).prog;
    var ks := Kinds(p.cmds);
    StepOutcomes(p, st);
    StepJumps(p, st);
    ParsedMapsArePairs(src);
  }

  /** The source `+` cannot be parsed: its run reaches the end, so the loop condition
      reads one byte past it. */
  lemma TrailingRunPanics(src: seq<char>)
    requires src == "+"
    ensures ParseSpec(src).ParsePanic?
    ensures RunCondition(src, 1, '-', '+').None?
  {
    assert RunEnd(src, 1, '-', '+') == 1;
    assert CrashAt(Rs, src, 0);
  }
}
