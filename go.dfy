/** The Go interpreter (go/main.go). Its parser keeps the jump targets in two maps and
    panics both on a `]` with no open `[` and on the `[` lookahead past the end. Its
    executor keeps a slice of `int` cells; a missing map key reads 0. */
module GoInterp {
  import opened Commands
  import opened Lexer
  import opened Brackets
  import Cells

  // ---------------------------------------------------------------------------
  // The parser

  datatype Program = Program(cmds: seq<Cmd>, startToEnd: map<nat, nat>, endToStart: map<nat, nat>)

  datatype ParseResult = Panic | Parsed(prog: Program)

  /** What `parse` does with `src`: it panics on a read past the end and on popping an
      empty stack of starts; otherwise it pairs the common commands. */
  function ParseSpec(src: seq<char>): ParseResult {
    var sc := Scan(Go, src, 0);
    match MapTables(Kinds(sc.tokens))
    case None => Panic
    case Some(t) => if sc.crashed then Panic else Parsed(Program(sc.tokens, t.startToEnd, t.endToStart))
  }

  /** The parser's state after the tokens `done`. */
  ghost predicate Parsing(commands: seq<Cmd>, starts: seq<nat>, t: Tables, done: seq<Cmd>) {
    && MapTables(Kinds(done)) == Some(t)
    && starts == Pending(Kinds(done))
    && commands == done
  }

  /** One pass of the parse loop from byte `i`; `panicked` is either panic. */
  method ParseAt(src: seq<char>, i: nat, commands: seq<Cmd>, starts: seq<nat>, t: Tables)
    returns (panicked: bool, next: nat, commands': seq<Cmd>, starts': seq<nat>, t': Tables)
    requires i < |src| && Parsing(commands, starts, t, commands)
    ensures i < next <= |src|
    ensures panicked ==> Scan(Go, src, i).crashed || MapTables(Kinds(commands + Scan(Go, src, i).tokens)).None?
    ensures !panicked ==>
      && Parsing(commands', starts', t', commands')
      && commands' + Scan(Go, src, next).tokens == commands + Scan(Go, src, i).tokens
      && Scan(Go, src, next).crashed == Scan(Go, src, i).crashed
  {
    var fault, lx := LexUnguarded(src, i);
    OpenTail(src, i);
    if fault {
      return true, i + 1, commands, starts, t;
    }
    ghost var rest := Scan(Go, src, lx.next);
    assert Scan(Go, src, i).tokens == (if lx.Emit? then [lx.cmd] else []) + rest.tokens;
    next := lx.next;
    if lx.Skip? {
      return false, next, commands, starts, t;
    }
    var ok;
    KindsSnoc(commands, lx.cmd);
    ok, starts', t' := Track(lx.cmd.kind, |commands|, starts, t, Kinds(commands));
    commands' := commands + [lx.cmd];
    assert commands + Scan(Go, src, i).tokens == commands' + rest.tokens;
    if !ok {
      MapTablesNoneStays(Kinds(commands'), Kinds(rest.tokens));
      KindsConcat(commands', rest.tokens);
      return true, next, commands, starts, t;
    }
    panicked := false;
  }

  /** `parse`. */
  method Parse(src: seq<char>) returns (r: ParseResult)
    ensures r == ParseSpec(src)
  {
    var commands: seq<Cmd> := [];
    var starts: seq<nat> := [];
    var t := Tables(map[], map[]);
    ghost var whole := Scan(Go, src, 0);
    assert Kinds(commands) == [];
    var i := 0;
    while i < |src|
      invariant i <= |src|
      invariant commands + Scan(Go, src, i).tokens == whole.tokens
      invariant Scan(Go, src, i).crashed == whole.crashed
      invariant Parsing(commands, starts, t, commands)
      decreases |src| - i
    {
      var panicked, next, commands', starts', t' := ParseAt(src, i, commands, starts, t);
      if panicked {
        return Panic;
      }
      i, commands, starts, t := next, commands', starts', t';
    }
    assert Scan(Go, src, i) == Scanned([], false);
    assert commands == whole.tokens;
    r := Parsed(Program(commands, t.startToEnd, t.endToStart));
  }

  // ---------------------------------------------------------------------------
  // The executor

  /** The machine between two commands; `out` holds the values printed with `%c`. */
  datatype State = State(ip: nat, dp: nat, tape: seq<int>, out: seq<int>)

  datatype StepResult = Next(st: State) | Return

  datatype Outcome = Finished(st: State) | Returned(st: State) | OutOfFuel(st: State)

  predicate Sound(st: State) {
    st.dp < |st.tape|
  }

  function Init(): State {
    State(0, 0, [0], [])
  }

  /** MINUS as written: 256 is added once when the difference is negative. */
  function MinusCell(x: int, v: nat): int {
    var d := x - v;
    if d < 0 then d + 256 else d
  }

  /** The cells after RIGHT moved the pointer to `dp`: `dp - len + 2` zeros are appended
      when `dp` is past the end. */
  function Grow(tape: seq<int>, dp: nat): (t: seq<int>)
    ensures dp < |t| && |tape| <= |t| && t[..|tape|] == tape
    ensures |tape| <= dp ==> |t| == dp + 2
    ensures |tape| > dp ==> t == tape
    ensures forall k :: |tape| <= k < |t| ==> t[k] == 0
  {
    if |tape| <= dp then tape + Zeros(dp - |tape| + 2) else tape
  }

  /** A missing map key reads 0, as Go's map index does. */
  function Lookup(m: map<nat, nat>, k: nat): nat {
    if k in m then m[k] else 0
  }

  /** One pass of the loop of `run`. */
  function Step(p: Program, st: State): (r: StepResult)
    requires st.ip < |p.cmds| && Sound(st)
    ensures r.Next? ==> Sound(r.st)
    ensures r.Return? <==> p.cmds[st.ip].kind == Left && st.dp < p.cmds[st.ip].val
    ensures r.Next? && p.cmds[st.ip].kind !in {LoopStart, LoopEnd} ==> r.st.ip == st.ip + 1
    ensures r.Next? ==> st.out <= r.st.out && |r.st.tape| >= |st.tape|
    ensures r.Next? ==> forall k :: 0 <= k < |st.tape| && k != st.dp ==> r.st.tape[k] == st.tape[k]
  {
    var c := p.cmds[st.ip];
    var cell := st.tape[st.dp];
    var ip := st.ip + 1;
    match c.kind
    case Left => if st.dp < c.val then Return else Next(st.(ip := ip, dp := st.dp - c.val))
    case Right =>
      var dp := st.dp + c.val;
      Next(st.(ip := ip, dp := dp, tape := Grow(st.tape, dp)))
    case Plus => Next(st.(ip := ip, tape := st.tape[st.dp := Cells.TruncRem(cell + c.val)]))
    case Minus => Next(st.(ip := ip, tape := st.tape[st.dp := MinusCell(cell, c.val)]))
    case Print => Next(st.(ip := ip, out := st.out + [cell]))
    case Input => Next(st.(ip := ip))
    case LoopStart => Next(st.(ip := if cell == 0 then Lookup(p.startToEnd, st.ip) + 1 else ip))
    case LoopEnd => Next(st.(ip := if cell != 0 then Lookup(p.endToStart, st.ip) + 1 else ip))
    case Zero => Next(st.(ip := ip, tape := st.tape[st.dp := 0]))
  }

  /** At most `fuel` passes of `for ip < len(commands)` from `st`. */
  function RunSpec(p: Program, st: State, fuel: nat): (o: Outcome)
    requires Sound(st)
    ensures Sound(o.st)
    ensures o.Finished? ==> o.st.ip >= |p.cmds|
    ensures o.Returned? ==> o.st.ip < |p.cmds| && p.cmds[o.st.ip].kind == Left
    decreases fuel
  {
    if st.ip >= |p.cmds| then Finished(st)
    else if fuel == 0 then OutOfFuel(st)
    else match Step(p, st)
      case Return => Returned(st)
      case Next(st') => RunSpec(p, st', fuel - 1)
  }

  /** The growth step of RIGHT: one zero is appended per pass until the slice reaches
      `dp + 2` cells. */
  method GrowSlice(data: seq<int>, dp: nat) returns (data': seq<int>)
    ensures data' == Grow(data, dp)
  {
    data' := data;
    if |data| <= dp {
      var n := dp - |data|;
      var k := 0;
      while k <= n + 1
        invariant 0 <= k <= n + 2
        invariant data' == data + Zeros(k)
      {
        data' := data' + [0];
        k := k + 1;
      }
    }
  }

  /** The body of the loop of `run` for the command at `ip`. */
  method Exec(p: Program, ip: nat, dp: nat, data: seq<int>, out: seq<int>) returns (r: StepResult)
    requires ip < |p.cmds| && dp < |data|
    ensures r == Step(p, State(ip, dp, data, out))
  {
    var ip, dp, data, out := ip, dp, data, out;
    var c := p.cmds[ip];
    match c.kind {
      case Left =>
        if dp < c.val {
          return Return;
        }
        dp := dp - c.val;
      case Right =>
        dp := dp + c.val;
        data := GrowSlice(data, dp);
      case Plus =>
        data := data[dp := Cells.TruncRem(data[dp] + c.val)];
      case Minus =>
        data := data[dp := data[dp] - c.val];
        if data[dp] < 0 {
          data := data[dp := data[dp] + 256];
        }
      case Print =>
        out := out + [data[dp]];
      case Input =>
      case LoopStart =>
        if data[dp] == 0 {
          ip := if ip in p.startToEnd then p.startToEnd[ip] else 0;
        }
      case LoopEnd =>
        if data[dp] != 0 {
          ip := if ip in p.endToStart then p.endToStart[ip] else 0;
        }
      case Zero =>
        data := data[dp := 0];
    }
    return Next(State(ip + 1, dp, data, out));
  }

  /** `run`, cut off after `fuel` commands. */
  method Run(p: Program, fuel: nat) returns (o: Outcome)
    ensures o == RunSpec(p, Init(), fuel)
  {
    var st := Init();
    var f := fuel;
    while st.ip < |p.cmds|
      invariant Sound(st)
      invariant RunSpec(p, st, f) == RunSpec(p, Init(), fuel)
      decreases f
    {
      if f == 0 {
        return OutOfFuel(st);
      }
      var r := Exec(p, st.ip, st.dp, st.tape, st.out);
      if r.Return? {
        return Returned(st);
      }
      st := r.st;
      f := f - 1;
    }
    return Finished(st);
  }

  // ---------------------------------------------------------------------------
  // Properties

  /** `parse` panics exactly when the source ends in `[` or `[-`, or some `]` finds no
      open `[`; otherwise it keeps the common commands with their counts. */
  lemma PanicIff(src: seq<char>)
    ensures ParseSpec(src).Panic? <==> EndsInOpenLookahead(src) || HasUnmatchedEnd(Kinds(Tokens(src)))
    ensures ParseSpec(src).Parsed? ==> ParseSpec(src).prog.cmds == Tokens(src)
  {
    var sc := Scan(Go, src, 0);
    CAndGoFaultIffEndsOpen(Go, src);
    MapTablesDefinedIff(Kinds(sc.tokens));
    if !sc.crashed {
      ScanAgreesWhenNoCrash(Go, src, 0);
      MapTablesDefinedIff(Kinds(Tokens(src)));
    }
  }

  /** In a parsed program a matched bracket jumps past its partner, while an unclosed `[`
      on a zero cell reads the missing key as 0 and resumes at command 1. */
  lemma LoopJumps(src: seq<char>, st: State)
    requires ParseSpec(src).Parsed?
    requires st.ip < |ParseSpec(src).prog.cmds| && Sound(st)
    ensures var p := ParseSpec(src).prog; var ks := Kinds(p.cmds);
      && (forall e :: Matched(ks, st.ip, e) && st.tape[st.dp] == 0 ==> Step(p, st) == Next(st.(ip := e + 1)))
      && (forall s :: Matched(ks, s, st.ip) && st.tape[st.dp] != 0 ==> Step(p, st) == Next(st.(ip := s + 1)))
      && (ks[st.ip] == LoopStart && st.ip in Pending(ks) && st.tape[st.dp] == 0 ==> Step(p, st) == Next(st.(ip := 1)))
  {
    var p := ParseSpec(src).prog;
    MapTablesCorrect(Kinds(Scan(Go, src, 0).tokens));
    assert Kinds(p.cmds) == Kinds(Scan(Go, src, 0).tokens);
  }

  /** MINUS agrees with 8-bit wrap-around exactly when the operand is at most 256 above
      the cell; past that the cell stays negative, as in 0 - 300 giving -44. */
  lemma MinusWrapsOnce(x: int, v: nat)
    requires 0 <= x < 256
    ensures MinusCell(x, v) == Cells.SubByte(x, v) <==> v <= x + 256
    ensures v > x + 256 ==> MinusCell(x, v) < 0
  {
    if v <= x + 256 && x < v {
      Cells.ModUnique(x - v, -1, x - v + 256);
    }
  }

  /** The run of 300 `-` from a zero cell leaves -44. */
  lemma MinusLeavesNegative(x: int, v: nat)
    requires x == 0 && v == 300
    ensures MinusCell(x, v) == -44 && Cells.SubByte(x, v) == 212
  {
    Cells.ModUnique(x - v, -2, 212);
  }
}
