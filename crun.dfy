/** The executor of the C interpreter (`run` in c/main.c). Cells are `uint16_t` slots of
    an `int_vec`; `ip` advances by one after every command, jumps included. */
module CRun {
  import opened Commands
  import opened Lexer
  import opened Brackets
  import opened CVec
  import opened CParser
  import Cells

  /** The machine between two commands; `out` holds the bytes written so far. */
  datatype State = State(ip: nat, dp: nat, tape: seq<nat>, out: seq<nat>)

  /** A step continues, returns early (LEFT past cell 0), or reads a jump-table slot
      beyond the table's capacity (undefined behaviour). */
  datatype StepResult = Next(st: State) | Return | BadRead

  /** How a bounded run ends. */
  datatype Outcome = Finished(st: State) | Returned(st: State) | Faulted(st: State) | OutOfFuel(st: State)

  /** The data pointer is inside the tape and every cell fits in 16 bits. */
  predicate Sound(st: State) {
    st.dp < |st.tape| && forall k :: 0 <= k < |st.tape| ==> st.tape[k] < 65536
  }

  function Init(): (st: State)
    ensures Sound(st)
  {
    State(0, 0, [0], [])
  }

  /** MINUS as written: the `uint16_t` cell stores the difference modulo 65536, then
      256 is added when the stored value equals itself minus `val`. */
  function SubStored(x: nat, v: nat): (r: nat)
    ensures r < 65536
  {
    var y := (x - v) % 65536;
    if y == y - v then (y + 256) % 65536 else y
  }

  /** The cells after RIGHT moved the pointer to `dp`: `dp - len + 2` zeros are pushed
      when `dp` is past the end. */
  function Grow(tape: seq<nat>, dp: nat): (t: seq<nat>)
    ensures dp < |t| && |tape| <= |t| && t[..|tape|] == tape
    ensures |tape| <= dp ==> |t| == dp + 2
    ensures forall k :: |tape| <= k < |t| ==> t[k] == 0
  {
    if |tape| <= dp then tape + Zeros(dp - |tape| + 2) else tape
  }

  /** One pass of the loop of `run`. */
  function Step(p: Program, st: State): (r: StepResult)
    requires st.ip < |p.cmds| && Sound(st)
    ensures r.Next? ==> Sound(r.st)
    ensures r.Return? <==> p.cmds[st.ip].kind == Left && st.dp < p.cmds[st.ip].val
    ensures r.BadRead? ==> p.cmds[st.ip].kind in {LoopStart, LoopEnd}
    ensures r.Next? ==> |st.tape| <= |r.st.tape| && st.out <= r.st.out
    ensures r.Next? ==> forall k :: 0 <= k < |st.tape| && k != st.dp ==> r.st.tape[k] == st.tape[k]
    ensures r.Next? && p.cmds[st.ip].kind == Plus ==> r.st.tape[st.dp] < 256
    ensures r.Next? && p.cmds[st.ip].kind !in {LoopStart, LoopEnd} ==> r.st.ip == st.ip + 1
  {
    var c := p.cmds[st.ip];
    var x := st.tape[st.dp];
    var ip := st.ip + 1;
    match c.kind
    case Left => if st.dp < c.val then Return else Next(st.(ip := ip, dp := st.dp - c.val))
    case Right =>
      var dp := st.dp + c.val;
      Next(st.(ip := ip, dp := dp, tape := Grow(st.tape, dp)))
    case Plus => Next(st.(ip := ip, tape := st.tape[st.dp := (x + c.val) % 256]))
    case Minus => Next(st.(ip := ip, tape := st.tape[st.dp := SubStored(x, c.val)]))
    case Print => Next(st.(ip := ip, out := st.out + [x % 256]))
    case Input => Next(st.(ip := ip))
    case LoopStart =>
      if x != 0 then Next(st.(ip := ip))
      else if st.ip < |p.startToEnd| then Next(st.(ip := p.startToEnd[st.ip] + 1))
      else BadRead
    case LoopEnd =>
      if x == 0 then Next(st.(ip := ip))
      else if st.ip < |p.endToStart| then Next(st.(ip := p.endToStart[st.ip] + 1))
      else BadRead
    case Zero => Next(st.(ip := ip, tape := st.tape[st.dp := 0]))
  }

  /** At most `fuel` steps from `st`. */
  function RunSpec(p: Program, st: State, fuel: nat): (o: Outcome)
    requires Sound(st)
    ensures Sound(o.st)
    ensures o.Finished? ==> o.st.ip >= |p.cmds|
    decreases fuel
  {
    if st.ip >= |p.cmds| then Finished(st)
    else if fuel == 0 then OutOfFuel(st)
    else match Step(p, st)
      case Return => Returned(st)
      case BadRead => Faulted(st)
      case Next(st') => RunSpec(p, st', fuel - 1)
  }

  /** The RIGHT branch's loop: push zeros until the vector has `dp + 2` cells. */
  method GrowTape(data: IntVec, dp: nat)
    requires data.Valid()
    modifies data, data.items
    ensures data.Valid() && (data.items == old(data.items) || fresh(data.items))
    ensures data.Contents() == Grow(old(data.Contents()), dp)
  {
    if data.len <= dp {
      ghost var tape := data.Contents();
      var n := dp - data.len;
      var k := 0;
      while k <= n + 1
        invariant 0 <= k <= n + 2
        invariant data.Valid() && (data.items == old(data.items) || fresh(data.items))
        invariant data.Contents() == tape + Zeros(k)
      {
        data.Push(0);
        k := k + 1;
      }
    }
  }

  /** The loop body of `run`, acting on the `data` vector in place. */
  method Exec(p: Program, data: IntVec, ip: nat, dp: nat, out: seq<nat>)
    returns (r: StepResult)
    requires data.Valid() && ip < |p.cmds| && Sound(State(ip, dp, data.Contents(), out))
    modifies data, data.items
    ensures data.Valid() && (data.items == old(data.items) || fresh(data.items))
    ensures r == Step(p, State(ip, dp, old(data.Contents()), out))
    ensures r.Next? ==> r.st.tape == data.Contents()
  {
    ghost var st := State(ip, dp, data.Contents(), out);
    var c := p.cmds[ip];
    var ip', dp', out' := ip + 1, dp, out;
    match c.kind {
      case Left =>
        if dp < c.val {
          r := Return;
          return;
        }
        dp' := dp - c.val;
      case Right =>
        dp' := dp + c.val;
        GrowTape(data, dp');
      case Plus =>
        data.items[dp] := (data.items[dp] + c.val) % 256;
      case Minus =>
        data.items[dp] := SubStored(data.items[dp], c.val);
      case Print =>
        out' := out + [data.items[dp] % 256];
      case Input =>
      case LoopStart =>
        if data.items[dp] == 0 {
          if ip >= |p.startToEnd| {
            r := BadRead;
            return;
          }
          ip' := p.startToEnd[ip] + 1;
        }
      case LoopEnd =>
        if data.items[dp] != 0 {
          if ip >= |p.endToStart| {
            r := BadRead;
            return;
          }
          ip' := p.endToStart[ip] + 1;
        }
      case Zero =>
        data.items[dp] := 0;
    }
    r := Next(State(ip', dp', data.Contents(), out'));
  }

  /** One pass of the loop of `run` from the machine `st`, whose cells live in `data`:
      either the run ends here with its outcome, or it goes on from `st'`. */
  method Advance(p: Program, data: IntVec, st: State, f: nat) returns (stop: bool, o: Outcome, st': State, f': nat)
    requires data.Valid() && st.tape == data.Contents() && Sound(st) && st.ip < |p.cmds| && f > 0
    modifies data, data.items
    ensures data.Valid() && (data.items == old(data.items) || fresh(data.items))
    ensures stop ==> o == RunSpec(p, st, f)
    ensures !stop ==> st'.tape == data.Contents() && Sound(st') && f' < f && RunSpec(p, st', f') == RunSpec(p, st, f)
  {
    f' := f - 1;
    var r := Exec(p, data, st.ip, st.dp, st.out);
    match r {
      case Return => return true, Returned(st), st, f';
      case BadRead => return true, Faulted(st), st, f';
      case Next(next) => return false, Finished(st), next, f';
    }
  }

  /** `run`, cut off after `fuel` commands. */
  method Run(p: Program, fuel: nat) returns (o: Outcome)
    ensures o == RunSpec(p, Init(), fuel)
  {
    var data := new IntVec();
    data.Push(0);
    var st := State(0, 0, data.Contents(), []);
    assert st == Init();
    var f: nat := fuel;
    while st.ip < |p.cmds|
      invariant data.Valid() && fresh(data.items)
      invariant st.tape == data.Contents() && Sound(st)
      invariant RunSpec(p, st, f) == RunSpec(p, Init(), fuel)
      decreases f
    {
      if f == 0 {
        return OutOfFuel(st);
      }
      var stop;
      stop, o, st, f := Advance(p, data, st, f);
      if stop {
        return;
      }
    }
    return Finished(st);
  }

  // ---------------------------------------------------------------------------
  // Properties of the C executor

  /** The +256 fix-up of MINUS fires exactly when `val` is 0; otherwise the cell stores the
      difference modulo 65536, so 0 - 1 leaves 65535. */
  lemma MinusFixupOnlyForZero(x: nat, v: nat)
    requires x < 65536
    ensures SubStored(x, v) == (x - v) % 65536 <==> v != 0
    ensures SubStored(0, 1) == 65535
  {
  }

  /** The parser never emits a MINUS with operand 0, so in a parsed program the fix-up
      never fires. */
  lemma ParsedMinusNeverFixedUp(src: seq<char>)
    requires ParseSpec(src).Parsed?
    ensures var cmds := ParseSpec(src).prog.cmds;
      forall k, x :: 0 <= k < |cmds| && cmds[k].kind == Minus && 0 <= x < 65536 ==>
        SubStored(x, cmds[k].val) == (x - cmds[k].val) % 65536
  {
    DownCountsArePositive(C, src, 0);
  }

  /** Every table slot is 0 or a command index. */
  predicate JumpsInRange(p: Program) {
    && (forall k :: 0 <= k < |p.startToEnd| ==> p.startToEnd[k] == 0 || p.startToEnd[k] < |p.cmds|)
    && (forall k :: 0 <= k < |p.endToStart| ==> p.endToStart[k] == 0 || p.endToStart[k] < |p.cmds|)
  }

  lemma ParsedJumpsInRange(src: seq<char>)
    requires ParseSpec(src).Parsed?
    ensures JumpsInRange(ParseSpec(src).prog)
  {
    var p := ParseSpec(src).prog;
    var ks := Kinds(p.cmds);
    assert p.startToEnd == CTables(ks).startToEnd && p.endToStart == CTables(ks).endToStart;
    CTablesInRange(ks);
    forall k | 0 <= k < |p.startToEnd|
      ensures p.startToEnd[k] == 0 || p.startToEnd[k] < |p.cmds|
    {
    }
    forall k | 0 <= k < |p.endToStart|
      ensures p.endToStart[k] == 0 || p.endToStart[k] < |p.cmds|
    {
    }
  }

  /** With the tables in range `ip` never passes the end, so a finished run stops with
      `ip` exactly at the end of the commands. */
  lemma {:induction false} RunStopsAtEnd(p: Program, st: State, fuel: nat)
    requires JumpsInRange(p) && Sound(st) && st.ip <= |p.cmds|
    ensures RunSpec(p, st, fuel).st.ip <= |p.cmds|
    ensures RunSpec(p, st, fuel).Finished? ==> RunSpec(p, st, fuel).st.ip == |p.cmds|
    decreases fuel
  {
    if st.ip < |p.cmds| && fuel > 0 && Step(p, st).Next? {
      RunStopsAtEnd(p, Step(p, st).st, fuel - 1);
    }
  }

  /** In a parsed program a LOOP_END of a matched pair on a nonzero cell resumes just after
      its partner. A LOOP_START on a zero cell resumes just after its partner too, unless
      it is command 0 and some `]` found the stack empty. */
  lemma LoopJumpsToPartner(src: seq<char>, st: State, s: nat, e: nat)
    requires ParseSpec(src).Parsed?
    requires Matched(Kinds(ParseSpec(src).prog.cmds), s, e)
    requires Sound(st)
    ensures var p := ParseSpec(src).prog;
      && (st.ip == s && st.tape[st.dp] == 0 && (s != 0 || !HasUnmatchedEnd(Kinds(p.cmds))) ==>
            Step(p, st) == Next(st.(ip := e + 1)))
      && (st.ip == e && st.tape[st.dp] != 0 ==> Step(p, st) == Next(st.(ip := s + 1)))
  {
    ParsedTablesHoldPairs(src);
  }

  /** After MINUS with a nonzero operand the cell agrees with 8-bit arithmetic modulo 256. */
  lemma MinusAgreesModulo256(x: nat, v: nat)
    requires x < 65536 && v != 0
    ensures SubStored(x, v) % 256 == Cells.SubByte(x % 256, v)
  {
    var q := (x - v) / 65536;
    var r := (x - v) % 256;
    Cells.ModUnique((x - v) % 65536, (x - v) / 256 - 256 * q, r);
    Cells.ModUnique(x % 256 - v, (x - v) / 256 - x / 256, r);
  }

  /** The 16-bit cell keeps what an 8-bit cell would drop: 256 subtracted from a zero
      cell leaves 65280, which a following `[` sees as nonzero, where 8-bit wrap-around
      gives 0. */
  lemma MinusLeavesHighByte(x: nat, v: nat)
    requires x == 0 && v == 256
    ensures SubStored(x, v) == 65280 && SubStored(x, v) != 0
    ensures Cells.SubByte(x, v) == 0
  {
    Cells.ModUnique(x - v, -1, 0);
  }
}
