/** Lexing shared by the four parsers: which bytes are commands, how runs of
    `<`/`>` and `+`/`-` collapse into one command, the `[-]` idiom, and where each
    dialect's unchecked reads fault. */
module Lexer {
  import opened Commands

  /** The eight instruction bytes; every other byte is skipped. */
  predicate IsInstruction(c: char) {
    c in "<>+-.,[]"
  }

  /** A byte that starts a collapsible run. */
  predicate IsRunByte(c: char) {
    c in "<>+-"
  }

  /** The end of the maximal run of `a`/`b` bytes that starts at `i`. */
  function RunEnd(src: seq<char>, i: nat, a: char, b: char): (j: nat)
    requires i <= |src|
    ensures i <= j <= |src|
    ensures forall k :: i <= k < j ==> src[k] == a || src[k] == b
    ensures j == |src| || (src[j] != a && src[j] != b)
    decreases |src| - i
  {
    if i < |src| && (src[i] == a || src[i] == b) then RunEnd(src, i + 1, a, b) else i
  }

  /** The net count of a run: +1 for each `pos` byte, -1 for each `neg` byte. */
  function Net(s: seq<char>, neg: char, pos: char): int
  {
    if s == [] then 0
    else Net(s[..|s| - 1], neg, pos) + (if s[|s| - 1] == neg then -1 else if s[|s| - 1] == pos then 1 else 0)
  }

  /** A negative net becomes `down` with its magnitude, any other net `up` (so `up` 0 is possible). */
  function Collapse(net: int, down: Kind, up: Kind): Cmd {
    if net < 0 then Cmd(down, -net) else Cmd(up, net)
  }

  /** `[` at `i` is immediately followed by the bytes `-]`. */
  predicate ZeroIdiom(src: seq<char>, i: nat) {
    i + 2 < |src| && src[i + 1] == '-' && src[i + 2] == ']'
  }

  /** The unguarded lookahead `src[i+1] == '-' && src[i+2] == ']'` reads past the end. */
  predicate LookaheadFault(src: seq<char>, i: nat) {
    i + 1 >= |src| || (src[i + 1] == '-' && i + 2 >= |src|)
  }

  /** What the parsers make of the byte at `i`: nothing, or one command, and where the
      next token starts. */
  datatype Lexeme = Skip(next: nat) | Emit(cmd: Cmd, next: nat)

  function LexAt(src: seq<char>, i: nat): (lx: Lexeme)
    requires i < |src|
    ensures i < lx.next <= |src|
  {
    var c := src[i];
    if c == '<' || c == '>' then
      var j := RunEnd(src, i, '<', '>');
      Emit(Collapse(Net(src[i..j], '<', '>'), Left, Right), j)
    else if c == '+' || c == '-' then
      var j := RunEnd(src, i, '-', '+');
      Emit(Collapse(Net(src[i..j], '-', '+'), Minus, Plus), j)
    else if c == '.' then Emit(Cmd(Print, 0), i + 1)
    else if c == ',' then Emit(Cmd(Input, 0), i + 1)
    else if c == '[' then
      if ZeroIdiom(src, i) then Emit(Cmd(Zero, 0), i + 3) else Emit(Cmd(LoopStart, 0), i + 1)
    else if c == ']' then Emit(Cmd(LoopEnd, 0), i + 1)
    else Skip(i + 1)
  }

  /** The four implementations, which differ in where an unchecked read faults. */
  datatype Dialect = C | Ts | Rs | Go

  /** The token at `i` faults: in C (undefined behaviour) and Go (a panic) when the `[`
      lookahead reads past the end; in Rust also when a run reaches the end of the
      input, because its loop condition reads as `(i < len && b[i] == x) || b[i] == y`
      and so indexes `b[len]`. JavaScript reads `undefined` instead and never faults. */
  predicate CrashAt(d: Dialect, src: seq<char>, i: nat)
    requires i < |src|
  {
    match d
    case Ts => false
    case C => src[i] == '[' && LookaheadFault(src, i)
    case Go => src[i] == '[' && LookaheadFault(src, i)
    case Rs =>
      (src[i] == '[' && LookaheadFault(src, i))
      || ((src[i] == '<' || src[i] == '>') && RunEnd(src, i, '<', '>') == |src|)
      || ((src[i] == '+' || src[i] == '-') && RunEnd(src, i, '-', '+') == |src|)
  }

  /** The commands lexed from `i` on, up to the first fault, and whether one occurred. */
  datatype Scanned = Scanned(tokens: seq<Cmd>, crashed: bool)

  function Scan(d: Dialect, src: seq<char>, i: nat): Scanned
    requires i <= |src|
    decreases |src| - i
  {
    if i == |src| then Scanned([], false)
    else if CrashAt(d, src, i) then Scanned([], true)
    else match LexAt(src, i)
      case Skip(n) => Scan(d, src, n)
      case Emit(c, n) => var r := Scan(d, src, n); Scanned([c] + r.tokens, r.crashed)
  }

  /** The command sequence of a source, read without faults. */
  function Tokens(src: seq<char>): seq<Cmd> {
    Scan(Ts, src, 0).tokens
  }

  /** One more run byte at `j` moves neither the end of the run nor changes the count
      by anything but its own sign. */
  lemma RunExtends(src: seq<char>, i: nat, j: nat, neg: char, pos: char)
    requires i <= j < |src| && (src[j] == neg || src[j] == pos)
    ensures RunEnd(src, j + 1, neg, pos) == RunEnd(src, j, neg, pos)
    ensures Net(src[i..j + 1], neg, pos) == Net(src[i..j], neg, pos) + if src[j] == neg then -1 else 1
  {
    assert src[i..j + 1][..j - i] == src[i..j];
  }

  /** The run-collapsing inner loop of every parser, with its loop condition written
      as intended: `i < len && (b[i] == neg || b[i] == pos)`. */
  method ScanRun(src: seq<char>, i: nat, neg: char, pos: char) returns (j: nat, cnt: int)
    requires i <= |src|
    ensures j == RunEnd(src, i, neg, pos)
    ensures cnt == Net(src[i..j], neg, pos)
  {
    j, cnt := i, 0;
    while j < |src| && (src[j] == neg || src[j] == pos)
      invariant i <= j <= |src|
      invariant RunEnd(src, j, neg, pos) == RunEnd(src, i, neg, pos)
      invariant cnt == Net(src[i..j], neg, pos)
    {
      RunExtends(src, i, j, neg, pos);
      if src[j] == neg {
        cnt := cnt - 1;
      } else {
        cnt := cnt + 1;
      }
      j := j + 1;
    }
  }

  /** The lexing part of a parser's loop body, with the `[` lookahead guarded (as the
      JavaScript reads of `undefined` past the end are). */
  method LexOne(src: seq<char>, i: nat) returns (lx: Lexeme)
    requires i < |src|
    ensures lx == LexAt(src, i)
  {
    var c := src[i];
    if c == '<' || c == '>' {
      var j, cnt := ScanRun(src, i, '<', '>');
      lx := Emit(Collapse(cnt, Left, Right), j);
    } else if c == '+' || c == '-' {
      var j, cnt := ScanRun(src, i, '-', '+');
      lx := Emit(Collapse(cnt, Minus, Plus), j);
    } else if c == '.' {
      lx := Emit(Cmd(Print, 0), i + 1);
    } else if c == ',' {
      lx := Emit(Cmd(Input, 0), i + 1);
    } else if c == '[' {
      if i + 1 < |src| && src[i + 1] == '-' && i + 2 < |src| && src[i + 2] == ']' {
        lx := Emit(Cmd(Zero, 0), i + 3);
      } else {
        lx := Emit(Cmd(LoopStart, 0), i + 1);
      }
    } else if c == ']' {
      lx := Emit(Cmd(LoopEnd, 0), i + 1);
    } else {
      lx := Skip(i + 1);
    }
  }

  /** The same with the lookahead unguarded, as in C and Go: `fault` says it reads past
      the end, which happens exactly when the source from `i` on is `[` or `[-`. */
  method LexUnguarded(src: seq<char>, i: nat) returns (fault: bool, lx: Lexeme)
    requires i < |src|
    ensures fault <==> src[i..] == "[" || src[i..] == "[-"
    ensures !fault ==> lx == LexAt(src, i)
  {
    fault := src[i] == '[' && (i + 1 >= |src| || (src[i + 1] == '-' && i + 2 >= |src|));
    OpenTail(src, i);
    lx := LexOne(src, i);
  }

  /** The C and Go parsers fault at `i` exactly when the source from `i` on is `[` or `[-`:
      the lookahead then reads the byte just past the end. */
  lemma OpenTail(src: seq<char>, i: nat)
    requires i < |src|
    ensures CrashAt(C, src, i) <==> src[i..] == "[" || src[i..] == "[-"
    ensures CrashAt(Go, src, i) <==> src[i..] == "[" || src[i..] == "[-"
  {
    if src[i..] == "[" || src[i..] == "[-" {
      assert src[i] == src[i..][0];
    }
    if src[i] == '[' && LookaheadFault(src, i) {
      if i + 1 >= |src| {
        assert src[i..] == "[";
      } else {
        assert src[i..] == "[-";
      }
    }
  }

  // ---------------------------------------------------------------------------
  // Properties of the lexer

  /** The net count of a run is the number of `pos` bytes minus the number of `neg` bytes. */
  lemma {:induction false} NetCounts(s: seq<char>, neg: char, pos: char)
    requires neg != pos
    ensures Net(s, neg, pos) == multiset(s)[pos] as int - multiset(s)[neg] as int
  {
    if s != [] {
      var init := s[..|s| - 1];
      NetCounts(init, neg, pos);
      assert s == init + [s[|s| - 1]];
      assert multiset(s) == multiset(init) + multiset{s[|s| - 1]};
    }
  }

  /** A run starting at `i` is maximal and collapses to `down` with the surplus of `neg`
      bytes when they outnumber the `pos` bytes, and otherwise to `up` with the surplus
      of `pos` bytes. */
  lemma CollapsedRun(src: seq<char>, i: nat, neg: char, pos: char, down: Kind, up: Kind, cmd: Cmd, j: nat)
    requires neg != pos && i <= |src|
    requires j == RunEnd(src, i, neg, pos)
    requires cmd == Collapse(Net(src[i..j], neg, pos), down, up)
    ensures forall k :: i <= k < j ==> src[k] == neg || src[k] == pos
    ensures j == |src| || (src[j] != neg && src[j] != pos)
    ensures var nNeg, nPos := multiset(src[i..j])[neg], multiset(src[i..j])[pos];
      cmd == if nNeg > nPos then Cmd(down, nNeg - nPos) else Cmd(up, nPos - nNeg)
  {
    NetCounts(src[i..j], neg, pos);
  }

  /** A run of `<`/`>` becomes one Left or Right command carrying its net count. */
  lemma MoveRunCollapses(src: seq<char>, i: nat)
    requires i < |src| && (src[i] == '<' || src[i] == '>')
    ensures LexAt(src, i).Emit?
    ensures var j := LexAt(src, i).next; var run := src[i..j];
      && (forall k :: i <= k < j ==> src[k] == '<' || src[k] == '>')
      && (j == |src| || (src[j] != '<' && src[j] != '>'))
      && LexAt(src, i).cmd == if multiset(run)['<'] > multiset(run)['>']
                              then Cmd(Left, multiset(run)['<'] - multiset(run)['>'])
                              else Cmd(Right, multiset(run)['>'] - multiset(run)['<'])
  {
    var j := RunEnd(src, i, '<', '>');
    CollapsedRun(src, i, '<', '>', Left, Right, LexAt(src, i).cmd, j);
  }

  /** A run of `+`/`-` becomes one Minus or Plus command carrying its net count. */
  lemma ArithRunCollapses(src: seq<char>, i: nat)
    requires i < |src| && (src[i] == '+' || src[i] == '-')
    ensures LexAt(src, i).Emit?
    ensures var j := LexAt(src, i).next; var run := src[i..j];
      && (forall k :: i <= k < j ==> src[k] == '-' || src[k] == '+')
      && (j == |src| || (src[j] != '-' && src[j] != '+'))
      && LexAt(src, i).cmd == if multiset(run)['-'] > multiset(run)['+']
                              then Cmd(Minus, multiset(run)['-'] - multiset(run)['+'])
                              else Cmd(Plus, multiset(run)['+'] - multiset(run)['-'])
  {
    var j := RunEnd(src, i, '-', '+');
    CollapsedRun(src, i, '-', '+', Minus, Plus, LexAt(src, i).cmd, j);
  }

  /** Exactly the non-instruction bytes are skipped; `[-]` is one Zero command that
      consumes all three bytes, any other `[` is a LoopStart. */
  lemma LexAtShape(src: seq<char>, i: nat)
    requires i < |src|
    ensures LexAt(src, i).Skip? <==> !IsInstruction(src[i])
    ensures LexAt(src, i).Skip? ==> LexAt(src, i).next == i + 1
    ensures src[i] == '[' && ZeroIdiom(src, i) ==> LexAt(src, i) == Emit(Cmd(Zero, 0), i + 3)
    ensures src[i] == '[' && !ZeroIdiom(src, i) ==> LexAt(src, i) == Emit(Cmd(LoopStart, 0), i + 1)
    ensures LexAt(src, i).Emit? && LexAt(src, i).cmd.kind == LoopEnd ==> src[i] == ']'
    ensures LexAt(src, i).Emit? && LexAt(src, i).cmd.kind == LoopStart ==> src[i] == '['
  {
  }

  /** Only the first byte of a token can be a `[`. */
  lemma NoOpenInsideToken(src: seq<char>, i: nat, k: nat)
    requires i < k < |src| && k < LexAt(src, i).next
    ensures src[k] != '['
  {
  }

  lemma {:induction false} RunEndIgnoresTrailingByte(src: seq<char>, x: char, i: nat, a: char, b: char)
    requires i <= |src| && x != a && x != b
    ensures RunEnd(src + [x], i, a, b) == RunEnd(src, i, a, b)
    decreases |src| - i
  {
    if i < |src| && (src[i] == a || src[i] == b) {
      RunEndIgnoresTrailingByte(src, x, i + 1, a, b);
    }
  }

  lemma {:induction false} ScanIgnoresTrailingNoise(src: seq<char>, x: char, i: nat)
    requires i <= |src| && !IsInstruction(x)
    ensures Scan(Ts, src + [x], i) == Scan(Ts, src, i)
    decreases |src| - i
  {
    var t := src + [x];
    if i == |src| {
      assert LexAt(t, i) == Skip(i + 1);
    } else {
      RunEndIgnoresTrailingByte(src, x, i, '<', '>');
      RunEndIgnoresTrailingByte(src, x, i, '-', '+');
      var j1 := RunEnd(src, i, '<', '>');
      var j2 := RunEnd(src, i, '-', '+');
      assert t[i..j1] == src[i..j1];
      assert t[i..j2] == src[i..j2];
      assert ZeroIdiom(t, i) == ZeroIdiom(src, i);
      assert LexAt(t, i) == LexAt(src, i);
      ScanIgnoresTrailingNoise(src, x, LexAt(src, i).next);
    }
  }

  /** A byte that is not an instruction adds no command, even at the very end. */
  lemma TrailingNoiseAddsNothing(src: seq<char>, x: char)
    requires !IsInstruction(x)
    ensures Tokens(src + [x]) == Tokens(src)
  {
    ScanIgnoresTrailingNoise(src, x, 0);
  }

  /** Each token comes from at least one byte. */
  lemma {:induction false} TokensNoLongerThanSource(d: Dialect, src: seq<char>, i: nat)
    requires i <= |src|
    ensures |Scan(d, src, i).tokens| <= |src| - i
    decreases |src| - i
  {
    if i < |src| && !CrashAt(d, src, i) {
      TokensNoLongerThanSource(d, src, LexAt(src, i).next);
    }
  }

  /** LEFT and MINUS come from a negative net count, so their operand is never 0. */
  lemma {:induction false} DownCountsArePositive(d: Dialect, src: seq<char>, i: nat)
    requires i <= |src|
    ensures forall k :: 0 <= k < |Scan(d, src, i).tokens| ==>
      var c := Scan(d, src, i).tokens[k]; (c.kind == Left || c.kind == Minus) ==> c.val > 0
    decreases |src| - i
  {
    if i < |src| && !CrashAt(d, src, i) {
      DownCountsArePositive(d, src, LexAt(src, i).next);
    }
  }

  /** A dialect that does not fault lexes the same commands as the fault-free reading. */
  lemma {:induction false} ScanAgreesWhenNoCrash(d: Dialect, src: seq<char>, i: nat)
    requires i <= |src|
    requires !Scan(d, src, i).crashed
    ensures Scan(d, src, i).tokens == Scan(Ts, src, i).tokens
    decreases |src| - i
  {
    if i < |src| {
      ScanAgreesWhenNoCrash(d, src, LexAt(src, i).next);
    }
  }

  /** Some `[` at or after `i` has a lookahead that reads past the end. */
  ghost predicate OpenFaultFrom(src: seq<char>, i: nat) {
    exists p :: i <= p < |src| && src[p] == '[' && LookaheadFault(src, p)
  }

  /** The source ends in `[` or in `[-`. */
  predicate EndsInOpenLookahead(src: seq<char>) {
    (|src| >= 1 && src[|src| - 1] == '[') || (|src| >= 2 && src[|src| - 2] == '[' && src[|src| - 1] == '-')
  }

  lemma OpenFaultIsAtTheEnd(src: seq<char>)
    ensures OpenFaultFrom(src, 0) <==> EndsInOpenLookahead(src)
  {
    if EndsInOpenLookahead(src) {
      if src[|src| - 1] == '[' {
        assert LookaheadFault(src, |src| - 1);
      } else {
        assert LookaheadFault(src, |src| - 2);
      }
    }
  }

  /** In C and Go every `[` is reached, so scanning faults exactly when some `[` reads past the end. */
  lemma {:induction false} OpenFaultReached(d: Dialect, src: seq<char>, i: nat)
    requires d == C || d == Go
    requires i <= |src|
    ensures Scan(d, src, i).crashed <==> OpenFaultFrom(src, i)
    decreases |src| - i
  {
    if i < |src| && !CrashAt(d, src, i) {
      var n := LexAt(src, i).next;
      OpenFaultReached(d, src, n);
      if OpenFaultFrom(src, i) {
        var p :| i <= p < |src| && src[p] == '[' && LookaheadFault(src, p);
        if p < n {
          if i < p { NoOpenInsideToken(src, i, p); }
        } else {
          assert OpenFaultFrom(src, n);
        }
      }
    }
  }

  /** The C and Go parsers fault exactly on sources ending in `[` or `[-`. */
  lemma CAndGoFaultIffEndsOpen(d: Dialect, src: seq<char>)
    requires d == C || d == Go
    ensures Scan(d, src, 0).crashed <==> EndsInOpenLookahead(src)
  {
    OpenFaultReached(d, src, 0);
    OpenFaultIsAtTheEnd(src);
  }

  lemma {:induction false} RustFaultReached(src: seq<char>, i: nat)
    requires i <= |src|
    ensures Scan(Rs, src, i).crashed <==>
      OpenFaultFrom(src, i) || (i < |src| && IsRunByte(src[|src| - 1]))
    decreases |src| - i
  {
    if i < |src| {
      if CrashAt(Rs, src, i) {
        if src[i] == '[' && LookaheadFault(src, i) {
        } else if src[i] == '<' || src[i] == '>' {
          assert src[|src| - 1] == '<' || src[|src| - 1] == '>';
        } else {
          assert src[|src| - 1] == '-' || src[|src| - 1] == '+';
        }
      } else {
        var n := LexAt(src, i).next;
        RustFaultReached(src, n);
        if OpenFaultFrom(src, i) {
          var p :| i <= p < |src| && src[p] == '[' && LookaheadFault(src, p);
          if p < n {
            if i < p { NoOpenInsideToken(src, i, p); }
          } else {
            assert OpenFaultFrom(src, n);
          }
        }
      }
    }
  }

  /** The Rust parser faults exactly on sources whose last byte is one of `<>+-[`. */
  lemma RustFaultIffEndsInRunOrOpen(src: seq<char>)
    ensures Scan(Rs, src, 0).crashed <==> |src| > 0 && src[|src| - 1] in "<>+-["
  {
    RustFaultReached(src, 0);
    OpenFaultIsAtTheEnd(src);
  }

  /** A `+`/`-` run collapses to one command with its net count. */
  lemma ArithRunExample()
    ensures Tokens("+++--") == [Cmd(Plus, 1)]
  {
    var a := "+++--";
    assert RunEnd(a, 0, '-', '+') == 5;
    NetCounts(a[0..5], '-', '+');
    assert a[0..5] == a;
    assert multiset(a)['+'] == 3 && multiset(a)['-'] == 2;
    assert Scan(Ts, a, 0) == Scanned([Cmd(Plus, 1)], false);
  }

  /** A `<`/`>` run collapses to one command, and the next byte starts a new one. */
  lemma MoveRunExample()
    ensures Tokens("<<>.") == [Cmd(Left, 1), Cmd(Print, 0)]
  {
    var b := "<<>.";
    assert RunEnd(b, 0, '<', '>') == 3;
    NetCounts(b[0..3], '<', '>');
    assert b[0..3] == "<<>";
    assert multiset(b[0..3])['<'] == 2 && multiset(b[0..3])['>'] == 1;
    assert Scan(Ts, b, 3) == Scanned([Cmd(Print, 0)], false);
  }
}
