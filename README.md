# Brainfuck interpreters in four languages, modelled in Dafny

The repository holds one Brainfuck interpreter written four times: in C (the
reference), TypeScript, Rust and Go. Each one runs in two stages.

1. A parser reads the source once and skips every byte outside `<>+-.,[]`.
   - A run of `<`/`>` becomes one LEFT or RIGHT command carrying the net count.
   - A run of `-`/`+` becomes one MINUS or PLUS command the same way.
   - The three bytes `[-]` become one ZERO command.
   - The remaining brackets are paired through a stack of open `[` positions.
2. An executor steps through the commands.
   - It keeps an instruction pointer `ip`, a data pointer `dp`, a tape of cells and the output.
   - It grows the tape when moving right and stops when moving left past cell 0.
   - At a bracket it jumps to the partner, and every step ends with `ip += 1`.

The model follows the code of each version in imperative Dafny:

- every `parse` is a method with a `while` loop over the source;
- every `run` is a method bounded by a fuel count;
- the C vector helpers are classes over an array with `len` and `cap`.

Each method is proved equal to a specification function. The lemmas then state:

- what the four versions promise;
- where they differ: operand storage, unmatched brackets, tape growth and MINUS wrap-around;
- where a version does something its authors evidently did not intend.

Modules:

- `Commands`: command kinds and commands.
- `Lexer`: the tokens every parser produces, and where each version's unchecked reads fault.
- `Brackets`: bracket matching, the pending stack, and the start→end / end→start maps.
- `Cells`: 8-bit cell arithmetic.
- `CVec`: the C `int_vec` and `commands_t` containers.
- `CParser`, `CRun`: the C reference.
- `TsInterp`, `RsInterp`, `GoInterp`: the variants.
- `Variants`: lemmas comparing the four versions.
- `Samples`: small programs taken from source text to output: `++.`, `+[-].` and `++[>+<-]>.`.

## Model

| member | source | states |
|---|---|---|
| Lexer.LexAt | c/main.c:124-195 | every token consumes at least one byte and stays within the source |
| Lexer.RunEnd | c/main.c:130-137 | the run loop stops at the first byte outside the run pair or at the end of the source, and every byte it passes is in the pair |
| Lexer.ScanRun | c/main.c:130-147 | the run-collapsing loop ends at `RunEnd` with the net count of the run (TypeScript 31-46 and Go 43-58 have the same loop) |
| Lexer.LexOne | c/main.c:124-195 | reading one token from byte `i` gives exactly the common token `LexAt` |
| Lexer.LexUnguarded | c/main.c:189-190 | the unguarded `[` lookahead faults exactly when the source from `i` on is `[` or `[-` (also go/main.go:94); otherwise the token is the common one |
| Lexer.OpenTail | c/main.c:189-190 | the C and Go parses fault at byte `i` exactly when the source from `i` on is `[` or `[-` (also go/main.go:94) |
| Lexer.NetCounts | c/main.c:130-137 | the net count of a run is the number of `>` (or `+`) bytes minus the number of `<` (or `-`) bytes |
| Lexer.CollapsedRun | c/main.c:127-166 | a collapsed run covers a maximal block of run bytes, and its command is the down kind with the magnitude when the net is negative, otherwise the up kind with the net |
| Lexer.MoveRunCollapses | c/main.c:127-148 | a `<`/`>` run becomes LEFT with the excess of `<` or RIGHT with the excess of `>`, so RIGHT 0 is possible |
| Lexer.ArithRunCollapses | c/main.c:149-166 | a `-`/`+` run becomes MINUS with the excess of `-` or PLUS with the excess of `+` |
| Lexer.LexAtShape | c/main.c:183-195 | non-instruction bytes produce no command; `[-]` produces ZERO and consumes three bytes; any other `[` produces LOOP_START |
| Lexer.TrailingNoiseAddsNothing | c/main.c:183-184 | appending a non-instruction byte to the source adds no command |
| Lexer.ScanIgnoresTrailingNoise | tsnode/src/main.ts:73-76 | scanning from any index is unchanged by a trailing non-instruction byte |
| Lexer.TokensNoLongerThanSource | c/main.c:122-204 | no version produces more commands than the source has bytes |
| Lexer.DownCountsArePositive | c/main.c:138-145 | every LEFT and MINUS operand is positive |
| Lexer.ScanAgreesWhenNoCrash | go/main.go:37-109 | when a version does not fault, it produces exactly the common commands |
| Lexer.OpenFaultIsAtTheEnd | c/main.c:189-190 | some `[` has a lookahead past the end exactly when the source ends in `[` or `[-` |
| Lexer.OpenFaultReached | go/main.go:93-94 | the C and Go parses fault from `i` exactly when a `[` at or after `i` has a lookahead past the end |
| Lexer.CAndGoFaultIffEndsOpen | c/main.c:189-190 | the C and Go parses fault exactly when the source ends in `[` or `[-` |
| Lexer.RustFaultReached | r_st/src/main.rs:38 | the Rust parse panics from `i` exactly when an open lookahead faults or the source ends in a run byte |
| Lexer.RustFaultIffEndsInRunOrOpen | r_st/src/main.rs:55 | the Rust parse panics exactly when the source ends in one of `<>+-[` |
| Lexer.ArithRunExample | c/main.c:149-166 | `+++--` is one PLUS 1 |
| Lexer.MoveRunExample | c/main.c:127-148 | `<<>.` is LEFT 1 followed by PRINT |
| Brackets.MatchedUniqueEnd | c/main.c:196-200 | a `[` has at most one matching `]` |
| Brackets.MatchedUniqueStart | c/main.c:196-200 | a `]` has at most one matching `[` |
| Brackets.PendingInv | c/main.c:196-198 | the start stack is increasing, holds only LOOP_START indices, and its entries sit at nesting depths 1, 2, … from the top |
| Brackets.TopMatches | c/main.c:198 | the start popped by a `]` is the `[` that matches it |
| Brackets.StartStaysPending | c/main.c:196-198 | a `[` that is not yet closed stays on the stack, at the depth of the commands after it |
| Brackets.EndPopsPartner | c/main.c:198 | when a `]` is reached, the stack is nonempty and its top is the matching `[` |
| Brackets.MatchedPrefix | c/main.c:196-200 | a pair matched in a longer command list is matched in any prefix that contains its `]` |
| Brackets.PartnersDiffer | c/main.c:196-200 | two different `]` have two different matching `[` |
| Brackets.MapTablesInv | r_st/src/main.rs:90-94 | while no `]` found the stack empty, the maps hold matched pairs in both directions, every `]` is a key, and a `[` is a key exactly when it is closed |
| Brackets.MapTablesNoneStays | r_st/src/main.rs:91 | once a `]` found the stack empty, no later command mends the parse |
| Brackets.MapTablesDefinedIff | r_st/src/main.rs:91 | the pairing fails exactly when some prefix has more `]` than `[` |
| Brackets.MapTablesCorrect | r_st/src/main.rs:92-93 | the maps hold exactly the matched pairs, each map the inverse of the other |
| Brackets.Track | go/main.go:100-105 | one bracket step keeps the stack and the maps equal to their specification, and fails exactly on a `]` with an empty stack |
| Cells.AddByte | r_st/src/main.rs:125 | the result is a byte congruent to `x + v` modulo 256 |
| Cells.SubByte | r_st/src/main.rs:126 | the result is a byte congruent to `x - v` modulo 256 |
| Cells.TruncRem | go/main.go:149 | the remainder by 256 lies strictly between -256 and 256, has the sign of the dividend, and is congruent to it |
| Cells.AddSubInverse | r_st/src/main.rs:125-126 | on bytes, wrapping subtraction undoes wrapping addition and the reverse |
| Cells.WrapExamples | r_st/src/main.rs:125-126 | 0 - 1 wraps to 255 and 255 + 1 wraps to 0 |
| CVec.InsertSpec | c/main.c:89-94 | after `insert_vec(key, val)` the key is in range, holds `val`, and every other slot is unchanged or a new zero |
| CVec.IntVec.constructor | c/main.c:49-53 | a new vector is empty with capacity 8 and zeroed storage |
| CVec.IntVec.Extend | c/main.c:66-71 | `extend_vec` appends `size` zero slots and keeps the length |
| CVec.IntVec.Insert | c/main.c:89-94 | the storage becomes `InsertSpec` of the old storage; the length is kept |
| CVec.IntVec.Push | c/main.c:96-102 | the contents gain `val` at the end; the capacity doubles exactly when the vector was full; the slots past the end keep their old values or zero |
| CVec.IntVec.Pop | c/main.c:104-110 | an empty vector yields 0 and stays empty; otherwise the last item is removed and returned |
| CVec.CommandBuffer.constructor | c/main.c:42-47 | a new command buffer is empty with capacity 8 and zeroed commands |
| CVec.CommandBuffer.Resize | c/main.c:59-64 | the buffer grows to the new capacity with zeroed new commands, keeping length and contents |
| CVec.CommandBuffer.Push | c/main.c:73-79 | the contents gain the command; the capacity doubles exactly when the buffer was full |
| CVec.CommandBuffer.Pop | c/main.c:81-87 | an empty buffer yields no command; otherwise the last command is removed and returned |
| CParser.CTables | c/main.c:196-201 | both jump tables stay at least 8 slots long, the size the empty vectors start with |
| CParser.RecordBracket | c/main.c:196-201 | one bracket step keeps the stack equal to the pending starts and both tables equal to their specification |
| CParser.Record | c/main.c:196-203 | recording a command appends it to the buffer and keeps the stack and both tables equal to their specification |
| CParser.ParseToken | c/main.c:122-204 | one pass of the loop faults only when the scan faults, and otherwise appends the next token and keeps the tables |
| CParser.Parse | c/main.c:116-211 | `parse` is undefined exactly as the specification says, and otherwise returns the commands and both tables of the specification |
| CParser.CTablesMatchMaps | c/main.c:197-200 | without an unmatched `]`, every table slot holds the map entry for that index, or 0 when there is none |
| CParser.CEndToStart | c/main.c:197-200 | the end→start slot of every `]` is the start it popped, or 0 when the stack was empty; every other slot is 0 |
| CParser.CTablesInRange | c/main.c:196-201 | every table entry is 0 or a command index |
| CParser.ParseDefinedIff | c/main.c:189-190 | `parse` is undefined exactly when the source ends in `[` or `[-`, and otherwise keeps the common commands |
| CParser.CStartToEnd | c/main.c:196-201 | every matched `[` has a start→end slot, which holds its `]` unless it is command 0; every nonzero slot past 0 belongs to a matched pair (an empty `pop_vec` yields 0, c/main.c:104-110) |
| CParser.CEndToStartPairs | c/main.c:197-200 | every `]` of a matched pair holds its `[` in the end→start table |
| CParser.CStartToEndBalanced | c/main.c:196-201 | without an unmatched `]`, every matched `[`, command 0 included, holds its `]` in the start→end table |
| CParser.ParsedTablesHoldPairs | c/main.c:196-203 | every matched pair of a parsed program is in the end→start table, and in the start→end table too unless its `[` is command 0 and some `]` found the stack empty |
| CParser.UnmatchedEndPairsWithZero | c/main.c:196-201 | in `[]]` the stray `]` pops 0, so `start_to_end[0]` is overwritten to 2 while `[` matches command 1 |
| CRun.Init | c/main.c:214-217 | the initial machine has its pointer on the tape and every cell within 16 bits |
| CRun.SubStored | c/main.c:245-251 | the stored MINUS result fits in 16 bits |
| CRun.Grow | c/main.c:230-240 | RIGHT past the end leaves exactly `dp + 2` cells, keeps the old cells, and the new cells are zero |
| CRun.Step | c/main.c:219-274 | LEFT returns exactly when `dp < n`; only brackets can read outside a table; other cells never change; PLUS leaves a byte; non-jumps advance `ip` by one |
| CRun.RunSpec | c/main.c:219-275 | a finished run has `ip` at or past the end, and the pointer stays on the tape |
| CRun.GrowTape | c/main.c:230-240 | the push loop of RIGHT leaves the tape vector equal to `Grow` of the old tape |
| CRun.Exec | c/main.c:220-274 | one pass of the loop over the `int_vec` tape does what `Step` says |
| CRun.Advance | c/main.c:219-274 | one pass of the loop either ends the run with the outcome `RunSpec` gives, or leaves a machine from which `RunSpec` with less fuel gives the same outcome |
| CRun.Run | c/main.c:213-278 | `run` computes `RunSpec` from the initial machine |
| CRun.MinusFixupOnlyForZero | c/main.c:245-251 | the +256 fix-up fires exactly when the operand is 0, so 0 - 1 stores 65535 |
| CRun.ParsedMinusNeverFixedUp | c/main.c:245-249 | in a parsed program the fix-up never fires |
| CRun.ParsedJumpsInRange | c/main.c:256-267 | every table entry of a parsed program is a command index, or 0 |
| CRun.RunStopsAtEnd | c/main.c:219 | with in-range jumps, `ip` never passes the end, and a finished run stops with `ip == len` |
| CRun.LoopJumpsToPartner | c/main.c:256-274 | LOOP_END of a matched pair on a nonzero cell resumes just after its partner; so does LOOP_START on a zero cell, unless it is command 0 and some `]` found the stack empty |
| CRun.MinusAgreesModulo256 | c/main.c:245-251 | modulo 256 the stored MINUS result equals 8-bit wrap-around |
| CRun.MinusLeavesHighByte | c/main.c:245-249 | 0 minus 256 stores 65280, which is nonzero, where an 8-bit cell holds 0 |
| TsInterp.Patched | tsnode/src/main.ts:95-97 | patching keeps the length, every kind and every non-bracket command |
| TsInterp.PatchedKeep | tsnode/src/main.ts:81-100 | appending a non-`]` command appends it unchanged; a new `[` keeps operand 0 |
| TsInterp.PatchedPair | tsnode/src/main.ts:95-97 | writing a new pair into the maps patches exactly the `[` and the new `]` |
| TsInterp.PatchedClose | tsnode/src/main.ts:89-100 | a `]` closing start `s` patches command `s` to its own index and gets `s` as its operand |
| TsInterp.Append | tsnode/src/main.ts:81-100 | one token keeps the patched commands and the stack, and fails exactly on a `]` with an empty stack |
| TsInterp.ParseAt | tsnode/src/main.ts:24-101 | one pass of the loop consumes one token, or fails when the whole parse must exit |
| TsInterp.Parse | tsnode/src/main.ts:19-104 | `parse` returns the patched commands, or exits on an unmatched `]` |
| TsInterp.Step | tsnode/src/main.ts:116-175 | Left returns exactly when `dp` would go negative; only Plus, Minus and Zero change the tape; output only grows; non-jumps advance `ip` by one |
| TsInterp.RunSpec | tsnode/src/main.ts:115-176 | a finished run has `ip` past the end; a run returns only at a Left that would go negative |
| TsInterp.Advance | tsnode/src/main.ts:115-176 | one pass of the loop either ends the run with the outcome `RunSpec` gives, or leaves a machine from which `RunSpec` with less fuel gives the same outcome |
| TsInterp.Run | tsnode/src/main.ts:107-177 | `run` computes `RunSpec` from the initial machine |
| TsInterp.ExitIffUnmatchedEnd | tsnode/src/main.ts:89-94 | `parse` exits exactly when some `]` finds no open `[`, and otherwise keeps every command kind |
| TsInterp.OperandsAreJumpTargets | tsnode/src/main.ts:95-97 | the operands of a matched pair point at each other, and an unclosed `[` keeps operand 0 |
| TsInterp.LoopJumpsToPartner | tsnode/src/main.ts:159-175 | a loop command whose condition holds resumes just after its partner |
| TsInterp.MinusOffByOne | tsnode/src/main.ts:137-145 | Minus agrees with 8-bit wrap-around when it does not wrap and is one short when it does, so 0 - 1 gives 254 |
| TsInterp.CellRanges | tsnode/src/main.ts:132-145 | Plus keeps a byte a byte; Minus stays in [0,256) exactly when the operand is at most the cell plus 255 |
| RsInterp.RunCondition | r_st/src/main.rs:38 | the condition as written panics exactly at the end of the source and equals the intended condition elsewhere |
| RsInterp.ScanRunAsWritten | r_st/src/main.rs:37-46 | the run loop as written panics exactly when the run reaches the end of the source, and otherwise ends where the intended loop ends with the same count |
| RsInterp.LexAsWritten | r_st/src/main.rs:34-88 | one token faults exactly at the Rust panics, and otherwise is the common token |
| RsInterp.Truncate | r_st/src/main.rs:47-51 | `cnt as u8` keeps the kind and the count modulo 256 |
| RsInterp.TruncateAll | r_st/src/main.rs:47-51 | every kind is kept and every operand fits in a byte |
| RsInterp.ParseAt | r_st/src/main.rs:33-97 | one pass of the loop consumes one token, returns None on an unmatched `]`, or panics on a read past the end |
| RsInterp.Parse | r_st/src/main.rs:23-99 | `parse_input` returns what the specification says |
| RsInterp.Step | r_st/src/main.rs:110-146 | a pass that goes on keeps the pointer on the tape and every cell a byte |
| RsInterp.StepOutcomes | r_st/src/main.rs:110-146 | Left returns exactly when `dp < t`; Input breaks exactly at end of input; a loop panics exactly when its key is missing |
| RsInterp.StepJumps | r_st/src/main.rs:134-139 | a loop whose key is present resumes just after the command the key maps to |
| RsInterp.StepEffects | r_st/src/main.rs:110-146 | non-jumps advance `ip` by one; output and tape only grow; RIGHT past the end leaves `dp + 1` cells; only the cell under the pointer changes |
| RsInterp.RunSpec | r_st/src/main.rs:109-147 | a finished run has `ip == len`; a run stopped by input has none left |
| RsInterp.Advance | r_st/src/main.rs:109-147 | one pass of the loop either ends the run with the outcome `RunSpec` gives, or leaves a machine from which `RunSpec` with less fuel gives the same outcome |
| RsInterp.Run | r_st/src/main.rs:101-148 | `run` computes `RunSpec` from the initial machine |
| RsInterp.Feval | r_st/src/main.rs:150-152 | `feval` runs exactly the programs that parse, and reports None and panics of the parser |
| RsInterp.ParseOutcomes | r_st/src/main.rs:23-99 | None exactly on an unmatched `]` before any panic; a panic exactly when otherwise the source ends in one of `<>+-[`; else every kind with its count modulo 256 |
| RsInterp.ParsedMapsArePairs | r_st/src/main.rs:90-94 | the maps of a parsed program hold exactly its matched pairs; every LoopEnd is a key; a `[` is a key exactly when it is closed |
| RsInterp.LoopsInParsedPrograms | r_st/src/main.rs:134-139 | only an unclosed `[` on a zero cell panics; matched brackets resume just after their partner |
| RsInterp.TrailingRunPanics | r_st/src/main.rs:55 | the source `+` panics in the parser, because the loop condition reads past the end |
| GoInterp.ParseAt | go/main.go:37-109 | one pass of the loop consumes one token, or panics |
| GoInterp.Parse | go/main.go:31-113 | `parse` returns what the specification says |
| GoInterp.Grow | go/main.go:136-145 | RIGHT past the end leaves exactly `dp + 2` cells, keeps the old cells, and the new cells are zero |
| GoInterp.GrowSlice | go/main.go:139-144 | the append loop produces `Grow` |
| GoInterp.Step | go/main.go:126-182 | LEFT returns exactly when `dp` would go negative; other cells never change; output only grows; non-jumps advance `ip` by one |
| GoInterp.RunSpec | go/main.go:125-183 | a finished run has `ip` past the end; a run returns only at a LEFT |
| GoInterp.Exec | go/main.go:126-182 | one pass of the loop over the slice does what `Step` says |
| GoInterp.Run | go/main.go:115-184 | `run` computes `RunSpec` from the initial machine |
| GoInterp.PanicIff | go/main.go:93-103 | `parse` panics exactly when the source ends in `[` or `[-` or a `]` is unmatched; otherwise it keeps the common commands |
| GoInterp.LoopJumps | go/main.go:166-176 | matched brackets resume just after their partner; an unclosed `[` on a zero cell reads 0 and resumes at command 1 |
| GoInterp.MinusWrapsOnce | go/main.go:151-158 | MINUS equals 8-bit wrap-around exactly when the operand is at most the cell plus 256, and is negative beyond |
| GoInterp.MinusLeavesNegative | go/main.go:153-157 | 0 minus 300 leaves -44 where 8-bit wrap-around gives 212 |
| Variants.SameCommands | c/main.c:116-211 | whatever parses yields the common commands: C and Go exactly, TypeScript up to bracket operands, Rust modulo 256 |
| Variants.WhoAccepts | tsnode/src/main.ts:89-94 | C rejects only a trailing `[` or `[-`, TypeScript only an unmatched `]`; Go accepts what both accept; Rust accepts what Go accepts unless the source ends in a run byte |
| Variants.OperandsMatchTables | tsnode/src/main.ts:95-97 | the TypeScript operands of a matched pair are the entries the C tables and the Go maps hold |
| Variants.UnclosedStart | go/main.go:166-171 | an unclosed `[` on a zero cell resumes at command 1 in TypeScript, Go and C (when C reads inside its table); Rust panics |
| Samples.TwoPlusPrintTokens | c/main.c:149-182 | `++.` lexes to PLUS 2 then PRINT |
| Samples.TwoPlusPrintParseC | c/main.c:116-211 | C parses `++.` into PLUS 2, PRINT with both tables still eight zero slots |
| Samples.TwoPlusPrintRunC | c/main.c:213-278 | PLUS 2, PRINT run from the initial machine finishes in two steps and prints 2 |
| Samples.TwoPlusPrintC | c/main.c:116-278 | `++.` parses in C and prints 2 |
| Samples.TwoPlusPrintParseGo | go/main.go:31-113 | Go parses `++.` into PLUS 2, PRINT with both maps empty |
| Samples.TwoPlusPrintRunGo | go/main.go:115-184 | PLUS 2, PRINT run in Go finishes in two steps and prints 2 |
| Samples.TwoPlusPrintGo | go/main.go:31-184 | `++.` parses in Go and prints 2 |
| Samples.ClearTokens | c/main.c:183-195 | `+[-].` lexes to PLUS 1, ZERO, PRINT |
| Samples.ClearRunC | c/main.c:213-278 | PLUS 1, ZERO, PRINT finishes in three steps and prints 0 |
| Samples.ClearC | c/main.c:116-278 | `+[-].` parses in C and prints 0 |
| Samples.ClearParseGo | go/main.go:31-113 | Go parses `+[-].` into PLUS 1, ZERO, PRINT with both maps empty |
| Samples.ClearRunGo | go/main.go:115-184 | PLUS 1, ZERO, PRINT run in Go finishes in three steps and prints 0 |
| Samples.ClearGo | go/main.go:31-184 | `+[-].` parses in Go and prints 0 |
| Samples.MoveTokensTail | c/main.c:122-195 | from byte 3 on, `++[>+<-]>.` lexes to seven one-byte commands |
| Samples.MoveTokensFromLoop | c/main.c:183-195 | from byte 2 on, `++[>+<-]>.` lexes to LOOP_START and the rest, since `[>` is not `[-]` |
| Samples.MoveTokens | c/main.c:122-204 | `++[>+<-]>.` lexes to nine commands |
| Samples.MoveMatched | c/main.c:196-200 | in `++[>+<-]>.` the `[` at command 1 and the `]` at command 6 are a pair |
| Samples.MoveBalanced | c/main.c:196-200 | no `]` of `++[>+<-]>.` finds the stack empty |
| Samples.MoveParseC | c/main.c:116-211 | C parses `++[>+<-]>.` into its nine commands with `start_to_end[1] == 6` and `end_to_start[6] == 1` |
| Samples.MoveIntoLoopC | c/main.c:219-275 | the first four steps enter the loop and grow the tape to three cells, with cells 2, 1, 0 |
| Samples.MoveFirstJumpC | c/main.c:219-275 | the rest of the first pass leaves cells 1, 1, 0 and the `]` jumps back to command 2 |
| Samples.MoveSecondPassC | c/main.c:219-275 | the second pass leaves cells 0, 2, 0 at the `]` |
| Samples.MoveExitC | c/main.c:219-275 | on a zero cell the `]` falls through and `>.` prints 2, ending the run |
| Samples.MoveC | c/main.c:116-278 | `++[>+<-]>.` parses in C and prints 2 after 14 steps |
| Samples.MoveParseGo | go/main.go:31-113 | Go parses `++[>+<-]>.` into its nine commands with the pair 1, 6 in both maps |
| Samples.MoveIntoLoopGo | go/main.go:125-183 | in Go, the first four steps enter the loop with cells 2, 1, 0 |
| Samples.MoveFirstJumpGo | go/main.go:125-183 | in Go, the `]` looks 6 up in `loop_end_to_start` and jumps back with cells 1, 1, 0 |
| Samples.MoveSecondPassGo | go/main.go:125-183 | in Go, the second pass leaves cells 0, 2, 0 at the `]` |
| Samples.MoveExitGo | go/main.go:125-183 | in Go, the `]` falls through and `>.` prints 2 |
| Samples.MoveGo | go/main.go:31-184 | `++[>+<-]>.` parses in Go and prints 2 after 14 steps |

## Left out

- The `main` functions are not modelled: file reading, the source file name and argument handling. The source text is a parameter.
- The character encoding of output is not modelled: `putchar`, `fmt.Printf("%c")`, `print!` with `char::from`, `String.fromCharCode`, stdout flushing and corking. Output is the sequence of values printed:
  - C prints the cell modulo 256, as `putchar` does;
  - Rust prints the byte;
  - Go prints the `int` cell;
  - TypeScript prints the UTF-16 code unit.
- The TypeScript message printed by Input and by an unmatched `]` is not modelled. Input only advances `ip`, and an unmatched `]` ends the parse with `Exit`.
- Sources are sequences of `char`. Rust and Go work on bytes and TypeScript on UTF-16 units, but only the eight ASCII instruction bytes matter to any parser.
- `malloc`/`realloc` failure and `free`/`destroy_*` are not modelled.
- The C `uint16_t` widths of `ip`, `dp`, `len` and `cap`, the `int16_t` run counter, and the `u16` map keys of Rust are not modelled. Counters and indices are unbounded. C cells keep their 16-bit width and Rust cells their `u8` width.
- GoInterp.Step, TsInterp.Step: Go cells are 64-bit `int`s (go/main.go:118) and TypeScript cells are IEEE doubles, exact only up to 2^53. The model treats both as unbounded integers, so overflow past 2^63 in Go and precision loss past 2^53 in TypeScript are not modelled.
- CParser.Parse: a C read past the end of the source (the `[` lookahead) is undefined behaviour. The model returns `Undefined` for the whole parse and says nothing more about it.
- CRun.Step: a table read past the allocated slots, reachable only through an unclosed `[`, returns `BadRead` rather than a value.
- TsInterp.Step: the tape is a map where an unwritten cell reads 0. The `tstd` `ArrayList` (`initCapacity`, `fill`, `getUnchecked`, `insertUnchecked`) is not part of this model, so nothing is claimed about its length or about reads past its 3000 slots.
- CRun.Run, TsInterp.Run, RsInterp.Run, GoInterp.Run: termination of a Brainfuck program is not guaranteed. Every run takes a fuel bound and reports `OutOfFuel` when the bound is spent.
- Cells.WrapExamples: two concrete cases of 8-bit wrap-around, which the verifier checks without further proof.

## Findings

| source | as written | input that shows it | evidently intended | confidence | as-written member | corrected member |
|---|---|---|---|---|---|---|
| r_st/src/main.rs:38 | the run loop tests `(i < len && b[i] == x) \|\| b[i] == y`, so a run that reaches the end reads `b[len]` and panics (also line 55) | the source `+` | `i < len && (b[i] == x \|\| b[i] == y)`, as the C, TypeScript and Go loops read | high, not executed | RsInterp.ScanRunAsWritten | Lexer.ScanRun |
| tsnode/src/main.ts:140-142 | a negative difference is corrected by adding 255 | the cell 0 minus 1 gives 254 | adding 256, which gives 255 | high, not executed | TsInterp.MinusOffByOne | Cells.SubByte |
| go/main.go:155-157 | a negative difference is corrected by adding 256 once | a run of 300 `-` on a zero cell leaves -44 | wrap-around modulo 256, which gives 212 | medium, not executed | GoInterp.MinusLeavesNegative | Cells.SubByte |
| c/main.c:246-249 | MINUS subtracts in the 16-bit cell, and the fix-up only fires for an operand of 0 | a run of 256 `-` on a zero cell stores 65280, which a following `[` treats as nonzero | wrap-around modulo 256, which gives 0 | low, not executed | CRun.MinusLeavesHighByte | Cells.SubByte |

The corrected run loop, `Lexer.ScanRun`, is the one the C, TypeScript and Go parsers use. Two lemmas are proved about it:

- `Lexer.MoveRunCollapses` and `Lexer.ArithRunCollapses` state that a run collapses to its net count.

The corrected cell arithmetic, `Cells.SubByte`, is what the Rust executor uses. Two lemmas are proved about it:

- `Cells.AddSubInverse` states that subtraction and addition undo each other on bytes.
- `TsInterp.MinusOffByOne`, `GoInterp.MinusWrapsOnce` and `CRun.MinusAgreesModulo256` state where each version departs from it.
