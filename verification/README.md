# LavaScript toolchain in Dafny

A model of LavaScript, a small teaching toolchain that takes a source language through five stages:

1. A line-based front end (`parser.py`) reads the source.
2. A code generator (`compiler.py`) emits Hack-style mnemonic lines.
3. A two-pass assembler (`assembler.py`) turns them into bit strings.
4. An ALU (`alu.py`) computes on bit strings.
5. A CPU (`cpu.py`) runs the assembled program with 64-bit data words.

The model keeps each stage as pure functions over immutable values:

- Bit strings are `seq<bool>`, most significant bit first.
- Python exceptions become `Err` values of a `Result` type.
- The CPU's printing becomes a returned sequence of tokens.
- The generator's mutable state is a `Compiler` record threaded through each operation.

The modules follow the source files:

| module | file | what it holds |
|---|---|---|
| `Results` | results.dfy | `Option`, `Result` and the error kinds (`SyntaxError`, `KeyError`, unpacking `ValueError`, `NotImplementedError`) |
| `Bits` | bits.dfy | `int(s, 2)`, `bin(v)[2:]`, `zfill`, negative slices, fixed-width formatting |
| `Text` | text.dfy | `strip`, `split`, `join`, `in`, `isdigit`, `int`, decimal formatting, the `\w` and `\s` classes |
| `Alu` | alu.dfy | `b_and`, `b_or`, `b_not`, `alu` |
| `Assembler` | assembler.dfy | the symbol and code tables, line cleaning, pass 1, symbol resolution, encoding, pass 2, `assemble` |
| `Cpu` | cpu.dfy | `int_to_bin`, `signed64`, the CPU state, `step`, `run` |
| `Semantics` | semantics.dfy | what each mnemonic means on the CPU, checked through the ALU and `step` |
| `Compiler` | compiler.dfy | `get_var_addr`, `write`, `compile_assign`, `compile_math`, `compile_condition`, `compile_while`, `compile_print`, `get_code`, `compile` |
| `Parser` | parser.dfy | `parse`, `parse_lines`, `parse_assignment`, `extract_block`, and the regular expressions they use |
| `Simulation` | simulation.dfy | the machine of cpu.py read as numbers: instructions by mnemonic, a step on numbers (`MStep`), and its simulation by the CPU running the assembled words (`Simulate`, `Lift`) |
| `Loops` | loops.dfy | the multiply and divide templates of `compile_math` as the assembler resolves them, and what they compute on the CPU |

Three invariants run through the model:

- **CPU validity.** `Cpu.Valid` says D and every RAM word are 64 bits, A is at least 64 bits and RAM has 2^16 words. `Init` establishes it and `Step` keeps it.
- **Code generator invariant.** `Compiler.Good` says every variable has its own address from 16 upward, and no two label definitions carry the same counter value. `Compiler.Follows` extends it across one operation. Every code-generator operation keeps it, and so does the whole front end (`Parser.ParseLabelsDistinct`).
- **Regular expressions.** Each pattern the source uses is written as a scanner over character classes. A pair of lemmas shows the scanner accepts exactly the strings that some reading of the pattern fits, and picks the reading Python's engine settles on.

Where the project's own description of the design and its code differ, the model follows the code:

- The assembler hands out fresh symbol addresses from 1, not 16.
- An `@` value of 2^15 or more is not rejected. It gives a word longer than 16 bits.
- Multiplication counts down the left operand with no swap to the smaller one and no R15.
- Division by zero loops forever when the left operand is non-negative. A negative divisor runs until the running dividend wraps past 2^63 - 1.
- The front end knows only assignments and `while … do` / `end`. There is no `if`, no `for`, no `print` statement and no expression parser.
- `or` and `and` both compile to the same jump-out test, so a loop runs only while every comparison holds.
- A variable right operand of `*` or `/` is emitted as `@<name>`, which the assembler allocates as a symbol of its own from address 1.

## Model

| member | source | states |
|---|---|---|
| Alu.BAnd | alu.py:1-5 | the result has the length of `a`, and each bit is the AND of the bits of `a` and `b` at that position |
| Alu.BOr | alu.py:7-11 | the result has the length of `a`, and each bit is the OR of the bits of `a` and `b` at that position |
| Alu.BNot | alu.py:13-17 | the result has the input's length, and every bit is flipped |
| Alu.BNotInvolutive | alu.py:13-17 | complementing twice gives back the input |
| Alu.ValBNot | alu.py:13-17 | read as a number, the complement of an n-bit string `a` is 2^n - 1 - a |
| Alu.Prepare | alu.py:20-26 | the zero flag alone gives all zeros, zero and negate together give all ones, negate alone flips every bit, neither leaves the operand unchanged; the width is kept |
| Alu.Sum | alu.py:28 | for non-empty operands, the `bin`/`zfill`/negative-slice pipeline gives exactly len(x) bits whose value is (x + y) mod 2^len(x) |
| Alu.Alu | alu.py:19-40 | the output has the width of `x`; `zr` holds exactly when every output bit is 0; `ng` holds exactly when the output, read unsigned, is at least 2^(n-1) |
| Alu.AluStages | alu.py:28-34 | the trimming at line 34 never fires: the output is the function stage, complemented when `no` is set |
| Alu.AluAdds | alu.py:28 | with `f` set, the output before `no` is the sum of the prepared operands modulo 2^len(x) |
| Alu.AluAnds | alu.py:30 | with `f` clear, the output before `no` is the bitwise AND of the prepared operands |
| Alu.AluFlags | alu.py:36-38 | `zr` holds exactly when the output reads as 0, and `ng` exactly when its leading bit is 1 |
| Bits.Binary | alu.py:28 | `bin(v)[2:]` reads back as `v`, and its first digit is 1 unless `v` is 0 |
| Bits.BinaryFits | assembler.py:70 | the binary digits of `v` fit in `n` places exactly when v < 2^n |
| Bits.ZFill | cpu.py:38 | `zfill(n)` pads to width `n` and never truncates; the value and the trailing digits are kept |
| Bits.TakeLast | alu.py:28 | `s[-n:]` keeps min(n, len(s)) bits, whose value is the value of `s` modulo 2^n |
| Bits.Fixed | cpu.py:8 | writing `v` < 2^n in exactly `n` binary digits reads back as `v` |
| Bits.ValZeroIff | alu.py:36 | a bit string reads as zero exactly when every bit is clear |
| Bits.ValLeading | alu.py:38 | the leading bit is set exactly when the value is at least 2^(n-1) |
| Text.Strip | parser.py:7 | `strip()` leaves no whitespace at either end, and leaves text that has none unchanged |
| Text.StripIsSlice | parser.py:7 | `strip()` keeps one contiguous slice of the text, and every character outside that slice is whitespace |
| Text.StripStrip | parser.py:7 | stripping twice is stripping once |
| Text.Split | assembler.py:36 | `split(sep)` gives at least one piece, no piece contains `sep`, and joining the pieces with `sep` gives back the text |
| Text.SplitOnce | assembler.py:73 | `split(" ", maxsplit=1)` gives one or two pieces that join back to the text; the first piece holds no separator; there is one piece exactly when the separator does not occur |
| Text.SplitJoin | compiler.py:259 | joining lines on a character that none of them holds and splitting on it again gives back the lines |
| Text.Dec | compiler.py:24 | `f"{n}"` is a non-empty digit string that reads back as `n`, with no leading zero |
| Text.DecInjective | compiler.py:65-66 | distinct counter values give distinct decimal texts |
| Text.WordEndRun | compiler.py:229 | the scanned run of `\w` characters is all word characters and cannot be extended |
| Text.SpaceEndRun | compiler.py:229 | the scanned run of `\s` characters is all whitespace and cannot be extended |
| Assembler.TableWidths | assembler.py:9-33 | every print code has 2 bits, every comp code 7, every dest code 3 and every jump code 3 |
| Assembler.IsCleanIff | assembler.py:36-38 | a clean line is non-empty, unchanged by `strip()`, and holds no `//` |
| Assembler.CleanLinesClean | assembler.py:36-38 | every line both passes read is clean: no text after `//` and no blank line reaches them |
| Assembler.CleanLinesOfClean | assembler.py:36-38 | lines that are already clean pass the cleaning unchanged, so nothing else is dropped |
| Assembler.CollectLabelsKeys | assembler.py:40-47 | pass 1 knows exactly the labels defined in the lines, and leaves the entries for other names as they were |
| Assembler.CollectLabelsSpec | assembler.py:41-47 | a label maps to the start address plus the number of instruction lines before its last definition |
| Assembler.CountInstrWords | assembler.py:43-55 | when the lines pass 2 skips are exactly the label definitions pass 1 counts, pass 1 counts as many instructions as pass 2 emits words |
| Assembler.LabelAddress | assembler.py:41-63 | a label stands for the index of the word emitted right after its last definition, so forward and backward references agree |
| Assembler.ResolveStep | assembler.py:58-69 | one `@` reference resolves as a literal, else a label, else a predefined symbol, else a variable numbered in first-reference order, and the table keeps that numbering |
| Assembler.ResolveFresh | assembler.py:66-69 | the first reference to a variable records it at the next address and returns that address |
| Assembler.ResolveAllSpec | assembler.py:50-69 | across a run of references every one resolves to the address it stands for, variables being numbered from 1 in order of first reference |
| Assembler.FreshAddresses | assembler.py:50-69 | from the initial table the k-th distinct variable gets address k; repeated references agree, and distinct variables never share an address |
| Assembler.EncodeA | assembler.py:70 | the word starts with 0, its payload reads back as the address, and it has exactly 16 bits exactly when the address is below 2^15 |
| Assembler.EncodeFieldsLayout | assembler.py:93-97 | the four lookups succeed exactly when every mnemonic is in its table, and the word is 1, print(2), comp(7), dest(3), jump(3): 16 bits |
| Assembler.EncodeCLayout | assembler.py:72-98 | a C-instruction line encodes exactly when it splits and each mnemonic is in its table, and its word has the 16-bit field layout |
| Assembler.TranslateSkip | assembler.py:54-55 | pass 2 skips a line starting with `(` |
| Assembler.TranslateA | assembler.py:57-70 | an `@` line gives its A-instruction and the rest continues with the grown symbol table |
| Assembler.TranslateC | assembler.py:71-98 | a C-instruction line gives its encoding, and pass 2 fails when that encoding fails |
| Assembler.TranslateOk | assembler.py:53-98 | pass 2 fails exactly when some C-instruction line does not encode |
| Assembler.TranslateWords | assembler.py:53-98 | a successful pass 2 emits one word per line it does not skip, each the encoding of that line |
| Assembler.AssembleSpec | assembler.py:35-99 | `assemble` fails exactly when a C-instruction line does not encode; otherwise it emits one word per non-skipped line, each `@` word carrying the literal, label, predefined or fresh address its symbol stands for |
| Cpu.IntToBin | cpu.py:7-8 | `int_to_bin(v)` is 64 bits reading as v mod 2^64 |
| Cpu.Signed64Range | cpu.py:13-17 | on [0, 2^64) `signed64` lands in [-2^63, 2^63), is negative exactly from 2^63 on, and agrees with its input modulo 2^64 |
| Cpu.IntToBinRoundTrip | cpu.py:7-17 | a signed 64-bit value written by `int_to_bin` and read back through `signed64` is the value |
| Cpu.Init | cpu.py:27-32 | the initial state is well formed, with pc = 0, A = D = 0 and every RAM word 0 |
| Cpu.Step | cpu.py:34-100 | a step that does not raise goes from a well-formed state to a well-formed state |
| Cpu.StepA | cpu.py:37-40 | an A-instruction loads its payload, zero-padded to 64 bits, into A and moves on; D, RAM and the output are untouched |
| Cpu.StepC | cpu.py:42-95 | a C-instruction raises exactly when it is too short or touches M with A past RAM; otherwise the ALU result goes to RAM[old A], D and A as the dest bits say, no other RAM word changes, printing reads the new D, and the jump test on the new D picks the new A or pc + 1 |
| Cpu.StepPastEnd | cpu.py:36 | fetching past the end of the program raises |
| Cpu.Loop | cpu.py:104-106 | the loop halts only with pc past the program and a final newline, and raises only while pc is inside it |
| Cpu.Run | cpu.py:102-106 | `run` halts only with pc past the program, printing a newline last |
| Cpu.RunMonotone | cpu.py:104-105 | a run that ends within a step budget ends the same way with any larger budget |
| Cpu.RunValid | cpu.py:104-105 | a run from a well-formed state stops in a well-formed state |
| Cpu.RunStep | cpu.py:104-105 | a step that continues contributes its output ahead of the rest of the run |
| Semantics.AluArith | alu.py:19-40 | with `f` set the ALU computes its integer reading (zeroing gives 0, negating v gives -1 - v, `f` adds, `no` negates) modulo 2^width |
| Semantics.AluLogic | alu.py:19-40 | with `f` clear the ALU works bit by bit |
| Semantics.CompKinds | assembler.py:14-24 | every comp mnemonic is either arithmetic or bitwise, never both |
| Semantics.CompReadsM | assembler.py:14-24 | the a-bit of a comp code is set exactly when the mnemonic mentions M |
| Semantics.CompArithCode | assembler.py:14-23 | each arithmetic comp code selects addition, and its control bits compute the mnemonic's number |
| Semantics.CompBitCode | assembler.py:14-24 | each bitwise comp code selects AND, and its control bits compute the mnemonic's bit operation |
| Semantics.CompMeaningArith | cpu.py:48-54 | fed to the ALU, an arithmetic comp code computes its named expression modulo 2^width, e.g. `D-A` gives D - A |
| Semantics.CompMeaningBits | cpu.py:48-54 | fed to the ALU, a bitwise comp code computes its named operation bit by bit, e.g. the OR of D and M gives D OR RAM[A] bit by bit |
| Semantics.DestBits | assembler.py:26-28 | the three dest bits are the write enables of A, D and M, in that order |
| Semantics.JumpCodes | cpu.py:76-90 | the CPU's jump decision on each jump code is the condition its mnemonic names, with no jump for none and always for `JMP` |
| Semantics.PrintCodes | cpu.py:70-74 | `PRINT` prints signed D, `PRINT_CHAR` the character of D's low byte, `NO_PRINT` nothing |
| Semantics.FieldsLayout | assembler.py:97 | an encoded word is 16 bits: 1, then the print, comp, dest and jump codes |
| Semantics.FieldBits | cpu.py:42-46 | the CPU's decoding recovers the print, comp, dest and jump fields the assembler laid out |
| Semantics.ExecInstruction | cpu.py:42-95 | an assembled C-instruction raises only when it touches M with A past RAM; otherwise it combines D with M or A as the comp mnemonic says, writes each register its dest names, prints as its print mnemonic says, and jumps on its jump mnemonic's condition |
| Semantics.ExecAddress | cpu.py:37-40 | an assembled `@addr` word loads `addr` into A and moves on, changing nothing else and printing nothing |
| Compiler.GetVarAddr | compiler.py:12-16 | a known name keeps its address and nothing changes; a new name gets the next free address, which then advances; no lines are emitted |
| Compiler.GetVarAddrOrder | compiler.py:7-16 | the k-th distinct name gets address 16 + k, and a repeated name returns its first address |
| Compiler.Write | compiler.py:18-19 | `write` appends exactly one line and changes nothing else, so earlier lines never change |
| Compiler.LoadD | compiler.py:36-42 | a literal is loaded with `@n`, `D=A` and a variable with `@addr`, `D=M` |
| Compiler.LabelDefNum | compiler.py:65-66 | a label drawn from the counter is defined by a line that carries the drawn number |
| Compiler.CompileAssign | compiler.py:21-31 | exactly four lines: `@lit`, `D=A` or `@addr`, `D=M`, then `@dest`, `M=D`; the target and a variable source end up allocated, and earlier addresses are kept |
| Compiler.CompileAssignOrder | compiler.py:21-31 | the names added are exactly the target and a variable source; a new target gets `next_ram`, and a new source the address after it |
| Compiler.CompileAssignFollows | compiler.py:21-31 | an assignment keeps the code generator's invariant |
| Compiler.ApplyOp | compiler.py:44-195 | the right operand combines into D exactly for the six operators (add, subtract, and, or, multiply, divide); the two loops draw two labels |
| Compiler.CompileMath | compiler.py:33-198 | `compile_math` succeeds exactly for the six operators (add, subtract, and, or, multiply, divide), any other operator being `NotImplementedError`, and then ends with `@dest_addr`, `M=D` |
| Compiler.LoopLinesLabels | compiler.py:57-116 | a multiply or divide loop defines exactly two labels, carrying the two numbers drawn from the counter |
| Compiler.CompileMathFollows | compiler.py:33-198 | arithmetic keeps the code generator's invariant, so loop labels stay distinct |
| Compiler.DrawAndWriteFollows | compiler.py:65-66 | lines whose labels carry distinct freshly drawn numbers keep every label definition distinct |
| Compiler.ExitJump | compiler.py:217 | each comparison's jump is one the assembler knows, and it fires on left - right exactly when the comparison is false |
| Compiler.CompileCondition | compiler.py:200-218 | four lines computing D = left - right, then the exit jump from the map; an operator outside the map is a `KeyError` |
| Compiler.SubtractRight | compiler.py:209-215 | a literal is subtracted with `@n`, `D=D-A` and a variable with `@addr`, `D=D-M` |
| Compiler.CompileConditionFollows | compiler.py:200-218 | a condition keeps the code generator's invariant |
| Compiler.OpAt | compiler.py:229 | the operator alternation takes the first operator that the text starts with, and fails exactly when none fits |
| Compiler.MatchConditionSound | compiler.py:229 | what the condition scanner finds is a reading of the pattern at the start of the text |
| Compiler.MatchConditionComplete | compiler.py:229 | every reading of the pattern at the start of the text is the one the scanner finds, so the match is unique |
| Compiler.OperandOf | compiler.py:233-234 | a digit string becomes its number and anything else stays a name |
| Compiler.WriteTests | compiler.py:226-238 | the tests compile exactly when every comparison matches the pattern; otherwise a `SyntaxError` names one of them |
| Compiler.WriteTestShape | compiler.py:235-238 | one comparison emits six lines: four computing left - right, then `@end` and `D;<exit jump>` |
| Compiler.WriteTestsJumps | compiler.py:225-238 | every comparison, joined by `and` or by `or`, is followed by a jump to the same exit label when it fails |
| Compiler.StripAll | compiler.py:225 | every piece is stripped |
| Compiler.CompileWhile | compiler.py:220-242 | a loop compiles exactly when every comparison matches and its body compiles; it ends with `@start`, `0;JMP`, `(end)`; a failure is a `SyntaxError` or the body's own |
| Compiler.LoopHeadFollows | compiler.py:221-223 | the head label carries the first number drawn and the exit label the second |
| Compiler.CompileWhileFollows | compiler.py:220-242 | a loop whose body keeps the invariant keeps it too, and begins with its head label |
| Compiler.PrintOperand | compiler.py:245-252 | a digit string is printed as its number, anything else as given |
| Compiler.CompilePrint | compiler.py:244-256 | D is loaded with the value, then `<mode> D` is written; a number allocates nothing |
| Compiler.PrintDigitsAsNumber | compiler.py:245-251 | printing the digits of n emits exactly `@n`, `D=A`, `<mode> D`, as printing n does |
| Compiler.CompilePrintFollows | compiler.py:244-256 | printing keeps the code generator's invariant |
| Compiler.GetCodeLines | compiler.py:258-259 | splitting the joined code on newlines gives back the emitted lines |
| Compiler.CompileReadsLines | compiler.py:261-262 | when every emitted line is clean, assembling the code reads exactly the emitted lines |
| Parser.CleanSource | parser.py:7-8 | cleaning never adds lines |
| Parser.CleanSourceClean | parser.py:7-8 | every kept line is non-empty, stripped and free of `//` |
| Parser.CleanSourceIsAssemblers | parser.py:7-8 | the front end's cleaning is the assembler's: the extra `//` filter never drops a line |
| Parser.IsAssignmentIff | parser.py:18 | the assignment scanner accepts exactly the lines some reading of `^\w+\s*=\s*.+$` fits |
| Parser.MatchMathSound | parser.py:44 | what the arithmetic scanner finds is a reading of the pattern |
| Parser.MatchMathComplete | parser.py:44 | every reading of the arithmetic pattern is the one the scanner finds, so it is unique |
| Parser.ParseAssignment | parser.py:42-54 | an assignment always compiles, allocates its target, and ends with `@addr`, `M=D` |
| Parser.ParseMathAt | parser.py:44-50 | `v = l op r` goes to `compile_math` with digit operands as numbers |
| Parser.ParseDigits | parser.py:51-52 | a bare digit string is assigned as a number |
| Parser.ParseCopy | parser.py:51-54 | an expression that is not arithmetic is copied: a number through A, a name from its own cell |
| Parser.LastDo | parser.py:24 | the last place in a range where `\s+do` can end, with none after it |
| Parser.WhileConditionIff | parser.py:24-26 | a header is accepted exactly when some reading of `while\s+(.+)\s+do` fits it |
| Parser.WhileConditionGroup | parser.py:24-28 | the condition is the stripped group of the reading Python's engine settles on |
| Parser.BlockOpensIff | parser.py:62 | the block-opening scanner accepts exactly the lines some reading of `while\s+.*\s+do` fits |
| Parser.HeaderOpens | parser.py:62 | every accepted loop header also opens a block for the extractor |
| Parser.ExtractFrom | parser.py:59-70 | the scan takes a contiguous run of lines and stops at an `end` or at the end of the lines |
| Parser.ExtractBlock | parser.py:56-70 | the body is `lines[start+1..i)` where `lines[i]` is `end`, or i = len(lines) when there is none |
| Parser.ExtractFromSpec | parser.py:60-69 | the depth is 1 plus the nesting level since the header, and the scan stops at the first `end` that closes the header |
| Parser.ExtractBlockSpec | parser.py:56-70 | the body never closes more blocks than it opened, is balanced when an `end` was found, and holds no earlier matching `end` |
| Parser.ExtractBalanced | parser.py:56-70 | given a balanced body followed by `end`, the extractor returns that body and the index of that `end` |
| Parser.ExtractFromReaches | parser.py:60-69 | from inside a balanced body the scan runs to the `end` after it |
| Parser.ParseLinesFollows | parser.py:12-40 | compiling lines keeps the code generator's invariant |
| Parser.BodyFollows | parser.py:35-38 | a block's closure keeps the invariant, as `compile_while` needs |
| Parser.ParseAssignmentFollows | parser.py:42-54 | an assignment line keeps the code generator's invariant |
| Parser.ParseLabelsDistinct | parser.py:4-9 | no label of a whole program is defined twice, and every variable has its own address from 16 upward |
| Parser.ParseLinesResume | parser.py:31-40 | a loop whose body is balanced and closed by `end` compiles that body and resumes right after the `end` |
| Parser.LoopResumes | parser.py:31-40 | a loop whose block ends at line j goes on at line j + 1 |
| Parser.ParseLinesErrors | parser.py:12-40 | a program fails only with a syntax error in a loop header or comparison, or an assignment line that does not cut into two parts at `=` |
| Parser.ParseBadHeader | parser.py:23-26 | a `while` line that no reading of the header pattern fits is a `SyntaxError` |
| Parser.ParseSkips | parser.py:18-40 | a line that is neither an assignment nor starts with `while` emits nothing |
| Simulation.SignedWordIs | cpu.py:13-17 | on a 64-bit word `signed64` subtracts 2^64 exactly from 2^63 on |
| Simulation.EncodeAWord | assembler.py:70 | an assembled `@addr` word starts with 0 and its payload reads as `addr`, in sixteen bits when `addr` is below 2^15 |
| Simulation.Read | cpu.py:26-32 | every well-formed CPU state is read as numbers that it models |
| Simulation.Simulate | cpu.py:34-95 | when a step on numbers is defined, the CPU running the assembled words takes that step, prints nothing, and lands in a state holding the numbers after it |
| Simulation.ExecSimulates | cpu.py:104-105 | any step function that simulates single steps on numbers runs k quiet steps for every k steps on numbers, ending in a state holding the final numbers |
| Simulation.Lift | cpu.py:34-105 | k steps of a loaded program on numbers are k quiet steps of the CPU, ending in a state holding the final numbers |
| Simulation.LoopExec | cpu.py:104-105 | steps that stay inside the program are a stretch of the `run()` loop: with k more steps in the budget the loop ends as from the state they reach, after their output |
| Simulation.RunReaches | cpu.py:102-106 | a quiet run of k steps from `s` to `t` makes `run()` from `s` with k more steps end exactly as `run()` from `t` |
| Simulation.MRunTrans | cpu.py:104-105 | runs on numbers compose: i steps to `m`, then j steps from `m`, are i + j steps |
| Loops.SignedDiff | cpu.py:68-83 | for numbers below 2^63 the 64-bit difference read through `signed64` is the true difference, so `D;JLT` fires exactly when the left is smaller |
| Loops.EnterRuns | compiler.py:58-63 | the six setup lines move D into R13, zero R14 and D, and reach the loop label |
| Loops.LeaveRuns | compiler.py:83-84 | the two end lines copy R14 into D |
| Loops.MulRoundEffect | compiler.py:73-80 | a round of the multiplication loop adds the right operand into R14 modulo 2^64 and counts R13 down by one, leaving the right operand as it was |
| Loops.MulDoneRound | compiler.py:68-81 | a round keeps `R14 + R13 * right`, modulo 2^64, the loop's invariant |
| Loops.MulLoopRuns | compiler.py:68-81 | from the loop label with n in R13 and acc in R14, the loop reaches the end label after 12n + 4 steps with R13 and D zero and acc + n * right, modulo 2^64, in R14 |
| Loops.MultiplyEffect | compiler.py:57-84 | the template leaves left * right modulo 2^64 in D and R14, zero in R13, and every other RAM word as it was |
| Loops.MulComputes | compiler.py:57-84 | on the CPU, from its first line, the template runs 12 * left + 12 quiet steps and leaves left * right modulo 2^64 in D and R14, zero in R13, and every other RAM word as it was |
| Loops.DivTestReads | compiler.py:97-103 | the loop's `D;JLT` test fails exactly when the running dividend is at least the divisor |
| Loops.DivRoundEffect | compiler.py:97-112 | a round of the division loop keeps the dividend and divisor below 2^63 and the divisor unchanged |
| Loops.RoundsDivide | compiler.py:96-112 | the number of times the divisor can be taken off is the quotient, and what is left is the remainder |
| Loops.DivDoneRound | compiler.py:96-112 | a round keeps `R14 + rounds(R13)` and the remainder of R13, the loop's invariant |
| Loops.DivLoopRuns | compiler.py:96-114 | from the loop label, the loop takes twelve steps for each round and six more, leaving the remainder in R13 and the count of rounds added to R14 |
| Loops.DivideEffect | compiler.py:85-116 | for a positive divisor, the template leaves the quotient in D and R14, the remainder in R13, and every other RAM word as it was |
| Loops.DivComputes | compiler.py:85-116 | on the CPU, with the left operand below 2^63 and the divisor in (0, 2^63), the template runs 12 * quotient + 14 quiet steps and leaves left / right in D and R14, left mod right in R13, and every other RAM word as it was |

## Left out

- main.py: argument handling, file reading and the extension check. Its unpacking of `parse`'s result does not match what `parse` returns.
- The RAM diagnostics and `format_bytes` of cpu.py. They are float percentages and console formatting.
- The messages `step` and `run` write to stderr, and the re-raise in `step`. A raising step is the `Fault` outcome, and `run` ends `Faulted` with the output printed so far.
- Cpu.Run: takes a step budget (`fuel`), because Python's loop need not terminate. `OutOfFuel` is the only outcome the source does not have.
- Alu.Alu: the inputs on which alu.py raises are outside the model's domain: an empty `x` (`int("", 2)` at line 28 or 36), an empty `y` with `f` set (line 28), and a `y` narrower than `x` with `f` clear (the index in `b_and` at line 4). The CPU never passes any of them, since D has 64 bits and A at least 64.
- Alu.Sum: both operands are non-empty. On an empty one alu.py raises at `int("", 2)` (line 28), as under Alu.Alu.
- The process-wide `symbols` dict keeps variables from one `assemble` call to the next. Each modelled call starts from the predefined table.
- The `__main__` block of assembler.py and the unused `time` import of cpu.py.
- A general regular-expression engine. The five patterns are hand-written scanners, each proved against a reading of its pattern.
- `\w`, `isdigit` and `int()` are modelled on ASCII only. Python also accepts other Unicode letters and digits.
- Loops.MulComputes: the right operand is a literal below 2^15 or a RAM address other than R13 and R14. A wider literal is assembled into a word longer than sixteen bits, and an operand in R13 or R14 is overwritten by the loop itself.
- Loops.DivComputes: the left operand is below 2^63 and the divisor in (0, 2^63). Outside that range the loop behaves as described above for a zero or negative divisor, or its `D;JLT` test reads a wrapped difference.
- Loops.MulProgram and Loops.DivProgram are the lines of `Compiler.MulLines` and `Compiler.DivLines` with their symbols resolved as the assembler does: R13 and R14 as 13 and 14, the loop label as p + 6, the end label as p + 18, and the right operand as its literal or symbol address. They are written out, not derived through `Assembler.Assemble`.
- Simulation.MStep: covers only the instructions the templates use: `NO_PRINT`, no write to A, and an arithmetic mnemonic or a copy of D, A or M. Printing and A-writes are modelled by `Cpu.Step` and `Semantics.ExecInstruction`, not by the machine on numbers.
