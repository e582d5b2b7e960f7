# RustForth in Dafny

A model of the core of RustForth, a small Forth-like language with a simulator and an x86-64
code generator, all in `src/main.rs`. A program is a file of whitespace-separated words: the
numbers and the keywords `+ - . = dup > if else end while do`. The toolchain runs in four stages,
and each stage is a module here.

- **Lexer** (`lexer.dfy`). `find_word_and_col` splits a line into words, each with a column.
  It is modelled as the method `FindWordAndCol`, with the same loop and flags, and proved equal
  to the specification function `Words`. The keyword match of `lex_file` is `LexWord`, and the
  loop over lines and words is `LexFile`/`LexLine`. The file's lines are a parameter.
- **Resolver** (`resolver.dfy`, `blocks.dfy`). `crossreference_blocks` is one pass with a
  stack of pending opener positions. It gives every `if`, `else`, `end` and `do` an absolute
  target, patching earlier output slots by index.
  - `CrossreferenceBlocks` is that loop.
  - `ResolveStep` is one iteration, and the pass is a left fold of `ResolveStep`.
  - An independent reference, `Blocks`, describes well-nested programs as trees of blocks and
    computes the targets from the nesting alone. `ResolveWellNested` proves that the pass
    produces exactly those targets.
- **Interpreter** (`interpreter.dfy`, `control.dfy`). `simulate_program` runs the resolved
  tokens on a stack of `i32`.
  - `Exec` is one turn of its loop, and `Run` is the loop with a step budget.
  - `JumpRule` chooses between the jump as written (`target - 1` on an unsigned index, then
    `+ 1`) and the jump as evidently intended.
  - `Control` proves what the resolved blocks do when run, and exhibits the one input on which
    the two jump rules differ (see Findings).
- **Code generator** (`codegen.dfy`). `compile_program` writes a labelled piece of assembly per
  token, after a fixed prelude, and then an exit.
  - The assembly is kept as a sequence of instructions (`Asm`), not as text.
  - `CompileProgram` is the loop, and `Compile` its specification.
  - A small processor model (`Cpu`, `RunCode`) gives the instructions a meaning.
    `CompiledWordMatches` proves that the code of every word takes the same step as the
    simulator: the same stack, the same values handed to `dump`, and the same next address.
    The text `dump` prints is not modelled, and it differs for negative values (see Left out).

Every `exit(1)`, failed `assert_eq!` and panic of the source is an `Err` of `Syntax.Error`.
The word constructors `push` .. `doo` (`src/main.rs:27-72`) are the constructors of
`Syntax.Word`.

The code is followed wherever it departs from the system's own design description:
- **Columns.** A word's column is the 1-based column of the whitespace just before it, and 1 at
  the start of a line (`src/main.rs:123,126`). This is one less than the word's own column.
- **The `do` anchor.** A `do` accepts any pending opener as its anchor. That the anchor is a
  `while` is checked only at the closing `end` (`src/main.rs:320`).
- **Unclosed blocks.** Openers still pending at the end of the input are not reported. The
  pass drops its stack (`src/main.rs:355-356`), and `Resolver.UnclosedOpenersUnpatched` states
  what is left in the output.
- **Patched slots.** A slot patched by an `end` is rebuilt from the `end` token, so it takes the
  `end`'s file, row and column (`src/main.rs:299-324`). An `if` patched by an `else` keeps its
  own.
- **An impossible branch.** The `if let` at `src/main.rs:319` does nothing when the `do` slot
  holds no target. It is modelled as written, and `Resolver.StepKeepsInv` shows that it never
  happens.

## Model

| member | source | states |
|---|---|---|
| Syntax.HandleStackEmpty | src/main.rs:359-370 | succeeds exactly when the pop found a value, and returns that value; otherwise fails with the stack-empty diagnostic at the token's file, row and column |
| Lexer.FindWordAndCol | src/main.rs:98-131 | the character loop with its `first_space` flag returns exactly the words of the line, `Words(line)` |
| Lexer.ReadLetter | src/main.rs:112-117 | reading a non-whitespace character extends the current word, and at the end of the line emits it; the scanning invariant is kept |
| Lexer.ReadSpace | src/main.rs:118-127 | reading whitespace emits the current word if it is not empty and restarts the word at this column; the scanning invariant is kept |
| Lexer.WordsAreMaximalRuns | src/main.rs:98-131 | the words of a line are its maximal non-whitespace runs, in order, not overlapping, covering every non-whitespace character, each with the column the splitter reports |
| Lexer.SpansCover | src/main.rs:108-129 | every non-whitespace character lies in some word |
| Lexer.SpansOrdered | src/main.rs:108-129 | the words come in order, each ending before the next begins |
| Lexer.SpansMaximal | src/main.rs:108-129 | every word is a non-empty run of non-whitespace bounded by whitespace or the line's ends |
| Lexer.LexWord | src/main.rs:148-264 | a keyword becomes its word, with no target; any other text becomes `push n` when it parses as an i32; it fails with the row, column and text exactly when the text is neither |
| Lexer.KeywordRoundTrip | src/main.rs:148-247 | the keyword table is one-to-one: a keyword stands for a word whose spelling it is, and every word other than `push` is read back from its spelling |
| Lexer.ParseShow | src/main.rs:249-250 | parsing the decimal text of any i32 gives that i32 back |
| Lexer.LexShow | src/main.rs:248-263 | the decimal text of any i32, the form the generator writes for `push` at src/main.rs:486-487, is lexed back as that `push` |
| Lexer.Decimal | src/main.rs:486-487 | the decimal text of a number is non-empty and made of digits |
| Lexer.LexWordsFacts | src/main.rs:147-266 | a line's tokens carry the file, the row and each word's column, one per word and with no target; or the error is the row, column and text of a word that is neither a keyword nor a number |
| Lexer.LexRowsFacts | src/main.rs:143-268 | the tokens of the first n lines carry the file, a row from 1 to n and no target; or the error names a word of one of those lines that is neither a keyword nor a number |
| Lexer.LexLinesFacts | src/main.rs:139-269 | an empty file, and only an empty file, gives the no-lines error; otherwise as `LexRowsFacts` for all the lines |
| Lexer.WordFailureStays | src/main.rs:251-254 | the first bad word of a line decides the line's result |
| Lexer.RowFailureStays | src/main.rs:145-268 | the first failing line decides the file's result |
| Lexer.LexFile | src/main.rs:139-269 | the loop over lines, with its row counter, returns `LexLines(path, lines)` |
| Lexer.LexLine | src/main.rs:147-266 | the loop over a line's words returns that line's tokens, or the first bad word's error |
| Resolver.CrossreferenceBlocks | src/main.rs:276-357 | the loop with its stack and output vector returns `Resolve(program)`, the fold of one step per token; its invariant is `Inv` |
| Resolver.ResolveToken | src/main.rs:280-354 | the `match` on one token returns `ResolveStep`: the push, the pops, the patches of earlier slots and the four failures |
| Resolver.StepKeepsInv | src/main.rs:279-355 | under the pass's invariant, no index of a step is out of bounds, and a successful step keeps the invariant |
| Resolver.PassInv | src/main.rs:276-357 | the pass never panics on an index, and a successful pass ends in the invariant |
| Resolver.ResolveKeepsLayout | src/main.rs:276-357 | a successful pass returns one token per input token, in place; each keeps its instruction kind, and non-control tokens are copied unchanged |
| Resolver.UnclosedOpenersUnpatched | src/main.rs:355-356 | openers pending at the end are never patched: an unclosed `if`, `else` or `while` is the input token, and an unclosed `do` carries the earlier position it popped |
| Resolver.ResolvedTargetsInRange | src/main.rs:290-347 | on lexer output, every target produced is a position of the program or its exit address |
| Resolver.StepFailsExactly | src/main.rs:287-343 | a step fails exactly in the four situations `Fails` names: a closer with nothing pending, an `else` not closing an `if`, an `end` closing a `while`, or a `do` whose anchor is not a `while` |
| Resolver.ResolveFailsExactly | src/main.rs:276-357 | the pass fails exactly when one of those situations arises at a position reached without failure |
| Resolver.NoOpenerNoPending | src/main.rs:282-353 | tokens with no `if` or `while` among them leave nothing pending; a closer among them fails with the stack-empty diagnostic |
| Resolver.StrayCloserFails | src/main.rs:287-350 | an `else`, `end` or `do` with no opener before it stops the pass with the stack-empty diagnostic at itself or at an earlier stray closer |
| Blocks.ResolveWellNested | src/main.rs:276-357 | for every well-nested program, the pass succeeds, ends with nothing pending and gives the targets the nesting assigns: `if` to its `end` or past its `else`, `else` to its `end`, `end` to the next position or back to its `while`, and `do` past its `end` |
| Blocks.ResolveBlock | src/main.rs:279-355 | the tokens of any well-nested block, resolved from any state, leave the pending stack as they found it and append that block's resolved tokens |
| Interpreter.SimulateProgram | src/main.rs:372-437 | the simulator's loop, given a step budget, ends as `Run(program, Start(), fuel, rule)`: halted, faulted with its diagnostic, or out of budget |
| Interpreter.SimulateToken | src/main.rs:376-434 | the `match` on one token gives `Exec`, one turn of the loop |
| Interpreter.StackEmptyExactly | src/main.rs:377-433 | a turn stops with the stack-empty diagnostic exactly when the stack holds fewer values than the word takes, and the diagnostic carries the token's position |
| Interpreter.StackEffect | src/main.rs:377-433 | a successful turn changes the depth by what the word leaves minus what it takes, and only `.` prints: the value that was on top |
| Interpreter.BinaryWords | src/main.rs:379-406 | with `a` on top of `b`: `+` leaves a + b, `-` leaves b - a, `=` leaves 1 exactly when a = b, `>` leaves 1 exactly when b > a; a sum or difference outside 32 bits stops with the overflow error |
| Interpreter.UnaryWords | src/main.rs:394-401 | `.` prints and drops the top; `dup` doubles it |
| Interpreter.ControlWords | src/main.rs:407-433 | `if` and `do` pop and jump to their target on 0, and go on otherwise; `else` and `end` always jump; `while` goes on; a jump that is taken without a target fails |
| Interpreter.ControlEffect | src/main.rs:407-433 | a successful control word prints nothing and pops only the value `if` or `do` tests |
| Interpreter.Land | src/main.rs:410-432 | a jump lands on its target; as written it fails with the underflow exactly when the target is 0 |
| Interpreter.JumpRulesDiffer | src/main.rs:412-435 | the jump as written and the jump as intended agree on every turn except one that lands on position 0, where the code as written stops with the underflow |
| Interpreter.RunTurn | src/main.rs:375-436 | a run takes one turn and continues from its result, or stops at its diagnostic with the output so far |
| Interpreter.ExecOutputGrows | src/main.rs:394-396 | a turn never takes back what was printed |
| Interpreter.RunOutputGrows | src/main.rs:375-436 | a run's output extends what was printed before it, and a fault keeps the output up to the failing token |
| Interpreter.MoreFuelSameOutcome | src/main.rs:375-436 | once a run halts or faults within a budget, any larger budget gives the same outcome |
| Control.IfElseEndWords | src/main.rs:287-316 | in a resolved `if .. else .. end`, the `if` targets the position past the `else`, the `else` its `end`, and the `end` the next position |
| Control.LoopWords | src/main.rs:321-328 | in a resolved `while .. do .. end`, the `do` targets the position past the `end`, and the `end` its `while` |
| Control.IfEndControl | src/main.rs:407-424 | run, a resolved `if A end` goes from the `if` to its `end` on 0 and into `A` otherwise; the `end` continues after the block |
| Control.IfElseEndControl | src/main.rs:407-424 | run, a resolved `if A else B end` goes into `B` on 0 and into `A` otherwise; the `else` skips `B` to the `end`, which continues after the block |
| Control.LoopControl | src/main.rs:420-433 | run, a resolved loop's `do` exits past the `end` on 0 and enters the body otherwise; the `end` returns to the `while`, or as written stops with the underflow when the `while` is at position 0 |
| Control.Branch | src/main.rs:407-433 | an `if` or `do` with target t pops its condition and goes to t on 0 and to the next token otherwise |
| Control.Jump | src/main.rs:415-424 | an `else` or `end` with target t goes to t under the intended rule, and as written fails with the underflow when t is 0 |
| Control.LoopLineWords | src/main.rs:98-131 | the splitter cuts `while 1 do 7 . end` into its six words at the columns 1, 6, 8, 11, 13 and 15 it reports |
| Control.LoopAtStartLexed | src/main.rs:139-269 | that line, as the whole of a file, lexes into exactly the tokens of the example, with those columns and no targets |
| Control.LoopAtStartResolves | src/main.rs:276-357 | `while 1 do 7 . end` resolves with the `end` targeting position 0 |
| Control.LoopAtStartFaults | src/main.rs:420-424 | as written, the simulator prints 7 once and then stops at that `end` with the underflow |
| Control.Laps | src/main.rs:375-436 | n laps of that loop under the intended jump print n sevens and return to the `while` |
| Control.LoopAtStartLoops | src/main.rs:375-436 | under the intended jump the loop never halts: after 6n turns it is back at the `while`, having printed 7 n times |
| CodeGen.CompileProgram | src/main.rs:439-580 | the generator's loop returns `Compile(program)`: the prelude, each token's labelled code, then the exit; or the first missing target |
| CodeGen.CompileToken | src/main.rs:481-570 | the label and the instructions for one token, as `EmitToken` gives them |
| CodeGen.EmitWord | src/main.rs:484-570 | a word's code fails exactly when it is a control word without a target, naming its position; otherwise it starts with the word's comment |
| CodeGen.EmitUpToFails | src/main.rs:479-573 | the code of the first n tokens fails exactly when one of them lacks a target, and reports the first such token |
| CodeGen.CompileFailsExactly | src/main.rs:540-567 | the generator fails exactly when some control word has no target, and it reports the first one |
| CodeGen.WordLabels | src/main.rs:484-570 | a word's code has no label and jumps only to the word's own target |
| CodeGen.TokenLabels | src/main.rs:482-570 | the code of the token at position i carries the one label `addr_i` |
| CodeGen.EpilogueLabels | src/main.rs:575-579 | the exit carries the one label `addr_n` and no jump |
| CodeGen.CompiledLabels | src/main.rs:479-579 | the file's labels are `addr_0` .. `addr_n`, in order and each once |
| CodeGen.CompiledJumpsLand | src/main.rs:536-570 | when the program's targets are in range, every jump of the file lands on a label of the file |
| CodeGen.CompiledWordMatches | src/main.rs:484-570 | wherever the intended simulator takes a step on a word the generator accepts, that word's code leaves the same stack, hands `dump` the same values as the simulator prints, and goes to the same next address as the simulator's turn at src/main.rs:377-434; the values printed agree, not their text |
| CodeGen.PushCode | src/main.rs:485-490 | `push n` leaves n on top |
| CodeGen.PlusCode | src/main.rs:491-497 | the code for `+` leaves a + b |
| CodeGen.MinusCode | src/main.rs:498-504 | the code for `-` leaves b - a, with `a` on top of `b` |
| CodeGen.EqualCode | src/main.rs:505-514 | the code for `=` leaves 1 exactly when a = b, and 0 otherwise |
| CodeGen.GtCode | src/main.rs:526-534 | the code for `>` leaves 1 exactly when b > a, and 0 otherwise |
| CodeGen.DumpCode | src/main.rs:515-519 | the code for `.` prints the top and drops it |
| CodeGen.DupCode | src/main.rs:520-525 | the code for `dup` doubles the top |
| CodeGen.BranchCode | src/main.rs:536-544 | the code for `if` and `do` pops the condition and goes to the target on 0, and to the next word otherwise |
| CodeGen.JumpCode | src/main.rs:545-561 | the code for `else` and `end` goes to the target, an `end` whose target is the next word falling through; `while` goes on |

## Left out

- `main`, `usage` and `cmd_echoed` (src/main.rs:74-88,593-666) are left out: argument handling, the file extension check, and running `nasm` and `ld`.
- File I/O is left out. Opening and reading the source file (src/main.rs:133-138) is not modelled: `Lexer.LexFile` takes the file's lines. How `BufRead::lines` splits them, and a line that cannot be read, are not modelled either.
- Creating the output file and `write_to_file` (src/main.rs:441,582-591) are left out. The generator's result is a sequence of instructions, not text. The lines the source has already written when it exits at a missing target are not modelled.
- The `dump` routine (src/main.rs:444-476) is left out. In the processor model, `call dump` appends `rdi`, as a signed value, to the output; the digit loop, which reads `rdi` as unsigned, and the write system call are not modelled.
- `load_program_from_file` (src/main.rs:272-274) is the composition of `Lexer.LexFile` and `Resolver.CrossreferenceBlocks`, and has no member of its own.
- Printed text is left out. What `.` prints is a sequence of values, and each diagnostic is an `Error` value; message text, including the parse error's wording, is not modelled.
- The `;; -- word --` comments are `Note(w)`; their text is not modelled.
- Interpreter.Exec: `+` and `-` are checked 32-bit arithmetic that stops with `Overflow`, as a debug build panics; the wrap-around of a release build is not modelled.
- CodeGen.CompiledWordMatches: the generated code computes on 64-bit registers with no overflow check, while the simulator works on i32. The match is therefore stated only for steps the simulator completes, where no overflow occurs.
- CodeGen.CompiledWordMatches: the match is on the values printed, not on the text. The compiled `dump` routine (src/main.rs:444-476) prints `rdi` as an unsigned 64-bit number, so a negative value appears as its two's-complement form: `-1 .` prints 18446744073709551615 when compiled, where the simulator prints -1 (src/main.rs:394-396).
- CodeGen.CompiledWordMatches: the match is proved one word at a time, from agreeing states. Agreement of whole runs, and what compiled code does where the simulator faults (an empty stack, a missing target), are not stated.
- Interpreter.SimulateProgram: the source loop has no bound. The model takes a step budget and ends `OutOfFuel` when it runs out; `Interpreter.MoreFuelSameOutcome` shows that the budget only cuts runs short.
- Resolver.ResolveToken: requires the state the loop maintains (`Ready`), so that its vector indexing is in bounds. `ResolveStep` keeps the index-panic branches, and `Resolver.StepKeepsInv` proves that they never arise.
- Lexer.ParseI32 models `str::parse::<i32>` as an optional sign, one or more ASCII digits and a value in range; the kinds of parse error are not modelled.
- The `trim` of src/main.rs:119 is modelled as a test for the empty word, because a word never holds whitespace.
- `char::is_whitespace` is modelled by the Unicode `White_Space` list in `Lexer.IsWhitespace`.

## Findings

| source | as written | input that shows it | evidently intended | confidence | as-written member | corrected member |
|---|---|---|---|---|---|---|
| src/main.rs:423 | an `end` jumps by setting the unsigned position to `target - 1` before the loop's `+ 1`, so a jump back to a `while` at position 0 computes `0 - 1`, which panics in a debug build | `while 1 do 7 . end` | jump back to position 0 and test the condition again, as for a `while` anywhere else; a release build's wrap-around happens to do this | not executed | Control.LoopAtStartFaults | Control.LoopAtStartLoops |
