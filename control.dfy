/** What the resolved targets of a well-nested block make the simulator do. */
module Control {
  import opened Syntax
  import opened Resolver
  import opened Blocks
  import opened Interpreter
  import Lexer

  /** A token of a part that sits in `program`. */
  lemma At(program: seq<Token>, base: nat, part: seq<Token>, k: nat)
    requires Occurs(program, base, part) && k < |part|
    ensures program[base + k] == part[k]
  {
    assert program[base .. base + |part|][k] == part[k];
  }

  /** The control words of a resolved `if` .. `else` .. `end` block, by offset. */
  lemma IfElseEndWords(b: Block, base: nat)
    requires b.IfElseEnd?
    ensures var elseAt := base + 1 + |FlattenSeq(b.thn)|;
            var endAt := elseAt + 1 + |FlattenSeq(b.els)|;
            var r := Resolved(b, base);
            && |r| == endAt + 1 - base
            && r[0].word == OpIf(Some(elseAt + 1))
            && r[elseAt - base].word == OpElse(Some(endAt))
            && r[endAt - base].word == OpEnd(Some(endAt + 1))
  {
  }

  /** The control words of a resolved `while` .. `do` .. `end` block, by offset. */
  lemma LoopWords(b: Block, base: nat)
    requires b.Loop? && WellFormed(b)
    ensures var doAt := base + 1 + |FlattenSeq(b.cond)|;
            var endAt := doAt + 1 + |FlattenSeq(b.body)|;
            var r := Resolved(b, base);
            && |r| == endAt + 1 - base
            && r[0].word == OpWhile
            && r[doAt - base].word == OpDo(Some(endAt + 1))
            && r[endAt - base].word == OpEnd(Some(base))
  {
  }

  function Popped(stack: seq<i32>): seq<i32>
    requires stack != []
  {
    stack[..|stack| - 1]
  }

  /** `if A end`: a 0 on top sends the simulator from the `if` to the `end`, anything else into
      `A`; the `end` continues after the block. */
  lemma IfEndControl(program: seq<Token>, b: Block, base: nat, stack: seq<i32>, output: seq<i32>)
    requires b.IfEnd? && WellFormed(b)
    requires Occurs(program, base, Resolved(b, base))
    ensures var endAt := base + 1 + |FlattenSeq(b.body)|;
            && (stack != [] ==>
                  Exec(program, Machine(base, stack, output), Intended) ==
                    Ok(Machine(if stack[|stack| - 1] == 0 then endAt else base + 1, Popped(stack), output)))
            && Exec(program, Machine(endAt, stack, output), Intended) == Ok(Machine(endAt + 1, stack, output))
  {
    var endAt := base + 1 + |FlattenSeq(b.body)|;
    var r := Resolved(b, base);
    At(program, base, r, 0);
    At(program, base, r, endAt - base);
    Branch(program, Machine(base, stack, output), endAt);
    Jump(program, Machine(endAt, stack, output), endAt + 1);
  }

  /** `if A else B end`: a 0 on top sends the simulator from the `if` into `B`, anything else
      into `A`; the `else` skips `B` to the `end`, which continues after the block. */
  lemma IfElseEndControl(program: seq<Token>, b: Block, base: nat, stack: seq<i32>, output: seq<i32>)
    requires b.IfElseEnd? && WellFormed(b)
    requires Occurs(program, base, Resolved(b, base))
    ensures var elseAt := base + 1 + |FlattenSeq(b.thn)|;
            var endAt := elseAt + 1 + |FlattenSeq(b.els)|;
            && (stack != [] ==>
                  Exec(program, Machine(base, stack, output), Intended) ==
                    Ok(Machine(if stack[|stack| - 1] == 0 then elseAt + 1 else base + 1, Popped(stack), output)))
            && Exec(program, Machine(elseAt, stack, output), Intended) == Ok(Machine(endAt, stack, output))
            && Exec(program, Machine(endAt, stack, output), Intended) == Ok(Machine(endAt + 1, stack, output))
  {
    var elseAt := base + 1 + |FlattenSeq(b.thn)|;
    var endAt := elseAt + 1 + |FlattenSeq(b.els)|;
    var r := Resolved(b, base);
    IfElseEndWords(b, base);
    At(program, base, r, 0);
    At(program, base, r, elseAt - base);
    At(program, base, r, endAt - base);
    Branch(program, Machine(base, stack, output), elseAt + 1);
    Jump(program, Machine(elseAt, stack, output), endAt);
    Jump(program, Machine(endAt, stack, output), endAt + 1);
  }

  /** `while C do B end`: the `do` sends the simulator past the `end` when it pops 0, and into
      `B` otherwise; the `end` goes back to the `while`, or, as written, stops with the
      unsigned underflow when the `while` is at position 0. */
  lemma LoopControl(program: seq<Token>, b: Block, base: nat, stack: seq<i32>, output: seq<i32>)
    requires b.Loop? && WellFormed(b)
    requires Occurs(program, base, Resolved(b, base))
    ensures var doAt := base + 1 + |FlattenSeq(b.cond)|;
            var endAt := doAt + 1 + |FlattenSeq(b.body)|;
            && Exec(program, Machine(base, stack, output), Intended) == Ok(Machine(base + 1, stack, output))
            && (stack != [] ==>
                  Exec(program, Machine(doAt, stack, output), Intended) ==
                    Ok(Machine(if stack[|stack| - 1] == 0 then endAt + 1 else doAt + 1, Popped(stack), output)))
            && Exec(program, Machine(endAt, stack, output), Intended) == Ok(Machine(base, stack, output))
            && Exec(program, Machine(endAt, stack, output), AsWritten) ==
                 (if base == 0 then Err(PcUnderflow(endAt)) else Ok(Machine(base, stack, output)))
  {
    var doAt := base + 1 + |FlattenSeq(b.cond)|;
    var endAt := doAt + 1 + |FlattenSeq(b.body)|;
    var r := Resolved(b, base);
    LoopWords(b, base);
    At(program, base, r, 0);
    At(program, base, r, doAt - base);
    At(program, base, r, endAt - base);
    assert Exec(program, Machine(base, stack, output), Intended) == Ok(Machine(base + 1, stack, output));
    Branch(program, Machine(doAt, stack, output), endAt + 1);
    Jump(program, Machine(endAt, stack, output), base);
  }

  /** An `if` or `do` whose target is `t`. */
  lemma Branch(program: seq<Token>, m: Machine, t: nat)
    requires m.pc < |program| && program[m.pc].word in {OpIf(Some(t)), OpDo(Some(t))}
    ensures m.stack != [] ==>
              Exec(program, m, Intended) ==
                Ok(Machine(if m.stack[|m.stack| - 1] == 0 then t else m.pc + 1, Popped(m.stack), m.output))
  {
    ControlWords(program, m);
  }

  /** An `else` or `end` whose target is `t`, under both jump rules. */
  lemma Jump(program: seq<Token>, m: Machine, t: nat)
    requires m.pc < |program| && program[m.pc].word in {OpElse(Some(t)), OpEnd(Some(t))}
    ensures Exec(program, m, Intended) == Ok(Machine(t, m.stack, m.output))
    ensures Exec(program, m, AsWritten) == if t == 0 then Err(PcUnderflow(m.pc)) else Ok(Machine(t, m.stack, m.output))
  {
    ControlWords(program, m);
    JumpRulesDiffer(program, m);
  }

  // ---------------------------------------------------------------------------
  // A loop at position 0

  function Tok(col: nat, w: Word): Token {
    Token("loop.rf", col, 1, w)
  }

  /** The one line of the example file. */
  function LoopLine(): string {
    "while 1 do 7 . end"
  }

  /** A word running from `i` up to the whitespace (or end of line) at `j`. */
  lemma AfterWord(line: string, i: nat, j: nat)
    requires i < j <= |line|
    requires forall p :: i <= p < j ==> !Lexer.IsWhitespace(line[p])
    requires j == |line| || Lexer.IsWhitespace(line[j])
    ensures Lexer.After(line, i) == [(line[i..j], Lexer.Col(i))] + Lexer.After(line, j)
  {
    assert Lexer.RunEnd(line, i) == j;
  }

  /** The splitter's steps over the line, one word each, from the whitespace before it. */
  lemma LoopLineEnd()
    ensures Lexer.After(LoopLine(), 14) == [("end", 15)]
  {
    assert Lexer.After(LoopLine(), 18) == [];
    AfterWord(LoopLine(), 15, 18);
    assert LoopLine()[15..18] == "end";
  }

  lemma LoopLineDot()
    ensures Lexer.After(LoopLine(), 12) == [(".", 13)] + Lexer.After(LoopLine(), 14)
  {
    AfterWord(LoopLine(), 13, 14);
    assert LoopLine()[13..14] == ".";
  }

  lemma LoopLineSeven()
    ensures Lexer.After(LoopLine(), 10) == [("7", 11)] + Lexer.After(LoopLine(), 12)
  {
    AfterWord(LoopLine(), 11, 12);
    assert LoopLine()[11..12] == "7";
  }

  lemma LoopLineDo()
    ensures Lexer.After(LoopLine(), 7) == [("do", 8)] + Lexer.After(LoopLine(), 10)
  {
    AfterWord(LoopLine(), 8, 10);
    assert LoopLine()[8..10] == "do";
  }

  lemma LoopLineOne()
    ensures Lexer.After(LoopLine(), 5) == [("1", 6)] + Lexer.After(LoopLine(), 7)
  {
    AfterWord(LoopLine(), 6, 7);
    assert LoopLine()[6..7] == "1";
  }

  lemma LoopLineWhile()
    ensures Lexer.After(LoopLine(), 0) == [("while", 1)] + Lexer.After(LoopLine(), 5)
  {
    AfterWord(LoopLine(), 0, 5);
    assert LoopLine()[0..5] == "while";
  }

  /** The six steps put together, for any line that takes them. */
  lemma LoopLineChain(line: string)
    requires |line| == 18
    requires Lexer.After(line, 0) == [("while", 1)] + Lexer.After(line, 5)
    requires Lexer.After(line, 5) == [("1", 6)] + Lexer.After(line, 7)
    requires Lexer.After(line, 7) == [("do", 8)] + Lexer.After(line, 10)
    requires Lexer.After(line, 10) == [("7", 11)] + Lexer.After(line, 12)
    requires Lexer.After(line, 12) == [(".", 13)] + Lexer.After(line, 14)
    requires Lexer.After(line, 14) == [("end", 15)]
    ensures Lexer.Words(line) == [("while", 1), ("1", 6), ("do", 8), ("7", 11), (".", 13), ("end", 15)]
  {
  }

  /** The splitter cuts the line into its six words, each with the column it reports. */
  lemma LoopLineWords()
    ensures Lexer.Words(LoopLine()) == [("while", 1), ("1", 6), ("do", 8), ("7", 11), (".", 13), ("end", 15)]
  {
    LoopLineWhile();
    LoopLineOne();
    LoopLineDo();
    LoopLineSeven();
    LoopLineDot();
    LoopLineEnd();
    LoopLineChain(LoopLine());
  }

  /** Each of the six words is a keyword or a number. */
  lemma LoopWordsLex()
    ensures Lexer.LexWord("while", 1, 1) == Ok(OpWhile)
    ensures Lexer.LexWord("1", 1, 6) == Ok(OpPush(1))
    ensures Lexer.LexWord("do", 1, 8) == Ok(OpDo(None))
    ensures Lexer.LexWord("7", 1, 11) == Ok(OpPush(7))
    ensures Lexer.LexWord(".", 1, 13) == Ok(OpDump)
    ensures Lexer.LexWord("end", 1, 15) == Ok(OpEnd(None))
  {
    Lexer.ParseShow(1);
    Lexer.ParseShow(7);
    assert Lexer.Show(1) == "1" && Lexer.Show(7) == "7";
  }

  /** One more word of a line: its token follows the tokens of the words before it. */
  lemma LexWordsStep(path: string, row: nat, words: seq<(string, nat)>, n: nat, before: seq<Token>, w: Word)
    requires 1 <= n <= |words|
    requires Lexer.LexWords(path, row, words, n - 1) == Ok(before)
    requires Lexer.LexWord(words[n - 1].0, row, words[n - 1].1) == Ok(w)
    ensures Lexer.LexWords(path, row, words, n) == Ok(before + [Token(path, words[n - 1].1, row, w)])
  {
  }

  /** The example flattens to its six tokens, targets still open. */
  lemma LoopAtStartFlat()
    ensures FlattenSeq(LoopAtStart()) ==
            [Tok(1, OpWhile), Tok(6, OpPush(1)), Tok(8, OpDo(None)), Tok(11, OpPush(7)), Tok(13, OpDump),
             Tok(15, OpEnd(None))]
  {
  }

  /** The six words lexed in order. */
  lemma LoopLineTokens()
    ensures Lexer.LexWords("loop.rf", 1, [("while", 1), ("1", 6), ("do", 8), ("7", 11), (".", 13), ("end", 15)], 6)
            == Ok([Tok(1, OpWhile), Tok(6, OpPush(1)), Tok(8, OpDo(None)), Tok(11, OpPush(7)), Tok(13, OpDump),
                   Tok(15, OpEnd(None))])
  {
    LoopWordsLex();
    var p := "loop.rf";
    var words := [("while", 1), ("1", 6), ("do", 8), ("7", 11), (".", 13), ("end", 15)];
    assert Lexer.LexWords(p, 1, words, 0) == Ok([]);
    LexWordsStep(p, 1, words, 1, [], OpWhile);
    var t1 := [] + [Tok(1, OpWhile)];
    LexWordsStep(p, 1, words, 2, t1, OpPush(1));
    var t2 := t1 + [Tok(6, OpPush(1))];
    LexWordsStep(p, 1, words, 3, t2, OpDo(None));
    var t3 := t2 + [Tok(8, OpDo(None))];
    LexWordsStep(p, 1, words, 4, t3, OpPush(7));
    var t4 := t3 + [Tok(11, OpPush(7))];
    LexWordsStep(p, 1, words, 5, t4, OpDump);
    var t5 := t4 + [Tok(13, OpDump)];
    LexWordsStep(p, 1, words, 6, t5, OpEnd(None));
    assert t5 + [Tok(15, OpEnd(None))] ==
           [Tok(1, OpWhile), Tok(6, OpPush(1)), Tok(8, OpDo(None)), Tok(11, OpPush(7)), Tok(13, OpDump),
            Tok(15, OpEnd(None))];
  }

  /** The lexer reads that line as the tokens of the example. */
  lemma LoopAtStartLexed()
    ensures Lexer.LexLines("loop.rf", [LoopLine()]) == Ok(FlattenSeq(LoopAtStart()))
  {
    LoopLineWords();
    LoopLineTokens();
    LoopAtStartFlat();
    var p := "loop.rf";
    var toks := FlattenSeq(LoopAtStart());
    assert Lexer.LexRows(p, [LoopLine()], 0) == Ok([]);
    assert Lexer.LexRows(p, [LoopLine()], 1) == Ok([] + toks);
    assert [] + toks == toks;
  }

  /** `while 1 do 7 . end` on one line. */
  function LoopAtStart(): seq<Block> {
    [Loop(Tok(1, OpWhile), [Plain(Tok(6, OpPush(1)))], Tok(8, OpDo(None)),
          [Plain(Tok(11, OpPush(7))), Plain(Tok(13, OpDump))], Tok(15, OpEnd(None)))]
  }

  /** Its resolved form: the `do` slot, rebuilt from the `end` token, jumps past the `end`, and
      the `end` jumps back to position 0. */
  function LoopAtStartResolved(): seq<Token> {
    [Tok(1, OpWhile), Tok(6, OpPush(1)), Tok(15, OpDo(Some(6))), Tok(11, OpPush(7)), Tok(13, OpDump),
     Tok(15, OpEnd(Some(0)))]
  }

  /** One lap of the loop, from the `while` to the `end`: 7 is printed and the stack is left
      empty. */
  lemma Lap(output: seq<i32>, rule: JumpRule)
    ensures var p := LoopAtStartResolved();
            && Exec(p, Machine(0, [], output), rule) == Ok(Machine(1, [], output))
            && Exec(p, Machine(1, [], output), rule) == Ok(Machine(2, [1], output))
            && Exec(p, Machine(2, [1], output), rule) == Ok(Machine(3, [], output))
            && Exec(p, Machine(3, [], output), rule) == Ok(Machine(4, [7], output))
            && Exec(p, Machine(4, [7], output), rule) == Ok(Machine(5, [], output + [7]))
  {
    LapPushes(output, rule);
    LapTest(output, rule);
    LapPrint(output, rule);
  }

  /** The `while` goes on, and each `push` pushes its value. */
  lemma LapPushes(output: seq<i32>, rule: JumpRule)
    ensures var p := LoopAtStartResolved();
            && Exec(p, Machine(0, [], output), rule) == Ok(Machine(1, [], output))
            && Exec(p, Machine(1, [], output), rule) == Ok(Machine(2, [1], output))
            && Exec(p, Machine(3, [], output), rule) == Ok(Machine(4, [7], output))
  {
    var empty: seq<i32> := [];
    assert empty + [1] == [1] && empty + [7] == [7];
  }

  /** The `do` finds 1 and goes on into the body. */
  lemma LapTest(output: seq<i32>, rule: JumpRule)
    ensures Exec(LoopAtStartResolved(), Machine(2, [1], output), rule) == Ok(Machine(3, [], output))
  {
    assert [1][..|[1]| - 1] == [];
    ControlWords(LoopAtStartResolved(), Machine(2, [1], output));
  }

  /** The `.` prints the 7. */
  lemma LapPrint(output: seq<i32>, rule: JumpRule)
    ensures Exec(LoopAtStartResolved(), Machine(4, [7], output), rule) == Ok(Machine(5, [], output + [7]))
  {
    UnaryWords(LoopAtStartResolved(), Machine(4, [7], output), rule, [], 7);
  }

  /** Six turns of the intended simulator go round the loop once. */
  lemma LapIntended(output: seq<i32>, fuel: nat)
    ensures Run(LoopAtStartResolved(), Machine(0, [], output), fuel + 6, Intended) ==
            Run(LoopAtStartResolved(), Machine(0, [], output + [7]), fuel, Intended)
  {
    var p := LoopAtStartResolved();
    Lap(output, Intended);
    assert Exec(p, Machine(5, [], output + [7]), Intended) == Ok(Machine(0, [], output + [7]));
    RunTurn(p, Machine(0, [], output), fuel + 6, Intended);
    RunTurn(p, Machine(1, [], output), fuel + 5, Intended);
    RunTurn(p, Machine(2, [1], output), fuel + 4, Intended);
    RunTurn(p, Machine(3, [], output), fuel + 3, Intended);
    RunTurn(p, Machine(4, [7], output), fuel + 2, Intended);
    RunTurn(p, Machine(5, [], output + [7]), fuel + 1, Intended);
  }

  /** The resolver gives the loop its targets. */
  lemma LoopAtStartResolves()
    ensures Resolve(FlattenSeq(LoopAtStart())) == Ok(LoopAtStartResolved())
  {
    var bs := LoopAtStart();
    var b := bs[0];
    assert |FlattenSeq(b.cond)| == 1 && |FlattenSeq(b.body)| == 2;
    assert ResolvedSeq(b.cond, 1) == [Tok(6, OpPush(1))];
    assert ResolvedSeq(b.body, 3) == [Tok(11, OpPush(7)), Tok(13, OpDump)];
    assert ResolvedSeq(bs, 0) == Resolved(b, 0) == LoopAtStartResolved();
    ResolveWellNested(bs);
  }

  /** The simulator as written prints 7 once and then stops at the `end` with the unsigned
      underflow. */
  lemma LoopAtStartFaults()
    ensures Run(LoopAtStartResolved(), Start(), 6, AsWritten) == Faulted(PcUnderflow(5), [7])
  {
    var p := LoopAtStartResolved();
    Lap([], AsWritten);
    assert Exec(p, Machine(5, [], [7]), AsWritten) == Err(PcUnderflow(5));
    RunTurn(p, Machine(0, [], []), 6, AsWritten);
    RunTurn(p, Machine(1, [], []), 5, AsWritten);
    RunTurn(p, Machine(2, [1], []), 4, AsWritten);
    RunTurn(p, Machine(3, [], []), 3, AsWritten);
    RunTurn(p, Machine(4, [7], []), 2, AsWritten);
    RunTurn(p, Machine(5, [], [7]), 1, AsWritten);
  }

  /** `n` sevens: what `n` laps of the loop print. */
  function Sevens(n: nat): (r: seq<i32>)
    ensures |r| == n
    ensures forall k :: 0 <= k < n ==> r[k] == 7
  {
    if n == 0 then [] else Sevens(n - 1) + [7]
  }

  /** `n` laps of the intended simulator print `n` sevens and come back to the `while`. */
  lemma {:induction false} Laps(output: seq<i32>, n: nat, fuel: nat)
    ensures Run(LoopAtStartResolved(), Machine(0, [], output), 6 * n + fuel, Intended) ==
            Run(LoopAtStartResolved(), Machine(0, [], output + Sevens(n)), fuel, Intended)
    decreases n
  {
    if n == 0 {
      assert output + Sevens(0) == output;
    } else {
      Laps(output, n - 1, fuel + 6);
      LapIntended(output + Sevens(n - 1), fuel);
      assert output + Sevens(n - 1) + [7] == output + Sevens(n);
    }
  }

  /** With the intended jump the loop never halts: after `6 * n` turns the simulator is back at
      the `while` having printed 7 `n` times. */
  lemma LoopAtStartLoops(n: nat)
    ensures Run(LoopAtStartResolved(), Start(), 6 * n, Intended) == OutOfFuel(Machine(0, [], Sevens(n)))
  {
    Laps([], n, 0);
    assert [] + Sevens(n) == Sevens(n);
  }
}
