/** The simulator: runs a resolved program on a stack of signed 32-bit integers. */
module Interpreter {
  import opened Syntax

  /** The simulator's state: the next position, the value stack (top last) and what `.` printed. */
  datatype Machine = Machine(pc: nat, stack: seq<i32>, output: seq<i32>)

  /** How a run ends: the position ran past the last token, a diagnostic stopped it, or the
      step budget ran out first (the simulator itself has no budget; a program may loop forever). */
  datatype Outcome =
    | Halted(output: seq<i32>)
    | Faulted(error: Error, output: seq<i32>)
    | OutOfFuel(machine: Machine)

  /** How a jump to `target` lands. The simulator sets the position to `target - 1` on an unsigned
      index and then steps past it: `AsWritten` keeps the debug-build panic of `0 - 1`,
      `Intended` lands on `target` for every target. */
  datatype JumpRule = AsWritten | Intended

  function Land(rule: JumpRule, target: nat, at: nat): (r: Result<nat, Error>)
    ensures r.Ok? ==> r.value == target
    ensures r.Err? <==> rule == AsWritten && target == 0
    ensures r.Err? ==> r.error == PcUnderflow(at)
  {
    match rule
    case Intended => Ok(target)
    case AsWritten => if target == 0 then Err(PcUnderflow(at)) else Ok(target - 1 + 1)
  }

  /** `pop` followed by the stack-empty diagnostic of `token`: the top and the rest. */
  function Pop(stack: seq<i32>, token: Token): (r: Result<(i32, seq<i32>), Error>)
    ensures r.Ok? <==> stack != []
    ensures r.Ok? ==> stack == r.value.1 + [r.value.0]
    ensures r.Err? ==> r.error == StackEmpty(token.filePath, token.row, token.col)
  {
    var top :- HandleStackEmpty(Top(stack), token);
    Ok((top, stack[..|stack| - 1]))
  }

  /** Checked 32-bit arithmetic: a result out of range stops the simulator. */
  function Checked(x: int, at: nat): (r: Result<i32, Error>)
    ensures r.Ok? <==> InI32(x)
    ensures r.Ok? ==> r.value as int == x
    ensures r.Err? ==> r.error == Overflow(at)
  {
    if InI32(x) then Ok(x as i32) else Err(Overflow(at))
  }

  function Bool(b: bool): i32 {
    if b then 1 else 0
  }

  /** A control word's target, or the diagnostic for a word the resolver left unpatched. */
  function Target(t: Option<nat>, at: nat): (r: Result<nat, Error>)
    ensures r.Ok? <==> t.Some?
    ensures r.Ok? ==> r.value == t.value
    ensures r.Err? ==> r.error == MissingTarget(at)
  {
    match t
    case None => Err(MissingTarget(at))
    case Some(x) => Ok(x)
  }

  /** One turn of the simulator's loop at position `m.pc`. In a binary word `a` is popped
      first (the top) and `b` second. */
  function Exec(program: seq<Token>, m: Machine, rule: JumpRule): Result<Machine, Error>
    requires m.pc < |program|
  {
    var token := program[m.pc];
    var next := m.pc + 1;
    match token.word
    case OpPush(n) => Ok(Machine(next, m.stack + [n], m.output))
    case OpPlus =>
      var (a, s1) :- Pop(m.stack, token);
      var (b, s2) :- Pop(s1, token);
      var sum :- Checked(a as int + b as int, m.pc);
      Ok(Machine(next, s2 + [sum], m.output))
    case OpMinus =>
      var (a, s1) :- Pop(m.stack, token);
      var (b, s2) :- Pop(s1, token);
      var diff :- Checked(b as int - a as int, m.pc);
      Ok(Machine(next, s2 + [diff], m.output))
    case OpEqual =>
      var (a, s1) :- Pop(m.stack, token);
      var (b, s2) :- Pop(s1, token);
      Ok(Machine(next, s2 + [Bool(a == b)], m.output))
    case OpDump =>
      var (a, s1) :- Pop(m.stack, token);
      Ok(Machine(next, s1, m.output + [a]))
    case OpDup =>
      var (a, s1) :- Pop(m.stack, token);
      Ok(Machine(next, s1 + [a, a], m.output))
    case OpGt =>
      var (a, s1) :- Pop(m.stack, token);
      var (b, s2) :- Pop(s1, token);
      Ok(Machine(next, s2 + [Bool(a < b)], m.output))
    case OpIf(t) =>
      var (a, s1) :- Pop(m.stack, token);
      if a == 0 then
        var target :- Target(t, m.pc);
        var pc :- Land(rule, target, m.pc);
        Ok(Machine(pc, s1, m.output))
      else
        Ok(Machine(next, s1, m.output))
    case OpElse(t) =>
      var target :- Target(t, m.pc);
      var pc :- Land(rule, target, m.pc);
      Ok(Machine(pc, m.stack, m.output))
    case OpEnd(t) =>
      var target :- Target(t, m.pc);
      var pc :- Land(rule, target, m.pc);
      Ok(Machine(pc, m.stack, m.output))
    case OpWhile => Ok(Machine(next, m.stack, m.output))
    case OpDo(t) =>
      var (a, s1) :- Pop(m.stack, token);
      if a == 0 then
        var target :- Target(t, m.pc);
        var pc :- Land(rule, target, m.pc);
        Ok(Machine(pc, s1, m.output))
      else
        Ok(Machine(next, s1, m.output))
  }

  /** At most `fuel` turns of the simulator's loop from `m`. */
  function Run(program: seq<Token>, m: Machine, fuel: nat, rule: JumpRule): Outcome
    decreases fuel
  {
    if m.pc >= |program| then Halted(m.output)
    else if fuel == 0 then OutOfFuel(m)
    else
      match Exec(program, m, rule)
      case Err(e) => Faulted(e, m.output)
      case Ok(m2) => Run(program, m2, fuel - 1, rule)
  }

  function Start(): Machine {
    Machine(0, [], [])
  }

  // ---------------------------------------------------------------------------
  // What one turn does

  /** How many values a word takes off the stack. */
  function Pops(w: Word): nat {
    match w
    case OpPlus | OpMinus | OpEqual | OpGt => 2
    case OpDump | OpDup | OpIf(_) | OpDo(_) => 1
    case _ => 0
  }

  /** How many values a word leaves on the stack. */
  function Pushes(w: Word): nat {
    match w
    case OpPush(_) | OpPlus | OpMinus | OpEqual | OpGt => 1
    case OpDup => 2
    case _ => 0
  }

  /** A turn stops with the stack-empty diagnostic of the current token exactly when the
      stack holds fewer values than the word takes. */
  lemma StackEmptyExactly(program: seq<Token>, m: Machine, rule: JumpRule)
    requires m.pc < |program|
    ensures var r := Exec(program, m, rule);
            (r.Err? && r.error.StackEmpty?) <==> |m.stack| < Pops(program[m.pc].word)
    ensures var r := Exec(program, m, rule);
            r.Err? && r.error.StackEmpty? ==>
              r.error == StackEmpty(program[m.pc].filePath, program[m.pc].row, program[m.pc].col)
  {
    var w := program[m.pc].word;
    if Pops(w) == 2 {
      TwoPopsEmpty(program, m, rule);
    } else if w.OpDump? || w.OpDup? {
      OnePopEmpty(program, m, rule);
    } else {
      FewPopsEmpty(program, m, rule);
    }
  }

  /** The same for the two-operand words. */
  lemma TwoPopsEmpty(program: seq<Token>, m: Machine, rule: JumpRule)
    requires m.pc < |program| && Pops(program[m.pc].word) == 2
    ensures var r := Exec(program, m, rule);
            (r.Err? && r.error.StackEmpty?) <==> |m.stack| < Pops(program[m.pc].word)
    ensures var r := Exec(program, m, rule);
            r.Err? && r.error.StackEmpty? ==>
              r.error == StackEmpty(program[m.pc].filePath, program[m.pc].row, program[m.pc].col)
  {
    if |m.stack| >= 2 {
      TwoPopsFull(program, m, rule);
    } else {
      TwoPopsShort(program, m, rule);
    }
  }

  lemma TwoPopsFull(program: seq<Token>, m: Machine, rule: JumpRule)
    requires m.pc < |program| && Pops(program[m.pc].word) == 2 && |m.stack| >= 2
    ensures var r := Exec(program, m, rule); r.Ok? || !r.error.StackEmpty?
  {
    var s := m.stack;
    assert s == s[..|s| - 2] + [s[|s| - 2], s[|s| - 1]];
    BinaryWords(program, m, rule, s[..|s| - 2], s[|s| - 2], s[|s| - 1]);
  }

  lemma TwoPopsShort(program: seq<Token>, m: Machine, rule: JumpRule)
    requires m.pc < |program| && Pops(program[m.pc].word) == 2 && |m.stack| < 2
    ensures Exec(program, m, rule) == Err(StackEmpty(program[m.pc].filePath, program[m.pc].row, program[m.pc].col))
  {
    var token := program[m.pc];
    assert Pop([], token) == Err(StackEmpty(token.filePath, token.row, token.col));
    assert |m.stack| == 1 ==> Pop(m.stack, token) == Ok((m.stack[0], []));
  }

  /** The same for `.` and `dup`. */
  lemma OnePopEmpty(program: seq<Token>, m: Machine, rule: JumpRule)
    requires m.pc < |program| && (program[m.pc].word.OpDump? || program[m.pc].word.OpDup?)
    ensures var r := Exec(program, m, rule);
            (r.Err? && r.error.StackEmpty?) <==> |m.stack| < Pops(program[m.pc].word)
    ensures var r := Exec(program, m, rule);
            r.Err? && r.error.StackEmpty? ==>
              r.error == StackEmpty(program[m.pc].filePath, program[m.pc].row, program[m.pc].col)
  {
    var s := m.stack;
    if s != [] {
      assert s == s[..|s| - 1] + [s[|s| - 1]];
      UnaryWords(program, m, rule, s[..|s| - 1], s[|s| - 1]);
    }
  }

  /** The same for the words that take at most one value and test it. */
  lemma FewPopsEmpty(program: seq<Token>, m: Machine, rule: JumpRule)
    requires m.pc < |program| && Pops(program[m.pc].word) < 2 && !program[m.pc].word.OpDump? && !program[m.pc].word.OpDup?
    ensures var r := Exec(program, m, rule);
            (r.Err? && r.error.StackEmpty?) <==> |m.stack| < Pops(program[m.pc].word)
    ensures var r := Exec(program, m, rule);
            r.Err? && r.error.StackEmpty? ==>
              r.error == StackEmpty(program[m.pc].filePath, program[m.pc].row, program[m.pc].col)
  {
    match program[m.pc].word {
      case OpPush(_) =>
      case OpIf(_) =>
      case OpDo(_) =>
      case OpElse(_) =>
      case OpEnd(_) =>
      case OpWhile =>
    }
  }

  /** A turn that succeeds changes the depth of the stack by what the word leaves minus what
      it takes, and only `.` prints: the value that was on top. */
  lemma StackEffect(program: seq<Token>, m: Machine, rule: JumpRule)
    requires m.pc < |program| && Exec(program, m, rule).Ok?
    ensures var w, m2 := program[m.pc].word, Exec(program, m, rule).value;
            && |m.stack| >= Pops(w)
            && |m2.stack| == |m.stack| - Pops(w) + Pushes(w)
            && m2.output == m.output + (if w == OpDump then [m.stack[|m.stack| - 1]] else [])
  {
    StackEmptyExactly(program, m, rule);
    var w, s := program[m.pc].word, m.stack;
    if Pops(w) == 2 {
      assert s == s[..|s| - 2] + [s[|s| - 2], s[|s| - 1]];
      BinaryWords(program, m, rule, s[..|s| - 2], s[|s| - 2], s[|s| - 1]);
    } else if w.OpDump? || w.OpDup? {
      assert s == s[..|s| - 1] + [s[|s| - 1]];
      UnaryWords(program, m, rule, s[..|s| - 1], s[|s| - 1]);
    } else if !w.OpPush? {
      ControlEffect(program, m, rule);
    }
  }

  /** A control word that succeeds pops the tested value (`if`, `do`) or leaves the stack
      alone, and prints nothing. */
  lemma ControlEffect(program: seq<Token>, m: Machine, rule: JumpRule)
    requires m.pc < |program| && (program[m.pc].word.IsControl() || program[m.pc].word.OpWhile?)
    requires Exec(program, m, rule).Ok?
    ensures var w, m2 := program[m.pc].word, Exec(program, m, rule).value;
            && m2.output == m.output
            && m2.stack == if w.OpIf? || w.OpDo? then m.stack[..|m.stack| - 1] else m.stack
  {
    match program[m.pc].word {
      case OpIf(_) =>
      case OpDo(_) =>
      case OpElse(_) =>
      case OpEnd(_) =>
      case OpWhile =>
    }
  }

  /** The two values on top of a stack, named. */
  lemma SplitTop(stack: seq<i32>)
    ensures |stack| >= 1 ==> stack == stack[..|stack| - 1] + [stack[|stack| - 1]]
    ensures |stack| >= 2 ==> stack[..|stack| - 1] == stack[..|stack| - 2] + [stack[|stack| - 2]]
  {
  }

  /** The two-operand words with `a` on top of `b`: `+` gives a + b, `-` gives b - a, `=` gives 1
      exactly when a = b, `>` gives 1 exactly when b > a; a sum or difference outside the 32-bit
      range stops the simulator. */
  lemma BinaryWords(program: seq<Token>, m: Machine, rule: JumpRule, rest: seq<i32>, b: i32, a: i32)
    requires m.pc < |program| && m.stack == rest + [b, a]
    ensures var w, r := program[m.pc].word, Exec(program, m, rule);
            && (w == OpPlus ==>
                  if InI32(a as int + b as int) then r == Ok(Machine(m.pc + 1, rest + [(a as int + b as int) as i32], m.output))
                  else r == Err(Overflow(m.pc)))
            && (w == OpMinus ==>
                  if InI32(b as int - a as int) then r == Ok(Machine(m.pc + 1, rest + [(b as int - a as int) as i32], m.output))
                  else r == Err(Overflow(m.pc)))
            && (w == OpEqual ==> r == Ok(Machine(m.pc + 1, rest + [if a == b then 1 else 0], m.output)))
            && (w == OpGt ==> r == Ok(Machine(m.pc + 1, rest + [if b > a then 1 else 0], m.output)))
  {
    assert (rest + [b, a])[..|rest| + 1] == rest + [b];
    assert (rest + [b])[..|rest|] == rest;
  }

  /** `.` prints the top, `dup` doubles it. */
  lemma UnaryWords(program: seq<Token>, m: Machine, rule: JumpRule, rest: seq<i32>, a: i32)
    requires m.pc < |program| && m.stack == rest + [a]
    ensures var w, r := program[m.pc].word, Exec(program, m, rule);
            && (w == OpDump ==> r == Ok(Machine(m.pc + 1, rest, m.output + [a])))
            && (w == OpDup ==> r == Ok(Machine(m.pc + 1, rest + [a, a], m.output)))
  {
    assert (rest + [a])[..|rest|] == rest;
  }

  /** The control words under the intended jump rule: `if` and `do` pop a condition and jump to
      their target when it is 0, and go on to the next token otherwise; `else` and `end` always
      jump; `while` does nothing. A jump that is taken needs a target. */
  lemma ControlWords(program: seq<Token>, m: Machine)
    requires m.pc < |program|
    ensures var w, r := program[m.pc].word, Exec(program, m, Intended);
            && ((w.OpIf? || w.OpDo?) && m.stack != [] ==>
                  var a, rest := m.stack[|m.stack| - 1], m.stack[..|m.stack| - 1];
                  if a != 0 then r == Ok(Machine(m.pc + 1, rest, m.output))
                  else if w.target.Some? then r == Ok(Machine(w.target.value, rest, m.output))
                  else r == Err(MissingTarget(m.pc)))
            && ((w.OpElse? || w.OpEnd?) ==>
                  if w.target.Some? then r == Ok(Machine(w.target.value, m.stack, m.output))
                  else r == Err(MissingTarget(m.pc)))
            && (w.OpWhile? ==> r == Ok(Machine(m.pc + 1, m.stack, m.output)))
  {
  }

  /** The two jump rules differ only where a jump lands on position 0: there the simulator as
      written stops with the unsigned underflow, where the intended rule continues at 0. */
  lemma JumpRulesDiffer(program: seq<Token>, m: Machine)
    requires m.pc < |program|
    ensures var r := Exec(program, m, Intended);
            r.Ok? && r.value.pc == 0 ==> Exec(program, m, AsWritten) == Err(PcUnderflow(m.pc))
    ensures var r := Exec(program, m, Intended);
            !(r.Ok? && r.value.pc == 0) ==> Exec(program, m, AsWritten) == r
  {
  }

  // ---------------------------------------------------------------------------
  // Whole runs

  /** One turn of a run. */
  lemma RunTurn(program: seq<Token>, m: Machine, fuel: nat, rule: JumpRule)
    requires m.pc < |program| && fuel > 0
    ensures Exec(program, m, rule).Ok? ==>
              Run(program, m, fuel, rule) == Run(program, Exec(program, m, rule).value, fuel - 1, rule)
    ensures Exec(program, m, rule).Err? ==>
              Run(program, m, fuel, rule) == Faulted(Exec(program, m, rule).error, m.output)
  {
  }

  /** Printed values are never taken back. */
  lemma ExecOutputGrows(program: seq<Token>, m: Machine, rule: JumpRule)
    requires m.pc < |program| && Exec(program, m, rule).Ok?
    ensures m.output <= Exec(program, m, rule).value.output
  {
    StackEffect(program, m, rule);
  }

  function OutputOf(o: Outcome): seq<i32> {
    match o
    case Halted(out) => out
    case Faulted(_, out) => out
    case OutOfFuel(m) => m.output
  }

  /** A run's output starts with what was printed before it; a run that ends with a fault
      keeps what was printed up to the failing token. */
  lemma {:induction false} RunOutputGrows(program: seq<Token>, m: Machine, fuel: nat, rule: JumpRule)
    ensures m.output <= OutputOf(Run(program, m, fuel, rule))
    decreases fuel
  {
    if m.pc < |program| && fuel > 0 {
      match Exec(program, m, rule)
      case Err(_) =>
      case Ok(m2) =>
        ExecOutputGrows(program, m, rule);
        RunOutputGrows(program, m2, fuel - 1, rule);
    }
  }

  /** The step budget only cuts runs short: once a run halts or faults within `fuel` turns,
      any larger budget gives the same outcome. */
  lemma {:induction false} MoreFuelSameOutcome(program: seq<Token>, m: Machine, fuel: nat, more: nat, rule: JumpRule)
    requires !Run(program, m, fuel, rule).OutOfFuel?
    requires fuel <= more
    ensures Run(program, m, more, rule) == Run(program, m, fuel, rule)
    decreases fuel
  {
    if m.pc < |program| && fuel > 0 {
      match Exec(program, m, rule)
      case Err(_) =>
      case Ok(m2) => MoreFuelSameOutcome(program, m2, fuel - 1, more - 1, rule);
    }
  }

  // ---------------------------------------------------------------------------
  // The simulator as a loop over a mutable stack

  /** The simulator's loop, for at most `fuel` turns. */
  method SimulateProgram(program: seq<Token>, fuel: nat, rule: JumpRule) returns (outcome: Outcome)
    ensures outcome == Run(program, Start(), fuel, rule)
  {
    var stack: seq<i32> := [];
    var output: seq<i32> := [];
    var tokenIdx: nat := 0;
    var budget := fuel;
    while tokenIdx < |program|
      invariant Run(program, Start(), fuel, rule) == Run(program, Machine(tokenIdx, stack, output), budget, rule)
      decreases budget
    {
      if budget == 0 {
        return OutOfFuel(Machine(tokenIdx, stack, output));
      }
      var r := SimulateToken(program, tokenIdx, stack, output, rule);
      if r.Err? {
        return Faulted(r.error, output);
      }
      tokenIdx, stack, output := r.value.pc, r.value.stack, r.value.output;
      budget := budget - 1;
    }
    return Halted(output);
  }

  /** The body of the simulator's loop for the token at `tokenIdx`. */
  method SimulateToken(program: seq<Token>, tokenIdx: nat, stack0: seq<i32>, output0: seq<i32>, rule: JumpRule)
    returns (r: Result<Machine, Error>)
    requires tokenIdx < |program|
    ensures r == Exec(program, Machine(tokenIdx, stack0, output0), rule)
  {
    var token := program[tokenIdx];
    var stack := stack0;
    var output := output0;
    var next := tokenIdx + 1;
    match token.word {
      case OpPush(n) =>
        stack := stack + [n];
      case OpPlus =>
        var a :- Pop(stack, token);
        stack := a.1;
        var b :- Pop(stack, token);
        stack := b.1;
        var sum :- Checked(a.0 as int + b.0 as int, tokenIdx);
        stack := stack + [sum];
      case OpMinus =>
        var a :- Pop(stack, token);
        stack := a.1;
        var b :- Pop(stack, token);
        stack := b.1;
        var diff :- Checked(b.0 as int - a.0 as int, tokenIdx);
        stack := stack + [diff];
      case OpEqual =>
        var a :- Pop(stack, token);
        stack := a.1;
        var b :- Pop(stack, token);
        stack := b.1;
        stack := stack + [Bool(a.0 == b.0)];
      case OpDump =>
        var a :- Pop(stack, token);
        stack := a.1;
        output := output + [a.0];
      case OpDup =>
        var a :- Pop(stack, token);
        stack := a.1;
        stack := stack + [a.0, a.0];
      case OpGt =>
        var a :- Pop(stack, token);
        stack := a.1;
        var b :- Pop(stack, token);
        stack := b.1;
        stack := stack + [Bool(a.0 < b.0)];
      case OpIf(t) =>
        var a :- Pop(stack, token);
        stack := a.1;
        if a.0 == 0 {
          var target :- Target(t, tokenIdx);
          next :- Land(rule, target, tokenIdx);
        }
      case OpElse(t) =>
        var target :- Target(t, tokenIdx);
        next :- Land(rule, target, tokenIdx);
      case OpEnd(t) =>
        var target :- Target(t, tokenIdx);
        next :- Land(rule, target, tokenIdx);
      case OpWhile =>
      case OpDo(t) =>
        var a :- Pop(stack, token);
        stack := a.1;
        if a.0 == 0 {
          var target :- Target(t, tokenIdx);
          next :- Land(rule, target, tokenIdx);
        }
    }
    return Ok(Machine(next, stack, output));
  }
}
