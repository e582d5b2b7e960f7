/** The x86-64 generator: one labelled piece of assembly per token, after a fixed prelude, and an
    exit at the end. The assembly is kept as instructions rather than text. */
module CodeGen {
  import opened Syntax
  import opened Interpreter

  datatype Reg = Rax | Rbx | Rcx | Rdx | Rdi

  datatype Asm =
    | Prelude                      // the header, the `dump` routine and `_start:`
    | Label(addr: nat)             // `addr_<n>:`
    | Note(w: Word)                // the `;; -- <word> --` comment
    | PushImm(n: i32)
    | PushReg(r: Reg)
    | PopReg(r: Reg)
    | Add(dst: Reg, src: Reg)
    | Sub(dst: Reg, src: Reg)
    | MovImm(dst: Reg, imm: int)
    | Cmp(a: Reg, b: Reg)
    | Cmove(dst: Reg, src: Reg)
    | Cmovg(dst: Reg, src: Reg)
    | Test(r: Reg)                 // `test r, r`
    | Jz(target: nat)              // `jz addr_<target>`
    | Jmp(target: nat)             // `jmp addr_<target>`
    | CallDump
    | Syscall

  /** A control word that reached the generator without its target. */
  predicate Missing(w: Word) {
    w.IsControl() && w.target.None?
  }

  /** The code for the word at position `i`, without its label. */
  function EmitWord(i: nat, w: Word): (r: Result<seq<Asm>, Error>)
    ensures r.Err? <==> Missing(w)
    ensures r.Err? ==> r.error == MissingTarget(i)
    ensures r.Ok? ==> r.value != [] && r.value[0] == Note(w)
  {
    match w
    case OpPush(n) => Ok([Note(w), PushImm(n)])
    case OpPlus => Ok([Note(w), PopReg(Rax), PopReg(Rbx), Add(Rax, Rbx), PushReg(Rax)])
    case OpMinus => Ok([Note(w), PopReg(Rax), PopReg(Rbx), Sub(Rbx, Rax), PushReg(Rbx)])
    case OpEqual =>
      Ok([Note(w), MovImm(Rcx, 0), MovImm(Rdx, 1), PopReg(Rax), PopReg(Rbx), Cmp(Rax, Rbx), Cmove(Rcx, Rdx), PushReg(Rcx)])
    case OpDump => Ok([Note(w), PopReg(Rdi), CallDump])
    case OpDup => Ok([Note(w), PopReg(Rax), PushReg(Rax), PushReg(Rax)])
    case OpGt =>
      Ok([Note(w), MovImm(Rcx, 0), MovImm(Rdx, 1), PopReg(Rbx), PopReg(Rax), Cmp(Rax, Rbx), Cmovg(Rcx, Rdx), PushReg(Rcx)])
    case OpIf(t) =>
      if t.None? then Err(MissingTarget(i)) else Ok([Note(w), PopReg(Rax), Test(Rax), Jz(t.value)])
    case OpElse(t) =>
      if t.None? then Err(MissingTarget(i)) else Ok([Note(w), Jmp(t.value)])
    case OpEnd(t) =>
      if t.None? then Err(MissingTarget(i))
      else if i + 1 != t.value then Ok([Note(w), Jmp(t.value)])
      else Ok([Note(w)])
    case OpWhile => Ok([Note(w)])
    case OpDo(t) =>
      if t.None? then Err(MissingTarget(i)) else Ok([Note(w), PopReg(Rax), Test(Rax), Jz(t.value)])
  }

  /** The labelled code for the token at position `i`. */
  function EmitToken(i: nat, t: Token): (r: Result<seq<Asm>, Error>)
    ensures r.Err? <==> Missing(t.word)
  {
    var code :- EmitWord(i, t.word);
    Ok([Label(i)] + code)
  }

  /** The code for the first `n` tokens, stopping at the first one that cannot be generated. */
  function EmitUpTo(program: seq<Token>, n: nat): Result<seq<Asm>, Error>
    requires n <= |program|
  {
    if n == 0 then Ok([])
    else
      var before :- EmitUpTo(program, n - 1);
      var code :- EmitToken(n - 1, program[n - 1]);
      Ok(before + code)
  }

  /** The exit after the last token: `addr_<n>:` and the `exit(0)` system call. */
  function Epilogue(n: nat): seq<Asm> {
    [Label(n), MovImm(Rax, 60), MovImm(Rdi, 0), Syscall]
  }

  /** The whole assembly file for `program`, or the first missing target. */
  function Compile(program: seq<Token>): Result<seq<Asm>, Error>
  {
    var body :- EmitUpTo(program, |program|);
    Ok([Prelude] + body + Epilogue(|program|))
  }

  // ---------------------------------------------------------------------------
  // Failure

  /** The generator fails exactly when some control word has no target, and it reports the
      first such word. */
  lemma {:induction false} EmitUpToFails(program: seq<Token>, n: nat)
    requires n <= |program|
    ensures EmitUpTo(program, n).Err? <==> exists k :: 0 <= k < n && Missing(program[k].word)
    ensures EmitUpTo(program, n).Err? ==>
              exists k :: 0 <= k < n && Missing(program[k].word)
                          && (forall j :: 0 <= j < k ==> !Missing(program[j].word))
                          && EmitUpTo(program, n).error == MissingTarget(k)
  {
    if n > 0 {
      EmitUpToFails(program, n - 1);
      if EmitUpTo(program, n - 1).Ok? && Missing(program[n - 1].word) {
        assert forall j :: 0 <= j < n - 1 ==> !Missing(program[j].word);
      }
    }
  }

  lemma CompileFailsExactly(program: seq<Token>)
    ensures Compile(program).Err? <==> exists k :: 0 <= k < |program| && Missing(program[k].word)
    ensures Compile(program).Err? ==>
              exists k :: 0 <= k < |program| && Missing(program[k].word)
                          && (forall j :: 0 <= j < k ==> !Missing(program[j].word))
                          && Compile(program).error == MissingTarget(k)
  {
    EmitUpToFails(program, |program|);
  }

  // ---------------------------------------------------------------------------
  // Labels and jumps

  /** The addresses of the labels in `code`, in order. */
  function Labels(code: seq<Asm>): seq<nat> {
    if code == [] then []
    else Labels(code[..|code| - 1]) + (if code[|code| - 1].Label? then [code[|code| - 1].addr] else [])
  }

  /** The targets of the jumps in `code`. */
  function Jumps(code: seq<Asm>): set<nat> {
    set k | 0 <= k < |code| && (code[k].Jz? || code[k].Jmp?) :: code[k].target
  }

  /** 0, 1, .., n - 1. */
  function Addresses(n: nat): (r: seq<nat>)
    ensures |r| == n
    ensures forall k :: 0 <= k < n ==> r[k] == k
  {
    if n == 0 then [] else Addresses(n - 1) + [n - 1]
  }

  lemma {:induction false} LabelsAppend(a: seq<Asm>, b: seq<Asm>)
    ensures Labels(a + b) == Labels(a) + Labels(b)
    decreases |b|
  {
    if b == [] {
      assert a + b == a;
    } else {
      var b' := b[..|b| - 1];
      assert (a + b)[..|a + b| - 1] == a + b';
      LabelsAppend(a, b');
    }
  }

  lemma JumpsAppend(a: seq<Asm>, b: seq<Asm>)
    ensures Jumps(a + b) == Jumps(a) + Jumps(b)
  {
    forall t | t in Jumps(a + b) ensures t in Jumps(a) + Jumps(b) {
      var k :| 0 <= k < |a + b| && ((a + b)[k].Jz? || (a + b)[k].Jmp?) && (a + b)[k].target == t;
      if k >= |a| {
        assert b[k - |a|] == (a + b)[k];
      }
    }
    forall t | t in Jumps(a) ensures t in Jumps(a + b) {
      var k :| 0 <= k < |a| && (a[k].Jz? || a[k].Jmp?) && a[k].target == t;
      assert (a + b)[k] == a[k];
    }
    forall t | t in Jumps(b) ensures t in Jumps(a + b) {
      var k :| 0 <= k < |b| && (b[k].Jz? || b[k].Jmp?) && b[k].target == t;
      assert (a + b)[|a| + k] == b[k];
    }
  }

  /** Code without a label contributes no address. */
  lemma {:induction false} NoLabels(code: seq<Asm>)
    requires forall k :: 0 <= k < |code| ==> !code[k].Label?
    ensures Labels(code) == []
    decreases |code|
  {
    if code != [] {
      NoLabels(code[..|code| - 1]);
    }
  }

  /** The code of one word has no label, and jumps only to the word's own target. */
  lemma WordLabels(i: nat, w: Word)
    requires EmitWord(i, w).Ok?
    ensures Labels(EmitWord(i, w).value) == []
    ensures forall t :: t in Jumps(EmitWord(i, w).value) ==> w.IsControl() && t == w.target.value
  {
    NoLabels(EmitWord(i, w).value);
  }

  /** The labelled code of the token at position `i` carries the one label `addr_i`. */
  lemma TokenLabels(i: nat, t: Token)
    requires EmitToken(i, t).Ok?
    ensures Labels(EmitToken(i, t).value) == [i]
    ensures forall x :: x in Jumps(EmitToken(i, t).value) ==> t.word.IsControl() && x == t.word.target.value
  {
    var code := EmitWord(i, t.word).value;
    WordLabels(i, t.word);
    LabelsAppend([Label(i)], code);
    JumpsAppend([Label(i)], code);
    assert Labels([Label(i)]) == Labels([]) + [i];
    assert Jumps([Label(i)]) == {};
  }

  /** The exit carries the one label `addr_n` and no jump. */
  lemma EpilogueLabels(n: nat)
    ensures Labels(Epilogue(n)) == [n] && Jumps(Epilogue(n)) == {}
  {
    var rest := [MovImm(Rax, 60), MovImm(Rdi, 0), Syscall];
    assert Epilogue(n) == [Label(n)] + rest;
    NoLabels(rest);
    LabelsAppend([Label(n)], rest);
    assert Labels([Label(n)]) == Labels([]) + [n];
  }

  /** Every target of the program is in range. */
  predicate TargetsInRange(program: seq<Token>) {
    forall k :: 0 <= k < |program| && program[k].word.IsControl() && program[k].word.target.Some? ==>
      program[k].word.target.value <= |program|
  }

  lemma {:induction false} EmitUpToLabels(program: seq<Token>, n: nat)
    requires n <= |program| && EmitUpTo(program, n).Ok?
    ensures Labels(EmitUpTo(program, n).value) == Addresses(n)
    ensures forall t :: t in Jumps(EmitUpTo(program, n).value) ==>
              exists k :: 0 <= k < n && program[k].word.IsControl() && program[k].word.target == Some(t)
  {
    if n > 0 {
      var before := EmitUpTo(program, n - 1).value;
      var code := EmitToken(n - 1, program[n - 1]).value;
      EmitUpToLabels(program, n - 1);
      TokenLabels(n - 1, program[n - 1]);
      LabelsAppend(before, code);
      JumpsAppend(before, code);
    }
  }

  /** The labels and jumps of the whole file are those of the tokens' code, then `addr_n`. */
  lemma CompiledPieces(program: seq<Token>)
    requires Compile(program).Ok?
    ensures EmitUpTo(program, |program|).Ok?
    ensures var body := EmitUpTo(program, |program|).value;
            && Labels(Compile(program).value) == Labels(body) + [|program|]
            && Jumps(Compile(program).value) == Jumps(body)
  {
    var n := |program|;
    var body := EmitUpTo(program, n).value;
    var front := [Prelude] + body;
    assert Compile(program).value == front + Epilogue(n);
    PiecesLabels(body, n);
    PiecesJumps(body, n);
  }

  lemma PiecesLabels(body: seq<Asm>, n: nat)
    ensures Labels([Prelude] + body + Epilogue(n)) == Labels(body) + [n]
  {
    EpilogueLabels(n);
    NoLabels([Prelude]);
    LabelsAppend([Prelude], body);
    LabelsAppend([Prelude] + body, Epilogue(n));
    assert Labels([Prelude] + body) == [] + Labels(body);
  }

  lemma PiecesJumps(body: seq<Asm>, n: nat)
    ensures Jumps([Prelude] + body + Epilogue(n)) == Jumps(body)
  {
    EpilogueLabels(n);
    JumpsAppend([Prelude], body);
    JumpsAppend([Prelude] + body, Epilogue(n));
    assert Jumps([Prelude]) == {};
  }

  /** The file has the labels `addr_0` .. `addr_n`, in this order and each once. */
  lemma CompiledLabels(program: seq<Token>)
    requires Compile(program).Ok?
    ensures Labels(Compile(program).value) == Addresses(|program| + 1)
  {
    CompiledPieces(program);
    EmitUpToLabels(program, |program|);
  }

  /** When the program's targets are in range, every jump of the file lands on a label. */
  lemma CompiledJumpsLand(program: seq<Token>)
    requires Compile(program).Ok? && TargetsInRange(program)
    ensures forall t :: t in Jumps(Compile(program).value) ==> t in Labels(Compile(program).value)
  {
    var n := |program|;
    CompiledPieces(program);
    CompiledLabels(program);
    EmitUpToLabels(program, n);
    forall t | t in Jumps(Compile(program).value)
      ensures t in Labels(Compile(program).value)
    {
      assert Addresses(n + 1)[t] == t;
    }
  }

  // ---------------------------------------------------------------------------
  // What the code of one word does

  datatype Regs = Regs(rax: int, rbx: int, rcx: int, rdx: int, rdi: int)

  /** The processor state the generated code works on: registers, the two flags it tests, the
      hardware stack (top last) and what `dump` has printed. */
  datatype Cpu = Cpu(regs: Regs, zf: bool, gf: bool, stack: seq<int>, output: seq<int>)

  function Get(c: Cpu, r: Reg): int {
    match r
    case Rax => c.regs.rax
    case Rbx => c.regs.rbx
    case Rcx => c.regs.rcx
    case Rdx => c.regs.rdx
    case Rdi => c.regs.rdi
  }

  function Set(c: Cpu, r: Reg, v: int): Cpu {
    match r
    case Rax => c.(regs := c.regs.(rax := v))
    case Rbx => c.(regs := c.regs.(rbx := v))
    case Rcx => c.(regs := c.regs.(rcx := v))
    case Rdx => c.(regs := c.regs.(rdx := v))
    case Rdi => c.(regs := c.regs.(rdi := v))
  }

  /** One instruction that does not jump; `None` when it pops an empty stack. */
  function Instr(a: Asm, c: Cpu): Option<Cpu> {
    match a
    case PushImm(n) => Some(c.(stack := c.stack + [n as int]))
    case PushReg(r) => Some(c.(stack := c.stack + [Get(c, r)]))
    case PopReg(r) =>
      if c.stack == [] then None
      else Some(Set(c.(stack := c.stack[..|c.stack| - 1]), r, c.stack[|c.stack| - 1]))
    case Add(d, s) => Some(Set(c, d, Get(c, d) + Get(c, s)))
    case Sub(d, s) => Some(Set(c, d, Get(c, d) - Get(c, s)))
    case MovImm(d, n) => Some(Set(c, d, n))
    case Cmp(a, b) => Some(c.(zf := Get(c, a) == Get(c, b), gf := Get(c, a) > Get(c, b)))
    case Cmove(d, s) => Some(if c.zf then Set(c, d, Get(c, s)) else c)
    case Cmovg(d, s) => Some(if c.gf then Set(c, d, Get(c, s)) else c)
    case Test(r) => Some(c.(zf := Get(c, r) == 0))
    case CallDump => Some(c.(output := c.output + [Get(c, Rdi)]))
    case _ => Some(c)
  }

  /** Runs the code of one word from `c`: the state it leaves and the address control goes to
      next, `next` when no jump is taken. */
  function RunCode(code: seq<Asm>, c: Cpu, next: nat): Option<(Cpu, nat)>
    decreases |code|
  {
    if code == [] then Some((c, next))
    else match code[0]
      case Jmp(t) => Some((c, t))
      case Jz(t) => if c.zf then Some((c, t)) else RunCode(code[1..], c, next)
      case _ =>
        match Instr(code[0], c)
        case None => None
        case Some(c1) => RunCode(code[1..], c1, next)
  }

  /** One instruction that does not jump, then the rest. */
  lemma RunCons(x: Asm, rest: seq<Asm>, c: Cpu, next: nat)
    requires !x.Jz? && !x.Jmp? && Instr(x, c).Some?
    ensures RunCode([x] + rest, c, next) == RunCode(rest, Instr(x, c).value, next)
  {
    assert ([x] + rest)[1..] == rest;
  }

  /** The two pops of a two-operand word: the top into `x`, the one below into `y`. */
  lemma PopTwo(x: Reg, y: Reg, rest: seq<Asm>, c: Cpu, next: nat, s: seq<int>, b: int, a: int)
    requires x != y && c.stack == s + [b, a]
    ensures var c2 := Set(Set(c.(stack := s), x, a), y, b);
            RunCode([PopReg(x)] + ([PopReg(y)] + rest), c, next) == RunCode(rest, c2, next)
  {
    assert (s + [b, a])[..|s| + 1] == s + [b];
    assert (s + [b])[..|s|] == s;
    RunCons(PopReg(x), [PopReg(y)] + rest, c, next);
    RunCons(PopReg(y), rest, Instr(PopReg(x), c).value, next);
  }

  /** `+` leaves a + b, with `a` on top of `b`. */
  lemma PlusCode(i: nat, c: Cpu, s: seq<int>, b: int, a: int)
    requires c.stack == s + [b, a]
    ensures var r := RunCode(EmitWord(i, OpPlus).value, c, i + 1);
            r.Some? && r.value.1 == i + 1 && r.value.0.output == c.output && r.value.0.stack == s + [a + b]
  {
    PlusRun(c, i + 1, s, b, a);
    assert EmitWord(i, OpPlus).value == [Note(OpPlus)] + ([PopReg(Rax)] + ([PopReg(Rbx)] + ([Add(Rax, Rbx)] + [PushReg(Rax)])));
  }

  lemma PlusRun(c: Cpu, next: nat, s: seq<int>, b: int, a: int)
    requires c.stack == s + [b, a]
    ensures var r := RunCode([Note(OpPlus)] + ([PopReg(Rax)] + ([PopReg(Rbx)] + ([Add(Rax, Rbx)] + [PushReg(Rax)]))), c, next);
            r.Some? && r.value.1 == next && r.value.0.output == c.output && r.value.0.stack == s + [a + b]
  {
    var tail := [Add(Rax, Rbx)] + [PushReg(Rax)];
    RunCons(Note(OpPlus), [PopReg(Rax)] + ([PopReg(Rbx)] + tail), c, next);
    PopTwo(Rax, Rbx, tail, c, next, s, b, a);
    var c2 := Set(Set(c.(stack := s), Rax, a), Rbx, b);
    RunCons(Add(Rax, Rbx), [PushReg(Rax)], c2, next);
    RunCons(PushReg(Rax), [], Instr(Add(Rax, Rbx), c2).value, next);
  }

  /** `-` leaves b - a, with `a` on top of `b`. */
  lemma MinusCode(i: nat, c: Cpu, s: seq<int>, b: int, a: int)
    requires c.stack == s + [b, a]
    ensures var r := RunCode(EmitWord(i, OpMinus).value, c, i + 1);
            r.Some? && r.value.1 == i + 1 && r.value.0.output == c.output && r.value.0.stack == s + [b - a]
  {
    MinusRun(c, i + 1, s, b, a);
    assert EmitWord(i, OpMinus).value == [Note(OpMinus)] + ([PopReg(Rax)] + ([PopReg(Rbx)] + ([Sub(Rbx, Rax)] + [PushReg(Rbx)])));
  }

  lemma MinusRun(c: Cpu, next: nat, s: seq<int>, b: int, a: int)
    requires c.stack == s + [b, a]
    ensures var r := RunCode([Note(OpMinus)] + ([PopReg(Rax)] + ([PopReg(Rbx)] + ([Sub(Rbx, Rax)] + [PushReg(Rbx)]))), c, next);
            r.Some? && r.value.1 == next && r.value.0.output == c.output && r.value.0.stack == s + [b - a]
  {
    var tail := [Sub(Rbx, Rax)] + [PushReg(Rbx)];
    RunCons(Note(OpMinus), [PopReg(Rax)] + ([PopReg(Rbx)] + tail), c, next);
    PopTwo(Rax, Rbx, tail, c, next, s, b, a);
    var c2 := Set(Set(c.(stack := s), Rax, a), Rbx, b);
    RunCons(Sub(Rbx, Rax), [PushReg(Rbx)], c2, next);
    RunCons(PushReg(Rbx), [], Instr(Sub(Rbx, Rax), c2).value, next);
  }

  /** The two `mov`s that set up a comparison: 0 in `rcx`, 1 in `rdx`. */
  lemma ZeroOne(rest: seq<Asm>, c: Cpu, next: nat)
    ensures RunCode([MovImm(Rcx, 0)] + ([MovImm(Rdx, 1)] + rest), c, next) ==
            RunCode(rest, Set(Set(c, Rcx, 0), Rdx, 1), next)
  {
    RunCons(MovImm(Rcx, 0), [MovImm(Rdx, 1)] + rest, c, next);
    RunCons(MovImm(Rdx, 1), rest, Set(c, Rcx, 0), next);
  }

  /** The end of a comparison: `cmp rax, rbx`, the conditional move of 1 into `rcx`, and the
      push of `rcx`. */
  lemma CompareTail(mv: Asm, c: Cpu, next: nat)
    requires mv == Cmove(Rcx, Rdx) || mv == Cmovg(Rcx, Rdx)
    requires Get(c, Rcx) == 0 && Get(c, Rdx) == 1
    ensures var holds := if mv.Cmove? then Get(c, Rax) == Get(c, Rbx) else Get(c, Rax) > Get(c, Rbx);
            var r := RunCode([Cmp(Rax, Rbx)] + ([mv] + [PushReg(Rcx)]), c, next);
            r.Some? && r.value.1 == next && r.value.0.output == c.output
            && r.value.0.stack == c.stack + [if holds then 1 else 0]
  {
    RunCons(Cmp(Rax, Rbx), [mv] + [PushReg(Rcx)], c, next);
    var c1 := Instr(Cmp(Rax, Rbx), c).value;
    RunCons(mv, [PushReg(Rcx)], c1, next);
    RunCons(PushReg(Rcx), [], Instr(mv, c1).value, next);
  }

  /** `=` leaves 1 when a = b and 0 otherwise. */
  lemma EqualCode(i: nat, c: Cpu, s: seq<int>, b: int, a: int)
    requires c.stack == s + [b, a]
    ensures var r := RunCode(EmitWord(i, OpEqual).value, c, i + 1);
            r.Some? && r.value.1 == i + 1 && r.value.0.output == c.output
            && r.value.0.stack == s + [if a == b then 1 else 0]
  {
    EqualRun(c, i + 1, s, b, a);
    assert EmitWord(i, OpEqual).value ==
           [Note(OpEqual)] + ([MovImm(Rcx, 0)] + ([MovImm(Rdx, 1)] + ([PopReg(Rax)] + ([PopReg(Rbx)] + ([Cmp(Rax, Rbx)] + ([Cmove(Rcx, Rdx)] + [PushReg(Rcx)]))))));
  }

  lemma EqualRun(c: Cpu, next: nat, s: seq<int>, b: int, a: int)
    requires c.stack == s + [b, a]
    ensures var r := RunCode([Note(OpEqual)] + ([MovImm(Rcx, 0)] + ([MovImm(Rdx, 1)] + ([PopReg(Rax)] + ([PopReg(Rbx)] + ([Cmp(Rax, Rbx)] + ([Cmove(Rcx, Rdx)] + [PushReg(Rcx)])))))), c, next);
            r.Some? && r.value.1 == next && r.value.0.output == c.output
            && r.value.0.stack == s + [if a == b then 1 else 0]
  {
    var tail := [Cmp(Rax, Rbx)] + ([Cmove(Rcx, Rdx)] + [PushReg(Rcx)]);
    var pops := [PopReg(Rax)] + ([PopReg(Rbx)] + tail);
    RunCons(Note(OpEqual), [MovImm(Rcx, 0)] + ([MovImm(Rdx, 1)] + pops), c, next);
    ZeroOne(pops, c, next);
    var c1 := Set(Set(c, Rcx, 0), Rdx, 1);
    PopTwo(Rax, Rbx, tail, c1, next, s, b, a);
    CompareTail(Cmove(Rcx, Rdx), Set(Set(c1.(stack := s), Rax, a), Rbx, b), next);
  }

  /** `>` leaves 1 when b > a and 0 otherwise, with `a` on top of `b`. */
  lemma GtCode(i: nat, c: Cpu, s: seq<int>, b: int, a: int)
    requires c.stack == s + [b, a]
    ensures var r := RunCode(EmitWord(i, OpGt).value, c, i + 1);
            r.Some? && r.value.1 == i + 1 && r.value.0.output == c.output
            && r.value.0.stack == s + [if b > a then 1 else 0]
  {
    GtRun(c, i + 1, s, b, a);
    assert EmitWord(i, OpGt).value ==
           [Note(OpGt)] + ([MovImm(Rcx, 0)] + ([MovImm(Rdx, 1)] + ([PopReg(Rbx)] + ([PopReg(Rax)] + ([Cmp(Rax, Rbx)] + ([Cmovg(Rcx, Rdx)] + [PushReg(Rcx)]))))));
  }

  lemma GtRun(c: Cpu, next: nat, s: seq<int>, b: int, a: int)
    requires c.stack == s + [b, a]
    ensures var r := RunCode([Note(OpGt)] + ([MovImm(Rcx, 0)] + ([MovImm(Rdx, 1)] + ([PopReg(Rbx)] + ([PopReg(Rax)] + ([Cmp(Rax, Rbx)] + ([Cmovg(Rcx, Rdx)] + [PushReg(Rcx)])))))), c, next);
            r.Some? && r.value.1 == next && r.value.0.output == c.output
            && r.value.0.stack == s + [if b > a then 1 else 0]
  {
    var tail := [Cmp(Rax, Rbx)] + ([Cmovg(Rcx, Rdx)] + [PushReg(Rcx)]);
    var pops := [PopReg(Rbx)] + ([PopReg(Rax)] + tail);
    RunCons(Note(OpGt), [MovImm(Rcx, 0)] + ([MovImm(Rdx, 1)] + pops), c, next);
    ZeroOne(pops, c, next);
    var c1 := Set(Set(c, Rcx, 0), Rdx, 1);
    PopTwo(Rbx, Rax, tail, c1, next, s, b, a);
    CompareTail(Cmovg(Rcx, Rdx), Set(Set(c1.(stack := s), Rbx, a), Rax, b), next);
  }

  /** `push n` leaves n on top. */
  lemma PushCode(i: nat, n: i32, c: Cpu)
    ensures var r := RunCode(EmitWord(i, OpPush(n)).value, c, i + 1);
            r.Some? && r.value.1 == i + 1 && r.value.0.output == c.output && r.value.0.stack == c.stack + [n as int]
  {
    assert EmitWord(i, OpPush(n)).value == [Note(OpPush(n))] + [PushImm(n)];
    RunCons(Note(OpPush(n)), [PushImm(n)], c, i + 1);
    RunCons(PushImm(n), [], c, i + 1);
  }

  /** `.` prints the top and drops it. */
  lemma DumpCode(i: nat, c: Cpu, s: seq<int>, a: int)
    requires c.stack == s + [a]
    ensures var r := RunCode(EmitWord(i, OpDump).value, c, i + 1);
            r.Some? && r.value.1 == i + 1 && r.value.0.output == c.output + [a] && r.value.0.stack == s
  {
    assert (s + [a])[..|s|] == s;
    assert EmitWord(i, OpDump).value == [Note(OpDump)] + ([PopReg(Rdi)] + [CallDump]);
    RunCons(Note(OpDump), [PopReg(Rdi)] + [CallDump], c, i + 1);
    RunCons(PopReg(Rdi), [CallDump], c, i + 1);
    RunCons(CallDump, [], Instr(PopReg(Rdi), c).value, i + 1);
  }

  /** `dup` doubles the top. */
  lemma DupCode(i: nat, c: Cpu, s: seq<int>, a: int)
    requires c.stack == s + [a]
    ensures var r := RunCode(EmitWord(i, OpDup).value, c, i + 1);
            r.Some? && r.value.1 == i + 1 && r.value.0.output == c.output && r.value.0.stack == s + [a, a]
  {
    assert (s + [a])[..|s|] == s;
    assert EmitWord(i, OpDup).value == [Note(OpDup)] + ([PopReg(Rax)] + ([PushReg(Rax)] + [PushReg(Rax)]));
    RunCons(Note(OpDup), [PopReg(Rax)] + ([PushReg(Rax)] + [PushReg(Rax)]), c, i + 1);
    RunCons(PopReg(Rax), [PushReg(Rax)] + [PushReg(Rax)], c, i + 1);
    var c1 := Instr(PopReg(Rax), c).value;
    RunCons(PushReg(Rax), [PushReg(Rax)], c1, i + 1);
    RunCons(PushReg(Rax), [], Instr(PushReg(Rax), c1).value, i + 1);
  }

  /** `if` and `do` pop the condition and go to their target when it is 0, and on to the next
      word otherwise. */
  lemma BranchCode(i: nat, w: Word, t: nat, c: Cpu, s: seq<int>, a: int)
    requires w in {OpIf(Some(t)), OpDo(Some(t))} && c.stack == s + [a]
    ensures var r := RunCode(EmitWord(i, w).value, c, i + 1);
            r.Some? && r.value.0.output == c.output && r.value.0.stack == s
            && r.value.1 == if a == 0 then t else i + 1
  {
    BranchRun(w, t, c, i + 1, s, a);
    assert EmitWord(i, w).value == [Note(w)] + ([PopReg(Rax)] + ([Test(Rax)] + [Jz(t)]));
  }

  lemma BranchRun(w: Word, t: nat, c: Cpu, next: nat, s: seq<int>, a: int)
    requires c.stack == s + [a]
    ensures var r := RunCode([Note(w)] + ([PopReg(Rax)] + ([Test(Rax)] + [Jz(t)])), c, next);
            r.Some? && r.value.0.output == c.output && r.value.0.stack == s
            && r.value.1 == if a == 0 then t else next
  {
    var jz := [Test(Rax)] + [Jz(t)];
    assert (s + [a])[..|s|] == s;
    RunCons(Note(w), [PopReg(Rax)] + jz, c, next);
    RunCons(PopReg(Rax), jz, c, next);
    var c1 := Instr(PopReg(Rax), c).value;
    RunCons(Test(Rax), [Jz(t)], c1, next);
    var last: seq<Asm> := [Jz(t)];
    assert last[1..] == [];
  }

  /** `else` and `end` go to their target; the `end` that only continues with the next word
      emits no jump and falls through to it. `while` goes on. */
  lemma JumpCode(i: nat, w: Word, c: Cpu)
    requires ((w.OpElse? || w.OpEnd?) && w.target.Some?) || w.OpWhile?
    ensures var r := RunCode(EmitWord(i, w).value, c, i + 1);
            r.Some? && r.value.0 == c && r.value.1 == if w.OpWhile? then i + 1 else w.target.value
  {
    if w.OpElse? || (w.OpEnd? && i + 1 != w.target.value) {
      assert EmitWord(i, w).value == [Note(w)] + [Jmp(w.target.value)];
      RunCons(Note(w), [Jmp(w.target.value)], c, i + 1);
    } else {
      assert EmitWord(i, w).value == [Note(w)] + [];
      RunCons(Note(w), [], c, i + 1);
    }
  }

  /** A stack of 32-bit values as the 64-bit slots the compiled program holds. */
  function Ints(s: seq<i32>): (r: seq<int>)
    ensures |r| == |s|
    ensures forall k :: 0 <= k < |s| ==> r[k] == s[k] as int
  {
    if s == [] then [] else Ints(s[..|s| - 1]) + [s[|s| - 1] as int]
  }

  lemma IntsSplit(rest: seq<i32>, xs: seq<i32>)
    ensures Ints(rest + xs) == Ints(rest) + Ints(xs)
  {
    assert forall k :: 0 <= k < |rest + xs| ==> Ints(rest + xs)[k] == (Ints(rest) + Ints(xs))[k];
  }

  /** The simulator's state and the processor's agree on the stack and on what was printed. */
  predicate Agree(m: Machine, c: Cpu) {
    c.stack == Ints(m.stack) && c.output == Ints(m.output)
  }

  /** What can be observed of a run of generated code: the stack and the output as 64-bit
      slots, and the address control goes to next. */
  function Outcome(r: Option<(Cpu, nat)>): Option<(seq<int>, seq<int>, nat)> {
    if r.None? then None else Some((r.value.0.stack, r.value.0.output, r.value.1))
  }

  /** The same observation of a simulator state. */
  function Expected(m: Machine): Option<(seq<int>, seq<int>, nat)> {
    Some((Ints(m.stack), Ints(m.output), m.pc))
  }

  /** Wherever the intended simulator takes a step on a word the generator accepts, the code
      generated for that word takes the same step: same stack, same output, same next address.
      (The simulator looks at a target only when it jumps; the generator demands every one.) */
  lemma CompiledWordMatches(program: seq<Token>, m: Machine, c: Cpu)
    requires m.pc < |program| && !Missing(program[m.pc].word)
    requires Exec(program, m, Intended).Ok? && Agree(m, c)
    ensures Outcome(RunCode(EmitWord(m.pc, program[m.pc].word).value, c, m.pc + 1)) ==
            Expected(Exec(program, m, Intended).value)
  {
    match program[m.pc].word
    case OpPush(_) =>
      PushSetup(program, m);
      PushStep(program, m, c);
    case OpPlus =>
      var rest, b, a := PlusSetup(program, m, c);
      PlusStep(program, m, c, rest, b, a);
    case OpMinus =>
      var rest, b, a := MinusSetup(program, m, c);
      MinusStep(program, m, c, rest, b, a);
    case OpEqual =>
      var rest, b, a := EqualSetup(program, m, c);
      EqualStep(program, m, c, rest, b, a);
    case OpGt =>
      var rest, b, a := GtSetup(program, m, c);
      GtStep(program, m, c, rest, b, a);
    case OpDump =>
      var rest, a := UnarySetup(program, m, c);
      DumpStep(program, m, c, rest, a);
    case OpDup =>
      var rest, a := UnarySetup(program, m, c);
      DupStep(program, m, c, rest, a);
    case OpIf(_) =>
      var rest, a := BranchSetup(program, m, c);
      BranchStep(program, m, c, rest, a);
    case OpDo(_) =>
      var rest, a := BranchSetup(program, m, c);
      BranchStep(program, m, c, rest, a);
    case OpElse(_) =>
      JumpSetup(program, m);
      JumpStep(program, m, c);
    case OpEnd(_) =>
      JumpSetup(program, m);
      JumpStep(program, m, c);
    case OpWhile =>
      JumpSetup(program, m);
      JumpStep(program, m, c);
  }

  lemma IntsPush(rest: seq<i32>, x: i32)
    ensures Ints(rest + [x]) == Ints(rest) + [x as int]
  {
    assert (rest + [x])[..|rest|] == rest;
  }

  lemma IntsTwo(rest: seq<i32>, b: i32, a: i32)
    ensures Ints(rest + [b, a]) == Ints(rest) + [b as int, a as int]
  {
    assert (rest + [b, a])[..|rest| + 1] == rest + [b];
    IntsPush(rest, b);
  }

  /** A stack with at least one value, as the simulator and the processor hold it. */
  lemma Split1(m: Machine, c: Cpu) returns (rest: seq<i32>, a: i32)
    requires m.stack != [] && Agree(m, c)
    ensures m.stack == rest + [a] && c.stack == Ints(rest) + [a as int]
  {
    rest, a := m.stack[..|m.stack| - 1], m.stack[|m.stack| - 1];
    assert m.stack == rest + [a];
    IntsPush(rest, a);
  }

  /** A stack with at least two values, as the simulator and the processor hold it. */
  lemma Split2(m: Machine, c: Cpu) returns (rest: seq<i32>, b: i32, a: i32)
    requires |m.stack| >= 2 && Agree(m, c)
    ensures m.stack == rest + [b, a] && c.stack == Ints(rest) + [b as int, a as int]
  {
    rest, b, a := m.stack[..|m.stack| - 2], m.stack[|m.stack| - 2], m.stack[|m.stack| - 1];
    assert m.stack == rest + [b, a];
    IntsTwo(rest, b, a);
  }

  /** The two values a two-operand word takes, as the simulator and the processor hold them. */
  lemma Operands(program: seq<Token>, m: Machine, c: Cpu) returns (rest: seq<i32>, b: i32, a: i32)
    requires m.pc < |program| && program[m.pc].word in {OpPlus, OpMinus, OpEqual, OpGt}
    requires Exec(program, m, Intended).Ok? && Agree(m, c)
    ensures m.stack == rest + [b, a] && c.stack == Ints(rest) + [b as int, a as int]
  {
    StackEmptyExactly(program, m, Intended);
    rest, b, a := Split2(m, c);
  }

  lemma PlusSetup(program: seq<Token>, m: Machine, c: Cpu) returns (rest: seq<i32>, b: i32, a: i32)
    requires m.pc < |program| && program[m.pc].word == OpPlus
    requires Exec(program, m, Intended).Ok? && Agree(m, c)
    ensures c.stack == Ints(rest) + [b as int, a as int]
    ensures InI32(a as int + b as int)
    ensures Exec(program, m, Intended) == Ok(Machine(m.pc + 1, rest + [(a as int + b as int) as i32], m.output))
  {
    rest, b, a := Operands(program, m, c);
    BinaryWords(program, m, Intended, rest, b, a);
  }

  lemma PlusStep(program: seq<Token>, m: Machine, c: Cpu, rest: seq<i32>, b: i32, a: i32)
    requires m.pc < |program| && program[m.pc].word == OpPlus && Agree(m, c)
    requires c.stack == Ints(rest) + [b as int, a as int]
    requires InI32(a as int + b as int)
    ensures Outcome(RunCode(EmitWord(m.pc, program[m.pc].word).value, c, m.pc + 1)) ==
            Expected(Machine(m.pc + 1, rest + [(a as int + b as int) as i32], m.output))
  {
    IntsPush(rest, (a as int + b as int) as i32);
    PlusCode(m.pc, c, Ints(rest), b as int, a as int);
  }

  lemma MinusSetup(program: seq<Token>, m: Machine, c: Cpu) returns (rest: seq<i32>, b: i32, a: i32)
    requires m.pc < |program| && program[m.pc].word == OpMinus
    requires Exec(program, m, Intended).Ok? && Agree(m, c)
    ensures c.stack == Ints(rest) + [b as int, a as int]
    ensures InI32(b as int - a as int)
    ensures Exec(program, m, Intended) == Ok(Machine(m.pc + 1, rest + [(b as int - a as int) as i32], m.output))
  {
    rest, b, a := Operands(program, m, c);
    BinaryWords(program, m, Intended, rest, b, a);
  }

  lemma MinusStep(program: seq<Token>, m: Machine, c: Cpu, rest: seq<i32>, b: i32, a: i32)
    requires m.pc < |program| && program[m.pc].word == OpMinus && Agree(m, c)
    requires c.stack == Ints(rest) + [b as int, a as int]
    requires InI32(b as int - a as int)
    ensures Outcome(RunCode(EmitWord(m.pc, program[m.pc].word).value, c, m.pc + 1)) ==
            Expected(Machine(m.pc + 1, rest + [(b as int - a as int) as i32], m.output))
  {
    IntsPush(rest, (b as int - a as int) as i32);
    MinusCode(m.pc, c, Ints(rest), b as int, a as int);
  }

  lemma EqualSetup(program: seq<Token>, m: Machine, c: Cpu) returns (rest: seq<i32>, b: i32, a: i32)
    requires m.pc < |program| && program[m.pc].word == OpEqual
    requires Exec(program, m, Intended).Ok? && Agree(m, c)
    ensures c.stack == Ints(rest) + [b as int, a as int]
    ensures Exec(program, m, Intended) == Ok(Machine(m.pc + 1, rest + [if a == b then 1 else 0], m.output))
  {
    rest, b, a := Operands(program, m, c);
    BinaryWords(program, m, Intended, rest, b, a);
  }

  lemma EqualStep(program: seq<Token>, m: Machine, c: Cpu, rest: seq<i32>, b: i32, a: i32)
    requires m.pc < |program| && program[m.pc].word == OpEqual && Agree(m, c)
    requires c.stack == Ints(rest) + [b as int, a as int]
    ensures Outcome(RunCode(EmitWord(m.pc, program[m.pc].word).value, c, m.pc + 1)) ==
            Expected(Machine(m.pc + 1, rest + [if a == b then 1 else 0], m.output))
  {
    IntsPush(rest, if a == b then 1 else 0);
    EqualCode(m.pc, c, Ints(rest), b as int, a as int);
  }

  lemma GtSetup(program: seq<Token>, m: Machine, c: Cpu) returns (rest: seq<i32>, b: i32, a: i32)
    requires m.pc < |program| && program[m.pc].word == OpGt
    requires Exec(program, m, Intended).Ok? && Agree(m, c)
    ensures c.stack == Ints(rest) + [b as int, a as int]
    ensures Exec(program, m, Intended) == Ok(Machine(m.pc + 1, rest + [if b > a then 1 else 0], m.output))
  {
    rest, b, a := Operands(program, m, c);
    BinaryWords(program, m, Intended, rest, b, a);
  }

  lemma GtStep(program: seq<Token>, m: Machine, c: Cpu, rest: seq<i32>, b: i32, a: i32)
    requires m.pc < |program| && program[m.pc].word == OpGt && Agree(m, c)
    requires c.stack == Ints(rest) + [b as int, a as int]
    ensures Outcome(RunCode(EmitWord(m.pc, program[m.pc].word).value, c, m.pc + 1)) ==
            Expected(Machine(m.pc + 1, rest + [if b > a then 1 else 0], m.output))
  {
    IntsPush(rest, if b > a then 1 else 0);
    GtCode(m.pc, c, Ints(rest), b as int, a as int);
  }

  /** What the simulator does with `push n`. */
  lemma PushSetup(program: seq<Token>, m: Machine)
    requires m.pc < |program| && program[m.pc].word.OpPush?
    ensures Exec(program, m, Intended) == Ok(Machine(m.pc + 1, m.stack + [program[m.pc].word.n], m.output))
  {
  }

  lemma PushStep(program: seq<Token>, m: Machine, c: Cpu)
    requires m.pc < |program| && program[m.pc].word.OpPush? && Agree(m, c)
    ensures Outcome(RunCode(EmitWord(m.pc, program[m.pc].word).value, c, m.pc + 1)) ==
            Expected(Machine(m.pc + 1, m.stack + [program[m.pc].word.n], m.output))
  {
    var n := program[m.pc].word.n;
    IntsPush(m.stack, n);
    PushCode(m.pc, n, c);
  }

  /** What the simulator does with `.` and `dup`. */
  lemma UnarySetup(program: seq<Token>, m: Machine, c: Cpu) returns (rest: seq<i32>, a: i32)
    requires m.pc < |program| && program[m.pc].word in {OpDump, OpDup}
    requires Exec(program, m, Intended).Ok? && Agree(m, c)
    ensures c.stack == Ints(rest) + [a as int]
    ensures program[m.pc].word == OpDump ==> Exec(program, m, Intended) == Ok(Machine(m.pc + 1, rest, m.output + [a]))
    ensures program[m.pc].word == OpDup ==> Exec(program, m, Intended) == Ok(Machine(m.pc + 1, rest + [a, a], m.output))
  {
    StackEmptyExactly(program, m, Intended);
    rest, a := Split1(m, c);
    UnaryWords(program, m, Intended, rest, a);
  }

  lemma DumpStep(program: seq<Token>, m: Machine, c: Cpu, rest: seq<i32>, a: i32)
    requires m.pc < |program| && program[m.pc].word == OpDump && Agree(m, c)
    requires c.stack == Ints(rest) + [a as int]
    ensures Outcome(RunCode(EmitWord(m.pc, program[m.pc].word).value, c, m.pc + 1)) ==
            Expected(Machine(m.pc + 1, rest, m.output + [a]))
  {
    IntsPush(m.output, a);
    DumpCode(m.pc, c, Ints(rest), a as int);
  }

  lemma DupStep(program: seq<Token>, m: Machine, c: Cpu, rest: seq<i32>, a: i32)
    requires m.pc < |program| && program[m.pc].word == OpDup && Agree(m, c)
    requires c.stack == Ints(rest) + [a as int]
    ensures Outcome(RunCode(EmitWord(m.pc, program[m.pc].word).value, c, m.pc + 1)) ==
            Expected(Machine(m.pc + 1, rest + [a, a], m.output))
  {
    IntsTwo(rest, a, a);
    DupCode(m.pc, c, Ints(rest), a as int);
  }

  /** An `if` or `do` the simulator takes: the value on top and what it does with it. */
  lemma BranchSetup(program: seq<Token>, m: Machine, c: Cpu) returns (rest: seq<i32>, a: i32)
    requires m.pc < |program| && (program[m.pc].word.OpIf? || program[m.pc].word.OpDo?)
    requires program[m.pc].word.target.Some?
    requires Exec(program, m, Intended).Ok? && Agree(m, c)
    ensures c.stack == Ints(rest) + [a as int]
    ensures Exec(program, m, Intended) ==
            Ok(Machine(if a == 0 then program[m.pc].word.target.value else m.pc + 1, rest, m.output))
  {
    StackEmptyExactly(program, m, Intended);
    rest, a := Split1(m, c);
    ControlWords(program, m);
  }

  lemma BranchStep(program: seq<Token>, m: Machine, c: Cpu, rest: seq<i32>, a: i32)
    requires m.pc < |program| && (program[m.pc].word.OpIf? || program[m.pc].word.OpDo?)
    requires program[m.pc].word.target.Some? && Agree(m, c)
    requires c.stack == Ints(rest) + [a as int]
    ensures Outcome(RunCode(EmitWord(m.pc, program[m.pc].word).value, c, m.pc + 1)) ==
            Expected(Machine(if a == 0 then program[m.pc].word.target.value else m.pc + 1, rest, m.output))
  {
    var w := program[m.pc].word;
    BranchCode(m.pc, w, w.target.value, c, Ints(rest), a as int);
  }

  /** What the simulator does with `else`, `end` and `while`. */
  lemma JumpSetup(program: seq<Token>, m: Machine)
    requires m.pc < |program|
    requires var w := program[m.pc].word; ((w.OpElse? || w.OpEnd?) && w.target.Some?) || w.OpWhile?
    ensures var w := program[m.pc].word;
            Exec(program, m, Intended) == Ok(Machine(if w.OpWhile? then m.pc + 1 else w.target.value, m.stack, m.output))
  {
    ControlWords(program, m);
  }

  lemma JumpStep(program: seq<Token>, m: Machine, c: Cpu)
    requires m.pc < |program| && Agree(m, c)
    requires var w := program[m.pc].word; ((w.OpElse? || w.OpEnd?) && w.target.Some?) || w.OpWhile?
    ensures var w := program[m.pc].word;
            Outcome(RunCode(EmitWord(m.pc, w).value, c, m.pc + 1)) ==
            Expected(Machine(if w.OpWhile? then m.pc + 1 else w.target.value, m.stack, m.output))
  {
    JumpCode(m.pc, program[m.pc].word, c);
  }

  // ---------------------------------------------------------------------------
  // The generator's loop

  /** Writes the prelude, then each token's labelled code, then the exit; stops at the first
      control word without a target. */
  method CompileProgram(program: seq<Token>) returns (r: Result<seq<Asm>, Error>)
    ensures r == Compile(program)
  {
    var out := [Prelude];
    var tokenIdx := 0;
    while tokenIdx < |program|
      invariant tokenIdx <= |program|
      invariant EmitUpTo(program, tokenIdx).Ok? && out == [Prelude] + EmitUpTo(program, tokenIdx).value
    {
      var code := CompileToken(tokenIdx, program[tokenIdx]);
      EmitUpToNext(program, tokenIdx);
      if code.Err? {
        FailsAt(program, tokenIdx);
        return Err(code.error);
      }
      Regroup([Prelude], EmitUpTo(program, tokenIdx).value, code.value);
      out := out + code.value;
      tokenIdx := tokenIdx + 1;
    }
    out := out + [Label(|program|), MovImm(Rax, 60), MovImm(Rdi, 0), Syscall];
    return Ok(out);
  }

  /** One more token: its code is appended, or its failure is the failure so far. */
  lemma EmitUpToNext(program: seq<Token>, n: nat)
    requires n < |program| && EmitUpTo(program, n).Ok?
    ensures var code := EmitToken(n, program[n]);
            if code.Ok? then EmitUpTo(program, n + 1) == Ok(EmitUpTo(program, n).value + code.value)
            else EmitUpTo(program, n + 1) == Err(code.error)
  {
  }

  lemma Regroup(a: seq<Asm>, b: seq<Asm>, c: seq<Asm>)
    ensures a + b + c == a + (b + c)
  {
  }

  /** The first token whose code cannot be generated decides the result. */
  lemma FailsAt(program: seq<Token>, n: nat)
    requires n < |program| && EmitUpTo(program, n).Ok? && EmitToken(n, program[n]).Err?
    ensures Compile(program) == Err(EmitToken(n, program[n]).error)
  {
    EmitUpToNext(program, n);
    FirstFailureStays(program, n + 1, |program|);
  }

  /** A failure among the first `n` tokens is the failure of the whole program. */
  lemma {:induction false} FirstFailureStays(program: seq<Token>, n: nat, m: nat)
    requires n <= m <= |program| && EmitUpTo(program, n).Err?
    ensures EmitUpTo(program, m) == EmitUpTo(program, n)
    decreases m - n
  {
    if n < m {
      FirstFailureStays(program, n, m - 1);
    }
  }

  /** The label and the instructions for one token, as the generator writes them. */
  method CompileToken(tokenIdx: nat, token: Token) returns (r: Result<seq<Asm>, Error>)
    ensures r == EmitToken(tokenIdx, token)
  {
    var out := [Label(tokenIdx)];
    var w := token.word;
    match w {
      case OpPush(n) =>
        out := out + [Note(w), PushImm(n)];
      case OpPlus =>
        out := out + [Note(w), PopReg(Rax), PopReg(Rbx), Add(Rax, Rbx), PushReg(Rax)];
      case OpMinus =>
        out := out + [Note(w), PopReg(Rax), PopReg(Rbx), Sub(Rbx, Rax), PushReg(Rbx)];
      case OpEqual =>
        out := out + [Note(w), MovImm(Rcx, 0), MovImm(Rdx, 1), PopReg(Rax), PopReg(Rbx), Cmp(Rax, Rbx), Cmove(Rcx, Rdx), PushReg(Rcx)];
      case OpDump =>
        out := out + [Note(w), PopReg(Rdi), CallDump];
      case OpDup =>
        out := out + [Note(w), PopReg(Rax), PushReg(Rax), PushReg(Rax)];
      case OpGt =>
        out := out + [Note(w), MovImm(Rcx, 0), MovImm(Rdx, 1), PopReg(Rbx), PopReg(Rax), Cmp(Rax, Rbx), Cmovg(Rcx, Rdx), PushReg(Rcx)];
      case OpIf(t) =>
        out := out + [Note(w), PopReg(Rax), Test(Rax)];
        if t.None? {
          return Err(MissingTarget(tokenIdx));
        }
        out := out + [Jz(t.value)];
        assert out == [Label(tokenIdx)] + EmitWord(tokenIdx, w).value;
      case OpElse(t) =>
        out := out + [Note(w)];
        if t.None? {
          return Err(MissingTarget(tokenIdx));
        }
        out := out + [Jmp(t.value)];
        assert out == [Label(tokenIdx)] + EmitWord(tokenIdx, w).value;
      case OpEnd(t) =>
        if t.None? {
          return Err(MissingTarget(tokenIdx));
        }
        out := out + [Note(w)];
        if tokenIdx + 1 != t.value {
          out := out + [Jmp(t.value)];
          assert out == [Label(tokenIdx)] + EmitWord(tokenIdx, w).value;
        }
      case OpWhile =>
        out := out + [Note(w)];
      case OpDo(t) =>
        out := out + [Note(w), PopReg(Rax), Test(Rax)];
        if t.None? {
          return Err(MissingTarget(tokenIdx));
        }
        out := out + [Jz(t.value)];
        assert out == [Label(tokenIdx)] + EmitWord(tokenIdx, w).value;
    }
    return Ok(out);
  }
}
