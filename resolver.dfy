/** The block resolver (`crossreference_blocks`): one forward pass that keeps a stack of
    pending opener positions and gives every `if`, `else`, `end` and `do` an absolute
    target, patching earlier output slots by index. */
module Resolver {
  import opened Syntax

  /** The pass's working state: positions of pending openers (top last) and the output so far. */
  datatype State = State(pending: seq<nat>, out: seq<Token>)

  /** One iteration of the pass, for the token at position `i`. Indexing past the end of a
      vector is a panic, and a `do` slot that does not hold a target makes the `if let` at
      main.rs:319 do nothing; `StepKeepsInv` shows that neither happens. */
  function ResolveStep(program: seq<Token>, i: nat, st: State): Result<State, Error>
    requires i < |program|
  {
    var token := program[i];
    match token.word
    case OpIf(_) =>
      Ok(State(st.pending + [i], st.out + [token]))
    case OpElse(_) =>
      var ifIdx :- HandleStackEmpty(Top(st.pending), token);
      var rest := st.pending[..|st.pending| - 1];
      var opener :- Index(program, ifIdx, i);
      if opener.word != OpIf(None) then Err(ElseWithoutIf(i))
      else
        // only the word of the `if` slot changes; it keeps the `if`'s own position
        var slot :- Index(st.out, ifIdx, i);
        Ok(State(rest + [i], st.out[ifIdx := slot.(word := OpIf(Some(i + 1)))] + [token]))
    case OpEnd(_) =>
      var blockIdx :- HandleStackEmpty(Top(st.pending), token);
      var rest := st.pending[..|st.pending| - 1];
      var opener :- Index(program, blockIdx, i);
      // the opener's slot is rebuilt from the `end` token, position included
      if opener.word.OpIf? then
        var _ :- Index(st.out, blockIdx, i);
        Ok(State(rest, st.out[blockIdx := token.(word := OpIf(Some(i)))] + [token.(word := OpEnd(Some(i + 1)))]))
      else if opener.word.OpElse? then
        var _ :- Index(st.out, blockIdx, i);
        Ok(State(rest, st.out[blockIdx := token.(word := OpElse(Some(i)))] + [token.(word := OpEnd(Some(i + 1)))]))
      else if opener.word.OpDo? then
        var slot :- Index(st.out, blockIdx, i);
        if slot.word.OpDo? && slot.word.target.Some? then
          var whileIdx := slot.word.target.value;
          var anchor :- Index(st.out, whileIdx, i);
          if anchor.word != OpWhile then Err(DoWithoutWhile(i))
          else
            Ok(State(rest, st.out[blockIdx := token.(word := OpDo(Some(i + 1)))] + [token.(word := OpEnd(Some(whileIdx)))]))
        else
          Ok(State(rest, st.out))
      else
        Err(EndClosesWhile(i))
    case OpWhile =>
      Ok(State(st.pending + [i], st.out + [token]))
    case OpDo(_) =>
      // any opener is accepted here; whether it is a `while` is checked at the `end`
      var anchor :- HandleStackEmpty(Top(st.pending), token);
      Ok(State(st.pending[..|st.pending| - 1] + [i], st.out + [token.(word := OpDo(Some(anchor)))]))
    case _ =>
      Ok(State(st.pending, st.out + [token]))
  }

  /** The pass over positions `i` .. `j - 1`, starting from `st`; the first failure stops it. */
  function RunRange(program: seq<Token>, i: nat, j: nat, st: State): Result<State, Error>
    requires i <= j <= |program|
    decreases j - i, 1
  {
    if i == j then Ok(st) else StepThenRun(program, i, j, st)
  }

  /** Position `i` is handled, then the pass goes on from `i + 1`. */
  function StepThenRun(program: seq<Token>, i: nat, j: nat, st: State): Result<State, Error>
    requires i < j <= |program|
    decreases j - i, 0
  {
    var next :- ResolveStep(program, i, st);
    RunRange(program, i + 1, j, next)
  }

  /** One step of the pass, unfolded. */
  lemma RunRangeStep(program: seq<Token>, i: nat, j: nat, st: State)
    requires i < j <= |program|
    ensures ResolveStep(program, i, st).Err? ==> RunRange(program, i, j, st) == Err(ResolveStep(program, i, st).error)
    ensures ResolveStep(program, i, st).Ok? ==>
              RunRange(program, i, j, st) == RunRange(program, i + 1, j, ResolveStep(program, i, st).value)
  {
  }

  function Finish(r: Result<State, Error>): Result<seq<Token>, Error> {
    match r
    case Ok(st) => Ok(st.out)
    case Err(e) => Err(e)
  }

  /** The whole pass, with the pending stack it ends with. */
  function Pass(program: seq<Token>): Result<State, Error> {
    RunRange(program, 0, |program|, State([], []))
  }

  /** The pass as the source returns it: the pending stack is dropped unchecked at the end
      (main.rs:355-356). */
  function Resolve(program: seq<Token>): Result<seq<Token>, Error> {
    Finish(Pass(program))
  }

  // ---------------------------------------------------------------------------
  // The invariant of the pass

  /** What holds before the token at position `i` is processed: the output has one slot per
      token seen, pending positions are increasing openers already seen, and a pending `do`
      slot holds the earlier position it popped. */
  predicate Inv(program: seq<Token>, i: nat, st: State) {
    && i <= |program|
    && |st.out| == i
    && (forall p :: 0 <= p < |st.pending| ==> st.pending[p] < i && program[st.pending[p]].word.IsOpener())
    && (forall p, q :: 0 <= p < q < |st.pending| ==> st.pending[p] < st.pending[q])
    && (forall p :: 0 <= p < |st.pending| && program[st.pending[p]].word.OpDo? ==>
          && st.out[st.pending[p]].word.OpDo?
          && st.out[st.pending[p]].word.target.Some?
          && st.out[st.pending[p]].word.target.value < st.pending[p])
  }

  /** What the step at position `i` relies on: the output has one slot per token seen, and the
      top pending position (if any) is an earlier opener whose `do` slot, if it is one, holds an
      earlier position. */
  predicate Ready(program: seq<Token>, i: nat, st: State) {
    && i < |program|
    && |st.out| == i
    && (st.pending != [] ==>
          var k := st.pending[|st.pending| - 1];
          && k < i && program[k].word.IsOpener()
          && (program[k].word.OpDo? ==>
                st.out[k].word.OpDo? && st.out[k].word.target.Some? && st.out[k].word.target.value < i))
  }

  /** Under the invariant the step never indexes out of bounds, and a step that succeeds keeps
      the invariant. */
  lemma StepKeepsInv(program: seq<Token>, i: nat, st: State)
    requires i < |program| && Inv(program, i, st)
    ensures Ready(program, i, st)
    ensures ResolveStep(program, i, st).Err? ==> !ResolveStep(program, i, st).error.IndexPanic?
    ensures ResolveStep(program, i, st).Ok? ==> Inv(program, i + 1, ResolveStep(program, i, st).value)
  {
    if st.pending != [] {
      assert st.pending[|st.pending| - 1] < i;
    }
    match ResolveStep(program, i, st)
    case Err(_) =>
    case Ok(next) =>
      var w := program[i].word;
      if w.OpElse? || w.OpEnd? || w.OpDo? {
        PopKeepsInv(program, i, st, next);
      } else {
        GrowKeepsInv(program, i, st, next);
      }
  }

  /** Appending one slot, and pushing `i` only if it is an opener, keeps the invariant. */
  lemma GrowKeepsInv(program: seq<Token>, i: nat, st: State, next: State)
    requires i < |program| && Inv(program, i, st)
    requires !program[i].word.OpDo?
    requires |next.out| == i + 1 && next.out[..i] == st.out
    requires next.pending == st.pending || (next.pending == st.pending + [i] && program[i].word.IsOpener())
    ensures Inv(program, i + 1, next)
  {
    assert forall p :: 0 <= p < |st.pending| ==> next.pending[p] == st.pending[p];
    assert forall j :: 0 <= j < i ==> next.out[j] == st.out[j];
  }

  /** Popping the top `k`, rewriting at most slot `k` and appending one slot, and pushing `i`
      only if it is an opener (a `do` with an earlier target), keeps the invariant. */
  lemma PopKeepsInv(program: seq<Token>, i: nat, st: State, next: State)
    requires i < |program| && Inv(program, i, st) && st.pending != []
    requires |next.out| == i + 1
    requires forall j :: 0 <= j < i && j != st.pending[|st.pending| - 1] ==> next.out[j] == st.out[j]
    requires || next.pending == st.pending[..|st.pending| - 1]
             || (next.pending == st.pending[..|st.pending| - 1] + [i] && program[i].word.IsOpener()
                 && (program[i].word.OpDo? ==>
                       next.out[i].word.OpDo? && next.out[i].word.target.Some? && next.out[i].word.target.value < i))
    ensures Inv(program, i + 1, next)
  {
    var rest := st.pending[..|st.pending| - 1];
    assert forall p :: 0 <= p < |rest| ==> next.pending[p] == st.pending[p] < st.pending[|st.pending| - 1];
  }

  lemma {:induction false} RunRangeInv(program: seq<Token>, i: nat, j: nat, st: State)
    requires i <= j <= |program| && Inv(program, i, st)
    ensures RunRange(program, i, j, st).Ok? ==> Inv(program, j, RunRange(program, i, j, st).value)
    ensures RunRange(program, i, j, st).Err? ==> !RunRange(program, i, j, st).error.IndexPanic?
    decreases j - i
  {
    if i < j {
      StepKeepsInv(program, i, st);
      RunRangeStep(program, i, j, st);
      match ResolveStep(program, i, st)
      case Err(_) =>
      case Ok(next) => RunRangeInv(program, i + 1, j, next);
    }
  }

  /** The pass never indexes out of bounds, and a successful pass ends in the invariant. */
  lemma PassInv(program: seq<Token>)
    ensures Pass(program).Ok? ==> Inv(program, |program|, Pass(program).value)
    ensures Pass(program).Err? ==> !Pass(program).error.IndexPanic?
  {
    var init := State([], []);
    assert Inv(program, 0, init);
    RunRangeInv(program, 0, |program|, init);
  }

  // ---------------------------------------------------------------------------
  // The loop as written

  /** `crossreference_blocks`: one pass over the tokens, with a stack of pending positions and
      an output buffer. */
  method CrossreferenceBlocks(program: seq<Token>) returns (r: Result<seq<Token>, Error>)
    ensures r == Resolve(program)
  {
    var stack: seq<nat> := [];
    var outProgram: seq<Token> := [];
    for tokenIdx := 0 to |program|
      invariant Inv(program, tokenIdx, State(stack, outProgram))
      invariant Resolve(program) == Finish(RunRange(program, tokenIdx, |program|, State(stack, outProgram)))
    {
      StepKeepsInv(program, tokenIdx, State(stack, outProgram));
      var step := ResolveToken(program, tokenIdx, stack, outProgram);
      if step.Err? {
        return Err(step.error);
      }
      stack, outProgram := step.value.pending, step.value.out;
    }
    return Ok(outProgram);
  }

  /** The body of the pass for the token at `tokenIdx`: the `match` on its word. An error
      stands for the source's exit or failed assertion. */
  method ResolveToken(program: seq<Token>, tokenIdx: nat, stack0: seq<nat>, out0: seq<Token>)
    returns (r: Result<State, Error>)
    requires Ready(program, tokenIdx, State(stack0, out0))
    ensures r == ResolveStep(program, tokenIdx, State(stack0, out0))
  {
    var stack, outProgram := stack0, out0;
    var token := program[tokenIdx];
    match token.word {
      case OpIf(_) =>
        stack := stack + [tokenIdx];
        outProgram := outProgram + [token];
      case OpElse(_) =>
        var popped := HandleStackEmpty(Top(stack), token);
        if popped.Err? {
          return Err(popped.error);
        }
        var ifIdx := popped.value;
        stack := stack[..|stack| - 1];
        if program[ifIdx].word != OpIf(None) {
          return Err(ElseWithoutIf(tokenIdx));
        }
        outProgram := outProgram[ifIdx := outProgram[ifIdx].(word := OpIf(Some(tokenIdx + 1)))];
        stack := stack + [tokenIdx];
        outProgram := outProgram + [token];
      case OpEnd(_) =>
        var popped := HandleStackEmpty(Top(stack), token);
        if popped.Err? {
          return Err(popped.error);
        }
        var blockIdx := popped.value;
        stack := stack[..|stack| - 1];
        match program[blockIdx].word {
          case OpIf(_) =>
            outProgram := outProgram[blockIdx := token.(word := OpIf(Some(tokenIdx)))];
            outProgram := outProgram + [token.(word := OpEnd(Some(tokenIdx + 1)))];
          case OpElse(_) =>
            outProgram := outProgram[blockIdx := token.(word := OpElse(Some(tokenIdx)))];
            outProgram := outProgram + [token.(word := OpEnd(Some(tokenIdx + 1)))];
          case OpDo(_) =>
            match outProgram[blockIdx].word {
              case OpDo(Some(whileIdx)) =>
                if outProgram[whileIdx].word != OpWhile {
                  return Err(DoWithoutWhile(tokenIdx));
                }
                outProgram := outProgram[blockIdx := token.(word := OpDo(Some(tokenIdx + 1)))];
                outProgram := outProgram + [token.(word := OpEnd(Some(whileIdx)))];
              case _ =>
            }
          case _ =>
            return Err(EndClosesWhile(tokenIdx));
        }
      case OpWhile =>
        stack := stack + [tokenIdx];
        outProgram := outProgram + [token];
      case OpDo(_) =>
        var popped := HandleStackEmpty(Top(stack), token);
        if popped.Err? {
          return Err(popped.error);
        }
        stack := stack[..|stack| - 1] + [tokenIdx];
        outProgram := outProgram + [token.(word := OpDo(Some(popped.value)))];
      case _ =>
        outProgram := outProgram + [token];
    }
    return Ok(State(stack, outProgram));
  }

  // ---------------------------------------------------------------------------
  // Composition of the pass

  /** Running up to `k` is running up to `j` and then on from there. */
  lemma {:induction false} RunRangeSplit(program: seq<Token>, i: nat, j: nat, k: nat, st: State)
    requires i <= j <= k <= |program|
    ensures RunRange(program, i, k, st) ==
              match RunRange(program, i, j, st)
              case Err(e) => Err(e)
              case Ok(mid) => RunRange(program, j, k, mid)
    decreases j - i
  {
    if i < j {
      match ResolveStep(program, i, st)
      case Err(e) =>
      case Ok(next) => RunRangeSplit(program, i + 1, j, k, next);
    }
  }

  // ---------------------------------------------------------------------------
  // Which slots the pass rewrites

  /** How each output slot relates to the input token at the same position: every slot keeps
      its instruction kind, non-control tokens are copied unchanged, and a still-pending opener
      slot is exactly as it was appended (a `do` with the position it popped). */
  ghost predicate Layout(program: seq<Token>, i: nat, st: State)
    requires Inv(program, i, st)
  {
    && (forall j :: 0 <= j < i ==> st.out[j].word.SameKind(program[j].word))
    && (forall j :: 0 <= j < i && !program[j].word.IsControl() ==> st.out[j] == program[j])
    && (forall p :: 0 <= p < |st.pending| && !program[st.pending[p]].word.OpDo? ==>
          st.out[st.pending[p]] == program[st.pending[p]])
    && (forall p :: 0 <= p < |st.pending| && program[st.pending[p]].word.OpDo? ==>
          st.out[st.pending[p]] == program[st.pending[p]].(word := st.out[st.pending[p]].word))
  }

  /** Popping the top opener `k`, rewriting its slot to `x` and appending `y` keeps the
      layout, when `x` and `y` keep the kinds of their input tokens. */
  lemma PatchKeepsLayout(program: seq<Token>, i: nat, st: State, x: Token, y: Token, pending: seq<nat>)
    requires i < |program| && Inv(program, i, st) && Layout(program, i, st) && st.pending != []
    requires program[i].word.IsControl() && program[st.pending[|st.pending| - 1]].word.IsControl()
    requires x.word.SameKind(program[st.pending[|st.pending| - 1]].word) && y.word.SameKind(program[i].word)
    requires pending == st.pending[..|st.pending| - 1] || (pending == st.pending[..|st.pending| - 1] + [i] && y == program[i])
    requires Inv(program, i + 1, State(pending, st.out[st.pending[|st.pending| - 1] := x] + [y]))
    ensures Layout(program, i + 1, State(pending, st.out[st.pending[|st.pending| - 1] := x] + [y]))
  {
    var k := st.pending[|st.pending| - 1];
    var rest := st.pending[..|st.pending| - 1];
    var out := st.out[k := x] + [y];
    assert forall j :: 0 <= j < i && j != k ==> out[j] == st.out[j];
    assert forall p :: 0 <= p < |rest| ==> rest[p] < k && rest[p] == st.pending[p];
  }

  /** Appending `y` for the token at `i`, with the pending stack growing by `i` or not at all
      (or the top replaced by `i`), keeps the layout. */
  lemma AppendKeepsLayout(program: seq<Token>, i: nat, st: State, y: Token, pending: seq<nat>)
    requires i < |program| && Inv(program, i, st) && Layout(program, i, st)
    requires y.word.SameKind(program[i].word)
    requires !program[i].word.IsControl() ==> y == program[i]
    requires || pending == st.pending
             || (pending == st.pending + [i] && y == program[i])
             || (st.pending != [] && pending == st.pending[..|st.pending| - 1] + [i] && program[i].word.OpDo?
                 && y == program[i].(word := y.word))
    requires Inv(program, i + 1, State(pending, st.out + [y]))
    ensures Layout(program, i + 1, State(pending, st.out + [y]))
  {
    if pending == st.pending {
      AppendKeepsPending(program, i, st, y);
    } else if pending == st.pending + [i] && y == program[i] {
      AppendPushesPending(program, i, st);
    } else {
      AppendReplacesPending(program, i, st, y);
    }
  }

  lemma AppendKeepsPending(program: seq<Token>, i: nat, st: State, y: Token)
    requires i < |program| && Inv(program, i, st) && Layout(program, i, st)
    requires y.word.SameKind(program[i].word)
    requires !program[i].word.IsControl() ==> y == program[i]
    requires Inv(program, i + 1, State(st.pending, st.out + [y]))
    ensures Layout(program, i + 1, State(st.pending, st.out + [y]))
  {
    var out := st.out + [y];
    assert forall j :: 0 <= j < i ==> out[j] == st.out[j];
  }

  lemma AppendPushesPending(program: seq<Token>, i: nat, st: State)
    requires i < |program| && Inv(program, i, st) && Layout(program, i, st)
    requires Inv(program, i + 1, State(st.pending + [i], st.out + [program[i]]))
    ensures Layout(program, i + 1, State(st.pending + [i], st.out + [program[i]]))
  {
    var out := st.out + [program[i]];
    assert forall j :: 0 <= j < i ==> out[j] == st.out[j];
    assert forall p :: 0 <= p < |st.pending| ==> (st.pending + [i])[p] == st.pending[p];
  }

  lemma AppendReplacesPending(program: seq<Token>, i: nat, st: State, y: Token)
    requires i < |program| && Inv(program, i, st) && Layout(program, i, st)
    requires y.word.SameKind(program[i].word) && program[i].word.OpDo? && y == program[i].(word := y.word)
    requires st.pending != []
    requires Inv(program, i + 1, State(st.pending[..|st.pending| - 1] + [i], st.out + [y]))
    ensures Layout(program, i + 1, State(st.pending[..|st.pending| - 1] + [i], st.out + [y]))
  {
    var out := st.out + [y];
    var pending := st.pending[..|st.pending| - 1] + [i];
    assert forall j :: 0 <= j < i ==> out[j] == st.out[j];
    assert forall p :: 0 <= p < |st.pending| - 1 ==> pending[p] == st.pending[p];
  }

  lemma StepLayout(program: seq<Token>, i: nat, st: State)
    requires i < |program| && Inv(program, i, st) && Layout(program, i, st)
    requires Ready(program, i, st) && ResolveStep(program, i, st).Ok?
    ensures Inv(program, i + 1, ResolveStep(program, i, st).value)
    ensures Layout(program, i + 1, ResolveStep(program, i, st).value)
  {
    StepKeepsInv(program, i, st);
    var next := ResolveStep(program, i, st).value;
    match program[i].word
    case OpElse(_) => ElseLayout(program, i, st, next);
    case OpEnd(_) => EndLayout(program, i, st, next);
    case OpDo(_) => DoLayout(program, i, st, next);
    case _ => AppendLayout(program, i, st, next);
  }

  lemma ElseLayout(program: seq<Token>, i: nat, st: State, next: State)
    requires i < |program| && Inv(program, i, st) && Layout(program, i, st) && program[i].word.OpElse?
    requires Ready(program, i, st) && ResolveStep(program, i, st) == Ok(next) && Inv(program, i + 1, next)
    ensures Layout(program, i + 1, next)
  {
    var k := st.pending[|st.pending| - 1];
    var x := st.out[k].(word := OpIf(Some(i + 1)));
    assert next == State(st.pending[..|st.pending| - 1] + [i], st.out[k := x] + [program[i]]);
    PatchKeepsLayout(program, i, st, x, program[i], next.pending);
  }

  lemma DoLayout(program: seq<Token>, i: nat, st: State, next: State)
    requires i < |program| && Inv(program, i, st) && Layout(program, i, st) && program[i].word.OpDo?
    requires Ready(program, i, st) && ResolveStep(program, i, st) == Ok(next) && Inv(program, i + 1, next)
    ensures Layout(program, i + 1, next)
  {
    var y := program[i].(word := OpDo(Some(st.pending[|st.pending| - 1])));
    assert next == State(st.pending[..|st.pending| - 1] + [i], st.out + [y]);
    AppendKeepsLayout(program, i, st, y, next.pending);
  }

  lemma AppendLayout(program: seq<Token>, i: nat, st: State, next: State)
    requires i < |program| && Inv(program, i, st) && Layout(program, i, st)
    requires !program[i].word.OpElse? && !program[i].word.OpEnd? && !program[i].word.OpDo?
    requires Ready(program, i, st) && ResolveStep(program, i, st) == Ok(next) && Inv(program, i + 1, next)
    ensures Layout(program, i + 1, next)
  {
    var w := program[i].word;
    assert next == State(if w.OpIf? || w.OpWhile? then st.pending + [i] else st.pending, st.out + [program[i]]);
    AppendKeepsLayout(program, i, st, program[i], next.pending);
  }

  lemma EndLayout(program: seq<Token>, i: nat, st: State, next: State)
    requires i < |program| && Inv(program, i, st) && Layout(program, i, st) && program[i].word.OpEnd?
    requires Ready(program, i, st) && ResolveStep(program, i, st) == Ok(next) && Inv(program, i + 1, next)
    ensures Layout(program, i + 1, next)
  {
    var token := program[i];
    var k := st.pending[|st.pending| - 1];
    var rest := st.pending[..|st.pending| - 1];
    var w := program[k].word;
    if w.OpIf? {
      var x, y := token.(word := OpIf(Some(i))), token.(word := OpEnd(Some(i + 1)));
      assert next == State(rest, st.out[k := x] + [y]);
      PatchKeepsLayout(program, i, st, x, y, rest);
    } else if w.OpElse? {
      var x, y := token.(word := OpElse(Some(i))), token.(word := OpEnd(Some(i + 1)));
      assert next == State(rest, st.out[k := x] + [y]);
      PatchKeepsLayout(program, i, st, x, y, rest);
    } else {
      var x, y := token.(word := OpDo(Some(i + 1))), token.(word := OpEnd(Some(st.out[k].word.target.value)));
      assert next == State(rest, st.out[k := x] + [y]);
      PatchKeepsLayout(program, i, st, x, y, rest);
    }
  }


  lemma {:induction false} RunRangeLayout(program: seq<Token>, i: nat, j: nat, st: State)
    requires i <= j <= |program| && Inv(program, i, st) && Layout(program, i, st)
    requires RunRange(program, i, j, st).Ok?
    ensures Inv(program, j, RunRange(program, i, j, st).value)
    ensures Layout(program, j, RunRange(program, i, j, st).value)
    decreases j - i
  {
    if i < j {
      StepKeepsInv(program, i, st);
      StepLayout(program, i, st);
      RunRangeLayout(program, i + 1, j, ResolveStep(program, i, st).value);
    }
  }

  lemma PassLayout(program: seq<Token>)
    requires Pass(program).Ok?
    ensures Inv(program, |program|, Pass(program).value)
    ensures Layout(program, |program|, Pass(program).value)
  {
    var init := State([], []);
    assert Layout(program, 0, init);
    RunRangeLayout(program, 0, |program|, init);
  }

  /** A successful pass returns one token per input token, in place: each keeps its kind,
      and `push`, the arithmetic words, `.`, `dup` and `while` are copied unchanged. */
  lemma ResolveKeepsLayout(program: seq<Token>, out: seq<Token>)
    requires Resolve(program) == Ok(out)
    ensures |out| == |program|
    ensures forall j :: 0 <= j < |program| ==> out[j].word.SameKind(program[j].word)
    ensures forall j :: 0 <= j < |program| && !program[j].word.IsControl() ==> out[j] == program[j]
  {
    PassLayout(program);
  }

  /** Openers still pending when the input runs out are never patched: an unclosed `if`,
      `else` or `while` slot is the input token, an unclosed `do` slot is the input token
      with the earlier position it popped as its target. */
  lemma UnclosedOpenersUnpatched(program: seq<Token>, st: State)
    requires Pass(program) == Ok(st)
    ensures Inv(program, |program|, st)
    ensures forall p :: 0 <= p < |st.pending| && !program[st.pending[p]].word.OpDo? ==>
              st.out[st.pending[p]] == program[st.pending[p]]
    ensures forall p :: 0 <= p < |st.pending| && program[st.pending[p]].word.OpDo? ==>
              && st.out[st.pending[p]] == program[st.pending[p]].(word := st.out[st.pending[p]].word)
              && st.out[st.pending[p]].word.OpDo? && st.out[st.pending[p]].word.target.Some?
              && st.out[st.pending[p]].word.target.value < st.pending[p]
  {
    PassLayout(program);
    PendingSlots(program, |program|, st);
  }

  lemma PendingSlots(program: seq<Token>, n: nat, st: State)
    requires Inv(program, n, st) && Layout(program, n, st)
    ensures forall p :: 0 <= p < |st.pending| && !program[st.pending[p]].word.OpDo? ==>
              st.out[st.pending[p]] == program[st.pending[p]]
    ensures forall p :: 0 <= p < |st.pending| && program[st.pending[p]].word.OpDo? ==>
              && st.out[st.pending[p]] == program[st.pending[p]].(word := st.out[st.pending[p]].word)
              && st.out[st.pending[p]].word.OpDo? && st.out[st.pending[p]].word.target.Some?
              && st.out[st.pending[p]].word.target.value < st.pending[p]
  {
  }

  // ---------------------------------------------------------------------------
  // Targets stay inside the address space

  /** Every control word is as the lexer makes it: without a target. */
  predicate Unresolved(program: seq<Token>) {
    forall j :: 0 <= j < |program| && program[j].word.IsControl() ==> program[j].word.target.None?
  }

  /** Every target present is an address in `0 .. bound` (`bound` is the exit address). */
  predicate TargetsWithin(out: seq<Token>, bound: nat) {
    forall j :: 0 <= j < |out| && out[j].word.IsControl() && out[j].word.target.Some? ==>
      out[j].word.target.value <= bound
  }

  lemma {:induction false} RunRangeTargets(program: seq<Token>, i: nat, j: nat, st: State)
    requires Unresolved(program)
    requires i <= j <= |program| && Inv(program, i, st) && TargetsWithin(st.out, i)
    requires RunRange(program, i, j, st).Ok?
    ensures TargetsWithin(RunRange(program, i, j, st).value.out, j)
    decreases j - i
  {
    if i < j {
      StepKeepsInv(program, i, st);
      var next := ResolveStep(program, i, st).value;
      assert TargetsWithin(next.out, i + 1);
      RunRangeTargets(program, i + 1, j, next);
    }
  }

  /** On lexer output, every target the pass produces is an address of the program or its
      exit address, so both back-ends can jump there. */
  lemma ResolvedTargetsInRange(program: seq<Token>, out: seq<Token>)
    requires Unresolved(program) && Resolve(program) == Ok(out)
    ensures TargetsWithin(out, |out|)
  {
    RunRangeTargets(program, 0, |program|, State([], []));
    ResolveKeepsLayout(program, out);
  }

  // ---------------------------------------------------------------------------
  // Failures

  /** The four ways the token at `i` stops the pass, read off the state it meets. */
  predicate Fails(program: seq<Token>, i: nat, st: State)
    requires Ready(program, i, st)
  {
    var w := program[i].word;
    if st.pending == [] then
      w.OpElse? || w.OpEnd? || w.OpDo?
    else
      var top := st.pending[|st.pending| - 1];
      || (w.OpElse? && program[top].word != OpIf(None))
      || (w.OpEnd? && program[top].word.OpWhile?)
      || (w.OpEnd? && program[top].word.OpDo? && st.out[st.out[top].word.target.value].word != OpWhile)
  }

  lemma StepFailsExactly(program: seq<Token>, i: nat, st: State)
    requires Ready(program, i, st)
    ensures ResolveStep(program, i, st).Err? <==> Fails(program, i, st)
  {
    if st.pending != [] {
      var top := st.pending[|st.pending| - 1];
      assert Top(st.pending) == Some(top);
    }
  }

  /** The pass fails exactly when, at some position reached without failure, one of the four
      failing situations arises: a closer with nothing pending, an `else` not closing an `if`,
      an `end` closing a `while`, or an `end` closing a `do` whose anchor is not a `while`. */
  lemma {:induction false} PrefixFailsExactly(program: seq<Token>, k: nat)
    requires k <= |program|
    ensures RunRange(program, 0, k, State([], [])).Err? <==>
              exists i :: 0 <= i < k && RunRange(program, 0, i, State([], [])).Ok? &&
                          Ready(program, i, RunRange(program, 0, i, State([], [])).value) &&
                          Fails(program, i, RunRange(program, 0, i, State([], [])).value)
  {
    var init := State([], []);
    if k > 0 {
      PrefixFailsExactly(program, k - 1);
      RunRangeSplit(program, 0, k - 1, k, init);
      var prev := RunRange(program, 0, k - 1, init);
      RunRangeInv(program, 0, k - 1, init);
      if prev.Ok? {
        RunRangeStep(program, k - 1, k, prev.value);
        StepKeepsInv(program, k - 1, prev.value);
        StepFailsExactly(program, k - 1, prev.value);
      }
    }
  }

  lemma ResolveFailsExactly(program: seq<Token>)
    ensures Resolve(program).Err? <==>
              exists i :: 0 <= i < |program| && RunRange(program, 0, i, State([], [])).Ok? &&
                          Ready(program, i, RunRange(program, 0, i, State([], [])).value) &&
                          Fails(program, i, RunRange(program, 0, i, State([], [])).value)
  {
    PrefixFailsExactly(program, |program|);
  }

  /** With no `if` or `while` among them, tokens leave nothing pending, and the first
      `else`, `end` or `do` meets an empty stack. */
  lemma {:induction false} NoOpenerNoPending(program: seq<Token>, i: nat, j: nat, st: State)
    requires i <= j <= |program| && Inv(program, i, st) && st.pending == []
    requires forall k :: i <= k < j ==> !program[k].word.OpIf? && !program[k].word.OpWhile?
    ensures RunRange(program, i, j, st).Ok? ==>
              RunRange(program, i, j, st).value.pending == [] &&
              forall k :: i <= k < j ==> !program[k].word.IsControl()
    ensures RunRange(program, i, j, st).Err? ==>
              exists k :: i <= k < j && RunRange(program, i, j, st).error ==
                            StackEmpty(program[k].filePath, program[k].row, program[k].col)
    decreases j - i
  {
    if i < j {
      StepKeepsInv(program, i, st);
      RunRangeStep(program, i, j, st);
      match ResolveStep(program, i, st)
      case Err(e) =>
        assert e == StackEmpty(program[i].filePath, program[i].row, program[i].col);
      case Ok(next) =>
        NoOpenerNoPending(program, i + 1, j, next);
    }
  }

  /** An `else`, `end` or `do` with no `if` or `while` before it stops the pass with the
      stack-empty diagnostic, at it or at an earlier stray closer. */
  lemma StrayCloserFails(program: seq<Token>, i: nat)
    requires i < |program| && (program[i].word.OpElse? || program[i].word.OpEnd? || program[i].word.OpDo?)
    requires forall k :: 0 <= k < i ==> !program[k].word.OpIf? && !program[k].word.OpWhile?
    ensures exists k :: 0 <= k <= i &&
              Resolve(program) == Err(StackEmpty(program[k].filePath, program[k].row, program[k].col))
  {
    var init := State([], []);
    NoOpenerNoPending(program, 0, i + 1, init);
    RunRangeSplit(program, 0, i + 1, |program|, init);
  }
}
