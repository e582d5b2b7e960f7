/** Well-nested programs as trees of blocks, and the targets the block structure itself
    assigns: an independent reference for what the resolver must produce. */
module Blocks {
  import opened Syntax
  import opened Resolver

  /** A program fragment with its nesting made explicit; each block keeps its own tokens. */
  datatype Block =
    | Plain(tok: Token)
    | IfEnd(ifTok: Token, body: seq<Block>, endTok: Token)
    | IfElseEnd(ifTok: Token, thn: seq<Block>, elseTok: Token, els: seq<Block>, endTok: Token)
    | Loop(whileTok: Token, cond: seq<Block>, doTok: Token, body: seq<Block>, endTok: Token)

  /** Each token has the word its place in the block calls for, as the lexer makes it. */
  predicate WellFormed(b: Block)
    decreases b, 1
  {
    match b
    case Plain(t) => !t.word.IsControl() && !t.word.OpWhile?
    case IfEnd(i, body, e) =>
      i.word == OpIf(None) && WellFormedSeq(body) && e.word == OpEnd(None)
    case IfElseEnd(i, thn, el, els, e) =>
      && i.word == OpIf(None) && WellFormedSeq(thn) && el.word == OpElse(None)
      && WellFormedSeq(els) && e.word == OpEnd(None)
    case Loop(w, cond, d, body, e) =>
      && w.word == OpWhile && WellFormedSeq(cond) && d.word == OpDo(None)
      && WellFormedSeq(body) && e.word == OpEnd(None)
  }

  predicate WellFormedSeq(bs: seq<Block>)
    decreases bs, 0
  {
    forall k :: 0 <= k < |bs| ==> WellFormed(bs[k])
  }

  /** The tokens of a block, in source order. */
  function Flatten(b: Block): seq<Token>
    decreases b, 1
  {
    match b
    case Plain(t) => [t]
    case IfEnd(i, body, e) => [i] + FlattenSeq(body) + [e]
    case IfElseEnd(i, thn, el, els, e) => [i] + FlattenSeq(thn) + [el] + FlattenSeq(els) + [e]
    case Loop(w, cond, d, body, e) => [w] + FlattenSeq(cond) + [d] + FlattenSeq(body) + [e]
  }

  function FlattenSeq(bs: seq<Block>): seq<Token>
    decreases bs, 0
  {
    if bs == [] then [] else Flatten(bs[0]) + FlattenSeq(bs[1..])
  }

  /** The resolved tokens of block `b` placed at address `base`, computed from the nesting:
      - `if A end`: the `if` jumps to the `end`, the `end` to the next address;
      - `if A else B end`: the `if` jumps past the `else`, the `else` to the `end`, the `end`
        to the next address;
      - `while C do B end`: the `do` jumps past the `end`, the `end` back to the `while`.
      A slot closed by an `end` takes the `end` token's position; an `if` closed by an `else`
      keeps its own. */
  function Resolved(b: Block, base: nat): (r: seq<Token>)
    ensures |r| == |Flatten(b)|
    decreases b, 1
  {
    match b
    case Plain(t) => [t]
    case IfEnd(i, body, e) =>
      var endAt := base + 1 + |FlattenSeq(body)|;
      [e.(word := OpIf(Some(endAt)))] + ResolvedSeq(body, base + 1) + [e.(word := OpEnd(Some(endAt + 1)))]
    case IfElseEnd(i, thn, el, els, e) =>
      var elseAt := base + 1 + |FlattenSeq(thn)|;
      var endAt := elseAt + 1 + |FlattenSeq(els)|;
      [i.(word := OpIf(Some(elseAt + 1)))] + ResolvedSeq(thn, base + 1)
        + [e.(word := OpElse(Some(endAt)))] + ResolvedSeq(els, elseAt + 1)
        + [e.(word := OpEnd(Some(endAt + 1)))]
    case Loop(w, cond, d, body, e) =>
      var doAt := base + 1 + |FlattenSeq(cond)|;
      var endAt := doAt + 1 + |FlattenSeq(body)|;
      [w] + ResolvedSeq(cond, base + 1)
        + [e.(word := OpDo(Some(endAt + 1)))] + ResolvedSeq(body, doAt + 1)
        + [e.(word := OpEnd(Some(base)))]
  }

  function ResolvedSeq(bs: seq<Block>, base: nat): (r: seq<Token>)
    ensures |r| == |FlattenSeq(bs)|
    decreases bs, 0
  {
    if bs == [] then [] else Resolved(bs[0], base) + ResolvedSeq(bs[1..], base + |Flatten(bs[0])|)
  }

  lemma {:induction false} FlattenSeqSplit(bs: seq<Block>)
    requires bs != []
    ensures FlattenSeq(bs) == Flatten(bs[0]) + FlattenSeq(bs[1..])
  {
  }

  /** A piece of a piece of `program` is a piece of `program`. */
  lemma SliceOfSlice(program: seq<Token>, base: nat, whole: seq<Token>, off: nat, part: seq<Token>)
    requires base + |whole| <= |program| && program[base .. base + |whole|] == whole
    requires off + |part| <= |whole| && whole[off .. off + |part|] == part
    ensures program[base + off .. base + off + |part|] == part
  {
    assert forall k :: 0 <= k < |part| ==> program[base + off + k] == whole[off + k] == part[k];
  }

  /** Rewriting the slot just after `pre` replaces that one element. */
  lemma PatchAt<T>(pre: seq<T>, x: T, post: seq<T>, y: T)
    ensures (pre + [x] + post)[|pre| := y] == pre + [y] + post
  {
    assert forall k :: 0 <= k < |pre| + 1 + |post| ==> (pre + [x] + post)[|pre| := y][k] == (pre + [y] + post)[k];
  }

  /** Regrouping concatenations after a prefix. */
  lemma Regroup3<T>(a: seq<T>, x: T, b: seq<T>, y: T)
    ensures a + [x] + b + [y] == a + ([x] + b + [y])
  {
  }

  lemma Regroup5<T>(a: seq<T>, x: T, b: seq<T>, y: T, c: seq<T>, z: T)
    ensures a + [x] + b + [y] + c + [z] == a + ([x] + b + [y] + c + [z])
  {
  }

  // ---------------------------------------------------------------------------
  // Runs of the pass between two states

  /** The pass over `i` .. `j - 1` succeeds from `st` and ends in `st2`. */
  predicate Goes(program: seq<Token>, i: nat, j: nat, st: State, st2: State) {
    i <= j <= |program| && RunRange(program, i, j, st) == Ok(st2)
  }

  /** The pass over `i` .. `j - 1` leaves the pending stack as it found it and appends `added`. */
  predicate Appends(program: seq<Token>, i: nat, j: nat, st: State, added: seq<Token>) {
    |added| == j - i && Goes(program, i, j, st, State(st.pending, st.out + added))
  }

  lemma GoesThen(program: seq<Token>, i: nat, j: nat, k: nat, s1: State, s2: State, s3: State)
    requires Goes(program, i, j, s1, s2) && Goes(program, j, k, s2, s3)
    ensures Goes(program, i, k, s1, s3)
  {
    RunRangeSplit(program, i, j, k, s1);
  }

  lemma AppendsThen(program: seq<Token>, i: nat, j: nat, k: nat, st: State, a: seq<Token>, b: seq<Token>)
    requires Appends(program, i, j, st, a)
    requires Appends(program, j, k, State(st.pending, st.out + a), b)
    ensures Appends(program, i, k, st, a + b)
  {
    GoesThen(program, i, j, k, st, State(st.pending, st.out + a), State(st.pending, st.out + a + b));
    assert st.out + a + b == st.out + (a + b);
  }

  /** One step of the pass, seen as a run of length one. */
  lemma StepGoes(program: seq<Token>, i: nat, st: State, next: State)
    requires i < |program| && ResolveStep(program, i, st) == Ok(next)
    ensures Goes(program, i, i + 1, st, next)
  {
    RunRangeStep(program, i, i + 1, st);
  }

  // ---------------------------------------------------------------------------
  // The steps a well-nested block takes

  /** The step of an `if` or a `while`: its position is pushed, the token copied. */
  lemma OpenStep(program: seq<Token>, i: nat, st: State)
    requires i < |program| && (program[i].word.OpIf? || program[i].word.OpWhile?)
    ensures Goes(program, i, i + 1, st, State(st.pending + [i], st.out + [program[i]]))
  {
    StepGoes(program, i, st, State(st.pending + [i], st.out + [program[i]]));
  }

  /** The step of an `end` closing an `if` or an `else` on top of the pending stack. */
  lemma EndClosesIfOrElse(program: seq<Token>, i: nat, st: State, k: nat, rest: seq<nat>)
    requires i < |program| && program[i].word.OpEnd?
    requires st.pending == rest + [k] && k < |program| && k < |st.out|
    requires program[k].word.OpIf? || program[k].word.OpElse?
    ensures Goes(program, i, i + 1, st,
                 State(rest, st.out[k := program[i].(word := if program[k].word.OpIf? then OpIf(Some(i)) else OpElse(Some(i)))]
                             + [program[i].(word := OpEnd(Some(i + 1)))]))
  {
    assert st.pending[..|st.pending| - 1] == rest;
    StepGoes(program, i, st, ResolveStep(program, i, st).value);
  }

  /** The step of an `end` closing a `do` whose anchor slot holds a `while`. */
  lemma EndClosesDo(program: seq<Token>, i: nat, st: State, k: nat, rest: seq<nat>, w: nat)
    requires i < |program| && program[i].word.OpEnd?
    requires st.pending == rest + [k] && k < |program| && k < |st.out| && program[k].word.OpDo?
    requires st.out[k].word == OpDo(Some(w)) && w < |st.out| && st.out[w].word == OpWhile
    ensures Goes(program, i, i + 1, st,
                 State(rest, st.out[k := program[i].(word := OpDo(Some(i + 1)))] + [program[i].(word := OpEnd(Some(w)))]))
  {
    assert st.pending[..|st.pending| - 1] == rest;
    StepGoes(program, i, st, ResolveStep(program, i, st).value);
  }

  /** The step of an `else` closing an unpatched `if` on top of the pending stack. */
  lemma ElseClosesIf(program: seq<Token>, i: nat, st: State, k: nat, rest: seq<nat>)
    requires i < |program| && program[i].word.OpElse?
    requires st.pending == rest + [k] && k < |program| && k < |st.out| && program[k].word == OpIf(None)
    ensures Goes(program, i, i + 1, st,
                 State(rest + [i], st.out[k := st.out[k].(word := OpIf(Some(i + 1)))] + [program[i]]))
  {
    assert st.pending[..|st.pending| - 1] == rest;
    StepGoes(program, i, st, ResolveStep(program, i, st).value);
  }

  /** The step of a `do`: it replaces the top of the pending stack by its own position. */
  lemma DoStep(program: seq<Token>, i: nat, st: State, k: nat, rest: seq<nat>)
    requires i < |program| && program[i].word.OpDo?
    requires st.pending == rest + [k]
    ensures Goes(program, i, i + 1, st, State(rest + [i], st.out + [program[i].(word := OpDo(Some(k)))]))
  {
    assert st.pending[..|st.pending| - 1] == rest;
    StepGoes(program, i, st, ResolveStep(program, i, st).value);
  }

  /** `if` .. `end` around a part that appends `rBody`: the `if` slot is rebuilt from the
      `end` token and points at the `end`, the `end` points past itself. */
  lemma IfEndSteps(program: seq<Token>, base: nat, endAt: nat, st: State, i: Token, e: Token, rBody: seq<Token>)
    requires base < endAt < |program| && |st.out| == base
    requires program[base] == i && i.word.OpIf? && program[endAt] == e && e.word.OpEnd?
    requires Appends(program, base + 1, endAt, State(st.pending + [base], st.out + [i]), rBody)
    ensures Appends(program, base, endAt + 1, st,
                    [e.(word := OpIf(Some(endAt)))] + rBody + [e.(word := OpEnd(Some(endAt + 1)))])
  {
    var s1 := State(st.pending + [base], st.out + [i]);
    OpenStep(program, base, st);
    var s2 := State(s1.pending, s1.out + rBody);
    var x := e.(word := OpIf(Some(endAt)));
    var y := e.(word := OpEnd(Some(endAt + 1)));
    PatchAt(st.out, i, rBody, x);
    EndClosesIfOrElse(program, endAt, s2, base, st.pending);
    GoesThen(program, base, base + 1, endAt, st, s1, s2);
    GoesThen(program, base, endAt, endAt + 1, st, s2, State(st.pending, st.out + [x] + rBody + [y]));
    Regroup3(st.out, x, rBody, y);
  }

  /** `if` .. `else`: the `if` slot points past the `else`, whose position is now pending. */
  lemma IfElsePrefix(program: seq<Token>, base: nat, elseAt: nat, st: State, i: Token, el: Token, rThn: seq<Token>)
    requires base < elseAt < |program| && |st.out| == base
    requires program[base] == i && i.word == OpIf(None) && program[elseAt] == el && el.word.OpElse?
    requires Appends(program, base + 1, elseAt, State(st.pending + [base], st.out + [i]), rThn)
    ensures Goes(program, base, elseAt + 1, st,
                 State(st.pending + [elseAt], st.out + [i.(word := OpIf(Some(elseAt + 1)))] + rThn + [el]))
  {
    var s1 := State(st.pending + [base], st.out + [i]);
    OpenStep(program, base, st);
    var s2 := State(s1.pending, s1.out + rThn);
    var xi := i.(word := OpIf(Some(elseAt + 1)));
    assert s2.out[base] == i;
    PatchAt(st.out, i, rThn, xi);
    ElseClosesIf(program, elseAt, s2, base, st.pending);
    GoesThen(program, base, base + 1, elseAt, st, s1, s2);
    GoesThen(program, base, elseAt, elseAt + 1, st, s2, State(st.pending + [elseAt], st.out + [xi] + rThn + [el]));
  }

  /** .. `else` .. `end` after `IfElsePrefix`: the `else` slot is rebuilt from the `end` token
      and points at the `end`, the `end` points past itself. */
  lemma IfElseEndSteps(program: seq<Token>, base: nat, elseAt: nat, endAt: nat, st: State,
                       i: Token, el: Token, e: Token, rThn: seq<Token>, rEls: seq<Token>)
    requires base < elseAt < endAt < |program| && |st.out| == base && |rThn| == elseAt - base - 1
    requires program[elseAt] == el && el.word.OpElse? && program[endAt] == e && e.word.OpEnd?
    requires Goes(program, base, elseAt + 1, st,
                  State(st.pending + [elseAt], st.out + [i.(word := OpIf(Some(elseAt + 1)))] + rThn + [el]))
    requires Appends(program, elseAt + 1, endAt,
                     State(st.pending + [elseAt], st.out + [i.(word := OpIf(Some(elseAt + 1)))] + rThn + [el]),
                     rEls)
    ensures Appends(program, base, endAt + 1, st,
                    [i.(word := OpIf(Some(elseAt + 1)))] + rThn + [e.(word := OpElse(Some(endAt)))] + rEls
                    + [e.(word := OpEnd(Some(endAt + 1)))])
  {
    var xi := i.(word := OpIf(Some(elseAt + 1)));
    var pre := st.out + [xi] + rThn;
    var s3 := State(st.pending + [elseAt], pre + [el]);
    var s4 := State(s3.pending, s3.out + rEls);
    var xe := e.(word := OpElse(Some(endAt)));
    var y := e.(word := OpEnd(Some(endAt + 1)));
    PatchAt(pre, el, rEls, xe);
    EndClosesIfOrElse(program, endAt, s4, elseAt, st.pending);
    GoesThen(program, base, elseAt + 1, endAt, st, s3, s4);
    GoesThen(program, base, endAt, endAt + 1, st, s4, State(st.pending, pre + [xe] + rEls + [y]));
    Regroup5(st.out, xi, rThn, xe, rEls, y);
  }

  /** `while` .. `do`: the `do` takes the `while`'s position and replaces it on the stack. */
  lemma LoopPrefix(program: seq<Token>, base: nat, doAt: nat, st: State, w: Token, d: Token, rCond: seq<Token>)
    requires base < doAt < |program| && |st.out| == base
    requires program[base] == w && w.word == OpWhile && program[doAt] == d && d.word.OpDo?
    requires Appends(program, base + 1, doAt, State(st.pending + [base], st.out + [w]), rCond)
    ensures Goes(program, base, doAt + 1, st,
                 State(st.pending + [doAt], st.out + [w] + rCond + [d.(word := OpDo(Some(base)))]))
  {
    var s1 := State(st.pending + [base], st.out + [w]);
    OpenStep(program, base, st);
    var s2 := State(s1.pending, s1.out + rCond);
    DoStep(program, doAt, s2, base, st.pending);
    GoesThen(program, base, base + 1, doAt, st, s1, s2);
    GoesThen(program, base, doAt, doAt + 1, st, s2,
             State(st.pending + [doAt], s2.out + [d.(word := OpDo(Some(base)))]));
  }

  /** .. `end` after `LoopPrefix`: the `do` slot is rebuilt from the `end` token and points past
      the `end`, the `end` points back at the `while`. */
  lemma LoopSteps(program: seq<Token>, base: nat, doAt: nat, endAt: nat, st: State,
                  w: Token, d: Token, e: Token, rCond: seq<Token>, rBody: seq<Token>)
    requires base < doAt < endAt < |program| && |st.out| == base && |rCond| == doAt - base - 1
    requires program[base] == w && w.word == OpWhile && program[doAt] == d && d.word.OpDo?
    requires program[endAt] == e && e.word.OpEnd?
    requires Goes(program, base, doAt + 1, st,
                  State(st.pending + [doAt], st.out + [w] + rCond + [d.(word := OpDo(Some(base)))]))
    requires Appends(program, doAt + 1, endAt,
                     State(st.pending + [doAt], st.out + [w] + rCond + [d.(word := OpDo(Some(base)))]),
                     rBody)
    ensures Appends(program, base, endAt + 1, st,
                    [w] + rCond + [e.(word := OpDo(Some(endAt + 1)))] + rBody + [e.(word := OpEnd(Some(base)))])
  {
    var dd := d.(word := OpDo(Some(base)));
    var pre := st.out + [w] + rCond;
    var s3 := State(st.pending + [doAt], pre + [dd]);
    var s4 := State(s3.pending, s3.out + rBody);
    assert s4.out[doAt] == dd;
    assert s4.out[base] == w;
    var xd := e.(word := OpDo(Some(endAt + 1)));
    var y := e.(word := OpEnd(Some(base)));
    PatchAt(pre, dd, rBody, xd);
    EndClosesDo(program, endAt, s4, doAt, st.pending, base);
    GoesThen(program, base, doAt + 1, endAt, st, s3, s4);
    GoesThen(program, base, endAt, endAt + 1, st, s4, State(st.pending, pre + [xd] + rBody + [y]));
    Regroup5(st.out, w, rCond, xd, rBody, y);
  }

  // ---------------------------------------------------------------------------
  // Blocks

  /** Resolving the tokens of block `b`, found at address `base` of `program`, from any state
      keeps the pending stack as it found it and appends `Resolved(b, base)`. */
  lemma {:induction false} ResolveBlock(program: seq<Token>, b: Block, base: nat, st: State)
    requires WellFormed(b)
    requires Occurs(program, base, Flatten(b))
    requires |st.out| == base
    ensures Appends(program, base, base + |Flatten(b)|, st, Resolved(b, base))
    decreases b, 3
  {
    match b
    case Plain(t) =>
      assert program[base] == Flatten(b)[0] == t;
      StepGoes(program, base, st, State(st.pending, st.out + [t]));
    case IfEnd(_, _, _) => ResolveIfEndAt(program, b, base, st);
    case IfElseEnd(_, _, _, _, _) => ResolveIfElseEndAt(program, b, base, st);
    case Loop(_, _, _, _, _) => ResolveLoopAt(program, b, base, st);
  }

  lemma {:induction false} ResolveIfEndAt(program: seq<Token>, b: Block, base: nat, st: State)
    requires b.IfEnd? && WellFormed(b)
    requires Occurs(program, base, Flatten(b))
    requires |st.out| == base
    ensures Appends(program, base, base + |Flatten(b)|, st, Resolved(b, base))
    decreases b, 2
  {
    Place2(program, base, b.ifTok, FlattenSeq(b.body), b.endTok);
    ResolveIfEnd(program, b, base, st);
  }

  lemma {:induction false} ResolveIfElseEndAt(program: seq<Token>, b: Block, base: nat, st: State)
    requires b.IfElseEnd? && WellFormed(b)
    requires Occurs(program, base, Flatten(b))
    requires |st.out| == base
    ensures Appends(program, base, base + |Flatten(b)|, st, Resolved(b, base))
    decreases b, 2
  {
    Place3(program, base, b.ifTok, FlattenSeq(b.thn), b.elseTok, FlattenSeq(b.els), b.endTok);
    ResolveIfElseEnd(program, b, base, st);
  }

  lemma {:induction false} ResolveLoopAt(program: seq<Token>, b: Block, base: nat, st: State)
    requires b.Loop? && WellFormed(b)
    requires Occurs(program, base, Flatten(b))
    requires |st.out| == base
    ensures Appends(program, base, base + |Flatten(b)|, st, Resolved(b, base))
    decreases b, 2
  {
    Place3(program, base, b.whileTok, FlattenSeq(b.cond), b.doTok, FlattenSeq(b.body), b.endTok);
    ResolveLoop(program, b, base, st);
  }

  /** `part` sits in `program` from address `base` on. */
  predicate Occurs(program: seq<Token>, base: nat, part: seq<Token>) {
    base + |part| <= |program| && program[base .. base + |part|] == part
  }

  /** Where the two halves of `a + c` sit. */
  lemma PlaceCons(program: seq<Token>, base: nat, a: seq<Token>, c: seq<Token>)
    requires Occurs(program, base, a + c)
    ensures Occurs(program, base, a) && Occurs(program, base + |a|, c)
  {
    assert (a + c)[..|a|] == a;
    assert (a + c)[|a|..] == c;
    SliceOfSlice(program, base, a + c, 0, a);
    SliceOfSlice(program, base, a + c, |a|, c);
  }

  /** Where the pieces of `[x] + a + [z]` sit. */
  lemma Place2(program: seq<Token>, base: nat, x: Token, a: seq<Token>, z: Token)
    requires Occurs(program, base, [x] + a + [z])
    ensures program[base] == x && program[base + 1 + |a|] == z
    ensures Occurs(program, base + 1, a)
  {
    var whole := [x] + a + [z];
    assert program[base] == whole[0];
    assert program[base + 1 + |a|] == whole[1 + |a|];
    assert whole[1 .. 1 + |a|] == a;
    SliceOfSlice(program, base, whole, 1, a);
  }

  /** Where the pieces of `[x] + a + [y] + c + [z]` sit. */
  lemma Place3(program: seq<Token>, base: nat, x: Token, a: seq<Token>, y: Token, c: seq<Token>, z: Token)
    requires Occurs(program, base, [x] + a + [y] + c + [z])
    ensures program[base] == x && program[base + 1 + |a|] == y && program[base + 1 + |a| + 1 + |c|] == z
    ensures Occurs(program, base + 1, a) && Occurs(program, base + 1 + |a| + 1, c)
  {
    var whole := [x] + a + [y] + c + [z];
    assert program[base] == whole[0];
    assert program[base + 1 + |a|] == whole[1 + |a|];
    assert program[base + 1 + |a| + 1 + |c|] == whole[|a| + |c| + 2];
    assert whole[1 .. 1 + |a|] == a;
    SliceOfSlice(program, base, whole, 1, a);
    assert whole[|a| + 2 .. |a| + 2 + |c|] == c;
    SliceOfSlice(program, base, whole, |a| + 2, c);
  }

  lemma {:induction false} ResolveIfEnd(program: seq<Token>, b: Block, base: nat, st: State)
    requires b.IfEnd? && WellFormed(b)
    requires base + 1 + |FlattenSeq(b.body)| < |program|
    requires program[base] == b.ifTok && program[base + 1 + |FlattenSeq(b.body)|] == b.endTok
    requires Occurs(program, base + 1, FlattenSeq(b.body))
    requires |st.out| == base
    ensures Appends(program, base, base + |Flatten(b)|, st, Resolved(b, base))
    decreases b, 1
  {
    var IfEnd(i, body, e) := b;
    ResolveBlocks(program, body, base + 1, State(st.pending + [base], st.out + [i]));
    IfEndRun(program, b, base, st, i, body, e);
  }

  /** The `if` .. `end` block from the run of its body. */
  lemma IfEndRun(program: seq<Token>, b: Block, base: nat, st: State, i: Token, body: seq<Block>, e: Token)
    requires b == IfEnd(i, body, e) && i.word == OpIf(None) && e.word == OpEnd(None)
    requires base + 1 + |FlattenSeq(body)| < |program| && |st.out| == base
    requires program[base] == i && program[base + 1 + |FlattenSeq(body)|] == e
    requires Appends(program, base + 1, base + 1 + |FlattenSeq(body)|, State(st.pending + [base], st.out + [i]),
                     ResolvedSeq(body, base + 1))
    ensures Appends(program, base, base + |Flatten(b)|, st, Resolved(b, base))
  {
    var endAt := base + 1 + |FlattenSeq(body)|;
    IfEndSteps(program, base, endAt, st, i, e, ResolvedSeq(body, base + 1));
    assert base + |Flatten(b)| == endAt + 1;
  }

  lemma {:induction false} ResolveIfElseEnd(program: seq<Token>, b: Block, base: nat, st: State)
    requires b.IfElseEnd? && WellFormed(b)
    requires var elseAt := base + 1 + |FlattenSeq(b.thn)|;
      && elseAt + 1 + |FlattenSeq(b.els)| < |program|
      && program[base] == b.ifTok && program[elseAt] == b.elseTok && program[elseAt + 1 + |FlattenSeq(b.els)|] == b.endTok
      && Occurs(program, base + 1, FlattenSeq(b.thn)) && Occurs(program, elseAt + 1, FlattenSeq(b.els))
    requires |st.out| == base
    ensures Appends(program, base, base + |Flatten(b)|, st, Resolved(b, base))
    decreases b, 1
  {
    var IfElseEnd(i, thn, el, els, e) := b;
    var elseAt := base + 1 + |FlattenSeq(thn)|;
    ResolveBlocks(program, thn, base + 1, State(st.pending + [base], st.out + [i]));
    ResolveBlocks(program, els, elseAt + 1,
                  State(st.pending + [elseAt],
                        st.out + [i.(word := OpIf(Some(elseAt + 1)))] + ResolvedSeq(thn, base + 1) + [el]));
    IfElseEndRun(program, b, base, st, i, thn, el, els, e, elseAt);
  }

  /** The `if` .. `else` .. `end` block from the runs of its two branches. */
  lemma IfElseEndRun(program: seq<Token>, b: Block, base: nat, st: State,
                     i: Token, thn: seq<Block>, el: Token, els: seq<Block>, e: Token, elseAt: nat)
    requires b == IfElseEnd(i, thn, el, els, e)
    requires i.word == OpIf(None) && el.word == OpElse(None) && e.word == OpEnd(None)
    requires elseAt == base + 1 + |FlattenSeq(thn)| && elseAt + 1 + |FlattenSeq(els)| < |program| && |st.out| == base
    requires program[base] == i && program[elseAt] == el && program[elseAt + 1 + |FlattenSeq(els)|] == e
    requires Appends(program, base + 1, base + 1 + |FlattenSeq(thn)|, State(st.pending + [base], st.out + [i]),
                     ResolvedSeq(thn, base + 1))
    requires Appends(program, elseAt + 1, elseAt + 1 + |FlattenSeq(els)|,
                     State(st.pending + [elseAt],
                           st.out + [i.(word := OpIf(Some(elseAt + 1)))] + ResolvedSeq(thn, base + 1) + [el]),
                     ResolvedSeq(els, elseAt + 1))
    ensures Appends(program, base, base + |Flatten(b)|, st, Resolved(b, base))
  {
    var endAt := elseAt + 1 + |FlattenSeq(els)|;
    var rThn := ResolvedSeq(thn, base + 1);
    IfElsePrefix(program, base, elseAt, st, i, el, rThn);
    IfElseEndSteps(program, base, elseAt, endAt, st, i, el, e, rThn, ResolvedSeq(els, elseAt + 1));
    assert base + |Flatten(b)| == endAt + 1;
  }

  lemma {:induction false} ResolveLoop(program: seq<Token>, b: Block, base: nat, st: State)
    requires b.Loop? && WellFormed(b)
    requires var doAt := base + 1 + |FlattenSeq(b.cond)|;
      && doAt + 1 + |FlattenSeq(b.body)| < |program|
      && program[base] == b.whileTok && program[doAt] == b.doTok && program[doAt + 1 + |FlattenSeq(b.body)|] == b.endTok
      && Occurs(program, base + 1, FlattenSeq(b.cond)) && Occurs(program, doAt + 1, FlattenSeq(b.body))
    requires |st.out| == base
    ensures Appends(program, base, base + |Flatten(b)|, st, Resolved(b, base))
    decreases b, 1
  {
    var Loop(w, cond, d, body, e) := b;
    var doAt := base + 1 + |FlattenSeq(cond)|;
    ResolveBlocks(program, cond, base + 1, State(st.pending + [base], st.out + [w]));
    ResolveBlocks(program, body, doAt + 1,
                  State(st.pending + [doAt],
                        st.out + [w] + ResolvedSeq(cond, base + 1) + [d.(word := OpDo(Some(base)))]));
    LoopRun(program, b, base, st, w, cond, d, body, e, doAt);
  }

  /** The `while` .. `do` .. `end` block from the runs of its condition and its body. */
  lemma LoopRun(program: seq<Token>, b: Block, base: nat, st: State,
                w: Token, cond: seq<Block>, d: Token, body: seq<Block>, e: Token, doAt: nat)
    requires b == Loop(w, cond, d, body, e)
    requires w.word == OpWhile && d.word == OpDo(None) && e.word == OpEnd(None)
    requires doAt == base + 1 + |FlattenSeq(cond)| && doAt + 1 + |FlattenSeq(body)| < |program| && |st.out| == base
    requires program[base] == w && program[doAt] == d && program[doAt + 1 + |FlattenSeq(body)|] == e
    requires Appends(program, base + 1, base + 1 + |FlattenSeq(cond)|, State(st.pending + [base], st.out + [w]),
                     ResolvedSeq(cond, base + 1))
    requires Appends(program, doAt + 1, doAt + 1 + |FlattenSeq(body)|,
                     State(st.pending + [doAt],
                           st.out + [w] + ResolvedSeq(cond, base + 1) + [d.(word := OpDo(Some(base)))]),
                     ResolvedSeq(body, doAt + 1))
    ensures Appends(program, base, base + |Flatten(b)|, st, Resolved(b, base))
  {
    var endAt := doAt + 1 + |FlattenSeq(body)|;
    var rCond := ResolvedSeq(cond, base + 1);
    LoopPrefix(program, base, doAt, st, w, d, rCond);
    LoopSteps(program, base, doAt, endAt, st, w, d, e, rCond, ResolvedSeq(body, doAt + 1));
    assert base + |Flatten(b)| == endAt + 1;
  }

  lemma {:induction false} ResolveBlocks(program: seq<Token>, bs: seq<Block>, base: nat, st: State)
    requires WellFormedSeq(bs)
    requires Occurs(program, base, FlattenSeq(bs))
    requires |st.out| == base
    ensures Appends(program, base, base + |FlattenSeq(bs)|, st, ResolvedSeq(bs, base))
    decreases bs, 1
  {
    if bs == [] {
      assert st.out + ResolvedSeq(bs, base) == st.out;
    } else {
      ResolveCons(program, bs, base, st);
    }
  }

  /** A non-empty sequence: its first block, then the rest from where that block left off. */
  lemma {:induction false} ResolveCons(program: seq<Token>, bs: seq<Block>, base: nat, st: State)
    requires bs != [] && WellFormedSeq(bs)
    requires Occurs(program, base, FlattenSeq(bs))
    requires |st.out| == base
    ensures Appends(program, base, base + |FlattenSeq(bs)|, st, ResolvedSeq(bs, base))
    decreases bs, 0
  {
    var b0, tail := bs[0], bs[1..];
    FlattenSeqSplit(bs);
    PlaceCons(program, base, Flatten(b0), FlattenSeq(tail));
    ResolveBlock(program, b0, base, st);
    ResolveBlocks(program, tail, base + |Flatten(b0)|, State(st.pending, st.out + Resolved(b0, base)));
    ConsRun(program, bs, base, st, b0, tail);
  }

  /** A sequence of blocks from the runs of its first block and of the rest. */
  lemma ConsRun(program: seq<Token>, bs: seq<Block>, base: nat, st: State, b0: Block, tail: seq<Block>)
    requires bs != [] && b0 == bs[0] && tail == bs[1..]
    requires Appends(program, base, base + |Flatten(b0)|, st, Resolved(b0, base))
    requires Appends(program, base + |Flatten(b0)|, base + |Flatten(b0)| + |FlattenSeq(tail)|,
                     State(st.pending, st.out + Resolved(b0, base)), ResolvedSeq(tail, base + |Flatten(b0)|))
    ensures Appends(program, base, base + |FlattenSeq(bs)|, st, ResolvedSeq(bs, base))
  {
    var n0 := |Flatten(b0)|;
    AppendsThen(program, base, base + n0, base + n0 + |FlattenSeq(tail)|, st,
                Resolved(b0, base), ResolvedSeq(tail, base + n0));
    FlattenSeqSplit(bs);
  }

  /** A program made of well-nested blocks resolves to the targets its nesting assigns, and
      the pass ends with nothing pending. */
  lemma ResolveWellNested(bs: seq<Block>)
    requires WellFormedSeq(bs)
    ensures Pass(FlattenSeq(bs)) == Ok(State([], ResolvedSeq(bs, 0)))
    ensures Resolve(FlattenSeq(bs)) == Ok(ResolvedSeq(bs, 0))
  {
    var program := FlattenSeq(bs);
    var init := State([], []);
    assert program[0 .. |program|] == program;
    ResolveBlocks(program, bs, 0, init);
    assert init.out + ResolvedSeq(bs, 0) == ResolvedSeq(bs, 0);
  }
}
