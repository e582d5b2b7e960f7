/** Words, tokens and diagnostics shared by every stage of the toolchain. */
module Syntax {

  /** A signed 32-bit integer: the payload of `OpPush` and the interpreter's value type. */
  newtype i32 = x: int | -0x8000_0000 <= x < 0x8000_0000

  predicate InI32(x: int) {
    -0x8000_0000 <= x < 0x8000_0000
  }

  datatype Option<T> = None | Some(value: T)

  /** Success or failure; a failure stands for the source's `exit(1)` or panic. */
  datatype Result<T, E> = Ok(value: T) | Err(error: E) {
    predicate IsFailure() {
      Err?
    }

    function PropagateFailure<U>(): Result<U, E>
      requires Err?
    {
      Err(error)
    }

    function Extract(): T
      requires Ok?
    {
      value
    }
  }

  /** One instruction. The control words carry an absolute jump target once resolved;
      the lexer creates them with `None`. */
  datatype Word =
    | OpPush(n: i32)
    | OpPlus
    | OpMinus
    | OpEqual
    | OpDump
    | OpDup
    | OpGt
    | OpIf(target: Option<nat>)
    | OpEnd(target: Option<nat>)
    | OpElse(target: Option<nat>)
    | OpWhile
    | OpDo(target: Option<nat>)
  {
    /** The four words that carry a jump target. */
    predicate IsControl() {
      OpIf? || OpEnd? || OpElse? || OpDo?
    }

    /** The words the resolver pushes on its pending stack. */
    predicate IsOpener() {
      OpIf? || OpElse? || OpWhile? || OpDo?
    }

    /** Both words are the same instruction, whatever their targets. */
    predicate SameKind(other: Word) {
      match this
      case OpPush(n) => other == OpPush(n)
      case OpIf(_) => other.OpIf?
      case OpEnd(_) => other.OpEnd?
      case OpElse(_) => other.OpElse?
      case OpDo(_) => other.OpDo?
      case _ => other == this
    }
  }

  /** A word with the place it was read from (1-based row and column). */
  datatype Token = Token(filePath: string, col: nat, row: nat, word: Word)

  /** Every way the toolchain stops with status 1. */
  datatype Error =
    | StackEmpty(filePath: string, row: nat, col: nat)  // handle_stack_empty
    | ElseWithoutIf(index: nat)       // resolver: an `else` that does not close an `if`
    | EndClosesWhile(index: nat)      // resolver: "end can only close 'if', 'else' or 'do' blocks"
    | DoWithoutWhile(index: nat)      // resolver: a `do` whose anchor is not a `while`
    | MissingTarget(index: nat)       // interpreter, generator: control word without a target
    | Overflow(index: nat)            // interpreter: i32 arithmetic overflow
    | PcUnderflow(index: nat)         // interpreter as written: `0 - 1` on the program counter
    | IndexPanic(index: nat)          // a vector indexed out of bounds while handling token `index`
    | LexError(row: nat, col: nat, text: string)
    | NoLines

  /** The top of a `Vec`-style stack (its last element), as `pop` would return it. */
  function Top<T>(s: seq<T>): (r: Option<T>)
    ensures r.Some? <==> s != []
    ensures r.Some? ==> r.value == s[|s| - 1]
  {
    if s == [] then None else Some(s[|s| - 1])
  }

  /** Indexing as Rust does it: a position past the end panics while handling token `at`. */
  function Index<T>(s: seq<T>, k: nat, at: nat): (r: Result<T, Error>)
    ensures r.Ok? <==> k < |s|
    ensures r.Ok? ==> r.value == s[k]
    ensures r.Err? ==> r.error == IndexPanic(at)
  {
    if k < |s| then Ok(s[k]) else Err(IndexPanic(at))
  }

  /** A pop that found nothing becomes the stack-empty diagnostic at `token`'s position. */
  function HandleStackEmpty<T>(popped: Option<T>, token: Token): (r: Result<T, Error>)
    ensures r.Ok? <==> popped.Some?
    ensures r.Ok? ==> r.value == popped.value
    ensures r.Err? ==> r.error == StackEmpty(token.filePath, token.row, token.col)
  {
    match popped
    case None => Err(StackEmpty(token.filePath, token.row, token.col))
    case Some(x) => Ok(x)
  }
}
