/** The lexer: lines are split into words with a column, and each word becomes a `Word`. */
module Lexer {
  import opened Syntax

  // ---------------------------------------------------------------------------
  // Splitting a line

  /** Unicode `White_Space`, the set Rust's `char::is_whitespace` tests. */
  predicate IsWhitespace(c: char) {
    || ('\t' <= c <= '\r')
    || c == ' '
    || c == '\U{0085}'
    || c == '\U{00A0}'
    || c == '\U{1680}'
    || ('\U{2000}' <= c <= '\U{200A}')
    || c == '\U{2028}'
    || c == '\U{2029}'
    || c == '\U{202F}'
    || c == '\U{205F}'
    || c == '\U{3000}'
  }

  /** `line[s..e]` is a word: not empty, no whitespace in it, and whitespace or the end of the
      line on both sides. */
  predicate MaximalRun(line: string, s: nat, e: nat) {
    && s < e <= |line|
    && (forall p :: s <= p < e ==> !IsWhitespace(line[p]))
    && (s == 0 || IsWhitespace(line[s - 1]))
    && (e == |line| || IsWhitespace(line[e]))
  }

  /** The column the splitter reports for a word that starts at offset `s`: the 1-based column
      of the whitespace just before it, and 1 for a word at the start of the line. */
  function Col(s: nat): nat {
    if s == 0 then 1 else s
  }

  /** Where the run of non-whitespace that starts at `i` ends. */
  function RunEnd(line: string, i: nat): (e: nat)
    requires i <= |line|
    ensures i <= e <= |line|
    ensures forall p :: i <= p < e ==> !IsWhitespace(line[p])
    ensures e == |line| || IsWhitespace(line[e])
    decreases |line| - i
  {
    if i == |line| || IsWhitespace(line[i]) then i else RunEnd(line, i + 1)
  }

  /** The words of `line` from offset `i` on, as (start, end) offsets. */
  function Spans(line: string, i: nat): (r: seq<(nat, nat)>)
    requires i <= |line|
    ensures forall k :: 0 <= k < |r| ==> i <= r[k].0 < r[k].1 <= |line|
    decreases |line| - i
  {
    if i == |line| then []
    else if IsWhitespace(line[i]) then Spans(line, i + 1)
    else [(i, RunEnd(line, i))] + Spans(line, RunEnd(line, i))
  }

  function Entries(line: string, spans: seq<(nat, nat)>): (r: seq<(string, nat)>)
    requires forall k :: 0 <= k < |spans| ==> spans[k].0 <= spans[k].1 <= |line|
    ensures |r| == |spans|
  {
    if spans == [] then [] else [(line[spans[0].0 .. spans[0].1], Col(spans[0].0))] + Entries(line, spans[1..])
  }

  lemma {:induction false} EntriesAt(line: string, spans: seq<(nat, nat)>)
    requires forall k :: 0 <= k < |spans| ==> spans[k].0 <= spans[k].1 <= |line|
    ensures forall k :: 0 <= k < |spans| ==> Entries(line, spans)[k] == (line[spans[k].0 .. spans[k].1], Col(spans[k].0))
  {
    if spans != [] {
      EntriesAt(line, spans[1..]);
    }
  }

  /** The words of `line` from offset `i` on, with their columns. */
  function After(line: string, i: nat): seq<(string, nat)>
    requires i <= |line|
    decreases |line| - i
  {
    if i == |line| then []
    else if IsWhitespace(line[i]) then After(line, i + 1)
    else [(line[i..RunEnd(line, i)], Col(i))] + After(line, RunEnd(line, i))
  }

  /** The words of a line with their columns. */
  function Words(line: string): seq<(string, nat)> {
    After(line, 0)
  }

  /** The words from `i` on are the spans from `i` on, each with its column. */
  lemma {:induction false} AfterSpans(line: string, i: nat)
    requires i <= |line|
    ensures After(line, i) == Entries(line, Spans(line, i))
    decreases |line| - i
  {
    if i < |line| {
      if IsWhitespace(line[i]) {
        AfterSpans(line, i + 1);
      } else {
        var e := RunEnd(line, i);
        AfterSpans(line, e);
        assert Spans(line, i)[1..] == Spans(line, e);
      }
    }
  }

  /** Offset `i` is not inside a word. */
  predicate NotMidRun(line: string, i: nat)
    requires i <= |line|
  {
    i == 0 || i == |line| || IsWhitespace(line[i - 1]) || IsWhitespace(line[i])
  }

  /** Every span is a word of the line. */
  lemma {:induction false} SpansMaximal(line: string, i: nat)
    requires i <= |line| && NotMidRun(line, i)
    ensures forall k :: 0 <= k < |Spans(line, i)| ==> MaximalRun(line, Spans(line, i)[k].0, Spans(line, i)[k].1)
    decreases |line| - i
  {
    if i < |line| {
      if IsWhitespace(line[i]) {
        SpansMaximal(line, i + 1);
      } else {
        SpansMaximal(line, RunEnd(line, i));
      }
    }
  }

  /** The spans come in order, each one ending before the next one starts. */
  lemma {:induction false} SpansOrdered(line: string, i: nat)
    requires i <= |line|
    ensures forall k :: 0 <= k < |Spans(line, i)| - 1 ==> Spans(line, i)[k].1 < Spans(line, i)[k + 1].0
    decreases |line| - i
  {
    if i < |line| {
      if IsWhitespace(line[i]) {
        SpansOrdered(line, i + 1);
      } else {
        var e := RunEnd(line, i);
        SpansOrdered(line, e);
        var sp, after := Spans(line, i), Spans(line, e);
        assert sp == [(i, e)] + after;
        if after != [] {
          SpansMaximal(line, e);
          assert MaximalRun(line, after[0].0, after[0].1);
        }
        forall k | 0 <= k < |sp| - 1 ensures sp[k].1 < sp[k + 1].0 {
          if k > 0 {
            assert sp[k] == after[k - 1] && sp[k + 1] == after[k];
          }
        }
      }
    }
  }

  /** Every non-whitespace character from `i` on lies in a span. */
  lemma {:induction false} SpansCover(line: string, i: nat)
    requires i <= |line|
    ensures forall p :: i <= p < |line| && !IsWhitespace(line[p]) ==>
              exists k :: 0 <= k < |Spans(line, i)| && Spans(line, i)[k].0 <= p < Spans(line, i)[k].1
    decreases |line| - i
  {
    if i < |line| {
      if IsWhitespace(line[i]) {
        SpansCover(line, i + 1);
        assert Spans(line, i) == Spans(line, i + 1);
      } else {
        var e := RunEnd(line, i);
        SpansCover(line, e);
        var sp := Spans(line, i);
        assert sp == [(i, e)] + Spans(line, e);
        forall p | i <= p < |line| && !IsWhitespace(line[p])
          ensures exists k :: 0 <= k < |sp| && sp[k].0 <= p < sp[k].1
        {
          if p >= e {
            var k :| 0 <= k < |Spans(line, e)| && Spans(line, e)[k].0 <= p < Spans(line, e)[k].1;
            assert sp[k + 1] == Spans(line, e)[k];
          } else {
            assert sp[0] == (i, e);
          }
        }
      }
    }
  }

  /** The splitter's result: the maximal non-whitespace runs of the line, in order, each with
      the column the splitter reports for it. */
  lemma WordsAreMaximalRuns(line: string)
    ensures var sp, w := Spans(line, 0), Words(line);
            && |w| == |sp|
            && (forall k :: 0 <= k < |w| ==>
                  MaximalRun(line, sp[k].0, sp[k].1)
                  && w[k] == (line[sp[k].0 .. sp[k].1], if sp[k].0 == 0 then 1 else sp[k].0))
            && (forall k :: 0 <= k < |w| - 1 ==> sp[k].1 < sp[k + 1].0)
            && (forall p :: 0 <= p < |line| && !IsWhitespace(line[p]) ==>
                  exists k :: 0 <= k < |w| && sp[k].0 <= p < sp[k].1)
  {
    SpansMaximal(line, 0);
    SpansOrdered(line, 0);
    SpansCover(line, 0);
    AfterSpans(line, 0);
    EntriesAt(line, Spans(line, 0));
  }

  /** Inside a word, the run ends where the word ends. */
  lemma {:induction false} RunEndSkip(line: string, s: nat, i: nat)
    requires s <= i <= |line|
    requires forall p :: s <= p < i ==> !IsWhitespace(line[p])
    ensures RunEnd(line, s) == RunEnd(line, i)
    decreases i - s
  {
    if s < i {
      RunEndSkip(line, s + 1, i);
    }
  }

  /** The state of the splitter after reading the characters before column `colNo`: `word` is
      the word being read, from offset `start`, and `words` followed by the words from `start`
      on are all the line's words; once the line ends in a word, that word is already out. */
  ghost predicate Scanning(line: string, all: seq<(string, nat)>, words: seq<(string, nat)>, word: string,
                           start: nat, colNo: nat)
  {
    && 1 <= colNo <= |line| + 1
    && start + |word| == colNo - 1 && word == line[start .. colNo - 1]
    && (forall p :: start <= p < colNo - 1 ==> !IsWhitespace(line[p]))
    && (colNo - 1 == |line| && word != [] ==> words == all)
    && (colNo - 1 < |line| || word == [] ==> words + After(line, start) == all)
  }

  /** Reading a character of a word extends the word; at the end of the line the word goes out. */
  lemma ReadLetter(line: string, all: seq<(string, nat)>, words: seq<(string, nat)>, word: string,
                   start: nat, colNo: nat)
    requires Scanning(line, all, words, word, start, colNo)
    requires colNo <= |line| && !IsWhitespace(line[colNo - 1])
    ensures var word' := word + [line[colNo - 1]];
            Scanning(line, all, if colNo == |line| then words + [(word', Col(start))] else words, word', start, colNo + 1)
  {
    assert line[start .. colNo] == word + [line[colNo - 1]];
    if colNo == |line| {
      RunEndSkip(line, start, |line|);
      assert RunEnd(line, |line|) == |line|;
      assert After(line, |line|) == [];
      assert RunEnd(line, start) == |line|;
      assert After(line, start) == [(line[start..|line|], Col(start))] + After(line, |line|);
    }
  }

  /** Reading whitespace closes the word being read, if there is one. */
  lemma ReadSpace(line: string, all: seq<(string, nat)>, words: seq<(string, nat)>, word: string,
                  start: nat, colNo: nat)
    requires Scanning(line, all, words, word, start, colNo)
    requires colNo <= |line| && IsWhitespace(line[colNo - 1])
    ensures Scanning(line, all, if word != [] then words + [(word, Col(start))] else words, [], colNo, colNo + 1)
  {
    var i := colNo - 1;
    assert After(line, i) == After(line, i + 1);
    if start < i {
      RunEndSkip(line, start, i);
      assert After(line, start) == [(line[start..i], Col(start))] + After(line, i + 1);
      assert words + After(line, start) == (words + [(line[start..i], Col(start))]) + After(line, i + 1);
    }
  }

  /** Splits a line into its words, each with the column the source reports: the loop walks the
      characters once, collecting the current word and closing it at the first whitespace after
      it or at the end of the line. */
  method FindWordAndCol(line: string) returns (words: seq<(string, nat)>)
    ensures words == Words(line)
  {
    words := [];
    var colNo := 1;
    var wordStartCol := 1;
    var firstSpace := true;
    var word: string := [];
    ghost var start: nat := 0;
    ghost var all := After(line, 0);
    var totalChars := |line|;
    while colNo <= totalChars
      invariant Scanning(line, all, words, word, start, colNo)
      invariant firstSpace == (colNo == 1 || word != [])
      invariant wordStartCol == Col(start)
    {
      var c := line[colNo - 1];
      if !IsWhitespace(c) {
        ReadLetter(line, all, words, word, start, colNo);
        word := word + [c];
        firstSpace := true;
        if colNo == totalChars {
          words := words + [(word, wordStartCol)];
        }
      } else if firstSpace {
        ReadSpace(line, all, words, word, start, colNo);
        // The word holds no whitespace, so trimming it leaves it unchanged.
        if word != [] {
          words := words + [(word, wordStartCol)];
        }
        word := [];
        wordStartCol := colNo;
        firstSpace := false;
        start := colNo;
      } else {
        ReadSpace(line, all, words, word, start, colNo);
        wordStartCol := colNo;
        start := colNo;
      }
      colNo := colNo + 1;
    }
    assert After(line, |line|) == [];
  }

  // ---------------------------------------------------------------------------
  // Words

  /** The eleven keywords; anything else must be a number. */
  function Keyword(text: string): Option<Word> {
    match text
    case "+" => Some(OpPlus)
    case "-" => Some(OpMinus)
    case "." => Some(OpDump)
    case "=" => Some(OpEqual)
    case "dup" => Some(OpDup)
    case ">" => Some(OpGt)
    case "if" => Some(OpIf(None))
    case "end" => Some(OpEnd(None))
    case "else" => Some(OpElse(None))
    case "while" => Some(OpWhile)
    case "do" => Some(OpDo(None))
    case _ => None
  }

  /** How a word other than a number is written. */
  function Spell(w: Word): string
    requires !w.OpPush?
  {
    match w
    case OpPlus => "+"
    case OpMinus => "-"
    case OpDump => "."
    case OpEqual => "="
    case OpDup => "dup"
    case OpGt => ">"
    case OpIf(_) => "if"
    case OpEnd(_) => "end"
    case OpElse(_) => "else"
    case OpWhile => "while"
    case OpDo(_) => "do"
  }

  /** A word without a target, as the lexer produces them. */
  predicate Unresolved(w: Word) {
    w.IsControl() ==> w.target.None?
  }

  /** The keyword table is one-to-one: every keyword spells the word it stands for, and every
      word other than a number is read back from its spelling, without a target. */
  lemma KeywordRoundTrip(text: string, w: Word)
    ensures Keyword(text) == Some(w) ==> !w.OpPush? && Unresolved(w) && Spell(w) == text
    ensures !w.OpPush? && Unresolved(w) ==> Keyword(Spell(w)) == Some(w)
  {
  }

  predicate IsDigit(c: char) {
    '0' <= c <= '9'
  }

  /** The value of a string of decimal digits. */
  function DigitsValue(ds: string): nat
    requires forall k :: 0 <= k < |ds| ==> IsDigit(ds[k])
  {
    if ds == [] then 0
    else
      assert IsDigit(ds[|ds| - 1]);
      10 * DigitsValue(ds[..|ds| - 1]) + (ds[|ds| - 1] as int - '0' as int)
  }

  /** `str::parse::<i32>`: an optional sign, then one or more decimal digits, and a value in
      range. */
  function ParseI32(text: string): (r: Option<i32>)
    ensures r.Some? ==> text != []
  {
    if text == [] then None
    else
      var neg := text[0] == '-';
      var digits := if text[0] == '-' || text[0] == '+' then text[1..] else text;
      if digits == [] || exists k :: 0 <= k < |digits| && !IsDigit(digits[k]) then None
      else
        var v := if neg then -(DigitsValue(digits) as int) else DigitsValue(digits) as int;
        if InI32(v) then Some(v as i32) else None
  }

  /** The decimal digits of `n`, as `format!` writes them. */
  function Decimal(n: nat): (r: string)
    ensures r != [] && forall k :: 0 <= k < |r| ==> IsDigit(r[k])
  {
    if n < 10 then [('0' as int + n) as char] else Decimal(n / 10) + [('0' as int + n % 10) as char]
  }

  /** A number as `format!("{}", n)` writes it. */
  function Show(n: i32): string {
    if n < 0 then "-" + Decimal(-(n as int)) else Decimal(n as int)
  }

  lemma {:induction false} DecimalValue(n: nat)
    ensures DigitsValue(Decimal(n)) == n
  {
    if n >= 10 {
      DecimalValue(n / 10);
      var d := Decimal(n);
      assert d[..|d| - 1] == Decimal(n / 10);
    }
  }

  /** A number reads back as itself. */
  lemma ParseShow(n: i32)
    ensures ParseI32(Show(n)) == Some(n)
  {
    DecimalValue(if n < 0 then -(n as int) else n as int);
    if n < 0 {
      assert Show(n)[1..] == Decimal(-(n as int));
    }
  }

  /** The keyword match: a keyword becomes its word, anything else a number, and a word that is
      neither stops the lexer at its row and column. */
  function LexWord(text: string, row: nat, col: nat): (r: Result<Word, Error>)
    ensures r.Ok? ==> Unresolved(r.value)
    ensures r.Err? <==> Keyword(text).None? && ParseI32(text).None?
    ensures r.Err? ==> r.error == LexError(row, col, text)
    ensures Keyword(text).Some? ==> r == Ok(Keyword(text).value)
    ensures Keyword(text).None? && ParseI32(text).Some? ==> r == Ok(OpPush(ParseI32(text).value))
  {
    match Keyword(text)
    case Some(w) => Ok(w)
    case None =>
      match ParseI32(text)
      case Some(n) => Ok(OpPush(n))
      case None => Err(LexError(row, col, text))
  }

  /** What the code generator writes for a `push` is read back as that `push`. */
  lemma LexShow(n: i32, row: nat, col: nat)
    ensures LexWord(Show(n), row, col) == Ok(OpPush(n))
  {
    ParseShow(n);
    var s := Show(n);
    assert s[0] == '-' ==> |s| >= 2;
    assert IsDigit(s[0]) || s[0] == '-';
  }

  // ---------------------------------------------------------------------------
  // Lines

  /** The tokens of the first `n` words of a line in row `row`. */
  function LexWords(path: string, row: nat, words: seq<(string, nat)>, n: nat): Result<seq<Token>, Error>
    requires n <= |words|
  {
    if n == 0 then Ok([])
    else
      var before :- LexWords(path, row, words, n - 1);
      var w :- LexWord(words[n - 1].0, row, words[n - 1].1);
      Ok(before + [Token(path, words[n - 1].1, row, w)])
  }

  /** The tokens of the first `n` lines; rows count from 1. */
  function LexRows(path: string, lines: seq<string>, n: nat): Result<seq<Token>, Error>
    requires n <= |lines|
  {
    if n == 0 then Ok([])
    else
      var before :- LexRows(path, lines, n - 1);
      var words := Words(lines[n - 1]);
      var line :- LexWords(path, n, words, |words|);
      Ok(before + line)
  }

  /** The lexer over the lines of a file: an empty file is an error. */
  function LexLines(path: string, lines: seq<string>): Result<seq<Token>, Error> {
    if lines == [] then Err(NoLines) else LexRows(path, lines, |lines|)
  }

  /** Every token of a line carries the file, the row and a word's column, and no target; or
      the first word that is neither a keyword nor a number is reported. */
  lemma {:induction false} LexWordsFacts(path: string, row: nat, words: seq<(string, nat)>, n: nat)
    requires n <= |words|
    ensures var r := LexWords(path, row, words, n);
            && (r.Ok? ==> |r.value| == n && forall k :: 0 <= k < n ==>
                  r.value[k].filePath == path && r.value[k].row == row && r.value[k].col == words[k].1
                  && Unresolved(r.value[k].word))
            && (r.Err? ==> (exists k :: 0 <= k < n && r.error == LexError(row, words[k].1, words[k].0)
                              && Keyword(words[k].0).None? && ParseI32(words[k].0).None?))
  {
    if n > 0 {
      LexWordsFacts(path, row, words, n - 1);
    }
  }

  lemma {:induction false} LexRowsFacts(path: string, lines: seq<string>, n: nat)
    requires n <= |lines|
    ensures var r := LexRows(path, lines, n);
            && (r.Ok? ==> forall k :: 0 <= k < |r.value| ==>
                  r.value[k].filePath == path && 1 <= r.value[k].row <= n && Unresolved(r.value[k].word))
            && (r.Err? ==> (exists row: nat, t: string, col: nat :: 1 <= row <= n && r.error == LexError(row, col, t)
                              && (t, col) in Words(lines[row - 1]) && Keyword(t).None? && ParseI32(t).None?))
  {
    if n > 0 {
      LexRowsFacts(path, lines, n - 1);
      var words := Words(lines[n - 1]);
      LexWordsFacts(path, n, words, |words|);
      var before, line := LexRows(path, lines, n - 1), LexWords(path, n, words, |words|);
      if before.Err? {
        assert LexRows(path, lines, n) == before;
        var row: nat, t: string, col: nat :| 1 <= row <= n - 1 && before.error == LexError(row, col, t)
          && (t, col) in Words(lines[row - 1]) && Keyword(t).None? && ParseI32(t).None?;
        assert 1 <= row <= n;
      } else if line.Err? {
        assert LexRows(path, lines, n) == Err(line.error);
        var k :| 0 <= k < |words| && line.error == LexError(n, words[k].1, words[k].0)
                 && Keyword(words[k].0).None? && ParseI32(words[k].0).None?;
        assert words[k] in Words(lines[n - 1]);
      } else {
        assert LexRows(path, lines, n) == Ok(before.value + line.value);
        RowTokens(path, n, before.value, line.value);
      }
    }
  }

  /** Appending the tokens of row `n` to those of earlier rows keeps every row within 1..n. */
  lemma RowTokens(path: string, n: nat, before: seq<Token>, line: seq<Token>)
    requires n >= 1
    requires forall k :: 0 <= k < |before| ==>
               before[k].filePath == path && 1 <= before[k].row <= n - 1 && Unresolved(before[k].word)
    requires forall k :: 0 <= k < |line| ==>
               line[k].filePath == path && line[k].row == n && Unresolved(line[k].word)
    ensures forall k :: 0 <= k < |before + line| ==>
              (before + line)[k].filePath == path && 1 <= (before + line)[k].row <= n
              && Unresolved((before + line)[k].word)
  {
    forall k | 0 <= k < |before + line|
      ensures (before + line)[k].filePath == path && 1 <= (before + line)[k].row <= n
              && Unresolved((before + line)[k].word)
    {
      if k < |before| {
        assert (before + line)[k] == before[k];
      } else {
        assert (before + line)[k] == line[k - |before|];
      }
    }
  }

  /** The lexer's result: an empty file is an error; otherwise every token carries the file, a
      row from 1 to the number of lines and no target, or the lexer stops at a word of some line
      that is neither a keyword nor a number. */
  lemma LexLinesFacts(path: string, lines: seq<string>)
    ensures LexLines(path, lines) == Err(NoLines) <==> lines == []
    ensures var r := LexLines(path, lines);
            && (r.Ok? ==> forall k :: 0 <= k < |r.value| ==>
                  r.value[k].filePath == path && 1 <= r.value[k].row <= |lines| && Unresolved(r.value[k].word))
            && (r.Err? && lines != [] ==>
                  (exists row: nat, t: string, col: nat :: 1 <= row <= |lines| && r.error == LexError(row, col, t)
                     && (t, col) in Words(lines[row - 1]) && Keyword(t).None? && ParseI32(t).None?))
  {
    LexRowsFacts(path, lines, |lines|);
  }

  /** A failure among the first `n` words of a line is the failure of the line. */
  lemma {:induction false} WordFailureStays(path: string, row: nat, words: seq<(string, nat)>, n: nat, m: nat)
    requires n <= m <= |words| && LexWords(path, row, words, n).Err?
    ensures LexWords(path, row, words, m) == LexWords(path, row, words, n)
    decreases m - n
  {
    if n < m {
      WordFailureStays(path, row, words, n, m - 1);
    }
  }

  /** A failure among the first `n` lines is the failure of the file. */
  lemma {:induction false} RowFailureStays(path: string, lines: seq<string>, n: nat, m: nat)
    requires n <= m <= |lines| && LexRows(path, lines, n).Err?
    ensures LexRows(path, lines, m) == LexRows(path, lines, n)
    decreases m - n
  {
    if n < m {
      RowFailureStays(path, lines, n, m - 1);
    }
  }

  /** Reads the lines of a file into tokens, line by line and word by word, and stops at the
      first word that is neither a keyword nor a number. */
  method LexFile(path: string, lines: seq<string>) returns (r: Result<seq<Token>, Error>)
    ensures r == LexLines(path, lines)
  {
    if |lines| == 0 {
      return Err(NoLines);
    }
    var rowNo := 1;
    var tokens: seq<Token> := [];
    for idx := 0 to |lines|
      invariant rowNo == idx + 1
      invariant LexRows(path, lines, idx) == Ok(tokens)
    {
      var words := FindWordAndCol(lines[idx]);
      var lineTokens := LexLine(path, rowNo, words);
      if lineTokens.Err? {
        RowFailureStays(path, lines, idx + 1, |lines|);
        return Err(lineTokens.error);
      }
      tokens := tokens + lineTokens.value;
      rowNo := rowNo + 1;
    }
    return Ok(tokens);
  }

  /** The tokens of one line's words. */
  method LexLine(path: string, rowNo: nat, words: seq<(string, nat)>) returns (r: Result<seq<Token>, Error>)
    ensures r == LexWords(path, rowNo, words, |words|)
  {
    var tokens: seq<Token> := [];
    for j := 0 to |words|
      invariant LexWords(path, rowNo, words, j) == Ok(tokens)
    {
      var (text, colNo) := words[j];
      var w := LexWord(text, rowNo, colNo);
      if w.Err? {
        WordFailureStays(path, rowNo, words, j + 1, |words|);
        return Err(w.error);
      }
      tokens := tokens + [Token(path, colNo, rowNo, w.value)];
    }
    return Ok(tokens);
  }
}
