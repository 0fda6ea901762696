/**
 * What cmd's quoting says, form by form: what a caret hides, and how a word of the line that is left can be written.
 * Every line written in these forms is read as the texts of its words.
 */
module CmdForms {
  import opened Basics
  import opened ShellLexer
  import opened Text

  // ---- Carets ----

  /** A character that is itself, one behind a caret, or a line end that a caret hides. */
  datatype Mark = Plain(c: char) | Careted(c: char) | Cut(crlf: bool)

  predicate IsMark(mark: Mark) {
    match mark
    case Plain(c) => c != '^'
    case Careted(c) => c != '\n' && c != '\r'
    case Cut(_) => true
  }

  function MarkWritten(mark: Mark): string {
    match mark
    case Plain(c) => [c]
    case Careted(c) => ['^', c]
    case Cut(crlf) => if crlf then "^\r\n" else "^\n"
  }

  function MarkText(mark: Mark): string {
    match mark
    case Plain(c) => [c]
    case Careted(c) => [c]
    case Cut(_) => ""
  }

  function MarksWritten(marks: seq<Mark>): string {
    if marks == [] then "" else MarkWritten(marks[0]) + MarksWritten(marks[1..])
  }

  function MarksText(marks: seq<Mark>): string {
    if marks == [] then "" else MarkText(marks[0]) + MarksText(marks[1..])
  }

  lemma {:induction false} StripMark(mark: Mark, rest: string)
    requires IsMark(mark)
    ensures StripCarets(MarkWritten(mark) + rest) == MarkText(mark) + StripCarets(rest)
  {
    var s := MarkWritten(mark) + rest;
    assert s[|MarkWritten(mark)|..] == rest;
  }

  /** A line is stripped of its carets as its marks say. */
  lemma {:induction false} StripMarks(marks: seq<Mark>)
    requires forall k :: 0 <= k < |marks| ==> IsMark(marks[k])
    ensures StripCarets(MarksWritten(marks)) == MarksText(marks)
  {
    if marks != [] {
      StripMark(marks[0], MarksWritten(marks[1..]));
      StripMarks(marks[1..]);
    }
  }

  // ---- Words ----

  /** Inside quotes: a character, or a quote that a backslash or another quote stands before. */
  datatype Inner = Same(c: char) | SlashQuote | TwoQuotes

  function InnerWritten(inner: Inner): string {
    match inner
    case Same(c) => [c]
    case SlashQuote => "\\\""
    case TwoQuotes => "\"\""
  }

  function InnerText(inner: Inner): string {
    match inner
    case Same(c) => [c]
    case _ => "\""
  }

  function InnersWritten(inner: seq<Inner>): string {
    if inner == [] then "" else InnerWritten(inner[0]) + InnersWritten(inner[1..])
  }

  function InnersText(inner: seq<Inner>): string {
    if inner == [] then "" else InnerText(inner[0]) + InnersText(inner[1..])
  }

  /** White space, a character of a word, a quote behind a backslash, or a text in quotes. */
  datatype Element = Space(c: char) | Bare(c: char) | Escaped | Quoted(inner: seq<Inner>)

  predicate StartsQuoted(next: string) {
    next != "" && next[0] == '"'
  }

  /** Inside quotes a backslash is itself unless a quote follows, the closing one included. */
  predicate IsInner(inner: Inner, next: string) {
    inner.Same? ==> inner.c != '"' && (inner.c == '\\' ==> !StartsQuoted(next))
  }

  predicate AreInner(inner: seq<Inner>) {
    forall k :: 0 <= k < |inner| ==> IsInner(inner[k], InnersWritten(inner[k + 1..]) + "\"")
  }

  /** A backslash is itself unless a quote follows, and a quote closes unless another one follows. */
  predicate IsElement(e: Element, next: string) {
    match e
    case Space(c) => IsSpace(c)
    case Bare(c) => !IsSpace(c) && c != '"' && (c == '\\' ==> !StartsQuoted(next))
    case Escaped => true
    case Quoted(inner) => AreInner(inner) && !StartsQuoted(next)
  }

  function ElementWritten(e: Element): string {
    match e
    case Space(c) => [c]
    case Bare(c) => [c]
    case Escaped => "\\\""
    case Quoted(inner) => "\"" + InnersWritten(inner) + "\""
  }

  function LineWritten(line: seq<Element>): string {
    if line == [] then "" else ElementWritten(line[0]) + LineWritten(line[1..])
  }

  predicate IsLine(line: seq<Element>) {
    forall k :: 0 <= k < |line| ==> IsElement(line[k], LineWritten(line[k + 1..]))
  }

  function ElementText(e: Element): string {
    match e
    case Space(_) => ""
    case Bare(c) => [c]
    case Escaped => "\""
    case Quoted(inner) => InnersText(inner)
  }

  /** The texts of the words, the one in hand being the first: each run between white space is one, even of nothing. */
  function WordsIn(line: seq<Element>, word: Option<string>): seq<string> {
    if line == [] then Finished(word)
    else if line[0].Space? then Finished(word) + WordsIn(line[1..], None)
    else WordsIn(line[1..], Add(word, ElementText(line[0])))
  }

  lemma {:induction false} LexInner(inner: Inner, rest: string, word: string)
    requires IsInner(inner, rest)
    ensures LexCmd(InnerWritten(inner) + rest, Some(word), true) == LexCmd(rest, Some(word + InnerText(inner)), true)
  {
    var s := InnerWritten(inner) + rest;
    assert s[|InnerWritten(inner)|..] == rest;
    assert |s| > 1 && inner.Same? ==> s[1] == rest[0];
  }

  /** What is inside quotes, up to the quote that closes them. */
  lemma {:induction false} LexInners(inner: seq<Inner>, rest: string, word: string)
    requires AreInner(inner) && !StartsQuoted(rest)
    ensures LexCmd(InnersWritten(inner) + "\"" + rest, Some(word), true)
         == LexCmd(rest, Some(word + InnersText(inner)), false)
  {
    if inner == [] {
      var s := InnersWritten(inner) + "\"" + rest;
      assert s == "\"" + rest && s[1..] == rest;
      assert word + "" == word;
    } else {
      var (first, later) := (inner[0], inner[1..]);
      var tail := InnersWritten(later) + "\"" + rest;
      InnerAfterFirst(inner, rest);
      assert InnersWritten(inner) + "\"" + rest == InnerWritten(first) + tail;
      assert word + InnersText(inner) == word + InnerText(first) + InnersText(later);
      hide LexCmd, InnersWritten, InnersText, AreInner, IsInner;
      LexInner(first, tail, word);
      LexInners(later, rest, word + InnerText(first));
    }
  }

  lemma {:induction false} InnerAfterFirst(inner: seq<Inner>, rest: string)
    requires inner != [] && AreInner(inner)
    ensures AreInner(inner[1..]) && IsInner(inner[0], InnersWritten(inner[1..]) + "\"" + rest)
  {
    var next := InnersWritten(inner[1..]) + "\"";
    assert IsInner(inner[0], next);
    assert (next + rest)[0] == next[0];
    forall k | 0 <= k < |inner| - 1 ensures IsInner(inner[1..][k], InnersWritten(inner[1..][k + 1..]) + "\"") {
      assert inner[1..][k + 1..] == inner[k + 2..];
      assert IsInner(inner[k + 1], InnersWritten(inner[k + 2..]) + "\"");
    }
  }

  lemma {:induction false} LexQuotes(inner: seq<Inner>, rest: string, word: Option<string>)
    requires AreInner(inner) && !StartsQuoted(rest)
    ensures LexCmd("\"" + InnersWritten(inner) + "\"" + rest, word, false)
         == LexCmd(rest, Add(word, InnersText(inner)), false)
  {
    var tail := InnersWritten(inner) + "\"" + rest;
    LexOpening(tail, word);
    hide LexCmd, InnersWritten, InnersText, AreInner;
    LexInners(inner, rest, word.Or(""));
    assert "\"" + InnersWritten(inner) + "\"" + rest == "\"" + tail;
  }

  lemma {:induction false} LexOpening(tail: string, word: Option<string>)
    ensures LexCmd("\"" + tail, word, false) == LexCmd(tail, Some(word.Or("")), true)
  {
    assert ("\"" + tail)[1..] == tail && word.Or("") + "" == word.Or("");
  }

  lemma {:induction false} LexBare(c: char, rest: string, word: Option<string>)
    requires IsElement(Bare(c), rest)
    ensures LexCmd([c] + rest, word, false) == LexCmd(rest, Add(word, [c]), false)
  {
    var s := [c] + rest;
    assert s[1..] == rest;
    assert |s| > 1 ==> s[1] == rest[0];
    hide IsSpace;
  }

  lemma {:induction false} LexElement(e: Element, rest: string, word: Option<string>)
    requires IsElement(e, rest) && !e.Space?
    ensures LexCmd(ElementWritten(e) + rest, word, false) == LexCmd(rest, Add(word, ElementText(e)), false)
  {
    match e
    case Bare(c) =>
      LexBare(c, rest, word);
    case Escaped =>
      assert ("\\\"" + rest)[2..] == rest;
    case Quoted(inner) =>
      LexQuotes(inner, rest, word);
  }

  lemma {:induction false} LexSpace(c: char, rest: string, word: Option<string>)
    requires IsSpace(c)
    ensures LexCmd([c] + rest, word, false) == Before(Finished(word), LexCmd(rest, None, false))
  {
    assert ([c] + rest)[1..] == rest;
  }

  lemma {:induction false} LineAfterFirst(line: seq<Element>)
    requires line != [] && IsLine(line)
    ensures IsLine(line[1..]) && IsElement(line[0], LineWritten(line[1..]))
    ensures LineWritten(line) == ElementWritten(line[0]) + LineWritten(line[1..])
  {
    forall k | 0 <= k < |line| - 1 ensures IsElement(line[1..][k], LineWritten(line[1..][k + 1..])) {
      assert line[1..][k + 1..] == line[k + 2..];
      assert IsElement(line[k + 1], LineWritten(line[k + 2..]));
    }
  }

  /** Every line that is written in these forms is read as the texts of its words. */
  lemma {:induction false} LexElements(line: seq<Element>, word: Option<string>)
    requires IsLine(line)
    ensures LexCmd(LineWritten(line), word, false) == Ok(WordsIn(line, word))
    decreases |line|
  {
    if line != [] {
      LineAfterFirst(line);
      var (first, rest) := (line[0], LineWritten(line[1..]));
      hide LexCmd, LineWritten, IsLine, IsSpace, AreInner;
      if first.Space? {
        LexSpace(first.c, rest, word);
        LexElements(line[1..], None);
      } else {
        LexElement(first, rest, word);
        LexElements(line[1..], Add(word, ElementText(first)));
      }
    }
  }

  /** A line of cmd's is read as the words that are left in it without its carets. */
  lemma {:induction false} CmdLineIsRead(marks: seq<Mark>, line: seq<Element>)
    requires (forall k :: 0 <= k < |marks| ==> IsMark(marks[k])) && IsLine(line)
    requires MarksText(marks) == LineWritten(line) && IsCmd(MarksWritten(marks))
    ensures WordsOf(MarksWritten(marks)) == Ok(WordsIn(line, None))
  {
    StripMarks(marks);
    LexElements(line, None);
  }
}
