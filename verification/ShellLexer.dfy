/** Two lexers of command lines, for bash's quoting and for cmd's, each an index loop proved against a recursive one. */
module ShellLexer {
  import opened Basics
  import opened Text

  /** Why a text cannot be imported as a cURL command. */
  datatype ImportError =
    | NotCurl
    | QuoteNotClosed
    | NeedsValue(option: string)
    | NoAddress
    | NotAMethod(text: string)

  type Words = Result<seq<string>, ImportError>

  // ---- `$'…'` ----

  function DigitValue(c: char): nat {
    if '0' <= c <= '9' then c as nat - '0' as nat
    else if 'a' <= c <= 'f' then c as nat - 'a' as nat + 10
    else if 'A' <= c <= 'F' then c as nat - 'A' as nat + 10
    else 16
  }

  /** How many digits of this radix begin the text, counted up to `most`. */
  function DigitRun(s: string, radix: nat, most: nat): (n: nat)
    ensures n <= most && n <= |s|
  {
    if most == 0 || s == "" || DigitValue(s[0]) >= radix then 0
    else 1 + DigitRun(s[1..], radix, most - 1)
  }

  /** The value of digits in base 8 or 16. */
  function Number(digits: string, octal: bool): nat {
    if digits == "" then 0
    else
      var above := Number(digits[..|digits| - 1], octal);
      (if octal then above * 8 else above * 16) + DigitValue(digits[|digits| - 1])
  }

  /** The text of a code point; a surrogate has no text of its own and is read as U+FFFD. */
  function CodePoint(code: nat): string {
    if code > 0x10FFFF then ""
    else if 0xD800 <= code < 0xE000 then "\U{FFFD}"
    else [code as char]
  }

  /** The text denoted by a one-character escape of ANSI-C quoting, or the escape itself when it denotes nothing. */
  function LetterEscape(c: char): string {
    if c == 'n' then "\n"
    else if c == 't' then "\t"
    else if c == 'r' then "\r"
    else if c == 'a' then "\U{7}"
    else if c == 'b' then "\U{8}"
    else if c == 'e' then "\U{1B}"
    else if c == 'f' then "\U{C}"
    else if c == 'v' then "\U{B}"
    else if c == '\\' || c == '\'' || c == '"' || c == '?' then [c]
    else ['\\', c]
  }

  /** How many hexadecimal digits may follow this letter. */
  function HexDigits(c: char): nat {
    if c == 'x' then 2 else if c == 'u' then 4 else if c == 'U' then 8 else 0
  }

  /** One escape of ANSI-C quoting: the text it denotes and its length, the backslash not counted. */
  function AnsiEscape(s: string): (r: (string, nat))
    ensures r.1 >= 1
  {
    if s == "" then ("\\", 1)
    else
      var hex := DigitRun(s[1..], 16, HexDigits(s[0]));
      var octal := DigitRun(s, 8, 3);
      if hex > 0 then (CodePoint(Number(s[1..1 + hex], false)), 1 + hex)
      else if octal > 0 then (CodePoint(Number(s[..octal], true)), octal)
      else (LetterEscape(s[0]), 1)
  }

  /** A quoted piece, and the characters it took with its closing quote; none when it is not closed. */
  type Piece = Option<(string, nat)>

  function After(text: string, taken: nat, piece: Piece): Piece {
    if piece.None? then None else Some((text + piece.value.0, taken + piece.value.1))
  }

  lemma {:induction false} AfterAfter(a: string, i: nat, b: string, j: nat, piece: Piece)
    ensures After(a, i, After(b, j, piece)) == After(a + b, i + j, piece)
    ensures After("", 0, piece) == piece
  {
    if piece.Some? {
      assert a + (b + piece.value.0) == (a + b) + piece.value.0;
      assert "" + piece.value.0 == piece.value.0;
    }
  }

  /** One character, or one escape, of a quoted text: what it stands for, and the characters it took. */
  type Unit = string -> (string, nat)

  /** The text up to the closing mark, a unit at a time. */
  function Until(s: string, close: char, unit: Unit): (piece: Piece)
    ensures piece.Some? ==> 1 <= piece.value.1 <= |s|
    decreases |s|
  {
    if s == "" then None
    else if s[0] == close then Some(("", 1))
    else
      var (value, taken) := unit(s);
      if taken == 0 || taken > |s| then None else After(value, taken, Until(s[taken..], close, unit))
  }

  /** Inside `$'…'` a backslash begins an escape. */
  function AnsiUnit(s: string): (string, nat) {
    if s == "" || s[0] != '\\' then (s[..if s == "" then 0 else 1], 1)
    else
      var (value, taken) := AnsiEscape(s[1..]);
      (value, 1 + taken)
  }

  predicate EscapedInDouble(c: char) {
    c == '"' || c == '\\' || c == '$' || c == '`' || c == '\n'
  }

  /** The next unit of a double-quoted text, and how many characters it spans. */
  function DoubleUnit(s: string): (string, nat) {
    if s == "" || s[0] != '\\' then (s[..if s == "" then 0 else 1], 1)
    else if |s| == 1 then ("", 2)
    else if EscapedInDouble(s[1]) then (if s[1] == '\n' then "" else [s[1]], 2)
    else ("\\", 1)
  }

  // ---- bash ----

  function Add(word: Option<string>, piece: string): Option<string> {
    Some(word.Or("") + piece)
  }

  /** The words so far with the one in hand, if there is one. */
  function Finished(word: Option<string>): seq<string> {
    if word.Some? then [word.value] else []
  }

  function Before(words: seq<string>, rest: Words): Words {
    if rest.Ok? then Ok(words + rest.value) else rest
  }

  lemma {:induction false} BeforeBefore(a: seq<string>, b: seq<string>, rest: Words)
    ensures Before(a, Before(b, rest)) == Before(a + b, rest)
    ensures Before([], rest) == rest
  {
    if rest.Ok? {
      assert a + (b + rest.value) == (a + b) + rest.value;
      assert [] + rest.value == rest.value;
    }
  }

  /** What one turn of the lexer did: the characters it took, the word now in hand, and the words it finished. */
  datatype Turn = Took(count: nat, word: Option<string>, done: seq<string>) | NotClosed

  function Quoted(word: Option<string>, opening: nat, piece: Piece): Turn {
    if piece.None? then NotClosed else Took(opening + piece.value.1, Add(word, piece.value.0), [])
  }

  function SingleQuoted(s: string): (piece: Piece)
    ensures piece.Some? ==> 1 <= piece.value.1 <= |s|
  {
    var end := IndexOf(s, '\'');
    if end == -1 then None else Some((s[..end], end + 1))
  }

  function Turned(s: string, word: Option<string>): (turn: Turn)
    requires s != ""
    ensures turn.Took? ==> 1 <= turn.count <= |s|
  {
    if s[0] == '\\' then
      if |s| == 1 then Took(1, word, [])
      else if s[1] == '\n' then Took(2, word, [])
      else if s[1] == '\r' && |s| > 2 && s[2] == '\n' then Took(3, word, [])
      else Took(2, Add(word, [s[1]]), [])
    else if s[0] == '\'' then Quoted(word, 1, SingleQuoted(s[1..]))
    else if s[0] == '$' && |s| > 1 && s[1] == '\'' then Quoted(word, 2, Until(s[2..], '\'', AnsiUnit))
    else if s[0] == '"' then Quoted(word, 1, Until(s[1..], '"', DoubleUnit))
    else if IsSpace(s[0]) then Took(1, None, Finished(word))
    else Took(1, Add(word, [s[0]]), [])
  }

  /** The words that begin in `word` and go on in `s`. */
  function Lex(s: string, word: Option<string>): Words
    decreases |s|
  {
    if s == "" then Ok(Finished(word))
    else
      match Turned(s, word)
      case NotClosed => Err(QuoteNotClosed)
      case Took(count, next, done) => Before(done, Lex(s[count..], next))
  }

  /** One turn of the loop below, at `text[i]`. */
  method TakeTurn(text: string, i: nat, word: Option<string>) returns (turn: Turn)
    requires i < |text|
    ensures turn == Turned(text[i..], word)
  {
    hide Until, AnsiUnit, DoubleUnit, IndexOf, IsSpace;
    var c := text[i];
    ghost var s := text[i..];
    if c == '\\' {
      if i + 1 < |text| && text[i + 1] == '\n' {
        return Took(2, word, []);
      } else if i + 2 < |text| && text[i + 1] == '\r' && text[i + 2] == '\n' {
        return Took(3, word, []);
      } else if i + 1 < |text| {
        return Took(2, Add(word, [text[i + 1]]), []);
      }
      return Took(1, word, []);
    } else if c == '\'' {
      assert s[1..] == text[i + 1..];
      var end := IndexOf(text[i + 1..], '\'');
      if end == -1 {
        return NotClosed;
      }
      assert text[i + 1..][..end] == text[i + 1..i + 1 + end];
      return Took(2 + end, Add(word, text[i + 1..i + 1 + end]), []);
    } else if c == '$' && i + 1 < |text| && text[i + 1] == '\'' {
      assert s[2..] == text[i + 2..];
      var piece, end := PieceUntil(text, i + 2, '\'', AnsiUnit);
      if end > |text| {
        return NotClosed;
      }
      return Took(end - i, Add(word, piece), []);
    } else if c == '"' {
      assert s[1..] == text[i + 1..];
      var piece, end := PieceUntil(text, i + 1, '"', DoubleUnit);
      if end > |text| {
        return NotClosed;
      }
      return Took(end - i, Add(word, piece), []);
    } else if IsSpace(c) {
      return Took(1, None, Finished(word));
    }
    return Took(1, Add(word, [c]), []);
  }

  method BashWords(text: string) returns (r: Words)
    ensures r == Lex(text, None)
  {
    var words: seq<string> := [];
    var word: Option<string> := None;
    var i := 0;
    assert text[0..] == text;
    BeforeBefore([], [], Lex(text, None));
    while i < |text|
      invariant 0 <= i <= |text|
      invariant Before(words, Lex(text[i..], word)) == Lex(text, None)
    {
      var turn := TakeTurn(text, i, word);
      if turn.NotClosed? {
        return Err(QuoteNotClosed);
      }
      assert text[i..][turn.count..] == text[i + turn.count..];
      BeforeBefore(words, turn.done, Lex(text[i + turn.count..], turn.word));
      words := words + turn.done;
      word := turn.word;
      i := i + turn.count;
    }
    r := Ok(words + Finished(word));
  }

  /** The quoted piece that begins at `start`, and the place after its closing mark: past the text when it has none. */
  method PieceUntil(text: string, start: nat, close: char, unit: Unit) returns (piece: string, end: nat)
    requires start <= |text|
    ensures end > |text| ==> Until(text[start..], close, unit).None?
    ensures end <= |text| ==> start < end && Until(text[start..], close, unit) == Some((piece, end - start))
  {
    piece := "";
    var j := start;
    AfterAfter("", 0, "", 0, Until(text[start..], close, unit));
    while j < |text| && text[j] != close
      invariant start <= j
      invariant j <= |text| ==>
        Until(text[start..], close, unit) == After(piece, j - start, Until(text[j..], close, unit))
      invariant j > |text| ==> Until(text[start..], close, unit).None?
      decreases |text| - j
    {
      var (value, taken) := unit(text[j..]);
      if taken == 0 {
        return piece, |text| + 1;
      }
      if j + taken <= |text| {
        assert text[j..][taken..] == text[j + taken..];
        AfterAfter(piece, j - start, value, taken, Until(text[j + taken..], close, unit));
      }
      piece := piece + value;
      j := j + taken;
    }
    assert j < |text| ==> piece + "" == piece;
    end := if j < |text| then j + 1 else |text| + 1;
  }

  // ---- cmd ----

  /**
   * The line without its carets, those that are themselves behind a caret excepted, and without the line ends they
   * hide.
   */
  function StripCarets(s: string): string
    decreases |s|
  {
    if s == "" then ""
    else if s[0] != '^' || |s| == 1 then [s[0]] + StripCarets(s[1..])
    else if s[1] == '\n' then StripCarets(s[2..])
    else if s[1] == '\r' && |s| > 2 && s[2] == '\n' then StripCarets(s[3..])
    else [s[1]] + StripCarets(s[2..])
  }

  function LexCmd(s: string, word: Option<string>, quoted: bool): Words
    decreases |s|
  {
    if s == "" then if quoted then Err(QuoteNotClosed) else Ok(Finished(word))
    else if s[0] == '\\' && |s| > 1 && s[1] == '"' then LexCmd(s[2..], Add(word, "\""), quoted)
    else if s[0] == '"' then
      if quoted && |s| > 1 && s[1] == '"' then LexCmd(s[2..], Add(word, "\""), quoted)
      else LexCmd(s[1..], Add(word, ""), !quoted)
    else if !quoted && IsSpace(s[0]) then Before(Finished(word), LexCmd(s[1..], None, quoted))
    else LexCmd(s[1..], Add(word, [s[0]]), quoted)
  }

  method CmdWords(text: string) returns (r: Words)
    ensures r == LexCmd(StripCarets(text), None, false)
  {
    var plain := StripCarets(text);
    var words: seq<string> := [];
    var word: Option<string> := None;
    var quoted := false;
    var i := 0;
    assert plain[0..] == plain;
    BeforeBefore([], [], LexCmd(plain, None, false));
    while i < |plain|
      invariant 0 <= i <= |plain|
      invariant Before(words, LexCmd(plain[i..], word, quoted)) == LexCmd(plain, None, false)
    {
      var c := plain[i];
      assert plain[i..][1..] == plain[i + 1..];
      assert i + 1 < |plain| ==> plain[i..][2..] == plain[i + 2..];
      if c == '\\' && i + 1 < |plain| && plain[i + 1] == '"' {
        word := Add(word, "\"");
        i := i + 2;
      } else if c == '"' {
        if quoted && i + 1 < |plain| && plain[i + 1] == '"' {
          word := Add(word, "\"");
          i := i + 2;
        } else {
          quoted := !quoted;
          word := Add(word, "");
          i := i + 1;
        }
      } else if !quoted && IsSpace(c) {
        BeforeBefore(words, Finished(word), LexCmd(plain[i + 1..], None, quoted));
        words := words + Finished(word);
        word := None;
        i := i + 1;
      } else {
        word := Add(word, [c]);
        i := i + 1;
      }
    }
    if quoted {
      return Err(QuoteNotClosed);
    }
    r := Ok(words + Finished(word));
  }

  /** The sign by which a line is taken for cmd's: a caret with a quote or a line end behind it. */
  predicate HasCmdEscape(s: string) {
    exists i :: 0 <= i < |s| - 1 && s[i] == '^'
      && (s[i + 1] == '"' || s[i + 1] == '\n' || (s[i + 1] == '\r' && i + 2 < |s| && s[i + 2] == '\n'))
  }

  predicate IsCmd(text: string) {
    HasCmdEscape(text) && '\'' !in text
  }

  function WordsOf(text: string): Words {
    if IsCmd(text) then LexCmd(StripCarets(text), None, false) else Lex(text, None)
  }
}
