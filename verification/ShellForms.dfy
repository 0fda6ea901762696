/**
 * What bash's quoting says, form by form: how a word can be written, in which pieces and with which escapes, and the
 * text each of them stands for. Every line of words written in these forms is read as their texts.
 */
module ShellForms {
  import opened Basics
  import opened ShellLexer
  import opened ShellRoundTrip
  import opened Text

  // ---- Double quotes ----

  /** A character that is itself, an escaped one, a backslash that is kept, or a line end that is hidden. */
  datatype Inner = Same(c: char) | Marked(c: char) | Slash(c: char) | Hidden
  {
    predicate Valid() {
      match this
      case Same(c) => c != '"' && c != '\\'
      case Marked(c) => c in ['"', '\\', '$', '`']
      case Slash(c) => c !in ['"', '\\', '$', '`', '\n']
      case Hidden => true
    }

    function Written(): string {
      match this
      case Same(c) => [c]
      case Marked(c) => ['\\', c]
      case Slash(c) => ['\\', c]
      case Hidden => ['\\', '\n']
    }

    function Text(): string {
      match this
      case Same(c) => [c]
      case Marked(c) => [c]
      case Slash(c) => ['\\', c]
      case Hidden => ""
    }
  }

  function InnerWritten(parts: seq<Inner>): string {
    if parts == [] then "" else parts[0].Written() + InnerWritten(parts[1..])
  }

  function InnerText(parts: seq<Inner>): string {
    if parts == [] then "" else parts[0].Text() + InnerText(parts[1..])
  }

  predicate ValidInner(parts: seq<Inner>) {
    forall k :: 0 <= k < |parts| ==> parts[k].Valid()
  }

  lemma {:induction false} UntilStep(s: string, close: char, unit: Unit, taken: nat, text: string)
    requires s != "" && s[0] != close && 0 < taken <= |s| && unit(s) == (text, taken)
    ensures Until(s, close, unit) == After(text, taken, Until(s[taken..], close, unit))
  {
  }

  lemma {:induction false} DoubleStep(part: Inner, rest: string)
    requires part.Valid()
    ensures var s := part.Written() + rest;
            Until(s, '"', DoubleUnit) == After(part.Text(), |part.Written()|, Until(rest, '"', DoubleUnit))
  {
    var s := part.Written() + rest;
    assert s[|part.Written()|..] == rest;
    if part.Slash? {
      assert s[1..] == [part.c] + rest && s[1..][1..] == rest;
      UntilStep(s, '"', DoubleUnit, 1, "\\");
      UntilStep(s[1..], '"', DoubleUnit, 1, [part.c]);
      AfterAfter("\\", 1, [part.c], 1, Until(rest, '"', DoubleUnit));
      assert "\\" + [part.c] == part.Text();
    } else {
      UntilStep(s, '"', DoubleUnit, |part.Written()|, part.Text());
    }
  }

  /** A double-quoted text is what its parts stand for, up to the quote that closes it. */
  lemma {:induction false} DoubleQuotedIs(parts: seq<Inner>, rest: string)
    requires ValidInner(parts)
    ensures Until(InnerWritten(parts) + "\"" + rest, '"', DoubleUnit)
         == Some((InnerText(parts), |InnerWritten(parts)| + 1))
  {
    if parts == [] {
      assert InnerWritten(parts) + "\"" + rest == "\"" + rest;
    } else {
      var tail := InnerWritten(parts[1..]) + "\"" + rest;
      DoubleQuotedIs(parts[1..], rest);
      DoubleStep(parts[0], tail);
      assert InnerWritten(parts) + "\"" + rest == parts[0].Written() + tail;
    }
  }

  // ---- `$'…'` ----

  /** A digit by its value, with its letter in either case. */
  datatype Digit = Digit(value: nat, upper: bool)
  {
    function Char(): char
      requires value < 16
    {
      (if upper then "0123456789ABCDEF" else "0123456789abcdef")[value]
    }
  }

  function DigitsWritten(digits: seq<Digit>): string
    requires forall k :: 0 <= k < |digits| ==> digits[k].value < 16
  {
    seq(|digits|, k requires 0 <= k < |digits| => digits[k].Char())
  }

  function Power(base: nat, n: nat): nat {
    if n == 0 then 1 else base * Power(base, n - 1)
  }

  /** The number that digits stand for in a base. */
  function ValueOf(digits: seq<Digit>, base: nat): nat {
    if digits == [] then 0 else digits[0].value * Power(base, |digits| - 1) + ValueOf(digits[1..], base)
  }

  /** A character that is itself, a letter with a meaning, a backslash that is kept, or a code point by its number. */
  datatype Ansi =
    | Itself(c: char)
    | Letter(c: char, stands: char)
    | Kept(c: char)
    | Code(mark: string, digits: seq<Digit>)

  function BaseOf(mark: string): nat {
    if mark == "" then 8 else 16
  }

  /** How many digits there can be after a mark. */
  function MostOf(mark: string): nat {
    if mark == "" then 3 else if mark == "x" then 2 else if mark == "u" then 4 else 8
  }

  predicate IsNumber(mark: string, digits: seq<Digit>) {
    && mark in {"", "x", "u", "U"} && 1 <= |digits| <= MostOf(mark)
    && forall k :: 0 <= k < |digits| ==> digits[k].value < BaseOf(mark)
  }

  predicate IsAnsi(part: Ansi) {
    match part
    case Itself(c) => c != '\'' && c != '\\'
    case Letter(c, stands) => (c, stands) in LETTERS
    case Kept(c) => c !in "ntrabefv\\'\"?xuU01234567"
    case Code(mark, digits) => IsNumber(mark, digits)
  }

  function Spelled(part: Ansi): string
    requires IsAnsi(part)
  {
    match part
    case Itself(c) => [c]
    case Letter(c, _) => ['\\', c]
    case Kept(c) => ['\\', c]
    case Code(mark, digits) => "\\" + mark + DigitsWritten(digits)
  }

  /** A number that is no scalar value stands for U+FFFD, or beyond the last code point for nothing. */
  function Scalar(code: nat): string {
    if code > 0x10FFFF then "" else if 0xD800 <= code <= 0xDFFF then "\U{FFFD}" else [code as char]
  }

  function Meant(part: Ansi): string
    requires IsAnsi(part)
  {
    match part
    case Itself(c) => [c]
    case Letter(_, stands) => [stands]
    case Kept(c) => ['\\', c]
    case Code(mark, digits) => Scalar(ValueOf(digits, BaseOf(mark)))
  }

  /** What comes next is no digit of the number, unless the number has as many as it can have. */
  ghost predicate EndsBefore(part: Ansi, next: string) {
    part.Code? && |part.digits| < MostOf(part.mark) && next != "" ==> !IsDigitOf(next[0], BaseOf(part.mark))
  }

  const LETTERS: seq<(char, char)> :=
    [('n', '\n'), ('t', '\t'), ('r', '\r'), ('a', '\U{7}'), ('b', '\U{8}'), ('e', '\U{1B}'), ('f', '\U{C}'),
     ('v', '\U{B}'), ('\\', '\\'), ('\'', '\''), ('"', '"'), ('?', '?')]

  ghost predicate IsDigitOf(c: char, base: nat) {
    exists digit: Digit :: digit.value < 16 && digit.value < base && digit.Char() == c
  }

  lemma {:induction false} DigitIs(digit: Digit)
    requires digit.value < 16
    ensures DigitValue(digit.Char()) == digit.value
  {
    assert digit.value in {0, 1, 2, 3, 4, 5, 6, 7, 8, 9, 10, 11, 12, 13, 14, 15};
  }

  lemma {:induction false} DigitOf(c: char, base: nat)
    requires base <= 16
    ensures DigitValue(c) < base <==> IsDigitOf(c, base)
  {
    if DigitValue(c) < base {
      var value := DigitValue(c);
      assert value in {0, 1, 2, 3, 4, 5, 6, 7, 8, 9, 10, 11, 12, 13, 14, 15};
      assert Digit(value, 'A' <= c <= 'F').Char() == c;
    }
    if IsDigitOf(c, base) {
      var digit: Digit :| digit.value < 16 && digit.value < base && digit.Char() == c;
      DigitIs(digit);
    }
  }

  lemma {:induction false} DigitsRun(digits: seq<Digit>, next: string, base: nat, most: nat)
    requires base <= 16 && |digits| <= most
    requires forall k :: 0 <= k < |digits| ==> digits[k].value < base
    requires |digits| < most && next != "" ==> !IsDigitOf(next[0], base)
    ensures DigitRun(DigitsWritten(digits) + next, base, most) == |digits|
  {
    var s := DigitsWritten(digits) + next;
    if digits == [] {
      assert s == next;
      if next != "" {
        DigitOf(next[0], base);
      }
    } else {
      DigitIs(digits[0]);
      assert s[1..] == DigitsWritten(digits[1..]) + next;
      DigitsRun(digits[1..], next, base, most - 1);
    }
  }

  lemma {:induction false} PowerStep(base: nat, digits: seq<Digit>)
    requires digits != []
    ensures var n := |digits| - 1;
            ValueOf(digits, base) == ValueOf(digits[..n], base) * base + digits[n].value
  {
    var n := |digits| - 1;
    if n == 0 {
      assert digits[..0] == [] && digits[1..] == [];
      assert Power(base, 0) == 1;
    } else {
      PowerStep(base, digits[1..]);
      assert digits[1..][..n - 1] == digits[..n][1..];
      var (first, rest) := (digits[0].value, ValueOf(digits[..n][1..], base));
      assert Power(base, n) == base * Power(base, n - 1);
      Distribute(first, Power(base, n - 1), base, rest);
    }
  }

  lemma {:induction false} Distribute(first: nat, power: nat, base: nat, rest: nat)
    ensures first * (base * power) + rest * base == (first * power + rest) * base
  {
  }

  lemma {:induction false} NumberIs(digits: seq<Digit>, octal: bool)
    requires forall k :: 0 <= k < |digits| ==> digits[k].value < if octal then 8 else 16
    ensures Number(DigitsWritten(digits), octal) == ValueOf(digits, if octal then 8 else 16)
  {
    if digits != [] {
      var n := |digits| - 1;
      NumberIs(digits[..n], octal);
      PowerStep(if octal then 8 else 16, digits);
      DigitIs(digits[n]);
      assert DigitsWritten(digits)[..n] == DigitsWritten(digits[..n]);
    }
  }

  lemma {:induction false} LetterStands(c: char, stands: char)
    requires (c, stands) in LETTERS
    ensures LetterEscape(c) == [stands] && c !in "xuU01234567" && DigitValue(c) >= 8
  {
    assert exists k :: 0 <= k < 12 && LETTERS[k] == (c, stands);
  }

  lemma {:induction false} KeptStands(c: char)
    requires IsAnsi(Kept(c))
    ensures LetterEscape(c) == ['\\', c] && HexDigits(c) == 0 && DigitValue(c) >= 8
  {
    var marks := "ntrabefv\\'\"?xuU01234567";
    assert forall k :: 0 <= k < 23 ==> marks[k] != c;
    assert marks[0] != c && marks[1] != c && marks[2] != c && marks[3] != c && marks[4] != c && marks[5] != c;
    assert marks[6] != c && marks[7] != c && marks[8] != c && marks[9] != c && marks[10] != c && marks[11] != c;
    assert marks[12] != c && marks[13] != c && marks[14] != c && marks[15] != c && marks[16] != c && marks[17] != c;
    assert marks[18] != c && marks[19] != c && marks[20] != c && marks[21] != c && marks[22] != c;
  }

  lemma {:induction false} OctalStands(digits: seq<Digit>, next: string)
    requires IsAnsi(Code("", digits)) && EndsBefore(Code("", digits), next)
    ensures AnsiEscape(DigitsWritten(digits) + next) == (Meant(Code("", digits)), |digits|)
  {
    var s := DigitsWritten(digits) + next;
    DigitsRun(digits, next, 8, 3);
    NumberIs(digits, true);
    DigitIs(digits[0]);
    assert s[..|digits|] == DigitsWritten(digits);
    assert DigitValue(s[0]) < 8;
    hide Number, ValueOf, DigitRun;
    assert DigitRun(s[1..], 16, 0) == 0;
  }

  lemma {:induction false} HexRun(mark: char, written: string, next: string)
    requires mark in "xuU" && written != ""
    requires DigitRun(written + next, 16, HexDigits(mark)) == |written|
    ensures AnsiEscape([mark] + written + next) == (CodePoint(Number(written, false)), 1 + |written|)
  {
    var s := [mark] + written + next;
    assert s[1..] == written + next && s[1..1 + |written|] == written;
    hide Number, DigitRun, CodePoint;
  }

  lemma {:induction false} HexStands(mark: string, digits: seq<Digit>, next: string)
    requires mark != "" && IsAnsi(Code(mark, digits)) && EndsBefore(Code(mark, digits), next)
    ensures AnsiEscape(mark + DigitsWritten(digits) + next) == (Meant(Code(mark, digits)), 1 + |digits|)
  {
    assert mark == [mark[0]] && HexDigits(mark[0]) == MostOf(mark);
    DigitsRun(digits, next, 16, MostOf(mark));
    NumberIs(digits, false);
    hide Number, ValueOf, DigitRun, AnsiEscape;
    HexRun(mark[0], DigitsWritten(digits), next);
  }

  /** An escape and what it stands for, whatever comes after it. */
  lemma {:induction false} EscapeStands(part: Ansi, next: string)
    requires !part.Itself? && IsAnsi(part) && EndsBefore(part, next)
    ensures |Spelled(part)| >= 2 && Spelled(part)[0] == '\\'
    ensures AnsiEscape(Spelled(part)[1..] + next) == (Meant(part), |Spelled(part)| - 1)
  {
    if part.Code? {
      CodeStands(part.mark, part.digits, next);
    } else {
      hide AnsiEscape, LetterEscape;
      match part
      case Letter(c, stands) =>
        LetterStands(c, stands);
        LetterAlone(c, next);
      case Kept(c) =>
        KeptStands(c);
        LetterAlone(c, next);
    }
  }

  lemma {:induction false} CodeStands(mark: string, digits: seq<Digit>, next: string)
    requires IsAnsi(Code(mark, digits)) && EndsBefore(Code(mark, digits), next)
    ensures var part := Code(mark, digits);
            && |Spelled(part)| >= 2 && Spelled(part)[0] == '\\'
            && AnsiEscape(Spelled(part)[1..] + next) == (Meant(part), |Spelled(part)| - 1)
  {
    hide AnsiEscape, ValueOf, Scalar;
    assert Spelled(Code(mark, digits))[1..] == mark + DigitsWritten(digits);
    if mark == "" {
      assert mark + DigitsWritten(digits) == DigitsWritten(digits);
      OctalStands(digits, next);
    } else {
      HexStands(mark, digits, next);
    }
  }

  lemma {:induction false} LetterAlone(c: char, next: string)
    requires c !in "xuU" && DigitValue(c) >= 8
    ensures AnsiEscape([c] + next) == (LetterEscape(c), 1)
  {
  }

  lemma {:induction false} AnsiPlain(c: char, rest: string)
    requires c != '\'' && c != '\\'
    ensures Until([c] + rest, '\'', AnsiUnit) == After([c], 1, Until(rest, '\'', AnsiUnit))
  {
    var s := [c] + rest;
    assert s[1..] == rest && s[..1] == [c];
    hide AnsiEscape, Until;
    UntilStep(s, '\'', AnsiUnit, 1, [c]);
  }

  lemma {:induction false} AnsiEscaped(written: string, text: string, rest: string)
    requires |written| >= 2 && written[0] == '\\'
    requires AnsiEscape(written[1..] + rest) == (text, |written| - 1)
    ensures Until(written + rest, '\'', AnsiUnit) == After(text, |written|, Until(rest, '\'', AnsiUnit))
  {
    var s := written + rest;
    assert s[|written|..] == rest && s[1..] == written[1..] + rest;
    hide AnsiEscape, Until;
    UntilStep(s, '\'', AnsiUnit, |written|, text);
  }

  lemma {:induction false} AnsiStep(part: Ansi, rest: string)
    requires IsAnsi(part) && EndsBefore(part, rest)
    ensures Until(Spelled(part) + rest, '\'', AnsiUnit)
         == After(Meant(part), |Spelled(part)|, Until(rest, '\'', AnsiUnit))
  {
    if part.Itself? {
      AnsiPlain(part.c, rest);
    } else {
      EscapeStands(part, rest);
      hide AnsiEscape, Until, Spelled, Meant;
      AnsiEscaped(Spelled(part), Meant(part), rest);
    }
  }

  predicate AllValid(parts: seq<Ansi>) {
    forall k :: 0 <= k < |parts| ==> IsAnsi(parts[k])
  }

  function AnsiWritten(parts: seq<Ansi>): string
    requires AllValid(parts)
  {
    if parts == [] then "" else Spelled(parts[0]) + AnsiWritten(parts[1..])
  }

  function AnsiText(parts: seq<Ansi>): string
    requires AllValid(parts)
  {
    if parts == [] then "" else Meant(parts[0]) + AnsiText(parts[1..])
  }

  /** Each part is as it can be written, and no number goes on in what follows it. */
  ghost predicate ValidAnsi(parts: seq<Ansi>) {
    && AllValid(parts)
    && forall k :: 0 <= k < |parts| ==> EndsBefore(parts[k], AnsiWritten(parts[k + 1..]))
  }

  lemma {:induction false} ValidAfterFirst(parts: seq<Ansi>)
    requires parts != [] && ValidAnsi(parts)
    ensures ValidAnsi(parts[1..]) && IsAnsi(parts[0]) && EndsBefore(parts[0], AnsiWritten(parts[1..]))
    ensures AnsiWritten(parts) == Spelled(parts[0]) + AnsiWritten(parts[1..])
    ensures AnsiText(parts) == Meant(parts[0]) + AnsiText(parts[1..])
  {
    assert AllValid(parts[1..]);
    hide AnsiWritten;
    forall k | 0 <= k < |parts| - 1 ensures EndsBefore(parts[1..][k], AnsiWritten(parts[1..][k + 1..])) {
      assert parts[1..][k + 1..] == parts[k + 2..];
      assert EndsBefore(parts[k + 1], AnsiWritten(parts[k + 2..]));
    }
  }

  /** The quote that closes the text ends a number too. */
  lemma {:induction false} QuoteEnds(part: Ansi, next: string, rest: string)
    requires EndsBefore(part, next)
    ensures EndsBefore(part, next + "'" + rest)
  {
    if part.Code? {
      DigitOf('\'', BaseOf(part.mark));
    }
    assert (next + "'" + rest)[0] == if next == "" then '\'' else next[0];
  }

  /** The text is read up to its closing quote, as the other text. */
  ghost predicate ReadsAs(written: string, text: string, rest: string) {
    Until(written + "'" + rest, '\'', AnsiUnit) == Some((text, |written| + 1))
  }

  lemma {:induction false} OneMore(one: string, meant: string, written: string, text: string, rest: string)
    requires ReadsAs(written, text, rest)
    requires var tail := written + "'" + rest;
             Until(one + tail, '\'', AnsiUnit) == After(meant, |one|, Until(tail, '\'', AnsiUnit))
    ensures ReadsAs(one + written, meant + text, rest)
  {
    hide Until, AnsiUnit;
    assert one + written + "'" + rest == one + (written + "'" + rest);
  }

  lemma {:induction false} AnsiThen(first: Ansi, written: string, text: string, rest: string)
    requires IsAnsi(first) && EndsBefore(first, written) && ReadsAs(written, text, rest)
    ensures ReadsAs(Spelled(first) + written, Meant(first) + text, rest)
  {
    QuoteEnds(first, written, rest);
    AnsiStep(first, written + "'" + rest);
    hide Until, AnsiUnit, Spelled, Meant, IsAnsi, EndsBefore, ReadsAs;
    OneMore(Spelled(first), Meant(first), written, text, rest);
  }

  lemma {:induction false} NoAnsi(rest: string)
    ensures ReadsAs("", "", rest)
  {
    assert "" + "'" + rest == "'" + rest;
  }

  /** A text in ANSI-C quotes is what its parts stand for, up to the quote that closes it. */
  lemma {:induction false} AnsiQuotedIs(parts: seq<Ansi>, rest: string)
    requires ValidAnsi(parts)
    ensures ReadsAs(AnsiWritten(parts), AnsiText(parts), rest)
  {
    if parts == [] {
      NoAnsi(rest);
    } else {
      ValidAfterFirst(parts);
      hide AnsiWritten, AnsiText, AllValid, ValidAnsi, Spelled, Meant, IsAnsi, EndsBefore, ReadsAs;
      AnsiQuotedIs(parts[1..], rest);
      AnsiThen(parts[0], AnsiWritten(parts[1..]), AnsiText(parts[1..]), rest);
    }
  }

  // ---- Words ----

  /** A piece of a word: a bare character, an escaped one, a hidden line end, or a text in one of the three quotes. */
  datatype Piece =
    | Bare(c: char)
    | Escaped(c: char)
    | Continued(crlf: bool)
    | InSingle(text: string)
    | InDouble(inner: seq<Inner>)
    | InAnsi(ansi: seq<Ansi>)
  {
    ghost predicate Valid() {
      match this
      case Bare(c) => !IsSpace(c) && c !in ['\\', '\'', '"']
      case Escaped(c) => c !in ['\n', '\r']
      case Continued(_) => true
      case InSingle(text) => '\'' !in text
      case InDouble(inner) => ValidInner(inner)
      case InAnsi(ansi) => ValidAnsi(ansi)
    }

    function Written(): string
      requires Valid()
    {
      match this
      case Bare(c) => [c]
      case Escaped(c) => ['\\', c]
      case Continued(crlf) => if crlf then "\\\r\n" else "\\\n"
      case InSingle(text) => "'" + text + "'"
      case InDouble(inner) => "\"" + InnerWritten(inner) + "\""
      case InAnsi(ansi) => "$'" + AnsiWritten(ansi) + "'"
    }

    function Text(): string
      requires Valid()
    {
      match this
      case Bare(c) => [c]
      case Escaped(c) => [c]
      case Continued(_) => ""
      case InSingle(text) => text
      case InDouble(inner) => InnerText(inner)
      case InAnsi(ansi) => AnsiText(ansi)
    }

    /** A dollar sign before a single quote is no character of its own. */
    predicate ApartFrom(next: string) {
      this == Bare('$') && next != "" ==> next[0] != '\''
    }
  }

  /** A quote makes a word even of nothing; a hidden line end makes none. */
  function With(word: Option<string>, piece: Piece): Option<string>
    requires piece.Valid()
  {
    if piece.Continued? then word else Add(word, piece.Text())
  }

  lemma {:induction false} LexTurn(s: string, word: Option<string>, next: Option<string>, count: nat)
    requires s != "" && Turned(s, word) == Took(count, next, [])
    ensures Lex(s, word) == Lex(s[count..], next)
  {
    BeforeBefore([], [], Lex(s[count..], next));
  }

  lemma {:induction false} LexDouble(inner: seq<Inner>, rest: string, word: Option<string>)
    requires ValidInner(inner)
    ensures Lex("\"" + InnerWritten(inner) + "\"" + rest, word) == Lex(rest, Add(word, InnerText(inner)))
  {
    DoubleQuotedIs(inner, rest);
    hide Until, InnerText, InnerWritten, Lex;
    TurnDouble(InnerWritten(inner), InnerText(inner), rest, word);
  }

  lemma {:induction false} TurnDouble(written: string, text: string, rest: string, word: Option<string>)
    requires Until(written + "\"" + rest, '"', DoubleUnit) == Some((text, |written| + 1))
    ensures Lex("\"" + written + "\"" + rest, word) == Lex(rest, Add(word, text))
  {
    var s := "\"" + written + "\"" + rest;
    assert s[1..] == written + "\"" + rest && s[|written| + 2..] == rest;
    hide Until, Lex, IsSpace;
    LexTurn(s, word, Add(word, text), |written| + 2);
  }

  lemma {:induction false} TurnAnsi(written: string, text: string, rest: string, word: Option<string>)
    requires ReadsAs(written, text, rest)
    ensures Lex("$'" + written + "'" + rest, word) == Lex(rest, Add(word, text))
  {
    var s := "$'" + written + "'" + rest;
    assert s[2..] == written + "'" + rest && s[|written| + 3..] == rest;
    hide Until, Lex, IsSpace;
    LexTurn(s, word, Add(word, text), |written| + 3);
  }

  lemma {:induction false} LexAnsi(ansi: seq<Ansi>, rest: string, word: Option<string>)
    requires ValidAnsi(ansi)
    ensures Lex("$'" + AnsiWritten(ansi) + "'" + rest, word) == Lex(rest, Add(word, AnsiText(ansi)))
  {
    AnsiQuotedIs(ansi, rest);
    hide AnsiText, AnsiWritten, Lex, ReadsAs;
    TurnAnsi(AnsiWritten(ansi), AnsiText(ansi), rest, word);
  }

  lemma {:induction false} LexOne(c: char, rest: string, word: Option<string>)
    requires Bare(c).Valid() && Bare(c).ApartFrom(rest)
    ensures Lex([c] + rest, word) == Lex(rest, Add(word, [c]))
  {
    var s := [c] + rest;
    assert s[1..] == rest;
    hide Lex, Until, IsSpace;
    LexTurn(s, word, Add(word, [c]), 1);
  }

  lemma {:induction false} LexHidden(crlf: bool, rest: string, word: Option<string>)
    ensures Lex(Continued(crlf).Written() + rest, word) == Lex(rest, word)
  {
    var s := Continued(crlf).Written() + rest;
    assert s[if crlf then 3 else 2..] == rest;
    hide Lex, Until, IsSpace;
    LexTurn(s, word, word, if crlf then 3 else 2);
  }

  lemma {:induction false} LexPieceOf(piece: Piece, rest: string, word: Option<string>)
    requires piece.Valid() && piece.ApartFrom(rest)
    ensures Lex(piece.Written() + rest, word) == Lex(rest, With(word, piece))
  {
    hide Lex, ValidInner, ValidAnsi, InnerWritten, AnsiWritten, InnerText, AnsiText;
    match piece
    case Bare(c) => LexOne(c, rest, word);
    case Escaped(c) => LexEscaped(c, rest, word);
    case Continued(crlf) => LexHidden(crlf, rest, word);
    case InSingle(text) => LexPiece(text, rest, word);
    case InDouble(inner) => LexDouble(inner, rest, word);
    case InAnsi(ansi) => LexAnsi(ansi, rest, word);
  }

  // ---- Lines ----

  /** What a line is made of: white space, and the pieces of words. */
  datatype Element = Space(c: char) | Part(piece: Piece)

  ghost predicate IsElement(e: Element) {
    match e
    case Space(c) => IsSpace(c)
    case Part(piece) => piece.Valid()
  }

  function ElementWritten(e: Element): string
    requires IsElement(e)
  {
    match e
    case Space(c) => [c]
    case Part(piece) => piece.Written()
  }

  ghost predicate AreElements(line: seq<Element>) {
    forall k :: 0 <= k < |line| ==> IsElement(line[k])
  }

  function LineWritten(line: seq<Element>): string
    requires AreElements(line)
  {
    if line == [] then "" else ElementWritten(line[0]) + LineWritten(line[1..])
  }

  ghost predicate IsApart(e: Element, next: string) {
    e.Part? ==> e.piece.ApartFrom(next)
  }

  /** Every element is as it can be written, and no dollar sign opens a quote. */
  ghost predicate IsLine(line: seq<Element>) {
    AreElements(line) && forall k :: 0 <= k < |line| ==> IsApart(line[k], LineWritten(line[k + 1..]))
  }

  /** The texts of the words, the one in hand being the first: each run of pieces between white space is one word. */
  function WordsIn(line: seq<Element>, word: Option<string>): seq<string>
    requires AreElements(line)
    decreases |line|
  {
    if line == [] then Finished(word)
    else
      match line[0]
      case Space(_) => Finished(word) + WordsIn(line[1..], None)
      case Part(piece) => WordsIn(line[1..], With(word, piece))
  }

  lemma {:induction false} LexBlank(c: char, rest: string, word: Option<string>)
    requires IsSpace(c)
    ensures Lex([c] + rest, word) == Before(Finished(word), Lex(rest, None))
  {
    var s := [c] + rest;
    assert s[1..] == rest;
    hide Until;
    assert Turned(s, word) == Took(1, None, Finished(word));
  }

  lemma {:induction false} LineAfterFirst(line: seq<Element>)
    requires line != [] && IsLine(line)
    ensures IsLine(line[1..]) && IsElement(line[0]) && IsApart(line[0], LineWritten(line[1..]))
    ensures LineWritten(line) == ElementWritten(line[0]) + LineWritten(line[1..])
  {
    assert AreElements(line[1..]);
    forall k | 0 <= k < |line| - 1 ensures IsApart(line[1..][k], LineWritten(line[1..][k + 1..])) {
      assert line[1..][k + 1..] == line[k + 2..];
      assert IsApart(line[k + 1], LineWritten(line[k + 2..]));
    }
  }

  /** Every line that is written in these forms is read as the texts of its words, and in no other way. */
  lemma {:induction false} LexElements(line: seq<Element>, word: Option<string>)
    requires IsLine(line)
    ensures Lex(LineWritten(line), word) == Ok(WordsIn(line, word))
    decreases |line|
  {
    if line != [] {
      LineAfterFirst(line);
      var (first, rest) := (line[0], LineWritten(line[1..]));
      hide Lex, LineWritten, IsLine, IsSpace;
      if first.Space? {
        LexBlank(first.c, rest, word);
        LexElements(line[1..], None);
      } else {
        LexPieceOf(first.piece, rest, word);
        LexElements(line[1..], With(word, first.piece));
      }
    }
  }
}
