/** The lexer inverts the quoter: whatever the texts hold, bash's words of a line of quoted texts are those texts. */
module ShellRoundTrip {
  import opened Basics
  import opened CurlWriter
  import opened ShellLexer
  import opened Text

  /** Characters that are themselves to a shell outside quotes. */
  predicate IsBare(c: char) {
    IsLetter(c) || c == '-'
  }

  predicate IsBareWord(s: string) {
    forall i :: 0 <= i < |s| ==> IsBare(s[i])
  }

  /** One argument of a command: an option in front of it or none, and its text, in quotes or bare. */
  datatype Argument = Argument(option: string, text: string, quoted: bool)
  {
    predicate Valid() {
      IsBareWord(option) && (!quoted ==> text != "" && IsBareWord(text))
    }

    function Written(): string {
      (if option != "" then option + " " else "") + if quoted then ShellQuote(text) else text
    }

    function OptionWords(): seq<string> {
      if option != "" then [option] else []
    }

    function Words(): seq<string> {
      OptionWords() + [text]
    }
  }

  /** A line of arguments, each parted from the next by a space or by `buildCurl`'s backslash and line break. */
  function Line(arguments: seq<Argument>, breaks: seq<bool>): string
    requires |breaks| == |arguments|
  {
    if arguments == [] then ""
    else if |arguments| == 1 then arguments[0].Written()
    else arguments[0].Written() + Mark(breaks[0]) + Line(arguments[1..], breaks[1..])
  }

  function AllWords(arguments: seq<Argument>): seq<string> {
    if arguments == [] then [] else arguments[0].Words() + AllWords(arguments[1..])
  }

  lemma {:induction false} EscapeConcat(a: string, b: string)
    ensures EscapeQuotes(a + b) == EscapeQuotes(a) + EscapeQuotes(b)
  {
    if a == "" {
      assert a + b == b;
    } else {
      assert (a + b)[1..] == a[1..] + b;
      EscapeConcat(a[1..], b);
    }
  }

  lemma {:induction false} EscapeNothing(a: string)
    requires '\'' !in a
    ensures EscapeQuotes(a) == a
  {
    if a != "" {
      EscapeNothing(a[1..]);
    }
  }

  /** A piece in single quotes that holds none. */
  lemma {:induction false} LexPiece(a: string, rest: string, word: Option<string>)
    requires '\'' !in a
    ensures Lex("'" + a + "'" + rest, word) == Lex(rest, Add(word, a))
  {
    var s := "'" + a + "'" + rest;
    assert s[1..] == a + ['\''] + rest;
    FirstIndex(a, '\'', rest);
    assert s[1..][..|a|] == a;
    assert s[|a| + 2..] == rest;
    BeforeBefore([], [], Lex(rest, Add(word, a)));
  }

  lemma {:induction false} LexEscaped(c: char, rest: string, word: Option<string>)
    requires c != '\n' && c != '\r'
    ensures Lex(['\\', c] + rest, word) == Lex(rest, Add(word, [c]))
  {
    assert (['\\', c] + rest)[2..] == rest;
    BeforeBefore([], [], Lex(rest, Add(word, [c])));
  }

  lemma {:induction false} Regroup(q: string, a: string, m: string, b: string)
    ensures q + (a + (q + m + q) + b) + q == q + a + q + m + (q + b + q)
  {
  }

  lemma {:induction false} QuoteSplits(a: string, b: string)
    requires '\'' !in a
    ensures ShellQuote(a + "'" + b) == "'" + a + "'" + ['\\', '\''] + ShellQuote(b)
  {
    assert EscapeQuotes("'") == "'" + ['\\', '\''] + "'";
    hide EscapeQuotes;
    EscapeConcat(a + "'", b);
    EscapeConcat(a, "'");
    EscapeNothing(a);
    Regroup("'", a, ['\\', '\''], EscapeQuotes(b));
  }

  lemma {:induction false} AddTwice(word: Option<string>, a: string, b: string)
    ensures Add(Add(word, a), b) == Add(word, a + b)
  {
    assert word.Or("") + a + b == word.Or("") + (a + b);
  }

  /** A quoted text adds exactly that text to the word it stands in. */
  lemma {:induction false} LexQuoted(text: string, rest: string, word: Option<string>)
    ensures Lex(ShellQuote(text) + rest, word) == Lex(rest, Add(word, text))
    decreases |text|
  {
    var at := IndexOf(text, '\'');
    if at == -1 {
      EscapeNothing(text);
      LexPiece(text, rest, word);
    } else {
      var (a, b) := (text[..at], text[at + 1..]);
      assert text == a + "'" + b;
      QuoteSplits(a, b);
      var (inner, quote) := (ShellQuote(b) + rest, ['\\', '\'']);
      assert ShellQuote(text) + rest == "'" + a + "'" + (quote + inner);
      LexPiece(a, quote + inner, word);
      LexEscaped('\'', inner, Add(word, a));
      AddTwice(word, a, "'");
      LexQuoted(b, rest, Add(word, a + "'"));
      AddTwice(word, a + "'", b);
    }
  }

  lemma {:induction false} LexBareChar(c: char, rest: string, word: Option<string>)
    requires IsBare(c)
    ensures Lex([c] + rest, word) == Lex(rest, Add(word, [c]))
  {
    assert ([c] + rest)[1..] == rest;
    BeforeBefore([], [], Lex(rest, Add(word, [c])));
  }

  lemma {:induction false} LexBare(text: string, rest: string, word: Option<string>)
    requires IsBareWord(text)
    ensures Lex(text + rest, word) == if text == "" then Lex(rest, word) else Lex(rest, Add(word, text))
  {
    if text == "" {
      assert text + rest == rest;
    } else {
      var (c, tail) := (text[0], text[1..]);
      assert text == [c] + tail && text + rest == [c] + (tail + rest);
      LexBareChar(c, tail + rest, word);
      LexBare(tail, rest, Add(word, [c]));
      AddTwice(word, [c], tail);
    }
  }

  lemma {:induction false} LexSpace(rest: string, word: Option<string>)
    ensures Lex(" " + rest, word) == Before(Finished(word), Lex(rest, None))
  {
    assert (" " + rest)[1..] == rest;
  }

  lemma {:induction false} LexContinued(rest: string)
    ensures Lex("\\\n" + rest, None) == Lex(rest, None)
  {
    assert ("\\\n" + rest)[2..] == rest;
    BeforeBefore([], [], Lex(rest, None));
  }

  lemma {:induction false} LexLineBreak(rest: string, word: string)
    ensures Lex(LineBreak + rest, Some(word)) == Before([word], Lex(rest, None))
  {
    hide Lex;
    var two := " " + (" " + rest);
    assert LineBreak + rest == " " + ("\\\n" + two);
    LexSpace("\\\n" + two, Some(word));
    LexContinued(two);
    LexSpace(" " + rest, None);
    LexSpace(rest, None);
    BeforeBefore([], [], Lex(" " + rest, None));
    BeforeBefore([], [], Lex(rest, None));
  }

  lemma {:induction false} LexArgument(argument: Argument, rest: string)
    requires argument.Valid()
    ensures Lex(argument.Written() + rest, None)
         == Before(argument.OptionWords(), Lex(rest, Some(argument.text)))
  {
    hide Lex, ShellQuote, IsBareWord;
    var Argument(option, text, quoted) := argument;
    var value := if quoted then ShellQuote(text) else text;
    assert Lex(value + rest, None) == Lex(rest, Some(text)) by {
      if quoted {
        LexQuoted(text, rest, None);
      } else {
        LexBare(text, rest, None);
      }
      assert "" + text == text;
    }
    if option == "" {
      assert "" + value == value;
      BeforeBefore([], [], Lex(rest, Some(text)));
    } else {
      assert (option + " " + value) + rest == option + (" " + (value + rest));
      LexBare(option, " " + (value + rest), None);
      assert "" + option == option;
      LexSpace(value + rest, Some(option));
    }
  }

  lemma {:induction false} LexLast(argument: Argument)
    requires argument.Valid()
    ensures Lex(argument.Written(), None) == Ok(argument.Words())
  {
    LexArgument(argument, "");
    assert argument.Written() + "" == argument.Written();
  }

  function Mark(lineBreak: bool): string {
    if lineBreak then LineBreak else " "
  }

  lemma {:induction false} LexMark(lineBreak: bool, rest: string, word: string, words: seq<string>)
    requires Lex(rest, None) == Ok(words)
    ensures Lex(Mark(lineBreak) + rest, Some(word)) == Ok([word] + words)
  {
    if lineBreak {
      LexLineBreak(rest, word);
    } else {
      LexSpace(rest, Some(word));
    }
  }

  lemma {:induction false} LexFirst(argument: Argument, tail: string, words: seq<string>)
    requires argument.Valid()
    requires Lex(tail, Some(argument.text)) == Ok([argument.text] + words)
    ensures Lex(argument.Written() + tail, None) == Ok(argument.Words() + words)
  {
    hide Lex;
    LexArgument(argument, tail);
    assert argument.OptionWords() + ([argument.text] + words) == argument.Words() + words;
  }

  /** Every line of arguments is read as its words, whatever the arguments hold and however they are parted. */
  lemma {:induction false} LexLine(arguments: seq<Argument>, breaks: seq<bool>)
    requires |breaks| == |arguments|
    requires forall k :: 0 <= k < |arguments| ==> arguments[k].Valid()
    ensures Lex(Line(arguments, breaks), None) == Ok(AllWords(arguments))
  {
    assert Lex("", None) == Ok([]);
    hide Lex;
    if arguments != [] {
      if |arguments| == 1 {
        LexLast(arguments[0]);
        assert AllWords(arguments[1..]) == [];
        assert arguments[0].Words() + [] == arguments[0].Words();
      } else {
        LexLine(arguments[1..], breaks[1..]);
        var (rest, words) := (Line(arguments[1..], breaks[1..]), AllWords(arguments[1..]));
        LexMark(breaks[0], rest, arguments[0].text, words);
        LexFirst(arguments[0], Mark(breaks[0]) + rest, words);
        assert Line(arguments, breaks) == arguments[0].Written() + (Mark(breaks[0]) + rest);
      }
    }
  }

  function QuotedTexts(texts: seq<string>): (arguments: seq<Argument>)
    ensures |arguments| == |texts|
    ensures forall k :: 0 <= k < |texts| ==> arguments[k] == Argument("", texts[k], true)
  {
    seq(|texts|, k requires 0 <= k < |texts| => Argument("", texts[k], true))
  }

  lemma {:induction false} WordsOfTexts(texts: seq<string>)
    ensures AllWords(QuotedTexts(texts)) == texts
  {
    if texts != [] {
      assert QuotedTexts(texts)[1..] == QuotedTexts(texts[1..]);
      WordsOfTexts(texts[1..]);
    }
  }

  /** The words of quoted texts are the texts: empty ones, and ones of quotes, backslashes and line breaks, included. */
  lemma {:induction false} LexerInvertsQuoter(texts: seq<string>, breaks: seq<bool>)
    requires |breaks| == |texts|
    ensures Lex(Line(QuotedTexts(texts), breaks), None) == Ok(texts)
    ensures WordsOf(Line(QuotedTexts(texts), breaks)) == Ok(texts)
  {
    LexLine(QuotedTexts(texts), breaks);
    WordsOfTexts(texts);
    if texts == [] {
      assert !HasCmdEscape("");
    } else {
      QuoteInLine(QuotedTexts(texts), breaks, 0);
    }
  }

  /** A line with a quoted argument is not one cmd wrote. */
  lemma {:induction false} QuoteInLine(arguments: seq<Argument>, breaks: seq<bool>, k: nat)
    requires |breaks| == |arguments| && k < |arguments| && arguments[k].quoted
    ensures '\'' in Line(arguments, breaks) && !IsCmd(Line(arguments, breaks))
  {
    if k == 0 {
      var written := arguments[0].Written();
      assert written[|written| - 1] == '\'';
      assert Line(arguments, breaks)[|written| - 1] == '\'';
    } else {
      QuoteInLine(arguments[1..], breaks[1..], k - 1);
    }
  }

  lemma {:induction false} LineIsJoin(arguments: seq<Argument>, breaks: seq<bool>, texts: seq<string>)
    requires |breaks| == |arguments| == |texts|
    requires forall k :: 0 <= k < |arguments| ==> breaks[k] && texts[k] == arguments[k].Written()
    ensures Line(arguments, breaks) == Join(texts, LineBreak)
  {
    if |arguments| > 1 {
      LineIsJoin(arguments[1..], breaks[1..], texts[1..]);
    }
  }
}
