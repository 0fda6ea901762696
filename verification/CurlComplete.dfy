/**
 * Every command says something: the words of any command are spelled by options as they are described, up to an option
 * whose value is missing at the end. So what is said of commands holds of every one.
 */
module CurlComplete {
  import opened Basics
  import opened CurlCommands
  import opened CurlHearing
  import opened CurlOptions
  import opened CurlReader
  import opened CurlSayings
  import opened ShellLexer
  import opened Text

  // ---- A saying for every value ----

  lemma {:induction false} HeaderFor(text: string) returns (s: Saying)
    ensures (s.WithHeader? || s.WithBareHeader? || s.WithBrokenHeader?) && IsSaid(s) && ValueText(s) == text
  {
    hide IndexOf;
    if IsHeaderLine(text) {
      var colon := IndexOf(text, ':');
      s := WithHeader(text[..colon], text[colon + 1..]);
      assert text == text[..colon] + ":" + text[colon + 1..];
    } else if EndsWith(text, ";") {
      s := WithBareHeader(text[..|text| - 1]);
      assert text == text[..|text| - 1] + ";";
    } else {
      s := WithBrokenHeader(text);
    }
  }

  lemma {:induction false} AfterMark(text: string, mark: char)
    requires StartsWith(text, [mark])
    ensures text == [mark] + text[1..]
  {
  }

  /** What stands before the first of two marks, the mark, and what comes after it. */
  lemma {:induction false} FirstOfTwo(text: string, a: char, b: char)
    returns (before: string, mark: char, after: string)
    requires a in text || b in text
    ensures text == before + [mark] + after && (mark == a || mark == b) && a !in before && b !in before
  {
    if text[0] == a || text[0] == b {
      before, mark, after := "", text[0], text[1..];
    } else {
      assert text == [text[0]] + text[1..];
      before, mark, after := FirstOfTwo(text[1..], a, b);
      before := [text[0]] + before;
    }
  }

  lemma {:induction false} EncodedFor(text: string) returns (s: Saying)
    ensures (s.WithEncoded? || s.WithEncodedField? || s.WithEncodedFile?) && IsSaid(s) && ValueText(s) == text
  {
    if '=' in text || '@' in text {
      var before, mark, after := FirstOfTwo(text, '=', '@');
      s := if mark == '=' then WithEncodedField(before, after) else WithEncodedFile(before, after);
    } else {
      s := WithEncoded(text);
    }
  }

  lemma {:induction false} NameFor(text: string) returns (name: string, rest: string)
    requires '=' in text
    ensures text == name + "=" + rest && '=' !in name
  {
    var before, _, after := FirstOfTwo(text, '=', '=');
    name, rest := before, after;
  }

  /** What stands before the first of the marks, and what begins with it. */
  lemma {:induction false} FileFor(text: string, marks: string) returns (file: string, more: string)
    ensures text == file + more && EndsName(more, marks) && forall c :: c in marks ==> c !in file
  {
    if text == "" || text[0] in marks {
      file, more := "", text;
      assert text == "" + text;
    } else {
      var rest;
      rest, more := FileFor(text[1..], marks);
      file := [text[0]] + rest;
      assert text == [text[0]] + text[1..];
    }
  }

  lemma {:induction false} QuotedFor(name: string, text: string) returns (s: Saying)
    requires '=' !in name && IsClosed(text)
    ensures s.WithQuotedFile? && IsSaid(s) && ValueText(s) == name + "=" + ("@\"" + text)
  {
    var chars, more :| AreChars(chars) && text == CharsWritten(chars) + "\"" + more;
    s := WithQuotedFile(name, chars, more);
    assert "@\"" + CharsWritten(chars) + "\"" + more == "@\"" + text;
  }

  lemma {:induction false} FilePartFor(name: string, text: string) returns (s: Saying)
    requires '=' !in name && (StartsWith(text, "\"") ==> !IsClosed(text[1..]))
    ensures s.WithFilePart? && IsSaid(s) && ValueText(s) == name + "=" + ("@" + text)
  {
    var file, more := FileFor(text, ";,");
    s := WithFilePart(name, file, more);
    assert ';' in ";," && ',' in ";,";
    assert "@" + file + more == "@" + text;
    assert file != "" ==> file[..1] == [file[0]] && text[..1] == [file[0]];
  }

  lemma {:induction false} ReadPartFor(name: string, text: string) returns (s: Saying)
    requires '=' !in name
    ensures s.WithReadPart? && IsSaid(s) && ValueText(s) == name + "=" + ("<" + text)
  {
    var file, more := FileFor(text, ";");
    s := WithReadPart(name, file, more);
    assert ';' in ";";
    assert "<" + file + more == "<" + text;
  }

  lemma {:induction false} TextPartFor(name: string, content: string) returns (s: Saying)
    requires '=' !in name && !StartsWith(content, "@") && !StartsWith(content, "<")
    ensures (s.WithPart? || s.WithTypedPart?) && IsSaid(s) && ValueText(s) == name + "=" + content
  {
    if HasType(content) {
      var value, kind :| content == value + ";type=" + kind && ';' !in kind;
      s := WithTypedPart(name, value, kind);
      assert value != "" ==> value[..1] == content[..1];
    } else {
      s := WithPart(name, content);
    }
  }

  predicate IsPart(s: Saying) {
    s.WithPart? || s.WithTypedPart? || s.WithFilePart? || s.WithQuotedFile? || s.WithReadPart? || s.WithBrokenPart?
  }

  lemma {:induction false} PartFor(text: string) returns (s: Saying)
    ensures IsPart(s) && IsSaid(s) && ValueText(s) == text
  {
    hide IsClosed, HasType;
    if '=' !in text {
      return WithBrokenPart(text);
    }
    var name, content := NameFor(text);
    if StartsWith(content, "@") {
      var rest := content[1..];
      AfterMark(content, '@');
      if StartsWith(rest, "\"") && IsClosed(rest[1..]) {
        AfterMark(rest, '"');
        s := QuotedFor(name, rest[1..]);
        assert "@\"" + rest[1..] == content;
      } else {
        s := FilePartFor(name, rest);
      }
    } else if StartsWith(content, "<") {
      AfterMark(content, '<');
      s := ReadPartFor(name, content[1..]);
    } else {
      s := TextPartFor(name, content);
    }
    hide ValueText, IsSaid;
  }

  lemma {:induction false} DataFor(text: string, binary: bool) returns (s: Saying)
    ensures if binary then s.WithBinary? || s.WithBinaryFile? else s.WithData? || s.WithDataFile?
    ensures IsSaid(s) && ValueText(s) == text
  {
    if StartsWith(text, "@") {
      AfterMark(text, '@');
      s := if binary then WithBinaryFile(text[1..]) else WithDataFile(text[1..]);
    } else {
      s := if binary then WithBinary(text) else WithData(text);
    }
  }

  lemma {:induction false} TextFor(text: string) returns (s: Saying)
    ensures (s.WithTextPart? || s.WithBrokenText?) && IsSaid(s) && ValueText(s) == text
  {
    if '=' in text {
      var name, value := NameFor(text);
      s := WithTextPart(name, value);
    } else {
      s := WithBrokenText(text);
    }
  }

  lemma {:induction false} UserFor(text: string) returns (s: Saying)
    ensures (s.AsUser? || s.AsUserWith?) && IsSaid(s) && ValueText(s) == text
  {
    if ':' in text {
      var before, _, after := FirstOfTwo(text, ':', ':');
      s := AsUserWith(before, after);
    } else {
      s := AsUser(text);
    }
  }

  /** A value of each kind says something of that kind. */
  lemma {:induction false} KindFor(kind: Kind, text: string) returns (s: Saying)
    ensures HasValue(s) && !s.Dropped? && IsSaid(s) && ValueText(s) == text && KindOf(s) == kind
  {
    hide IsSaid, ValueText;
    match kind
    case Verb => s := WithMethod(text); Plainly(s);
    case HeaderLine => s := HeaderFor(text);
    case Data => s := DataFor(text, false);
    case DataRaw => s := WithRawData(text); Plainly(s);
    case DataBinary => s := DataFor(text, true);
    case DataUrlencode => s := EncodedFor(text);
    case Form => s := PartFor(text);
    case FormString => s := TextFor(text);
    case User => s := UserFor(text);
    case Cookie => s := if '=' in text then WithCookies(text) else WithCookieFile(text); CookiesFor(text);
    case UserAgent => s := WithAgent(text); Plainly(s);
    case Referer => s := WithReferer(text); Plainly(s);
    case Address => s := ToAddress(text); Plainly(s);
  }

  lemma {:induction false} CookiesFor(text: string)
    ensures var s := if '=' in text then WithCookies(text) else WithCookieFile(text);
            IsSaid(s) && ValueText(s) == text
  {
  }

  lemma {:induction false} Plainly(s: Saying)
    requires s.WithMethod? || s.WithRawData? || s.WithAgent? || s.WithReferer? || s.ToAddress?
    ensures IsSaid(s) && ValueText(s) == if s.ToAddress? then s.url else s.text
  {
  }

  // ---- A saying for every option ----

  lemma {:induction false} NamedAs(name: string, s: Saying)
    requires HasValue(s) && !s.Dropped? && ValueOption(name) == Some(KindOf(s))
    ensures IsName(s, name)
  {
  }

  lemma {:induction false} TakerFor(name: string, text: string) returns (s: Saying)
    requires ValueOption(name).Some? || IsSkipped(name)
    ensures HasValue(s) && IsSaid(s) && ValueText(s) == text && IsName(s, name)
  {
    if ValueOption(name).Some? {
      hide IsSaid, ValueText, IsName, ValueOption;
      s := KindFor(ValueOption(name).value, text);
      NamedAs(name, s);
    } else {
      s := Dropped(name, text);
    }
  }

  lemma {:induction false} FlagFor(name: string) returns (s: Saying)
    requires ValueOption(name).None? && !IsSkipped(name)
    ensures !HasValue(s) && IsSaid(s) && IsName(s, name)
  {
    ReadNames(name);
    hide ValueOption, IsSkipped, IsQuiet, IsRead;
    if FlagOption(name).Some? {
      match FlagOption(name).value
      case Get => s := AsQuery;
      case Head => s := AsHead;
      case NoCertificate => s := Unchecked;
      case Compress => s := Packed;
    } else if IsQuiet(name) {
      s := Silent(name);
    } else {
      s := Strange(name);
    }
  }

  // ---- Groups for every word ----

  /** The letters from `at` on that take no value, up to one that does or to the end of the word. */
  lemma {:induction false} LettersFor(word: string, at: nat) returns (letters: seq<Lettered>)
    requires at <= |word|
    ensures AreFlags(letters) && at + |letters| <= |word|
    ensures forall k :: 0 <= k < |letters| ==> letters[k].letter == word[at + k]
    ensures var stop := at + |letters|;
            stop < |word| ==> ValueOption(['-', word[stop]]).Some? || IsSkipped(['-', word[stop]])
    decreases |word| - at
  {
    hide ValueOption, IsSkipped, IsSaid, IsName;
    letters := [];
    if at < |word| && ValueOption(['-', word[at]]).None? && !IsSkipped(['-', word[at]]) {
      var s := FlagFor(['-', word[at]]);
      var first := Lettered(word[at], s);
      var later := LettersFor(word, at + 1);
      letters := [first] + later;
    }
  }

  lemma {:induction false} LongFor(word: string, rest: seq<string>) returns (g: Group, left: seq<string>, cut: bool)
    requires StartsWith(word, "--")
    ensures cut ==> rest == [] && IsCutOff(word, word)
    ensures !cut ==> IsGroup(g) && [word] + rest == WordsOfGroup(g) + left && |left| <= |rest|
  {
    hide ValueOption, IsSkipped, IsSaid, IsName, ValueText;
    g, left, cut := Alone(""), rest, false;
    if ValueOption(word).Some? || IsSkipped(word) {
      if rest == [] {
        var s := TakerFor(word, "");
        cut := true;
      } else {
        var s := TakerFor(word, rest[0]);
        g, left := Long(word, s), rest[1..];
        assert [word] + rest == [word, rest[0]] + left;
      }
    } else {
      var s := FlagFor(word);
      g := Long(word, s);
    }
  }

  lemma {:induction false} LettersMake(word: string, letters: seq<Lettered>)
    requires |word| == 1 + |letters| && word[0] == '-'
    requires forall k :: 0 <= k < |letters| ==> letters[k].letter == word[1 + k]
    ensures "-" + LettersOf(letters) == word
  {
  }

  lemma {:induction false} EndMakes(word: string, letters: seq<Lettered>, last: Lettered)
    requires |word| > 1 + |letters| && word[0] == '-' && last.letter == word[1 + |letters|]
    requires forall k :: 0 <= k < |letters| ==> letters[k].letter == word[1 + k]
    ensures EndedWord(letters, last, word[2 + |letters|..]) == word
    ensures (letters + [last])[0].letter == word[1]
  {
  }

  /** The group of a word of letters whose last takes a value that stands in the word or after it. */
  lemma {:induction false} EndFor(word: string, letters: seq<Lettered>, rest: seq<string>)
    returns (g: Group, left: seq<string>)
    requires |word| > 1 + |letters| && word[0] == '-' && word[1] != '-' && AreFlags(letters)
    requires forall k :: 0 <= k < |letters| ==> letters[k].letter == word[1 + k]
    requires var name := ['-', word[1 + |letters|]]; ValueOption(name).Some? || IsSkipped(name)
    requires |word| > 2 + |letters| || rest != []
    ensures IsGroup(g) && [word] + rest == WordsOfGroup(g) + left && |left| <= |rest|
  {
    hide ValueOption, IsSkipped, IsSaid, IsName, ValueText, AreFlags, LettersOf;
    var at := 1 + |letters|;
    var tail := word[at + 1..];
    var value := if tail != "" then tail else rest[0];
    var s := TakerFor(['-', word[at]], value);
    var last := Lettered(word[at], s);
    EndMakes(word, letters, last);
    g, left := Ended(letters, last, tail != ""), if tail != "" then rest else rest[1..];
    assert IsGroup(g);
    assert "-" + LettersOf(letters) + [last.letter] + "" == "-" + LettersOf(letters) + [last.letter];
    assert [word] + rest == (if tail != "" then [word] else [word, value]) + left;
  }

  lemma {:induction false} CutFor(word: string, letters: seq<Lettered>) returns (name: string)
    requires |word| == 2 + |letters| && word[0] == '-' && word[1] != '-' && AreFlags(letters)
    requires forall k :: 0 <= k < |letters| ==> letters[k].letter == word[1 + k]
    requires var name := ['-', word[1 + |letters|]]; ValueOption(name).Some? || IsSkipped(name)
    ensures IsCutOff(word, name)
  {
    hide ValueOption, IsSkipped, IsSaid, IsName, ValueText, AreFlags, EndedWord;
    name := ['-', word[1 + |letters|]];
    var s := TakerFor(name, "");
    var last := Lettered(word[1 + |letters|], s);
    EndMakes(word, letters, last);
    assert word[2 + |letters|..] == "";
  }

  lemma {:induction false} ShortFor(word: string, rest: seq<string>)
    returns (g: Group, left: seq<string>, cut: bool, name: string)
    requires |word| > 1 && word[0] == '-' && word[1] != '-'
    ensures cut ==> rest == [] && IsCutOff(word, name)
    ensures !cut ==> IsGroup(g) && [word] + rest == WordsOfGroup(g) + left && |left| <= |rest|
  {
    g, left, cut, name := Alone(""), rest, false, "";
    var letters := LettersFor(word, 1);
    hide ValueOption, IsSkipped, AreFlags, LettersOf, IsCutOff;
    if 1 + |letters| == |word| {
      g := Lettering(letters);
      LettersMake(word, letters);
    } else if |word| == 2 + |letters| && rest == [] {
      cut := true;
      name := CutFor(word, letters);
    } else {
      g, left := EndFor(word, letters, rest);
      hide WordsOfGroup, IsGroup;
    }
  }

  lemma {:induction false} GroupFor(word: string, rest: seq<string>)
    returns (g: Group, left: seq<string>, cut: bool, name: string)
    ensures cut ==> rest == [] && IsCutOff(word, name)
    ensures !cut ==> IsGroup(g) && [word] + rest == WordsOfGroup(g) + left && |left| <= |rest|
  {
    if word == "-" || !StartsWith(word, "-") {
      g, left, cut, name := Alone(word), rest, false, "";
    } else {
      hide WordsOfGroup, IsGroup, IsCutOff;
      assert word[..1] == [word[0]];
      if word[1] == '-' {
        assert word[..2] == ['-', '-'];
        g, left, cut := LongFor(word, rest);
        name := word;
      } else {
        g, left, cut, name := ShortFor(word, rest);
      }
    }
  }

  /** Any words are spelled by groups, up to a last word that is cut off. */
  lemma {:induction false} GroupsFor(words: seq<string>)
    returns (groups: seq<Group>, cut: bool, word: string, name: string)
    ensures AreGroups(groups)
    ensures words == WordsOfAll(groups) + if cut then [word] else []
    ensures cut ==> IsCutOff(word, name)
    decreases |words|
  {
    groups, cut, word, name := [], false, "", "";
    if words != [] {
      hide WordsOfGroup, IsGroup, IsCutOff;
      var g, left;
      assert words == [words[0]] + words[1..];
      g, left, cut, name := GroupFor(words[0], words[1..]);
      if cut {
        word := words[0];
      } else {
        var later;
        later, cut, word, name := GroupsFor(left);
        groups := [g] + later;
        assert groups[1..] == later;
      }
    }
  }

  /** What the text says is what is read, or the text ends in an option whose value is missing. */
  ghost predicate IsAccounted(text: string) {
    || (exists groups :: AreGroups(groups) && HasWords(text, WordsOfAll(groups)) &&
          IsOutcome(SaidByAll(groups), Reads(text)))
    || (exists groups, word, name :: AreGroups(groups) && HasWords(text, WordsOfAll(groups) + [word]) &&
          IsCutOff(word, name) && Reads(text) == Err(NeedsValue(name)))
  }

  /** Every cURL command that a shell can read is read as what it says, whatever its words are. */
  lemma {:induction false} EveryCommandIsRead(text: string)
    requires IsCurlCommand(text) && WordsOf(text).Ok?
    ensures IsAccounted(text)
  {
    var words := WordsOf(text).value;
    hide IsCurlCommand, WordsOf, Reads, IsOutcome, IsCutOff, WordsOfAll, SaidByAll, AreGroups;
    var rest := if words == [] then [] else words[1..];
    assert HasWords(text, rest) by {
      assert words != [] ==> words == [words[0]] + rest;
    }
    var groups, cut, word, name := GroupsFor(rest);
    hide HasWords;
    if cut {
      CutOffIsNotRead(text, groups, word, name);
    } else {
      assert WordsOfAll(groups) + [] == WordsOfAll(groups);
      CommandIsRead(text, groups, Reads(text));
    }
  }
}
