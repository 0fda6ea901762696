/**
 * The reader of cURL commands hears what is said: whatever options a command is written with, in whatever order, apart
 * or together in one word, it is read as what its options say.
 */
module CurlOptions {
  import opened Basics
  import opened CurlHearing
  import opened CurlReader
  import opened CurlSayings
  import opened Text

  // ---- The names of the options ----

  /** The options that are read, and no others, are in one of the reader's two tables. */
  lemma {:induction false} ReadNames(name: string)
    ensures IsRead(name) <==> ValueOption(name).Some? || FlagOption(name).Some?
  {
  }

  function FlagOf(s: Saying): Flag
    requires s.AsQuery? || s.AsHead? || s.Unchecked? || s.Packed?
  {
    match s
    case AsQuery => Get
    case AsHead => Head
    case Unchecked => NoCertificate
    case Packed => Compress
  }

  lemma {:induction false} ValueNames(s: Saying, name: string)
    requires IsName(s, name) && HasValue(s) && !s.Dropped?
    ensures ValueOption(name) == Some(KindOf(s))
  {
  }

  lemma {:induction false} FlagNames(s: Saying, name: string)
    requires IsName(s, name) && (s.AsQuery? || s.AsHead? || s.Unchecked? || s.Packed?)
    ensures ValueOption(name).None? && FlagOption(name) == Some(FlagOf(s))
  {
    hide IsSkipped, IsQuiet, IsRead;
    match s
    case AsQuery =>
    case AsHead =>
    case Unchecked =>
    case Packed =>
  }

  lemma {:induction false} Letters(name: string)
    ensures |name| > 1 ==> name[1] == name[..2][1]
    ensures |name| > 2 ==> name[2] == name[..3][2]
    ensures |name| > 3 ==> name[3] == name[..4][3]
  {
  }

  /** No option is in two of the tables: what is read is not dropped, and what is quiet is neither. */
  lemma {:induction false} SkippedNames(name: string)
    requires IsSkipped(name)
    ensures !IsRead(name)
  {
    Letters(name);
  }

  lemma {:induction false} QuietNames(name: string)
    requires IsQuiet(name)
    ensures !IsRead(name)
  {
    Letters(name);
  }

  lemma {:induction false} QuietAreKept(name: string)
    requires IsQuiet(name)
    ensures !IsSkipped(name)
  {
    Letters(name);
  }

  // ---- Words ----

  /** A letter of a word of short options, and what is said with it. */
  datatype Lettered = Lettered(letter: char, s: Saying)

  /**
   * What stands in one word or, with its value, in two: an address, a long option, or the letters of short options, the
   * last of which may have a value, behind it in the word or in the next one.
   */
  datatype Group =
    | Alone(url: string)
    | Long(name: string, s: Saying)
    | Lettering(letters: seq<Lettered>)
    | Ended(letters: seq<Lettered>, last: Lettered, joined: bool)

  ghost predicate IsLettered(l: Lettered) {
    IsSaid(l.s) && IsName(l.s, ['-', l.letter])
  }

  ghost predicate AreFlags(letters: seq<Lettered>) {
    forall k :: 0 <= k < |letters| ==> IsLettered(letters[k]) && !HasValue(letters[k].s)
  }

  ghost predicate IsGroup(g: Group) {
    match g
    case Alone(url) => url == "-" || !StartsWith(url, "-")
    case Long(name, s) => StartsWith(name, "--") && IsName(s, name) && IsSaid(s)
    case Lettering(letters) => letters != [] && letters[0].letter != '-' && AreFlags(letters)
    case Ended(letters, last, joined) =>
      && AreFlags(letters) && (letters + [last])[0].letter != '-'
      && IsLettered(last) && HasValue(last.s) && (joined ==> ValueText(last.s) != "")
  }

  function LettersOf(letters: seq<Lettered>): string {
    seq(|letters|, k requires 0 <= k < |letters| => letters[k].letter)
  }

  function WordsOfGroup(g: Group): seq<string>
    requires IsGroup(g)
  {
    match g
    case Alone(url) => [url]
    case Long(name, s) => if HasValue(s) then [name, ValueText(s)] else [name]
    case Lettering(letters) => ["-" + LettersOf(letters)]
    case Ended(letters, last, joined) =>
      var word := "-" + LettersOf(letters) + [last.letter];
      if joined then [word + ValueText(last.s)] else [word, ValueText(last.s)]
  }

  function SayingsOf(letters: seq<Lettered>): seq<Saying> {
    seq(|letters|, k requires 0 <= k < |letters| => letters[k].s)
  }

  function SaidBy(g: Group): seq<Saying> {
    match g
    case Alone(url) => [ToAddress(url)]
    case Long(_, s) => [s]
    case Lettering(letters) => SayingsOf(letters)
    case Ended(letters, last, _) => SayingsOf(letters) + [last.s]
  }

  /** All that is said, heard in order. */
  function HeardAll(st: Reading, all: seq<Saying>): Reading
    decreases |all|
  {
    if all == [] then st else HeardAll(Heard(st, all[0]), all[1..])
  }

  lemma {:induction false} HeardMore(st: Reading, a: seq<Saying>, b: seq<Saying>)
    ensures HeardAll(st, a + b) == HeardAll(HeardAll(st, a), b)
    decreases |a|
  {
    hide Heard;
    if a == [] {
      assert a + b == b;
    } else {
      assert (a + b)[1..] == a[1..] + b;
      HeardMore(Heard(st, a[0]), a[1..], b);
    }
  }

  lemma {:induction false} HeardOne(st: Reading, s: Saying)
    ensures HeardAll(st, [s]) == Heard(st, s)
  {
    hide Heard;
    assert [s][1..] == [];
  }

  lemma {:induction false} HearFlag(s: Saying, st: Reading)
    requires s.AsQuery? || s.AsHead? || s.Unchecked? || s.Packed?
    ensures TakeFlag(FlagOf(s), st) == Heard(st, s)
  {
    Unchanged(st);
  }

  lemma {:induction false} HearRest(s: Saying, st: Reading)
    requires s.Dropped? || s.Strange? || s.Silent?
    ensures s.Dropped? ==> st.Warn(OptionWithValue(s.option, s.text)) == Heard(st, s)
    ensures s.Strange? ==> st.Warn(UnknownOption(s.option)) == Heard(st, s)
    ensures s.Silent? ==> st == Heard(st, s)
  {
    Unchanged(st);
  }

  /** What the tables make of a name. */
  predicate IsFiled(s: Saying, name: string) {
    if HasValue(s) && !s.Dropped? then ValueOption(name) == Some(KindOf(s))
    else
      && ValueOption(name).None?
      && (if s.Dropped? then FlagOption(name).None? && IsSkipped(name) && s.option == name
          else if s.Strange? then FlagOption(name).None? && !IsSkipped(name) && !IsQuiet(name) && s.option == name
          else if s.Silent? then FlagOption(name).None? && !IsSkipped(name) && IsQuiet(name)
          else FlagOption(name) == Some(FlagOf(s)) && !IsSkipped(name))
  }

  lemma {:induction false} ReadAreKept(name: string)
    requires IsRead(name)
    ensures !IsSkipped(name) && !IsQuiet(name)
  {
    if IsSkipped(name) {
      SkippedNames(name);
    }
    if IsQuiet(name) {
      QuietNames(name);
    }
  }

  lemma {:induction false} NamesAreFiled(s: Saying, name: string)
    requires IsName(s, name)
    ensures IsFiled(s, name)
  {
    hide ValueOption, FlagOption, IsSkipped, IsQuiet, IsRead;
    ReadNames(name);
    if s.Dropped? || s.Silent? || s.Strange? {
      RestAreFiled(s, name);
    } else {
      if HasValue(s) {
        ValueNames(s, name);
      } else {
        FlagNames(s, name);
        ReadAreKept(name);
      }
      hide IsName;
    }
  }

  lemma {:induction false} RestNames(s: Saying, name: string)
    requires IsName(s, name) && (s.Dropped? || s.Silent? || s.Strange?)
    ensures s.option == name
    ensures s.Dropped? ==> IsSkipped(name)
    ensures s.Silent? ==> IsQuiet(name)
    ensures s.Strange? ==> !IsRead(name) && !IsSkipped(name) && !IsQuiet(name)
  {
    hide IsSkipped, IsQuiet, IsRead;
  }

  lemma {:induction false} RestAreFiled(s: Saying, name: string)
    requires IsName(s, name) && (s.Dropped? || s.Silent? || s.Strange?)
    ensures IsFiled(s, name)
  {
    hide ValueOption, FlagOption, IsSkipped, IsQuiet, IsRead, IsName;
    RestNames(s, name);
    ReadNames(name);
    match s
    case Dropped(_, _) =>
      SkippedNames(name);
    case Silent(_) =>
      QuietNames(name);
      QuietAreKept(name);
    case Strange(_) =>
  }

  lemma {:induction false} LongTakes(name: string, s: Saying, rest: seq<string>, st: Reading)
    requires IsFiled(s, name) && HasValue(s) && IsSaid(s)
    ensures LongOption(name, [ValueText(s)] + rest, st) == Ok((Heard(st, s), rest))
  {
    var after := [ValueText(s)] + rest;
    assert after[0] == ValueText(s) && after[1..] == rest;
    if s.Dropped? {
      HearRest(s, st);
      hide Heard, Take, TakeFlag, ValueOption, FlagOption, IsSkipped, IsQuiet, IsSaid;
    } else {
      TakeIsHeard(s, st);
      hide Heard, Take, TakeFlag, ValueOption, FlagOption, IsSkipped, IsQuiet, IsSaid, ValueText;
    }
  }

  /** What an option without a value comes to. */
  function Noted(name: string, st: Reading): Reading {
    if FlagOption(name).Some? then TakeFlag(FlagOption(name).value, st)
    else if !IsQuiet(name) then st.Warn(UnknownOption(name))
    else st
  }

  lemma {:induction false} NotedIsHeard(name: string, s: Saying, st: Reading)
    requires IsName(s, name) && !HasValue(s)
    ensures ValueOption(name).None? && !IsSkipped(name) && Noted(name, st) == Heard(st, s)
  {
    NamesAreFiled(s, name);
    hide Heard, TakeFlag, ValueOption, FlagOption, IsSkipped, IsQuiet;
    if s.Strange? || s.Silent? {
      HearRest(s, st);
      hide IsName;
    } else {
      HearFlag(s, st);
      hide IsName;
    }
  }

  lemma {:induction false} IsLongWord(name: string, rest: seq<string>, st: Reading)
    requires StartsWith(name, "--")
    ensures ReadWord(name, rest, st) == LongOption(name, rest, st)
  {
    assert name[..1] == name[..2][..1] && name != "-";
    hide LongOption, ShortOptions;
  }

  lemma {:induction false} HearLong(name: string, s: Saying, rest: seq<string>, st: Reading)
    requires IsGroup(Long(name, s))
    ensures ReadWord(name, (if HasValue(s) then [ValueText(s)] else []) + rest, st) == Ok((Heard(st, s), rest))
  {
    hide LongOption, Heard, IsSaid, IsName, ValueText, IsFiled;
    if HasValue(s) {
      IsLongWord(name, [ValueText(s)] + rest, st);
      NamesAreFiled(s, name);
      LongTakes(name, s, rest, st);
    } else {
      assert [] + rest == rest;
      IsLongWord(name, rest, st);
      LongNotes(name, s, rest, st);
    }
  }

  lemma {:induction false} LongNotes(name: string, s: Saying, rest: seq<string>, st: Reading)
    requires IsName(s, name) && !HasValue(s)
    ensures LongOption(name, rest, st) == Ok((Heard(st, s), rest))
  {
    hide Heard, TakeFlag, ValueOption, FlagOption, IsSkipped, IsQuiet, IsName;
    NotedIsHeard(name, s, st);
  }

  // ---- The letters of short options ----

  lemma {:induction false} HearLetter(word: string, at: nat, l: Lettered, rest: seq<string>, st: Reading)
    requires at < |word| && word[at] == l.letter && IsLettered(l) && !HasValue(l.s)
    ensures ShortOptions(word, at, rest, st) == ShortOptions(word, at + 1, rest, Heard(st, l.s))
  {
    NotedIsHeard(['-', l.letter], l.s, st);
    hide Heard, Take, TakeFlag, ValueOption, FlagOption, IsSkipped, IsQuiet, IsSaid, IsName;
  }

  /** Letters that stand from `at` on. */
  lemma {:induction false} HearLetters(
    word: string, at: nat, letters: seq<Lettered>, rest: seq<string>, st: Reading)
    requires at + |letters| <= |word| && AreFlags(letters)
    requires forall k :: 0 <= k < |letters| ==> word[at + k] == letters[k].letter
    ensures ShortOptions(word, at, rest, st)
         == ShortOptions(word, at + |letters|, rest, HeardAll(st, SayingsOf(letters)))
    decreases |letters|
  {
    hide ShortOptions, Heard, IsLettered;
    if letters != [] {
      var later := letters[1..];
      HearLetter(word, at, letters[0], rest, st);
      HearLetters(word, at + 1, later, rest, Heard(st, letters[0].s));
      assert SayingsOf(letters)[1..] == SayingsOf(later);
    }
  }

  /** The letter that takes a value: what is behind it in the word, or else the next word. */
  lemma {:induction false} HearLast(word: string, at: nat, l: Lettered, rest: seq<string>, st: Reading)
    requires at < |word| && word[at] == l.letter && IsLettered(l) && HasValue(l.s)
    ensures word[at + 1..] == ValueText(l.s) && ValueText(l.s) != "" ==>
              ShortOptions(word, at, rest, st) == Ok((Heard(st, l.s), rest))
    ensures word[at + 1..] == "" ==> ShortOptions(word, at, [ValueText(l.s)] + rest, st) == Ok((Heard(st, l.s), rest))
  {
    var name := ['-', l.letter];
    NamesAreFiled(l.s, name);
    assert ([ValueText(l.s)] + rest)[1..] == rest;
    if l.s.Dropped? {
      HearRest(l.s, st);
      hide Heard, Take, TakeFlag, ValueOption, FlagOption, IsSkipped, IsQuiet, IsSaid, IsName;
    } else {
      TakeIsHeard(l.s, st);
      hide Heard, Take, TakeFlag, ValueOption, FlagOption, IsSkipped, IsQuiet, IsSaid, IsName, ValueText;
    }
  }

  // ---- Groups of words ----

  lemma {:induction false} ReadStep(words: seq<string>, rest: seq<string>, st: Reading, next: Reading)
    requires words != [] && ReadWord(words[0], words[1..], st) == Ok((next, rest))
    ensures ReadWords(words, st) == ReadWords(rest, next)
  {
    hide ReadWord;
  }

  lemma {:induction false} ReadAlone(url: string, rest: seq<string>, st: Reading)
    requires IsGroup(Alone(url))
    ensures ReadWords([url] + rest, st) == ReadWords(rest, Heard(st, ToAddress(url)))
  {
    var words := [url] + rest;
    assert words[1..] == rest;
    Unchanged(st);
    hide LongOption, ShortOptions, ReadWords;
    assert ReadWord(url, rest, st) == Ok((st.(urls := st.urls + [url]), rest));
    hide ReadWord;
    ReadStep(words, rest, st, Heard(st, ToAddress(url)));
  }

  lemma {:induction false} ReadAfter(
    word: string, value: seq<string>, rest: seq<string>, st: Reading, next: Reading)
    requires ReadWord(word, value + rest, st) == Ok((next, rest))
    ensures ReadWords([word] + value + rest, st) == ReadWords(rest, next)
  {
    hide ReadWord, ReadWords;
    var words := [word] + value + rest;
    assert words[1..] == value + rest;
    ReadStep(words, rest, st, next);
  }

  lemma {:induction false} LongWords(name: string, s: Saying)
    requires IsGroup(Long(name, s))
    ensures WordsOfGroup(Long(name, s)) == [name] + if HasValue(s) then [ValueText(s)] else []
  {
    hide ValueText, IsSaid, IsName;
  }

  lemma {:induction false} ReadLong(name: string, s: Saying, rest: seq<string>, st: Reading)
    requires IsGroup(Long(name, s))
    ensures ReadWords(WordsOfGroup(Long(name, s)) + rest, st) == ReadWords(rest, Heard(st, s))
  {
    var value := if HasValue(s) then [ValueText(s)] else [];
    LongWords(name, s);
    HearLong(name, s, rest, st);
    hide IsGroup, WordsOfGroup, ReadWord, ReadWords, Heard, ValueText, HasValue;
    ReadAfter(name, value, rest, st, Heard(st, s));
  }

  lemma {:induction false} IsShortWord(word: string, rest: seq<string>, st: Reading)
    requires |word| > 1 && word[0] == '-' && word[1] != '-'
    ensures ReadWord(word, rest, st) == ShortOptions(word, 1, rest, st)
  {
    assert word[..1] == "-" && word[..2][1] == word[1];
    hide LongOption, ShortOptions;
  }

  lemma {:induction false} ReadLettering(letters: seq<Lettered>, rest: seq<string>, st: Reading)
    requires IsGroup(Lettering(letters))
    ensures ReadWords(["-" + LettersOf(letters)] + rest, st) == ReadWords(rest, HeardAll(st, SayingsOf(letters)))
  {
    var word := "-" + LettersOf(letters);
    var words := [word] + rest;
    assert words[1..] == rest;
    hide IsLettered, ReadWords, HeardAll;
    HearLetters(word, 1, letters, rest, st);
    IsShortWord(word, rest, st);
    assert ShortOptions(word, |word|, rest, HeardAll(st, SayingsOf(letters)))
        == Ok((HeardAll(st, SayingsOf(letters)), rest));
    hide ShortOptions, ReadWord;
    ReadStep(words, rest, st, HeardAll(st, SayingsOf(letters)));
  }

  /** The word that ends in the letter of an option with a value, and the value when it is joined. */
  function EndedWord(letters: seq<Lettered>, last: Lettered, value: string): string {
    "-" + LettersOf(letters) + [last.letter] + value
  }

  lemma {:induction false} EndedWordIs(letters: seq<Lettered>, last: Lettered, value: string)
    requires (letters + [last])[0].letter != '-'
    ensures var (word, at) := (EndedWord(letters, last, value), 1 + |letters|);
            && at < |word| && word[0] == '-' && word[1] != '-'
            && (forall k :: 0 <= k < |letters| ==> word[1 + k] == letters[k].letter)
            && word[at] == last.letter && word[at + 1..] == value
  {
  }

  lemma {:induction false} HearEnded(
    letters: seq<Lettered>, last: Lettered, joined: bool, rest: seq<string>, st: Reading)
    requires IsGroup(Ended(letters, last, joined))
    ensures ReadWord(EndedWord(letters, last, if joined then ValueText(last.s) else ""),
                     (if joined then [] else [ValueText(last.s)]) + rest, st)
         == Ok((Heard(HeardAll(st, SayingsOf(letters)), last.s), rest))
  {
    hide IsLettered, HeardAll, ValueText, ShortOptions, Heard, ReadWord, EndedWord;
    var value := ValueText(last.s);
    var word := EndedWord(letters, last, if joined then value else "");
    var after := (if joined then [] else [value]) + rest;
    EndedWordIs(letters, last, if joined then value else "");
    IsShortWord(word, after, st);
    HearLetters(word, 1, letters, after, st);
    assert joined ==> after == rest;
    HearLast(word, 1 + |letters|, last, rest, HeardAll(st, SayingsOf(letters)));
  }

  lemma {:induction false} ReadEnded(
    letters: seq<Lettered>, last: Lettered, joined: bool, rest: seq<string>, st: Reading)
    requires IsGroup(Ended(letters, last, joined))
    ensures ReadWords(WordsOfGroup(Ended(letters, last, joined)) + rest, st)
         == ReadWords(rest, Heard(HeardAll(st, SayingsOf(letters)), last.s))
  {
    hide IsLettered, ReadWords, HeardAll, ValueText, Heard, ReadWord, AreFlags;
    var value := ValueText(last.s);
    var word := EndedWord(letters, last, if joined then value else "");
    var after := (if joined then [] else [value]) + rest;
    assert "-" + LettersOf(letters) + [last.letter] + "" == "-" + LettersOf(letters) + [last.letter];
    assert WordsOfGroup(Ended(letters, last, joined)) + rest == [word] + after;
    hide EndedWord, LettersOf;
    HearEnded(letters, last, joined, rest, st);
    assert ([word] + after)[1..] == after;
    ReadStep([word] + after, rest, st, Heard(HeardAll(st, SayingsOf(letters)), last.s));
  }

  lemma {:induction false} ReadGroup(g: Group, rest: seq<string>, st: Reading)
    requires IsGroup(g)
    ensures ReadWords(WordsOfGroup(g) + rest, st) == ReadWords(rest, HeardAll(st, SaidBy(g)))
  {
    hide ReadWords, HeardAll, Heard, IsGroup, IsLettered, AreFlags;
    match g
    case Alone(url) =>
      ReadAlone(url, rest, st);
      HeardOne(st, ToAddress(url));
    case Long(name, s) =>
      ReadLong(name, s, rest, st);
      HeardOne(st, s);
    case Lettering(letters) =>
      ReadLettering(letters, rest, st);
    case Ended(letters, last, joined) =>
      ReadEnded(letters, last, joined, rest, st);
      HeardMore(st, SayingsOf(letters), [last.s]);
      HeardOne(HeardAll(st, SayingsOf(letters)), last.s);
  }

  ghost predicate AreGroups(groups: seq<Group>) {
    forall k :: 0 <= k < |groups| ==> IsGroup(groups[k])
  }

  function WordsOfAll(groups: seq<Group>): seq<string>
    requires AreGroups(groups)
  {
    if groups == [] then [] else WordsOfGroup(groups[0]) + WordsOfAll(groups[1..])
  }

  function SaidByAll(groups: seq<Group>): seq<Saying> {
    if groups == [] then [] else SaidBy(groups[0]) + SaidByAll(groups[1..])
  }

  lemma {:induction false} ReadGroups(groups: seq<Group>, rest: seq<string>, st: Reading)
    requires AreGroups(groups)
    ensures ReadWords(WordsOfAll(groups) + rest, st) == ReadWords(rest, HeardAll(st, SaidByAll(groups)))
    decreases |groups|
  {
    if groups == [] {
      assert WordsOfAll(groups) + rest == rest;
    } else {
      var (first, later) := (groups[0], groups[1..]);
      assert AreGroups(later);
      var (words, more) := (WordsOfGroup(first), WordsOfAll(later));
      assert WordsOfAll(groups) + rest == words + (more + rest);
      assert SaidByAll(groups) == SaidBy(first) + SaidByAll(later);
      hide ReadWords, HeardAll, WordsOfGroup, WordsOfAll, SaidBy, SaidByAll, IsGroup;
      ReadGroup(first, more + rest, st);
      ReadGroups(later, rest, HeardAll(st, SaidBy(first)));
      HeardMore(st, SaidBy(first), SaidByAll(later));
    }
  }
}
