/**
 * Lines of cURL commands: whatever is said on one, in whatever words, is what is read, and a line that ends too early
 * is not read.
 */
module CurlCommands {
  import opened Basics
  import opened CurlOptions
  import opened CurlOutcome
  import opened CurlReader
  import opened CurlSayings
  import opened ExportRequests
  import opened FormUrlencoded
  import opened ShellLexer
  import opened ShellRoundTrip
  import opened Text

  // ---- What is a command ----

  /** White space or none, `curl` or `curl.exe` in any case, and then nothing or white space. */
  ghost predicate SaysCurl(text: string) {
    exists blank, word, rest ::
      && text == blank + word + rest && IsBlank(blank)
      && (Lower(word) == "curl" || Lower(word) == "curl.exe")
      && (rest != "" ==> IsSpace(rest[0]))
  }

  /** A text is taken for a cURL command exactly when it says so. */
  lemma {:induction false} CommandsSayCurl(text: string)
    ensures IsCurlCommand(text) <==> SaysCurl(text)
  {
    if IsCurlCommand(text) {
      CommandSays(text);
    }
    if SaysCurl(text) {
      var blank, word, rest :|
        && text == blank + word + rest && IsBlank(blank)
        && (Lower(word) == "curl" || Lower(word) == "curl.exe")
        && (rest != "" ==> IsSpace(rest[0]));
      SaidIsCommand(blank, word, rest);
    }
  }

  lemma {:induction false} BlankBefore(text: string) returns (blank: string)
    ensures IsBlank(blank) && text == blank + TrimStart(text)
  {
    TrimStartResult(text);
    TrimStartCuts(text);
    hide TrimStart, IsSpace;
    blank := text[..|text| - |TrimStart(text)|];
  }

  lemma {:induction false} FirstWord(start: string) returns (word: string, rest: string)
    requires StartsWith(Lower(start), "curl")
    requires var after := if StartsWith(Lower(start[4..]), ".exe") then start[8..] else start[4..];
             after == "" || IsSpace(after[0])
    ensures start == word + rest && (Lower(word) == "curl" || Lower(word) == "curl.exe")
    ensures rest != "" ==> IsSpace(rest[0])
  {
    var exe := StartsWith(Lower(start[4..]), ".exe");
    WordOf(start, exe);
    hide Lower, IsSpace;
    var n := if exe then 8 else 4;
    word, rest := start[..n], start[n..];
  }

  lemma {:induction false} CommandSays(text: string)
    requires IsCurlCommand(text)
    ensures SaysCurl(text)
  {
    hide TrimStart, IsSpace, IsBlank, Lower;
    var blank := BlankBefore(text);
    var word, rest := FirstWord(TrimStart(text));
    assert blank + (word + rest) == blank + word + rest;
  }

  lemma {:induction false} WordOf(start: string, exe: bool)
    requires |start| >= 4 && Lower(start)[..4] == "curl" && exe == StartsWith(Lower(start[4..]), ".exe")
    ensures exe ==> |start| >= 8
    ensures Lower(start[..if exe then 8 else 4]) == if exe then "curl.exe" else "curl"
  {
    LowerPart(start, 0, 4);
    assert start[0..4] == start[..4] && Lower(start)[0..4] == Lower(start)[..4];
    if exe {
      LowerPart(start, 4, |start|);
      LowerPart(start, 0, 8);
      hide Lower;
      var (low, after) := (Lower(start), Lower(start[4..]));
      assert start[4..|start|] == start[4..] && low[4..|start|] == low[4..];
      assert start[0..8] == start[..8] && low[0..8] == low[..4] + low[4..][..4];
      assert "curl" + ".exe" == "curl.exe";
    }
  }

  lemma {:induction false} LowerPart(s: string, i: nat, j: nat)
    requires i <= j <= |s|
    ensures Lower(s[i..j]) == Lower(s)[i..j]
  {
  }

  lemma {:induction false} SaidIsCommand(blank: string, word: string, rest: string)
    requires IsBlank(blank) && (Lower(word) == "curl" || Lower(word) == "curl.exe") && (rest != "" ==> IsSpace(rest[0]))
    ensures IsCurlCommand(blank + word + rest)
  {
    var (text, start) := (blank + word + rest, word + rest);
    assert LowerChar(word[0]) == 'c';
    TrimStartOver(blank, start);
    assert text == blank + start && TrimStart(text) == start;
    hide TrimStart;
    assert Lower(start)[..4] == Lower(word)[..4] && "curl.exe"[..4] == "curl" && "curl"[..4] == "curl";
    if Lower(word) == "curl.exe" {
      assert Lower(start[4..])[..4] == Lower(word)[4..] && "curl.exe"[4..] == ".exe";
      assert start[8..] == rest;
    } else {
      NoExe(rest);
      assert start[4..] == rest;
    }
  }

  lemma {:induction false} NoExe(rest: string)
    requires rest == "" || IsSpace(rest[0])
    ensures !StartsWith(Lower(rest), ".exe")
  {
    if rest != "" {
      assert Lower(rest)[0] != ".exe"[0];
    }
  }

  // ---- Commands ----

  /** A shell is made to give these words after the first, which says `curl`. */
  ghost predicate HasWords(text: string, words: seq<string>) {
    && IsCurlCommand(text)
    && ((exists first :: WordsOf(text) == Ok([first] + words)) || (WordsOf(text) == Ok([]) && words == []))
  }

  lemma {:induction false} WordsAreRead(text: string, words: seq<string>)
    requires HasWords(text, words)
    ensures Reads(text) == match ReadWords(words, Nothing) case Err(e) => Err(e) case Ok(st) => Finish(st)
  {
    hide WordsOf, ReadWords, Finish, IsCurlCommand;
    if WordsOf(text) != Ok([]) {
      var first :| WordsOf(text) == Ok([first] + words);
      assert ([first] + words)[1..] == words;
    }
  }

  lemma {:induction false} GroupsAreRead(groups: seq<Group>)
    requires AreGroups(groups)
    ensures ReadWords(WordsOfAll(groups), Nothing) == Ok(HeardAll(Nothing, SaidByAll(groups)))
  {
    var words := WordsOfAll(groups);
    ReadGroups(groups, [], Nothing);
    assert words + [] == words;
    hide WordsOfAll, SaidByAll, HeardAll;
  }

  /** However a shell is made to give these words after `curl`, the command is read as what they say. */
  lemma {:induction false} CommandIsRead(text: string, groups: seq<Group>, r: Result<Parsed, ImportError>)
    requires AreGroups(groups) && HasWords(text, WordsOfAll(groups))
    ensures r == Reads(text) <==> IsOutcome(SaidByAll(groups), r)
  {
    hide IsOutcome, Holds, HeardAll, Finish, ReadWords, WordsOfAll, SaidByAll, AreGroups, HasWords, Reads;
    WordsAreRead(text, WordsOfAll(groups));
    GroupsAreRead(groups);
    AllIsHeard(SaidByAll(groups));
    FinishIs(HeardAll(Nothing, SaidByAll(groups)), SaidByAll(groups), r);
  }

  /** The line of `curl` and these words, each in quotes, however they are parted. */
  function QuotedLine(words: seq<string>, breaks: seq<bool>): string
    requires |breaks| == 1 + |words|
  {
    Line([Argument("", "curl", false)] + QuotedTexts(words), breaks)
  }

  lemma {:induction false} BeginsWithCurl(rest: string)
    requires rest == "" || IsSpace(rest[0])
    ensures IsCurlCommand("curl" + rest)
  {
    SaidIsCommand("", "curl", rest);
    assert "" + "curl" + rest == "curl" + rest;
  }

  lemma {:induction false} CurlLexes()
    ensures Lex("curl", None) == Ok(["curl"])
  {
    hide Lex, IsBareWord, AllWords, QuotedTexts;
    var curl := Argument("", "curl", false);
    BareCurl();
    assert "" + "curl" == "curl";
    assert [] + ["curl"] == ["curl"];
    LexLast(curl);
  }

  lemma {:induction false} BareCurl()
    ensures IsBareWord("curl") && IsBareWord("")
  {
  }

  lemma {:induction false} CurlAlone()
    ensures HasWords("curl", [])
  {
    CurlLexes();
    BeginsWithCurl("");
    assert !IsCmd("curl");
    hide Lex, IsCurlCommand, IsCmd;
    assert "curl" == "curl" + "" && ["curl"] == ["curl"] + [];
    assert WordsOf("curl") == Ok(["curl"] + []);
  }

  lemma {:induction false} WordsOfCurl(words: seq<string>)
    ensures AllWords([Argument("", "curl", false)] + QuotedTexts(words)) == ["curl"] + words
    ensures Argument("", "curl", false).Written() == "curl"
  {
    var curl := Argument("", "curl", false);
    assert "" + "curl" == "curl";
    assert ([curl] + QuotedTexts(words))[1..] == QuotedTexts(words);
    WordsOfTexts(words);
    assert curl.Words() == ["curl"];
  }

  lemma {:induction false} LineBegins(curl: Argument, rest: seq<Argument>, breaks: seq<bool>)
    requires rest != [] && |breaks| == 1 + |rest|
    ensures Line([curl] + rest, breaks) == curl.Written() + (Mark(breaks[0]) + Line(rest, breaks[1..]))
  {
    assert ([curl] + rest)[1..] == rest;
    var (a, b, c) := (curl.Written(), Mark(breaks[0]), Line(rest, breaks[1..]));
    assert a + b + c == a + (b + c);
  }

  lemma {:induction false} QuotedLineIs(words: seq<string>, breaks: seq<bool>)
    requires |breaks| == 1 + |words|
    ensures HasWords(QuotedLine(words, breaks), words)
  {
    var curl := Argument("", "curl", false);
    var arguments := [curl] + QuotedTexts(words);
    var line := QuotedLine(words, breaks);
    WordsOfCurl(words);
    if words == [] {
      assert line == "curl";
      CurlAlone();
    } else {
      hide AllWords, QuotedTexts;
      LexLine(arguments, breaks);
      QuoteInLine(arguments, breaks, 1);
      LineBegins(curl, QuotedTexts(words), breaks);
      var rest := Mark(breaks[0]) + Line(QuotedTexts(words), breaks[1..]);
      assert rest[0] == ' ';
      BeginsWithCurl(rest);
      hide Lex, IsCmd, Line, IsCurlCommand, Mark;
      assert WordsOf(line) == Ok(["curl"] + words);
    }
  }

  /**
   * A line of `curl` and any options, in any order, one by one or together in one word, with their values apart or
   * joined, is read as what the options say: the method, the address and its query, the headers, the body, the login
   * and the warnings, and nothing else.
   */
  lemma {:induction false} LineIsRead(groups: seq<Group>, breaks: seq<bool>, r: Result<Parsed, ImportError>)
    requires AreGroups(groups) && |breaks| == 1 + |WordsOfAll(groups)|
    ensures r == Reads(QuotedLine(WordsOfAll(groups), breaks)) <==> IsOutcome(SaidByAll(groups), r)
  {
    hide QuotedLine, IsOutcome, Reads, WordsOfAll, AreGroups, HasWords, SaidByAll;
    QuotedLineIs(WordsOfAll(groups), breaks);
    CommandIsRead(QuotedLine(WordsOfAll(groups), breaks), groups, r);
  }

  /** Two lines that say the same are read as one: `-XPOST` as `-X POST` and as `--request POST`. */
  lemma {:induction false} SayingIsAll(a: seq<Group>, breaks: seq<bool>, b: seq<Group>, others: seq<bool>)
    requires AreGroups(a) && |breaks| == 1 + |WordsOfAll(a)|
    requires AreGroups(b) && |others| == 1 + |WordsOfAll(b)|
    requires SaidByAll(a) == SaidByAll(b)
    ensures Reads(QuotedLine(WordsOfAll(a), breaks)) == Reads(QuotedLine(WordsOfAll(b), others))
  {
    hide QuotedLine, IsOutcome, Reads, WordsOfAll, AreGroups, SaidByAll;
    var r := Reads(QuotedLine(WordsOfAll(a), breaks));
    LineIsRead(a, breaks, r);
    LineIsRead(b, others, r);
  }

  // ---- Values that are missing ----

  /** The last word ends in an option that takes a value, and nothing comes after it. */
  lemma {:induction false} EndsEarly(text: string, groups: seq<Group>, word: string, error: ImportError)
    requires AreGroups(groups) && HasWords(text, WordsOfAll(groups) + [word])
    requires ReadWord(word, [], HeardAll(Nothing, SaidByAll(groups))) == Err(error)
    ensures Reads(text) == Err(error)
  {
    WordsAreRead(text, WordsOfAll(groups) + [word]);
    ReadGroups(groups, [word], Nothing);
    assert [word][1..] == [];
    hide HeardAll, HasWords, WordsOfAll, SaidByAll, AreGroups, ReadWord, Reads, Finish;
  }

  lemma {:induction false} LongNeeds(name: string, s: Saying, st: Reading)
    requires StartsWith(name, "--") && IsName(s, name) && HasValue(s)
    ensures ReadWord(name, [], st) == Err(NeedsValue(name))
  {
    hide IsName, ValueOption, FlagOption, IsSkipped, IsQuiet, ReadWord, Take, TakeFlag;
    NamesAreFiled(s, name);
    IsLongWord(name, [], st);
  }

  lemma {:induction false} LetterNeeds(word: string, at: nat, l: Lettered, st: Reading)
    requires at == |word| - 1 && word[at] == l.letter && IsName(l.s, ['-', l.letter]) && HasValue(l.s)
    ensures ShortOptions(word, at, [], st) == Err(NeedsValue(['-', l.letter]))
  {
    hide IsName, ValueOption, FlagOption, IsSkipped, IsQuiet, Take, TakeFlag;
    NamesAreFiled(l.s, ['-', l.letter]);
    assert word[at + 1..] == "";
  }

  lemma {:induction false} ShortNeeds(letters: seq<Lettered>, last: Lettered, st: Reading)
    requires AreFlags(letters) && (letters + [last])[0].letter != '-'
    requires IsName(last.s, ['-', last.letter]) && HasValue(last.s)
    ensures ReadWord(EndedWord(letters, last, ""), [], st) == Err(NeedsValue(['-', last.letter]))
  {
    hide IsLettered, EndedWord, HeardAll, IsName, ReadWord, ShortOptions, AreFlags;
    var (word, at) := (EndedWord(letters, last, ""), 1 + |letters|);
    EndedWordIs(letters, last, "");
    IsShortWord(word, [], st);
    HearLetters(word, 1, letters, [], st);
    LetterNeeds(word, at, last, HeardAll(st, SayingsOf(letters)));
  }

  /** A word that ends in an option which takes a value, with no value. */
  ghost predicate IsCutOff(word: string, name: string) {
    || (word == name && StartsWith(name, "--") && exists s :: IsName(s, name) && HasValue(s))
    || exists letters: seq<Lettered>, last: Lettered ::
         && AreFlags(letters) && (letters + [last])[0].letter != '-' && IsName(last.s, ['-', last.letter])
         && HasValue(last.s) && word == EndedWord(letters, last, "") && name == ['-', last.letter]
  }

  /** A command that ends in an option which takes a value is not read. */
  lemma {:induction false} CutOffIsNotRead(text: string, groups: seq<Group>, word: string, name: string)
    requires AreGroups(groups) && IsCutOff(word, name) && HasWords(text, WordsOfAll(groups) + [word])
    ensures Reads(text) == Err(NeedsValue(name))
  {
    hide HasWords, WordsOfAll, AreGroups, ReadWord, Reads, IsName, EndedWord, AreFlags;
    var st := HeardAll(Nothing, SaidByAll(groups));
    if word == name && StartsWith(name, "--") && exists s :: IsName(s, name) && HasValue(s) {
      var s :| IsName(s, name) && HasValue(s);
      LongNeeds(name, s, st);
    } else {
      var letters: seq<Lettered>, last: Lettered :|
        && AreFlags(letters) && (letters + [last])[0].letter != '-' && IsName(last.s, ['-', last.letter])
        && HasValue(last.s) && word == EndedWord(letters, last, "") && name == ['-', last.letter];
      ShortNeeds(letters, last, st);
    }
    EndsEarly(text, groups, word, NeedsValue(name));
  }

  // ---- What a few words say ----

  function PostWords(data: string, url: string, joined: bool): seq<string> {
    if joined then ["-d" + data, url] else ["-d", data, url]
  }

  lemma {:induction false} PostGroups(data: string, url: string, joined: bool)
    requires !StartsWith(data, "@") && !StartsWith(url, "-") && (joined ==> data != "")
    ensures var groups := [Ended([], Lettered('d', WithData(data)), joined), Alone(url)];
            && AreGroups(groups)
            && WordsOfAll(groups) == PostWords(data, url, joined)
            && SaidByAll(groups) == [WithData(data), ToAddress(url)]
  {
    var (first, last) := (Ended([], Lettered('d', WithData(data)), joined), Alone(url));
    DataOption(data);
    DataGroup(data, joined);
    assert IsGroup(last);
    hide IsGroup;
    TwoGroups(first, last);
  }

  lemma {:induction false} TwoGroups(a: Group, b: Group)
    requires IsGroup(a) && IsGroup(b)
    ensures AreGroups([a, b]) && WordsOfAll([a, b]) == WordsOfGroup(a) + WordsOfGroup(b)
    ensures SaidByAll([a, b]) == SaidBy(a) + SaidBy(b)
  {
    hide IsGroup, WordsOfGroup, SaidBy;
    assert [a, b][1..] == [b] && [b][1..] == [];
    assert AreGroups([b]) && AreGroups([]);
    var (words, said) := (WordsOfGroup(b), SaidBy(b));
    assert WordsOfAll([b]) == words + [] && words + [] == words;
    assert SaidByAll([b]) == said + [] && said + [] == said;
  }

  lemma {:induction false} DataGroup(data: string, joined: bool)
    requires !StartsWith(data, "@") && (joined ==> data != "")
    ensures var g := Ended([], Lettered('d', WithData(data)), joined);
            && IsGroup(g) && SaidBy(g) == [WithData(data)]
            && WordsOfGroup(g) == if joined then ["-d" + data] else ["-d", data]
  {
    var option := Lettered('d', WithData(data));
    DataOption(data);
    hide IsName;
    assert [] + [option] == [option];
    assert SayingsOf([]) == [] && [] + [WithData(data)] == [WithData(data)];
  }

  lemma {:induction false} DataOption(data: string)
    ensures IsName(WithData(data), ['-', 'd'])
    ensures "-" + LettersOf([]) + ['d'] == "-d"
  {
    assert LettersOf([]) == [];
    assert ['-'] + [] == ['-'];
    assert ['-'] + ['d'] == ['-', 'd'];
  }

  lemma {:induction false} PostSaid(data: string, url: string)
    ensures var all := [WithData(data), ToAddress(url)];
            && DataSaid(all) == [Wire(data)] && UrlsSaid(all) == [url] && MethodSaid(all) == None
            && HeadersSaid(all) == [] && PartsSaid(all) == [] && WarningsSaid(all) == [] && UserSaid(all) == None
            && Texts([Wire(data)]) == [data] && Files([Wire(data)]) == []
  {
    hide DataSaid, UrlsSaid, MethodSaid, HeadersSaid, PartsSaid, WarningsSaid, UserSaid;
    NothingSaid();
    SaidOneMore([], WithData(data));
    LastSaid([], WithData(data));
    assert [] + [WithData(data)] == [WithData(data)];
    SaidOneMore([WithData(data)], ToAddress(url));
    LastSaid([WithData(data)], ToAddress(url));
    assert [WithData(data)] + [ToAddress(url)] == [WithData(data), ToAddress(url)];
    assert [Wire(data)][..0] == [];
  }

  lemma {:induction false} NothingSaid()
    ensures DataSaid([]) == [] && UrlsSaid([]) == [] && MethodSaid([]) == None && HeadersSaid([]) == []
    ensures PartsSaid([]) == [] && WarningsSaid([]) == [] && UserSaid([]) == None
  {
  }

  lemma {:induction false} PostOutcome(data: string, url: string)
    ensures IsOutcome([WithData(data), ToAddress(url)],
                      Ok(Parsed(Request("POST", url, [], Urlencoded(SearchParams(data))), None, [])))
  {
    PostSaid(data, url);
    hide DataSaid, UrlsSaid, MethodSaid, HeadersSaid, PartsSaid, WarningsSaid, UserSaid, Texts, Files, SearchParams;
    assert Join([data], "&") == data;
    assert IsBody([WithData(data), ToAddress(url)], Urlencoded(SearchParams(data)));
  }

  /** Data goes to an address as a form that is posted, with no warning. */
  lemma {:induction false} DataIsPosted(data: string, url: string, joined: bool, breaks: seq<bool>)
    requires !StartsWith(data, "@") && !StartsWith(url, "-") && (joined ==> data != "")
    requires |breaks| == if joined then 3 else 4
    ensures Reads(QuotedLine(PostWords(data, url, joined), breaks))
         == Ok(Parsed(Request("POST", url, [], Urlencoded(SearchParams(data))), None, []))
  {
    hide QuotedLine, Reads, WordsOfAll, SaidByAll, AreGroups, SearchParams, IsOutcome;
    var groups := [Ended([], Lettered('d', WithData(data)), joined), Alone(url)];
    PostGroups(data, url, joined);
    PostOutcome(data, url);
    LineIsRead(groups, breaks, Ok(Parsed(Request("POST", url, [], Urlencoded(SearchParams(data))), None, [])));
  }
}
