/** Reading a written cURL command gives the request back: for exactly which requests, and with what result. */
module CurlRoundTrip {
  import opened Basics
  import opened CurlReader
  import opened CurlWriter
  import opened ExportRequests
  import opened FormUrlencoded
  import opened ShellLexer
  import opened ShellRoundTrip
  import opened Text

  // ---- What a command can say ----

  function Named(headers: seq<Header>): seq<Header> {
    if headers == [] then [] else (if headers[0].0 != "" then [headers[0]] else []) + Named(headers[1..])
  }

  /** What can be read back of a body: an empty one of each mode leaves no option in the command. */
  function KeptBody(body: Body): Body {
    match body
    case NoBody => NoBody
    case Raw(text) => if text == "" then NoBody else body
    case Urlencoded(fields) => if fields == [] then NoBody else body
    case Multipart(parts) => if parts == [] then NoBody else body
    case Binary(fileName) => if fileName == "" then NoBody else body
  }

  /** The request without what is not sent: headers without a name, and an empty body. */
  function Kept(request: Request): Request {
    request.(headers := Named(request.headers), body := KeptBody(request.body))
  }

  predicate SayableHeader(header: Header) {
    ':' !in header.0 && Trimmed(header.0) && Trimmed(header.1)
  }

  predicate SayableHeaders(headers: seq<Header>) {
    forall k :: 0 <= k < |headers| ==> headers[k].0 != "" ==> SayableHeader(headers[k])
  }

  /**
   * The type decides whether data is read as a form or as text; a form in parts and a file are said by their own
   * options.
   */
  predicate SayableBody(body: Body, contentType: string) {
    match body
    case NoBody => true
    case Raw(_) => !IsFormType(contentType)
    case Urlencoded(_) => IsFormType(contentType)
    case Multipart(parts) => FirstUnsayable(parts).None?
    case Binary(_) => true
  }

  /**
   * The requests a command can say. A HEAD with a body is among them; a GET with a body is not: data makes it a POST.
   */
  predicate Sayable(request: Request) {
    && IsHttpMethod(request.verb)
    && SayableHeaders(request.headers)
    && SayableBody(KeptBody(request.body), ContentType(Named(request.headers)).Or(""))
    && (request.verb == "GET" ==> KeptBody(request.body).NoBody?)
  }

  // ---- The command as arguments ----

  function VerbArgument(verb: string): seq<Argument> {
    if verb == "HEAD" then [Argument("", "--head", false)]
    else if verb == "GET" then []
    else [Argument("-X", verb, !IsPlainWord(verb))]
  }

  function AddressArgument(url: string): Argument {
    Argument(if StartsWith(url, "-") then "--url" else "", url, true)
  }

  function HeaderLines(headers: seq<Header>): seq<Argument> {
    if headers == [] then []
    else
      (if headers[0].0 != "" then [Argument("-H", headers[0].0 + ": " + headers[0].1, true)] else [])
      + HeaderLines(headers[1..])
  }

  function FieldOption(field: Field): Argument {
    if field.0 != "" then Argument("--data-urlencode", FormEncode(field.0) + "=" + field.1, true)
    else Argument("--data-raw", "=" + FormEncode(field.1), true)
  }

  function FieldOptions(fields: seq<Field>): seq<Argument> {
    if fields == [] then [] else [FieldOption(fields[0])] + FieldOptions(fields[1..])
  }

  function PartOption(part: Part): Argument {
    match part
    case TextPart(name, value) => Argument("--form-string", name + "=" + value, true)
    case FilePart(name, fileName) => Argument("-F", name + "=@\"" + EscapeFileName(fileName) + "\"", true)
  }

  function PartOptions(parts: seq<Part>): seq<Argument> {
    if parts == [] then [] else [PartOption(parts[0])] + PartOptions(parts[1..])
  }

  function BodyOptions(body: Body): seq<Argument> {
    match body
    case NoBody => []
    case Raw(text) => if text != "" then [Argument("--data-raw", text, true)] else []
    case Urlencoded(fields) => FieldOptions(fields)
    case Multipart(parts) => PartOptions(parts)
    case Binary(fileName) => if fileName != "" then [Argument("--data-binary", "@" + fileName, true)] else []
  }

  /** What stands after `curl`. */
  function Tail(request: Request): seq<Argument> {
    VerbArgument(request.verb) + [AddressArgument(request.url)] + HeaderLines(request.headers)
    + BodyOptions(request.body)
  }

  predicate IsTextOf(texts: seq<string>, arguments: seq<Argument>) {
    && |texts| == |arguments|
    && forall k :: 0 <= k < |texts| ==> arguments[k].Valid() && texts[k] == arguments[k].Written()
  }

  lemma {:induction false} HeaderTexts(headers: seq<Header>)
    ensures IsTextOf(HeaderArguments(headers), HeaderLines(headers))
  {
    hide ShellQuote;
    BareOptions();
    if headers != [] {
      HeaderTexts(headers[1..]);
    }
  }

  lemma {:induction false} FieldOptionText(field: Field)
    ensures FieldOption(field).Valid() && FieldOption(field).Written() == FieldArgument(field)
  {
    hide FormEncode, ShellQuote;
    BareOptions();
  }

  lemma {:induction false} PartOptionText(part: Part)
    ensures PartOption(part).Valid() && PartOption(part).Written() == PartArgument(part)
  {
    hide EscapeFileName, ShellQuote;
    BareOptions();
  }

  lemma {:induction false} BareOptions()
    ensures forall option :: IsWrittenOption(option) ==> IsBareWord(option)
    ensures IsBareWord("curl") && IsBareWord("--head")
  {
  }

  lemma {:induction false} FieldOptionTexts(fields: seq<Field>)
    ensures IsTextOf(BodyArguments(Urlencoded(fields)), FieldOptions(fields))
  {
    hide FieldArgument, FieldOption;
    if fields != [] {
      FieldOptionText(fields[0]);
      FieldOptionTexts(fields[1..]);
      var texts := BodyArguments(Urlencoded(fields));
      assert texts == [FieldArgument(fields[0])] + BodyArguments(Urlencoded(fields[1..]));
      TextConcat([FieldArgument(fields[0])], [FieldOption(fields[0])],
        BodyArguments(Urlencoded(fields[1..])), FieldOptions(fields[1..]));
    }
  }

  lemma {:induction false} PartOptionTexts(parts: seq<Part>)
    ensures IsTextOf(BodyArguments(Multipart(parts)), PartOptions(parts))
  {
    hide PartArgument, PartOption;
    if parts != [] {
      PartOptionText(parts[0]);
      PartOptionTexts(parts[1..]);
      var texts := BodyArguments(Multipart(parts));
      assert texts == [PartArgument(parts[0])] + BodyArguments(Multipart(parts[1..]));
      TextConcat([PartArgument(parts[0])], [PartOption(parts[0])],
        BodyArguments(Multipart(parts[1..])), PartOptions(parts[1..]));
    }
  }

  lemma {:induction false} BodyTexts(body: Body)
    ensures IsTextOf(BodyArguments(body), BodyOptions(body))
  {
    hide ShellQuote, IsBareWord, FieldOptions, PartOptions;
    BareOptions();
    match body
    case Urlencoded(fields) => FieldOptionTexts(fields);
    case Multipart(parts) => PartOptionTexts(parts);
    case _ =>
  }

  lemma {:induction false} VerbTexts(verb: string)
    ensures IsTextOf(MethodArguments(verb), VerbArgument(verb))
  {
    hide ShellQuote;
    BareOptions();
    if IsPlainWord(verb) {
      assert IsBareWord(verb);
    }
  }

  lemma {:induction false} CommandTexts(request: Request)
    ensures IsTextOf(Arguments(request), [Argument("", "curl", false)] + Tail(request))
  {
    AddressText(request.url);
    BareOptions();
    assert IsTextOf(["curl"], [Argument("", "curl", false)]) by {
      assert "" + "curl" == "curl";
    }
    hide IsBareWord, ShellQuote, MethodArguments, VerbArgument, UrlArgument, AddressArgument;
    hide HeaderArguments, HeaderLines, BodyArguments, BodyOptions;
    VerbTexts(request.verb);
    HeaderTexts(request.headers);
    BodyTexts(request.body);
    var (curl, url) := (Argument("", "curl", false), AddressArgument(request.url));
    var (verbs, headers) := (VerbArgument(request.verb), HeaderLines(request.headers));
    var body := BodyOptions(request.body);
    hide IsTextOf;
    var a := MethodArguments(request.verb) + [UrlArgument(request.url)];
    var b := a + HeaderArguments(request.headers);
    assert IsTextOf([UrlArgument(request.url)], [url]) by { OneText(UrlArgument(request.url), url); }
    TextConcat(MethodArguments(request.verb), verbs, [UrlArgument(request.url)], [url]);
    TextConcat(a, verbs + [url], HeaderArguments(request.headers), headers);
    TextConcat(b, verbs + [url] + headers, BodyArguments(request.body), body);
    TextConcat(["curl"], [curl], b + BodyArguments(request.body), Tail(request));
  }

  lemma {:induction false} OneText(text: string, argument: Argument)
    requires argument.Valid() && argument.Written() == text
    ensures IsTextOf([text], [argument])
  {
  }

  lemma {:induction false} TextConcat(a: seq<string>, x: seq<Argument>, b: seq<string>, y: seq<Argument>)
    requires IsTextOf(a, x) && IsTextOf(b, y)
    ensures IsTextOf(a + b, x + y)
  {
  }

  lemma {:induction false} AddressText(url: string)
    ensures AddressArgument(url).Valid() && AddressArgument(url).Written() == UrlArgument(url)
  {
    hide ShellQuote;
    BareOptions();
  }

  // ---- The command as bash reads it ----

  lemma {:induction false} StartsWithCurl(rest: string)
    ensures IsCurlCommand("curl" + LineBreak + rest)
  {
    var text := "curl" + LineBreak + rest;
    assert TrimStart(text) == text;
    assert Lower(text)[..4] == "curl";
    assert text[4..][0] == ' ';
  }

  lemma {:induction false} AllWordsFirst(arguments: seq<Argument>)
    requires arguments != [] && arguments[0] == Argument("", "curl", false)
    ensures AllWords(arguments) == ["curl"] + AllWords(arguments[1..])
  {
    assert arguments[0].Words() == ["curl"];
  }

  lemma {:induction false} JoinFirst(texts: seq<string>)
    requires |texts| > 1
    ensures Join(texts, LineBreak) == texts[0] + LineBreak + Join(texts[1..], LineBreak)
  {
  }

  /** A command that is written is a cURL command, takes bash's reader, and has the words of its arguments. */
  lemma {:induction false} CommandWords(request: Request)
    requires !(request.body.Multipart? && FirstUnsayable(request.body.parts).Some?)
    ensures IsCurlCommand(Command(request)) && !IsCmd(Command(request))
    ensures WordsOf(Command(request)) == Ok(["curl"] + AllWords(Tail(request)))
  {
    hide Lex, IsCurlCommand, IsCmd, Line, Join, AllWords;
    var arguments := [Argument("", "curl", false)] + Tail(request);
    var texts := Arguments(request);
    var breaks := seq(|arguments|, _ => true);
    CommandTexts(request);
    LineIsJoin(arguments, breaks, texts);
    LexLine(arguments, breaks);
    assert arguments[1..] == Tail(request);
    var k := 1 + |VerbArgument(request.verb)|;
    assert arguments[k] == AddressArgument(request.url);
    QuoteInLine(arguments, breaks, k);
    AllWordsFirst(arguments);
    JoinFirst(texts);
    StartsWithCurl(Join(texts[1..], LineBreak));
  }

  /** A part whose name cannot be said: what is written is no command, and is not read as one. */
  lemma {:induction false} CommentIsNoCommand(part: Part)
    ensures Reads(Comment(part)) == Err(NotCurl)
  {
    CommentIsOneLine(part);
    hide Comment;
    NotCurlAt(Comment(part));
  }

  lemma {:induction false} NotCurlAt(text: string)
    requires StartsWith(text, "#")
    ensures Reads(text) == Err(NotCurl)
  {
    assert text[0] == '#' && TrimStart(text) == text;
    assert Lower(text)[0] == '#';
    assert !StartsWith(Lower(text), "curl") by {
      assert "curl"[0] != '#';
    }
  }

  // ---- The words as the reader takes them ----

  /** What one argument adds to a reading. */
  function Apply(argument: Argument, st: Reading): Reading {
    if argument.option != "" then
      if ValueOption(argument.option).Some? then Take(ValueOption(argument.option).value, argument.text, st) else st
    else if argument.quoted then st.(urls := st.urls + [argument.text])
    else TakeFlag(Head, st)
  }

  function ApplyAll(arguments: seq<Argument>, st: Reading): Reading {
    if arguments == [] then st else ApplyAll(arguments[1..], Apply(arguments[0], st))
  }

  predicate IsWrittenOption(option: string) {
    || option == "-X" || option == "--url" || option == "-H" || option == "--data-raw" || option == "--data-urlencode"
    || option == "--form-string" || option == "-F" || option == "--data-binary"
  }

  /** The shapes of argument the writer uses. */
  predicate IsWrittenArgument(argument: Argument) {
    if argument.option != "" then IsWrittenOption(argument.option)
    else if argument.quoted then !StartsWith(argument.text, "-")
    else argument.text == "--head"
  }

  lemma {:induction false} ReadOption(option: string, text: string, rest: seq<string>, st: Reading)
    requires IsWrittenOption(option)
    ensures ValueOption(option).Some?
    ensures ReadWord(option, [text] + rest, st) == Ok((Take(ValueOption(option).value, text, st), rest))
  {
    assert ([text] + rest)[1..] == rest;
    if option == "-X" || option == "-H" || option == "-F" {
      assert option[1] != '-';
      assert ['-', option[1]] == option;
      assert option[2..] == "";
    } else {
      assert option[..2] == "--";
    }
  }

  lemma {:induction false} ReadHead(rest: seq<string>, st: Reading)
    ensures ReadWord("--head", rest, st) == Ok((TakeFlag(Head, st), rest))
  {
    assert "--head"[..2] == "--";
    assert ValueOption("--head").None? && FlagOption("--head") == Some(Head);
    hide ValueOption, FlagOption, Take, IsQuiet, IsSkipped, ShortOptions;
  }

  lemma {:induction false} ReadArgument(argument: Argument, rest: seq<string>, st: Reading)
    requires IsWrittenArgument(argument)
    ensures ReadWords(argument.Words() + rest, st) == ReadWords(rest, Apply(argument, st))
  {
    var Argument(option, text, quoted) := argument;
    var words := argument.Words() + rest;
    if option != "" {
      assert words == [option] + ([text] + rest) && words[1..] == [text] + rest;
      ReadOption(option, text, rest, st);
    } else {
      assert words == [text] + rest && words[1..] == rest;
      if !quoted {
        ReadHead(rest, st);
      }
    }
  }

  lemma {:induction false} ReadArguments(arguments: seq<Argument>, st: Reading)
    requires forall k :: 0 <= k < |arguments| ==> IsWrittenArgument(arguments[k])
    ensures ReadWords(AllWords(arguments), st) == Ok(ApplyAll(arguments, st))
  {
    if arguments != [] {
      ReadArgument(arguments[0], AllWords(arguments[1..]), st);
      ReadArguments(arguments[1..], Apply(arguments[0], st));
    }
  }

  lemma {:induction false} ApplyConcat(a: seq<Argument>, b: seq<Argument>, st: Reading)
    ensures ApplyAll(a + b, st) == ApplyAll(b, ApplyAll(a, st))
  {
    if a == [] {
      assert a + b == b;
    } else {
      assert (a + b)[1..] == a[1..] + b;
      ApplyConcat(a[1..], b, Apply(a[0], st));
    }
  }

  lemma {:induction false} HeaderLinesWritten(headers: seq<Header>)
    ensures forall k :: 0 <= k < |HeaderLines(headers)| ==> IsWrittenArgument(HeaderLines(headers)[k])
  {
    if headers != [] {
      HeaderLinesWritten(headers[1..]);
    }
  }

  lemma {:induction false} FieldOptionsWritten(fields: seq<Field>)
    ensures forall k :: 0 <= k < |FieldOptions(fields)| ==> IsWrittenArgument(FieldOptions(fields)[k])
  {
    if fields != [] {
      FieldOptionsWritten(fields[1..]);
    }
  }

  lemma {:induction false} PartOptionsWritten(parts: seq<Part>)
    ensures forall k :: 0 <= k < |PartOptions(parts)| ==> IsWrittenArgument(PartOptions(parts)[k])
  {
    if parts != [] {
      PartOptionsWritten(parts[1..]);
    }
  }

  lemma {:induction false} TailWritten(request: Request)
    ensures forall k :: 0 <= k < |Tail(request)| ==> IsWrittenArgument(Tail(request)[k])
  {
    HeaderLinesWritten(request.headers);
    match request.body
    case Urlencoded(fields) => FieldOptionsWritten(fields);
    case Multipart(parts) => PartOptionsWritten(parts);
    case _ =>
  }

  // ---- Each part of the command, read ----

  /** The reading of the method and the address. */
  function Started(request: Request): Reading {
    Nothing.(
      verb := if request.verb == "HEAD" || request.verb == "GET" then None else Some(Upper(request.verb)),
      head := request.verb == "HEAD",
      urls := [request.url])
  }

  lemma {:induction false} ReadStart(request: Request)
    ensures ApplyAll(VerbArgument(request.verb) + [AddressArgument(request.url)], Nothing) == Started(request)
  {
    var verb := VerbArgument(request.verb);
    var address := AddressArgument(request.url);
    ApplyConcat(verb, [address], Nothing);
    ApplyOne(address, ApplyAll(verb, Nothing));
    WrittenKinds();
    if verb != [] {
      assert verb == [verb[0]];
      ApplyOne(verb[0], Nothing);
    }
    assert [] + [request.url] == [request.url];
    hide ValueOption, ApplyAll, TakeHeader, TakePart, UrlencodeDatum, IndexOf, Upper, IsPlainWord;
  }

  lemma {:induction false} ApplyOne(argument: Argument, st: Reading)
    ensures ApplyAll([argument], st) == Apply(argument, st)
  {
    hide Apply;
    assert [argument][1..] == [];
  }

  lemma {:induction false} TrimAfterSpace(value: string)
    ensures Trim(" " + value) == Trim(value)
  {
    assert (" " + value)[1..] == value;
  }

  lemma {:induction false} NoColonBefore(name: string, value: string)
    requires ':' !in name
    ensures var line := name + ": " + value;
            IndexOf(line, ':') == |name| && line[..|name|] == name && line[|name| + 1..] == " " + value
  {
    assert name + ": " + value == name + [':'] + (" " + value);
    FirstIndex(name, ':', " " + value);
    hide IndexOf;
  }

  lemma {:induction false} ColonBefore(name: string, value: string)
    requires ':' in name
    ensures var line := name + ": " + value; var c := IndexOf(name, ':');
            IndexOf(line, ':') == c && line[..c] == name[..c] && (value == "" ==> !EndsWith(line, ";"))
  {
    var c := IndexOf(name, ':');
    var line := name + ": " + value;
    hide IndexOf;
    var (start, rest, more) := (name[..c], name[c + 1..], ": " + value);
    assert name == start + ":" + rest;
    assert (start + ":" + rest) + ": " + value == start + [':'] + (rest + more);
    FirstIndex(start, ':', rest + more);
    LastOfLine(name + ": ", value);
  }

  lemma {:induction false} LastOfLine(start: string, value: string)
    requires start != "" && start[|start| - 1] == ' '
    ensures value == "" ==> !EndsWith(start + value, ";")
  {
    if value == "" {
      assert start + value == start;
    }
  }

  /** A header of one line is at most one header read. */
  lemma {:induction false} OneHeader(line: string, st: Reading)
    ensures var next := TakeHeader(line, st);
            && next == st.(headers := next.headers, warnings := next.warnings)
            && st.headers <= next.headers && |next.headers| <= |st.headers| + 1
  {
    assert EndsWith(line, ";") ==> |line| > 0;
    hide Trim, EndsWith, IndexOf;
    var colon := IndexOf(line, ':');
    if colon > 0 {
      OneMore(st, (Trim(line[..colon]), Trim(line[colon + 1..])));
    } else if EndsWith(line, ";") {
      OneMore(st, (Trim(line[..|line| - 1]), ""));
    } else {
      assert TakeHeader(line, st) == st.Warn(HeaderWithoutColon(line));
    }
  }

  lemma {:induction false} OneMore(st: Reading, header: Header)
    ensures var next := st.(headers := st.headers + [header]);
            && next == st.(headers := next.headers, warnings := next.warnings)
            && st.headers <= next.headers && |next.headers| <= |st.headers| + 1
  {
  }

  /** A named header is read back as itself exactly when it is sayable. */
  lemma {:induction false} ReadHeader(header: Header, st: Reading)
    requires header.0 != ""
    ensures var next := TakeHeader(header.0 + ": " + header.1, st);
            && (SayableHeader(header) ==> next.headers == st.headers + [header] && next.warnings == st.warnings)
            && (!SayableHeader(header) ==> next.headers != st.headers + [header])
  {
    var (name, value) := header;
    TrimIsTrimmed(name);
    TrimIsTrimmed(value);
    if ':' !in name {
      NoColonBefore(name, value);
      TrimAfterSpace(value);
    } else {
      ColonBefore(name, value);
      TrimIsTrimmed(name[..IndexOf(name, ':')]);
    }
    hide Trim, Trimmed, EndsWith, IndexOf;
    var next := TakeHeader(name + ": " + value, st);
    if next.headers == st.headers + [header] {
      assert next.headers[|st.headers|] == header;
    }
  }

  /** What reading the headers does to a reading: they are read as they were exactly when each of them is sayable. */
  predicate HeadersRead(headers: seq<Header>, st: Reading, t: Reading) {
    && t == st.(headers := t.headers, warnings := t.warnings)
    && st.headers <= t.headers
    && |t.headers| <= |st.headers| + |Named(headers)|
    && (t.headers == st.headers + Named(headers) <==> SayableHeaders(headers))
    && (SayableHeaders(headers) ==> t.warnings == st.warnings)
  }

  lemma {:induction false} ReadNamedFirst(first: Header, rest: seq<Header>, st: Reading, next: Reading, t: Reading)
    requires first.0 != ""
    requires next == st.(headers := next.headers, warnings := next.warnings)
    requires st.headers <= next.headers && |next.headers| <= |st.headers| + 1
    requires SayableHeader(first) ==> next.headers == st.headers + [first] && next.warnings == st.warnings
    requires !SayableHeader(first) ==> next.headers != st.headers + [first]
    requires HeadersRead(rest, next, t)
    ensures HeadersRead([first] + rest, st, t)
  {
    hide SayableHeader;
    var headers := [first] + rest;
    assert headers[1..] == rest;
    assert SayableHeaders(headers) <==> SayableHeader(first) && SayableHeaders(rest);
    assert Named(headers) == [first] + Named(rest);
    hide Named, SayableHeaders;
    FirstThenRest(st.headers, Named(headers));
    if t.headers == st.headers + Named(headers) {
      assert next.headers == t.headers[..|st.headers| + 1];
    }
  }

  lemma {:induction false} ReadHeaders(headers: seq<Header>, st: Reading)
    ensures HeadersRead(headers, st, ApplyAll(HeaderLines(headers), st))
  {
    hide TakeHeader, SayableHeader;
    if headers != [] {
      var (first, rest) := (headers[0], headers[1..]);
      assert headers == [first] + rest;
      if first.0 == "" {
        ReadHeaders(rest, st);
        assert HeaderLines(headers) == HeaderLines(rest) && Named(headers) == Named(rest);
        assert SayableHeaders(headers) <==> SayableHeaders(rest);
      } else {
        var line := first.0 + ": " + first.1;
        var next := TakeHeader(line, st);
        assert Apply(Argument("-H", line, true), st) == next;
        hide Apply, HeadersRead;
        OneHeader(line, st);
        ReadHeader(first, st);
        ReadHeaders(rest, next);
        ApplyFirst(Argument("-H", line, true), HeaderLines(rest), st);
        ReadNamedFirst(first, rest, st, next, ApplyAll(HeaderLines(rest), next));
      }
    }
  }

  lemma {:induction false} WrittenKinds()
    ensures ValueOption("-X") == Some(Verb) && ValueOption("--url") == Some(Address)
    ensures ValueOption("-H") == Some(HeaderLine) && ValueOption("--data-raw") == Some(DataRaw)
    ensures ValueOption("--data-urlencode") == Some(DataUrlencode)
    ensures ValueOption("--form-string") == Some(FormString)
    ensures ValueOption("-F") == Some(Form) && ValueOption("--data-binary") == Some(DataBinary)
  {
  }

  lemma {:induction false} DatumOf(name: string, value: string)
    requires name != ""
    ensures UrlencodeDatum(FormEncode(name) + "=" + value) == Wire(FieldText((name, value)))
  {
    hide FormEncode, IndexOf;
    var encoded := FormEncode(name);
    var text := encoded + "=" + value;
    assert '=' !in encoded && '@' !in encoded;
    FirstIndex(encoded, '=', value);
    assert text[..|encoded|] == encoded && text[|encoded| + 1..] == value;
    assert forall i :: 0 <= i < |encoded| ==> text[i] == encoded[i] && text[i] != '@';
  }

  lemma {:induction false} ReadField(field: Field, st: Reading)
    ensures Apply(FieldOption(field), st) == st.(data := st.data + [Wire(FieldText(field))], binaryOnly := false)
  {
    WrittenKinds();
    hide ValueOption, UrlencodeDatum;
    if field.0 == "" {
      assert FormEncode("") == "";
      assert FieldText(field) == "=" + FormEncode(field.1);
    } else {
      DatumOf(field.0, field.1);
    }
  }

  function Wires(texts: seq<string>): seq<Datum> {
    seq(|texts|, k requires 0 <= k < |texts| => Wire(texts[k]))
  }

  lemma {:induction false} WiresHold(texts: seq<string>)
    ensures WireTexts(Wires(texts)) == texts && FileNames(Wires(texts)) == []
  {
    if texts != [] {
      assert Wires(texts)[1..] == Wires(texts[1..]);
      WiresHold(texts[1..]);
    }
  }

  lemma {:induction false} ReadFields(fields: seq<Field>, st: Reading)
    ensures ApplyAll(FieldOptions(fields), st)
         == st.(data := st.data + Wires(FieldTexts(fields)), binaryOnly := st.binaryOnly && fields == [])
  {
    hide Apply, FieldOption, FieldText;
    if fields != [] {
      var next := st.(data := st.data + [Wire(FieldText(fields[0]))], binaryOnly := false);
      ReadField(fields[0], st);
      ReadFields(fields[1..], next);
      var wires := Wires(FieldTexts(fields));
      assert wires[0] == Wire(FieldText(fields[0])) && wires[1..] == Wires(FieldTexts(fields[1..]));
      FirstThenRest(st.data, wires);
      ApplyFirst(FieldOption(fields[0]), FieldOptions(fields[1..]), st);
    }
  }

  /** The escapes of a file name are read back, whatever the name holds. */
  lemma {:induction false} ReadFileName(name: string)
    ensures QuotedFile(EscapeFileName(name) + "\"") == Some(name)
  {
    if name == "" {
      assert EscapeFileName(name) + "\"" == "\"";
    } else {
      ReadFileName(name[1..]);
      assert name == [name[0]] + name[1..];
      var rest := EscapeFileName(name[1..]) + "\"";
      var s := EscapeFileName(name) + "\"";
      if name[0] == '\\' || name[0] == '"' {
        assert s == ['\\', name[0]] + rest && s[2..] == rest;
      } else {
        assert s == [name[0]] + rest && s[1..] == rest;
      }
    }
  }

  lemma {:induction false} NoEqualsInName(part: Part)
    requires !Unsayable(part)
    ensures '=' !in part.name
  {
    assert forall i :: 0 <= i < |part.name| ==> part.name[i] != '=' || part.name[i] in "=;\"\r\n";
  }

  lemma {:induction false} NameAndRest(name: string, rest: string)
    requires '=' !in name
    ensures var text := name + "=" + rest;
            IndexOf(text, '=') == |name| && text[..|name|] == name && text[|name| + 1..] == rest
  {
    FirstIndex(name, '=', rest);
  }

  lemma {:induction false} FilePartText(name: string, fileName: string, st: Reading)
    requires '=' !in name
    ensures Take(Form, name + "=@\"" + EscapeFileName(fileName) + "\"", st)
         == st.(parts := st.parts + [FilePart(name, fileName)])
  {
    ReadFileName(fileName);
    var quoted := EscapeFileName(fileName) + "\"";
    hide EscapeFileName, QuotedFile, IndexOf;
    var content := "@\"" + quoted;
    assert name + "=@\"" + EscapeFileName(fileName) + "\"" == name + "=" + content;
    NameAndRest(name, content);
    assert content[..2] == "@\"" && content[2..] == quoted;
  }

  lemma {:induction false} TextPartText(name: string, value: string, st: Reading)
    requires '=' !in name
    ensures Take(FormString, name + "=" + value, st) == st.(parts := st.parts + [TextPart(name, value)])
  {
    NameAndRest(name, value);
    hide IndexOf;
  }

  lemma {:induction false} ReadPart(part: Part, st: Reading)
    requires !Unsayable(part)
    ensures Apply(PartOption(part), st) == st.(parts := st.parts + [part])
  {
    NoEqualsInName(part);
    WrittenKinds();
    hide ValueOption, TakePart, Take, EscapeFileName, Unsayable;
    match part
    case TextPart(name, value) => TextPartText(name, value, st);
    case FilePart(name, fileName) => FilePartText(name, fileName, st);
  }

  lemma {:induction false} FirstThenRest<T>(before: seq<T>, list: seq<T>)
    requires list != []
    ensures before + list == before + [list[0]] + list[1..]
  {
  }

  lemma {:induction false} ReadParts(parts: seq<Part>, st: Reading)
    requires forall k :: 0 <= k < |parts| ==> !Unsayable(parts[k])
    ensures ApplyAll(PartOptions(parts), st) == st.(parts := st.parts + parts)
  {
    hide Apply, PartOption, Unsayable;
    if parts != [] {
      var next := st.(parts := st.parts + [parts[0]]);
      ReadPart(parts[0], st);
      ReadParts(parts[1..], next);
      FirstThenRest(st.parts, parts);
      ApplyFirst(PartOption(parts[0]), PartOptions(parts[1..]), st);
    }
  }

  lemma {:induction false} ApplyFirst(first: Argument, rest: seq<Argument>, st: Reading)
    ensures ApplyAll([first] + rest, st) == ApplyAll(rest, Apply(first, st))
  {
    hide Apply;
    assert ([first] + rest)[1..] == rest;
  }

  /** What the body's arguments add. */
  function BodyRead(body: Body, st: Reading): Reading {
    match body
    case NoBody => st
    case Raw(text) => if text == "" then st else st.(data := st.data + [Wire(text)], binaryOnly := false)
    case Urlencoded(fields) =>
      st.(data := st.data + Wires(FieldTexts(fields)), binaryOnly := st.binaryOnly && fields == [])
    case Multipart(parts) => st.(parts := st.parts + parts)
    case Binary(fileName) => if fileName == "" then st else st.(data := st.data + [File(fileName)])
  }

  lemma {:induction false} ReadBodyOptions(body: Body, st: Reading)
    requires body.Multipart? ==> FirstUnsayable(body.parts).None?
    ensures ApplyAll(BodyOptions(body), st) == BodyRead(body, st)
  {
    WrittenKinds();
    hide ValueOption, ApplyAll, FieldOptions, PartOptions, TakeHeader, TakePart, UrlencodeDatum, IndexOf;
    match body
    case NoBody => ApplyNone(st);
    case Raw(text) =>
      if text == "" {
        ApplyNone(st);
      } else {
        ApplyOne(Argument("--data-raw", text, true), st);
      }
    case Urlencoded(fields) => ReadFields(fields, st);
    case Multipart(parts) => ReadParts(parts, st);
    case Binary(fileName) =>
      if fileName == "" {
        ApplyNone(st);
      } else {
        ApplyOne(Argument("--data-binary", "@" + fileName, true), st);
        assert ("@" + fileName)[1..] == fileName;
      }
  }

  lemma {:induction false} ApplyNone(st: Reading)
    ensures ApplyAll([], st) == st
  {
  }

  /** The reading of the whole command: what the method and the address say, then the headers, then the body. */
  lemma {:induction false} ReadCommand(request: Request)
    requires !(request.body.Multipart? && FirstUnsayable(request.body.parts).Some?)
    ensures var st := ApplyAll(HeaderLines(request.headers), Started(request));
            Reads(Command(request)) == Finish(BodyRead(request.body, st))
  {
    var start := VerbArgument(request.verb) + [AddressArgument(request.url)];
    var headers := HeaderLines(request.headers);
    var body := BodyOptions(request.body);
    var st := ApplyAll(headers, Started(request));
    CommandWords(request);
    TailWritten(request);
    ReadArguments(Tail(request), Nothing);
    ReadStart(request);
    assert ApplyAll(Tail(request), Nothing) == ApplyAll(body, st) by {
      ApplyConcat(start, headers, Nothing);
      ApplyConcat(start + headers, body, Nothing);
    }
    ReadBodyOptions(request.body, st);
    assert (["curl"] + AllWords(Tail(request)))[1..] == AllWords(Tail(request));
  }

  // ---- The round trip ----

  lemma {:induction false} UpperOfVerb(verb: string)
    requires IsHttpMethod(verb)
    ensures Upper(verb) == verb
  {
    assert forall i :: 0 <= i < |verb| ==> IsMethodChar(verb[i]) && UpperChar(verb[i]) == verb[i];
  }

  /** The body that is read back, from a reading that holds no body yet. */
  lemma {:induction false} BodyReadBack(body: Body, st: Reading)
    requires body.Multipart? ==> FirstUnsayable(body.parts).None?
    requires st.data == [] && st.parts == [] && !st.get && st.binaryOnly
    ensures var t := BodyRead(body, st);
            && t == st.(data := t.data, parts := t.parts, binaryOnly := t.binaryOnly)
            && BodyWarnings(t) == []
            && (ReadBody(t).NoBody? <==> KeptBody(body).NoBody?)
            && (ReadBody(t) == KeptBody(body) <==> SayableBody(KeptBody(body), ContentType(st.headers).Or("")))
  {
    var t := BodyRead(body, st);
    match body
    case NoBody =>
    case Raw(text) =>
      if text != "" {
        OneWire(text);
        assert t.data == [Wire(text)];
      }
    case Urlencoded(fields) =>
      assert t.data == Wires(FieldTexts(fields));
      WiresHold(FieldTexts(fields));
      SearchParamsRoundTrip(fields);
    case Multipart(parts) =>
      assert t.parts == parts;
    case Binary(fileName) =>
      if fileName != "" {
        OneFile(fileName);
        assert t.data == [File(fileName)];
      }
  }

  lemma {:induction false} OneWire(text: string)
    ensures WireTexts([Wire(text)]) == [text] && FileNames([Wire(text)]) == [] && Join([text], "&") == text
  {
    assert [Wire(text)][1..] == [];
  }

  lemma {:induction false} OneFile(fileName: string)
    ensures FileNames([File(fileName)]) == [fileName]
  {
    assert [File(fileName)][1..] == [];
  }

  lemma {:induction false} FinishRead(st: Reading, url: string)
    requires st.urls == [url] && !st.get && BodyWarnings(st) == []
    ensures var verb := ReadVerb(st, ReadBody(st));
            Finish(st) == if IsHttpMethod(verb)
                          then Ok(Parsed(Request(verb, url, st.headers, ReadBody(st)), st.basic, st.warnings))
                          else Err(NotAMethod(verb))
  {
    hide IsHttpMethod, ReadBody, BodyWarnings, ReadVerb;
    assert st.warnings + [] + [] == st.warnings;
  }

  /** The method that is read back: the one that was written, but for a GET with a body. */
  lemma {:induction false} ReadVerbBack(request: Request, st: Reading, body: Body)
    requires st.verb == Started(request).verb && st.head == Started(request).head
    requires body.NoBody? <==> KeptBody(request.body).NoBody?
    ensures var verb := ReadVerb(st, body);
            (IsHttpMethod(verb) && verb == request.verb)
            <==> IsHttpMethod(request.verb) && (request.verb == "GET" ==> KeptBody(request.body).NoBody?)
  {
    if IsHttpMethod(request.verb) {
      UpperOfVerb(request.verb);
    }
    hide IsHttpMethod, KeptBody, Upper;
  }

  lemma {:induction false} UnsayablePart(request: Request)
    requires request.body.Multipart? && FirstUnsayable(request.body.parts).Some?
    ensures !Sayable(request) && Reads(Command(request)).Err?
  {
    CommentIsNoCommand(FirstUnsayable(request.body.parts).value);
    hide Reads, Comment;
  }

  /**
   * The round trip, for every request there is. A sayable request is read back as it is kept, with no warning and
   * nothing left over; and a request that is not sayable is never read back as itself.
   */
  lemma {:induction false} RoundTrip(request: Request)
    ensures Sayable(request) ==> Reads(Command(request)) == Ok(Parsed(Kept(request), None, []))
    ensures !Sayable(request) ==>
              Reads(Command(request)).Err? || Reads(Command(request)).value.request != Kept(request)
  {
    if request.body.Multipart? && FirstUnsayable(request.body.parts).Some? {
      UnsayablePart(request);
    } else {
      hide Reads, Command, HeaderLines, ApplyAll, ReadBody, KeptBody, BodyRead, SayableBody, SayableHeaders;
      hide IsHttpMethod, BodyWarnings, ContentType, Named, Upper, Finish, ReadVerb;
      var start := Started(request);
      var st := ApplyAll(HeaderLines(request.headers), start);
      var t := BodyRead(request.body, st);
      ReadCommand(request);
      ReadHeaders(request.headers, start);
      assert [] + Named(request.headers) == Named(request.headers);
      BodyReadBack(request.body, st);
      FinishRead(t, request.url);
      ReadVerbBack(request, t, ReadBody(t));
    }
  }

  /**
   * A command reads back as the request it was written from, less what is switched off, exactly when curl can say it.
   */
  lemma {:induction false} ReadBackIffSayable(request: Request)
    ensures Reads(Command(request)) == Ok(Parsed(Kept(request), None, [])) <==> Sayable(request)
  {
    RoundTrip(request);
  }

  lemma {:induction false} WitnessHeaders(headers: seq<Header>)
    requires headers == [("Content-Type", "t")]
    ensures Named(headers) == headers && SayableHeaders(headers) && !IsFormType(ContentType(headers).Or(""))
  {
    assert headers[1..] == [];
    assert Lower("Content-Type") == "content-type" && Lower("t") == "t";
  }

  /** A GET with a body cannot be said: it comes back as a POST. */
  lemma {:induction false} GetWithBodyIsPost()
    ensures var request := Request("GET", "u", [("Content-Type", "t")], Raw("b"));
            && Reads(Command(request)).Ok?
            && Reads(Command(request)).value.request == request.(verb := "POST")
  {
    var headers := [("Content-Type", "t")];
    var request := Request("GET", "u", headers, Raw("b"));
    WitnessHeaders(headers);
    assert IsHttpMethod("POST");
    hide Reads, Command, HeaderLines, ApplyAll, ReadBody, BodyRead, SayableHeaders, IsFormType;
    hide IsHttpMethod, BodyWarnings, ContentType, Named, Finish, ReadVerb;
    var st := ApplyAll(HeaderLines(headers), Started(request));
    ReadCommand(request);
    ReadHeaders(headers, Started(request));
    var t := BodyRead(request.body, st);
    assert [] + headers == headers;
    BodyReadBack(request.body, st);
    FinishRead(t, "u");
    assert ReadVerb(t, ReadBody(t)) == "POST" by { PostOfData(t); }
  }

  lemma {:induction false} PostOfData(st: Reading)
    requires st.verb.None? && !st.head && !ReadBody(st).NoBody?
    ensures ReadVerb(st, ReadBody(st)) == "POST"
  {
  }
}
