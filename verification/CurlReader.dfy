/** Reading a cURL command: an option grammar over the words of the line, and a fold of what the options say. */
module CurlReader {
  import opened Basics
  import opened ExportRequests
  import opened FormUrlencoded
  import opened ShellLexer
  import opened Text

  datatype Basic = Basic(username: string, password: string)

  /** Each kind of thing that reading drops, with the text it is said of. */
  datatype Warning =
    | HeaderWithoutColon(text: string)
    | PartWithoutEquals(text: string)
    | PartTakesFile(name: string, file: string)
    | CookiesOfFile(file: string)
    | OptionWithValue(option: string, text: string)
    | UnknownOption(option: string)
    | Insecure
    | Compressed
    | ManyAddresses(others: seq<string>)
    | FormAndData
    | DataOfFiles(files: seq<string>)

  datatype Parsed = Parsed(request: Request, basic: Option<Basic>, warnings: seq<Warning>)

  /** One data option's contribution: literal text, or a file left unread. */
  datatype Datum = Wire(text: string) | File(name: string)

  /** The kinds of option that take a value. */
  datatype Kind =
    | Verb | HeaderLine | Data | DataRaw | DataBinary | DataUrlencode | Form | FormString
    | User | Cookie | UserAgent | Referer | Address

  /** The options without a value that a reading takes note of. */
  datatype Flag = Get | Head | NoCertificate | Compress

  function ValueOption(word: string): Option<Kind> {
    if word == "-X" || word == "--request" then Some(Verb)
    else if word == "-H" || word == "--header" then Some(HeaderLine)
    else if word == "-d" || word == "--data" || word == "--data-ascii" then Some(Data)
    else if word == "--data-raw" then Some(DataRaw)
    else if word == "--data-binary" then Some(DataBinary)
    else if word == "--data-urlencode" then Some(DataUrlencode)
    else if word == "-F" || word == "--form" then Some(Form)
    else if word == "--form-string" then Some(FormString)
    else if word == "-u" || word == "--user" then Some(User)
    else if word == "-b" || word == "--cookie" then Some(Cookie)
    else if word == "-A" || word == "--user-agent" then Some(UserAgent)
    else if word == "-e" || word == "--referer" then Some(Referer)
    else if word == "--url" then Some(Address)
    else None
  }

  function FlagOption(word: string): Option<Flag> {
    if word == "-G" || word == "--get" then Some(Get)
    else if word == "-I" || word == "--head" then Some(Head)
    else if word == "-k" || word == "--insecure" then Some(NoCertificate)
    else if word == "--compressed" then Some(Compress)
    else None
  }

  /** The options without a value that leave a reading as it is. */
  predicate IsQuiet(word: string) {
    || word == "-s" || word == "--silent" || word == "-S" || word == "--show-error" || word == "-v"
    || word == "--verbose" || word == "-i" || word == "--include" || word == "-L" || word == "--location"
    || word == "-f" || word == "--fail" || word == "-#" || word == "--progress-bar" || word == "-g"
    || word == "--globoff" || word == "-N" || word == "--no-buffer" || word == "--http1.1" || word == "--http2"
    || word == "-4" || word == "-6" || word == "-q" || word == "-n" || word == "-j"
  }

  /** The options that leave a reading as it is and take the next word with them. */
  predicate IsSkipped(word: string) {
    || word == "-o" || word == "--output" || word == "-w" || word == "--write-out" || word == "-m"
    || word == "--max-time" || word == "--connect-timeout" || word == "--retry" || word == "--retry-delay"
    || word == "--retry-max-time" || word == "-x" || word == "--proxy" || word == "-U" || word == "--proxy-user"
    || word == "--cacert" || word == "--capath" || word == "-E" || word == "--cert" || word == "--key"
    || word == "--cert-type" || word == "--key-type" || word == "-c" || word == "--cookie-jar" || word == "-T"
    || word == "--upload-file" || word == "--resolve" || word == "--connect-to" || word == "-D"
    || word == "--dump-header" || word == "--max-redirs" || word == "-C" || word == "--continue-at"
    || word == "-r" || word == "--range" || word == "-y" || word == "--speed-time" || word == "-Y"
    || word == "--speed-limit" || word == "--limit-rate" || word == "-K" || word == "--config"
    || word == "--interface" || word == "--ciphers" || word == "--tls-max" || word == "-z"
    || word == "--time-cond" || word == "--oauth2-bearer" || word == "--aws-sigv4" || word == "--unix-socket"
    || word == "--noproxy" || word == "--pinnedpubkey" || word == "--trace" || word == "--trace-ascii"
    || word == "--stderr" || word == "--proto" || word == "--proto-default"
  }

  /** What the options read so far say. */
  datatype Reading = Reading(
    verb: Option<string>,
    headers: seq<Header>,
    data: seq<Datum>,
    parts: seq<Part>,
    urls: seq<string>,
    basic: Option<Basic>,
    get: bool,
    head: bool,
    binaryOnly: bool,
    warnings: seq<Warning>)
  {
    function Warn(warning: Warning): Reading {
      this.(warnings := warnings + [warning])
    }
  }

  const Nothing: Reading := Reading(None, [], [], [], [], None, false, false, true, [])

  /** An `=` before any `@` splits off a name and makes the rest text to encode; an `@` before any `=` names a file. */
  function UrlencodeDatum(value: string): Datum {
    var equals := IndexOf(value, '=');
    var at := IndexOf(value, '@');
    if equals != -1 && (at == -1 || equals < at) then
      var name := value[..equals];
      Wire(name + (if name != "" then "=" else "") + FormEncode(value[equals + 1..]))
    else if at != -1 then File(value[at + 1..])
    else Wire(FormEncode(value))
  }

  predicate IsLineTerminator(c: char) {
    c == '\n' || c == '\r' || c == '\U{2028}' || c == '\U{2029}'
  }

  /** The file name up to the closing quote, its escapes read; none when the quotes do not close on it. */
  function QuotedFile(s: string): Option<string>
    decreases |s|
  {
    if s == "" then None
    else if s[0] == '"' then Some("")
    else if s[0] == '\\' then
      if |s| > 1 && !IsLineTerminator(s[1]) then Prefixed(s[1], QuotedFile(s[2..])) else None
    else Prefixed(s[0], QuotedFile(s[1..]))
  }

  function Prefixed(c: char, rest: Option<string>): Option<string> {
    if rest.Some? then Some([c] + rest.value) else None
  }

  /** The text up to the first `;` or `,`. */
  function UpToMark(s: string): string {
    if s == "" || s[0] == ';' || s[0] == ',' then "" else [s[0]] + UpToMark(s[1..])
  }

  /** A text part without the type it says at its end. */
  function WithoutType(content: string): string {
    var last := LastIndexOf(content, ';');
    if last != -1 && StartsWith(content[last..], ";type=") then content[..last] else content
  }

  function TakePart(value: string, st: Reading): Reading {
    var equals := IndexOf(value, '=');
    if equals == -1 then st.Warn(PartWithoutEquals(value))
    else
      var name := value[..equals];
      var content := value[equals + 1..];
      var quoted := if StartsWith(content, "@\"") then QuotedFile(content[2..]) else None;
      if quoted.Some? then st.(parts := st.parts + [FilePart(name, quoted.value)])
      else if StartsWith(content, "@") then st.(parts := st.parts + [FilePart(name, UpToMark(content[1..]))])
      else if StartsWith(content, "<") then
        st.Warn(PartTakesFile(name, Split(content[1..], ';')[0])).(parts := st.parts + [TextPart(name, "")])
      else st.(parts := st.parts + [TextPart(name, WithoutType(content))])
  }

  function TakeHeader(value: string, st: Reading): Reading {
    var colon := IndexOf(value, ':');
    if colon > 0 then st.(headers := st.headers + [(Trim(value[..colon]), Trim(value[colon + 1..]))])
    else if EndsWith(value, ";") then st.(headers := st.headers + [(Trim(value[..|value| - 1]), "")])
    else st.Warn(HeaderWithoutColon(value))
  }

  /** What an option with its value says. */
  function Take(kind: Kind, value: string, st: Reading): Reading {
    match kind
    case Verb => st.(verb := Some(Upper(value)))
    case HeaderLine => TakeHeader(value, st)
    case Data =>
      st.(binaryOnly := false,
          data := st.data + [if StartsWith(value, "@") then File(value[1..]) else Wire(value)])
    case DataBinary => st.(data := st.data + [if StartsWith(value, "@") then File(value[1..]) else Wire(value)])
    case DataRaw => st.(binaryOnly := false, data := st.data + [Wire(value)])
    case DataUrlencode => st.(binaryOnly := false, data := st.data + [UrlencodeDatum(value)])
    case Form => TakePart(value, st)
    case FormString =>
      var equals := IndexOf(value, '=');
      if equals == -1 then st.Warn(PartWithoutEquals(value))
      else st.(parts := st.parts + [TextPart(value[..equals], value[equals + 1..])])
    case User =>
      var colon := IndexOf(value, ':');
      st.(basic := Some(if colon == -1 then Basic(value, "") else Basic(value[..colon], value[colon + 1..])))
    case Cookie =>
      if '=' in value then st.(headers := st.headers + [("Cookie", value)]) else st.Warn(CookiesOfFile(value))
    case UserAgent => st.(headers := st.headers + [("User-Agent", value)])
    case Referer => st.(headers := st.headers + [("Referer", value)])
    case Address => st.(urls := st.urls + [value])
  }

  function TakeFlag(flag: Flag, st: Reading): Reading {
    match flag
    case Get => st.(get := true)
    case Head => st.(head := true)
    case NoCertificate => st.Warn(Insecure)
    case Compress => st.Warn(Compressed)
  }

  type Readings = Result<Reading, ImportError>

  /** The reading after some words, and the words that are left. */
  type Step = Result<(Reading, seq<string>), ImportError>

  /** A word that begins with `--`. */
  function LongOption(word: string, rest: seq<string>, st: Reading): (step: Step)
    ensures step.Ok? ==> |step.value.1| <= |rest| && step.value.1 == rest[|rest| - |step.value.1|..]
  {
    if ValueOption(word).Some? then
      if rest == [] then Err(NeedsValue(word)) else Ok((Take(ValueOption(word).value, rest[0], st), rest[1..]))
    else if FlagOption(word).Some? then Ok((TakeFlag(FlagOption(word).value, st), rest))
    else if IsSkipped(word) then
      if rest == [] then Err(NeedsValue(word)) else Ok((st.Warn(OptionWithValue(word, rest[0])), rest[1..]))
    else if !IsQuiet(word) then Ok((st.Warn(UnknownOption(word)), rest))
    else Ok((st, rest))
  }

  /**
   * The letters of a word from `at` on, each an option, until one takes a value: the rest of the word, or the next one.
   */
  function ShortOptions(word: string, at: nat, rest: seq<string>, st: Reading): (step: Step)
    requires at <= |word|
    ensures step.Ok? ==> |step.value.1| <= |rest|
    decreases |word| - at
  {
    if at == |word| then Ok((st, rest))
    else
      var option := ['-', word[at]];
      var tail := word[at + 1..];
      if ValueOption(option).Some? then
        if tail != "" then Ok((Take(ValueOption(option).value, tail, st), rest))
        else if rest == [] then Err(NeedsValue(option))
        else Ok((Take(ValueOption(option).value, rest[0], st), rest[1..]))
      else if IsSkipped(option) then
        if tail != "" then Ok((st.Warn(OptionWithValue(option, tail)), rest))
        else if rest == [] then Err(NeedsValue(option))
        else Ok((st.Warn(OptionWithValue(option, rest[0])), rest[1..]))
      else if FlagOption(option).Some? then ShortOptions(word, at + 1, rest, TakeFlag(FlagOption(option).value, st))
      else if !IsQuiet(option) then ShortOptions(word, at + 1, rest, st.Warn(UnknownOption(option)))
      else ShortOptions(word, at + 1, rest, st)
  }

  function ReadWord(word: string, rest: seq<string>, st: Reading): (step: Step)
    ensures step.Ok? ==> |step.value.1| <= |rest|
  {
    if !StartsWith(word, "-") || word == "-" then Ok((st.(urls := st.urls + [word]), rest))
    else if StartsWith(word, "--") then LongOption(word, rest, st)
    else ShortOptions(word, 1, rest, st)
  }

  function ReadWords(words: seq<string>, st: Reading): Readings
    decreases |words|
  {
    if words == [] then Ok(st)
    else
      match ReadWord(words[0], words[1..], st)
      case Err(e) => Err(e)
      case Ok((next, rest)) => ReadWords(rest, next)
  }

  // ---- From what was read to the request ----

  function WireTexts(data: seq<Datum>): seq<string> {
    if data == [] then [] else (if data[0].Wire? then [data[0].text] else []) + WireTexts(data[1..])
  }

  function FileNames(data: seq<Datum>): seq<string> {
    if data == [] then [] else (if data[0].File? then [data[0].name] else []) + FileNames(data[1..])
  }

  /** The value of the last header of that name, in any case. */
  function ContentType(headers: seq<Header>): Option<string> {
    if headers == [] then None
    else
      var last := headers[|headers| - 1];
      if Lower(last.0) == "content-type" then Some(last.1) else ContentType(headers[..|headers| - 1])
  }

  /** Whether data under this type is a form: curl's own type when none is named. */
  predicate IsFormType(contentType: string) {
    contentType == "" || StartsWith(Lower(contentType), "application/x-www-form-urlencoded")
  }

  function ReadBody(st: Reading): Body {
    var files := FileNames(st.data);
    var wire := Join(WireTexts(st.data), "&");
    if st.parts != [] then Multipart(st.parts)
    else if st.get || st.data == [] then NoBody
    else if |st.data| == 1 && |files| == 1 && st.binaryOnly then Binary(files[0])
    else if IsFormType(ContentType(st.headers).Or("")) then Urlencoded(SearchParams(wire))
    else Raw(wire)
  }

  /** The first address given, with the joined data appended to its query when a reading is a `-G` one without parts. */
  function ReadUrl(st: Reading): string
    requires st.urls != []
  {
    var url := st.urls[0];
    var query := Join(WireTexts(st.data), "&");
    if st.parts == [] && st.get && query != "" then url + (if '?' in url then "&" else "?") + query else url
  }

  function BodyWarnings(st: Reading): seq<Warning> {
    var files := FileNames(st.data);
    if st.parts != [] then if st.data != [] then [FormAndData] else []
    else if !st.get && |st.data| == 1 && |files| == 1 && st.binaryOnly then []
    else if files != [] then [DataOfFiles(files)]
    else []
  }

  function ReadVerb(st: Reading, body: Body): string {
    if st.verb.Some? then st.verb.value
    else if st.head then "HEAD"
    else if body.NoBody? then "GET"
    else "POST"
  }

  function Finish(st: Reading): (r: Result<Parsed, ImportError>) {
    if st.urls == [] then Err(NoAddress)
    else
      var body := ReadBody(st);
      var verb := ReadVerb(st, body);
      var warnings :=
        st.warnings + (if |st.urls| > 1 then [ManyAddresses(st.urls[1..])] else []) + BodyWarnings(st);
      if !IsHttpMethod(verb) then Err(NotAMethod(verb))
      else Ok(Parsed(Request(verb, ReadUrl(st), st.headers, body), st.basic, warnings))
  }

  /** The first word is `curl`, or `curl.exe`, in any case. */
  predicate IsCurlCommand(text: string) {
    var start := TrimStart(text);
    && StartsWith(Lower(start), "curl")
    && var after := if StartsWith(Lower(start[4..]), ".exe") then start[8..] else start[4..];
       after == "" || IsSpace(after[0])
  }

  /** What `ParseCurl` gives for a text. */
  function Reads(text: string): Result<Parsed, ImportError> {
    if !IsCurlCommand(text) then Err(NotCurl)
    else
      match WordsOf(text)
      case Err(e) => Err(e)
      case Ok(words) =>
        match ReadWords(if words == [] then [] else words[1..], Nothing)
        case Err(e) => Err(e)
        case Ok(st) => Finish(st)
  }

  method ParseCurl(text: string) returns (r: Result<Parsed, ImportError>)
    ensures r == Reads(text)
  {
    if !IsCurlCommand(text) {
      return Err(NotCurl);
    }
    var lexed: Words;
    if IsCmd(text) {
      lexed := CmdWords(text);
    } else {
      lexed := BashWords(text);
    }
    if lexed.Err? {
      return Err(lexed.error);
    }
    var words := if lexed.value == [] then [] else lexed.value[1..];
    var st := Nothing;
    var i := 0;
    assert words[0..] == words;
    while i < |words|
      invariant 0 <= i <= |words|
      invariant ReadWords(words[i..], st) == ReadWords(words, Nothing)
    {
      var step := ReadOne(words[i], words[i + 1..], st);
      assert words[i..][1..] == words[i + 1..];
      if step.Err? {
        return Err(step.error);
      }
      st := step.value.0;
      i := |words| - |step.value.1|;
      assert words[i..] == step.value.1;
    }
    assert words[i..] == [];
    r := Finish(st);
  }

  /** One word of the command, with the value its option takes from the words after it. */
  method ReadOne(word: string, rest: seq<string>, st: Reading) returns (step: Step)
    ensures step == ReadWord(word, rest, st)
    ensures step.Ok? ==> |step.value.1| <= |rest| && step.value.1 == rest[|rest| - |step.value.1|..]
  {
    if !StartsWith(word, "-") || word == "-" {
      return Ok((st.(urls := st.urls + [word]), rest));
    }
    if !StartsWith(word, "--") {
      step := ReadShort(word, rest, st);
      return;
    }
    return LongOption(word, rest, st);
  }

  /** The short options of one word. */
  method ReadShort(word: string, rest: seq<string>, before: Reading) returns (step: Step)
    requires |word| >= 1
    ensures step == ShortOptions(word, 1, rest, before)
    ensures step.Ok? ==> step.value.1 == rest[|rest| - |step.value.1|..]
  {
    var st := before;
    for at := 1 to |word|
      invariant ShortOptions(word, at, rest, st) == ShortOptions(word, 1, rest, before)
    {
      var option := ['-', word[at]];
      var tail := word[at + 1..];
      if ValueOption(option).Some? || IsSkipped(option) {
        if tail == "" && rest == [] {
          return Err(NeedsValue(option));
        }
        var value := if tail != "" then tail else rest[0];
        st := if ValueOption(option).Some? then Take(ValueOption(option).value, value, st)
              else st.Warn(OptionWithValue(option, value));
        return Ok((st, if tail != "" then rest else rest[1..]));
      }
      st := if FlagOption(option).Some? then TakeFlag(FlagOption(option).value, st)
            else if !IsQuiet(option) then st.Warn(UnknownOption(option))
            else st;
    }
    step := Ok((st, rest));
  }
}
