/**
 * What can be said on a cURL command line: each thing by itself, how its text is written, the options it is said with,
 * and what it comes to in the request. None of it is said through the reader.
 */
module CurlSayings {
  import opened Basics
  import opened CurlReader
  import opened ExportRequests
  import opened FormUrlencoded
  import opened ShellLexer
  import opened Text

  /** A character of a file name in quotes, behind a backslash or not. */
  datatype FileChar = FileChar(c: char, escaped: bool)

  datatype Saying =
    | ToAddress(url: string)
    | WithMethod(text: string)
    | WithHeader(name: string, value: string)
    | WithBareHeader(name: string)
    | WithBrokenHeader(text: string)
    | WithData(text: string)
    | WithDataFile(file: string)
    | WithBinary(text: string)
    | WithBinaryFile(file: string)
    | WithRawData(text: string)
    | WithEncoded(content: string)
    | WithEncodedField(name: string, content: string)
    | WithEncodedFile(name: string, file: string)
    | WithPart(name: string, value: string)
    | WithTypedPart(name: string, value: string, kind: string)
    | WithFilePart(name: string, file: string, more: string)
    | WithQuotedFile(name: string, chars: seq<FileChar>, more: string)
    | WithReadPart(name: string, file: string, more: string)
    | WithTextPart(name: string, value: string)
    | WithBrokenPart(text: string)
    | WithBrokenText(text: string)
    | AsUser(name: string)
    | AsUserWith(name: string, password: string)
    | WithCookies(text: string)
    | WithCookieFile(file: string)
    | WithAgent(text: string)
    | WithReferer(text: string)
    | AsQuery
    | AsHead
    | Unchecked
    | Packed
    | Dropped(option: string, text: string)
    | Strange(option: string)
    | Silent(option: string)

  // ---- How it is written ----

  predicate HasValue(s: Saying) {
    !(s.AsQuery? || s.AsHead? || s.Unchecked? || s.Packed? || s.Strange? || s.Silent?)
  }

  function CharsWritten(chars: seq<FileChar>): string {
    if chars == [] then ""
    else (if chars[0].escaped then ['\\', chars[0].c] else [chars[0].c]) + CharsWritten(chars[1..])
  }

  function CharsText(chars: seq<FileChar>): string {
    seq(|chars|, k requires 0 <= k < |chars| => chars[k].c)
  }

  /** The value as it stands in the word after the option, or in the option's own. */
  function ValueText(s: Saying): string
    requires HasValue(s)
  {
    match s
    case ToAddress(url) => url
    case WithMethod(text) => text
    case WithHeader(name, value) => name + ":" + value
    case WithBareHeader(name) => name + ";"
    case WithBrokenHeader(text) => text
    case WithData(text) => text
    case WithDataFile(file) => "@" + file
    case WithBinary(text) => text
    case WithBinaryFile(file) => "@" + file
    case WithRawData(text) => text
    case WithEncoded(content) => content
    case WithEncodedField(name, content) => name + "=" + content
    case WithEncodedFile(name, file) => name + "@" + file
    case WithPart(name, value) => name + "=" + value
    case WithTypedPart(name, value, kind) => name + "=" + (value + ";type=" + kind)
    case WithFilePart(name, file, more) => name + "=" + ("@" + file + more)
    case WithQuotedFile(name, chars, more) => name + "=" + ("@\"" + CharsWritten(chars) + "\"" + more)
    case WithReadPart(name, file, more) => name + "=" + ("<" + file + more)
    case WithTextPart(name, value) => name + "=" + value
    case WithBrokenPart(text) => text
    case WithBrokenText(text) => text
    case AsUser(name) => name
    case AsUserWith(name, password) => name + ":" + password
    case WithCookies(text) => text
    case WithCookieFile(file) => file
    case WithAgent(text) => text
    case WithReferer(text) => text
    case Dropped(_, text) => text
  }

  /** A header line is a name that is not empty, a colon, and a value. */
  predicate IsHeaderLine(text: string) {
    text != "" && text[0] != ':' && ':' in text
  }

  /** A type stands at the end of the text. */
  ghost predicate HasType(text: string) {
    exists value, kind :: text == value + ";type=" + kind && ';' !in kind
  }

  /** What ends a file's name: nothing, or one of these and whatever comes after it. */
  predicate EndsName(more: string, marks: string) {
    more != "" ==> more[0] in marks
  }

  predicate AreChars(chars: seq<FileChar>) {
    forall k :: 0 <= k < |chars| ==>
      if chars[k].escaped then !IsLineTerminator(chars[k].c) else chars[k].c != '"' && chars[k].c != '\\'
  }

  /** A quoted name begins the text: its characters, and the quote that closes it. */
  ghost predicate IsClosed(text: string) {
    exists chars, more :: AreChars(chars) && text == CharsWritten(chars) + "\"" + more
  }

  /** What is said is what its text says, and not something else that is written so. */
  ghost predicate IsSaid(s: Saying) {
    match s
    case WithHeader(name, _) => name != "" && ':' !in name
    case WithBareHeader(name) => !IsHeaderLine(name + ";")
    case WithBrokenHeader(text) => !IsHeaderLine(text) && !EndsWith(text, ";")
    case WithData(text) => !StartsWith(text, "@")
    case WithBinary(text) => !StartsWith(text, "@")
    case WithEncoded(content) => '=' !in content && '@' !in content
    case WithEncodedField(name, _) => '=' !in name && '@' !in name
    case WithEncodedFile(name, _) => '=' !in name && '@' !in name
    case WithPart(name, value) =>
      '=' !in name && !StartsWith(value, "@") && !StartsWith(value, "<") && !HasType(value)
    case WithTypedPart(name, value, kind) =>
      '=' !in name && !StartsWith(value, "@") && !StartsWith(value, "<") && ';' !in kind
    case WithFilePart(name, file, more) =>
      && '=' !in name && ';' !in file && ',' !in file && EndsName(more, ";,")
      && (StartsWith(file, "\"") ==> !IsClosed((file + more)[1..]))
    case WithQuotedFile(name, chars, _) => '=' !in name && AreChars(chars)
    case WithReadPart(name, file, more) => '=' !in name && ';' !in file && EndsName(more, ";")
    case WithTextPart(name, _) => '=' !in name
    case WithBrokenPart(text) => '=' !in text
    case WithBrokenText(text) => '=' !in text
    case AsUser(name) => ':' !in name
    case AsUserWith(name, _) => ':' !in name
    case WithCookies(text) => '=' in text
    case WithCookieFile(file) => '=' !in file
    case _ => true
  }

  // ---- The options it is said with ----

  predicate IsName(s: Saying, name: string) {
    match s
    case ToAddress(_) => name == "--url"
    case WithMethod(_) => name == "-X" || name == "--request"
    case WithHeader(_, _) => name == "-H" || name == "--header"
    case WithBareHeader(_) => name == "-H" || name == "--header"
    case WithBrokenHeader(_) => name == "-H" || name == "--header"
    case WithData(_) => name == "-d" || name == "--data" || name == "--data-ascii"
    case WithDataFile(_) => name == "-d" || name == "--data" || name == "--data-ascii"
    case WithBinary(_) => name == "--data-binary"
    case WithBinaryFile(_) => name == "--data-binary"
    case WithRawData(_) => name == "--data-raw"
    case WithEncoded(_) => name == "--data-urlencode"
    case WithEncodedField(_, _) => name == "--data-urlencode"
    case WithEncodedFile(_, _) => name == "--data-urlencode"
    case WithPart(_, _) => name == "-F" || name == "--form"
    case WithTypedPart(_, _, _) => name == "-F" || name == "--form"
    case WithFilePart(_, _, _) => name == "-F" || name == "--form"
    case WithQuotedFile(_, _, _) => name == "-F" || name == "--form"
    case WithReadPart(_, _, _) => name == "-F" || name == "--form"
    case WithBrokenPart(_) => name == "-F" || name == "--form"
    case WithTextPart(_, _) => name == "--form-string"
    case WithBrokenText(_) => name == "--form-string"
    case AsUser(_) => name == "-u" || name == "--user"
    case AsUserWith(_, _) => name == "-u" || name == "--user"
    case WithCookies(_) => name == "-b" || name == "--cookie"
    case WithCookieFile(_) => name == "-b" || name == "--cookie"
    case WithAgent(_) => name == "-A" || name == "--user-agent"
    case WithReferer(_) => name == "-e" || name == "--referer"
    case AsQuery => name == "-G" || name == "--get"
    case AsHead => name == "-I" || name == "--head"
    case Unchecked => name == "-k" || name == "--insecure"
    case Packed => name == "--compressed"
    case Dropped(option, _) => name == option && IsSkipped(name)
    case Strange(option) => name == option && !IsQuiet(name) && !IsSkipped(name) && !IsRead(name)
    case Silent(option) => name == option && IsQuiet(name)
  }

  /** The names of the options that are read. */
  predicate IsRead(name: string) {
    || name == "--url" || name == "-X" || name == "--request" || name == "-H" || name == "--header"
    || name == "-d" || name == "--data" || name == "--data-ascii" || name == "--data-binary"
    || name == "--data-raw" || name == "--data-urlencode" || name == "-F" || name == "--form"
    || name == "--form-string" || name == "-u" || name == "--user" || name == "-b" || name == "--cookie"
    || name == "-A" || name == "--user-agent" || name == "-e" || name == "--referer" || name == "-G"
    || name == "--get" || name == "-I" || name == "--head" || name == "-k" || name == "--insecure"
    || name == "--compressed"
  }

  // ---- What it comes to ----

  function HeadersOf(s: Saying): seq<Header> {
    match s
    case WithHeader(name, value) => [(Trim(name), Trim(value))]
    case WithBareHeader(name) => [(Trim(name), "")]
    case WithCookies(text) => [("Cookie", text)]
    case WithAgent(text) => [("User-Agent", text)]
    case WithReferer(text) => [("Referer", text)]
    case _ => []
  }

  /** What goes on the wire of a data option, or the file it names. */
  function DataOf(s: Saying): seq<Datum> {
    match s
    case WithData(text) => [Wire(text)]
    case WithBinary(text) => [Wire(text)]
    case WithRawData(text) => [Wire(text)]
    case WithEncoded(content) => [Wire(FormEncode(content))]
    case WithEncodedField(name, content) =>
      [Wire(if name == "" then FormEncode(content) else name + "=" + FormEncode(content))]
    case WithDataFile(file) => [File(file)]
    case WithBinaryFile(file) => [File(file)]
    case WithEncodedFile(_, file) => [File(file)]
    case _ => []
  }

  function PartsOf(s: Saying): seq<Part> {
    match s
    case WithPart(name, value) => [TextPart(name, value)]
    case WithTypedPart(name, value, _) => [TextPart(name, value)]
    case WithTextPart(name, value) => [TextPart(name, value)]
    case WithFilePart(name, file, _) => [FilePart(name, file)]
    case WithQuotedFile(name, chars, _) => [FilePart(name, CharsText(chars))]
    case WithReadPart(name, _, _) => [TextPart(name, "")]
    case _ => []
  }

  function WarningsOf(s: Saying): seq<Warning> {
    match s
    case WithBrokenHeader(text) => [HeaderWithoutColon(text)]
    case WithBrokenPart(text) => [PartWithoutEquals(text)]
    case WithBrokenText(text) => [PartWithoutEquals(text)]
    case WithReadPart(name, file, _) => [PartTakesFile(name, file)]
    case WithCookieFile(file) => [CookiesOfFile(file)]
    case Dropped(option, text) => [OptionWithValue(option, text)]
    case Strange(option) => [UnknownOption(option)]
    case Unchecked => [Insecure]
    case Packed => [Compressed]
    case _ => []
  }

  function UrlsOf(s: Saying): seq<string> {
    if s.ToAddress? then [s.url] else []
  }

  function HeadersSaid(all: seq<Saying>): seq<Header> {
    if all == [] then [] else HeadersSaid(all[..|all| - 1]) + HeadersOf(all[|all| - 1])
  }

  function DataSaid(all: seq<Saying>): seq<Datum> {
    if all == [] then [] else DataSaid(all[..|all| - 1]) + DataOf(all[|all| - 1])
  }

  function PartsSaid(all: seq<Saying>): seq<Part> {
    if all == [] then [] else PartsSaid(all[..|all| - 1]) + PartsOf(all[|all| - 1])
  }

  function WarningsSaid(all: seq<Saying>): seq<Warning> {
    if all == [] then [] else WarningsSaid(all[..|all| - 1]) + WarningsOf(all[|all| - 1])
  }

  function UrlsSaid(all: seq<Saying>): seq<string> {
    if all == [] then [] else UrlsSaid(all[..|all| - 1]) + UrlsOf(all[|all| - 1])
  }

  /** The method that is named last, in upper case. */
  function MethodSaid(all: seq<Saying>): Option<string> {
    if all == [] then None
    else
      var last := all[|all| - 1];
      if last.WithMethod? then Some(Upper(last.text)) else MethodSaid(all[..|all| - 1])
  }

  /** The user that is named last. */
  function UserSaid(all: seq<Saying>): Option<Basic> {
    if all == [] then None
    else
      match all[|all| - 1]
      case AsUser(name) => Some(Basic(name, ""))
      case AsUserWith(name, password) => Some(Basic(name, password))
      case _ => UserSaid(all[..|all| - 1])
  }

  predicate IsAllBinary(all: seq<Saying>) {
    forall k :: 0 <= k < |all| ==> DataOf(all[k]) == [] || all[k].WithBinary? || all[k].WithBinaryFile?
  }

  /** The texts of the data, and the files that stand among it. */
  function Texts(data: seq<Datum>): seq<string> {
    if data == [] then []
    else
      match data[|data| - 1]
      case Wire(text) => Texts(data[..|data| - 1]) + [text]
      case File(_) => Texts(data[..|data| - 1])
  }

  function Files(data: seq<Datum>): seq<string> {
    if data == [] then []
    else
      match data[|data| - 1]
      case Wire(_) => Files(data[..|data| - 1])
      case File(name) => Files(data[..|data| - 1]) + [name]
  }

  // ---- The request that is said ----

  /** The last header that names the type of the body. */
  predicate IsLastType(headers: seq<Header>, k: nat) {
    && k < |headers| && NamesType(headers[k])
    && forall l :: k < l < |headers| ==> !NamesType(headers[l])
  }

  predicate HasNoType(headers: seq<Header>) {
    forall k :: 0 <= k < |headers| ==> !NamesType(headers[k])
  }

  predicate IsFormName(text: string) {
    text == "" || StartsWith(Lower(text), "application/x-www-form-urlencoded")
  }

  /** Data is a form when no header says a type, or the last that does says a form's. */
  ghost predicate IsForm(headers: seq<Header>) {
    HasNoType(headers) || exists k: nat :: IsLastType(headers, k) && IsFormName(headers[k].1)
  }

  predicate NamesType(header: Header) {
    Lower(header.0) == "content-type"
  }

  /** The one thing said of the data is the file it is in. */
  predicate IsOneFile(all: seq<Saying>) {
    |DataSaid(all)| == 1 && DataSaid(all)[0].File? && IsAllBinary(all)
  }

  /** The parts of a form, or else the one file, or else the data: as a form's fields or as it stands. */
  ghost predicate IsBody(all: seq<Saying>, body: Body) {
    var wire := Join(Texts(DataSaid(all)), "&");
    if PartsSaid(all) != [] then body == Multipart(PartsSaid(all))
    else if AsQuery in all || DataSaid(all) == [] then body == NoBody
    else if IsOneFile(all) then body == Binary(DataSaid(all)[0].name)
    else if IsForm(HeadersSaid(all)) then body == Urlencoded(SearchParams(wire))
    else body == Raw(wire)
  }

  /** The first address; under `-G` with the texts of the data in its query. */
  predicate IsUrl(all: seq<Saying>, url: string)
    requires UrlsSaid(all) != []
  {
    var (first, query) := (UrlsSaid(all)[0], Join(Texts(DataSaid(all)), "&"));
    if AsQuery in all && PartsSaid(all) == [] && query != "" then
      url == first + (if '?' in first then "&" else "?") + query
    else url == first
  }

  function AddressWarnings(urls: seq<string>): seq<Warning>
    requires urls != []
  {
    if |urls| == 1 then [] else [ManyAddresses(urls[1..])]
  }

  /** What of the data is lost: all of it beside a form's parts, or the files that were not read. */
  function DataWarnings(all: seq<Saying>): seq<Warning> {
    if PartsSaid(all) != [] then if DataSaid(all) == [] then [] else [FormAndData]
    else if Files(DataSaid(all)) == [] || (AsQuery !in all && IsOneFile(all)) then []
    else [DataOfFiles(Files(DataSaid(all)))]
  }

  /** The method that is named, or else the one that goes with the body. */
  predicate IsMethod(all: seq<Saying>, body: Body, verb: string) {
    match MethodSaid(all)
    case Some(named) => verb == named
    case None => verb == if AsHead in all then "HEAD" else if body == NoBody then "GET" else "POST"
  }

  /** What a command comes to that says all this. */
  ghost predicate IsOutcome(all: seq<Saying>, r: Result<Parsed, ImportError>) {
    if UrlsSaid(all) == [] then r == Err(NoAddress)
    else
      match r
      case Ok(Parsed(Request(verb, url, headers, body), basic, warnings)) =>
        && IsHttpMethod(verb) && IsMethod(all, body, verb) && IsUrl(all, url) && IsBody(all, body)
        && headers == HeadersSaid(all) && basic == UserSaid(all)
        && warnings == WarningsSaid(all) + AddressWarnings(UrlsSaid(all)) + DataWarnings(all)
      case Err(error) =>
        error.NotAMethod? && !IsHttpMethod(error.text) &&
        exists body :: IsBody(all, body) && IsMethod(all, body, error.text)
  }
}
