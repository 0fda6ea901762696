/** The command that is written for a request: a list of arguments, each quoted as its kind asks, joined over lines. */
module CurlWriter {
  import opened Basics
  import opened ExportRequests
  import opened FormUrlencoded
  import opened Text

  /** Inside single quotes a quote is written by closing them, escaping it and opening them again. */
  function EscapeQuotes(value: string): string {
    if value == "" then ""
    else (if value[0] == '\'' then "'\\''" else [value[0]]) + EscapeQuotes(value[1..])
  }

  /** The text between single quotes that the lexer takes for exactly `value`. */
  function ShellQuote(value: string): string {
    "'" + EscapeQuotes(value) + "'"
  }

  /** A file name inside double quotes, as curl's `-F` reads it. */
  function EscapeFileName(name: string): string {
    if name == "" then ""
    else (if name[0] == '\\' || name[0] == '"' then ['\\', name[0]] else [name[0]]) + EscapeFileName(name[1..])
  }

  function FieldArgument(field: Field): string {
    if field.0 != "" then "--data-urlencode " + ShellQuote(FormEncode(field.0) + "=" + field.1)
    else "--data-raw " + ShellQuote("=" + FormEncode(field.1))
  }

  function PartArgument(part: Part): string {
    match part
    case TextPart(name, value) => "--form-string " + ShellQuote(name + "=" + value)
    case FilePart(name, fileName) => "-F " + ShellQuote(name + "=@\"" + EscapeFileName(fileName) + "\"")
  }

  function BodyArguments(body: Body): seq<string> {
    match body
    case NoBody => []
    case Raw(text) => if text != "" then ["--data-raw " + ShellQuote(text)] else []
    case Urlencoded(fields) => seq(|fields|, k requires 0 <= k < |fields| => FieldArgument(fields[k]))
    case Multipart(parts) => seq(|parts|, k requires 0 <= k < |parts| => PartArgument(parts[k]))
    case Binary(fileName) => if fileName != "" then ["--data-binary " + ShellQuote("@" + fileName)] else []
  }

  /** A part name that curl would read as ending early. */
  predicate Unsayable(part: Part) {
    exists i :: 0 <= i < |part.name| && part.name[i] in "=;\"\r\n"
  }

  /** The first part of the body whose name cannot be said, if there is one. */
  function FirstUnsayable(parts: seq<Part>): (part: Option<Part>)
    ensures part.Some? ==> part.value in parts && Unsayable(part.value)
    ensures part.None? ==> forall k :: 0 <= k < |parts| ==> !Unsayable(parts[k])
  {
    if parts == [] then None
    else if Unsayable(parts[0]) then Some(parts[0])
    else FirstUnsayable(parts[1..])
  }

  function LowerHexDigit(n: int): char
    requires 0 <= n < 16
  {
    if n < 10 then '0' + n as char else 'a' + (n - 10) as char
  }

  /** A character inside a JSON string literal. */
  function JsonChar(c: char): (s: string)
    ensures forall i :: 0 <= i < |s| ==> s[i] >= ' '
  {
    if c == '"' then "\\\""
    else if c == '\\' then "\\\\"
    else if c == '\U{8}' then "\\b"
    else if c == '\U{C}' then "\\f"
    else if c == '\n' then "\\n"
    else if c == '\r' then "\\r"
    else if c == '\t' then "\\t"
    else if c < ' ' then "\\u00" + [LowerHexDigit(c as int / 16), LowerHexDigit(c as int % 16)]
    else [c]
  }

  function JsonChars(text: string): (s: string)
    ensures forall i :: 0 <= i < |s| ==> s[i] >= ' '
  {
    if text == "" then "" else JsonChar(text[0]) + JsonChars(text[1..])
  }

  /** The name with every character that could end a line escaped, quoted as a word. */
  function CommentName(name: string): string {
    ShellQuote("\"" + JsonChars(name) + "\"")
  }

  const BeforeName: seq<string> := ["# curl cannot say", " this request: the", " name of the form", " part "]
  const AfterName: seq<string> := [
    " holds \"=\", \";\", a", " quote or a line", " break, which curl", " reads as the end", " of the name."]

  /** The whole text written instead of a command, for a part whose name `Unsayable` rules out. */
  function Comment(part: Part): string {
    Join(BeforeName, "") + CommentName(part.name) + Join(AfterName, "")
  }

  predicate IsLetter(c: char) {
    'A' <= c <= 'Z' || 'a' <= c <= 'z'
  }

  predicate IsPlainWord(s: string) {
    s != "" && forall i :: 0 <= i < |s| ==> IsLetter(s[i])
  }

  function MethodArguments(verb: string): seq<string> {
    if verb == "HEAD" then ["--head"]
    else if verb == "GET" then []
    else ["-X " + if IsPlainWord(verb) then verb else ShellQuote(verb)]
  }

  function UrlArgument(url: string): string {
    if StartsWith(url, "-") then "--url " + ShellQuote(url) else ShellQuote(url)
  }

  /** One `-H` for each header with a name. */
  function HeaderArguments(headers: seq<Header>): seq<string> {
    if headers == [] then []
    else
      (if headers[0].0 != "" then ["-H " + ShellQuote(headers[0].0 + ": " + headers[0].1)] else [])
      + HeaderArguments(headers[1..])
  }

  function Arguments(request: Request): seq<string> {
    ["curl"] + (MethodArguments(request.verb) + [UrlArgument(request.url)]
                + HeaderArguments(request.headers) + BodyArguments(request.body))
  }

  const LineBreak: string := " \\\n  "

  /** The text `BuildCurl` writes. */
  function Command(request: Request): string {
    if request.body.Multipart? && FirstUnsayable(request.body.parts).Some? then
      Comment(FirstUnsayable(request.body.parts).value)
    else Join(Arguments(request), LineBreak)
  }

  lemma {:induction false} HeaderArgumentsStep(headers: seq<Header>, n: nat)
    requires n < |headers|
    ensures HeaderArguments(headers[..n + 1])
         == HeaderArguments(headers[..n])
            + if headers[n].0 != "" then ["-H " + ShellQuote(headers[n].0 + ": " + headers[n].1)] else []
  {
    if n == 0 {
      assert headers[..1][1..] == [];
    } else {
      assert headers[..n + 1][1..] == headers[1..][..n] && headers[..n][1..] == headers[1..][..n - 1];
      HeaderArgumentsStep(headers[1..], n - 1);
    }
  }

  lemma {:induction false} UrlText(url: string)
    ensures UrlArgument(url) == if StartsWith(url, "-") then "--url " + ShellQuote(url) else ShellQuote(url)
  {
  }

  lemma {:induction false} Regroup<T>(a: seq<T>, b: seq<T>, c: seq<T>, d: seq<T>, e: seq<T>)
    ensures a + b + c + d + e == a + (b + c + d + e)
  {
  }

  method BuildCurl(request: Request) returns (text: string)
    ensures text == Command(request)
  {
    hide ShellQuote, UrlArgument, BodyArguments, Join, FirstUnsayable, Comment, IsPlainWord, StartsWith;
    assert UrlArgument(request.url) == if StartsWith(request.url, "-") then "--url " + ShellQuote(request.url)
                                       else ShellQuote(request.url) by { UrlText(request.url); }
    if request.body.Multipart? && FirstUnsayable(request.body.parts).Some? {
      return Comment(FirstUnsayable(request.body.parts).value);
    }
    var parts := ["curl"];
    if request.verb == "HEAD" {
      parts := parts + ["--head"];
    } else if request.verb != "GET" {
      parts := parts + ["-X " + if IsPlainWord(request.verb) then request.verb else ShellQuote(request.verb)];
    }
    parts := parts
      + [if StartsWith(request.url, "-") then "--url " + ShellQuote(request.url) else ShellQuote(request.url)];
    ghost var head := parts;
    assert head == ["curl"] + MethodArguments(request.verb) + [UrlArgument(request.url)];
    for n := 0 to |request.headers|
      invariant parts == head + HeaderArguments(request.headers[..n])
    {
      var (name, value) := request.headers[n];
      HeaderArgumentsStep(request.headers, n);
      if name != "" {
        parts := parts + ["-H " + ShellQuote(name + ": " + value)];
      }
    }
    assert request.headers[..|request.headers|] == request.headers;
    parts := parts + BodyArguments(request.body);
    Regroup(["curl"], MethodArguments(request.verb), [UrlArgument(request.url)], HeaderArguments(request.headers),
      BodyArguments(request.body));
    text := Join(parts, LineBreak);
  }

  // ---- The comment is one line ----

  lemma {:induction false} EscapeKeepsLine(value: string)
    requires forall i :: 0 <= i < |value| ==> value[i] >= ' '
    ensures forall i :: 0 <= i < |EscapeQuotes(value)| ==> EscapeQuotes(value)[i] >= ' '
  {
    if value != "" {
      EscapeKeepsLine(value[1..]);
    }
  }

  /** Whatever the part is called, the comment holds no control character: no line break of the name's ends it. */
  lemma {:induction false} CommentIsOneLine(part: Part)
    ensures StartsWith(Comment(part), "#")
    ensures forall i :: 0 <= i < |Comment(part)| ==> Comment(part)[i] >= ' '
  {
    var (before, name, after) := (Join(BeforeName, ""), CommentName(part.name), Join(AfterName, ""));
    assert Comment(part) == before + name + after;
    hide Comment, CommentName, Join;
    SentenceIsPrintable();
    NameIsPrintable(part.name);
    PrintableConcat(before, name);
    PrintableConcat(before + name, after);
    assert (before + name + after)[..1] == before[..1];
  }

  lemma {:induction false} NameIsPrintable(name: string)
    ensures forall i :: 0 <= i < |CommentName(name)| ==> CommentName(name)[i] >= ' '
  {
    var literal := "\"" + JsonChars(name) + "\"";
    EscapeKeepsLine(literal);
    hide EscapeQuotes, JsonChars;
    PrintableConcat("'", EscapeQuotes(literal));
    PrintableConcat("'" + EscapeQuotes(literal), "'");
  }

  lemma {:induction false} SentenceIsPrintable()
    ensures StartsWith(Join(BeforeName, ""), "#")
    ensures forall i :: 0 <= i < |Join(BeforeName, "")| ==> Join(BeforeName, "")[i] >= ' '
    ensures forall i :: 0 <= i < |Join(AfterName, "")| ==> Join(AfterName, "")[i] >= ' '
  {
    PrintableJoin(BeforeName);
    PrintableJoin(AfterName);
    assert Join(BeforeName, "")[0] == BeforeName[0][0];
  }

  lemma {:induction false} PrintableJoin(texts: seq<string>)
    requires forall k, i :: 0 <= k < |texts| && 0 <= i < |texts[k]| ==> texts[k][i] >= ' '
    ensures forall i :: 0 <= i < |Join(texts, "")| ==> Join(texts, "")[i] >= ' '
  {
    if texts != [] {
      PrintableJoin(texts[1..]);
    }
  }

  lemma {:induction false} PrintableConcat(a: string, b: string)
    requires forall i :: 0 <= i < |a| ==> a[i] >= ' '
    requires forall i :: 0 <= i < |b| ==> b[i] >= ' '
    ensures forall i :: 0 <= i < |a + b| ==> (a + b)[i] >= ' '
  {
  }
}
