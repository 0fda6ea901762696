/** What one option with its value adds to a reading: exactly what is said with it. */
module CurlHearing {
  import opened Basics
  import opened CurlReader
  import opened CurlSayings
  import opened ExportRequests
  import opened FormUrlencoded
  import opened Text

  // ---- What one saying adds ----

  /** A reading with what is said added to it. */
  function Heard(st: Reading, s: Saying): Reading {
    st.(
      verb := if s.WithMethod? then Some(Upper(s.text)) else st.verb,
      headers := st.headers + HeadersOf(s),
      data := st.data + DataOf(s),
      parts := st.parts + PartsOf(s),
      urls := st.urls + UrlsOf(s),
      basic := if s.AsUser? then Some(Basic(s.name, ""))
               else if s.AsUserWith? then Some(Basic(s.name, s.password))
               else st.basic,
      get := st.get || s.AsQuery?,
      head := st.head || s.AsHead?,
      binaryOnly := st.binaryOnly && (DataOf(s) == [] || s.WithBinary? || s.WithBinaryFile?),
      warnings := st.warnings + WarningsOf(s))
  }

  function KindOf(s: Saying): Kind
    requires HasValue(s) && !s.Dropped?
  {
    match s
    case ToAddress(_) => Address
    case WithMethod(_) => Verb
    case WithHeader(_, _) => HeaderLine
    case WithBareHeader(_) => HeaderLine
    case WithBrokenHeader(_) => HeaderLine
    case WithData(_) => Data
    case WithDataFile(_) => Data
    case WithBinary(_) => DataBinary
    case WithBinaryFile(_) => DataBinary
    case WithRawData(_) => DataRaw
    case WithEncoded(_) => DataUrlencode
    case WithEncodedField(_, _) => DataUrlencode
    case WithEncodedFile(_, _) => DataUrlencode
    case WithPart(_, _) => Form
    case WithTypedPart(_, _, _) => Form
    case WithFilePart(_, _, _) => Form
    case WithQuotedFile(_, _, _) => Form
    case WithReadPart(_, _, _) => Form
    case WithTextPart(_, _) => FormString
    case WithBrokenPart(_) => Form
    case WithBrokenText(_) => FormString
    case AsUser(_) => User
    case AsUserWith(_, _) => User
    case WithCookies(_) => Cookie
    case WithCookieFile(_) => Cookie
    case WithAgent(_) => UserAgent
    case WithReferer(_) => Referer
  }

  lemma {:induction false} Unchanged(st: Reading)
    ensures st.headers + [] == st.headers && st.data + [] == st.data && st.parts + [] == st.parts
    ensures st.urls + [] == st.urls && st.warnings + [] == st.warnings
  {
  }

  lemma {:induction false} CutAt(before: string, c: char, after: string)
    requires c !in before
    ensures var s := before + [c] + after;
            IndexOf(s, c) == |before| && s[..|before|] == before && s[|before| + 1..] == after
  {
    FirstIndex(before, c, after);
  }

  lemma {:induction false} HearHeader(name: string, value: string, st: Reading)
    requires name != "" && ':' !in name
    ensures TakeHeader(name + ":" + value, st) == st.(headers := st.headers + [(Trim(name), Trim(value))])
  {
    CutAt(name, ':', value);
    assert name + ":" + value == name + [':'] + value;
    hide IndexOf, Trim;
  }

  lemma {:induction false} NoHeaderLine(text: string)
    requires !IsHeaderLine(text)
    ensures IndexOf(text, ':') <= 0
  {
  }

  lemma {:induction false} HearBareHeader(name: string, st: Reading)
    requires !IsHeaderLine(name + ";")
    ensures TakeHeader(name + ";", st) == st.(headers := st.headers + [(Trim(name), "")])
  {
    var text := name + ";";
    NoHeaderLine(text);
    assert text[..|text| - 1] == name && text[|text| - 1..] == ";";
    hide IndexOf, Trim;
  }

  lemma {:induction false} HearBrokenHeader(text: string, st: Reading)
    requires !IsHeaderLine(text) && !EndsWith(text, ";")
    ensures TakeHeader(text, st) == st.Warn(HeaderWithoutColon(text))
  {
    NoHeaderLine(text);
    hide IndexOf, Trim;
  }

  lemma {:induction false} HearFile(file: string)
    ensures StartsWith("@" + file, "@") && ("@" + file)[1..] == file
  {
  }

  lemma {:induction false} HearEncoded(content: string)
    requires '=' !in content && '@' !in content
    ensures UrlencodeDatum(content) == Wire(FormEncode(content))
  {
    hide FormEncode;
  }

  lemma {:induction false} HearEncodedField(name: string, content: string)
    requires '=' !in name && '@' !in name
    ensures UrlencodeDatum(name + "=" + content)
         == Wire(if name == "" then FormEncode(content) else name + "=" + FormEncode(content))
  {
    var text := name + "=" + content;
    CutAt(name, '=', content);
    assert text == name + ['='] + content;
    assert forall i :: 0 <= i <= |name| ==> text[i] != '@';
    hide FormEncode, IndexOf;
    assert "" + "" + FormEncode(content) == FormEncode(content);
  }

  lemma {:induction false} HearEncodedFile(name: string, file: string)
    requires '=' !in name && '@' !in name
    ensures UrlencodeDatum(name + "@" + file) == File(file)
  {
    var text := name + "@" + file;
    CutAt(name, '@', file);
    assert text == name + ['@'] + file;
    assert forall i :: 0 <= i <= |name| ==> text[i] != '=';
    hide FormEncode, IndexOf;
  }

  // ---- The parts of a form ----

  lemma {:induction false} QuotedIs(chars: seq<FileChar>, more: string)
    requires AreChars(chars)
    ensures QuotedFile(CharsWritten(chars) + "\"" + more) == Some(CharsText(chars))
  {
    var s := CharsWritten(chars) + "\"" + more;
    if chars == [] {
      assert s == "\"" + more;
    } else {
      var (first, later) := (chars[0], chars[1..]);
      var rest := CharsWritten(later) + "\"" + more;
      QuotedIs(later, more);
      assert CharsText(chars) == [first.c] + CharsText(later);
      if first.escaped {
        assert s == ['\\', first.c] + rest && s[2..] == rest;
      } else {
        assert s == [first.c] + rest && s[1..] == rest;
      }
    }
  }

  /** The characters of a quoted name, and what comes after its closing quote. */
  lemma {:induction false} QuotedChars(s: string) returns (chars: seq<FileChar>, more: string)
    requires QuotedFile(s).Some?
    ensures AreChars(chars) && s == CharsWritten(chars) + "\"" + more
    decreases |s|
  {
    chars := [];
    if s[0] == '"' {
      more := s[1..];
      assert s == "" + "\"" + more;
    } else {
      var escaped := s[0] == '\\';
      var first := FileChar(if escaped then s[1] else s[0], escaped);
      var rest := if escaped then s[2..] else s[1..];
      assert s == (if escaped then ['\\', first.c] else [first.c]) + rest;
      var later;
      later, more := QuotedChars(rest);
      hide QuotedFile;
      chars := [first] + later;
      CharsMore(first, later, more);
    }
  }

  lemma {:induction false} CharsMore(first: FileChar, later: seq<FileChar>, more: string)
    ensures CharsWritten([first] + later) + "\"" + more
         == (if first.escaped then ['\\', first.c] else [first.c]) + (CharsWritten(later) + "\"" + more)
  {
    assert ([first] + later)[1..] == later;
  }

  lemma {:induction false} NeverClosed(s: string)
    requires !IsClosed(s)
    ensures QuotedFile(s).None?
  {
    if QuotedFile(s).Some? {
      var chars, more := QuotedChars(s);
    }
  }

  lemma {:induction false} UpToMarkIs(file: string, more: string)
    requires ';' !in file && ',' !in file && EndsName(more, ";,")
    ensures UpToMark(file + more) == file
  {
    if file == "" {
      assert file + more == more;
      assert more != "" ==> more[0] == ';' || more[0] == ',';
    } else {
      assert (file + more)[1..] == file[1..] + more;
      UpToMarkIs(file[1..], more);
      assert file == [file[0]] + file[1..];
    }
  }

  lemma {:induction false} SplitAtMark(file: string, more: string)
    requires ';' !in file && EndsName(more, ";")
    ensures Split(file + more, ';')[0] == file
  {
    if more == "" {
      assert file + more == file;
    } else {
      assert more == [';'] + more[1..];
      assert file + more == file + [';'] + more[1..];
      CutAt(file, ';', more[1..]);
    }
  }

  lemma {:induction false} TypedIs(value: string, kind: string)
    requires ';' !in kind
    ensures WithoutType(value + ";type=" + kind) == value
  {
    var content := value + ";type=" + kind;
    var after := "type=" + kind;
    assert content == value + [';'] + after;
    assert ';' !in after;
    LastIndex(value, ';', after);
    hide LastIndexOf;
    var end := ";type=" + kind;
    assert content[|value|..] == end && content[..|value|] == value;
    assert end[..6] == ";type=";
  }

  lemma {:induction false} TypeAtEnd(value: string, last: nat)
    requires last < |value| && ';' !in value[last + 1..] && StartsWith(value[last..], ";type=")
    ensures HasType(value)
  {
    var (end, kind) := (value[last..], value[last + 6..]);
    assert end == end[..6] + end[6..] && end[6..] == kind;
    forall i | 0 <= i < |kind| ensures kind[i] != ';' {
      assert kind[i] == value[last + 1..][5 + i];
    }
    assert value == value[..last] + (";type=" + kind);
    assert value == value[..last] + ";type=" + kind;
    assert ';' !in kind;
    assert HasType(value[..last] + ";type=" + kind);
  }

  lemma {:induction false} UntypedIs(value: string)
    requires !HasType(value)
    ensures WithoutType(value) == value
  {
    var last := LastIndexOf(value, ';');
    if last != -1 && StartsWith(value[last..], ";type=") {
      TypeAtEnd(value, last);
    }
  }

  lemma {:induction false} PartAt(name: string, content: string)
    requires '=' !in name
    ensures var value := name + "=" + content;
            IndexOf(value, '=') == |name| && value[..|name|] == name && value[|name| + 1..] == content
  {
    CutAt(name, '=', content);
    assert name + "=" + content == name + ['='] + content;
  }

  /** What a part's content says, where it says no file. */
  lemma {:induction false} HearText(name: string, content: string, st: Reading)
    requires '=' !in name && !StartsWith(content, "@") && !StartsWith(content, "<")
    ensures TakePart(name + "=" + content, st) == st.(parts := st.parts + [TextPart(name, WithoutType(content))])
  {
    PartAt(name, content);
    NoQuotedFile(content);
    hide IndexOf, WithoutType, QuotedFile, UpToMark, Split;
  }

  lemma {:induction false} NoQuotedFile(content: string)
    ensures StartsWith(content, "@\"") ==> StartsWith(content, "@")
  {
    if StartsWith(content, "@\"") {
      assert content[..1] == content[..2][..1];
    }
  }

  lemma {:induction false} OpenQuote(file: string, more: string)
    requires EndsName(more, ";,") && (StartsWith(file, "\"") ==> !IsClosed((file + more)[1..]))
    ensures var content := "@" + file + more;
            StartsWith(content, "@\"") ==> QuotedFile(content[2..]).None?
  {
    var content := "@" + file + more;
    if StartsWith(content, "@\"") {
      assert content[..2][1] == '"';
      assert content[1] == '"' && content[1..] == file + more;
      if file != "" {
        assert file[..1] == [file[0]];
        assert content[2..] == (file + more)[1..];
        NeverClosed(content[2..]);
      }
    }
  }

  lemma {:induction false} HearFilePart(name: string, file: string, more: string, st: Reading)
    requires IsSaid(WithFilePart(name, file, more))
    ensures TakePart(name + "=" + ("@" + file + more), st) == st.(parts := st.parts + [FilePart(name, file)])
  {
    OpenQuote(file, more);
    UpToMarkIs(file, more);
    hide UpToMark, QuotedFile, TakePart;
    var text := file + more;
    assert "@" + file + more == "@" + text;
    HearFileText(name, text, file, st);
  }

  lemma {:induction false} HearFileText(name: string, text: string, file: string, st: Reading)
    requires '=' !in name && UpToMark(text) == file
    requires StartsWith("@" + text, "@\"") ==> QuotedFile(("@" + text)[2..]).None?
    ensures TakePart(name + "=" + ("@" + text), st) == st.(parts := st.parts + [FilePart(name, file)])
  {
    var content := "@" + text;
    PartAt(name, content);
    assert content[1..] == text && content[..1] == "@";
    hide IndexOf, WithoutType, QuotedFile, UpToMark, Split;
  }

  lemma {:induction false} HearQuotedFile(name: string, chars: seq<FileChar>, more: string, st: Reading)
    requires '=' !in name && AreChars(chars)
    ensures TakePart(name + "=" + ("@\"" + CharsWritten(chars) + "\"" + more), st)
         == st.(parts := st.parts + [FilePart(name, CharsText(chars))])
  {
    QuotedIs(chars, more);
    HearQuoted(name, CharsWritten(chars), more, CharsText(chars), st);
  }

  lemma {:induction false} HearQuoted(name: string, written: string, more: string, text: string, st: Reading)
    requires '=' !in name && QuotedFile(written + "\"" + more) == Some(text)
    ensures TakePart(name + "=" + ("@\"" + written + "\"" + more), st)
         == st.(parts := st.parts + [FilePart(name, text)])
  {
    var content := "@\"" + written + "\"" + more;
    PartAt(name, content);
    assert content[2..] == written + "\"" + more && content[..2] == "@\"";
    hide IndexOf, WithoutType, QuotedFile, UpToMark, Split;
  }

  lemma {:induction false} HearReadPart(name: string, file: string, more: string, st: Reading)
    requires '=' !in name && ';' !in file && EndsName(more, ";")
    ensures TakePart(name + "=" + ("<" + file + more), st)
         == st.Warn(PartTakesFile(name, file)).(parts := st.parts + [TextPart(name, "")])
  {
    SplitAtMark(file, more);
    hide Split, TakePart;
    var text := file + more;
    assert "<" + file + more == "<" + text;
    HearReadText(name, text, file, st);
  }

  lemma {:induction false} HearReadText(name: string, text: string, file: string, st: Reading)
    requires '=' !in name && Split(text, ';')[0] == file
    ensures TakePart(name + "=" + ("<" + text), st)
         == st.Warn(PartTakesFile(name, file)).(parts := st.parts + [TextPart(name, "")])
  {
    var content := "<" + text;
    PartAt(name, content);
    hide IndexOf, WithoutType, QuotedFile, UpToMark, Split;
    assert content[1..] == text && content[..1] == "<";
    NoQuotedFile(content);
    assert !StartsWith(content, "@");
  }

  lemma {:induction false} HearTypedPart(name: string, value: string, kind: string, st: Reading)
    requires IsSaid(WithTypedPart(name, value, kind))
    ensures TakePart(name + "=" + (value + ";type=" + kind), st) == st.(parts := st.parts + [TextPart(name, value)])
  {
    var content := value + ";type=" + kind;
    TypedIs(value, kind);
    hide TakePart, WithoutType;
    FirstIsNot(value, kind, "@");
    FirstIsNot(value, kind, "<");
    HearText(name, content, st);
  }

  lemma {:induction false} FirstIsNot(value: string, kind: string, mark: string)
    requires |mark| == 1 && mark != ";" && !StartsWith(value, mark)
    ensures !StartsWith(value + ";type=" + kind, mark)
  {
    var content := value + ";type=" + kind;
    if value == "" {
      assert content[0] == ';';
    } else {
      assert content[0] == value[0] && value[..1] == [value[0]];
    }
  }

  // ---- Any saying ----

  lemma {:induction false} HearParts(s: Saying, st: Reading)
    requires IsSaid(s) && (s.WithPart? || s.WithTypedPart? || s.WithBrokenPart?)
    ensures TakePart(ValueText(s), st) == Heard(st, s)
  {
    Unchanged(st);
    match s
    case WithPart(name, value) =>
      UntypedIs(value);
      HearText(name, value, st);
      hide TakePart, WithoutType;
    case WithTypedPart(name, value, kind) =>
      HearTypedPart(name, value, kind, st);
      hide TakePart;
    case WithBrokenPart(_) =>
  }

  lemma {:induction false} HearFileParts(s: Saying, st: Reading)
    requires IsSaid(s) && (s.WithFilePart? || s.WithQuotedFile? || s.WithReadPart?)
    ensures TakePart(ValueText(s), st) == Heard(st, s)
  {
    Unchanged(st);
    hide TakePart, CharsWritten, CharsText;
    match s
    case WithFilePart(name, file, more) => HearFilePart(name, file, more, st);
    case WithQuotedFile(name, chars, more) => HearQuotedFile(name, chars, more, st);
    case WithReadPart(name, file, more) => HearReadPart(name, file, more, st);
  }

  lemma {:induction false} HearHeaders(s: Saying, st: Reading)
    requires IsSaid(s) && (s.WithHeader? || s.WithBareHeader? || s.WithBrokenHeader?)
    ensures TakeHeader(ValueText(s), st) == Heard(st, s)
  {
    Unchanged(st);
    hide TakeHeader, Trim;
    match s
    case WithHeader(name, value) => HearHeader(name, value, st);
    case WithBareHeader(name) => HearBareHeader(name, st);
    case WithBrokenHeader(text) => HearBrokenHeader(text, st);
  }

  lemma {:induction false} HearData(s: Saying, st: Reading)
    requires IsSaid(s)
    requires s.WithData? || s.WithDataFile? || s.WithBinary? || s.WithBinaryFile? || s.WithRawData?
    ensures Take(KindOf(s), ValueText(s), st) == Heard(st, s)
  {
    Unchanged(st);
    hide TakeHeader, TakePart, UrlencodeDatum, StartsWith;
    match s
    case WithDataFile(file) => HearFile(file);
    case WithBinaryFile(file) => HearFile(file);
    case _ =>
  }

  lemma {:induction false} HearEncodings(s: Saying, st: Reading)
    requires IsSaid(s) && (s.WithEncoded? || s.WithEncodedField? || s.WithEncodedFile?)
    ensures Take(KindOf(s), ValueText(s), st) == Heard(st, s)
  {
    Unchanged(st);
    hide TakeHeader, TakePart, UrlencodeDatum, FormEncode;
    match s
    case WithEncoded(content) => HearEncoded(content);
    case WithEncodedField(name, content) => HearEncodedField(name, content);
    case WithEncodedFile(name, file) => HearEncodedFile(name, file);
  }

  lemma {:induction false} HearUser(name: string, password: string, st: Reading)
    requires ':' !in name
    ensures Take(User, name, st) == st.(basic := Some(Basic(name, "")))
    ensures Take(User, name + ":" + password, st) == st.(basic := Some(Basic(name, password)))
  {
    CutAt(name, ':', password);
    assert name + ":" + password == name + [':'] + password;
    hide TakeHeader, TakePart, UrlencodeDatum, IndexOf;
  }

  lemma {:induction false} HearUsers(s: Saying, st: Reading)
    requires IsSaid(s) && (s.AsUser? || s.AsUserWith?)
    ensures Take(KindOf(s), ValueText(s), st) == Heard(st, s)
  {
    Unchanged(st);
    hide Take;
    match s
    case AsUser(name) => HearUser(name, "", st);
    case AsUserWith(name, password) => HearUser(name, password, st);
  }

  lemma {:induction false} HearCookies(s: Saying, st: Reading)
    requires IsSaid(s) && (s.WithCookies? || s.WithCookieFile? || s.WithAgent? || s.WithReferer?)
    ensures Take(KindOf(s), ValueText(s), st) == Heard(st, s)
  {
    Unchanged(st);
    hide TakeHeader, TakePart, UrlencodeDatum, IndexOf;
  }

  lemma {:induction false} HearTarget(s: Saying, st: Reading)
    requires s.ToAddress? || s.WithMethod?
    ensures Take(KindOf(s), ValueText(s), st) == Heard(st, s)
  {
    Unchanged(st);
    hide TakeHeader, TakePart, UrlencodeDatum, IndexOf, Upper;
  }

  lemma {:induction false} HearTextPart(name: string, value: string, st: Reading)
    requires '=' !in name
    ensures Take(FormString, name + "=" + value, st) == st.(parts := st.parts + [TextPart(name, value)])
    ensures Take(FormString, name, st) == st.Warn(PartWithoutEquals(name))
  {
    PartAt(name, value);
    hide TakeHeader, TakePart, UrlencodeDatum, IndexOf;
  }

  lemma {:induction false} HearTexts(s: Saying, st: Reading)
    requires IsSaid(s) && (s.WithTextPart? || s.WithBrokenText?)
    ensures Take(KindOf(s), ValueText(s), st) == Heard(st, s)
  {
    Unchanged(st);
    hide Take;
    match s
    case WithTextPart(name, value) => HearTextPart(name, value, st);
    case WithBrokenText(text) => HearTextPart(text, "", st);
  }

  /** What an option with a value is heard as. */
  lemma {:induction false} TakeIsHeard(s: Saying, st: Reading)
    requires IsSaid(s) && HasValue(s) && !s.Dropped?
    ensures Take(KindOf(s), ValueText(s), st) == Heard(st, s)
  {
    hide IsSaid, Heard, ValueText, TakeHeader, TakePart, UrlencodeDatum;
    if s.WithHeader? || s.WithBareHeader? || s.WithBrokenHeader? {
      HearHeaders(s, st);
    } else if s.WithPart? || s.WithTypedPart? || s.WithBrokenPart? {
      HearParts(s, st);
    } else if s.WithFilePart? || s.WithQuotedFile? || s.WithReadPart? {
      HearFileParts(s, st);
    } else {
      hide Take;
      if s.WithEncoded? || s.WithEncodedField? || s.WithEncodedFile? {
        HearEncodings(s, st);
      } else if s.WithTextPart? || s.WithBrokenText? {
        HearTexts(s, st);
      } else if s.WithData? || s.WithDataFile? || s.WithBinary? || s.WithBinaryFile? || s.WithRawData? {
        HearData(s, st);
      } else if s.AsUser? || s.AsUserWith? {
        HearUsers(s, st);
      } else if s.ToAddress? || s.WithMethod? {
        HearTarget(s, st);
      } else {
        HearCookies(s, st);
      }
    }
  }
}
