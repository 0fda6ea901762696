/** Cutting an address loses nothing, and splits no variable: up to how many variables, and exactly when. */
module AddressLaws {
  import opened Address
  import opened Basics
  import opened Text

  // ---- Parts written back with the marks they were cut at ----

  /** Texts with a mark between each and the next. */
  datatype Line = Line(first: string, rest: seq<(char, string)>)

  function Marks(rest: seq<(char, string)>): string {
    if rest == [] then "" else [rest[0].0] + rest[0].1 + Marks(rest[1..])
  }

  function Spell(line: Line): string {
    line.first + Marks(line.rest)
  }

  function Then(a: Line, mark: char, b: Line): Line {
    Line(a.first, a.rest + [(mark, b.first)] + b.rest)
  }

  function Ended(a: Line, mark: char, text: Option<string>): Line {
    if text.None? then a else Then(a, mark, Line(text.value, []))
  }

  /** Texts that are all parted by one mark. */
  function Listed(texts: seq<string>, mark: char): Line
    requires texts != []
  {
    Line(texts[0], seq(|texts| - 1, k requires 0 <= k < |texts| - 1 => (mark, texts[k + 1])))
  }

  function PairLine(pair: Pair): Line {
    Ended(Line(pair.key, []), '=', pair.value)
  }

  function QueryLine(pairs: seq<Pair>): Line
    requires pairs != []
  {
    if |pairs| == 1 then PairLine(pairs[0]) else Then(PairLine(pairs[0]), '&', QueryLine(pairs[1..]))
  }

  predicate Whole(p: Parts) {
    p.host != [] && p.path != Some([]) && p.query != Some([])
  }

  function AuthorityLine(p: Parts): Line
    requires Whole(p)
  {
    var host := Ended(Listed(p.host, '.'), ':', p.port);
    if p.login.None? then host
    else Then(Ended(Line(p.login.value.user, []), ':', p.login.value.password), '@', host)
  }

  function BodyLine(p: Parts): Line
    requires Whole(p)
  {
    if p.path.None? then AuthorityLine(p) else Then(AuthorityLine(p), '/', Listed(p.path.value, '/'))
  }

  function FrontLine(p: Parts): Line
    requires Whole(p)
  {
    if p.protocol.None? then BodyLine(p)
    else Then(Line(p.protocol.value, [(':', ""), ('/', "")]), '/', BodyLine(p))
  }

  /** The address as its parts and their marks: protocol, user, password, host, port, path, query, hash. */
  function Marked(p: Parts): Line
    requires Whole(p)
  {
    Ended(if p.query.None? then FrontLine(p) else Then(FrontLine(p), '?', QueryLine(p.query.value)), '#', p.hash)
  }

  lemma {:induction false} MarksConcat(a: seq<(char, string)>, b: seq<(char, string)>)
    ensures Marks(a + b) == Marks(a) + Marks(b)
  {
    if a == [] {
      assert a + b == b;
    } else {
      assert (a + b)[1..] == a[1..] + b;
      MarksConcat(a[1..], b);
    }
  }

  lemma {:induction false} SpellThen(a: Line, mark: char, b: Line)
    ensures Spell(Then(a, mark, b)) == Spell(a) + [mark] + Spell(b)
  {
    MarksConcat(a.rest + [(mark, b.first)], b.rest);
    MarksConcat(a.rest, [(mark, b.first)]);
    assert [(mark, b.first)][1..] == [];
    assert Marks([(mark, b.first)]) == [mark] + b.first;
    hide Marks;
    Regroup(a.first, Marks(a.rest), [mark], b.first, Marks(b.rest));
  }

  lemma {:induction false} Regroup(a: string, b: string, c: string, d: string, e: string)
    ensures a + ((b + (c + d)) + e) == (a + b) + c + (d + e)
  {
  }

  lemma {:induction false} SplitThree(s: string, at: nat)
    requires at < |s|
    ensures s == s[..at] + [s[at]] + s[at + 1..]
  {
  }

  // ---- The cut is lossless, whatever the text ----

  lemma {:induction false} CutJoins(s: string, mark: char)
    ensures var (before, after) := Cut(s, mark);
            if after.None? then before == s else s == before + [mark] + after.value
  {
    var at := IndexOf(s, mark);
    hide IndexOf;
    if at != -1 {
      SplitThree(s, at);
    }
  }

  lemma {:induction false} SpellCut(line: Line, s: string, mark: char)
    requires Spell(line) == Cut(s, mark).0
    ensures Spell(Ended(line, mark, Cut(s, mark).1)) == s
  {
    CutJoins(s, mark);
    var after := Cut(s, mark).1;
    if after.Some? {
      SpellThen(line, mark, Line(after.value, []));
      assert after.value + "" == after.value;
    }
  }

  lemma {:induction false} SpellPlain(text: string)
    ensures Spell(Line(text, [])) == text
  {
  }

  lemma {:induction false} SpellListed(texts: seq<string>, mark: char)
    requires texts != []
    ensures Spell(Listed(texts, mark)) == Join(texts, [mark])
  {
    if |texts| == 1 {
      assert Listed(texts, mark) == Line(texts[0], []);
      SpellPlain(texts[0]);
    } else {
      var rest := Listed(texts[1..], mark);
      SpellListed(texts[1..], mark);
      assert Listed(texts, mark) == Then(Line(texts[0], []), mark, rest);
      SpellThen(Line(texts[0], []), mark, rest);
      SpellPlain(texts[0]);
    }
  }

  lemma {:induction false} SpellSplit(s: string, mark: char)
    ensures Split(s, mark) != [] && Spell(Listed(Split(s, mark), mark)) == s
  {
    SplitJoins(s, mark);
    SpellListed(Split(s, mark), mark);
  }

  lemma {:induction false} SpellPair(text: string)
    ensures Spell(PairLine(PairOf(text))) == text
  {
    SpellPlain(Cut(text, '=').0);
    SpellCut(Line(Cut(text, '=').0, []), text, '=');
  }

  lemma {:induction false} SpellQuery(texts: seq<string>)
    requires texts != []
    ensures Spell(QueryLine(PairsOf(texts))) == Join(texts, "&")
  {
    var pairs := PairsOf(texts);
    SpellPair(texts[0]);
    hide PairOf, PairLine;
    if |texts| > 1 {
      assert pairs[1..] == PairsOf(texts[1..]);
      SpellQuery(texts[1..]);
      SpellThen(PairLine(pairs[0]), '&', QueryLine(pairs[1..]));
    }
  }

  lemma {:induction false} SpellHost(authority: string)
    ensures var (host, port) := HostOf(authority);
            host != [] && Spell(Ended(Listed(host, '.'), ':', port)) == authority
  {
    var colon := PortColon(authority);
    var (host, port) := HostOf(authority);
    var text := if colon == -1 then authority else authority[..colon];
    hide PortColon;
    SpellSplit(text, '.');
    SpellListed([text], '.');
    assert Spell(Listed(host, '.')) == text;
    hide StartsWith, Split, Listed, Spell;
    if port.Some? {
      SpellThen(Listed(host, '.'), ':', Line(port.value, []));
      SpellPlain(port.value);
      SplitThree(authority, colon);
    }
  }

  lemma {:induction false} SpellAuthority(authority: string, login: Option<Login>, host: Line)
    requires var at := LastIndexOf(authority, '@');
             && login == (if at == -1 then None else Some(LoginOf(authority[..at])))
             && Spell(host) == authority[at + 1..]
    ensures var whole := if login.None? then host
                         else Then(Ended(Line(login.value.user, []), ':', login.value.password), '@', host);
            Spell(whole) == authority
  {
    var at := LastIndexOf(authority, '@');
    if at != -1 {
      var text := authority[..at];
      SpellPlain(Cut(text, ':').0);
      SpellCut(Line(Cut(text, ':').0, []), text, ':');
      hide LastIndexOf, Cut, Spell, Ended, Then;
      SpellThen(Ended(Line(login.value.user, []), ':', login.value.password), '@', host);
      SplitThree(authority, at);
    }
  }

  lemma {:induction false} SpellBody(p: Parts, body: string)
    requires Whole(p)
    requires var (authority, path) := Cut(body, '/');
             && Spell(AuthorityLine(p)) == authority
             && p.path == if path.None? then None else Some(Split(path.value, '/'))
    ensures Spell(BodyLine(p)) == body
  {
    var (authority, path) := Cut(body, '/');
    CutJoins(body, '/');
    hide Cut, AuthorityLine, Spell, Split, Listed, Then;
    if path.Some? {
      SpellSplit(path.value, '/');
      SpellThen(AuthorityLine(p), '/', Listed(p.path.value, '/'));
    }
  }

  lemma {:induction false} SpellFront(text: string)
    ensures Whole(FrontOf(text)) && Spell(FrontLine(FrontOf(text))) == text
  {
    hide HostOf, LoginOf, ProtocolEnd, Cut, Split, LastIndexOf, Listed, Spell, Ended, Then;
    var p := FrontOf(text);
    var end := ProtocolEnd(text);
    var body := if end == -1 then text else text[end + 3..];
    var (authority, path) := Cut(body, '/');
    var at := LastIndexOf(authority, '@');
    SpellHost(authority[at + 1..]);
    if path.Some? {
      SpellSplit(path.value, '/');
    }
    assert Whole(p);
    SpellAuthority(authority, p.login, Ended(Listed(p.host, '.'), ':', p.port));
    SpellBody(p, body);
    hide BodyLine;
    if end != -1 {
      SpellProtocol(text, end, BodyLine(p));
    }
  }

  lemma {:induction false} SpellProtocol(text: string, end: nat, body: Line)
    requires StandsAt(text, "://", end) && Spell(body) == text[end + 3..]
    ensures Spell(Then(Line(text[..end], [(':', ""), ('/', "")]), '/', body)) == text
  {
    var front := Line(text[..end], [(':', ""), ('/', "")]);
    SpellThen(front, '/', body);
    assert front.rest[1..] == [('/', "")] && front.rest[1..][1..] == [];
    assert Marks(front.rest[1..]) == "/";
    assert Marks(front.rest) == ":/" && Spell(front) == text[..end] + ":/";
    hide Marks, Spell, Then;
    assert text == text[..end] + text[end..end + 3] + text[end + 3..];
  }

  /** The parts of any text, written back with their marks, are that text. */
  lemma {:induction false} CutIsLossless(text: string)
    ensures Whole(CutParts(text)) && Spell(Marked(CutParts(text))) == text
  {
    var (beforeHash, hash) := Cut(text, '#');
    var (front, query) := Cut(beforeHash, '?');
    var p := CutParts(text);
    SpellFront(front);
    assert FrontLine(p) == FrontLine(FrontOf(front)) by {
      hide FrontOf;
    }
    hide FrontOf, FrontLine, PairsOf;
    var beforeQuery := FrontLine(p);
    CutJoins(beforeHash, '?');
    if query.Some? {
      var texts := Split(query.value, '&');
      SplitJoins(query.value, '&');
      SpellQuery(texts);
      SpellThen(beforeQuery, '?', QueryLine(p.query.value));
    }
    SpellCut(if p.query.None? then beforeQuery else Then(beforeQuery, '?', QueryLine(p.query.value)), text, '#');
  }

  // ---- Putting back goes part by part ----

  function BackRest(rest: seq<(char, string)>, held: seq<string>): seq<(char, string)> {
    if rest == [] then [] else [(rest[0].0, Restored(rest[0].1, held))] + BackRest(rest[1..], held)
  }

  function BackLine(line: Line, held: seq<string>): Line {
    Line(Restored(line.first, held), BackRest(line.rest, held))
  }

  /** Marks are ASCII: none of them is part of what stands for a variable. */
  predicate AsciiMarks(rest: seq<(char, string)>) {
    forall k :: 0 <= k < |rest| ==> rest[k].0 < '\U{80}'
  }

  lemma {:induction false} RestoredSplits(x: string, mark: char, y: string, held: seq<string>)
    requires mark < '\U{80}'
    ensures Restored(x + [mark] + y, held) == Restored(x, held) + [mark] + Restored(y, held)
    decreases |x|
  {
    var s := x + [mark] + y;
    if x == "" {
      assert s[1..] == y;
    } else if x[0] == HOLD && |x| > 1 && IsIndex(x[1]) {
      assert s[2..] == x[2..] + [mark] + y;
      RestoredSplits(x[2..], mark, y, held);
    } else {
      assert s[1..] == x[1..] + [mark] + y;
      RestoredSplits(x[1..], mark, y, held);
    }
  }

  lemma {:induction false} RestoredLine(line: Line, held: seq<string>)
    requires AsciiMarks(line.rest)
    ensures Restored(Spell(line), held) == Spell(BackLine(line, held))
    decreases |line.rest|
  {
    hide Restored;
    if line.rest == [] {
      assert line.first + "" == line.first;
      assert Restored(line.first, held) + "" == Restored(line.first, held);
    } else {
      var (mark, text) := line.rest[0];
      var tail := Line(text, line.rest[1..]);
      assert Spell(line) == line.first + [mark] + Spell(tail);
      RestoredSplits(line.first, mark, Spell(tail), held);
      RestoredLine(tail, held);
      assert BackRest(line.rest, held)[1..] == BackRest(line.rest[1..], held);
      assert Spell(BackLine(line, held)) == Restored(line.first, held) + [mark] + Spell(BackLine(tail, held));
    }
  }

  lemma {:induction false} BackRestConcat(a: seq<(char, string)>, b: seq<(char, string)>, held: seq<string>)
    ensures BackRest(a + b, held) == BackRest(a, held) + BackRest(b, held)
  {
    hide Restored;
    if a == [] {
      assert a + b == b;
    } else {
      assert (a + b)[1..] == a[1..] + b;
      BackRestConcat(a[1..], b, held);
    }
  }

  lemma {:induction false} BackThen(a: Line, mark: char, b: Line, held: seq<string>)
    ensures BackLine(Then(a, mark, b), held) == Then(BackLine(a, held), mark, BackLine(b, held))
    ensures AsciiMarks(a.rest) && mark < '\U{80}' && AsciiMarks(b.rest) ==> AsciiMarks(Then(a, mark, b).rest)
  {
    BackRestConcat(a.rest + [(mark, b.first)], b.rest, held);
    BackRestConcat(a.rest, [(mark, b.first)], held);
    hide Restored;
    assert [(mark, b.first)][1..] == [];
  }

  lemma {:induction false} BackEnded(a: Line, mark: char, text: Option<string>, held: seq<string>)
    requires held != [] && mark < '\U{80}' && AsciiMarks(a.rest)
    ensures BackLine(Ended(a, mark, text), held) == Ended(BackLine(a, held), mark, BackOption(text, held))
    ensures AsciiMarks(Ended(a, mark, text).rest)
  {
    if text.Some? {
      BackThen(a, mark, Line(text.value, []), held);
    }
  }

  lemma {:induction false} BackListed(texts: seq<string>, mark: char, held: seq<string>)
    requires texts != [] && held != [] && mark < '\U{80}'
    ensures BackLine(Listed(texts, mark), held) == Listed(BackAll(texts, held), mark)
    ensures AsciiMarks(Listed(texts, mark).rest)
  {
    hide Restored;
    if |texts| == 1 {
      assert BackAll(texts, held) == [Restored(texts[0], held)];
    } else {
      var first := Line(texts[0], []);
      BackListed(texts[1..], mark, held);
      assert Listed(texts, mark) == Then(first, mark, Listed(texts[1..], mark));
      BackThen(first, mark, Listed(texts[1..], mark), held);
      assert BackAll(texts, held)[1..] == BackAll(texts[1..], held);
      assert Listed(BackAll(texts, held), mark)
          == Then(Line(Restored(texts[0], held), []), mark, Listed(BackAll(texts[1..], held), mark));
    }
  }

  lemma {:induction false} BackQuery(pairs: seq<Pair>, held: seq<string>)
    requires pairs != [] && held != []
    ensures BackLine(QueryLine(pairs), held) == QueryLine(BackPairs(pairs, held))
    ensures AsciiMarks(QueryLine(pairs).rest)
  {
    BackEnded(Line(pairs[0].key, []), '=', pairs[0].value, held);
    assert BackLine(PairLine(pairs[0]), held) == PairLine(BackPairs(pairs, held)[0]);
    hide Restored, PairLine;
    if |pairs| > 1 {
      assert BackPairs(pairs, held)[1..] == BackPairs(pairs[1..], held);
      BackQuery(pairs[1..], held);
      BackThen(PairLine(pairs[0]), '&', QueryLine(pairs[1..]), held);
    }
  }

  lemma {:induction false} BackFront(p: Parts, held: seq<string>)
    requires Whole(p) && held != []
    ensures var b := BackParts(p, held);
            Whole(b) && BackLine(FrontLine(p), held) == FrontLine(b) && AsciiMarks(FrontLine(p).rest)
  {
    var b := BackParts(p, held);
    BackListed(p.host, '.', held);
    var host := Ended(Listed(p.host, '.'), ':', p.port);
    BackEnded(Listed(p.host, '.'), ':', p.port, held);
    if p.login.Some? {
      var login := Ended(Line(p.login.value.user, []), ':', p.login.value.password);
      BackEnded(Line(p.login.value.user, []), ':', p.login.value.password, held);
      BackThen(login, '@', host, held);
    }
    hide Restored, Listed, BackAll;
    assert BackLine(AuthorityLine(p), held) == AuthorityLine(b) && AsciiMarks(AuthorityLine(p).rest);
    hide AuthorityLine;
    if p.path.Some? {
      BackListed(p.path.value, '/', held);
      BackThen(AuthorityLine(p), '/', Listed(p.path.value, '/'), held);
    }
    assert BackLine(BodyLine(p), held) == BodyLine(b) && AsciiMarks(BodyLine(p).rest);
    hide BodyLine;
    if p.protocol.Some? {
      BackProtocol(p.protocol.value, BodyLine(p), held);
    }
  }

  lemma {:induction false} BackProtocol(protocol: string, body: Line, held: seq<string>)
    requires AsciiMarks(body.rest)
    ensures var marks := [(':', ""), ('/', "")];
            && BackLine(Then(Line(protocol, marks), '/', body), held)
               == Then(Line(Restored(protocol, held), marks), '/', BackLine(body, held))
            && AsciiMarks(Then(Line(protocol, marks), '/', body).rest)
  {
    var marks := [(':', ""), ('/', "")];
    assert Restored("", held) == "";
    hide Restored;
    BackThen(Line(protocol, marks), '/', body, held);
    assert marks[1..] == [('/', "")] && marks[1..][1..] == [];
    assert BackRest(marks[1..], held) == [('/', "")];
    assert BackRest(marks, held) == marks;
  }

  /** The parts with their variables put back are the line with its variables put back. */
  lemma {:induction false} BackMarked(p: Parts, held: seq<string>)
    requires Whole(p) && held != []
    ensures var b := BackParts(p, held);
            Whole(b) && BackLine(Marked(p), held) == Marked(b) && AsciiMarks(Marked(p).rest)
  {
    BackFront(p, held);
    hide Restored, FrontLine, BackAll;
    var line := if p.query.None? then FrontLine(p) else Then(FrontLine(p), '?', QueryLine(p.query.value));
    if p.query.Some? {
      BackQuery(p.query.value, held);
      BackThen(FrontLine(p), '?', QueryLine(p.query.value), held);
    }
    hide QueryLine, BackPairs;
    BackEnded(line, '#', p.hash, held);
  }
}
