/** Which parts an address is cut into: those that, written with their marks, are cut at the same places again. */
module AddressForms {
  import opened Address
  import opened AddressLaws
  import opened Basics
  import opened Text

  function HostLine(p: Parts): Line
    requires Whole(p)
  {
    Ended(Listed(p.host, '.'), ':', p.port)
  }

  function BeforeHash(p: Parts): Line
    requires Whole(p)
  {
    if p.query.None? then FrontLine(p) else Then(FrontLine(p), '?', QueryLine(p.query.value))
  }

  predicate NoneHolds(texts: seq<string>, mark: char) {
    forall k :: 0 <= k < |texts| ==> mark !in texts[k]
  }

  predicate PairFits(pair: Pair) {
    '=' !in pair.key && '&' !in pair.key && (pair.value.Some? ==> '&' !in pair.value.value)
  }

  /** A host in brackets is one text, ends where its bracket does before a port, and holds "]:" nowhere else. */
  predicate HostFits(host: seq<string>, port: Option<string>) {
    var text := Join(host, ".");
    if StartsWith(text, "[") then
      |host| == 1 && FindText(text, "]:") == -1 && (port.Some? ==> EndsWith(text, "]"))
    else NoneHolds(host, '.') && (if port.Some? then ':' !in port.value else ':' !in text)
  }

  predicate FrontFits(p: Parts)
    requires Whole(p)
  {
    && (if p.protocol.Some? then p.protocol.value != "" && '/' !in p.protocol.value
        else ProtocolEnd(Spell(BodyLine(p))) == -1)
    && '/' !in Spell(AuthorityLine(p))
    && (p.path.Some? ==> NoneHolds(p.path.value, '/'))
    && '@' !in Spell(HostLine(p))
    && (p.login.Some? ==> ':' !in p.login.value.user)
    && HostFits(p.host, p.port)
  }

  /** No part holds a mark that would cut it. */
  predicate Fits(p: Parts)
    requires Whole(p)
  {
    && '#' !in Spell(BeforeHash(p))
    && '?' !in Spell(FrontLine(p))
    && (p.query.Some? ==> forall k :: 0 <= k < |p.query.value| ==> PairFits(p.query.value[k]))
    && FrontFits(p)
  }

  // ---- Where a text is cut ----

  lemma {:induction false} StandsLater(s: string, mark: string, j: int)
    requires s != "" && j > 0
    ensures StandsAt(s, mark, j) <==> StandsAt(s[1..], mark, j - 1)
  {
    if j + |mark| <= |s| {
      assert s[j..j + |mark|] == s[1..][j - 1..j - 1 + |mark|];
    }
  }

  lemma {:induction false} StandsFirst(s: string, mark: string)
    ensures StandsAt(s, mark, 0) <==> |mark| <= |s| && s[..|mark|] == mark
  {
  }

  lemma {:induction false} FindTextIs(s: string, mark: string)
    requires mark != ""
    ensures var at := FindText(s, mark); forall j :: 0 <= j < (if at == -1 then |s| else at) ==> !StandsAt(s, mark, j)
    decreases |s|
  {
    StandsFirst(s, mark);
    if |s| < |mark| {
    } else if s[..|mark|] != mark {
      FindTextIs(s[1..], mark);
      var at := FindText(s, mark);
      hide FindText, StandsAt;
      forall j | 0 <= j < (if at == -1 then |s| else at) ensures !StandsAt(s, mark, j) {
        if j > 0 {
          StandsLater(s, mark, j);
        }
      }
    }
  }

  lemma {:induction false} FoundAt(s: string, mark: string, at: nat)
    requires mark != "" && StandsAt(s, mark, at) && forall j :: 0 <= j < at ==> !StandsAt(s, mark, j)
    ensures FindText(s, mark) == at
  {
    FindTextIs(s, mark);
  }

  lemma {:induction false} NotFound(s: string, mark: string)
    requires mark != "" && forall j :: 0 <= j < |s| ==> !StandsAt(s, mark, j)
    ensures FindText(s, mark) == -1
  {
  }

  lemma {:induction false} SpellEnded(line: Line, mark: char, text: Option<string>)
    ensures Spell(Ended(line, mark, text)) == if text.None? then Spell(line) else Spell(line) + [mark] + text.value
  {
    if text.Some? {
      SpellThen(line, mark, Line(text.value, []));
      SpellPlain(text.value);
    }
  }

  /** A text is cut at a mark exactly where it was joined, when nothing before holds the mark. */
  lemma {:induction false} CutEnded(line: Line, mark: char, text: Option<string>)
    requires mark !in Spell(line)
    ensures Cut(Spell(Ended(line, mark, text)), mark) == (Spell(line), text)
  {
    SpellEnded(line, mark, text);
    var before := Spell(line);
    hide Spell;
    if text.Some? {
      FirstIndex(before, mark, text.value);
      CutAgain(before, mark, text.value);
    }
  }

  lemma {:induction false} CutAgain(before: string, mark: char, after: string)
    requires IndexOf(before + [mark] + after, mark) == |before|
    ensures Cut(before + [mark] + after, mark) == (before, Some(after))
  {
    var s := before + [mark] + after;
    assert s[..|before|] == before && s[|before| + 1..] == after;
  }

  lemma {:induction false} SplitOfJoin(texts: seq<string>, mark: char)
    requires texts != [] && NoneHolds(texts, mark)
    ensures Split(Join(texts, [mark]), mark) == texts
  {
    if |texts| == 1 {
      assert texts == [texts[0]];
    } else {
      var rest := Join(texts[1..], [mark]);
      SplitOfJoin(texts[1..], mark);
      FirstIndex(texts[0], mark, rest);
      var s := texts[0] + [mark] + rest;
      assert Join(texts, [mark]) == s;
      hide Join, IndexOf, NoneHolds;
      AroundMark(texts[0], mark, rest);
      assert Split(s, mark) == [texts[0]] + Split(rest, mark);
      hide Split;
      assert texts == [texts[0]] + texts[1..];
    }
  }

  // ---- Parts that fit are cut again ----

  lemma {:induction false} PairAgain(pair: Pair)
    requires PairFits(pair)
    ensures PairOf(Spell(PairLine(pair))) == pair && '&' !in Spell(PairLine(pair))
  {
    SpellPlain(pair.key);
    CutEnded(Line(pair.key, []), '=', pair.value);
    SpellEnded(Line(pair.key, []), '=', pair.value);
  }

  function PairTexts(pairs: seq<Pair>): (texts: seq<string>)
    ensures |texts| == |pairs| && forall k :: 0 <= k < |pairs| ==> texts[k] == Spell(PairLine(pairs[k]))
  {
    seq(|pairs|, k requires 0 <= k < |pairs| => Spell(PairLine(pairs[k])))
  }

  lemma {:induction false} QueryJoins(pairs: seq<Pair>)
    requires pairs != []
    ensures Spell(QueryLine(pairs)) == Join(PairTexts(pairs), "&")
  {
    if |pairs| > 1 {
      QueryJoins(pairs[1..]);
      SpellThen(PairLine(pairs[0]), '&', QueryLine(pairs[1..]));
      assert PairTexts(pairs)[1..] == PairTexts(pairs[1..]);
    }
  }

  lemma {:induction false} QueryAgain(pairs: seq<Pair>)
    requires pairs != [] && forall k :: 0 <= k < |pairs| ==> PairFits(pairs[k])
    ensures PairsOf(Split(Spell(QueryLine(pairs)), '&')) == pairs
  {
    var texts := PairTexts(pairs);
    forall k | 0 <= k < |pairs| ensures PairOf(texts[k]) == pairs[k] && '&' !in texts[k] {
      PairAgain(pairs[k]);
    }
    QueryJoins(pairs);
    hide PairOf, PairTexts, PairFits;
    SplitOfJoin(texts, '&');
    assert PairsOf(texts) == pairs;
  }

  lemma {:induction false} BracketColon(text: string, port: string)
    requires StartsWith(text, "[") && FindText(text, "]:") == -1 && EndsWith(text, "]")
    ensures PortColon(text + ":" + port) == |text|
  {
    var s := text + ":" + port;
    FindTextIs(text, "]:");
    assert s[..1] == text[..1];
    assert s[|text| - 1..|text| + 1] == [text[|text| - 1], ':'];
    assert text[|text| - 1..][0] == text[|text| - 1];
    assert text[|text| - 1] == "]"[0];
    assert StandsAt(s, "]:", |text| - 1);
    forall j | 0 <= j < |text| - 1 ensures !StandsAt(s, "]:", j) {
      assert s[j..j + 2] == text[j..j + 2];
      assert !StandsAt(text, "]:", j);
    }
    FoundAt(s, "]:", |text| - 1);
  }

  lemma {:induction false} HostAgain(host: seq<string>, port: Option<string>)
    requires host != [] && HostFits(host, port)
    ensures HostOf(Spell(Ended(Listed(host, '.'), ':', port))) == (host, port)
  {
    var text := Join(host, ".");
    SpellListed(host, '.');
    SpellEnded(Listed(host, '.'), ':', port);
    hide Spell, Listed, Ended, Join;
    if port.None? {
      assert PortColon(text) == -1;
    } else {
      var s := text + ":" + port.value;
      if StartsWith(text, "[") {
        BracketColon(text, port.value);
      } else {
        LastIndex(text, ':', port.value);
        assert !StartsWith(s, "[") by {
          assert s[0] == if text == "" then ':' else text[0];
          assert text != "" ==> text[..1] == [text[0]];
        }
      }
      assert s[..|text|] == text && s[|text| + 1..] == port.value;
    }
    hide PortColon, FindText;
    if !StartsWith(text, "[") {
      SplitOfJoin(host, '.');
    } else {
      JoinOne(host);
    }
  }

  lemma {:induction false} JoinOne(texts: seq<string>)
    requires |texts| == 1
    ensures texts == [Join(texts, ".")]
  {
  }

  /** The last "@" parts the login from the host, when the host holds none. */
  lemma {:induction false} LoginAgain(p: Parts)
    requires Whole(p) && '@' !in Spell(HostLine(p)) && (p.login.Some? ==> ':' !in p.login.value.user)
    ensures var (authority, at) := (Spell(AuthorityLine(p)), LastIndexOf(Spell(AuthorityLine(p)), '@'));
            && authority[at + 1..] == Spell(HostLine(p))
            && p.login == if at == -1 then None else Some(LoginOf(authority[..at]))
  {
    var host := Spell(HostLine(p));
    if p.login.Some? {
      var login := p.login.value;
      var line := Ended(Line(login.user, []), ':', login.password);
      SpellThen(line, '@', HostLine(p));
      SpellPlain(login.user);
      CutEnded(Line(login.user, []), ':', login.password);
      hide Ended, Then, HostLine;
      LastIndex(Spell(line), '@', host);
      hide Spell, LastIndexOf;
      AroundMark(Spell(line), '@', host);
    }
  }

  lemma {:induction false} AroundMark(before: string, mark: char, after: string)
    ensures (before + [mark] + after)[..|before|] == before && (before + [mark] + after)[|before| + 1..] == after
  {
  }

  lemma {:induction false} BodyAgain(p: Parts)
    requires Whole(p) && '/' !in Spell(AuthorityLine(p)) && (p.path.Some? ==> NoneHolds(p.path.value, '/'))
    ensures Cut(Spell(BodyLine(p)), '/').0 == Spell(AuthorityLine(p))
    ensures var path := Cut(Spell(BodyLine(p)), '/').1;
            p.path == if path.None? then None else Some(Split(path.value, '/'))
  {
    hide AuthorityLine;
    if p.path.Some? {
      SpellThen(AuthorityLine(p), '/', Listed(p.path.value, '/'));
      SpellListed(p.path.value, '/');
      hide Spell, Then, Listed;
      SplitOfJoin(p.path.value, '/');
      var (before, after) := (Spell(AuthorityLine(p)), Join(p.path.value, "/"));
      FirstIndex(before, '/', after);
      CutAgain(before, '/', after);
    }
  }

  lemma {:induction false} ProtocolAgain(protocol: string, body: string)
    requires protocol != "" && '/' !in protocol
    ensures ProtocolEnd(protocol + "://" + body) == |protocol|
  {
    var s := protocol + "://" + body;
    assert s[|protocol|..|protocol| + 3] == "://";
    forall j | 0 <= j < |protocol| ensures !StandsAt(s, "://", j) {
      if j + 3 <= |s| {
        assert s[j..j + 3][1] == s[j + 1];
        assert j + 1 < |protocol| ==> s[j + 1] == protocol[j + 1] && protocol[j + 1] in protocol;
      }
    }
    FoundAt(s, "://", |protocol|);
    assert s[..|protocol|] == protocol;
  }

  /** Where the protocol ends, and what is left once it is cut off. */
  lemma {:induction false} FrontProtocol(p: Parts)
    requires Whole(p)
    requires if p.protocol.Some? then p.protocol.value != "" && '/' !in p.protocol.value
             else ProtocolEnd(Spell(BodyLine(p))) == -1
    ensures var (rest, end) := (Spell(FrontLine(p)), ProtocolEnd(Spell(FrontLine(p))));
            && p.protocol == (if end == -1 then None else Some(rest[..end]))
            && Spell(BodyLine(p)) == if end == -1 then rest else rest[end + 3..]
  {
    var (rest, body) := (Spell(FrontLine(p)), Spell(BodyLine(p)));
    hide BodyLine, ProtocolEnd;
    if p.protocol.Some? {
      FrontWithProtocol(p.protocol.value, BodyLine(p));
      ProtocolAgain(p.protocol.value, body);
      hide FrontLine;
      assert rest[..|p.protocol.value|] == p.protocol.value && rest[|p.protocol.value| + 3..] == body;
    }
  }

  /** The text is cut into the protocol and the body, and the body into the authority and the path. */
  predicate OuterCuts(rest: string, body: string, authority: string, p: Parts) {
    var end := ProtocolEnd(rest);
    && p.protocol == (if end == -1 then None else Some(rest[..end]))
    && body == (if end == -1 then rest else rest[end + 3..])
    && authority == Cut(body, '/').0
    && p.path == var path := Cut(body, '/').1; if path.None? then None else Some(Split(path.value, '/'))
  }

  /** The authority is cut into the login, the host and the port. */
  predicate InnerCuts(authority: string, p: Parts) {
    var at := LastIndexOf(authority, '@');
    && p.login == (if at == -1 then None else Some(LoginOf(authority[..at])))
    && p.host == HostOf(authority[at + 1..]).0
    && p.port == HostOf(authority[at + 1..]).1
  }

  /** The parts of a text, given where it is cut. */
  lemma {:induction false} FrontIs(rest: string, body: string, authority: string, p: Parts)
    requires OuterCuts(rest, body, authority, p) && InnerCuts(authority, p)
    ensures FrontOf(rest) == p.(query := None, hash := None)
  {
    hide ProtocolEnd, Cut, HostOf, LoginOf, LastIndexOf, Split;
    var q := FrontOf(rest);
    assert q.protocol == p.protocol;
    assert q.login == p.login;
    assert q.host == p.host;
    assert q.port == p.port;
    assert q.path == p.path;
    assert q.query == None && q.hash == None;
  }

  lemma {:induction false} HostOfLine(p: Parts)
    requires Whole(p) && HostFits(p.host, p.port)
    ensures HostOf(Spell(HostLine(p))).0 == p.host && HostOf(Spell(HostLine(p))).1 == p.port
  {
    hide HostFits, HostOf, Spell, Ended, Listed;
    HostAgain(p.host, p.port);
  }

  lemma {:induction false} OuterAgain(p: Parts)
    requires Whole(p) && FrontFits(p)
    ensures OuterCuts(Spell(FrontLine(p)), Spell(BodyLine(p)), Spell(AuthorityLine(p)), p)
  {
    hide FrontLine, BodyLine, AuthorityLine, HostLine, ProtocolEnd, Cut, Split, Spell, HostFits, NoneHolds;
    FrontProtocol(p);
    BodyAgain(p);
  }

  lemma {:induction false} InnerAgain(p: Parts)
    requires Whole(p) && FrontFits(p)
    ensures InnerCuts(Spell(AuthorityLine(p)), p)
  {
    hide BodyLine, AuthorityLine, HostLine, ProtocolEnd, HostOf, LoginOf, LastIndexOf, Spell, HostFits, NoneHolds;
    HostOfLine(p);
    LoginAgain(p);
  }

  lemma {:induction false} FrontAgain(p: Parts)
    requires Whole(p) && FrontFits(p)
    ensures FrontOf(Spell(FrontLine(p))) == p.(query := None, hash := None)
  {
    hide FrontLine, BodyLine, AuthorityLine, Spell, FrontFits, FrontOf, OuterCuts, InnerCuts;
    OuterAgain(p);
    InnerAgain(p);
    FrontIs(Spell(FrontLine(p)), Spell(BodyLine(p)), Spell(AuthorityLine(p)), p);
  }

  lemma {:induction false} FrontWithProtocol(protocol: string, body: Line)
    ensures Spell(Then(Line(protocol, [(':', ""), ('/', "")]), '/', body)) == protocol + "://" + Spell(body)
  {
    var front := Line(protocol, [(':', ""), ('/', "")]);
    SpellThen(front, '/', body);
    assert front.rest[1..] == [('/', "")] && front.rest[1..][1..] == [];
    assert Marks(front.rest[1..]) == "/";
    assert Marks(front.rest) == ":/" && Spell(front) == protocol + ":/";
    hide Marks, Spell, Then;
    assert protocol + ":/" + "/" == protocol + "://";
  }

  lemma {:induction false} FitsAgain(p: Parts)
    requires Whole(p) && Fits(p)
    ensures CutParts(Spell(Marked(p))) == p
  {
    var line := BeforeHash(p);
    assert Marked(p) == Ended(line, '#', p.hash);
    CutEnded(line, '#', p.hash);
    FrontAgain(p);
    hide FrontOf, FrontFits, Marked;
    if p.query.Some? {
      QueryAgain(p.query.value);
      hide FrontLine, PairFits;
      SpellThen(FrontLine(p), '?', QueryLine(p.query.value));
      var (before, after) := (Spell(FrontLine(p)), Spell(QueryLine(p.query.value)));
      hide Spell, Ended, Then, QueryLine;
      FirstIndex(before, '?', after);
      CutAgain(before, '?', after);
    }
    hide Cut, PairsOf, Split;
  }

  // ---- Whatever is cut fits ----

  lemma {:induction false} CutHasNone(s: string, mark: char)
    ensures mark !in Cut(s, mark).0
  {
  }

  lemma {:induction false} PairsFit(query: string)
    ensures var pairs := PairsOf(Split(query, '&')); forall k :: 0 <= k < |pairs| ==> PairFits(pairs[k])
  {
    var texts := Split(query, '&');
    var pairs := PairsOf(texts);
    SplitJoins(query, '&');
    forall k | 0 <= k < |pairs| ensures PairFits(pairs[k]) {
      CutHasNone(texts[k], '=');
      CutJoins(texts[k], '=');
      assert '&' !in texts[k];
    }
  }

  lemma {:induction false} NotFoundBefore(s: string, mark: string, n: nat)
    requires mark != "" && n <= |s| && (FindText(s, mark) == -1 || FindText(s, mark) + |mark| > n)
    ensures FindText(s[..n], mark) == -1
  {
    FindTextIs(s, mark);
    forall j | 0 <= j < n ensures !StandsAt(s[..n], mark, j) {
      if j + |mark| <= n {
        assert s[..n][j..j + |mark|] == s[j..j + |mark|];
        assert !StandsAt(s, mark, j);
      }
    }
    NotFound(s[..n], mark);
  }

  predicate IsBracketed(text: string) {
    StartsWith(text, "[") && EndsWith(text, "]") && FindText(text, "]:") == -1
  }

  lemma {:induction false} BracketHost(authority: string)
    requires StartsWith(authority, "[")
    ensures var colon := PortColon(authority);
            && (colon == -1 ==> FindText(authority, "]:") == -1)
            && (colon != -1 ==> IsBracketed(authority[..colon]))
  {
    var close := FindText(authority, "]:");
    if close != -1 {
      var text := authority[..close + 1];
      assert StandsAt(authority, "]:", close);
      assert authority[close..close + 2][0] == authority[close];
      assert text[|text| - 1..] == "]";
      assert text[..1] == authority[..1];
      NotFoundBefore(authority, "]:", close + 1);
    }
  }

  lemma {:induction false} PlainHostFits(text: string, port: Option<string>)
    requires !StartsWith(text, "[") && (if port.Some? then ':' !in port.value else ':' !in text)
    ensures HostFits(Split(text, '.'), port)
  {
    SplitJoins(text, '.');
    hide Split, Join, FindText, StartsWith;
  }

  lemma {:induction false} BracketHostFits(text: string, port: Option<string>)
    requires StartsWith(text, "[") && FindText(text, "]:") == -1 && (port.Some? ==> EndsWith(text, "]"))
    ensures HostFits([text], port)
  {
    hide FindText, StartsWith, EndsWith;
    assert Join([text], ".") == text;
  }

  lemma {:induction false} NotBracket(text: string, n: nat)
    requires !StartsWith(text, "[") && n <= |text|
    ensures !StartsWith(text[..n], "[")
  {
    if n > 0 {
      assert text[..n][..1] == text[..1];
    }
  }

  lemma {:induction false} HostsFit(authority: string)
    ensures var (host, port) := HostOf(authority); HostFits(host, port)
  {
    hide HostFits, Split, FindText, EndsWith;
    var colon := PortColon(authority);
    var (host, port) := HostOf(authority);
    var text := if colon == -1 then authority else authority[..colon];
    if StartsWith(authority, "[") {
      BracketHost(authority);
      hide PortColon;
      assert host == [text];
      BracketHostFits(text, port);
    } else {
      assert if colon == -1 then ':' !in text else port.Some? && ':' !in port.value;
      hide PortColon;
      NotBracket(authority, |text|);
      assert text == authority[..|text|];
      assert host == Split(text, '.');
      PlainHostFits(text, port);
    }
  }

  lemma {:induction false} AuthoritySpelled(rest: string)
    ensures var p := FrontOf(rest);
            var body := if ProtocolEnd(rest) == -1 then rest else rest[ProtocolEnd(rest) + 3..];
            var (authority, path) := Cut(body, '/');
            && Whole(p) && Spell(BodyLine(p)) == body && Spell(AuthorityLine(p)) == authority
            && Spell(HostLine(p)) == authority[LastIndexOf(authority, '@') + 1..]
  {
    hide HostOf, LoginOf, ProtocolEnd, Cut, Split, LastIndexOf, Listed, Spell, Ended, Then;
    var p := FrontOf(rest);
    var end := ProtocolEnd(rest);
    var body := if end == -1 then rest else rest[end + 3..];
    var (authority, path) := Cut(body, '/');
    var at := LastIndexOf(authority, '@');
    SpellFront(rest);
    SpellHost(authority[at + 1..]);
    SpellAuthority(authority, p.login, HostLine(p));
    hide FrontLine;
    SpellBody(p, body);
  }

  lemma {:induction false} LoginFits(authority: string)
    ensures var at := LastIndexOf(authority, '@');
            '@' !in authority[at + 1..] && (at != -1 ==> ':' !in LoginOf(authority[..at]).user)
  {
    var at := LastIndexOf(authority, '@');
    if at == -1 {
      assert authority[0..] == authority;
    } else {
      CutHasNone(authority[..at], ':');
    }
  }

  lemma {:induction false} PathFits(path: string)
    ensures NoneHolds(Split(path, '/'), '/')
  {
    SplitJoins(path, '/');
  }

  lemma {:induction false} ProtocolFits(rest: string)
    ensures var end := ProtocolEnd(rest); end != -1 ==> rest[..end] != "" && '/' !in rest[..end]
  {
  }

  lemma {:induction false} FrontCuts(rest: string)
    ensures var body := if ProtocolEnd(rest) == -1 then rest else rest[ProtocolEnd(rest) + 3..];
            var authority := Cut(body, '/').0;
            OuterCuts(rest, body, authority, FrontOf(rest)) && InnerCuts(authority, FrontOf(rest))
  {
    hide ProtocolEnd, Cut, HostOf, LoginOf, LastIndexOf, Split;
  }

  lemma {:induction false} OuterFits(rest: string, body: string, authority: string, p: Parts)
    requires OuterCuts(rest, body, authority, p)
    ensures p.protocol.Some? ==> p.protocol.value != "" && '/' !in p.protocol.value
    ensures p.protocol.None? ==> ProtocolEnd(body) == -1
    ensures '/' !in authority && (p.path.Some? ==> NoneHolds(p.path.value, '/'))
  {
    hide ProtocolEnd, Cut, Split, NoneHolds;
    ProtocolFits(rest);
    CutHasNone(body, '/');
    if p.path.Some? {
      PathFits(Cut(body, '/').1.value);
    }
  }

  lemma {:induction false} InnerFits(authority: string, p: Parts)
    requires InnerCuts(authority, p)
    ensures HostFits(p.host, p.port) && (p.login.Some? ==> ':' !in p.login.value.user)
    ensures '@' !in authority[LastIndexOf(authority, '@') + 1..]
  {
    hide HostFits, HostOf, LastIndexOf, LoginOf;
    HostsFit(authority[LastIndexOf(authority, '@') + 1..]);
    LoginFits(authority);
  }

  lemma {:induction false} FrontsFit(rest: string)
    ensures Whole(FrontOf(rest)) && FrontFits(FrontOf(rest))
  {
    hide FrontOf, LoginOf, ProtocolEnd, Cut, Split, LastIndexOf, Spell, HostFits, BodyLine, AuthorityLine, HostLine,
      NoneHolds,
      OuterCuts, InnerCuts;
    var body := if ProtocolEnd(rest) == -1 then rest else rest[ProtocolEnd(rest) + 3..];
    FrontCuts(rest);
    AuthoritySpelled(rest);
    OuterFits(rest, body, Cut(body, '/').0, FrontOf(rest));
    InnerFits(Cut(body, '/').0, FrontOf(rest));
  }

  lemma {:induction false} CutsFit(text: string)
    ensures Whole(CutParts(text)) && Fits(CutParts(text))
  {
    hide FrontOf, FrontFits, FrontLine, BeforeHash, PairFits, PairsOf, Split, Cut, Spell, Marked;
    var (beforeHash, hash) := Cut(text, '#');
    var (front, query) := Cut(beforeHash, '?');
    var p := CutParts(text);
    SpellFront(front);
    FrontsFit(front);
    CutHasNone(text, '#');
    CutHasNone(beforeHash, '?');
    BeforeHashIs(text);
    FrontHasNeither(front);
    FrontAlike(p, front);
    if query.Some? {
      PairsFit(query.value);
    }
    assert p.query.Some? ==> p.query.value == PairsOf(Split(query.value, '&'));
    assert '#' !in Spell(BeforeHash(p));
    assert '?' !in Spell(FrontLine(p));
    assert FrontFits(p);
  }

  lemma {:induction false} FrontHasNeither(front: string)
    ensures FrontOf(front).query == None && FrontOf(front).hash == None
  {
    hide ProtocolEnd, Cut, HostOf, LoginOf, LastIndexOf, Split;
  }

  lemma {:induction false} FrontAlike(p: Parts, front: string)
    requires Whole(p) && Whole(FrontOf(front)) && FrontFits(FrontOf(front))
    requires p.(query := None, hash := None) == FrontOf(front)
    ensures FrontFits(p) && FrontLine(p) == FrontLine(FrontOf(front))
  {
    var q := FrontOf(front);
    hide FrontOf;
    assert BodyLine(p) == BodyLine(q) && AuthorityLine(p) == AuthorityLine(q) && HostLine(p) == HostLine(q);
    hide BodyLine, AuthorityLine, HostLine;
  }

  lemma {:induction false} BeforeHashIs(text: string)
    ensures Whole(CutParts(text)) && Spell(BeforeHash(CutParts(text))) == Cut(text, '#').0
  {
    CutIsLossless(text);
    CutJoins(text, '#');
    var p := CutParts(text);
    assert Marked(p) == Ended(BeforeHash(p), '#', p.hash);
    SpellEnded(BeforeHash(p), '#', p.hash);
    assert p.hash == Cut(text, '#').1;
    hide CutParts, BeforeHash, Marked, Spell, Cut, Ended;
    var before := Spell(BeforeHash(p));
    if p.hash.Some? {
      SameTail(before, Cut(text, '#').0, '#', p.hash.value);
    }
  }

  lemma {:induction false} SameTail(a: string, b: string, mark: char, tail: string)
    requires a + [mark] + tail == b + [mark] + tail
    ensures a == b
  {
    assert |a| == |b|;
    assert (a + [mark] + tail)[..|a|] == a && (b + [mark] + tail)[..|b|] == b;
  }

  /**
   * Parts written with their marks and cut again are those parts, exactly when none of them holds a mark that would
   * cut it: so each mark is where the cut says, the first "#" and "?", the first "/", the last "@", the last ":".
   */
  lemma {:induction false} CutAgainIffFits(p: Parts)
    requires Whole(p)
    ensures CutParts(Spell(Marked(p))) == p <==> Fits(p)
  {
    if Fits(p) {
      FitsAgain(p);
    }
    CutsFit(Spell(Marked(p)));
  }
}
