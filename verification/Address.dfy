/**
 * An address as protocol, login, host, port, path, query and hash. The cutting is specified as a function of the text
 * with every variable swapped for two marker characters, so that where a variable stands cannot matter to it.
 */
module Address {
  import opened Basics
  import opened Text

  // ---- Variables in a text ----

  /** How many characters other than braces begin the text. */
  function NameLength(s: string): (n: nat)
    ensures n <= |s|
  {
    if s == "" || s[0] == '{' || s[0] == '}' then 0 else 1 + NameLength(s[1..])
  }

  /** The length of the variable the text begins with: two braces, a name without braces, two braces. */
  function VariableLength(s: string): (n: Option<nat>)
    ensures n.Some? ==> 4 <= n.value <= |s|
  {
    if !StartsWith(s, "{{") then None
    else
      var n := NameLength(s[2..]);
      if StartsWith(s[2 + n..], "}}") then Some(n + 4) else None
  }

  /** A text as characters and variables. */
  datatype Atom = Plain(c: char) | Variable(text: string)

  function Atoms(s: string): seq<Atom>
    decreases |s|
  {
    if s == "" then []
    else
      match VariableLength(s)
      case Some(n) => [Variable(s[..n])] + Atoms(s[n..])
      case None => [Plain(s[0])] + Atoms(s[1..])
  }

  function AtomText(a: Atom): string {
    match a
    case Plain(c) => [c]
    case Variable(text) => text
  }

  function Flat(atoms: seq<Atom>): string {
    if atoms == [] then "" else AtomText(atoms[0]) + Flat(atoms[1..])
  }

  function Variables(atoms: seq<Atom>): seq<string> {
    if atoms == [] then []
    else if atoms[0].Variable? then [atoms[0].text] + Variables(atoms[1..])
    else Variables(atoms[1..])
  }

  // ---- Holding variables aside ----

  const HOLD: char := '\U{E000}'

  /** The last index a variable can be put back from is U+F8FF. */
  const MOST := 6399

  /** The character that says which variable is held: a code unit, so it wraps; one that is no character is U+FFFD. */
  function IndexChar(k: nat): char {
    var code := (0xE001 + k) % 0x10000;
    if 0xD800 <= code < 0xE000 then '\U{FFFD}' else code as char
  }

  /** The atoms written out, variable number `k` as the marker and the character that stands for `k`. */
  function Held(atoms: seq<Atom>, k: nat): string {
    if atoms == [] then ""
    else if atoms[0].Variable? then [HOLD, IndexChar(k)] + Held(atoms[1..], k + 1)
    else [atoms[0].c] + Held(atoms[1..], k)
  }

  predicate IsIndex(c: char) {
    '\U{E001}' <= c <= '\U{F8FF}'
  }

  function HeldAt(held: seq<string>, c: char): string
    requires IsIndex(c)
  {
    var k := c as int - 0xE001;
    if k < |held| then held[k] else "undefined"
  }

  /** The text with its variables put back. */
  function Restored(s: string, held: seq<string>): string
    decreases |s|
  {
    if s == "" then ""
    else if s[0] == HOLD && |s| > 1 && IsIndex(s[1]) then HeldAt(held, s[1]) + Restored(s[2..], held)
    else [s[0]] + Restored(s[1..], held)
  }

  function Back(part: string, held: seq<string>): string {
    if held == [] then part else Restored(part, held)
  }

  // ---- The parts ----

  datatype Login = Login(user: string, password: Option<string>)

  datatype Pair = Pair(key: string, value: Option<string>)

  datatype Parts = Parts(
    protocol: Option<string>,
    login: Option<Login>,
    host: seq<string>,
    port: Option<string>,
    path: Option<seq<string>>,
    query: Option<seq<Pair>>,
    hash: Option<string>)

  predicate StandsAt(s: string, mark: string, i: int) {
    0 <= i <= |s| - |mark| && s[i..i + |mark|] == mark
  }

  /** The first place where the mark stands, or -1. */
  function FindText(s: string, mark: string): (i: int)
    requires mark != ""
    ensures -1 <= i < |s|
    ensures i >= 0 ==> StandsAt(s, mark, i)
  {
    if |s| < |mark| then -1
    else if s[..|mark|] == mark then 0
    else
      var j := FindText(s[1..], mark);
      if j == -1 then -1 else
        assert s[1..][j..j + |mark|] == s[j + 1..j + 1 + |mark|];
        j + 1
  }

  /** What stands before a mark, and what after it when it is there. */
  function Cut(s: string, mark: char): (string, Option<string>) {
    var at := IndexOf(s, mark);
    if at == -1 then (s, None) else (s[..at], Some(s[at + 1..]))
  }

  function LoginOf(text: string): Login {
    var (user, password) := Cut(text, ':');
    Login(user, password)
  }

  function PairOf(text: string): Pair {
    var (key, value) := Cut(text, '=');
    Pair(key, value)
  }

  function PairsOf(texts: seq<string>): (pairs: seq<Pair>)
    ensures |pairs| == |texts| && forall k :: 0 <= k < |texts| ==> pairs[k] == PairOf(texts[k])
  {
    seq(|texts|, k requires 0 <= k < |texts| => PairOf(texts[k]))
  }

  /**
   * Where the port's colon is, or -1: after a bracketed host the one that follows the bracket, else the last there is.
   */
  function PortColon(authority: string): (at: int)
    ensures -1 <= at < |authority| && (at >= 0 ==> authority[at] == ':')
  {
    if StartsWith(authority, "[") then
      var close := FindText(authority, "]:");
      if close == -1 then -1
      else
        assert StandsAt(authority, "]:", close) && authority[close + 1] == authority[close..close + 2][1];
        close + 1
    else LastIndexOf(authority, ':')
  }

  /** The host and the port. */
  function HostOf(authority: string): (seq<string>, Option<string>) {
    var colon := PortColon(authority);
    var port := if colon == -1 then None else Some(authority[colon + 1..]);
    var host := if colon == -1 then authority else authority[..colon];
    (if StartsWith(host, "[") then [host] else Split(host, '.'), port)
  }

  /** Where "://" ends a protocol, or -1. */
  function ProtocolEnd(rest: string): (at: int)
    ensures at == -1 || (at > 0 && StandsAt(rest, "://", at))
  {
    var at := FindText(rest, "://");
    if at > 0 && '/' !in rest[..at] then at else -1
  }

  /** The parts of a text without its query and its hash. */
  function FrontOf(rest: string): Parts {
    var end := ProtocolEnd(rest);
    var protocol := if end == -1 then None else Some(rest[..end]);
    var body := if end == -1 then rest else rest[end + 3..];
    var (authority, path) := Cut(body, '/');
    var at := LastIndexOf(authority, '@');
    var (host, port) := HostOf(authority[at + 1..]);
    Parts(protocol, if at == -1 then None else Some(LoginOf(authority[..at])), host, port,
      if path.None? then None else Some(Split(path.value, '/')), None, None)
  }

  /** The parts of a text in which nothing is held. */
  function CutParts(text: string): Parts {
    var (beforeHash, hash) := Cut(text, '#');
    var (front, query) := Cut(beforeHash, '?');
    FrontOf(front).(query := if query.None? then None else Some(PairsOf(Split(query.value, '&'))), hash := hash)
  }

  function BackOption(part: Option<string>, held: seq<string>): Option<string> {
    if part.None? then None else Some(Back(part.value, held))
  }

  function BackAll(parts: seq<string>, held: seq<string>): (r: seq<string>)
    ensures |r| == |parts| && forall k :: 0 <= k < |parts| ==> r[k] == Back(parts[k], held)
  {
    seq(|parts|, k requires 0 <= k < |parts| => Back(parts[k], held))
  }

  function BackPairs(pairs: seq<Pair>, held: seq<string>): (r: seq<Pair>)
    ensures |r| == |pairs|
    ensures forall k :: 0 <= k < |pairs| ==> r[k] == Pair(Back(pairs[k].key, held), BackOption(pairs[k].value, held))
  {
    seq(|pairs|, k requires 0 <= k < |pairs| =>
      Pair(Back(pairs[k].key, held), BackOption(pairs[k].value, held)))
  }

  function BackParts(p: Parts, held: seq<string>): Parts {
    Parts(
      BackOption(p.protocol, held),
      if p.login.None? then None
      else Some(Login(Back(p.login.value.user, held), BackOption(p.login.value.password, held))),
      BackAll(p.host, held),
      BackOption(p.port, held),
      if p.path.None? then None else Some(BackAll(p.path.value, held)),
      if p.query.None? then None else Some(BackPairs(p.query.value, held)),
      BackOption(p.hash, held))
  }

  /** What is held of a text, and the text that is cut: nothing is set aside when U+E000 is in the text. */
  function Holding(raw: string): (string, seq<string>) {
    if HOLD in raw then (raw, []) else (Held(Atoms(raw), 0), Variables(Atoms(raw)))
  }

  function PartsOf(raw: string): Parts {
    var (rest, held) := Holding(raw);
    BackParts(CutParts(rest), held)
  }

  lemma {:induction false} Assoc<T>(a: seq<T>, b: seq<T>, c: seq<T>)
    ensures a + (b + c) == (a + b) + c
    ensures [] + c == c
  {
  }

  /** One pass over the text that computes `Held` of its atoms, and collects what `Variables` says. */
  method Hold(raw: string) returns (rest: string, held: seq<string>)
    ensures (rest, held) == (Held(Atoms(raw), 0), Variables(Atoms(raw)))
  {
    hide VariableLength, IndexChar, Held, Variables, Atoms;
    rest := "";
    held := [];
    var i := 0;
    assert raw[0..] == raw;
    Assoc([], [], Held(Atoms(raw), 0));
    Assoc([], [], Variables(Atoms(raw)));
    while i < |raw|
      invariant 0 <= i <= |raw|
      invariant rest + Held(Atoms(raw[i..]), |held|) == Held(Atoms(raw), 0)
      invariant held + Variables(Atoms(raw[i..])) == Variables(Atoms(raw))
    {
      ghost var s := raw[i..];
      HoldStep(s, |held|);
      var n := VariableLength(raw[i..]);
      if n.Some? {
        assert s[n.value..] == raw[i + n.value..];
        Assoc(rest, [HOLD, IndexChar(|held|)], Held(Atoms(s[n.value..]), |held| + 1));
        Assoc(held, [s[..n.value]], Variables(Atoms(s[n.value..])));
        rest := rest + [HOLD, IndexChar(|held|)];
        held := held + [raw[i..][..n.value]];
        i := i + n.value;
      } else {
        assert s[1..] == raw[i + 1..];
        Assoc(rest, [s[0]], Held(Atoms(s[1..]), |held|));
        rest := rest + [raw[i]];
        i := i + 1;
      }
    }
    assert raw[i..] == "";
    HoldNothing(|held|);
    assert rest + "" == rest && held + [] == held;
  }

  lemma {:induction false} HoldNothing(k: nat)
    ensures Held(Atoms(""), k) == "" && Variables(Atoms("")) == []
  {
  }

  lemma {:induction false} HoldStep(s: string, k: nat)
    requires s != ""
    ensures var n := VariableLength(s);
            if n.Some? then
              && Held(Atoms(s), k) == [HOLD, IndexChar(k)] + Held(Atoms(s[n.value..]), k + 1)
              && Variables(Atoms(s)) == [s[..n.value]] + Variables(Atoms(s[n.value..]))
            else
              && Held(Atoms(s), k) == [s[0]] + Held(Atoms(s[1..]), k)
              && Variables(Atoms(s)) == Variables(Atoms(s[1..]))
  {
    hide VariableLength, IndexChar;
    var n := VariableLength(s);
    if n.Some? {
      assert Atoms(s)[1..] == Atoms(s[n.value..]);
    } else {
      assert Atoms(s)[1..] == Atoms(s[1..]);
    }
  }

  /** The protocol, the authority and the path, cut off the front one after the other. */
  method FrontParts(text: string) returns (parts: Parts)
    ensures parts == FrontOf(text)
  {
    hide HostOf, LoginOf, ProtocolEnd, IndexOf, LastIndexOf, Split;
    var rest := text;
    var protocol: Option<string> := None;
    var end := ProtocolEnd(rest);
    if end != -1 {
      protocol := Some(rest[..end]);
      rest := rest[end + 3..];
    }
    var slash := IndexOf(rest, '/');
    var authority := if slash == -1 then rest else rest[..slash];
    var path := if slash == -1 then None else Some(Split(rest[slash + 1..], '/'));
    var at := LastIndexOf(authority, '@');
    var login := if at == -1 then None else Some(LoginOf(authority[..at]));
    authority := authority[at + 1..];
    var (host, port) := HostOf(authority);
    parts := Parts(protocol, login, host, port, path, None, None);
  }

  /** Cuts the text at its first `mark`. */
  method CutAt(text: string, mark: char) returns (before: string, after: Option<string>)
    ensures (before, after) == Cut(text, mark)
  {
    var at := IndexOf(text, mark);
    if at == -1 {
      return text, None;
    }
    return text[..at], Some(text[at + 1..]);
  }

  method AddressParts(raw: string) returns (parts: Parts)
    ensures parts == PartsOf(raw)
  {
    hide FrontOf, PairsOf, Split, Held, Atoms, Variables, BackParts, Cut;
    var rest, held := raw, [];
    if HOLD !in raw {
      rest, held := Hold(raw);
    }
    var hash, query;
    rest, hash := CutAt(rest, '#');
    rest, query := CutAt(rest, '?');
    var front := FrontParts(rest);
    var pairs := if query.None? then None else Some(PairsOf(Split(query.value, '&')));
    parts := BackParts(front.(query := pairs, hash := hash), held);
  }
}
