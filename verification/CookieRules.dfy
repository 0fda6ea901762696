/**
 * A cookie jar's rules as sections 5.1.3, 5.1.4, 5.2, 5.3 and 5.4 of RFC 6265 say them: matching, reading, storing,
 * sending.
 */
module CookieRules {
  import opened Basics
  import opened StableSort
  import opened Text
  import Utf8

  datatype SameSite = Strict | Lax | Unrestricted

  datatype Cookie = Cookie(
    name: string,
    value: string,
    domain: string,
    hostOnly: bool,
    path: string,
    secure: bool,
    httpOnly: bool,
    sameSite: Option<SameSite>,
    expires: Option<int>,
    created: int)

  /** What of an http or https address matters to a cookie; its host is in lower case. */
  datatype Address = Address(https: bool, host: string, path: string)

  const MAX_COOKIE_BYTES := 4096
  const MAX_COOKIES := 1000

  // ---- Matching ----

  predicate IsOctet(part: string) {
    1 <= |part| <= 3 && forall i :: 0 <= i < |part| ==> '0' <= part[i] <= '9'
  }

  predicate IsIp(host: string) {
    || (var parts := Split(host, '.'); |parts| == 4 && forall k :: 0 <= k < 4 ==> IsOctet(parts[k]))
    || StartsWith(host, "[")
  }

  /** Equality, or for a host that is no IP address a suffix that begins at a dot. */
  predicate DomainMatches(host: string, domain: string) {
    host == domain || (!IsIp(host) && EndsWith(host, "." + domain))
  }

  /** The directory of a path: what precedes the last slash, or the root. */
  function DefaultPath(path: string): string {
    var end := LastIndexOf(path, '/');
    if end > 0 then path[..end] else "/"
  }

  predicate PathMatches(requestPath: string, cookiePath: string) {
    || requestPath == cookiePath
    || (StartsWith(requestPath, cookiePath)
        && (EndsWith(cookiePath, "/") || (|cookiePath| < |requestPath| && requestPath[|cookiePath|] == '/')))
  }

  // ---- Reading a `Set-Cookie` header ----

  predicate IsControl(c: char) {
    c < ' ' || c == '\U{7F}'
  }

  predicate IsDigits(s: string) {
    s != "" && forall i :: 0 <= i < |s| ==> '0' <= s[i] <= '9'
  }

  function Digits(s: string): int
    requires forall i :: 0 <= i < |s| ==> '0' <= s[i] <= '9'
  {
    if s == "" then 0 else Digits(s[..|s| - 1]) * 10 + (s[|s| - 1] as int - '0' as int)
  }

  /** Decimal digits with a minus sign or none. */
  function WholeNumber(s: string): Option<int> {
    if IsDigits(s) then Some(Digits(s))
    else if s != "" && s[0] == '-' && IsDigits(s[1..]) then Some(-Digits(s[1..]))
    else None
  }

  function SameSiteOf(text: string): Option<SameSite> {
    if Lower(text) == "strict" then Some(Strict)
    else if Lower(text) == "lax" then Some(Lax)
    else if Lower(text) == "none" then Some(Unrestricted)
    else None
  }

  /** A cookie as its attributes have made it so far. */
  datatype Draft = Draft(cookie: Cookie, maxAge: Option<int>)

  /** The domain the attribute names: a leading dot says nothing. */
  function DomainText(text: string): string {
    Lower(if text != "" && text[0] == '.' then text[1..] else text)
  }

  /** Whether a `Domain` attribute of this text can reach other hosts than the one that sent it. */
  predicate IsWide(domain: string) {
    '.' in domain && !IsIp(domain)
  }

  /** One attribute; none when it makes a browser drop the cookie. `date` reads a date as the platform does. */
  function TakeAttribute(draft: Draft, attribute: string, host: string, date: string -> Option<int>): Option<Draft> {
    var split := IndexOf(attribute, '=');
    var key := Lower(Trim(if split < 0 then attribute else attribute[..split]));
    var text := if split < 0 then "" else Trim(attribute[split + 1..]);
    var cookie := draft.cookie;
    if key == "secure" then Some(draft.(cookie := cookie.(secure := true)))
    else if key == "httponly" then Some(draft.(cookie := cookie.(httpOnly := true)))
    else if key == "path" && StartsWith(text, "/") then Some(draft.(cookie := cookie.(path := text)))
    else if key == "samesite" && SameSiteOf(text).Some? then
      Some(draft.(cookie := cookie.(sameSite := SameSiteOf(text))))
    else if key == "max-age" && WholeNumber(text).Some? then Some(draft.(maxAge := WholeNumber(text)))
    else if key == "expires" && date(text).Some? then Some(draft.(cookie := cookie.(expires := date(text))))
    else if key == "domain" && text != "" then
      var domain := DomainText(text);
      if !DomainMatches(host, domain) || (!IsWide(domain) && domain != host) then None
      else Some(draft.(cookie := cookie.(domain := domain, hostOnly := !IsWide(domain))))
    else Some(draft)
  }

  function TakeAttributes(draft: Draft, attributes: seq<string>, host: string,
    date: string -> Option<int>): Option<Draft>
    decreases |attributes|
  {
    if attributes == [] then Some(draft)
    else
      match TakeAttribute(draft, attributes[0], host, date)
      case None => None
      case Some(next) => TakeAttributes(next, attributes[1..], host, date)
  }

  /** The name and the value of the header's first part; none when it is not one a cookie can have. */
  function NameAndValue(pair: string): Option<(string, string)> {
    var equals := IndexOf(pair, '=');
    var name := Trim(pair[..if equals < 0 then 0 else equals]);
    var value := Trim(pair[equals + 1..]);
    if equals < 1 || name == "" || (exists i :: 0 <= i < |pair| && IsControl(pair[i]))
       || |Utf8.Encode(name + value)| > MAX_COOKIE_BYTES
    then None
    else Some((name, value))
  }

  function FirstDraft(name: string, value: string, from: Address, now: int): Draft {
    Draft(Cookie(name, value, from.host, true, DefaultPath(from.path), false, false, None, None, now), None)
  }

  /** The cookie with its life, when a browser would keep it. */
  function Accepted(draft: Draft, from: Address, now: int): Option<Cookie> {
    var cookie :=
      match draft.maxAge
      case None => draft.cookie
      case Some(age) => draft.cookie.(expires := Some(if age <= 0 then 0 else now + age * 1000));
    if cookie.secure && !from.https then None
    else if StartsWith(cookie.name, "__Secure-") && !cookie.secure then None
    else if StartsWith(cookie.name, "__Host-") && !(cookie.secure && cookie.hostOnly && cookie.path == "/") then None
    else Some(cookie)
  }

  /** What `ParseSetCookie` makes of a header from an address; an address that is not http has none. */
  function CookieOf(header: string, from: Option<Address>, now: int, date: string -> Option<int>): Option<Cookie> {
    if from.None? then None
    else
      var pieces := Split(header, ';');
      match NameAndValue(pieces[0])
      case None => None
      case Some((name, value)) =>
        match TakeAttributes(FirstDraft(name, value, from.value, now), pieces[1..], from.value.host, date)
        case None => None
        case Some(draft) => Accepted(draft, from.value, now)
  }

  method ParseSetCookie(header: string, from: Option<Address>, now: int, date: string -> Option<int>)
    returns (r: Option<Cookie>)
    ensures r == CookieOf(header, from, now, date)
  {
    if from.None? {
      return None;
    }
    var pieces := Split(header, ';');
    var pair := NameAndValue(pieces[0]);
    if pair.None? {
      return None;
    }
    var host := from.value.host;
    var attributes := pieces[1..];
    var draft := FirstDraft(pair.value.0, pair.value.1, from.value, now);
    ghost var whole := TakeAttributes(draft, attributes, host, date);
    assert attributes[0..] == attributes;
    for i := 0 to |attributes|
      invariant TakeAttributes(draft, attributes[i..], host, date) == whole
    {
      assert attributes[i..][1..] == attributes[i + 1..];
      var next := TakeAttribute(draft, attributes[i], host, date);
      if next.None? {
        return None;
      }
      draft := next.value;
    }
    assert attributes[|attributes|..] == [];
    r := Accepted(draft, from.value, now);
  }

  // ---- Storing ----

  predicate Same(a: Cookie, b: Cookie) {
    a.name == b.name && a.domain == b.domain && a.path == b.path
  }

  predicate Expired(cookie: Cookie, now: int) {
    cookie.expires.Some? && cookie.expires.value <= now
  }

  /** The first place in the jar that `Same` finds for the cookie, or -1. */
  function PlaceOf(jar: seq<Cookie>, cookie: Cookie): (at: int)
    ensures -1 <= at < |jar|
    ensures at == -1 <==> forall i :: 0 <= i < |jar| ==> !Same(jar[i], cookie)
    ensures at >= 0 ==> Same(jar[at], cookie) && forall i :: 0 <= i < at ==> !Same(jar[i], cookie)
  {
    if jar == [] then -1
    else if Same(jar[0], cookie) then 0
    else
      var at := PlaceOf(jar[1..], cookie);
      assert forall i :: 1 <= i < |jar| ==> jar[i] == jar[1..][i - 1];
      if at == -1 then -1 else at + 1
  }

  predicate EarlierCreated(a: Cookie, b: Cookie) {
    a.created <= b.created
  }

  /** The jar with the cookie in it, before the oldest go. */
  function Added(jar: seq<Cookie>, cookie: Cookie): seq<Cookie> {
    var at := PlaceOf(jar, cookie);
    if at == -1 then jar + [cookie] else jar[at := cookie.(created := jar[at].created)]
  }

  function StoreCookie(jar: seq<Cookie>, cookie: Cookie, now: int): seq<Cookie> {
    var at := PlaceOf(jar, cookie);
    if Expired(cookie, now) then if at == -1 then jar else jar[..at] + jar[at + 1..]
    else
      var next := Added(jar, cookie);
      if |next| > MAX_COOKIES then Sort(EarlierCreated, next)[|next| - MAX_COOKIES..] else next
  }

  // ---- Sending ----

  predicate Goes(cookie: Cookie, to: Address, now: int) {
    && !Expired(cookie, now)
    && (if cookie.hostOnly then to.host == cookie.domain else DomainMatches(to.host, cookie.domain))
    && PathMatches(to.path, cookie.path)
    && (cookie.secure ==> to.https)
  }

  function GoesTo(to: Address, now: int): Cookie -> bool {
    cookie => Goes(cookie, to, now)
  }

  predicate SentBefore(a: Cookie, b: Cookie) {
    |a.path| > |b.path| || (|a.path| == |b.path| && a.created <= b.created)
  }

  function CookiesFor(jar: seq<Cookie>, to: Option<Address>, now: int): seq<Cookie> {
    if to.None? then [] else Sort(SentBefore, Filter(GoesTo(to.value, now), jar))
  }
}
