/**
 * Which hosts and paths a cookie matches and which it does not, and so which cookies of a jar a request carries, from
 * how hosts and paths are written.
 */
module CookieMatching {
  import opened Basics
  import opened CookieLaws
  import opened CookieRules
  import opened StableSort
  import opened Text

  // ---- Hosts ----

  predicate IsShortNumber(part: string) {
    part != "" && |part| < 4 && forall i :: 0 <= i < |part| ==> '0' <= part[i] <= '9'
  }

  function Dotted(a: string, b: string, c: string, d: string): string {
    a + "." + b + "." + c + "." + d
  }

  /** Four numbers of one to three digits with dots between them, or what begins with a bracket. */
  ghost predicate IsAddressOfIp(host: string) {
    || (exists rest :: host == "[" + rest)
    || exists a, b, c, d ::
         host == Dotted(a, b, c, d) && IsShortNumber(a) && IsShortNumber(b) && IsShortNumber(c) && IsShortNumber(d)
  }

  lemma {:induction false} OctetIs(part: string)
    ensures IsOctet(part) <==> IsShortNumber(part)
    ensures IsShortNumber(part) ==> '.' !in part
  {
  }

  lemma {:induction false} SplitStep(first: string, rest: string)
    requires '.' !in first
    ensures Split(first + "." + rest, '.') == [first] + Split(rest, '.')
  {
    var s := first + "." + rest;
    FirstIndex(first, '.', rest);
    assert s == first + ['.'] + rest;
    assert s[..|first|] == first && s[|first| + 1..] == rest;
  }

  lemma {:induction false} SplitPlain(s: string)
    requires '.' !in s
    ensures Split(s, '.') == [s]
  {
  }

  lemma {:induction false} SplitOfDotted(a: string, b: string, c: string, d: string)
    requires '.' !in a && '.' !in b && '.' !in c && '.' !in d
    ensures Split(Dotted(a, b, c, d), '.') == [a, b, c, d]
  {
    hide Split;
    var two := c + "." + d;
    var three := b + "." + two;
    SplitPlain(d);
    SplitStep(c, d);
    SplitStep(b, two);
    SplitStep(a, three);
    assert Dotted(a, b, c, d) == a + "." + three;
    Four(a, b, c, d);
  }

  lemma {:induction false} Four(a: string, b: string, c: string, d: string)
    ensures [a] + ([b] + ([c] + [d])) == [a, b, c, d]
  {
  }

  lemma {:induction false} FourJoin(parts: seq<string>)
    requires |parts| == 4
    ensures Join(parts, ".") == Dotted(parts[0], parts[1], parts[2], parts[3])
  {
    var (a, b, c, d) := (parts[0], parts[1], parts[2], parts[3]);
    assert parts == [a] + ([b] + ([c] + [d]));
    JoinStep(c, [d], ".");
    JoinStep(b, [c] + [d], ".");
    JoinStep(a, [b] + ([c] + [d]), ".");
    assert Join([d], ".") == d;
    hide Join;
    assert a + "." + (b + "." + (c + "." + d)) == Dotted(a, b, c, d);
  }

  lemma {:induction false} DottedIsIp(host: string, a: string, b: string, c: string, d: string)
    requires host == Dotted(a, b, c, d)
    requires IsShortNumber(a) && IsShortNumber(b) && IsShortNumber(c) && IsShortNumber(d)
    ensures IsIp(host)
  {
    OctetIs(a);
    OctetIs(b);
    OctetIs(c);
    OctetIs(d);
    SplitOfDotted(a, b, c, d);
    hide Split, IsOctet, IsShortNumber, Dotted;
    assert Split(host, '.') == [a, b, c, d];
  }

  lemma {:induction false} IpIsDotted(host: string)
    requires IsIp(host) && !StartsWith(host, "[")
    ensures IsAddressOfIp(host)
  {
    var parts := Split(host, '.');
    SplitJoins(host, '.');
    FourJoin(parts);
    OctetIs(parts[0]);
    OctetIs(parts[1]);
    OctetIs(parts[2]);
    OctetIs(parts[3]);
    hide Split, Join, IsOctet, IsShortNumber, Dotted;
    assert host == Dotted(parts[0], parts[1], parts[2], parts[3]);
  }

  /** Which hosts are IP addresses. */
  lemma {:induction false} HostsThatAreIp(host: string)
    ensures IsIp(host) <==> IsAddressOfIp(host)
  {
    hide IsShortNumber, Dotted, Split, IsOctet;
    if StartsWith(host, "[") {
      assert host == "[" + host[1..];
    } else if IsIp(host) {
      IpIsDotted(host);
    }
    if IsAddressOfIp(host) && !StartsWith(host, "[") {
      var a, b, c, d :|
        host == Dotted(a, b, c, d) && IsShortNumber(a) && IsShortNumber(b) && IsShortNumber(c) && IsShortNumber(d);
      DottedIsIp(host, a, b, c, d);
    }
  }

  /** The host is the domain, or on a host that is no IP address the domain stands behind some text and a dot. */
  ghost predicate IsUnder(host: string, domain: string) {
    host == domain || (!IsAddressOfIp(host) && exists sub :: host == sub + "." + domain)
  }

  /** Which hosts match a domain. */
  lemma {:induction false} HostsThatMatch(host: string, domain: string)
    ensures DomainMatches(host, domain) <==> IsUnder(host, domain)
  {
    HostsThatAreIp(host);
    hide IsIp, IsAddressOfIp;
    var tail := "." + domain;
    if EndsWith(host, tail) {
      assert host == host[..|host| - |tail|] + "." + domain;
    }
    if exists sub :: host == sub + "." + domain {
      var sub :| host == sub + "." + domain;
      assert host == sub + tail;
    }
  }

  // ---- Paths ----

  /** The path is the cookie's, or what follows the cookie's path in it begins after a slash or with one. */
  ghost predicate IsWithin(path: string, cookiePath: string) {
    || path == cookiePath
    || exists rest ::
         && path == cookiePath + rest
         && ((exists most :: cookiePath == most + "/") || exists more :: rest == "/" + more)
  }

  lemma {:induction false} SlashAtEnd(s: string)
    ensures EndsWith(s, "/") <==> exists most :: s == most + "/"
  {
    if EndsWith(s, "/") {
      assert s == s[..|s| - 1] + "/";
    }
  }

  lemma {:induction false} SlashAtStart(s: string)
    ensures (s != "" && s[0] == '/') <==> exists more :: s == "/" + more
  {
    if s != "" && s[0] == '/' {
      assert s == "/" + s[1..];
    }
  }

  /** Which paths match a cookie's path. */
  lemma {:induction false} PathsThatMatch(path: string, cookiePath: string)
    ensures PathMatches(path, cookiePath) <==> IsWithin(path, cookiePath)
  {
    SlashAtEnd(cookiePath);
    if StartsWith(path, cookiePath) {
      var rest := path[|cookiePath|..];
      assert path == cookiePath + rest;
      SlashAtStart(rest);
    }
    hide EndsWith;
    if path != cookiePath && IsWithin(path, cookiePath) {
      var rest :|
        && path == cookiePath + rest
        && ((exists most :: cookiePath == most + "/") || exists more :: rest == "/" + more);
      SlashAtStart(rest);
      assert rest != "" ==> path[|cookiePath|] == rest[0];
    }
  }

  // ---- What a request carries ----

  /** A cookie is for a request when it has not expired, and the request's host, path and safety are its own. */
  ghost predicate IsFor(cookie: Cookie, to: Address, now: int) {
    && (cookie.expires == None || cookie.expires.value > now)
    && (if cookie.hostOnly then to.host == cookie.domain else IsUnder(to.host, cookie.domain))
    && IsWithin(to.path, cookie.path)
    && (!cookie.secure || to.https)
  }

  /** Of two cookies the one of the longer path is first, and of two as long the one that was created earlier. */
  predicate ComesFirst(a: Cookie, b: Cookie) {
    |a.path| > |b.path| || (|a.path| == |b.path| && a.created <= b.created)
  }

  /** A request carries the cookies that are for it and no others, each as often as the jar holds it, in that order. */
  lemma {:induction false} CarriesExactly(jar: seq<Cookie>, to: Address, now: int)
    ensures var sent := CookiesFor(jar, Some(to), now);
            && (forall c :: c in sent <==> c in jar && IsFor(c, to, now))
            && (forall i, j :: 0 <= i < j < |sent| ==> ComesFirst(sent[i], sent[j]))
  {
    SendsExactly(jar, to, now);
    hide CookiesFor, Filter, IsUnder, IsWithin, DomainMatches, PathMatches;
    forall c: Cookie ensures Goes(c, to, now) <==> IsFor(c, to, now) {
      HostsThatMatch(to.host, c.domain);
      PathsThatMatch(to.path, c.path);
    }
    hide IsFor, Goes;
  }
}
