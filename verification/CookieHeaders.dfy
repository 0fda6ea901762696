/**
 * What a `Set-Cookie` header says, over its pieces: which cookie it makes and exactly when it makes none.
 *
 * Nothing here is said through the functions that read a header; a piece, its key and its text are described by how the
 * piece is written.
 */
module CookieHeaders {
  import opened Basics
  import opened CookieRules
  import opened Text
  import Utf8

  // ---- What a header says ----

  /** `piece` is an attribute of this key, in any case, and this text; without an equals sign its text is empty. */
  ghost predicate Says(piece: string, key: string, text: string) {
    || ('=' !in piece && key == Lower(Trim(piece)) && text == "")
    || exists before, after ::
         piece == before + "=" + after && '=' !in before && key == Lower(Trim(before)) && text == Trim(after)
  }

  ghost predicate Said(attributes: seq<string>, key: string) {
    exists k, text :: 0 <= k < |attributes| && Says(attributes[k], key, text)
  }

  /** `found` is the text of the last attribute of this key whose text fits, if there is one. */
  ghost predicate IsLast(attributes: seq<string>, key: string, fits: string -> bool, found: Option<string>) {
    match found
    case None => forall k, text :: 0 <= k < |attributes| && Says(attributes[k], key, text) ==> !fits(text)
    case Some(last) =>
      exists k ::
        && 0 <= k < |attributes| && Says(attributes[k], key, last) && fits(last)
        && forall l, text :: k < l < |attributes| && Says(attributes[l], key, text) ==> !fits(text)
  }

  /** The header's first piece is a name that is not empty, the first equals sign, and a value, each trimmed. */
  ghost predicate Pairs(piece: string, name: string, value: string) {
    exists before, after ::
      && piece == before + "=" + after && '=' !in before
      && name == Trim(before) && name != "" && value == Trim(after)
  }

  function Power(n: nat): int {
    if n == 0 then 1 else 10 * Power(n - 1)
  }

  /** The number decimal digits stand for. */
  function Decimal(digits: string): int {
    if digits == "" then 0
    else (digits[0] as int - '0' as int) * Power(|digits| - 1) + Decimal(digits[1..])
  }

  predicate OnlyDigits(s: string) {
    |s| >= 1 && forall i :: 0 <= i < |s| ==> '0' <= s[i] <= '9'
  }

  /** Decimal digits, with a minus sign or none. */
  predicate IsWhole(text: string) {
    OnlyDigits(text) || (StartsWith(text, "-") && OnlyDigits(text[1..]))
  }

  function Whole(text: string): int {
    if StartsWith(text, "-") then -Decimal(text[1..]) else Decimal(text)
  }

  predicate IsAbsolute(text: string) {
    StartsWith(text, "/")
  }

  predicate IsKnownSite(text: string) {
    Lower(text) in {"strict", "lax", "none"}
  }

  predicate IsNamed(text: string) {
    text != ""
  }

  function IsDated(date: string -> Option<int>): string -> bool {
    text => date(text).Some?
  }

  /** The domain a `Domain` attribute names: one leading dot says nothing, and case says nothing. */
  ghost predicate Names(text: string, domain: string) {
    exists rest :: domain == Lower(rest) && (text == "." + rest || (text == rest && !StartsWith(text, ".")))
  }

  /** The domain is the host's own, or one with a dot in it that is no IP address and that the host is under. */
  ghost predicate Reaches(host: string, domain: string) {
    || host == domain
    || ('.' in domain && !IsIp(domain) && !IsIp(host) && exists sub :: host == sub + "." + domain)
  }

  // ---- The cookie that is said, and whether it is kept ----

  /** The cookie is the host's alone, unless the `Domain` that counts has a dot and is no IP address. */
  ghost predicate DomainFrom(found: Option<string>, host: string, cookie: Cookie) {
    match found
    case None => cookie.domain == host && cookie.hostOnly
    case Some(text) =>
      Names(text, cookie.domain) && (cookie.hostOnly <==> '.' !in cookie.domain || IsIp(cookie.domain))
  }

  ghost predicate DomainIs(attributes: seq<string>, host: string, cookie: Cookie) {
    exists found :: IsLast(attributes, "domain", IsNamed, found) && DomainFrom(found, host, cookie)
  }

  /** What precedes the last slash of a path, or the root when no slash but the first is in it. */
  ghost predicate IsDirectory(path: string, directory: string) {
    || (directory != "" && exists file :: path == directory + "/" + file && '/' !in file)
    || (directory == "/" && forall i :: 1 <= i < |path| ==> path[i] != '/')
  }

  ghost predicate PathFrom(found: Option<string>, requestPath: string, path: string) {
    match found
    case None => IsDirectory(requestPath, path)
    case Some(text) => path == text
  }

  ghost predicate PathIs(attributes: seq<string>, requestPath: string, path: string) {
    exists found :: IsLast(attributes, "path", IsAbsolute, found) && PathFrom(found, requestPath, path)
  }

  predicate SiteFrom(found: Option<string>, sameSite: Option<SameSite>) {
    match found
    case None => sameSite == None
    case Some(text) =>
      match sameSite
      case None => false
      case Some(Strict) => Lower(text) == "strict"
      case Some(Lax) => Lower(text) == "lax"
      case Some(Unrestricted) => Lower(text) == "none"
  }

  ghost predicate SameSiteIs(attributes: seq<string>, sameSite: Option<SameSite>) {
    exists found :: IsLast(attributes, "samesite", IsKnownSite, found) && SiteFrom(found, sameSite)
  }

  /** A whole number of seconds stands before a date, wherever the two are. */
  predicate LifeFrom(age: Option<string>, day: Option<string>, now: int, date: string -> Option<int>,
    expires: Option<int>)
  {
    expires ==
    if age.Some? then Some(if Whole(age.value) <= 0 then 0 else now + Whole(age.value) * 1000)
    else if day.Some? then date(day.value)
    else None
  }

  ghost predicate LifeIs(attributes: seq<string>, now: int, date: string -> Option<int>, expires: Option<int>) {
    exists age, day ::
      && IsLast(attributes, "max-age", IsWhole, age) && IsLast(attributes, "expires", IsDated(date), day)
      && LifeFrom(age, day, now, date, expires)
  }

  /** The cookie that these attributes make of a name and a value. */
  ghost predicate Made(
    attributes: seq<string>, from: Address, now: int, date: string -> Option<int>, cookie: Cookie)
  {
    && DomainIs(attributes, from.host, cookie)
    && PathIs(attributes, from.path, cookie.path)
    && (cookie.secure <==> Said(attributes, "secure"))
    && (cookie.httpOnly <==> Said(attributes, "httponly"))
    && SameSiteIs(attributes, cookie.sameSite)
    && LifeIs(attributes, now, date, cookie.expires)
    && cookie.created == now
  }

  /** The cookie the header says. */
  ghost predicate Describes(header: string, from: Address, now: int, date: string -> Option<int>, cookie: Cookie) {
    var pieces := Split(header, ';');
    Pairs(pieces[0], cookie.name, cookie.value) && Made(pieces[1..], from, now, date, cookie)
  }

  /** Every `Domain` that names something is one the host may name. */
  ghost predicate DomainsReach(attributes: seq<string>, host: string) {
    forall k, text, domain ::
      0 <= k < |attributes| && Says(attributes[k], "domain", text) && text != "" && Names(text, domain) ==>
        Reaches(host, domain)
  }

  predicate HasNoControl(piece: string) {
    forall i :: 0 <= i < |piece| ==> piece[i] >= ' ' && piece[i] != '\U{7F}'
  }

  /** `Secure` needs https, and so do the two prefixes; one of them also keeps the cookie to its host and its root. */
  predicate IsGuarded(cookie: Cookie, from: Address) {
    && (cookie.secure ==> from.https)
    && (StartsWith(cookie.name, "__Secure-") ==> cookie.secure)
    && (StartsWith(cookie.name, "__Host-") ==> cookie.secure && cookie.hostOnly && cookie.path == "/")
  }

  /** What a browser asks of a header before it keeps the cookie. */
  ghost predicate MayKeep(header: string, from: Address, cookie: Cookie) {
    var pieces := Split(header, ';');
    && HasNoControl(pieces[0])
    && |Utf8.Encode(cookie.name + cookie.value)| <= 4096
    && DomainsReach(pieces[1..], from.host)
    && IsGuarded(cookie, from)
  }

  // ---- The words of the reader ----

  function KeyIn(piece: string): string {
    var at := IndexOf(piece, '=');
    Lower(Trim(if at < 0 then piece else piece[..at]))
  }

  function TextIn(piece: string): string {
    var at := IndexOf(piece, '=');
    if at < 0 then "" else Trim(piece[at + 1..])
  }

  lemma {:induction false} CutAt(piece: string, before: string, after: string)
    requires piece == before + "=" + after && '=' !in before
    ensures IndexOf(piece, '=') == |before| && piece[..|before|] == before && piece[|before| + 1..] == after
  {
    FirstIndex(before, '=', after);
    assert before + "=" + after == before + ['='] + after;
  }

  lemma {:induction false} AtCut(piece: string)
    requires IndexOf(piece, '=') >= 0
    ensures var at := IndexOf(piece, '=');
            piece == piece[..at] + "=" + piece[at + 1..] && '=' !in piece[..at]
  {
  }

  lemma {:induction false} SaysIs(piece: string, key: string, text: string)
    ensures Says(piece, key, text) <==> key == KeyIn(piece) && text == TextIn(piece)
  {
    var at := IndexOf(piece, '=');
    if at >= 0 {
      AtCut(piece);
    }
    hide Lower, Trim, IndexOf;
    if '=' in piece && Says(piece, key, text) {
      var before, after :|
        piece == before + "=" + after && '=' !in before && key == Lower(Trim(before)) && text == Trim(after);
      CutAt(piece, before, after);
    }
  }

  lemma {:induction false} PairsIs(piece: string, name: string, value: string)
    ensures Pairs(piece, name, value) <==>
            && '=' in piece && name != "" && name == Trim(piece[..IndexOf(piece, '=')])
            && value == Trim(piece[IndexOf(piece, '=') + 1..])
  {
    if IndexOf(piece, '=') >= 0 {
      AtCut(piece);
    }
    hide Trim, IndexOf;
    if Pairs(piece, name, value) {
      var before, after :|
        && piece == before + "=" + after && '=' !in before
        && name == Trim(before) && name != "" && value == Trim(after);
      CutAt(piece, before, after);
    }
  }

  function LastOf(attributes: seq<string>, key: string, fits: string -> bool): Option<string> {
    if attributes == [] then None
    else
      var later := LastOf(attributes[1..], key, fits);
      if later.None? && KeyIn(attributes[0]) == key && fits(TextIn(attributes[0])) then Some(TextIn(attributes[0]))
      else later
  }

  predicate FitsAt(attributes: seq<string>, key: string, fits: string -> bool, k: nat)
    requires k < |attributes|
  {
    KeyIn(attributes[k]) == key && fits(TextIn(attributes[k]))
  }

  /** Where the last one stands. */
  lemma {:induction false} LastOfStands(attributes: seq<string>, key: string, fits: string -> bool)
    ensures var found := LastOf(attributes, key, fits);
            if found.None? then forall k: nat :: k < |attributes| ==> !FitsAt(attributes, key, fits, k)
            else
              exists k: nat ::
                && k < |attributes| && FitsAt(attributes, key, fits, k) && found.value == TextIn(attributes[k])
                && forall l: nat :: k < l < |attributes| ==> !FitsAt(attributes, key, fits, l)
  {
    if attributes != [] {
      var rest := attributes[1..];
      hide KeyIn, TextIn;
      LastOfStands(rest, key, fits);
      assert forall k: nat :: k < |rest| ==> FitsAt(rest, key, fits, k) == FitsAt(attributes, key, fits, k + 1);
      var found := LastOf(rest, key, fits);
      if found.Some? {
        var k: nat :|
          && k < |rest| && FitsAt(rest, key, fits, k) && found.value == TextIn(rest[k])
          && forall l: nat :: k < l < |rest| ==> !FitsAt(rest, key, fits, l);
        assert FitsAt(attributes, key, fits, k + 1);
        forall l: nat | k + 1 < l < |attributes| ensures !FitsAt(attributes, key, fits, l) {
          assert !FitsAt(rest, key, fits, l - 1);
        }
      } else {
        forall l: nat | 0 < l < |attributes| ensures !FitsAt(attributes, key, fits, l) {
          assert !FitsAt(rest, key, fits, l - 1);
        }
        if FitsAt(attributes, key, fits, 0) {
          assert LastOf(attributes, key, fits) == Some(TextIn(attributes[0]));
        }
      }
    }
  }

  lemma {:induction false} FitsWhere(attributes: seq<string>, key: string, fits: string -> bool, k: nat)
    requires k < |attributes|
    ensures FitsAt(attributes, key, fits, k) <==> exists text :: Says(attributes[k], key, text) && fits(text)
    ensures FitsAt(attributes, key, fits, k) <==>
            Says(attributes[k], key, TextIn(attributes[k])) && fits(TextIn(attributes[k]))
    ensures forall text :: Says(attributes[k], key, text) ==> text == TextIn(attributes[k])
  {
    forall text: string ensures Says(attributes[k], key, text) <==>
                                key == KeyIn(attributes[k]) && text == TextIn(attributes[k]) {
      SaysIs(attributes[k], key, text);
    }
  }

  lemma {:induction false} LastIs(attributes: seq<string>, key: string, fits: string -> bool, found: Option<string>)
    ensures IsLast(attributes, key, fits, found) <==> found == LastOf(attributes, key, fits)
  {
    forall k: nat | k < |attributes|
      ensures FitsAt(attributes, key, fits, k) <==> exists text :: Says(attributes[k], key, text) && fits(text)
      ensures FitsAt(attributes, key, fits, k) <==>
              Says(attributes[k], key, TextIn(attributes[k])) && fits(TextIn(attributes[k]))
      ensures forall text :: Says(attributes[k], key, text) ==> text == TextIn(attributes[k])
    {
      FitsWhere(attributes, key, fits, k);
    }
    LastOfStands(attributes, key, fits);
    hide Says, TextIn, KeyIn, FitsAt, LastOf;
  }

  // ---- Numbers, domains, directories ----

  lemma {:induction false} DecimalStep(digits: string)
    requires digits != ""
    ensures var n := |digits| - 1;
            Decimal(digits) == Decimal(digits[..n]) * 10 + (digits[n] as int - '0' as int)
  {
    var n := |digits| - 1;
    if n == 0 {
      assert digits[1..] == "" && digits[..0] == "";
    } else {
      DecimalStep(digits[1..]);
      assert digits[1..][..n - 1] == digits[..n][1..];
      assert Power(n) == 10 * Power(n - 1);
    }
  }

  lemma {:induction false} DigitsAreDecimal(digits: string)
    requires forall i :: 0 <= i < |digits| ==> '0' <= digits[i] <= '9'
    ensures Digits(digits) == Decimal(digits)
  {
    if digits != "" {
      DigitsAreDecimal(digits[..|digits| - 1]);
      DecimalStep(digits);
    }
  }

  lemma {:induction false} WholeIs(text: string)
    ensures IsWhole(text) <==> WholeNumber(text).Some?
    ensures IsWhole(text) ==> WholeNumber(text) == Some(Whole(text))
  {
    if StartsWith(text, "-") {
      assert text[0] == '-';
      assert !IsDigits(text);
      if OnlyDigits(text[1..]) {
        DigitsAreDecimal(text[1..]);
      }
    } else {
      assert text != "" ==> text[..1] == [text[0]];
      if OnlyDigits(text) {
        DigitsAreDecimal(text);
      }
    }
  }

  lemma {:induction false} NamesIs(text: string, domain: string)
    requires text != ""
    ensures Names(text, domain) <==> domain == DomainText(text)
  {
    hide Lower;
    if text[0] == '.' {
      assert text == "." + text[1..];
      if Names(text, domain) {
        var rest :| domain == Lower(rest) && (text == "." + rest || (text == rest && !StartsWith(text, ".")));
        assert StartsWith(text, ".");
        assert text[1..] == rest;
      }
    } else {
      assert text[..1] != ".";
      if Names(text, domain) {
        var rest :| domain == Lower(rest) && (text == "." + rest || (text == rest && !StartsWith(text, ".")));
        assert text != "." + rest;
      }
    }
  }

  lemma {:induction false} ReachesIs(host: string, domain: string)
    ensures Reaches(host, domain) <==> DomainMatches(host, domain) && (IsWide(domain) || domain == host)
  {
    hide IsIp;
    var tail := "." + domain;
    if EndsWith(host, tail) {
      assert host == host[..|host| - |tail|] + "." + domain;
    }
    if exists sub :: host == sub + "." + domain {
      var sub :| host == sub + "." + domain;
      assert host == sub + tail;
    }
  }

  lemma {:induction false} DirectoryOf(path: string, directory: string, file: string)
    requires path == directory + "/" + file && '/' !in file
    ensures LastIndexOf(path, '/') == |directory| && path[..|directory|] == directory
  {
    LastIndex(directory, '/', file);
    assert path == directory + ['/'] + file;
  }

  lemma {:induction false} DirectoryIs(path: string, directory: string)
    ensures IsDirectory(path, directory) <==> directory == DefaultPath(path)
  {
    var end := LastIndexOf(path, '/');
    if end > 0 {
      assert path == path[..end] + "/" + path[end + 1..];
    } else if end < 0 {
      assert forall i :: 1 <= i < |path| ==> path[i] in path;
    } else {
      assert forall i :: 1 <= i < |path| ==> path[i] in path[1..];
    }
    if directory != "" && exists file :: path == directory + "/" + file && '/' !in file {
      var file :| path == directory + "/" + file && '/' !in file;
      DirectoryOf(path, directory, file);
    }
  }

  // ---- Reading all attributes ----

  /** What some attributes say: the last fitting text of each kind, and the two flags. */
  datatype Found = Found(
    domain: Option<string>,
    path: Option<string>,
    secure: bool,
    httpOnly: bool,
    site: Option<string>,
    age: Option<string>,
    day: Option<string>)

  function Later<T>(first: Option<T>, later: Option<T>): Option<T> {
    if later.Some? then later else first
  }

  function Both(first: Found, later: Found): Found {
    Found(Later(first.domain, later.domain), Later(first.path, later.path), first.secure || later.secure,
          first.httpOnly || later.httpOnly, Later(first.site, later.site), Later(first.age, later.age),
          Later(first.day, later.day))
  }

  function TextOfKind(attribute: string, key: string, fits: string -> bool): Option<string> {
    if KeyIn(attribute) == key && fits(TextIn(attribute)) then Some(TextIn(attribute)) else None
  }

  function FoundInOne(attribute: string, date: string -> Option<int>): Found {
    Found(TextOfKind(attribute, "domain", IsNamed), TextOfKind(attribute, "path", IsAbsolute),
          KeyIn(attribute) == "secure", KeyIn(attribute) == "httponly",
          TextOfKind(attribute, "samesite", IsKnownSite), TextOfKind(attribute, "max-age", IsWhole),
          TextOfKind(attribute, "expires", IsDated(date)))
  }

  function FoundIn(attributes: seq<string>, date: string -> Option<int>): Found {
    if attributes == [] then Found(None, None, false, false, None, None, None)
    else Both(FoundInOne(attributes[0], date), FoundIn(attributes[1..], date))
  }

  /** The draft with what was found. */
  function With(draft: Draft, found: Found, date: string -> Option<int>): Draft {
    var c := draft.cookie;
    var read := Cookie(
      c.name, c.value,
      if found.domain.Some? then DomainText(found.domain.value) else c.domain,
      if found.domain.Some? then !IsWide(DomainText(found.domain.value)) else c.hostOnly,
      found.path.Or(c.path),
      c.secure || found.secure,
      c.httpOnly || found.httpOnly,
      if found.site.Some? then SameSiteOf(found.site.value) else c.sameSite,
      if found.day.Some? then date(found.day.value) else c.expires,
      c.created);
    Draft(read, if found.age.Some? then Some(Whole(found.age.value)) else draft.maxAge)
  }

  predicate AttributeReaches(attribute: string, host: string) {
    var domain := DomainText(TextIn(attribute));
    KeyIn(attribute) == "domain" && TextIn(attribute) != "" ==>
      DomainMatches(host, domain) && (IsWide(domain) || domain == host)
  }

  lemma {:induction false} TakeOne(draft: Draft, attribute: string, host: string, date: string -> Option<int>)
    ensures TakeAttribute(draft, attribute, host, date)
         == if AttributeReaches(attribute, host) then Some(With(draft, FoundInOne(attribute, date), date)) else None
  {
    WholeIs(TextIn(attribute));
    hide Lower, Trim, IndexOf, DomainMatches, IsWide, DomainText, WholeNumber, IsWhole, Whole;
  }

  lemma {:induction false} WithBoth(draft: Draft, first: Found, later: Found, date: string -> Option<int>)
    ensures With(With(draft, first, date), later, date) == With(draft, Both(first, later), date)
  {
    hide Whole, DomainText, IsWide, SameSiteOf;
  }

  predicate AllReach(attributes: seq<string>, host: string) {
    forall k :: 0 <= k < |attributes| ==> AttributeReaches(attributes[k], host)
  }

  lemma {:induction false} TakeAll(draft: Draft, attributes: seq<string>, host: string, date: string -> Option<int>)
    ensures TakeAttributes(draft, attributes, host, date)
         == if AllReach(attributes, host) then Some(With(draft, FoundIn(attributes, date), date)) else None
    decreases |attributes|
  {
    hide TakeAttribute, AttributeReaches, FoundInOne, Both;
    if attributes != [] {
      var (first, rest) := (attributes[0], attributes[1..]);
      TakeOne(draft, first, host, date);
      assert AllReach(attributes, host) <==> AttributeReaches(first, host) && AllReach(rest, host);
      WithBoth(draft, FoundInOne(first, date), FoundIn(rest, date), date);
      TakeAll(With(draft, FoundInOne(first, date), date), rest, host, date);
    }
  }

  // ---- What was found is what is said ----

  function Any(): string -> bool {
    text => true
  }

  lemma {:induction false} SaidIs(attributes: seq<string>, key: string)
    ensures Said(attributes, key) <==> LastOf(attributes, key, Any()).Some?
  {
    var found := LastOf(attributes, key, Any());
    LastIs(attributes, key, Any(), found);
    hide Says, LastOf;
    if Said(attributes, key) {
      var k, text :| 0 <= k < |attributes| && Says(attributes[k], key, text);
      assert Any()(text);
    }
  }

  lemma {:induction false} FoundIs(attributes: seq<string>, date: string -> Option<int>)
    ensures FoundIn(attributes, date)
         == Found(LastOf(attributes, "domain", IsNamed), LastOf(attributes, "path", IsAbsolute),
                  LastOf(attributes, "secure", Any()).Some?, LastOf(attributes, "httponly", Any()).Some?,
                  LastOf(attributes, "samesite", IsKnownSite), LastOf(attributes, "max-age", IsWhole),
                  LastOf(attributes, "expires", IsDated(date)))
  {
    if attributes != [] {
      FoundIs(attributes[1..], date);
      hide KeyIn, TextIn, IsNamed, IsAbsolute, IsKnownSite, IsWhole, IsDated;
    }
  }

  /** What one attribute must be for `DomainsReach`. */
  lemma {:induction false} ReachOne(attribute: string, host: string)
    ensures AttributeReaches(attribute, host) <==>
            (Says(attribute, "domain", TextIn(attribute)) && TextIn(attribute) != "" ==>
               Reaches(host, DomainText(TextIn(attribute))))
  {
    SaysIs(attribute, "domain", TextIn(attribute));
    ReachesIs(host, DomainText(TextIn(attribute)));
    hide Says, Reaches, DomainMatches, IsWide, DomainText, KeyIn, TextIn;
  }

  lemma {:induction false} SaidDomain(attribute: string, text: string, domain: string)
    requires Says(attribute, "domain", text) && text != "" && Names(text, domain)
    ensures text == TextIn(attribute) && domain == DomainText(text)
  {
    SaysIs(attribute, "domain", text);
    NamesIs(text, domain);
  }

  lemma {:induction false} ReachIs(attributes: seq<string>, host: string)
    ensures DomainsReach(attributes, host) <==> AllReach(attributes, host)
  {
    hide Says, Names, Reaches, AttributeReaches, DomainText, TextIn;
    if DomainsReach(attributes, host) {
      forall k | 0 <= k < |attributes| ensures AttributeReaches(attributes[k], host) {
        var text := TextIn(attributes[k]);
        ReachOne(attributes[k], host);
        if text != "" {
          NamesIs(text, DomainText(text));
        }
      }
    }
    if AllReach(attributes, host) {
      forall k, text, domain | 0 <= k < |attributes| && Says(attributes[k], "domain", text) && text != "" &&
                               Names(text, domain)
        ensures Reaches(host, domain) {
        SaidDomain(attributes[k], text, domain);
        ReachOne(attributes[k], host);
      }
    }
  }

  lemma {:induction false} DomainIsFound(attributes: seq<string>, host: string, cookie: Cookie)
    ensures var found := LastOf(attributes, "domain", IsNamed);
            DomainIs(attributes, host, cookie) <==>
              if found.None? then cookie.domain == host && cookie.hostOnly
              else cookie.domain == DomainText(found.value) && cookie.hostOnly == !IsWide(cookie.domain)
  {
    var found := LastOf(attributes, "domain", IsNamed);
    LastIs(attributes, "domain", IsNamed, found);
    LastOfStands(attributes, "domain", IsNamed);
    if found.Some? {
      NamesIs(found.value, cookie.domain);
    }
    hide IsLast, LastOf, Names, DomainText, KeyIn, TextIn, IsIp;
    assert DomainFrom(found, host, cookie) <==>
           if found.None? then cookie.domain == host && cookie.hostOnly
           else cookie.domain == DomainText(found.value) && cookie.hostOnly == !IsWide(cookie.domain);
    if DomainIs(attributes, host, cookie) {
      var any :| IsLast(attributes, "domain", IsNamed, any) && DomainFrom(any, host, cookie);
      LastIs(attributes, "domain", IsNamed, any);
    }
  }

  lemma {:induction false} PathIsFound(attributes: seq<string>, requestPath: string, path: string)
    ensures PathIs(attributes, requestPath, path) <==>
            path == LastOf(attributes, "path", IsAbsolute).Or(DefaultPath(requestPath))
  {
    var found := LastOf(attributes, "path", IsAbsolute);
    LastIs(attributes, "path", IsAbsolute, found);
    DirectoryIs(requestPath, path);
    hide IsLast, LastOf, IsDirectory, DefaultPath;
    if PathIs(attributes, requestPath, path) {
      var any :| IsLast(attributes, "path", IsAbsolute, any) && PathFrom(any, requestPath, path);
      LastIs(attributes, "path", IsAbsolute, any);
    }
    assert PathFrom(found, requestPath, path) <==> path == found.Or(DefaultPath(requestPath));
  }

  lemma {:induction false} SameSiteIsFound(attributes: seq<string>, sameSite: Option<SameSite>)
    ensures var found := LastOf(attributes, "samesite", IsKnownSite);
            SameSiteIs(attributes, sameSite) <==>
              sameSite == if found.Some? then SameSiteOf(found.value) else None
  {
    var found := LastOf(attributes, "samesite", IsKnownSite);
    LastIs(attributes, "samesite", IsKnownSite, found);
    LastOfStands(attributes, "samesite", IsKnownSite);
    hide IsLast, LastOf, KeyIn, TextIn, Lower;
    if SameSiteIs(attributes, sameSite) {
      var any :| IsLast(attributes, "samesite", IsKnownSite, any) && SiteFrom(any, sameSite);
      LastIs(attributes, "samesite", IsKnownSite, any);
    }
    assert SiteFrom(found, sameSite) <==> sameSite == if found.Some? then SameSiteOf(found.value) else None;
  }

  lemma {:induction false} LifeIsFound(
    attributes: seq<string>, now: int, date: string -> Option<int>, expires: Option<int>)
    ensures LifeIs(attributes, now, date, expires) <==>
            LifeFrom(LastOf(attributes, "max-age", IsWhole), LastOf(attributes, "expires", IsDated(date)), now, date,
                     expires)
  {
    var (age, day) := (LastOf(attributes, "max-age", IsWhole), LastOf(attributes, "expires", IsDated(date)));
    LastIs(attributes, "max-age", IsWhole, age);
    LastIs(attributes, "expires", IsDated(date), day);
    hide IsLast, LastOf, IsDated, LifeFrom, IsWhole;
    if LifeIs(attributes, now, date, expires) {
      var a, d :|
        && IsLast(attributes, "max-age", IsWhole, a) && IsLast(attributes, "expires", IsDated(date), d)
        && LifeFrom(a, d, now, date, expires);
      LastIs(attributes, "max-age", IsWhole, a);
      LastIs(attributes, "expires", IsDated(date), d);
    }
  }

  lemma {:induction false} PairIsRead(piece: string, name: string, value: string)
    ensures NameAndValue(piece) == Some((name, value)) <==>
            Pairs(piece, name, value) && HasNoControl(piece) && |Utf8.Encode(name + value)| <= 4096
  {
    PairsIs(piece, name, value);
    var at := IndexOf(piece, '=');
    if at == 0 {
      assert piece[..at] == "";
      assert Trim(piece[..at]) == "";
    }
    hide Trim, IndexOf, Pairs, Utf8.Encode;
    assert (exists i :: 0 <= i < |piece| && IsControl(piece[i])) <==> !HasNoControl(piece);
  }

  /** The cookie of a draft, with the life its `Max-Age` gives. */
  function Ended(draft: Draft, now: int): Cookie {
    if draft.maxAge.None? then draft.cookie
    else draft.cookie.(expires := Some(if draft.maxAge.value <= 0 then 0 else now + draft.maxAge.value * 1000))
  }

  function SaidCookie(first: Draft, attributes: seq<string>, now: int, date: string -> Option<int>): Cookie {
    Ended(With(first, FoundIn(attributes, date), date), now)
  }

  lemma {:induction false} MadeIs(
    attributes: seq<string>, from: Address, now: int, date: string -> Option<int>, cookie: Cookie)
    ensures Made(attributes, from, now, date, cookie) <==>
            cookie == SaidCookie(FirstDraft(cookie.name, cookie.value, from, now), attributes, now, date)
  {
    FoundIs(attributes, date);
    DomainIsFound(attributes, from.host, cookie);
    PathIsFound(attributes, from.path, cookie.path);
    SaidIs(attributes, "secure");
    SaidIs(attributes, "httponly");
    SameSiteIsFound(attributes, cookie.sameSite);
    LifeIsFound(attributes, now, date, cookie.expires);
    hide DomainIs, PathIs, Said, SameSiteIs, LifeIs, LastOf, DefaultPath, IsWide, DomainText, FoundIn, Any,
      SameSiteOf, Whole, IsWhole, IsNamed, IsAbsolute, IsKnownSite, IsDated, IsIp, Lower, KeyIn, TextIn;
  }

  /** What is read of the attributes, and then asked of the cookie. */
  lemma {:induction false} PiecesMake(name: string, value: string, attributes: seq<string>, from: Address, now: int,
    date: string -> Option<int>, cookie: Cookie)
    ensures var draft := TakeAttributes(FirstDraft(name, value, from, now), attributes, from.host, date);
            draft.Some? && Accepted(draft.value, from, now) == Some(cookie) <==>
              && cookie.name == name && cookie.value == value && Made(attributes, from, now, date, cookie)
              && DomainsReach(attributes, from.host) && IsGuarded(cookie, from)
  {
    TakeAll(FirstDraft(name, value, from, now), attributes, from.host, date);
    ReachIs(attributes, from.host);
    MadeIs(attributes, from, now, date, cookie);
    hide Made, TakeAttributes, FoundIn, AllReach, DomainsReach, DefaultPath, Whole, StartsWith, IsWide, DomainText,
      SameSiteOf;
  }

  /**
   * What a header makes, from the header alone: a response's header makes a cookie exactly when the cookie is the one
   * it describes and a browser may keep that one. A header that describes no such cookie makes none.
   */
  lemma {:induction false} HeaderMakes(header: string, from: Address, now: int, date: string -> Option<int>,
    cookie: Cookie)
    ensures CookieOf(header, Some(from), now, date) == Some(cookie) <==>
            Describes(header, from, now, date, cookie) && MayKeep(header, from, cookie)
  {
    var pieces := Split(header, ';');
    var (first, attributes) := (pieces[0], pieces[1..]);
    PairIsRead(first, cookie.name, cookie.value);
    PiecesMake(cookie.name, cookie.value, attributes, from, now, date, cookie);
    if NameAndValue(first).Some? {
      var (name, value) := NameAndValue(first).value;
      PiecesMake(name, value, attributes, from, now, date, cookie);
    }
    hide Made, Split, TakeAttributes, NameAndValue, Pairs, DomainsReach, FirstDraft, Accepted, Utf8.Encode,
      HasNoControl, IsGuarded;
  }
}
