/**
 * What a jar keeps over any run: it is a map from name, domain and path, it is bounded, and a cookie goes where it may.
 */
module CookieLaws {
  import opened Basics
  import opened CookieRules
  import opened StableSort
  import opened Text

  datatype Key = Key(name: string, domain: string, path: string)

  function KeyOf(c: Cookie): Key {
    Key(c.name, c.domain, c.path)
  }

  predicate Unique(jar: seq<Cookie>) {
    forall i, j :: 0 <= i < j < |jar| ==> KeyOf(jar[i]) != KeyOf(jar[j])
  }

  predicate ValidJar(jar: seq<Cookie>) {
    |jar| <= MAX_COOKIES && Unique(jar)
  }

  /** The jar as a map. */
  function AsMap(jar: seq<Cookie>): map<Key, Cookie>
    requires Unique(jar)
  {
    map c | c in jar :: KeyOf(c) := c
  }

  lemma {:induction false} MapHolds(jar: seq<Cookie>)
    requires Unique(jar)
    ensures forall c :: c in jar ==> KeyOf(c) in AsMap(jar) && AsMap(jar)[KeyOf(c)] == c
    ensures forall k :: k in AsMap(jar) ==> AsMap(jar)[k] in jar && KeyOf(AsMap(jar)[k]) == k
  {
  }

  /** Two jars of the same cookies are the same map, whatever their order. */
  lemma {:induction false} SameMap(a: seq<Cookie>, b: map<Key, Cookie>)
    requires Unique(a)
    requires forall c :: c in a ==> KeyOf(c) in b && b[KeyOf(c)] == c
    requires forall k :: k in b ==> b[k] in a && KeyOf(b[k]) == k
    ensures AsMap(a) == b
  {
    MapHolds(a);
  }

  // ---- The order of creation is a total order, and so is the order of sending ----

  lemma {:induction false} CreationOrder()
    ensures TotalOrder(EarlierCreated)
  {
  }

  lemma {:induction false} SendingOrder()
    ensures TotalOrder(SentBefore)
  {
  }

  // ---- Sorting keeps the jar a map ----

  lemma {:induction false} OnceInUnique(jar: seq<Cookie>, c: Cookie)
    requires Unique(jar)
    ensures multiset(jar)[c] <= 1
  {
    if jar != [] {
      var (front, last) := (jar[..|jar| - 1], jar[|jar| - 1]);
      OnceInUnique(front, c);
      assert jar == front + [last];
      if last == c {
        assert c !in front;
      }
    }
  }

  lemma {:induction false} TwiceIsTwo(jar: seq<Cookie>, i: nat, j: nat)
    requires i < j < |jar| && jar[i] == jar[j]
    ensures multiset(jar)[jar[i]] >= 2
  {
    assert jar == jar[..j] + jar[j..];
    assert jar[i] in jar[..j] && jar[j..][0] in jar[j..];
  }

  lemma {:induction false} SameItemsUnique(a: seq<Cookie>, b: seq<Cookie>)
    requires Unique(a) && multiset(a) == multiset(b)
    ensures Unique(b)
  {
    forall i, j | 0 <= i < j < |b| ensures KeyOf(b[i]) != KeyOf(b[j]) {
      assert b[i] in multiset(b) && b[j] in multiset(b);
      assert b[i] in a && b[j] in a;
      if b[i] == b[j] {
        TwiceIsTwo(b, i, j);
        OnceInUnique(a, b[i]);
      }
    }
  }

  // ---- Storing ----

  /** The cookie as it is kept: one that takes another's place was created when that one was. */
  function KeptAs(jar: seq<Cookie>, cookie: Cookie): Cookie {
    var at := PlaceOf(jar, cookie);
    if at == -1 then cookie else cookie.(created := jar[at].created)
  }

  lemma {:induction false} PlaceIsKey(jar: seq<Cookie>, cookie: Cookie)
    requires Unique(jar)
    ensures PlaceOf(jar, cookie) >= 0 <==> KeyOf(cookie) in AsMap(jar)
    ensures PlaceOf(jar, cookie) >= 0 ==> AsMap(jar)[KeyOf(cookie)] == jar[PlaceOf(jar, cookie)]
  {
    MapHolds(jar);
    assert forall i :: 0 <= i < |jar| ==> (Same(jar[i], cookie) <==> KeyOf(jar[i]) == KeyOf(cookie));
    if KeyOf(cookie) in AsMap(jar) {
      var c := AsMap(jar)[KeyOf(cookie)];
      var i :| 0 <= i < |jar| && jar[i] == c;
    }
    var at := PlaceOf(jar, cookie);
    if at >= 0 {
      assert jar[at] in jar;
    }
  }

  lemma {:induction false} AppendUpdates(jar: seq<Cookie>, c: Cookie)
    requires Unique(jar) && KeyOf(c) !in AsMap(jar)
    ensures Unique(jar + [c]) && AsMap(jar + [c]) == AsMap(jar)[KeyOf(c) := c]
  {
    MapHolds(jar);
    hide KeyOf;
    assert forall d :: d in jar + [c] <==> d in jar || d == c;
    assert forall i :: 0 <= i < |jar| ==> jar[i] in jar;
    SameMap(jar + [c], AsMap(jar)[KeyOf(c) := c]);
  }

  lemma {:induction false} ReplaceUpdates(jar: seq<Cookie>, at: nat, c: Cookie)
    requires Unique(jar) && at < |jar| && KeyOf(jar[at]) == KeyOf(c)
    ensures Unique(jar[at := c]) && AsMap(jar[at := c]) == AsMap(jar)[KeyOf(c) := c]
  {
    MapHolds(jar);
    hide KeyOf;
    var (next, m) := (jar[at := c], AsMap(jar)[KeyOf(c) := c]);
    assert next[at] == c;
    forall k | k in m ensures m[k] in next && KeyOf(m[k]) == k {
      if k != KeyOf(c) {
        var i :| 0 <= i < |jar| && jar[i] == AsMap(jar)[k];
        assert next[i] == jar[i];
      }
    }
    forall d | d in next ensures KeyOf(d) in m && m[KeyOf(d)] == d {
      var i :| 0 <= i < |next| && next[i] == d;
      if i != at {
        assert jar[i] in jar;
      }
    }
    hide AsMap;
    SameMap(next, m);
  }

  /** Putting a cookie in is putting its key in the map: no other key changes, and a first creation time stays. */
  lemma {:induction false} AddedIsUpdate(jar: seq<Cookie>, cookie: Cookie)
    requires ValidJar(jar)
    ensures var next := Added(jar, cookie);
            && Unique(next) && |next| <= MAX_COOKIES + 1
            && AsMap(next) == AsMap(jar)[KeyOf(cookie) := KeptAs(jar, cookie)]
  {
    var at := PlaceOf(jar, cookie);
    PlaceIsKey(jar, cookie);
    hide AsMap, Unique, PlaceOf;
    if at == -1 {
      AppendUpdates(jar, cookie);
    } else {
      ReplaceUpdates(jar, at, KeptAs(jar, cookie));
    }
  }

  lemma {:induction false} DropFirst(s: seq<Cookie>)
    requires s != [] && Unique(s)
    ensures Unique(s[1..])
    ensures AsMap(s[1..]) == AsMap(s) - {KeyOf(s[0])}
    ensures forall c :: c in s[1..] <==> c in s && c != s[0]
  {
    MapHolds(s);
    assert s == [s[0]] + s[1..];
    SameMap(s[1..], AsMap(s) - {KeyOf(s[0])});
  }

  /** The cookie that goes when there is one too many. */
  function Oldest(jar: seq<Cookie>): Cookie
    requires jar != []
  {
    Sort(EarlierCreated, jar)[0]
  }

  lemma {:induction false} OldestGoes(next: seq<Cookie>)
    requires next != [] && Unique(next)
    ensures var (sorted, gone) := (Sort(EarlierCreated, next), Oldest(next));
            && Unique(sorted[1..]) && AsMap(sorted[1..]) == AsMap(next) - {KeyOf(gone)} && gone in next
            && forall c :: c in sorted[1..] ==> gone.created <= c.created
  {
    var sorted := Sort(EarlierCreated, next);
    CreationOrder();
    SortWorks(EarlierCreated, next);
    SameItemsUnique(next, sorted);
    DropFirst(sorted);
    MapHolds(next);
    MapHolds(sorted);
    SameMap(sorted, AsMap(next));
    hide KeyOf, AsMap, Unique, Sort;
    assert sorted[0] in sorted;
    forall c | c in sorted[1..] ensures sorted[0].created <= c.created {
      var i :| 0 <= i < |sorted[1..]| && sorted[1..][i] == c;
      assert EarlierCreated(sorted[0], sorted[i + 1]);
    }
  }

  lemma {:induction false} TakenOutHolds(jar: seq<Cookie>, at: nat)
    requires Unique(jar) && at < |jar|
    ensures var rest := jar[..at] + jar[at + 1..];
            && Unique(rest)
            && (forall c :: c in rest ==> c in jar && KeyOf(c) != KeyOf(jar[at]))
            && (forall c :: c in jar && KeyOf(c) != KeyOf(jar[at]) ==> c in rest)
  {
    hide KeyOf;
    var (before, after) := (jar[..at], jar[at + 1..]);
    assert jar == before + [jar[at]] + after;
    assert forall c :: c in before + after <==> c in before || c in after;
    forall c | c in before + after ensures c in jar && KeyOf(c) != KeyOf(jar[at]) {
      if c in before {
        var i :| 0 <= i < at && jar[i] == c;
      } else {
        var i :| at < i < |jar| && jar[i] == c;
      }
    }
  }

  lemma {:induction false} TakenOut(jar: seq<Cookie>, at: nat)
    requires Unique(jar) && at < |jar|
    ensures Unique(jar[..at] + jar[at + 1..])
    ensures AsMap(jar[..at] + jar[at + 1..]) == AsMap(jar) - {KeyOf(jar[at])}
  {
    TakenOutHolds(jar, at);
    MapHolds(jar);
    hide KeyOf, Unique, AsMap;
    SameMap(jar[..at] + jar[at + 1..], AsMap(jar) - {KeyOf(jar[at])});
  }

  /** What storing does to the map when the cookie has expired, or fits, or is one too many. */
  predicate RefinesMap(jar: seq<Cookie>, cookie: Cookie, now: int, after: seq<Cookie>)
    requires Unique(jar) && Unique(after)
  {
    var updated := AsMap(jar)[KeyOf(cookie) := KeptAs(jar, cookie)];
    if Expired(cookie, now) then AsMap(after) == AsMap(jar) - {KeyOf(cookie)}
    else if |Added(jar, cookie)| <= MAX_COOKIES then AsMap(after) == updated
    else
      var gone := Oldest(Added(jar, cookie));
      && AsMap(after) == updated - {KeyOf(gone)} && gone in Added(jar, cookie)
      && forall c :: c in after ==> gone.created <= c.created
  }

  lemma {:induction false} ExpiredGoes(jar: seq<Cookie>, cookie: Cookie, now: int)
    requires ValidJar(jar) && Expired(cookie, now)
    ensures ValidJar(StoreCookie(jar, cookie, now)) && RefinesMap(jar, cookie, now, StoreCookie(jar, cookie, now))
  {
    StoreExpired(jar, cookie, now);
    hide StoreCookie, Added, KeptAs, Oldest;
    PlaceIsKey(jar, cookie);
    if PlaceOf(jar, cookie) >= 0 {
      SameIsKey(jar[PlaceOf(jar, cookie)], cookie);
      hide KeyOf, Unique, AsMap;
      TakenOut(jar, PlaceOf(jar, cookie));
    } else {
      hide PlaceOf, KeyOf, Unique, AsMap;
      assert AsMap(jar) - {KeyOf(cookie)} == AsMap(jar);
    }
  }

  lemma {:induction false} SameIsKey(a: Cookie, b: Cookie)
    ensures Same(a, b) <==> KeyOf(a) == KeyOf(b)
  {
  }

  lemma {:induction false} StoreExpired(jar: seq<Cookie>, cookie: Cookie, now: int)
    requires Expired(cookie, now)
    ensures var at := PlaceOf(jar, cookie);
            StoreCookie(jar, cookie, now) == if at == -1 then jar else jar[..at] + jar[at + 1..]
  {
    hide Added, PlaceOf, Sort;
  }

  /**
   * Storing refines a map update. An expired cookie takes its key out. Any other puts it in, with the first creation
   * time, and when that makes one too many, exactly one cookie goes, created no later than any that stays.
   */
  lemma {:induction false} StoreRefinesMap(jar: seq<Cookie>, cookie: Cookie, now: int)
    requires ValidJar(jar)
    ensures ValidJar(StoreCookie(jar, cookie, now)) && RefinesMap(jar, cookie, now, StoreCookie(jar, cookie, now))
  {
    if Expired(cookie, now) {
      ExpiredGoes(jar, cookie, now);
    } else {
      var next := Added(jar, cookie);
      AddedIsUpdate(jar, cookie);
      if |next| > MAX_COOKIES {
        OldestGoes(next);
        assert |next| - MAX_COOKIES == 1;
      }
      hide AsMap, Unique, PlaceOf, Same, KeyOf, Sort, Oldest, Added, KeptAs;
    }
  }

  /** What is sent is a rearrangement of the matching cookies, sorted by `SentBefore` and otherwise left as it stood. */
  lemma {:induction false} SendsExactly(jar: seq<Cookie>, to: Address, now: int)
    ensures var sent := CookiesFor(jar, Some(to), now);
            && multiset(sent) == multiset(Filter(GoesTo(to, now), jar))
            && (forall c :: c in sent <==> c in jar && Goes(c, to, now))
            && (forall i, j :: 0 <= i < j < |sent| ==> SentBefore(sent[i], sent[j]))
            && (forall c :: Filter(LikeOf(SentBefore, c), sent)
                            == Filter(LikeOf(SentBefore, c), Filter(GoesTo(to, now), jar)))
  {
    SendingOrder();
    SortWorks(SentBefore, Filter(GoesTo(to, now), jar));
  }

  // ---- Runs ----

  /** A response of an address sets a cookie. */
  datatype Event = Event(header: string, from: Option<Address>, now: int)

  function After(jar: seq<Cookie>, events: seq<Event>, date: string -> Option<int>): seq<Cookie>
    decreases |events|
  {
    if events == [] then jar
    else
      var e := events[0];
      var cookie := CookieOf(e.header, e.from, e.now, date);
      After(if cookie.None? then jar else StoreCookie(jar, cookie.value, e.now), events[1..], date)
  }

  /** Every jar there can be is a map of at most 1,000 cookies. */
  lemma {:induction false} EveryJarIsValid(jar: seq<Cookie>, events: seq<Event>, date: string -> Option<int>)
    requires ValidJar(jar)
    ensures ValidJar(After(jar, events, date))
    decreases |events|
  {
    if events != [] {
      var e := events[0];
      var cookie := CookieOf(e.header, e.from, e.now, date);
      if cookie.Some? {
        StoreRefinesMap(jar, cookie.value, e.now);
      }
      EveryJarIsValid(if cookie.None? then jar else StoreCookie(jar, cookie.value, e.now), events[1..], date);
    }
  }

  // ---- A cookie goes only where its setter could have sent it ----

  /** What an address may set: a cookie of its own host, or one of a domain with a dot that it belongs to. */
  predicate MaySet(from: Address, cookie: Cookie) {
    && (if cookie.hostOnly then cookie.domain == from.host
        else DomainMatches(from.host, cookie.domain) && IsWide(cookie.domain))
    && (cookie.secure ==> from.https)
  }

  predicate MaySetDomain(from: Address, cookie: Cookie) {
    if cookie.hostOnly then cookie.domain == from.host
    else DomainMatches(from.host, cookie.domain) && IsWide(cookie.domain)
  }

  lemma {:induction false} AttributeKeepsDomain(draft: Draft, attribute: string, from: Address,
    date: string -> Option<int>)
    requires MaySetDomain(from, draft.cookie)
    ensures var next := TakeAttribute(draft, attribute, from.host, date);
            next.Some? ==> MaySetDomain(from, next.value.cookie)
  {
    hide IsWide, DomainMatches, Trim, Lower, WholeNumber, SameSiteOf, DomainText, IndexOf;
  }

  lemma {:induction false} AttributesKeepDomain(draft: Draft, attributes: seq<string>, from: Address,
    date: string -> Option<int>)
    requires MaySetDomain(from, draft.cookie)
    ensures var next := TakeAttributes(draft, attributes, from.host, date);
            next.Some? ==> MaySetDomain(from, next.value.cookie)
    decreases |attributes|
  {
    hide MaySetDomain, TakeAttribute;
    if attributes != [] {
      AttributeKeepsDomain(draft, attributes[0], from, date);
      var next := TakeAttribute(draft, attributes[0], from.host, date);
      if next.Some? {
        AttributesKeepDomain(next.value, attributes[1..], from, date);
      }
    }
  }

  lemma {:induction false} AcceptedMaySet(header: string, from: Address, now: int, date: string -> Option<int>)
    ensures var cookie := CookieOf(header, Some(from), now, date);
            cookie.Some? ==> MaySet(from, cookie.value)
  {
    var pieces := Split(header, ';');
    var pair := NameAndValue(pieces[0]);
    if pair.Some? {
      var first := FirstDraft(pair.value.0, pair.value.1, from, now);
      assert MaySetDomain(from, first.cookie);
      AttributesKeepDomain(first, pieces[1..], from, date);
      hide TakeAttributes, Split, NameAndValue, IsWide, DomainMatches;
    }
  }

  lemma {:induction false} AddedAreKept(jar: seq<Cookie>, cookie: Cookie)
    ensures forall c :: c in Added(jar, cookie) ==> c in jar || c == KeptAs(jar, cookie)
  {
    hide PlaceOf;
  }

  /** Storing brings in no other cookie than the one that is stored. */
  lemma {:induction false} StoredAreKept(jar: seq<Cookie>, cookie: Cookie, now: int)
    ensures forall c :: c in StoreCookie(jar, cookie, now) ==> c in jar || c == KeptAs(jar, cookie)
  {
    var (at, next) := (PlaceOf(jar, cookie), Added(jar, cookie));
    AddedAreKept(jar, cookie);
    CreationOrder();
    SortedAreAll(next);
    hide PlaceOf, Added, KeptAs, Sort;
    if Expired(cookie, now) {
      assert StoreCookie(jar, cookie, now) == if at == -1 then jar else jar[..at] + jar[at + 1..];
    } else {
      var sorted := Sort(EarlierCreated, next);
      assert StoreCookie(jar, cookie, now)
          == if |next| > MAX_COOKIES then sorted[|next| - MAX_COOKIES..] else next;
    }
  }

  lemma {:induction false} SortedAreAll(next: seq<Cookie>)
    ensures |Sort(EarlierCreated, next)| == |next|
    ensures forall c :: c in Sort(EarlierCreated, next) <==> c in next
  {
    CreationOrder();
    SortWorks(EarlierCreated, next);
    hide Sort;
  }

  /** Storing leaves every cookie of another key as it was, or lets it go. */
  lemma {:induction false} OthersStay(jar: seq<Cookie>, cookie: Cookie, now: int)
    requires ValidJar(jar)
    ensures var after := StoreCookie(jar, cookie, now);
            && ValidJar(after)
            && (forall c :: c in after && KeyOf(c) != KeyOf(cookie) ==> c in jar)
            && (forall c :: c in after && KeyOf(c) == KeyOf(cookie) ==> c == KeptAs(jar, cookie))
  {
    var after := StoreCookie(jar, cookie, now);
    StoreRefinesMap(jar, cookie, now);
    MapHolds(jar);
    MapHolds(after);
    hide StoreCookie, AsMap, KeptAs, Oldest, Added, KeyOf, Unique;
    forall c | c in after ensures if KeyOf(c) != KeyOf(cookie) then c in jar else c == KeptAs(jar, cookie) {
      assert AsMap(after)[KeyOf(c)] == c;
    }
  }

  /** What the response of this event made of its header. */
  function Made(e: Event, date: string -> Option<int>): Option<Cookie> {
    CookieOf(e.header, e.from, e.now, date)
  }

  /** The event's header is what the cookie was made from: all of it but the time of the first of its key. */
  predicate SetBy(e: Event, date: string -> Option<int>, c: Cookie) {
    Made(e, date).Some? && c == Made(e, date).value.(created := c.created)
  }

  /** The event's header makes a cookie of this key. */
  predicate SetsKey(e: Event, date: string -> Option<int>, key: Key) {
    Made(e, date).Some? && KeyOf(Made(e, date).value) == key
  }

  /** The i-th event is the last that sets the cookie's key, and set the cookie. */
  predicate LastSetBy(events: seq<Event>, date: string -> Option<int>, c: Cookie, i: nat) {
    && i < |events| && SetBy(events[i], date, c)
    && forall j :: i < j < |events| ==> !SetsKey(events[j], date, KeyOf(c))
  }

  /** The jar was given the cookie by the last event of its key, or held it and no event is of its key. */
  ghost predicate Given(jar: seq<Cookie>, events: seq<Event>, date: string -> Option<int>, c: Cookie) {
    || (exists i: nat :: LastSetBy(events, date, c, i))
    || (c in jar && forall j :: 0 <= j < |events| ==> !SetsKey(events[j], date, KeyOf(c)))
  }

  lemma {:induction false} GivenLater(jar: seq<Cookie>, next: seq<Cookie>, events: seq<Event>,
    date: string -> Option<int>, c: Cookie)
    requires events != [] && Given(next, events[1..], date, c)
    requires c in next ==> SetBy(events[0], date, c) || (c in jar && !SetsKey(events[0], date, KeyOf(c)))
    ensures Given(jar, events, date, c)
  {
    hide SetBy, SetsKey;
    assert forall j :: 0 < j < |events| ==> events[j] == events[1..][j - 1];
    if i: nat :| LastSetBy(events[1..], date, c, i) {
      assert LastSetBy(events, date, c, i + 1);
    } else if SetBy(events[0], date, c) {
      assert LastSetBy(events, date, c, 0);
    }
  }

  /** Where every cookie of a run's jar is from. */
  lemma {:induction false} RunIsGiven(jar: seq<Cookie>, events: seq<Event>, date: string -> Option<int>, c: Cookie)
    requires ValidJar(jar) && c in After(jar, events, date)
    ensures Given(jar, events, date, c)
    decreases |events|
  {
    hide StoreCookie, ValidJar, Given, CookieOf;
    if events == [] {
      GivenAtStart(jar, date, c);
    } else {
      var made := Made(events[0], date);
      var next := if made.None? then jar else StoreCookie(jar, made.value, events[0].now);
      if made.Some? {
        OthersStay(jar, made.value, events[0].now);
      }
      RunIsGiven(next, events[1..], date, c);
      GivenLater(jar, next, events, date, c);
    }
  }

  lemma {:induction false} GivenAtStart(jar: seq<Cookie>, date: string -> Option<int>, c: Cookie)
    requires c in jar
    ensures Given(jar, [], date, c)
  {
  }

  /**
   * A cookie of `from` may go to `to`: to its own host, or within a domain both match, and over TLS when it is secure.
   */
  predicate Reaches(from: Address, to: Address, cookie: Cookie) {
    && (if cookie.hostOnly then to.host == from.host == cookie.domain
        else IsWide(cookie.domain) && DomainMatches(to.host, cookie.domain) && DomainMatches(from.host, cookie.domain))
    && (cookie.secure ==> to.https && from.https)
  }

  predicate GoesFrom(e: Event, to: Address, cookie: Cookie) {
    e.from.Some? && Reaches(e.from.value, to, cookie)
  }

  lemma {:induction false} SetByReaches(e: Event, date: string -> Option<int>, c: Cookie, to: Address, now: int)
    requires SetBy(e, date, c) && Goes(c, to, now)
    ensures GoesFrom(e, to, c)
  {
    AcceptedMaySet(e.header, e.from.value, e.now, date);
    hide CookieOf, PathMatches, DomainMatches, IsWide, Expired;
  }

  /**
   * Over any run from an empty jar, a cookie that goes to an address was set by the last header of its key, and goes to
   * the very host that sent that header, or within a dotted domain that both hosts match; a secure one was set over TLS
   * and goes over TLS.
   */
  lemma {:induction false} CookiesStayHome(events: seq<Event>, date: string -> Option<int>, to: Address, now: int,
    cookie: Cookie)
    requires cookie in CookiesFor(After([], events, date), Some(to), now)
    ensures exists i: nat :: i < |events| && LastSetBy(events, date, cookie, i) && GoesFrom(events[i], to, cookie)
  {
    assert ValidJar([]);
    hide CookieOf, After, ValidJar, Goes, SetBy, SetsKey, GoesFrom, CookiesFor, Filter, Sort;
    SendsExactly(After([], events, date), to, now);
    RunIsGiven([], events, date, cookie);
    var i: nat :| LastSetBy(events, date, cookie, i);
    SetByReaches(events[i], date, cookie, to, now);
  }

  // ---- A cookie goes back to the address that set it ----

  /** A request to the path that set a cookie without one of its own matches the path it was given. */
  lemma {:induction false} DefaultPathMatches(path: string)
    requires path != "" && path[0] == '/'
    ensures PathMatches(path, DefaultPath(path))
  {
    var end := LastIndexOf(path, '/');
    if end > 0 {
      assert path[..end + 1][end] == '/';
    } else {
      assert path[..1] == "/";
    }
  }

  /**
   * A header with no attributes: the cookie is the host's own, of the default path, for as long as the jar keeps it.
   */
  lemma {:induction false} PlainCookie(header: string, from: Address, now: int, date: string -> Option<int>)
    requires ';' !in header && CookieOf(header, Some(from), now, date).Some?
    ensures var c := CookieOf(header, Some(from), now, date).value;
            && c == FirstDraft(c.name, c.value, from, now).cookie
            && NameAndValue(header) == Some((c.name, c.value))
  {
    assert Split(header, ';') == [header];
    hide NameAndValue;
    assert [header][1..] == [];
  }

  predicate CreatedBy(jar: seq<Cookie>, now: int) {
    forall c :: c in jar ==> c.created <= now
  }

  lemma {:induction false} NewestStays(jar: seq<Cookie>, cookie: Cookie, now: int)
    requires ValidJar(jar) && CreatedBy(jar, cookie.created) && !Expired(cookie, now)
    ensures KeptAs(jar, cookie) in StoreCookie(jar, cookie, now)
  {
    var next := Added(jar, cookie);
    var at := PlaceOf(jar, cookie);
    AddedIsUpdate(jar, cookie);
    hide PlaceOf, Unique, AsMap, Sort;
    if |next| > MAX_COOKIES {
      assert at == -1 && next == jar + [cookie];
      NewestIsLast(jar, cookie);
      var sorted := Sort(EarlierCreated, next);
      assert sorted[1..][|jar| - 1] == cookie;
    } else if at == -1 {
      assert next[|jar|] == cookie;
    } else {
      assert next[at] == KeptAs(jar, cookie);
    }
  }

  lemma {:induction false} NewestIsLast(jar: seq<Cookie>, cookie: Cookie)
    requires CreatedBy(jar, cookie.created)
    ensures Sort(EarlierCreated, jar + [cookie]) == Sort(EarlierCreated, jar) + [cookie]
  {
    assert (jar + [cookie])[..|jar|] == jar;
    var sorted := Sort(EarlierCreated, jar);
    CreationOrder();
    SortWorks(EarlierCreated, jar);
    if sorted != [] {
      assert sorted[|sorted| - 1] in jar;
    }
  }

  /** Under a clock that does not go back, no cookie of a jar is newer than the clock shows. */
  lemma {:induction false} NoCookieFromTheFuture(jar: seq<Cookie>, events: seq<Event>, date: string -> Option<int>,
    now: int)
    requires CreatedBy(jar, now) && forall k :: 0 <= k < |events| ==> events[k].now <= now
    ensures CreatedBy(After(jar, events, date), now)
    decreases |events|
  {
    if events != [] {
      var e := events[0];
      var cookie := CookieOf(e.header, e.from, e.now, date);
      if cookie.Some? {
        AcceptedCreated(e.header, e.from, e.now, date);
        StoredCreated(jar, cookie.value, e.now, now);
        hide CookieOf, StoreCookie;
        NoCookieFromTheFuture(StoreCookie(jar, cookie.value, e.now), events[1..], date, now);
      } else {
        hide CookieOf, StoreCookie;
        NoCookieFromTheFuture(jar, events[1..], date, now);
      }
    }
  }

  lemma {:induction false} AttributesKeepCreated(draft: Draft, attributes: seq<string>, host: string,
    date: string -> Option<int>)
    ensures var next := TakeAttributes(draft, attributes, host, date);
            next.Some? ==> next.value.cookie.created == draft.cookie.created
    decreases |attributes|
  {
    if attributes != [] {
      var next := TakeAttribute(draft, attributes[0], host, date);
      assert next.Some? ==> next.value.cookie.created == draft.cookie.created by {
        hide IsWide, DomainMatches, Trim, Lower, WholeNumber, SameSiteOf, DomainText, IndexOf;
      }
      hide TakeAttribute;
      if next.Some? {
        AttributesKeepCreated(next.value, attributes[1..], host, date);
      }
    }
  }

  lemma {:induction false} AcceptedCreated(header: string, from: Option<Address>, now: int, date: string -> Option<int>)
    ensures var cookie := CookieOf(header, from, now, date);
            cookie.Some? ==> cookie.value.created == now
  {
    var pieces := Split(header, ';');
    var pair := NameAndValue(pieces[0]);
    if from.Some? && pair.Some? {
      var first := FirstDraft(pair.value.0, pair.value.1, from.value, now);
      AttributesKeepCreated(first, pieces[1..], from.value.host, date);
    }
    hide TakeAttributes, Split, NameAndValue;
  }

  lemma {:induction false} StoredCreated(jar: seq<Cookie>, cookie: Cookie, at: int, now: int)
    requires CreatedBy(jar, now) && cookie.created <= now
    ensures CreatedBy(StoreCookie(jar, cookie, at), now)
  {
    var next := Added(jar, cookie);
    assert forall c :: c in next ==> c in jar || c == KeptAs(jar, cookie);
    CreationOrder();
    SortWorks(EarlierCreated, next);
    hide Sort, PlaceOf;
  }

  /** Put in a jar that holds none newer, a cookie of a header with no attributes goes back to its address. */
  lemma {:induction false} NewestGoesBack(jar: seq<Cookie>, header: string, from: Address, readAt: int, putAt: int,
    later: int, date: string -> Option<int>)
    requires ValidJar(jar) && CreatedBy(jar, readAt) && from.path != "" && from.path[0] == '/'
    requires ';' !in header && CookieOf(header, Some(from), readAt, date).Some?
    ensures var cookie := CookieOf(header, Some(from), readAt, date).value;
            exists c :: c in CookiesFor(StoreCookie(jar, cookie, putAt), Some(from), later)
              && KeyOf(c) == KeyOf(cookie) && c.value == cookie.value
  {
    var cookie := CookieOf(header, Some(from), readAt, date).value;
    PlainCookie(header, from, readAt, date);
    DefaultPathMatches(from.path);
    hide CookieOf, ValidJar, DefaultPath, NameAndValue;
    NewestStays(jar, cookie, putAt);
    var kept := KeptAs(jar, cookie);
    assert Goes(kept, from, later);
    SendsExactly(StoreCookie(jar, cookie, putAt), from, later);
  }

  /**
   * In any run under a clock that does not go back, a cookie of a header with no attributes goes back, with its value,
   * to the address that set it, at any time: a full jar never lets go of it, and it does not expire.
   */
  lemma {:induction false} GoesBack(events: seq<Event>, header: string, from: Address, now: int, later: int,
    date: string -> Option<int>)
    requires forall k :: 0 <= k < |events| ==> events[k].now <= now
    requires from.path != "" && from.path[0] == '/'
    requires ';' !in header && CookieOf(header, Some(from), now, date).Some?
    ensures var cookie := CookieOf(header, Some(from), now, date).value;
            var sent := CookiesFor(StoreCookie(After([], events, date), cookie, now), Some(from), later);
            exists c :: c in sent && KeyOf(c) == KeyOf(cookie) && c.value == cookie.value
  {
    EveryJarIsValid([], events, date);
    NoCookieFromTheFuture([], events, date, now);
    hide CookieOf, After, ValidJar;
    NewestGoesBack(After([], events, date), header, from, now, now, later, date);
  }
}
