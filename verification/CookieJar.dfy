/**
 * The app's cookie jar: the list in the page, the cookies it keeps in memory only, and the store its writes go to, in
 * order.
 */
module CookieJar {
  import opened Basics
  import opened CookieLaws
  import opened CookieRules
  import opened Text

  /** The key a cookie is stored under. */
  function KeyText(c: Cookie): string {
    c.domain + "|" + c.path + "|" + c.name
  }

  type Table = map<string, Cookie>

  /** A write that was issued: records put and keys removed in one transaction, or everything removed. */
  datatype Write = Change(put: Option<(string, Cookie)>, remove: seq<string>) | Everything

  function Removed(table: Table, keys: seq<string>): (r: Table)
    ensures forall k :: k in r <==> k in table && k !in keys
    ensures forall k :: k in r ==> r[k] == table[k]
  {
    table - set k | k in keys
  }

  function Applied(table: Table, write: Write): Table {
    match write
    case Everything => map[]
    case Change(put, remove) => Removed(if put.Some? then table[put.value.0 := put.value.1] else table, remove)
  }

  function AllApplied(table: Table, writes: seq<Write>): Table
    decreases |writes|
  {
    if writes == [] then table else AllApplied(Applied(table, writes[0]), writes[1..])
  }

  /** The list in the page, the keys kept in memory only, the writes that have not landed, and the store. */
  datatype State = State(held: seq<Cookie>, unstored: set<string>, pending: seq<Write>, table: Table)

  function FindKey(jar: seq<Cookie>, key: string): (found: Option<Cookie>)
    ensures found.Some? ==> found.value in jar && KeyText(found.value) == key
    ensures found.None? ==> forall c :: c in jar ==> KeyText(c) != key
  {
    if jar == [] then None
    else if KeyText(jar[0]) == key then Some(jar[0])
    else FindKey(jar[1..], key)
  }

  /** The keys of the cookies of `before` that no cookie of `after` has. */
  function GoneKeys(before: seq<Cookie>, after: seq<Cookie>): (keys: seq<string>)
    ensures forall k :: k in keys <==> (exists c :: c in before && KeyText(c) == k) && FindKey(after, k).None?
  {
    if before == [] then []
    else
      var key := KeyText(before[0]);
      var rest := GoneKeys(before[1..], after);
      assert before == [before[0]] + before[1..];
      if FindKey(after, key).None? then [key] + rest else rest
  }

  /** The write that follows a put: the kept cookie unless it is memory-only, and every key that is gone. */
  function WriteOf(before: seq<Cookie>, after: seq<Cookie>, key: string, memoryOnly: bool): Write {
    var (kept, gone) := (FindKey(after, key), GoneKeys(before, after));
    if kept.None? then Change(None, gone)
    else if memoryOnly then Change(None, gone + [key])
    else Change(Some((key, kept.value)), gone)
  }

  /** The memory-only keys after a put. */
  function UnstoredAfter(unstored: set<string>, after: seq<Cookie>, key: string, memoryOnly: bool): set<string> {
    if FindKey(after, key).Some? && memoryOnly then unstored + {key} else unstored - {key}
  }

  function Put(s: State, cookie: Cookie, memoryOnly: bool, now: int): State {
    var (after, key) := (StoreCookie(s.held, cookie, now), KeyText(cookie));
    State(after, UnstoredAfter(s.unstored, after, key, memoryOnly),
      s.pending + [WriteOf(s.held, after, key, memoryOnly)], s.table)
  }

  /** A `Set-Cookie` header, whether it repeats a secret, and what the clock shows as it is read and as it is put. */
  datatype Header = Header(text: string, readAt: int, putAt: int, secret: bool)

  class Jar {
    var held: seq<Cookie>
    var unstored: set<string>
    var pending: seq<Write>
    var table: Table

    function Now(): State
      reads this
    {
      State(held, unstored, pending, table)
    }

    /** A page that starts reads what is stored. */
    constructor (stored: seq<Cookie>, table: Table)
      ensures Now() == State(stored, {}, [], table)
    {
      held := stored;
      unstored := {};
      pending := [];
      this.table := table;
    }

    method PutCookie(cookie: Cookie, memoryOnly: bool, now: int)
      modifies this
      ensures Now() == Put(old(Now()), cookie, memoryOnly, now)
    {
      var before := held;
      held := StoreCookie(before, cookie, now);
      var key := KeyText(cookie);
      var kept := FindKey(held, key);
      if kept.Some? && memoryOnly {
        unstored := unstored + {key};
      } else {
        unstored := unstored - {key};
      }
      var gone := GoneKeys(before, held);
      pending := pending + [Change(if kept.Some? && !memoryOnly then Some((key, kept.value)) else None,
                                   if kept.Some? && memoryOnly then gone + [key] else gone)];
    }

    /** What a response of an address set, header by header. */
    method Store(from: Option<Address>, headers: seq<Header>, date: string -> Option<int>)
      modifies this
      ensures Now() == StoredAll(old(Now()), from, headers, date)
    {
      assert headers[0..] == headers;
      for i := 0 to |headers|
        invariant StoredAll(Now(), from, headers[i..], date) == StoredAll(old(Now()), from, headers, date)
      {
        var header := headers[i];
        assert headers[i..][1..] == headers[i + 1..];
        var cookie := ParseSetCookie(header.text, from, header.readAt, date);
        if cookie.Some? {
          PutCookie(cookie.value, header.secret, header.putAt);
        }
      }
      assert headers[|headers|..] == [];
    }

    method SetValue(cookie: Cookie, value: string, now: int)
      modifies this
      ensures Now() == Next(old(Now()), Edited(cookie, value, now))
    {
      PutCookie(cookie.(value := Trim(value)), KeyText(cookie) in unstored, now);
    }

    method Remove(cookie: Cookie, now: int)
      modifies this
      ensures Now() == Next(old(Now()), Dropped(cookie, now))
    {
      PutCookie(cookie.(expires := Some(0)), false, now);
    }

    method Clear()
      modifies this
      ensures Now() == Next(old(Now()), Cleared)
    {
      unstored := {};
      held := [];
      pending := pending + [Everything];
    }
  }

  function StoredOne(s: State, from: Option<Address>, header: Header, date: string -> Option<int>): State {
    match CookieOf(header.text, from, header.readAt, date)
    case None => s
    case Some(cookie) => Put(s, cookie, header.secret, header.putAt)
  }

  function StoredAll(s: State, from: Option<Address>, headers: seq<Header>, date: string -> Option<int>): State
    decreases |headers|
  {
    if headers == [] then s else StoredAll(StoredOne(s, from, headers[0], date), from, headers[1..], date)
  }

  // ---- Runs ----

  /**
   * A step of the page: a cookie a response set, with what was accepted of it; one edited or removed; a clear; a write.
   */
  datatype Event =
    | Accepted(cookie: Cookie, secret: bool, now: int)
    | Edited(cookie: Cookie, value: string, now: int)
    | Dropped(cookie: Cookie, now: int)
    | Cleared
    | Landed

  function Next(s: State, e: Event): State {
    match e
    case Accepted(cookie, secret, now) => Put(s, cookie, secret, now)
    case Edited(cookie, value, now) => Put(s, cookie.(value := Trim(value)), KeyText(cookie) in s.unstored, now)
    case Dropped(cookie, now) => Put(s, cookie.(expires := Some(0)), false, now)
    case Cleared => State([], {}, s.pending + [Everything], s.table)
    case Landed => if s.pending == [] then s else s.(table := Applied(s.table, s.pending[0]), pending := s.pending[1..])
  }

  function Run(s: State, events: seq<Event>): State
    decreases |events|
  {
    if events == [] then s else Run(Next(s, events[0]), events[1..])
  }

  // ---- The key ----

  /** A host never holds "|"; a path may. */
  predicate Clean(c: Cookie) {
    '|' !in c.domain && '|' !in c.path
  }

  /** Where no path holds "|", the key is the name, the domain and the path. */
  lemma {:induction false} KeyIsInjective(a: Cookie, b: Cookie)
    requires Clean(a) && Clean(b)
    ensures KeyText(a) == KeyText(b) <==> KeyOf(a) == KeyOf(b)
  {
    if KeyText(a) == KeyText(b) {
      assert KeyText(a) == a.domain + "|" + (a.path + "|" + a.name);
      assert KeyText(b) == b.domain + "|" + (b.path + "|" + b.name);
      hide KeyText, Clean;
      FirstPipe(a.domain, a.path + "|" + a.name, b.domain, b.path + "|" + b.name);
      FirstPipe(a.path, a.name, b.path, b.name);
    }
  }

  lemma {:induction false} FirstPipe(before: string, after: string, before': string, after': string)
    requires '|' !in before && '|' !in before'
    requires before + "|" + after == before' + "|" + after'
    ensures before == before' && after == after'
  {
    var s := before + "|" + after;
    FirstIndex(before, '|', after);
    FirstIndex(before', '|', after');
    hide IndexOf;
    assert s[..|before|] == before && s[..|before|] == before';
    assert s[|before| + 1..] == after && s[|before| + 1..] == after';
  }

  /** Where a path holds one, another cookie has the same key. */
  lemma {:induction false} PipeCollides(c: Cookie, before: string, after: string)
    requires c.path == before + "|" + after
    ensures var other := c.(path := before, name := after + "|" + c.name);
            KeyOf(other) != KeyOf(c) && KeyText(other) == KeyText(c)
  {
    assert (before + "|" + after) + "|" + c.name == before + "|" + (after + "|" + c.name);
    assert c.domain + "|" + ((before + "|" + after) + "|" + c.name)
      == c.domain + "|" + (before + "|" + after) + "|" + c.name;
    assert c.domain + "|" + (before + "|" + (after + "|" + c.name))
      == c.domain + "|" + before + "|" + (after + "|" + c.name);
  }

  // ---- The page and the store agree ----

  /** The table has exactly the held cookies whose key is not kept in memory only. */
  predicate Agrees(table: Table, held: seq<Cookie>, unstored: set<string>) {
    && (forall c :: c in held && KeyText(c) !in unstored ==> KeyText(c) in table && table[KeyText(c)] == c)
    && (forall k :: k in table ==> k !in unstored && FindKey(held, k).Some?)
  }

  /** Once the writes that were issued have landed, the store agrees with the page. */
  predicate InStep(s: State) {
    Agrees(AllApplied(s.table, s.pending), s.held, s.unstored)
  }

  /** No two cookies of the page that are both to be stored have one key. */
  predicate NoTwins(held: seq<Cookie>, unstored: set<string>) {
    forall c, d :: c in held && d in held && KeyText(c) == KeyText(d) && KeyText(c) !in unstored ==> c == d
  }

  predicate AllClean(jar: seq<Cookie>) {
    forall c :: c in jar ==> Clean(c)
  }

  predicate CleanEvent(e: Event) {
    match e
    case Accepted(cookie, _, _) => Clean(cookie)
    case Edited(cookie, _, _) => Clean(cookie)
    case Dropped(cookie, _) => Clean(cookie)
    case _ => true
  }

  lemma {:induction false} AppliedLast(table: Table, writes: seq<Write>, write: Write)
    ensures AllApplied(table, writes + [write]) == Applied(AllApplied(table, writes), write)
    decreases |writes|
  {
    hide Applied;
    if writes == [] {
      assert (writes + [write])[1..] == [] && (writes + [write])[0] == write;
    } else {
      assert (writes + [write])[1..] == writes[1..] + [write];
      AppliedLast(Applied(table, writes[0]), writes[1..], write);
    }
  }

  /** The write a put issues makes a table that agreed agree again, unless the put leaves two cookies of one key. */
  lemma {:induction false} WriteAgrees(s: State, table: Table, cookie: Cookie, memoryOnly: bool, now: int)
    requires ValidJar(s.held) && Agrees(table, s.held, s.unstored)
    requires var next := Put(s, cookie, memoryOnly, now); NoTwins(next.held, next.unstored)
    ensures var next := Put(s, cookie, memoryOnly, now);
            Agrees(Applied(table, next.pending[|s.pending|]), next.held, next.unstored)
  {
    var next := Put(s, cookie, memoryOnly, now);
    OthersStay(s.held, cookie, now);
    assert forall c :: c in next.held && KeyText(c) != KeyText(cookie) ==> c in s.held;
    hide StoreCookie, ValidJar, KeyOf, KeptAs, KeyText, Agrees, Applied, WriteOf;
    assert PutFits(s.held, next.held, KeyText(cookie), memoryOnly);
    TableAgrees(s.held, s.unstored, table, next.held, KeyText(cookie), memoryOnly);
  }

  /** The cookies of another key are as they were, and those of the key are one, or not to be stored. */
  predicate PutFits(before: seq<Cookie>, after: seq<Cookie>, key: string, memoryOnly: bool) {
    && (forall c :: c in after && KeyText(c) != key ==> c in before)
    && (memoryOnly || forall c, d :: c in after && d in after && KeyText(c) == key && KeyText(d) == key ==> c == d)
  }

  lemma {:induction false} HeldIsWritten(before: seq<Cookie>, unstored: set<string>, table: Table, after: seq<Cookie>,
    key: string, memoryOnly: bool, c: Cookie)
    requires Agrees(table, before, unstored) && PutFits(before, after, key, memoryOnly)
    requires c in after && KeyText(c) !in UnstoredAfter(unstored, after, key, memoryOnly)
    ensures var written := Applied(table, WriteOf(before, after, key, memoryOnly));
            KeyText(c) in written && written[KeyText(c)] == c
  {
    hide KeyText, GoneKeys;
    assert FindKey(after, KeyText(c)).Some?;
    assert KeyText(c) !in GoneKeys(before, after);
    hide FindKey;
  }

  lemma {:induction false} WrittenIsHeld(before: seq<Cookie>, unstored: set<string>, table: Table, after: seq<Cookie>,
    key: string, memoryOnly: bool, k: string)
    requires Agrees(table, before, unstored) && k in Applied(table, WriteOf(before, after, key, memoryOnly))
    ensures k !in UnstoredAfter(unstored, after, key, memoryOnly) && FindKey(after, k).Some?
  {
    hide KeyText, FindKey, GoneKeys;
    if k != key {
      var c := FindKey(before, k).value;
      assert c in before && KeyText(c) == k;
    }
  }

  /** The same, of the lists alone. */
  lemma {:induction false} TableAgrees(before: seq<Cookie>, unstored: set<string>, table: Table, after: seq<Cookie>,
    key: string, memoryOnly: bool)
    requires Agrees(table, before, unstored) && PutFits(before, after, key, memoryOnly)
    ensures Agrees(Applied(table, WriteOf(before, after, key, memoryOnly)), after,
              UnstoredAfter(unstored, after, key, memoryOnly))
  {
    var written := Applied(table, WriteOf(before, after, key, memoryOnly));
    var now := UnstoredAfter(unstored, after, key, memoryOnly);
    hide KeyText, Applied, WriteOf, UnstoredAfter, FindKey, PutFits;
    forall c | c in after && KeyText(c) !in now ensures KeyText(c) in written && written[KeyText(c)] == c {
      HeldIsWritten(before, unstored, table, after, key, memoryOnly, c);
    }
    forall k | k in written ensures k !in now && FindKey(after, k).Some? {
      WrittenIsHeld(before, unstored, table, after, key, memoryOnly, k);
    }
  }

  lemma {:induction false} PutIsInStep(s: State, cookie: Cookie, memoryOnly: bool, now: int)
    requires ValidJar(s.held) && InStep(s)
    requires var next := Put(s, cookie, memoryOnly, now); NoTwins(next.held, next.unstored)
    ensures InStep(Put(s, cookie, memoryOnly, now))
  {
    hide AllApplied, Agrees, Applied, ValidJar, KeyText, StoreCookie, NoTwins;
    var next := Put(s, cookie, memoryOnly, now);
    WriteAgrees(s, AllApplied(s.table, s.pending), cookie, memoryOnly, now);
    AppliedLast(s.table, s.pending, next.pending[|s.pending|]);
    assert next.pending == s.pending + [next.pending[|s.pending|]];
  }

  lemma {:induction false} StepIsValid(s: State, e: Event)
    requires ValidJar(s.held)
    ensures ValidJar(Next(s, e).held)
  {
    assert ValidJar([]);
    hide StoreCookie, ValidJar;
    match e
    case Accepted(cookie, _, now) => OthersStay(s.held, cookie, now);
    case Edited(cookie, value, now) => OthersStay(s.held, cookie.(value := Trim(value)), now);
    case Dropped(cookie, now) => OthersStay(s.held, cookie.(expires := Some(0)), now);
    case _ =>
  }

  /**
   * Where page and store agree, a step keeps them in agreement exactly when it leaves no two cookies of one key to be
   * stored.
   */
  lemma {:induction false} StepKeeps(s: State, e: Event)
    requires ValidJar(s.held) && InStep(s)
    ensures InStep(Next(s, e)) <==> NoTwins(Next(s, e).held, Next(s, e).unstored)
  {
    var next := Next(s, e);
    if NoTwins(next.held, next.unstored) {
      match e {
        case Accepted(cookie, secret, now) => PutIsInStep(s, cookie, secret, now);
        case Edited(cookie, value, now) =>
          PutIsInStep(s, cookie.(value := Trim(value)), KeyText(cookie) in s.unstored, now);
        case Dropped(cookie, now) => PutIsInStep(s, cookie.(expires := Some(0)), false, now);
        case Cleared => AppliedLast(s.table, s.pending, Everything);
        case Landed =>
      }
    }
    hide Put, AllApplied, KeyText;
  }

  // ---- Landing ----

  function Landings(n: nat): seq<Event> {
    if n == 0 then [] else [Landed] + Landings(n - 1)
  }

  /**
   * As many landings as there are writes apply them all, in the order they were issued, and change nothing in the page.
   */
  lemma {:induction false} AllLand(s: State)
    ensures Run(s, Landings(|s.pending|)) == s.(table := AllApplied(s.table, s.pending), pending := [])
    decreases |s.pending|
  {
    var events := Landings(|s.pending|);
    hide Applied;
    if s.pending != [] {
      var next := Next(s, Landed);
      assert events[0] == Landed && events[1..] == Landings(|next.pending|);
      AllLand(next);
      assert AllApplied(s.table, s.pending) == AllApplied(next.table, next.pending);
    }
  }

  /** Where page and store agree, the store has exactly what the page is to store once its writes have landed. */
  lemma {:induction false} LandedAgrees(s: State)
    requires InStep(s)
    ensures var settled := Run(s, Landings(|s.pending|));
            && settled.pending == [] && settled.held == s.held && settled.unstored == s.unstored
            && Agrees(settled.table, s.held, s.unstored)
  {
    AllLand(s);
    hide Run, AllApplied, Agrees;
  }

  // ---- Every run ----

  lemma {:induction false} RunLast(s: State, events: seq<Event>, e: Event)
    ensures Run(s, events + [e]) == Next(Run(s, events), e)
    decreases |events|
  {
    hide Next;
    if events == [] {
      assert ([] + [e])[1..] == [] && ([] + [e])[0] == e;
    } else {
      assert (events + [e])[1..] == events[1..] + [e];
      RunLast(Next(s, events[0]), events[1..], e);
    }
  }

  /** The state after the first steps. */
  function At(s: State, events: seq<Event>, n: nat): State
    requires n <= |events|
  {
    Run(s, events[..n])
  }

  lemma {:induction false} AtStart(s: State, events: seq<Event>)
    ensures At(s, events, 0) == s
  {
    assert events[..0] == [];
  }

  lemma {:induction false} AtNext(s: State, events: seq<Event>, n: nat)
    requires n < |events|
    ensures At(s, events, n + 1) == Next(At(s, events, n), events[n])
  {
    hide Next, Run;
    assert events[..n + 1] == events[..n] + [events[n]];
    RunLast(s, events[..n], events[n]);
  }

  /** No state up to the n-th has two cookies to be stored under one key. */
  predicate NeverTwins(s: State, events: seq<Event>, n: nat)
    requires n <= |events|
  {
    forall m :: 0 <= m <= n ==> NoTwins(At(s, events, m).held, At(s, events, m).unstored)
  }

  lemma {:induction false} NeverBefore(s: State, events: seq<Event>, n: nat)
    requires 0 < n <= |events| && NeverTwins(s, events, n)
    ensures NeverTwins(s, events, n - 1) && NoTwins(At(s, events, n).held, At(s, events, n).unstored)
  {
    hide At, NoTwins;
  }

  lemma {:induction false} RunIsInStep(s: State, events: seq<Event>, n: nat)
    requires n <= |events| && ValidJar(s.held) && InStep(s) && NeverTwins(s, events, n)
    ensures ValidJar(At(s, events, n).held) && InStep(At(s, events, n))
    decreases n
  {
    hide At, InStep, NoTwins, ValidJar, NeverTwins, Next;
    if n == 0 {
      AtStart(s, events);
    } else {
      NeverBefore(s, events, n);
      RunIsInStep(s, events, n - 1);
      AtNext(s, events, n - 1);
      StepIsValid(At(s, events, n - 1), events[n - 1]);
      StepKeeps(At(s, events, n - 1), events[n - 1]);
    }
  }

  lemma {:induction false} InStepHasNoTwins(s: State)
    requires InStep(s)
    ensures NoTwins(s.held, s.unstored)
  {
    hide AllApplied, KeyText;
  }

  /**
   * From a page whose start-up read is done, over any run: page and store agree after every step, through replacement,
   * expiry, eviction, a switch to memory-only and clear, exactly when no two cookies that are to be stored ever had one
   * key.
   */
  lemma {:induction false} StoreAgrees(stored: seq<Cookie>, table: Table, events: seq<Event>)
    requires ValidJar(stored) && Agrees(table, stored, {})
    ensures var start := State(stored, {}, [], table);
            (forall n :: 0 <= n <= |events| ==> InStep(At(start, events, n)))
            <==> forall n :: 0 <= n <= |events| ==> NoTwins(At(start, events, n).held, At(start, events, n).unstored)
  {
    var start := State(stored, {}, [], table);
    assert InStep(start);
    hide At, InStep, NoTwins, ValidJar, Agrees;
    if forall n :: 0 <= n <= |events| ==> NoTwins(At(start, events, n).held, At(start, events, n).unstored) {
      forall n | 0 <= n <= |events| ensures InStep(At(start, events, n)) {
        assert NeverTwins(start, events, n);
        RunIsInStep(start, events, n);
      }
    }
    if forall n :: 0 <= n <= |events| ==> InStep(At(start, events, n)) {
      forall n | 0 <= n <= |events| ensures NoTwins(At(start, events, n).held, At(start, events, n).unstored) {
        InStepHasNoTwins(At(start, events, n));
      }
    }
  }

  lemma {:induction false} CleanHasNoTwins(jar: seq<Cookie>, unstored: set<string>)
    requires ValidJar(jar) && AllClean(jar)
    ensures NoTwins(jar, unstored)
  {
    MapHolds(jar);
    hide KeyText, KeyOf, Clean, ValidJar, AsMap;
    forall c, d | c in jar && d in jar && KeyText(c) == KeyText(d) ensures c == d {
      KeyIsInjective(c, d);
      assert AsMap(jar)[KeyOf(c)] == c && AsMap(jar)[KeyOf(d)] == d;
    }
  }

  lemma {:induction false} StepIsClean(s: State, e: Event)
    requires ValidJar(s.held) && AllClean(s.held) && CleanEvent(e)
    ensures AllClean(Next(s, e).held)
  {
    hide StoreCookie, ValidJar, KeyText;
    match e
    case Accepted(cookie, _, now) => PutIsClean(s, cookie, now);
    case Edited(cookie, value, now) => PutIsClean(s, cookie.(value := Trim(value)), now);
    case Dropped(cookie, now) => PutIsClean(s, cookie.(expires := Some(0)), now);
    case _ =>
  }

  lemma {:induction false} PutIsClean(s: State, cookie: Cookie, now: int)
    requires ValidJar(s.held) && AllClean(s.held) && Clean(cookie)
    ensures AllClean(StoreCookie(s.held, cookie, now))
  {
    OthersStay(s.held, cookie, now);
    hide StoreCookie, ValidJar;
  }

  predicate CleanEvents(events: seq<Event>) {
    forall k :: 0 <= k < |events| ==> CleanEvent(events[k])
  }

  lemma {:induction false} RunIsClean(s: State, events: seq<Event>, n: nat)
    requires n <= |events| && ValidJar(s.held) && AllClean(s.held) && CleanEvents(events)
    ensures ValidJar(At(s, events, n).held) && AllClean(At(s, events, n).held)
    decreases n
  {
    assert n > 0 ==> CleanEvent(events[n - 1]);
    hide At, AllClean, CleanEvent, CleanEvents, ValidJar, Next;
    if n == 0 {
      AtStart(s, events);
    } else {
      RunIsClean(s, events, n - 1);
      AtNext(s, events, n - 1);
      StepIsValid(At(s, events, n - 1), events[n - 1]);
      StepIsClean(At(s, events, n - 1), events[n - 1]);
    }
  }

  /** Where no path holds "|" page and store agree after every step, and the store alone once its writes have landed. */
  lemma {:induction false} CleanStoreAgrees(stored: seq<Cookie>, table: Table, events: seq<Event>, n: nat)
    requires n <= |events| && ValidJar(stored) && AllClean(stored) && Agrees(table, stored, {}) && CleanEvents(events)
    ensures var s := At(State(stored, {}, [], table), events, n);
            InStep(s) && (s.pending == [] ==> Agrees(s.table, s.held, s.unstored))
  {
    var start := State(stored, {}, [], table);
    assert InStep(start);
    hide At, Agrees, NoTwins, AllClean, CleanEvent, CleanEvents, ValidJar;
    forall m | 0 <= m <= n ensures NoTwins(At(start, events, m).held, At(start, events, m).unstored) {
      RunIsClean(start, events, m);
      CleanHasNoTwins(At(start, events, m).held, At(start, events, m).unstored);
    }
    RunIsInStep(start, events, n);
  }

  /** What a response sets is a step of such a run. */
  lemma {:induction false} StoredIsStep(s: State, from: Option<Address>, header: Header, date: string -> Option<int>)
    ensures var cookie := CookieOf(header.text, from, header.readAt, date);
            StoredOne(s, from, header, date)
            == if cookie.Some? then Next(s, Accepted(cookie.value, header.secret, header.putAt)) else s
  {
    hide CookieOf, Put;
  }

  // ---- Two cookies of one key ----

  /** These three survive being written as a header and parsed: trimmed, without separators and control characters. */
  predicate Sets(name: string, value: string, path: string) {
    && name != "" && Trimmed(name) && '=' !in name && !StartsWith(name, "__") && Trimmed(value)
    && |Utf8.Encode(name + value)| <= MAX_COOKIE_BYTES
    && StartsWith(path, "/") && Trimmed(path)
    && (forall c :: c in name || c in value ==> !IsControl(c) && c != ';')
    && ';' !in path
  }

  lemma {:induction false} PairIsRead(name: string, value: string)
    requires Sets(name, value, "/")
    ensures NameAndValue(name + "=" + value) == Some((name, value))
  {
    var pair := name + "=" + value;
    FirstIndex(name, '=', value);
    assert pair[..|name|] == name && pair[|name| + 1..] == value;
    TrimIsTrimmed(name);
    TrimIsTrimmed(value);
    assert forall i :: 0 <= i < |pair| ==> pair[i] in name || pair[i] in value || pair[i] == '=';
    hide IndexOf, Trim, Trimmed, Utf8.Encode;
  }

  lemma {:induction false} PathIsTaken(draft: Draft, path: string, host: string, date: string -> Option<int>)
    requires StartsWith(path, "/") && Trimmed(path)
    ensures TakeAttribute(draft, " Path=" + path, host, date) == Some(draft.(cookie := draft.cookie.(path := path)))
  {
    PathKey();
    TrimIsTrimmed(path);
    hide IndexOf, Trim, Trimmed, Lower, SameSiteOf, WholeNumber, DomainMatches, IsWide, DomainText;
    AttributeCut(path);
  }

  lemma {:induction false} AttributeCut(path: string)
    ensures var (attribute, key) := (" Path=" + path, " Path");
            IndexOf(attribute, '=') == 5 && attribute[..5] == key && attribute[6..] == path
  {
    var attribute := " Path=" + path;
    assert attribute == " Path" + ['='] + path;
    FirstIndex(" Path", '=', path);
    hide IndexOf;
  }

  lemma {:induction false} PathKey()
    ensures Lower(Trim(" Path")) == "path"
  {
    assert TrimStart(" Path") == "Path" by {
      assert " Path"[1..] == "Path";
    }
    assert Trim(" Path") == "Path" && Lower("Path") == "path";
  }

  /** A response can set any cookie at any path. */
  lemma {:induction false} PathCookie(name: string, value: string, path: string, from: Address, now: int,
    date: string -> Option<int>)
    requires Sets(name, value, path)
    ensures CookieOf(name + "=" + value + "; Path=" + path, Some(from), now, date)
         == Some(FirstDraft(name, value, from, now).cookie.(path := path))
  {
    var (pair, attribute, draft) := (name + "=" + value, " Path=" + path, FirstDraft(name, value, from, now));
    assert StartsWith(path, "/") && Trimmed(path) && !StartsWith(name, "__") && ';' !in path && ';' !in pair;
    PairIsRead(name, value);
    hide Sets, NameAndValue, TakeAttribute, Split, Trimmed, StartsWith;
    PathIsTaken(draft, path, from.host, date);
    PiecesAre(pair, path);
    NotPrefixed(name);
    assert [pair, attribute][1..] == [attribute];
    OneAttribute(draft, attribute, from.host, date);
    hide TakeAttributes;
  }

  lemma {:induction false} OneAttribute(draft: Draft, attribute: string, host: string, date: string -> Option<int>)
    ensures TakeAttributes(draft, [attribute], host, date) == TakeAttribute(draft, attribute, host, date)
  {
    hide TakeAttribute;
    assert [attribute][1..] == [];
  }

  lemma {:induction false} PiecesAre(pair: string, path: string)
    requires ';' !in pair && ';' !in path
    ensures Split(pair + "; Path=" + path, ';') == [pair, " Path=" + path]
  {
    var (header, attribute) := (pair + "; Path=" + path, " Path=" + path);
    assert "; Path=" == [';'] + " Path=";
    assert header == pair + [';'] + attribute;
    FirstIndex(pair, ';', attribute);
    assert header[..|pair|] == pair && header[|pair| + 1..] == attribute;
    assert ';' !in attribute;
  }

  lemma {:induction false} NotPrefixed(name: string)
    requires !StartsWith(name, "__")
    ensures !StartsWith(name, "__Secure-") && !StartsWith(name, "__Host-")
  {
    assert "__Secure-"[..2] == "__" && "__Host-"[..2] == "__";
    assert forall n :: 2 <= n <= |name| ==> name[..n][..2] == name[..2];
  }

  const HOST: Address := Address(true, "h", "/")
  const FIRST: Cookie := Cookie("c", "1", "h", true, "/a|b", false, false, None, None, 0)
  const SECOND: Cookie := Cookie("b|c", "2", "h", true, "/a", false, false, None, None, 0)

  lemma {:induction false} PipesAreSet(date: string -> Option<int>)
    ensures CookieOf("c=1; Path=/a|b", Some(HOST), 0, date) == Some(FIRST)
    ensures CookieOf("b|c=2; Path=/a", Some(HOST), 0, date) == Some(SECOND)
  {
    SmallPairs();
    hide CookieOf, Sets;
    PathCookie("c", "1", "/a|b", HOST, 0, date);
    PathCookie("b|c", "2", "/a", HOST, 0, date);
    assert "c" + "=" + "1" + "; Path=" + "/a|b" == "c=1; Path=/a|b";
    assert "b|c" + "=" + "2" + "; Path=" + "/a" == "b|c=2; Path=/a";
    assert DefaultPath("/") == "/";
  }

  lemma {:induction false} SmallPairs()
    ensures Sets("c", "1", "/a|b") && Sets("b|c", "2", "/a")
  {
    EncodedSize("c" + "1");
    EncodedSize("b|c" + "2");
    hide Utf8.Encode;
  }

  lemma {:induction false} EncodedSize(text: string)
    ensures |Utf8.Encode(text)| <= 4 * |text|
  {
    hide Utf8.EncodeChar;
    if text != "" {
      EncodedSize(text[1..]);
    }
  }

  /** Two headers of one response give two cookies of one key: the page holds both, and the second is not stored. */
  lemma {:induction false} PipeLosesCookie(date: string -> Option<int>)
    ensures var start := State([], {}, [], map[]);
            var headers := [Header("c=1; Path=/a|b", 0, 0, false), Header("b|c=2; Path=/a", 0, 0, false)];
            var s := StoredAll(start, Some(HOST), headers, date);
            s.held == [FIRST, SECOND] && !NoTwins(s.held, s.unstored) && !InStep(s)
  {
    var start := State([], {}, [], map[]);
    var headers := [Header("c=1; Path=/a|b", 0, 0, false), Header("b|c=2; Path=/a", 0, 0, false)];
    PipesAreSet(date);
    var (one, two) := (Put(start, FIRST, false, 0), Put(Put(start, FIRST, false, 0), SECOND, false, 0));
    assert StoredAll(start, Some(HOST), headers, date) == two by {
      hide CookieOf, Put;
      assert headers[1..] == [headers[1]] && headers[1..][1..] == [];
    }
    hide CookieOf;
    BothAreHeld();
    assert KeyText(FIRST) == "h|/a|b|c" && KeyText(SECOND) == "h|/a|b|c" && FIRST.path != SECOND.path;
    hide StoreCookie;
    assert one.held == [FIRST] && two.held == [FIRST, SECOND] && two.unstored == {};
    assert FIRST in two.held && SECOND in two.held;
    InStepHasNoTwinsOr(two);
  }

  lemma {:induction false} InStepHasNoTwinsOr(s: State)
    ensures InStep(s) ==> NoTwins(s.held, s.unstored)
  {
    if InStep(s) {
      InStepHasNoTwins(s);
    }
  }

  lemma {:induction false} BothAreHeld()
    ensures StoreCookie([], FIRST, 0) == [FIRST] && StoreCookie([FIRST], SECOND, 0) == [FIRST, SECOND]
  {
    assert [FIRST][1..] == [];
  }
}
