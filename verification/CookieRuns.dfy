/** The cookies of a page over its whole life: what it starts with, what responses set, and what its user changes. */
module CookieRuns {
  import opened Basics
  import opened CookieJar
  import opened CookieLaws
  import opened CookieRules

  /** A header that is read, a value that is edited, a cookie that is removed, a clear, or a write that lands. */
  datatype Step =
    | Respond(from: Option<Address>, header: Header)
    | SetValue(cookie: Cookie, value: string, now: int)
    | Remove(cookie: Cookie, now: int)
    | Clear
    | Land

  function Stepped(s: State, step: Step, date: string -> Option<int>): State {
    match step
    case Respond(from, header) => StoredOne(s, from, header, date)
    case SetValue(cookie, value, now) => Next(s, Edited(cookie, value, now))
    case Remove(cookie, now) => Next(s, Dropped(cookie, now))
    case Clear => Next(s, Cleared)
    case Land => Next(s, Landed)
  }

  /** The page after the first steps. */
  function PageAt(start: State, steps: seq<Step>, n: nat, date: string -> Option<int>): State
    requires n <= |steps|
  {
    if n == 0 then start else Stepped(PageAt(start, steps, n - 1, date), steps[n - 1], date)
  }

  /** What the user edits or removes was listed by the page, now or before. */
  ghost predicate Listed(start: State, steps: seq<Step>, n: nat, date: string -> Option<int>, cookie: Cookie)
    requires n <= |steps|
  {
    exists m: nat :: m <= n && cookie in PageAt(start, steps, m, date).held
  }

  ghost predicate FromList(start: State, steps: seq<Step>, date: string -> Option<int>) {
    forall k: nat :: k < |steps| && (steps[k].SetValue? || steps[k].Remove?) ==>
      Listed(start, steps, k, date, steps[k].cookie)
  }

  // ---- What one step puts in the list ----

  /** What the step puts, if it puts anything. */
  function PutBy(step: Step, date: string -> Option<int>): Option<Cookie> {
    match step
    case Respond(from, header) => CookieOf(header.text, from, header.readAt, date)
    case SetValue(cookie, value, _) => Some(cookie.(value := Text.Trim(value)))
    case Remove(cookie, _) => Some(cookie.(expires := Some(0)))
    case _ => None
  }

  /** After a step the page holds what it held, and nothing more than what the step puts. */
  lemma {:induction false} HeldAfter(s: State, step: Step, date: string -> Option<int>)
    ensures forall c :: c in Stepped(s, step, date).held ==>
      c in s.held || (PutBy(step, date).Some? && c == KeptAs(s.held, PutBy(step, date).value))
  {
    hide StoreCookie, KeptAs, CookieOf;
    match step
    case Respond(from, header) =>
      var cookie := CookieOf(header.text, from, header.readAt, date);
      if cookie.Some? {
        StoredAreKept(s.held, cookie.value, header.putAt);
      }
    case SetValue(cookie, value, now) => StoredAreKept(s.held, cookie.(value := Text.Trim(value)), now);
    case Remove(cookie, now) => StoredAreKept(s.held, cookie.(expires := Some(0)), now);
    case _ =>
  }

  // ---- Where a cookie of the page is from ----

  /** The two differ in what an edit, a removal or a later header of the key changes alone. */
  predicate Kin(a: Cookie, b: Cookie) {
    a == b.(value := a.value, created := a.created, expires := a.expires)
  }

  /** The cookie is kin to what the page made of the step's header. */
  predicate SetByHeader(step: Step, date: string -> Option<int>, c: Cookie) {
    step.Respond? && PutBy(step, date).Some? && Kin(c, PutBy(step, date).value)
  }

  ghost predicate FromStart(start: State, c: Cookie) {
    exists first :: first in start.held && Kin(c, first)
  }

  ghost predicate FromHeader(steps: seq<Step>, n: nat, date: string -> Option<int>, c: Cookie)
    requires n <= |steps|
  {
    exists i: nat :: i < n && SetByHeader(steps[i], date, c)
  }

  lemma {:induction false} KinIsFrom(start: State, steps: seq<Step>, m: nat, n: nat, date: string -> Option<int>,
    c: Cookie, b: Cookie)
    requires m <= n <= |steps| && Kin(c, b) && (FromHeader(steps, m, date, b) || FromStart(start, b))
    ensures FromHeader(steps, n, date, c) || FromStart(start, c)
  {
    if FromHeader(steps, m, date, b) {
      var i: nat :| i < m && SetByHeader(steps[i], date, b);
      assert SetByHeader(steps[i], date, c);
    } else {
      var first :| first in start.held && Kin(b, first);
      assert Kin(c, first);
    }
  }

  /** Every cookie of the page is from a header that was read, or was there at the start. */
  lemma {:induction false} HeldIsFrom(start: State, steps: seq<Step>, n: nat, date: string -> Option<int>, c: Cookie)
    requires n <= |steps| && FromList(start, steps, date) && c in PageAt(start, steps, n, date).held
    ensures FromHeader(steps, n, date, c) || FromStart(start, c)
    decreases n
  {
    if n == 0 {
      assert Kin(c, c);
    } else {
      var (before, step) := (PageAt(start, steps, n - 1, date), steps[n - 1]);
      hide FromHeader, FromStart, Stepped, Kin;
      HeldAfter(before, step, date);
      if c in before.held {
        HeldIsFrom(start, steps, n - 1, date, c);
        KinToItself(c);
        KinIsFrom(start, steps, n - 1, n, date, c, c);
      } else {
        PutIsFrom(start, steps, n, date, c, before.held);
      }
    }
  }

  lemma {:induction false} KinToItself(c: Cookie)
    ensures Kin(c, c)
  {
  }

  /** What a step puts is from its header, or from what the user saw. */
  lemma {:induction false} PutIsFrom(start: State, steps: seq<Step>, n: nat, date: string -> Option<int>, c: Cookie,
    jar: seq<Cookie>)
    requires 0 < n <= |steps| && FromList(start, steps, date)
    requires PutBy(steps[n - 1], date).Some? && c == KeptAs(jar, PutBy(steps[n - 1], date).value)
    ensures FromHeader(steps, n, date, c) || FromStart(start, c)
    decreases n, 0
  {
    var step := steps[n - 1];
    if step.Respond? {
      assert SetByHeader(steps[n - 1], date, c);
    } else {
      assert Kin(c, step.cookie);
      var m: nat :| m <= n - 1 && step.cookie in PageAt(start, steps, m, date).held;
      hide FromHeader, FromStart, Kin, PutBy, PageAt;
      HeldIsFrom(start, steps, m, date, step.cookie);
      KinIsFrom(start, steps, m, n, date, c, step.cookie);
    }
  }

  // ---- A cookie stays within what set it ----

  /** The step's response came from an address of which the cookie may go to `to`. */
  predicate SentFrom(step: Step, to: Address, cookie: Cookie) {
    step.Respond? && step.from.Some? && Reaches(step.from.value, to, cookie)
  }

  lemma {:induction false} HeaderReaches(step: Step, date: string -> Option<int>, c: Cookie, to: Address, now: int)
    requires SetByHeader(step, date, c) && Goes(c, to, now)
    ensures SentFrom(step, to, c)
  {
    AcceptedMaySet(step.header.text, step.from.value, step.header.readAt, date);
    hide CookieOf, PathMatches, DomainMatches, IsWide, Expired;
  }

  /**
   * Over the whole life of a page, a cookie that goes to an address was set by a header, with its name, domain, path
   * and flags, and goes to the host that sent that header or within a dotted domain both match, a secure one over TLS
   * at both ends; or the page started with it, and it goes where that one might.
   */
  lemma {:induction false} PageCookiesStayHome(start: State, steps: seq<Step>, n: nat, date: string -> Option<int>,
    to: Address, now: int, cookie: Cookie)
    requires n <= |steps| && FromList(start, steps, date)
    requires cookie in CookiesFor(PageAt(start, steps, n, date).held, Some(to), now)
    ensures || (exists i: nat :: i < n && SetByHeader(steps[i], date, cookie) && SentFrom(steps[i], to, cookie))
            || (exists first :: first in start.held && Kin(cookie, first) && MayGo(first, to))
  {
    hide PageAt, FromList, CookiesFor, SetByHeader, SentFrom;
    SendsExactly(PageAt(start, steps, n, date).held, to, now);
    hide Goes;
    HeldIsFrom(start, steps, n, date, cookie);
    if FromHeader(steps, n, date, cookie) {
      var i: nat :| i < n && SetByHeader(steps[i], date, cookie);
      HeaderReaches(steps[i], date, cookie, to, now);
    } else {
      var first :| first in start.held && Kin(cookie, first);
      StartMayGo(cookie, first, to, now);
    }
  }

  /** What of an address decides whether the cookie may go there, but for its path and its time. */
  predicate MayGo(cookie: Cookie, to: Address) {
    && (if cookie.hostOnly then to.host == cookie.domain else DomainMatches(to.host, cookie.domain))
    && (cookie.secure ==> to.https)
  }

  lemma {:induction false} StartMayGo(c: Cookie, first: Cookie, to: Address, now: int)
    requires Kin(c, first) && Goes(c, to, now)
    ensures MayGo(first, to)
  {
    hide DomainMatches, PathMatches;
  }

  // ---- A cookie goes back to the address that set it ----

  /** The page starts with cookies no newer than `now`, and reads its headers no later. */
  predicate ByThen(start: State, steps: seq<Step>, now: int) {
    CreatedBy(start.held, now) && forall k :: 0 <= k < |steps| && steps[k].Respond? ==> steps[k].header.readAt <= now
  }

  lemma {:induction false} PageIsValid(start: State, steps: seq<Step>, n: nat, date: string -> Option<int>)
    requires n <= |steps| && ValidJar(start.held)
    ensures ValidJar(PageAt(start, steps, n, date).held)
    decreases n
  {
    hide ValidJar, Stepped;
    if n > 0 {
      PageIsValid(start, steps, n - 1, date);
      StepIsValidToo(PageAt(start, steps, n - 1, date), steps[n - 1], date);
    }
  }

  lemma {:induction false} StepIsValidToo(s: State, step: Step, date: string -> Option<int>)
    requires ValidJar(s.held)
    ensures ValidJar(Stepped(s, step, date).held)
  {
    hide ValidJar, Next, CookieOf, Put;
    match step
    case Respond(from, header) =>
      var cookie := CookieOf(header.text, from, header.readAt, date);
      StoredIsStep(s, from, header, date);
      if cookie.Some? {
        StepIsValid(s, CookieJar.Event.Accepted(cookie.value, header.secret, header.putAt));
      }
    case SetValue(cookie, value, now) => StepIsValid(s, Edited(cookie, value, now));
    case Remove(cookie, now) => StepIsValid(s, Dropped(cookie, now));
    case Clear => StepIsValid(s, Cleared);
    case Land => StepIsValid(s, Landed);
  }

  /** Under a clock that does not go back the page holds no cookie from the future. */
  lemma {:induction false} NoneNewer(start: State, steps: seq<Step>, n: nat, date: string -> Option<int>, now: int)
    requires n <= |steps| && FromList(start, steps, date) && ByThen(start, steps, now)
    ensures CreatedBy(PageAt(start, steps, n, date).held, now)
    decreases n
  {
    if n > 0 {
      var (before, step) := (PageAt(start, steps, n - 1, date), steps[n - 1]);
      hide Stepped, CookieOf;
      NoneNewer(start, steps, n - 1, date, now);
      HeldAfter(before, step, date);
      if PutBy(step, date).Some? {
        PutIsOld(start, steps, n, date, now);
        KeptIsOld(before.held, PutBy(step, date).value, now);
      }
    }
  }

  lemma {:induction false} PutIsOld(start: State, steps: seq<Step>, n: nat, date: string -> Option<int>, now: int)
    requires 0 < n <= |steps| && FromList(start, steps, date) && ByThen(start, steps, now)
    requires PutBy(steps[n - 1], date).Some?
    ensures PutBy(steps[n - 1], date).value.created <= now
    decreases n, 0
  {
    hide CookieOf;
    var step := steps[n - 1];
    if step.Respond? {
      AcceptedCreated(step.header.text, step.from, step.header.readAt, date);
    } else {
      var m: nat :| m <= n - 1 && step.cookie in PageAt(start, steps, m, date).held;
      hide PageAt, ByThen;
      NoneNewer(start, steps, m, date, now);
    }
  }

  lemma {:induction false} KeptIsOld(jar: seq<Cookie>, cookie: Cookie, now: int)
    requires CreatedBy(jar, now) && cookie.created <= now
    ensures KeptAs(jar, cookie).created <= now
  {
  }

  /**
   * Whatever the page did before, a cookie of a header with no attributes goes back, with its value, to the address
   * that set it, at any time; the clock that reads the headers does not go back.
   */
  lemma {:induction false} PageGoesBack(start: State, steps: seq<Step>, date: string -> Option<int>, from: Address,
    header: Header, later: int)
    requires ValidJar(start.held) && FromList(start, steps, date) && ByThen(start, steps, header.readAt)
    requires from.path != "" && from.path[0] == '/'
    requires ';' !in header.text && CookieOf(header.text, Some(from), header.readAt, date).Some?
    ensures var cookie := CookieOf(header.text, Some(from), header.readAt, date).value;
            var after := Stepped(PageAt(start, steps, |steps|, date), Respond(Some(from), header), date);
            exists c :: c in CookiesFor(after.held, Some(from), later) && KeyOf(c) == KeyOf(cookie)
              && c.value == cookie.value
  {
    var jar := PageAt(start, steps, |steps|, date).held;
    PageIsValid(start, steps, |steps|, date);
    NoneNewer(start, steps, |steps|, date, header.readAt);
    hide PageAt, FromList, ByThen;
    NewestGoesBack(jar, header.text, from, header.readAt, header.putAt, later, date);
  }
}
