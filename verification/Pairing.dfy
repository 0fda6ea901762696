/** The state machine behind pairing: attempts that are counted, a lock that runs out, a token given once. */
module Pairing {
  import opened Basics
  import opened Text

  const TRIES := 3
  const LOCK_MS := 60_000

  /** What a client posts: no object of exactly one `code` text of at most 32 characters, or such a code. */
  datatype Payload = NotAnObject | Fields(count: nat, code: Option<string>)

  datatype Answer = BadRequest | TooMany(retryAfter: int) | Gone | WrongCode | Paired(token: string)

  /** The form in which codes are compared: upper case, white space and dashes dropped. */
  function NormalCode(code: string): string {
    if code == "" then ""
    else
      var (rest, last) := (NormalCode(code[..|code| - 1]), code[|code| - 1]);
      if IsSpace(last) || last == '-' then rest else rest + [UpperChar(last)]
  }

  predicate Malformed(payload: Payload) {
    payload.NotAnObject? || payload.count != 1 || payload.code.None? || |payload.code.value| > 32
  }

  /** What the exchange remembers between two attempts. */
  datatype State = State(remaining: Option<string>, wrong: nat, lockedUntil: int)

  function Start(code: Option<string>): State {
    State(if code.Some? then Some(NormalCode(code.value)) else None, 0, 0)
  }

  /** Whole seconds, rounded up. */
  function Seconds(ms: int): int {
    (ms + 999) / 1000
  }

  function Attempt(s: State, token: string, payload: Payload, now: int): (State, Answer) {
    if Malformed(payload) then (s, BadRequest)
    else if now < s.lockedUntil then (s, TooMany(Seconds(s.lockedUntil - now)))
    else if s.remaining.None? then (s, Gone)
    else if NormalCode(payload.code.value) != s.remaining.value then
      if s.wrong + 1 >= TRIES then (s.(wrong := 0, lockedUntil := now + LOCK_MS), WrongCode)
      else (s.(wrong := s.wrong + 1), WrongCode)
    else (s.(remaining := None), Paired(token))
  }

  /** The closure the server keeps: its variables change with each call. */
  class Exchange {
    const token: string
    var remaining: Option<string>
    var wrong: nat
    var lockedUntil: int

    function Memory(): State
      reads this
    {
      State(remaining, wrong, lockedUntil)
    }

    constructor (code: Option<string>, token: string)
      ensures Memory() == Start(code) && this.token == token
    {
      this.token := token;
      remaining := if code.Some? then Some(NormalCode(code.value)) else None;
      wrong := 0;
      lockedUntil := 0;
    }

    method Handle(payload: Payload, now: int) returns (answer: Answer)
      modifies this
      ensures (Memory(), answer) == Attempt(old(Memory()), token, payload, now)
    {
      if Malformed(payload) {
        return BadRequest;
      }
      if now < lockedUntil {
        return TooMany(Seconds(lockedUntil - now));
      }
      if remaining.None? {
        return Gone;
      }
      if NormalCode(payload.code.value) != remaining.value {
        wrong := wrong + 1;
        if wrong >= TRIES {
          wrong := 0;
          lockedUntil := now + LOCK_MS;
        }
        return WrongCode;
      }
      remaining := None;
      answer := Paired(token);
    }
  }

  // ---- Whole runs ----

  /** An attempt, at the time the server's clock shows. */
  datatype Event = Event(payload: Payload, now: int)

  /** A clock that does not go back. */
  predicate Monotone(events: seq<Event>) {
    forall i, j :: 0 <= i < j < |events| ==> events[i].now <= events[j].now
  }

  function Answers(s: State, token: string, events: seq<Event>): (answers: seq<Answer>)
    ensures |answers| == |events|
    decreases |events|
  {
    if events == [] then []
    else
      var (next, answer) := Attempt(s, token, events[0].payload, events[0].now);
      [answer] + Answers(next, token, events[1..])
  }

  /** How many attempts from `from` to `to`, both included, were answered "wrong pairing code". */
  function WrongIn(events: seq<Event>, answers: seq<Answer>, from: int, to: int): nat
    requires |answers| == |events|
  {
    if events == [] then 0
    else
      var rest := WrongIn(events[1..], answers[1..], from, to);
      if answers[0].WrongCode? && from <= events[0].now <= to then 1 + rest else rest
  }

  /** The most wrong answers that can still come up to `to`, when none can come before `from`. */
  function Room(s: State, from: int, to: int): int {
    var earliest := if from < s.lockedUntil then s.lockedUntil else from;
    if earliest > to then 0 else TRIES * ((to - earliest) / LOCK_MS + 1) - s.wrong
  }

  lemma {:induction false} DivideMonotone(a: int, b: int)
    requires 0 <= a <= b
    ensures 0 <= a / LOCK_MS <= b / LOCK_MS
  {
  }

  lemma {:induction false} RoomShrinks(s: State, from: int, later: int, to: int)
    requires s.wrong < TRIES && from <= later
    ensures 0 <= Room(s, later, to) <= Room(s, from, to)
  {
    var earliest := if from < s.lockedUntil then s.lockedUntil else from;
    var latest := if later < s.lockedUntil then s.lockedUntil else later;
    if latest <= to {
      DivideMonotone(to - latest, to - earliest);
    }
  }

  /** A wrong answer takes one from the room that is left, and the third one in a row takes a minute. */
  lemma {:induction false} RoomAfter(s: State, token: string, payload: Payload, now: int, from: int, to: int)
    requires s.wrong < TRIES && from <= now
    ensures var (next, answer) := Attempt(s, token, payload, now);
            && next.wrong < TRIES
            && (if answer.WrongCode? && now <= to then 1 else 0) + Room(next, now, to) <= Room(s, from, to)
  {
    var (next, answer) := Attempt(s, token, payload, now);
    RoomShrinks(s, from, now, to);
    if answer.WrongCode? && now <= to {
      assert (to - now - LOCK_MS) / LOCK_MS == (to - now) / LOCK_MS - 1;
      DivideMonotone(0, to - now);
    }
  }

  lemma {:induction false} WrongAnswersFit(s: State, token: string, events: seq<Event>, start: int, from: int, to: int)
    requires s.wrong < TRIES && start <= from && Monotone(events)
    requires forall k :: 0 <= k < |events| ==> from <= events[k].now
    ensures WrongIn(events, Answers(s, token, events), start, to) <= Room(s, from, to)
    decreases |events|
  {
    RoomShrinks(s, from, from, to);
    if events != [] {
      var next := Attempt(s, token, events[0].payload, events[0].now).0;
      RoomAfter(s, token, events[0].payload, events[0].now, from, to);
      assert Answers(s, token, events)[1..] == Answers(next, token, events[1..]);
      WrongAnswersFit(next, token, events[1..], start, events[0].now, to);
    }
  }

  /**
   * The bound: whatever is tried, and whatever the code is, any interval of `length` milliseconds of any run holds at
   * most three wrong answers for each minute begun in it.
   */
  lemma {:induction false} WrongCodesAreBounded(s: State, token: string, events: seq<Event>, from: int, length: nat)
    requires s.wrong < TRIES && Monotone(events)
    ensures WrongIn(events, Answers(s, token, events), from, from + length) <= 3 * (length / 60_000 + 1)
    decreases |events|
  {
    if events != [] && events[0].now < from {
      var next := Attempt(s, token, events[0].payload, events[0].now).0;
      assert Answers(s, token, events)[1..] == Answers(next, token, events[1..]);
      WrongCodesAreBounded(next, token, events[1..], from, length);
    } else {
      WrongAnswersFit(s, token, events, from, from, from + length);
      var earliest := if from < s.lockedUntil then s.lockedUntil else from;
      if earliest <= from + length {
        DivideMonotone(from + length - earliest, length);
      }
      DivideMonotone(0, length);
    }
  }

  /** The state changes with a wrong code and with the right one, and with no other attempt. */
  lemma {:induction false} QuietAttempts(s: State, token: string, payload: Payload, now: int)
    ensures var (next, answer) := Attempt(s, token, payload, now);
            next == s <==> answer.BadRequest? || answer.TooMany? || answer.Gone?
  {
  }

  function PairedCount(answers: seq<Answer>): nat {
    if answers == [] then 0 else (if answers[0].Paired? then 1 else 0) + PairedCount(answers[1..])
  }

  /** In a run that begins without a code, or after the code was used, the token is never given. */
  lemma {:induction false} NothingLeft(s: State, token: string, events: seq<Event>)
    requires s.remaining.None?
    ensures PairedCount(Answers(s, token, events)) == 0
    decreases |events|
  {
    if events != [] {
      var next := Attempt(s, token, events[0].payload, events[0].now).0;
      assert Answers(s, token, events)[1..] == Answers(next, token, events[1..]);
      NothingLeft(next, token, events[1..]);
    }
  }

  /** The token is given at most once in any run, whatever the clock shows. */
  lemma {:induction false} TokenAtMostOnce(s: State, token: string, events: seq<Event>)
    ensures PairedCount(Answers(s, token, events)) <= 1
    decreases |events|
  {
    if events != [] {
      var (next, answer) := Attempt(s, token, events[0].payload, events[0].now);
      assert Answers(s, token, events)[1..] == Answers(next, token, events[1..]);
      if answer.Paired? {
        NothingLeft(next, token, events[1..]);
      } else {
        TokenAtMostOnce(next, token, events[1..]);
      }
    }
  }

  // ---- Which codes are taken for each other ----

  /** Neither white space nor a dash. */
  predicate Counts(c: char) {
    !IsSpace(c) && c != '-'
  }

  /** The places of the characters of `code` that count, in order. */
  ghost predicate Marks(code: string, places: seq<nat>) {
    && (forall k :: 0 <= k < |places| ==> places[k] < |code|)
    && (forall k, l :: 0 <= k < l < |places| ==> places[k] < places[l])
    && (forall i: nat :: i < |code| ==> (i in places <==> Counts(code[i])))
  }

  /** One character, or one letter in either case. */
  predicate SameLetter(c: char, d: char) {
    || c == d
    || ('a' <= c <= 'z' && 'A' <= d <= 'Z' && c - 'a' == d - 'A')
    || ('A' <= c <= 'Z' && 'a' <= d <= 'z' && c - 'A' == d - 'a')
  }

  /** The same letters in the same order at the places that count. */
  ghost predicate LettersMatch(a: string, places: seq<nat>, b: string, others: seq<nat>)
    requires Marks(a, places) && Marks(b, others)
  {
    && |places| == |others|
    && forall k :: 0 <= k < |places| ==> SameLetter(a[places[k]], b[others[k]])
  }

  /** White space, dashes and case set aside, the two codes are one. */
  ghost predicate SameCode(a: string, b: string) {
    exists places, others :: Marks(a, places) && Marks(b, others) && LettersMatch(a, places, b, others)
  }

  lemma {:induction false} UpperMeets(c: char, d: char)
    ensures UpperChar(c) == UpperChar(d) <==> SameLetter(c, d)
  {
  }

  lemma {:induction false} MarkIsWithin(code: string, places: seq<nat>, k: nat)
    requires Marks(code, places) && k < |places|
    ensures places[k] < |code| && (k < |places| - 1 ==> places[k] < |code| - 1)
  {
    if k < |places| - 1 {
      assert places[k] < places[k + 1];
    }
  }

  lemma {:induction false} MarksOfShorter(code: string, places: seq<nat>)
    requires code != "" && Marks(code, places) && !Counts(code[|code| - 1])
    ensures Marks(code[..|code| - 1], places)
  {
    hide IsSpace;
    forall k | 0 <= k < |places| ensures places[k] < |code| - 1 {
      assert places[k] in places;
    }
  }

  lemma {:induction false} MarksButLast(code: string, places: seq<nat>)
    requires code != "" && Marks(code, places) && Counts(code[|code| - 1])
    ensures places != [] && places[|places| - 1] == |code| - 1
    ensures Marks(code[..|code| - 1], places[..|places| - 1])
  {
    hide IsSpace;
    var n := |code| - 1;
    var at: nat :| at < |places| && places[at] == n;
    MarkIsWithin(code, places, at);
    var fewer := places[..at];
    assert places == fewer + [n];
    hide Marks;
    ButLast(code, places, fewer);
  }

  lemma {:induction false} ButLast(code: string, places: seq<nat>, fewer: seq<nat>)
    requires code != "" && Marks(code, places) && places == fewer + [|code| - 1]
    ensures Marks(code[..|code| - 1], fewer)
  {
    hide IsSpace;
    var n := |code| - 1;
    forall k | 0 <= k < |fewer| ensures fewer[k] < n {
      assert fewer[k] == places[k] && places[k] < places[|fewer|];
    }
    forall k, l | 0 <= k < l < |fewer| ensures fewer[k] < fewer[l] {
      assert fewer[k] == places[k] && places[l] == fewer[l];
    }
    forall i: nat | i < n ensures i in fewer <==> Counts(code[i]) {
      assert i in places <==> i in fewer;
    }
  }

  /** The form that is compared has the letters at those places, and no others. */
  lemma {:induction false} NormalCodeIs(code: string, places: seq<nat>)
    requires Marks(code, places)
    ensures |NormalCode(code)| == |places|
    ensures forall k :: 0 <= k < |places| ==> NormalCode(code)[k] == UpperChar(code[places[k]])
  {
    if places != [] {
      MarkIsWithin(code, places, 0);
    }
    if code != "" {
      var (shorter, last) := (code[..|code| - 1], code[|code| - 1]);
      if Counts(last) {
        MarksButLast(code, places);
        NormalCodeIs(shorter, places[..|places| - 1]);
      } else {
        MarksOfShorter(code, places);
        NormalCodeIs(shorter, places);
      }
    }
  }

  lemma {:induction false} MarksExist(code: string) returns (places: seq<nat>)
    ensures Marks(code, places)
  {
    places := [];
    if code != "" {
      var n := |code| - 1;
      var before := MarksExist(code[..n]);
      assert forall i: nat :: i < n ==> code[..n][i] == code[i];
      if !Counts(code[n]) {
        places := before;
        assert n !in before;
      } else {
        places := before + [n];
      }
    }
  }

  /** The exchange takes two codes for each other exactly when they are the same code. */
  lemma {:induction false} NormalCodesMeet(a: string, b: string)
    ensures NormalCode(a) == NormalCode(b) <==> SameCode(a, b)
  {
    var places := MarksExist(a);
    var others := MarksExist(b);
    NormalCodeIs(a, places);
    NormalCodeIs(b, others);
    hide NormalCode, UpperChar, SameLetter, IsSpace;
    if NormalCode(a) == NormalCode(b) {
      forall k | 0 <= k < |places| ensures SameLetter(a[places[k]], b[others[k]]) {
        assert NormalCode(a)[k] == NormalCode(b)[k];
        UpperMeets(a[places[k]], b[others[k]]);
      }
      assert LettersMatch(a, places, b, others);
    }
    if SameCode(a, b) {
      var marks, more :| Marks(a, marks) && Marks(b, more) && LettersMatch(a, marks, b, more);
      NormalCodeIs(a, marks);
      NormalCodeIs(b, more);
      forall k | 0 <= k < |marks| ensures NormalCode(a)[k] == NormalCode(b)[k] {
        UpperMeets(a[marks[k]], b[more[k]]);
      }
    }
  }

  // ---- What each attempt of a run is answered ----

  function Wrongs(answers: seq<Answer>): nat {
    if answers == [] then 0
    else Wrongs(answers[..|answers| - 1]) + if answers[|answers| - 1].WrongCode? then 1 else 0
  }

  /** When the lock of the last third wrong code ends: a minute after that attempt. */
  function LockEnd(events: seq<Event>, answers: seq<Answer>): int
    requires |answers| <= |events|
    decreases |answers|
  {
    if answers == [] then 0
    else
      var last := |answers| - 1;
      if answers[last].WrongCode? && Wrongs(answers) % 3 == 0 then events[last].now + 60_000
      else LockEnd(events, answers[..last])
  }

  ghost predicate Used(answers: seq<Answer>) {
    exists j :: 0 <= j < |answers| && answers[j].Paired?
  }

  /** What an attempt is to be answered, from the bridge's code and from what was answered before. */
  ghost predicate IsDue(
    code: Option<string>, token: string, events: seq<Event>, before: seq<Answer>, answer: Answer)
    requires |before| < |events|
  {
    var (payload, wait) := (events[|before|].payload, LockEnd(events, before) - events[|before|].now);
    if !(payload.Fields? && payload.count == 1 && payload.code.Some? && |payload.code.value| <= 32) then
      answer == BadRequest
    else if wait > 0 then answer.TooMany? && wait <= answer.retryAfter * 1000 < wait + 1000
    else if code.None? || Used(before) then answer == Gone
    else if SameCode(code.value, payload.code.value) then answer == Paired(token)
    else answer == WrongCode
  }

  function StateAfter(s: State, token: string, events: seq<Event>): State {
    if events == [] then s
    else
      var last := events[|events| - 1];
      Attempt(StateAfter(s, token, events[..|events| - 1]), token, last.payload, last.now).0
  }

  lemma {:induction false} StateAfterFirst(s: State, token: string, events: seq<Event>)
    requires events != []
    ensures StateAfter(s, token, events)
         == StateAfter(Attempt(s, token, events[0].payload, events[0].now).0, token, events[1..])
    decreases |events|
  {
    var n := |events| - 1;
    if n == 0 {
      assert events[..0] == [];
    } else {
      StateAfterFirst(s, token, events[..n]);
      assert events[..n][1..] == events[1..][..n - 1];
    }
  }

  lemma {:induction false} AnswerAt(s: State, token: string, events: seq<Event>, k: nat)
    requires k < |events|
    ensures Answers(s, token, events)[k]
         == Attempt(StateAfter(s, token, events[..k]), token, events[k].payload, events[k].now).1
    decreases |events|
  {
    if k > 0 {
      var next := Attempt(s, token, events[0].payload, events[0].now).0;
      AnswerAt(next, token, events[1..], k - 1);
      StateAfterFirst(s, token, events[..k]);
      assert events[..k][1..] == events[1..][..k - 1];
    }
  }

  /** The state after `k` attempts is what their answers tell. */
  ghost predicate Tells(code: Option<string>, events: seq<Event>, answers: seq<Answer>, s: State)
    requires |answers| <= |events|
  {
    && s.wrong == Wrongs(answers) % 3
    && s.lockedUntil == LockEnd(events, answers)
    && s.remaining == if code.None? || Used(answers) then None else Some(NormalCode(code.value))
  }

  lemma {:induction false} UsedGrows(answers: seq<Answer>, answer: Answer)
    ensures Used(answers + [answer]) <==> Used(answers) || answer.Paired?
  {
    var more := answers + [answer];
    assert more[|answers|] == answer;
    if Used(answers) {
      var j :| 0 <= j < |answers| && answers[j].Paired?;
      assert more[j].Paired?;
    }
  }

  lemma {:induction false} AttemptTells(
    code: Option<string>, token: string, events: seq<Event>, answers: seq<Answer>, s: State)
    requires |answers| < |events| && Tells(code, events, answers, s)
    ensures var event := events[|answers|];
            var (next, answer) := Attempt(s, token, event.payload, event.now);
            IsDue(code, token, events, answers, answer) && Tells(code, events, answers + [answer], next)
  {
    var event := events[|answers|];
    var (next, answer) := Attempt(s, token, event.payload, event.now);
    var more := answers + [answer];
    assert more[..|answers|] == answers;
    UsedGrows(answers, answer);
    if event.payload.Fields? && event.payload.code.Some? && code.Some? {
      NormalCodesMeet(code.value, event.payload.code.value);
    }
    hide NormalCode, SameCode, Used;
  }

  lemma {:induction false} StatesTell(code: Option<string>, token: string, events: seq<Event>, k: nat)
    requires k <= |events|
    ensures Tells(code, events, Answers(Start(code), token, events)[..k],
                  StateAfter(Start(code), token, events[..k]))
  {
    if k > 0 {
      StatesTell(code, token, events, k - 1);
      AnswerAt(Start(code), token, events, k - 1);
      var answers := Answers(Start(code), token, events);
      var s := StateAfter(Start(code), token, events[..k - 1]);
      AttemptTells(code, token, events, answers[..k - 1], s);
      assert answers[..k] == answers[..k - 1] + [answers[k - 1]];
      assert events[..k][..k - 1] == events[..k - 1];
    }
  }

  /**
   * Every answer of every run, from the code the bridge was started with and from the answers before: which posts are
   * malformed, how long the third wrong code locks pairing, and that outside the lock the same code, if it was not
   * used before, is answered with the token, and every other one as wrong.
   */
  lemma {:induction false} AnswersAreDue(code: Option<string>, token: string, events: seq<Event>, k: nat)
    requires k < |events|
    ensures var answers := Answers(Start(code), token, events);
            IsDue(code, token, events, answers[..k], answers[k])
  {
    StatesTell(code, token, events, k);
    AnswerAt(Start(code), token, events, k);
    var answers := Answers(Start(code), token, events);
    AttemptTells(code, token, events, answers[..k], StateAfter(Start(code), token, events[..k]));
  }

  /** Whoever is given the token sent the code the bridge was started with, and is given the bridge's own token. */
  lemma {:induction false} OnlyTheRightCode(code: Option<string>, token: string, events: seq<Event>, k: nat)
    requires k < |events| && Answers(Start(code), token, events)[k].Paired?
    ensures Answers(Start(code), token, events)[k].token == token
    ensures !Malformed(events[k].payload)
    ensures code.Some? && SameCode(code.value, events[k].payload.code.value)
  {
    AnswersAreDue(code, token, events, k);
  }

  /** While the lock holds, no code is looked at, the right one included, and the lock stays as it is. */
  lemma {:induction false} LockHolds(s: State, token: string, events: seq<Event>, k: nat)
    requires k < |events| && forall i :: 0 <= i <= k ==> events[i].now < s.lockedUntil
    ensures Answers(s, token, events)[k] == if Malformed(events[k].payload) then BadRequest
                                            else TooMany(Seconds(s.lockedUntil - events[k].now))
  {
    if k > 0 {
      assert Attempt(s, token, events[0].payload, events[0].now).0 == s;
      assert Answers(s, token, events)[k] == Answers(s, token, events[1..])[k - 1];
      LockHolds(s, token, events[1..], k - 1);
    }
  }
}
