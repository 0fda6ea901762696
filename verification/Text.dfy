/**
 * The string operations of the original's language that the components use. A text is a sequence of Unicode scalar
 * values; an index of -1 means "not found", as there.
 */
module Text {

  /** The characters `\s` matches and `trim` removes. */
  predicate IsSpace(c: char) {
    || '\U{9}' <= c <= '\U{D}'
    || c == ' ' || c == '\U{A0}' || c == '\U{1680}'
    || '\U{2000}' <= c <= '\U{200A}'
    || c == '\U{2028}' || c == '\U{2029}' || c == '\U{202F}' || c == '\U{205F}' || c == '\U{3000}' || c == '\U{FEFF}'
  }

  function IndexOf(s: string, c: char): (i: int)
    ensures -1 <= i < |s|
    ensures i == -1 <==> c !in s
    ensures i >= 0 ==> s[i] == c && c !in s[..i]
  {
    if s == [] then -1
    else if s[0] == c then 0
    else
      var j := IndexOf(s[1..], c);
      if j == -1 then -1 else
        assert s[..j + 1] == [s[0]] + s[1..][..j];
        j + 1
  }

  function LastIndexOf(s: string, c: char): (i: int)
    ensures -1 <= i < |s|
    ensures i == -1 <==> c !in s
    ensures i >= 0 ==> s[i] == c && c !in s[i + 1..]
  {
    if s == [] then -1
    else if s[|s| - 1] == c then |s| - 1
    else
      var i := LastIndexOf(s[..|s| - 1], c);
      assert s == s[..|s| - 1] + [s[|s| - 1]];
      assert i >= 0 ==> s[i + 1..] == s[..|s| - 1][i + 1..] + [s[|s| - 1]];
      i
  }

  /** The first index where `c` stands is the one with no `c` before it. */
  lemma {:induction false} FirstIndex(before: string, c: char, after: string)
    requires c !in before
    ensures IndexOf(before + [c] + after, c) == |before|
  {
    assert (before + [c] + after)[|before|] == c;
  }

  lemma {:induction false} LastIndex(before: string, c: char, after: string)
    requires c !in after
    ensures LastIndexOf(before + [c] + after, c) == |before|
  {
    assert (before + [c] + after)[|before|] == c;
  }

  predicate StartsWith(s: string, prefix: string) {
    |prefix| <= |s| && s[..|prefix|] == prefix
  }

  predicate EndsWith(s: string, suffix: string) {
    |suffix| <= |s| && s[|s| - |suffix|..] == suffix
  }

  function TrimStart(s: string): string {
    if s != [] && IsSpace(s[0]) then TrimStart(s[1..]) else s
  }

  function TrimEnd(s: string): string {
    if s != [] && IsSpace(s[|s| - 1]) then TrimEnd(s[..|s| - 1]) else s
  }

  function Trim(s: string): string {
    TrimEnd(TrimStart(s))
  }

  /** A text with no white space at either end. */
  predicate Trimmed(s: string) {
    s != [] ==> !IsSpace(s[0]) && !IsSpace(s[|s| - 1])
  }

  lemma {:induction false} TrimStartResult(s: string)
    ensures |TrimStart(s)| <= |s| && TrimStart(s) == s[|s| - |TrimStart(s)|..]
    ensures TrimStart(s) != [] ==> !IsSpace(TrimStart(s)[0])
  {
    if s != [] && IsSpace(s[0]) {
      TrimStartResult(s[1..]);
    }
  }

  lemma {:induction false} TrimEndResult(s: string)
    ensures |TrimEnd(s)| <= |s| && TrimEnd(s) == s[..|TrimEnd(s)|]
    ensures TrimEnd(s) != [] ==> !IsSpace(TrimEnd(s)[|TrimEnd(s)| - 1])
  {
    if s != [] && IsSpace(s[|s| - 1]) {
      TrimEndResult(s[..|s| - 1]);
    }
  }

  /** `trim` leaves alone exactly the texts with no white space at their ends, and makes every text one of them. */
  lemma {:induction false} TrimIsTrimmed(s: string)
    ensures Trimmed(Trim(s))
    ensures Trim(s) == s <==> Trimmed(s)
    ensures |Trim(s)| <= |s|
  {
    TrimStartResult(s);
    TrimEndResult(TrimStart(s));
  }

  predicate IsBlank(s: string) {
    forall i :: 0 <= i < |s| ==> IsSpace(s[i])
  }

  lemma {:induction false} TrimStartOver(blank: string, rest: string)
    requires IsBlank(blank) && (rest != "" ==> !IsSpace(rest[0]))
    ensures TrimStart(blank + rest) == rest
  {
    if blank != "" {
      assert (blank + rest)[1..] == blank[1..] + rest;
      TrimStartOver(blank[1..], rest);
    } else {
      assert blank + rest == rest;
    }
  }

  lemma {:induction false} TrimEndOver(rest: string, blank: string)
    requires IsBlank(blank) && (rest != "" ==> !IsSpace(rest[|rest| - 1]))
    ensures TrimEnd(rest + blank) == rest
  {
    if blank != "" {
      var n := |blank| - 1;
      assert (rest + blank)[..|rest + blank| - 1] == rest + blank[..n];
      TrimEndOver(rest, blank[..n]);
    } else {
      assert rest + blank == rest;
    }
  }

  lemma {:induction false} TrimStartCuts(s: string)
    ensures |TrimStart(s)| <= |s| && forall i :: 0 <= i < |s| - |TrimStart(s)| ==> IsSpace(s[i])
  {
    hide IsSpace;
    if s != "" && IsSpace(s[0]) {
      var rest := s[1..];
      TrimStartCuts(rest);
      forall i | 0 <= i < |s| - |TrimStart(s)| ensures IsSpace(s[i]) {
        assert i > 0 ==> s[i] == rest[i - 1];
      }
    }
  }

  lemma {:induction false} TrimEndCuts(s: string)
    ensures |TrimEnd(s)| <= |s| && forall i :: |TrimEnd(s)| <= i < |s| ==> IsSpace(s[i])
  {
    TrimEndResult(s);
    hide IsSpace;
    if s != "" && IsSpace(s[|s| - 1]) {
      TrimEndCuts(s[..|s| - 1]);
    }
  }

  /** The text without the white space around it. */
  ghost predicate IsInside(t: string, s: string) {
    Trimmed(t) && exists before, after :: IsBlank(before) && IsBlank(after) && s == before + t + after
  }

  lemma {:induction false} TrimIsInside(s: string)
    ensures IsInside(Trim(s), s)
  {
    var middle := TrimStart(s);
    TrimIsTrimmed(s);
    TrimStartResult(s);
    TrimEndResult(middle);
    TrimStartCuts(s);
    TrimEndCuts(middle);
    hide IsSpace, TrimStart, TrimEnd, Trimmed;
    var (t, before) := (Trim(s), s[..|s| - |middle|]);
    var after := middle[|t|..];
    assert IsBlank(after);
    assert middle == t + after && s == before + middle;
    assert s == before + t + after;
  }

  /** What `trim` leaves is the text between white space and white space that has none at its own ends. */
  lemma {:induction false} TrimIs(s: string, t: string)
    ensures t == Trim(s) <==> IsInside(t, s)
  {
    TrimIsInside(s);
    hide Trim, Trimmed, IsBlank;
    if IsInside(t, s) {
      var before, after :| IsBlank(before) && IsBlank(after) && s == before + t + after;
      TrimOver(before, t, after);
    }
  }

  lemma {:induction false} TrimOver(before: string, t: string, after: string)
    requires Trimmed(t) && IsBlank(before) && IsBlank(after)
    ensures Trim(before + t + after) == t
  {
    if t == "" {
      assert IsBlank(before + after) && before + t + after == before + after + "";
      TrimStartOver(before + after, "");
    } else {
      TrimStartOver(before, t + after);
      assert before + t + after == before + (t + after);
      TrimEndOver(t, after);
    }
  }

  function LowerChar(c: char): char {
    if 'A' <= c <= 'Z' then c + ' ' else c
  }

  function UpperChar(c: char): char {
    if 'a' <= c <= 'z' then c - ' ' else c
  }

  /** Case is folded for ASCII letters alone. */
  function Lower(s: string): (r: string)
    ensures |r| == |s| && forall i :: 0 <= i < |s| ==> r[i] == LowerChar(s[i])
  {
    seq(|s|, i requires 0 <= i < |s| => LowerChar(s[i]))
  }

  function Upper(s: string): (r: string)
    ensures |r| == |s| && forall i :: 0 <= i < |s| ==> r[i] == UpperChar(s[i])
  {
    seq(|s|, i requires 0 <= i < |s| => UpperChar(s[i]))
  }

  function Join(parts: seq<string>, separator: string): string {
    if parts == [] then ""
    else if |parts| == 1 then parts[0]
    else parts[0] + separator + Join(parts[1..], separator)
  }

  lemma {:induction false} JoinStep(first: string, rest: seq<string>, separator: string)
    requires rest != []
    ensures Join([first] + rest, separator) == first + separator + Join(rest, separator)
  {
    assert ([first] + rest)[1..] == rest;
  }

  /** The pieces of `s` between the places where `c` stands. */
  function Split(s: string, c: char): (parts: seq<string>)
    ensures |parts| >= 1
    decreases |s|
  {
    var at := IndexOf(s, c);
    if at == -1 then [s] else [s[..at]] + Split(s[at + 1..], c)
  }

  /** Joining the pieces gives the text back, and no piece holds the mark it was split at. */
  lemma {:induction false} SplitJoins(s: string, c: char)
    ensures Join(Split(s, c), [c]) == s
    ensures forall k :: 0 <= k < |Split(s, c)| ==> c !in Split(s, c)[k]
    decreases |s|
  {
    var at := IndexOf(s, c);
    if at != -1 {
      var (first, later) := (s[..at], s[at + 1..]);
      var rest := Split(later, c);
      assert Split(s, c) == [first] + rest && s == first + [c] + later;
      hide Split, Join, IndexOf;
      SplitJoins(later, c);
      JoinStep(first, rest, [c]);
    }
  }
}
