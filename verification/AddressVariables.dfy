/** What becomes of the variables of an address: which addresses come back whole, and that none is split. */
module AddressVariables {
  import opened Address
  import opened AddressLaws
  import opened Basics

  // ---- Texts and their atoms ----

  lemma {:induction false} FlatFirst(atom: Atom, rest: seq<Atom>)
    ensures Flat([atom] + rest) == AtomText(atom) + Flat(rest)
  {
    assert ([atom] + rest)[1..] == rest;
  }

  lemma {:induction false} FlatAtoms(s: string)
    ensures Flat(Atoms(s)) == s
    decreases |s|
  {
    if s != "" {
      var n := VariableLength(s);
      hide VariableLength;
      if n.Some? {
        FlatAtoms(s[n.value..]);
        FlatFirst(Variable(s[..n.value]), Atoms(s[n.value..]));
      } else {
        FlatAtoms(s[1..]);
        FlatFirst(Plain(s[0]), Atoms(s[1..]));
      }
    }
  }

  /** No character of the text between the variables is the one that stands for a variable. */
  predicate NoHold(atoms: seq<Atom>) {
    forall k :: 0 <= k < |atoms| ==> atoms[k] != Plain(HOLD)
  }

  lemma {:induction false} AtomsNoHold(s: string)
    requires HOLD !in s
    ensures NoHold(Atoms(s))
    decreases |s|
  {
    if s != "" {
      var n := VariableLength(s);
      hide VariableLength;
      if n.Some? {
        AtomsNoHold(s[n.value..]);
      } else {
        AtomsNoHold(s[1..]);
      }
    }
  }

  // ---- Putting back what is held ----

  /** The variables of the atoms are held from the k-th place on, all of them where they can be put back from. */
  predicate Holds(held: seq<string>, k: nat, atoms: seq<Atom>) {
    && NoHold(atoms)
    && k + |Variables(atoms)| <= MOST
    && k + |Variables(atoms)| <= |held|
    && held[k..k + |Variables(atoms)|] == Variables(atoms)
  }

  lemma {:induction false} HoldsRest(held: seq<string>, k: nat, atoms: seq<Atom>)
    requires Holds(held, k, atoms) && atoms != []
    ensures atoms[0].Plain? ==> atoms[0].c != HOLD && Holds(held, k, atoms[1..])
    ensures atoms[0].Variable? ==> k < MOST && k < |held| && held[k] == atoms[0].text && Holds(held, k + 1, atoms[1..])
  {
    assert NoHold(atoms[1..]);
    if atoms[0].Variable? {
      var n := |Variables(atoms)|;
      assert held[k] == held[k..k + n][0];
      assert held[k + 1..k + n] == held[k..k + n][1..];
      assert Variables(atoms)[1..] == Variables(atoms[1..]);
    }
  }

  lemma {:induction false} RestoredStandIn(k: nat, rest: string, held: seq<string>)
    requires k <= MOST
    ensures var s := [HOLD, IndexChar(k)] + rest;
            if k == MOST then Restored(s, held) == [HOLD] + Restored(s[1..], held)
            else k < |held| ==> Restored(s, held) == held[k] + Restored(rest, held)
  {
    var s := [HOLD, IndexChar(k)] + rest;
    assert s[0] == HOLD && s[1] == IndexChar(k) && s[2..] == rest;
  }

  lemma {:induction false} RestoredChar(c: char, rest: string, held: seq<string>)
    requires c != HOLD
    ensures Restored([c] + rest, held) == [c] + Restored(rest, held)
  {
    assert ([c] + rest)[1..] == rest;
  }

  lemma {:induction false} RestoredHeld(atoms: seq<Atom>, k: nat, held: seq<string>)
    requires Holds(held, k, atoms)
    ensures Restored(Held(atoms, k), held) == Flat(atoms)
    decreases |atoms|
  {
    if atoms != [] {
      HoldsRest(held, k, atoms);
      hide Holds, Restored, IndexChar, HeldAt, Variables, NoHold;
      if atoms[0].Variable? {
        RestoredHeld(atoms[1..], k + 1, held);
        RestoredStandIn(k, Held(atoms[1..], k + 1), held);
      } else {
        RestoredHeld(atoms[1..], k, held);
        RestoredChar(atoms[0].c, Held(atoms[1..], k), held);
      }
    }
  }

  /** One variable more than the private-use range has places for leaves its stand-in in the text. */
  lemma {:induction false} TooManyStay(atoms: seq<Atom>, k: nat, held: seq<string>)
    requires NoHold(atoms) && k <= MOST < k + |Variables(atoms)|
    requires |Variables(atoms)| + k <= |held|
    ensures HOLD in Restored(Held(atoms, k), held)
    decreases |atoms|
  {
    var rest := atoms[1..];
    assert NoHold(rest);
    hide Restored, IndexChar;
    if atoms[0].Variable? {
      assert Held(atoms, k) == [HOLD, IndexChar(k)] + Held(rest, k + 1);
      assert |Variables(atoms)| == 1 + |Variables(rest)|;
      hide Held, Variables;
      RestoredStandIn(k, Held(rest, k + 1), held);
      if k < MOST {
        TooManyStay(rest, k + 1, held);
      }
    } else {
      assert Held(atoms, k) == [atoms[0].c] + Held(rest, k) && Variables(atoms) == Variables(rest);
      hide Held, Variables;
      TooManyStay(rest, k, held);
      RestoredChar(atoms[0].c, Held(rest, k), held);
    }
  }

  lemma {:induction false} NothingHeld(atoms: seq<Atom>, k: nat)
    requires Variables(atoms) == []
    ensures Held(atoms, k) == Flat(atoms)
    decreases |atoms|
  {
    if atoms != [] {
      assert atoms[0].Plain?;
      NothingHeld(atoms[1..], k);
    }
  }

  lemma {:induction false} NothingBack(p: Parts)
    ensures BackParts(p, []) == p
  {
    var b := BackParts(p, []);
    assert b.host == p.host;
    if p.path.Some? {
      assert b.path.value == p.path.value;
    }
    if p.query.Some? {
      assert b.query.value == p.query.value;
    }
  }

  /** What is written back is the text that was cut, with its variables put back. */
  lemma {:induction false} SpelledBack(raw: string)
    ensures var (rest, held) := Holding(raw);
            Whole(PartsOf(raw)) && Spell(Marked(PartsOf(raw))) == Back(rest, held)
  {
    var (rest, held) := Holding(raw);
    CutIsLossless(rest);
    var p := CutParts(rest);
    hide Holding, CutParts, Restored;
    if held == [] {
      NothingBack(p);
    } else {
      BackMarked(p, held);
      RestoredLine(Marked(p), held);
    }
  }

  /**
   * Writing the parts back with their marks gives the address again, exactly when the address already holds the
   * character that stands for a variable (and is cut as it stands) or has at most 6,399 variables.
   */
  lemma {:induction false} Lossless(raw: string)
    ensures Whole(PartsOf(raw))
    ensures Spell(Marked(PartsOf(raw))) == raw <==> HOLD in raw || |Variables(Atoms(raw))| <= MOST
  {
    hide Atoms, Restored, Flat, PartsOf, Marked, Spell, Held, Whole, Variables;
    SpelledBack(raw);
    if HOLD !in raw {
      var atoms := Atoms(raw);
      var held := Variables(atoms);
      FlatAtoms(raw);
      AtomsNoHold(raw);
      hide NoHold;
      if |held| > MOST {
        TooManyStay(atoms, 0, held);
      } else {
        assert held[0..] == held;
        RestoredHeld(atoms, 0, held);
        if held == [] {
          NothingHeld(atoms, 0);
        }
      }
    }
  }

  /** So many variables without a name, and nothing else. */
  function Nameless(n: nat): string {
    if n == 0 then "" else "{{}}" + Nameless(n - 1)
  }

  lemma {:induction false} NamelessVariables(n: nat)
    ensures |Variables(Atoms(Nameless(n)))| == n && HOLD !in Nameless(n)
  {
    hide Variables, Atoms;
    if n == 0 {
      NothingHolds();
    } else {
      NamelessVariables(n - 1);
      OneNameless(Nameless(n - 1), n - 1);
    }
  }

  lemma {:induction false} NothingHolds()
    ensures Variables(Atoms("")) == []
  {
  }

  lemma {:induction false} OneNameless(rest: string, n: nat)
    requires |Variables(Atoms(rest))| == n && HOLD !in rest
    ensures |Variables(Atoms("{{}}" + rest))| == n + 1 && HOLD !in "{{}}" + rest
  {
    hide Variables, Atoms;
    OneVariable(rest);
    FirstVariable("{{}}", Atoms(rest));
  }

  lemma {:induction false} FirstVariable(text: string, rest: seq<Atom>)
    ensures Variables([Variable(text)] + rest) == [text] + Variables(rest)
  {
    assert ([Variable(text)] + rest)[1..] == rest;
  }

  lemma {:induction false} OneVariable(rest: string)
    ensures Atoms("{{}}" + rest) == [Variable("{{}}")] + Atoms(rest)
  {
    var s := "{{}}" + rest;
    assert s[..4] == "{{}}" && s[4..] == rest && s[2..] == "}}" + rest;
    assert VariableLength(s) == Some(4);
    hide VariableLength;
  }

  /** Of 6,400 variables the last does not come back. */
  lemma {:induction false} TooManyVariables(n: nat)
    ensures Whole(PartsOf(Nameless(n)))
    ensures Spell(Marked(PartsOf(Nameless(n)))) == Nameless(n) <==> n < 6400
  {
    hide Nameless, Variables, Atoms, Spell, Marked, PartsOf;
    NamelessVariables(n);
    Lossless(Nameless(n));
  }

  // ---- No variable is split ----

  lemma {:induction false} NamePrefix(x: string, y: string)
    ensures NameLength(x) < |x| || NameLength(x + y) < |x| ==> NameLength(x + y) == NameLength(x)
  {
    if x == "" {
    } else {
      assert (x + y)[1..] == x[1..] + y;
      NamePrefix(x[1..], y);
    }
  }

  /** A variable that ends within the front of a text is one of the front, and the other way round. */
  lemma {:induction false} VariablePrefix(x: string, y: string)
    ensures VariableLength(x).Some? ==> VariableLength(x + y) == VariableLength(x)
    ensures VariableLength(x + y).Some? && VariableLength(x + y).value <= |x|
        ==> VariableLength(x) == VariableLength(x + y)
  {
    var s := x + y;
    if |x| >= 2 {
      NamePrefix(x[2..], y);
      assert s[2..] == x[2..] + y;
      assert s[..2] == x[..2];
      var n := NameLength(x[2..]);
      var m := NameLength(s[2..]);
      hide NameLength;
      if n + 4 <= |x| {
        assert s[2 + n..][..2] == x[2 + n..][..2];
      }
    }
  }

  /** These are the atoms of the text they make. */
  predicate Canonical(atoms: seq<Atom>) {
    Atoms(Flat(atoms)) == atoms
  }

  lemma {:induction false} CanonicalRest(atoms: seq<Atom>)
    requires Canonical(atoms) && atoms != []
    ensures Canonical(atoms[1..])
    ensures atoms[0].Variable? ==> VariableLength(Flat(atoms)) == Some(|atoms[0].text|)
    ensures atoms[0].Plain? ==> VariableLength(Flat(atoms)) == None
  {
    var s := Flat(atoms);
    var n := VariableLength(s);
    hide VariableLength;
    if n.Some? {
      assert Atoms(s)[0] == Variable(s[..n.value]);
      assert Atoms(s)[1..] == Atoms(s[n.value..]);
      assert s[n.value..] == Flat(atoms[1..]);
    } else {
      assert Atoms(s)[0] == Plain(s[0]);
      assert Atoms(s)[1..] == Atoms(s[1..]);
      assert s[1..] == Flat(atoms[1..]);
    }
  }

  lemma {:induction false} FlatConcat(a: seq<Atom>, b: seq<Atom>)
    ensures Flat(a + b) == Flat(a) + Flat(b)
  {
    if a == [] {
      assert a + b == b;
    } else {
      assert (a + b)[1..] == a[1..] + b;
      FlatConcat(a[1..], b);
    }
  }

  lemma {:induction false} CanonicalFirst(first: Atom, rest: seq<Atom>)
    requires Canonical(rest)
    requires VariableLength(AtomText(first) + Flat(rest)) == if first.Variable? then Some(|first.text|) else None
    ensures Canonical([first] + rest)
  {
    var s := AtomText(first) + Flat(rest);
    hide VariableLength;
    FlatFirst(first, rest);
    if first.Variable? {
      assert s[..|first.text|] == first.text && s[|first.text|..] == Flat(rest);
    } else {
      assert s[0] == first.c && s[1..] == Flat(rest);
    }
  }

  lemma {:induction false} CanonicalFront(atoms: seq<Atom>, m: nat)
    requires Canonical(atoms) && m <= |atoms|
    ensures Canonical(atoms[..m])
    decreases m
  {
    hide VariableLength, Canonical, AtomText;
    var front := atoms[..m];
    if m == 0 {
      assert Canonical([]) by {
        NothingCanonical();
      }
      assert front == [];
    } else {
      var first, rest, after := atoms[0], atoms[1..][..m - 1], atoms[m..];
      CanonicalRest(atoms);
      CanonicalFront(atoms[1..], m - 1);
      assert front == [first] + rest && atoms == front + after;
      FlatConcat(front, after);
      FlatFirst(first, rest);
      VariablePrefix(Flat(front), Flat(after));
      hide Flat;
      AtomTextLength(first);
      CanonicalFirst(first, rest);
    }
  }

  lemma {:induction false} NothingCanonical()
    ensures Canonical([])
  {
  }

  lemma {:induction false} AtomTextLength(atom: Atom)
    ensures atom.Variable? ==> |AtomText(atom)| == |atom.text|
  {
  }

  lemma {:induction false} VariablesConcat(a: seq<Atom>, b: seq<Atom>)
    ensures Variables(a + b) == Variables(a) + Variables(b)
  {
    if a == [] {
      assert a + b == b;
    } else {
      assert (a + b)[1..] == a[1..] + b;
      VariablesConcat(a[1..], b);
    }
  }

  /** A mark in the text with its variables held is a character of the address, outside every variable. */
  lemma {:induction false} MarkIsPlain(atoms: seq<Atom>, k: nat, x: string, mark: char, y: string) returns (m: nat)
    requires mark < '\U{80}' && k + |Variables(atoms)| <= MOST
    requires x + [mark] + y == Held(atoms, k)
    ensures m < |atoms| && Parted(atoms, k, x, mark, y, m)
    decreases |atoms|
  {
    HeldNothing(k);
    assert (x + [mark] + y)[|x|] == mark;
    assert atoms != [];
    HeldFirst(atoms, k);
    var rest := atoms[1..];
    hide Held, Variables, Parted;
    if atoms[0].Variable? {
      IndexIsNoMark(k);
      hide IndexChar;
      TwoParted([HOLD, IndexChar(k)], Held(rest, k + 1), x, mark, y);
      var j := MarkIsPlain(rest, k + 1, x[2..], mark, y);
      m := j + 1;
      PartedLater(atoms, k, x, mark, y, j);
    } else if x == "" {
      m := 0;
      PartedHere(atoms, k, mark, y);
    } else {
      hide IndexChar;
      OneParted(atoms[0].c, Held(rest, k), x, mark, y);
      var j := MarkIsPlain(rest, k, x[1..], mark, y);
      m := j + 1;
      PartedLater(atoms, k, x, mark, y, j);
    }
  }

  /** The mark is the m-th atom, and the texts around it are those of the atoms around it. */
  predicate Parted(atoms: seq<Atom>, k: nat, x: string, mark: char, y: string, m: nat)
    requires m < |atoms|
  {
    atoms[m] == Plain(mark) && x == Held(atoms[..m], k) && y == Held(atoms[m + 1..], k + |Variables(atoms[..m])|)
  }

  lemma {:induction false} HeldNothing(k: nat)
    ensures Held([], k) == "" && Variables([]) == []
  {
  }

  lemma {:induction false} IndexIsNoMark(k: nat)
    ensures k < MOST ==> IndexChar(k) >= '\U{80}'
    ensures HOLD >= '\U{80}'
  {
  }

  lemma {:induction false} PartedHere(atoms: seq<Atom>, k: nat, mark: char, y: string)
    requires atoms != [] && atoms[0].Plain? && [mark] + y == [atoms[0].c] + Held(atoms[1..], k)
    ensures Parted(atoms, k, "", mark, y, 0)
  {
    HeldNothing(k);
    assert atoms[..0] == [];
    hide Held, Variables;
    FirstIsSame(mark, y, atoms[0].c, Held(atoms[1..], k));
  }

  lemma {:induction false} FirstIsSame(c: char, x: string, d: char, y: string)
    requires [c] + x == [d] + y
    ensures c == d && x == y
  {
    assert ([c] + x)[0] == c && ([d] + y)[0] == d;
    assert ([c] + x)[1..] == x && ([d] + y)[1..] == y;
  }

  lemma {:induction false} PartedLater(atoms: seq<Atom>, k: nat, x: string, mark: char, y: string, j: nat)
    requires j + 1 < |atoms|
    requires atoms[0].Variable? ==>
      |x| >= 2 && x == [HOLD, IndexChar(k)] + x[2..] && Parted(atoms[1..], k + 1, x[2..], mark, y, j)
    requires atoms[0].Plain? ==> x != "" && x == [atoms[0].c] + x[1..] && Parted(atoms[1..], k, x[1..], mark, y, j)
    ensures Parted(atoms, k, x, mark, y, j + 1)
  {
    var front := atoms[..j + 1];
    HeldFirst(front, k);
    hide Held, Variables, IndexChar;
    assert front[1..] == atoms[1..][..j] && atoms[j + 2..] == atoms[1..][j + 1..];
  }

  lemma {:induction false} HeldFirst(atoms: seq<Atom>, k: nat)
    requires atoms != []
    ensures Held(atoms, k)
         == if atoms[0].Variable? then [HOLD, IndexChar(k)] + Held(atoms[1..], k + 1)
            else [atoms[0].c] + Held(atoms[1..], k)
    ensures |Variables(atoms)| == |Variables(atoms[1..])| + if atoms[0].Variable? then 1 else 0
  {
    hide IndexChar;
  }

  lemma {:induction false} TwoParted(front: string, rest: string, x: string, mark: char, y: string)
    requires |front| == 2 && front[0] != mark && front[1] != mark && front + rest == x + [mark] + y
    ensures |x| >= 2 && x == front + x[2..] && rest == x[2..] + [mark] + y
  {
    var s := front + rest;
    assert s[|x|] == mark && s[0] == front[0] && s[1] == front[1];
    assert s[2..] == rest && s[..2] == front;
  }

  lemma {:induction false} OneParted(c: char, rest: string, x: string, mark: char, y: string)
    requires x != "" && [c] + rest == x + [mark] + y
    ensures x == [c] + x[1..] && rest == x[1..] + [mark] + y
  {
    var s := [c] + rest;
    assert s[0] == c && s[0] == x[0] && s[1..] == rest;
  }

  function VariablesOf(text: string): seq<string> {
    Variables(Atoms(text))
  }

  /** The variables of each text of a line, in order. */
  function RestVariables(rest: seq<(char, string)>): seq<string> {
    if rest == [] then [] else VariablesOf(rest[0].1) + RestVariables(rest[1..])
  }

  function LineVariables(line: Line): seq<string> {
    VariablesOf(line.first) + RestVariables(line.rest)
  }

  lemma {:induction false} HoldsParted(held: seq<string>, k: nat, atoms: seq<Atom>, m: nat)
    requires Holds(held, k, atoms) && m < |atoms| && atoms[m].Plain?
    ensures var front, after := atoms[..m], atoms[m + 1..];
            && Variables(atoms) == Variables(front) + Variables(after)
            && Holds(held, k, front)
            && Holds(held, k + |Variables(front)|, after)
  {
    var front, after := atoms[..m], atoms[m + 1..];
    assert atoms[m..][1..] == after && Variables(atoms[m..]) == Variables(after);
    VariablesConcat(front, atoms[m..]);
    assert atoms == front + atoms[m..];
    hide Variables;
    var i, n := |Variables(front)|, |Variables(atoms)|;
    assert held[k..k + n][..i] == held[k..k + i];
    assert held[k..k + n][i..] == held[k + i..k + n];
  }

  lemma {:induction false} FirstPart(first: string, atoms: seq<Atom>, k: nat, held: seq<string>)
    requires Canonical(atoms) && Holds(held, k, atoms) && first == Held(atoms, k)
    ensures VariablesOf(Restored(first, held)) == Variables(atoms)
  {
    hide Restored, Holds, Held, Variables, VariableLength;
    RestoredHeld(atoms, k, held);
  }

  lemma {:induction false} NextPart(line: Line, held: seq<string>)
    requires line.rest != []
    ensures LineVariables(BackLine(line, held))
         == VariablesOf(Restored(line.first, held))
          + LineVariables(BackLine(Tail(line), held))
  {
    hide Restored, VariablesOf;
    assert BackRest(line.rest, held)[1..] == BackRest(line.rest[1..], held);
  }

  lemma {:induction false} LastPart(line: Line, atoms: seq<Atom>, k: nat, held: seq<string>)
    requires line.rest == [] && Canonical(atoms) && Holds(held, k, atoms) && Spell(line) == Held(atoms, k)
    ensures LineVariables(BackLine(line, held)) == Variables(atoms)
  {
    hide Restored, VariablesOf, Canonical, Holds, Held, Variables;
    assert line.first + "" == line.first;
    FirstPart(line.first, atoms, k, held);
    assert Variables(atoms) + [] == Variables(atoms);
  }

  lemma {:induction false} PartsKeepVariables(line: Line, atoms: seq<Atom>, k: nat, held: seq<string>)
    requires AsciiMarks(line.rest) && Canonical(atoms) && Holds(held, k, atoms)
    requires Spell(line) == Held(atoms, k)
    ensures LineVariables(BackLine(line, held)) == Variables(atoms)
    decreases |line.rest|
  {
    hide Restored, VariablesOf, Canonical, Holds, Held, Variables, Spell, LineVariables, BackLine, AsciiMarks;
    if line.rest == [] {
      LastPart(line, atoms, k, held);
    } else {
      var front, after := CutAtoms(line, atoms, k, held);
      FirstPart(line.first, front, k, held);
      PartsKeepVariables(Tail(line), after, k + |Variables(front)|, held);
      NextPart(line, held);
    }
  }

  /** The line after its first text and mark. */
  function Tail(line: Line): Line
    requires line.rest != []
  {
    Line(line.rest[0].1, line.rest[1..])
  }

  /** The atoms of a line's first text, and those of the rest of it. */
  lemma {:induction false} CutAtoms(line: Line, atoms: seq<Atom>, k: nat, held: seq<string>)
    returns (front: seq<Atom>, after: seq<Atom>)
    requires line.rest != [] && AsciiMarks(line.rest) && Canonical(atoms) && Holds(held, k, atoms)
    requires Spell(line) == Held(atoms, k)
    ensures AsciiMarks(Tail(line).rest) && Variables(atoms) == Variables(front) + Variables(after)
    ensures Canonical(front) && Holds(held, k, front) && line.first == Held(front, k)
    ensures Canonical(after) && Holds(held, k + |Variables(front)|, after)
    ensures Spell(Tail(line)) == Held(after, k + |Variables(front)|)
  {
    hide Canonical, Holds, Held, Variables, Spell, AsciiMarks, Parted, Tail;
    MarksOfTail(line);
    var m := CutAt(line, atoms, k, held);
    front, after := atoms[..m], atoms[m + 1..];
    PartedIs(atoms, k, line.first, line.rest[0].0, Spell(Tail(line)), m);
    HoldsParted(held, k, atoms, m);
    CanonicalFront(atoms, m);
    CanonicalAfter(atoms, m + 1);
  }

  lemma {:induction false} CutAt(line: Line, atoms: seq<Atom>, k: nat, held: seq<string>) returns (m: nat)
    requires line.rest != [] && AsciiMarks(line.rest) && Holds(held, k, atoms) && Spell(line) == Held(atoms, k)
    ensures m < |atoms| && Parted(atoms, k, line.first, line.rest[0].0, Spell(Tail(line)), m)
  {
    var mark := line.rest[0].0;
    assert k + |Variables(atoms)| <= MOST && mark < '\U{80}';
    hide Holds, Held, Variables, Spell, AsciiMarks, Parted, Tail;
    SpellTail(line);
    m := MarkIsPlain(atoms, k, line.first, mark, Spell(Tail(line)));
  }

  lemma {:induction false} PartedIs(atoms: seq<Atom>, k: nat, x: string, mark: char, y: string, m: nat)
    requires m < |atoms| && Parted(atoms, k, x, mark, y, m)
    ensures atoms[m].Plain? && x == Held(atoms[..m], k) && y == Held(atoms[m + 1..], k + |Variables(atoms[..m])|)
  {
    hide Held, Variables;
  }

  lemma {:induction false} SpellTail(line: Line)
    requires line.rest != []
    ensures Spell(line) == line.first + [line.rest[0].0] + Spell(Tail(line))
  {
  }

  lemma {:induction false} MarksOfTail(line: Line)
    requires line.rest != [] && AsciiMarks(line.rest)
    ensures AsciiMarks(Tail(line).rest)
  {
  }

  lemma {:induction false} CanonicalAfter(atoms: seq<Atom>, m: nat)
    requires Canonical(atoms) && m <= |atoms|
    ensures Canonical(atoms[m..])
    decreases m
  {
    if m == 0 {
      assert atoms[0..] == atoms;
    } else {
      CanonicalRest(atoms);
      CanonicalAfter(atoms[1..], m - 1);
      assert atoms[1..][m - 1..] == atoms[m..];
    }
  }

  lemma {:induction false} RestoredPlain(s: string, held: seq<string>)
    requires HOLD !in s
    ensures Restored(s, held) == s
    decreases |s|
  {
    if s != "" {
      RestoredPlain(s[1..], held);
    }
  }

  lemma {:induction false} UnheldLine(line: Line, held: seq<string>)
    requires HOLD !in Spell(line)
    ensures BackLine(line, held) == line
    decreases |line.rest|
  {
    assert forall c :: c in line.first ==> c in Spell(line);
    RestoredPlain(line.first, held);
    hide Restored;
    if line.rest != [] {
      var tail := Line(line.rest[0].1, line.rest[1..]);
      assert Spell(line) == line.first + [line.rest[0].0] + Spell(tail);
      UnheldLine(tail, held);
      assert BackRest(line.rest, held) == [line.rest[0]] + line.rest[1..];
    }
  }

  lemma {:induction false} HeldPartsKeep(p: Parts, atoms: seq<Atom>, held: seq<string>)
    requires Whole(p) && held != [] && Canonical(atoms) && Holds(held, 0, atoms)
    requires Spell(Marked(p)) == Held(atoms, 0)
    ensures Whole(BackParts(p, held)) && LineVariables(Marked(BackParts(p, held))) == Variables(atoms)
  {
    hide Whole, Canonical, Holds, Spell, Marked, LineVariables, BackLine, BackParts, Held, Variables, AsciiMarks;
    BackMarked(p, held);
    PartsKeepVariables(Marked(p), atoms, 0, held);
  }

  lemma {:induction false} UnheldPartsKeep(p: Parts, atoms: seq<Atom>)
    requires Whole(p) && Canonical(atoms) && NoHold(atoms) && Variables(atoms) == []
    requires Spell(Marked(p)) == Held(atoms, 0) && HOLD !in Spell(Marked(p))
    ensures Whole(BackParts(p, [])) && LineVariables(Marked(BackParts(p, []))) == []
  {
    assert Holds([""], 0, atoms);
    hide Whole, Canonical, Holds, Spell, Marked, LineVariables, BackLine, BackParts, Held, Variables, AsciiMarks;
    NothingBack(p);
    BackMarked(p, [""]);
    HeldPartsKeep(p, atoms, [""]);
    UnheldLine(Marked(p), [""]);
  }

  /**
   * The variables found in the parts, one part after the other, are those of the address: none is split between two.
   */
  lemma {:induction false} NoVariableIsSplit(raw: string)
    requires HOLD !in raw && |VariablesOf(raw)| <= MOST
    ensures Whole(PartsOf(raw)) && LineVariables(Marked(PartsOf(raw))) == VariablesOf(raw)
  {
    var atoms := Atoms(raw);
    var held := Variables(atoms);
    var p := CutParts(Held(atoms, 0));
    assert PartsOf(raw) == BackParts(p, held);
    FlatAtoms(raw);
    AtomsNoHold(raw);
    assert held[0..] == held;
    assert Canonical(atoms) && (held != [] ==> Holds(held, 0, atoms));
    assert VariablesOf(raw) == held;
    hide PartsOf, CutParts, BackParts, Whole, Canonical, Holds, Spell, Marked, LineVariables, Held, Variables, Atoms;
    CutIsLossless(Held(atoms, 0));
    if held == [] {
      NothingHeld(atoms, 0);
      UnheldPartsKeep(p, atoms);
    } else {
      HeldPartsKeep(p, atoms, held);
    }
  }
}
