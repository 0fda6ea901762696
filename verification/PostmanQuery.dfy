/** The query of an exported address: the one in its text, and in their places the Params rows that are switched off. */
module PostmanQuery {
  import opened Address
  import opened Basics

  datatype Row = Row(key: string, value: string, enabled: bool)

  datatype Entry = Sent(pair: Pair) | Disabled(key: string, value: string)

  /** Postman's `url`: the text, its parts but for the query, and the query, which an empty one leaves out. */
  datatype Url = Url(raw: string, parts: Parts, query: seq<Entry>)

  function AllSent(pairs: seq<Pair>): seq<Entry> {
    if pairs == [] then [] else [Sent(pairs[0])] + AllSent(pairs[1..])
  }

  /**
   * The Params rows against the pairs of the text: each row that is switched on takes the next pair, if there is one.
   */
  function Merged(sent: seq<Pair>, rows: seq<Row>): seq<Entry>
    decreases |rows|
  {
    if rows == [] then AllSent(sent)
    else if !rows[0].enabled then [Disabled(rows[0].key, rows[0].value)] + Merged(sent, rows[1..])
    else if sent == [] then Merged([], rows[1..])
    else [Sent(sent[0])] + Merged(sent[1..], rows[1..])
  }

  function SentPairs(raw: string): seq<Pair> {
    var query := PartsOf(raw).query;
    if query.None? then [] else query.value
  }

  method WriteUrl(raw: string, params: seq<Row>) returns (url: Url)
    ensures url == Url(raw, PartsOf(raw).(query := None), Merged(SentPairs(raw), params))
  {
    hide PartsOf;
    var parts := AddressParts(raw);
    var sent := if parts.query.None? then [] else parts.query.value;
    var query: seq<Entry> := [];
    assert params[0..] == params;
    assert [] + Merged(sent, params) == Merged(sent, params);
    for i := 0 to |params|
      invariant query + Merged(sent, params[i..]) == Merged(SentPairs(raw), params)
    {
      var row := params[i];
      ghost var rows := params[i..];
      assert rows[0] == row && rows[1..] == params[i + 1..];
      if !row.enabled {
        AppendOne(query, Disabled(row.key, row.value), Merged(sent, rows[1..]));
        query := query + [Disabled(row.key, row.value)];
      } else if sent != [] {
        AppendOne(query, Sent(sent[0]), Merged(sent[1..], rows[1..]));
        query, sent := query + [Sent(sent[0])], sent[1..];
      }
    }
    assert params[|params|..] == [];
    var all := SendAll(sent);
    query := query + all;
    url := Url(raw, parts.(query := None), query);
  }

  method SendAll(pairs: seq<Pair>) returns (entries: seq<Entry>)
    ensures entries == AllSent(pairs)
  {
    entries := [];
    assert pairs[0..] == pairs && [] + AllSent(pairs) == AllSent(pairs);
    for i := 0 to |pairs|
      invariant entries + AllSent(pairs[i..]) == AllSent(pairs)
    {
      assert pairs[i..][1..] == pairs[i + 1..];
      AppendOne(entries, Sent(pairs[i]), AllSent(pairs[i + 1..]));
      entries := entries + [Sent(pairs[i])];
    }
    assert entries + [] == entries;
  }

  lemma {:induction false} AppendOne<T>(before: seq<T>, x: T, after: seq<T>)
    ensures before + ([x] + after) == (before + [x]) + after
  {
  }

  // ---- What is sent, and what is not ----

  function SentOf(query: seq<Entry>): seq<Pair> {
    if query == [] then []
    else if query[0].Sent? then [query[0].pair] + SentOf(query[1..])
    else SentOf(query[1..])
  }

  function DisabledOf(query: seq<Entry>): seq<Entry> {
    if query == [] then []
    else if query[0].Disabled? then [query[0]] + DisabledOf(query[1..])
    else DisabledOf(query[1..])
  }

  function SwitchedOff(rows: seq<Row>): seq<Entry> {
    if rows == [] then []
    else if !rows[0].enabled then [Disabled(rows[0].key, rows[0].value)] + SwitchedOff(rows[1..])
    else SwitchedOff(rows[1..])
  }

  function EnabledCount(rows: seq<Row>): nat {
    if rows == [] then 0 else (if rows[0].enabled then 1 else 0) + EnabledCount(rows[1..])
  }

  lemma {:induction false} AllAreSent(pairs: seq<Pair>)
    ensures SentOf(AllSent(pairs)) == pairs && DisabledOf(AllSent(pairs)) == []
  {
    if pairs != [] {
      AllAreSent(pairs[1..]);
      assert AllSent(pairs)[1..] == AllSent(pairs[1..]);
    }
  }

  lemma {:induction false} MergedKeepsBoth(sent: seq<Pair>, rows: seq<Row>)
    ensures SentOf(Merged(sent, rows)) == sent && DisabledOf(Merged(sent, rows)) == SwitchedOff(rows)
    decreases |rows|
  {
    var query := Merged(sent, rows);
    if rows == [] {
      AllAreSent(sent);
    } else if !rows[0].enabled {
      MergedKeepsBoth(sent, rows[1..]);
      assert query[1..] == Merged(sent, rows[1..]);
    } else if sent == [] {
      MergedKeepsBoth([], rows[1..]);
    } else {
      MergedKeepsBoth(sent[1..], rows[1..]);
      assert query[1..] == Merged(sent[1..], rows[1..]);
    }
  }

  /**
   * The entries that are not disabled are the query of the address, in order; the disabled ones are the rows switched
   * off.
   */
  lemma {:induction false} SentQueryIsKept(raw: string, params: seq<Row>)
    ensures var query := Merged(SentPairs(raw), params);
            && SentOf(query) == (match PartsOf(raw).query case None => [] case Some(pairs) => pairs)
            && DisabledOf(query) == SwitchedOff(params)
  {
    hide PartsOf;
    MergedKeepsBoth(SentPairs(raw), params);
  }

  function Min(a: nat, b: nat): (m: nat)
    ensures m <= a && m <= b
  {
    if a < b then a else b
  }

  /** The place in the query of the k-th row. */
  function PlaceOf(sent: seq<Pair>, rows: seq<Row>, k: nat): nat
    requires k <= |rows|
  {
    |SwitchedOff(rows[..k])| + Min(EnabledCount(rows[..k]), |sent|)
  }

  /** The pairs that are left after the first row. */
  function AfterFirst(sent: seq<Pair>, rows: seq<Row>): seq<Pair>
    requires rows != []
  {
    if rows[0].enabled && sent != [] then sent[1..] else sent
  }

  lemma {:induction false} PlaceOfRest(sent: seq<Pair>, rows: seq<Row>, k: nat)
    requires 0 < k <= |rows|
    ensures PlaceOf(sent, rows, k)
         == PlaceOf(AfterFirst(sent, rows), rows[1..], k - 1) + (if rows[0].enabled && sent == [] then 0 else 1)
  {
    assert rows[..k][1..] == rows[1..][..k - 1];
  }

  /**
   * A switched-off row stands after the switched-off rows before it and after as many of the sent pairs as there are
   * switched-on rows before it, or after all of them when there are fewer.
   */
  lemma {:induction false} DisabledStandsInPlace(sent: seq<Pair>, rows: seq<Row>, k: nat)
    requires k < |rows| && !rows[k].enabled
    ensures var query, at := Merged(sent, rows), PlaceOf(sent, rows, k);
            && at < |query| && query[at] == Disabled(rows[k].key, rows[k].value)
            && SentOf(query[..at]) == sent[..Min(EnabledCount(rows[..k]), |sent|)]
            && DisabledOf(query[..at]) == SwitchedOff(rows[..k])
  {
    IsInPlace(sent, rows, k);
  }

  /** The same as a relation of the query, the place and what comes before it. */
  predicate InPlace(query: seq<Entry>, at: nat, row: Row, sent: seq<Pair>, off: seq<Entry>) {
    && at < |query| && query[at] == Disabled(row.key, row.value)
    && SentOf(query[..at]) == sent && DisabledOf(query[..at]) == off
  }

  lemma {:induction false} IsInPlace(sent: seq<Pair>, rows: seq<Row>, k: nat)
    requires k < |rows| && !rows[k].enabled
    ensures InPlace(Merged(sent, rows), PlaceOf(sent, rows, k), rows[k], sent[..Min(EnabledCount(rows[..k]), |sent|)],
              SwitchedOff(rows[..k]))
    decreases |rows|
  {
    FirstMerged(sent, rows);
    if k == 0 {
      assert rows[..k] == [] && Merged(sent, rows)[..0] == [];
    } else {
      var (rest, later) := (AfterFirst(sent, rows), rows[1..]);
      PlaceOfRest(sent, rows, k);
      RowsBefore(rows, k);
      hide PlaceOf, Merged, SwitchedOff, EnabledCount, InPlace, Min;
      var n := EnabledCount(later[..k - 1]);
      IsInPlace(rest, later, k - 1);
      var (query, at, off) := (Merged(rest, later), PlaceOf(rest, later, k - 1), SwitchedOff(later[..k - 1]));
      if !rows[0].enabled {
        OneBefore(Disabled(rows[0].key, rows[0].value), query, at, rows[k], sent[..Min(n, |sent|)], off);
      } else if sent != [] {
        FirstSent(sent, n);
        OneBefore(Sent(sent[0]), query, at, rows[k], rest[..Min(n, |rest|)], off);
      } else {
        NoneSent(n);
      }
    }
  }

  lemma {:induction false} NoneSent(n: nat)
    ensures Min(n, 0) == 0 && Min(n + 1, 0) == 0
  {
  }

  lemma {:induction false} OneBefore(entry: Entry, query: seq<Entry>, at: nat, row: Row, sent: seq<Pair>,
    off: seq<Entry>)
    requires InPlace(query, at, row, sent, off)
    ensures InPlace([entry] + query, at + 1, row, if entry.Sent? then [entry.pair] + sent else sent,
              if entry.Disabled? then [entry] + off else off)
  {
    FrontOfQuery(entry, query, at + 1);
    hide SentOf, DisabledOf;
  }

  lemma {:induction false} FirstMerged(sent: seq<Pair>, rows: seq<Row>)
    requires rows != []
    ensures var later := Merged(AfterFirst(sent, rows), rows[1..]);
            Merged(sent, rows)
            == if !rows[0].enabled then [Disabled(rows[0].key, rows[0].value)] + later
               else if sent == [] then later
               else [Sent(sent[0])] + later
  {
  }

  /** What the rows before the k-th come to is what the first and those after it come to. */
  lemma {:induction false} RowsBefore(rows: seq<Row>, k: nat)
    requires 0 < k < |rows|
    ensures var before := rows[1..][..k - 1];
            && rows[1..][k - 1] == rows[k]
            && EnabledCount(rows[..k]) == (if rows[0].enabled then 1 else 0) + EnabledCount(before)
            && SwitchedOff(rows[..k])
               == if rows[0].enabled then SwitchedOff(before)
                  else [Disabled(rows[0].key, rows[0].value)] + SwitchedOff(before)
  {
    assert rows[..k][1..] == rows[1..][..k - 1];
  }

  lemma {:induction false} FrontOfQuery(entry: Entry, rest: seq<Entry>, at: nat)
    requires 0 < at <= |rest| + 1
    ensures SentOf(([entry] + rest)[..at])
         == if entry.Sent? then [entry.pair] + SentOf(rest[..at - 1]) else SentOf(rest[..at - 1])
    ensures DisabledOf(([entry] + rest)[..at])
         == if entry.Disabled? then [entry] + DisabledOf(rest[..at - 1]) else DisabledOf(rest[..at - 1])
  {
    assert ([entry] + rest)[..at] == [entry] + rest[..at - 1];
    assert ([entry] + rest)[..at][1..] == rest[..at - 1];
  }

  lemma {:induction false} FirstSent(sent: seq<Pair>, n: nat)
    requires sent != []
    ensures sent[..Min(1 + n, |sent|)] == [sent[0]] + sent[1..][..Min(n, |sent| - 1)]
  {
  }
}
