/** A cURL command comes to what its options say, and to nothing else: the request, the login and every warning. */
module CurlOutcome {
  import opened Basics
  import opened CurlHearing
  import opened CurlOptions
  import opened CurlReader
  import opened CurlSayings
  import opened ExportRequests
  import opened FormUrlencoded
  import opened ShellLexer
  import opened Text

  // ---- The reading of all that is said ----

  /** Each field of a reading is what was said of it. */
  predicate Holds(st: Reading, all: seq<Saying>) {
    && st.verb == MethodSaid(all)
    && st.headers == HeadersSaid(all) && st.data == DataSaid(all) && st.parts == PartsSaid(all)
    && st.urls == UrlsSaid(all) && st.basic == UserSaid(all) && st.warnings == WarningsSaid(all)
    && (st.get <==> AsQuery in all) && (st.head <==> AsHead in all) && (st.binaryOnly <==> IsAllBinary(all))
  }

  lemma {:induction false} SaidOneMore(all: seq<Saying>, s: Saying)
    ensures var more := all + [s];
            && HeadersSaid(more) == HeadersSaid(all) + HeadersOf(s) && DataSaid(more) == DataSaid(all) + DataOf(s)
            && PartsSaid(more) == PartsSaid(all) + PartsOf(s) && UrlsSaid(more) == UrlsSaid(all) + UrlsOf(s)
            && WarningsSaid(more) == WarningsSaid(all) + WarningsOf(s)
  {
    var more := all + [s];
    assert more[..|more| - 1] == all && more[|more| - 1] == s;
    hide DataOf, HeadersOf, PartsOf, WarningsOf, UrlsOf;
  }

  lemma {:induction false} LastSaid(all: seq<Saying>, s: Saying)
    ensures var more := all + [s];
            && MethodSaid(more) == (if s.WithMethod? then Some(Upper(s.text)) else MethodSaid(all))
            && UserSaid(more)
               == (if s.AsUser? then Some(Basic(s.name, ""))
                   else if s.AsUserWith? then Some(Basic(s.name, s.password))
                   else UserSaid(all))
  {
    var more := all + [s];
    assert more[..|more| - 1] == all && more[|more| - 1] == s;
    hide Upper;
  }

  lemma {:induction false} BinaryOneMore(all: seq<Saying>, s: Saying)
    ensures IsAllBinary(all + [s]) <==> IsAllBinary(all) && (DataOf(s) == [] || s.WithBinary? || s.WithBinaryFile?)
  {
    var more := all + [s];
    assert more[|all|] == s && forall k :: 0 <= k < |all| ==> more[k] == all[k];
    hide DataOf;
  }

  lemma {:induction false} HoldsOneMore(st: Reading, all: seq<Saying>, s: Saying)
    requires Holds(st, all)
    ensures Holds(Heard(st, s), all + [s])
  {
    SaidOneMore(all, s);
    LastSaid(all, s);
    BinaryOneMore(all, s);
    hide DataOf, HeadersOf, PartsOf, WarningsOf, UrlsOf, IsAllBinary, Upper, DataSaid, PartsSaid, HeadersSaid, UrlsSaid,
      WarningsSaid, MethodSaid, UserSaid;
  }

  lemma {:induction false} HeardLast(before: seq<Saying>, last: Saying)
    ensures HeardAll(Nothing, before + [last]) == Heard(HeardAll(Nothing, before), last)
  {
    hide Heard, HeardAll;
    HeardMore(Nothing, before, [last]);
    HeardOne(HeardAll(Nothing, before), last);
  }

  lemma {:induction false} AllIsHeard(all: seq<Saying>)
    ensures Holds(HeardAll(Nothing, all), all)
  {
    if all != [] {
      hide Heard, HeardAll, Holds;
      var (before, last) := (all[..|all| - 1], all[|all| - 1]);
      assert all == before + [last];
      AllIsHeard(before);
      HeardLast(before, last);
      HoldsOneMore(HeardAll(Nothing, before), before, last);
    }
  }

  // ---- The data ----

  lemma {:induction false} WireOneMore(data: seq<Datum>, last: Datum)
    ensures WireTexts(data + [last]) == WireTexts(data) + if last.Wire? then [last.text] else []
  {
    var more := data + [last];
    if data == [] {
      assert more == [last] && more[1..] == [];
    } else {
      assert more[1..] == data[1..] + [last] && more[0] == data[0];
      WireOneMore(data[1..], last);
    }
  }

  lemma {:induction false} FileOneMore(data: seq<Datum>, last: Datum)
    ensures FileNames(data + [last]) == FileNames(data) + if last.File? then [last.name] else []
  {
    var more := data + [last];
    if data == [] {
      assert more == [last] && more[1..] == [];
    } else {
      assert more[1..] == data[1..] + [last] && more[0] == data[0];
      FileOneMore(data[1..], last);
    }
  }

  lemma {:induction false} TextsAre(data: seq<Datum>)
    ensures WireTexts(data) == Texts(data) && FileNames(data) == Files(data)
  {
    if data != [] {
      var (before, last) := (data[..|data| - 1], data[|data| - 1]);
      TextsAre(before);
      assert data == before + [last];
      WireOneMore(before, last);
      FileOneMore(before, last);
      hide WireTexts, FileNames;
    }
  }

  lemma {:induction false} LastTypeOfMore(before: seq<Header>, last: Header, k: nat)
    ensures IsLastType(before + [last], k) <==>
            if NamesType(last) then k == |before| else IsLastType(before, k)
    ensures HasNoType(before + [last]) <==> HasNoType(before) && !NamesType(last)
  {
    hide NamesType;
    var more := before + [last];
    assert more[|before|] == last && forall i :: 0 <= i < |before| ==> more[i] == before[i];
  }

  /** The type that is looked up is the last that is named. */
  lemma {:induction false} TypeIs(headers: seq<Header>)
    ensures ContentType(headers).None? <==> HasNoType(headers)
    ensures ContentType(headers).Some? ==>
              exists k: nat :: IsLastType(headers, k) && ContentType(headers) == Some(headers[k].1)
  {
    if headers != [] {
      var (before, last) := (headers[..|headers| - 1], headers[|headers| - 1]);
      TypeIs(before);
      assert headers == before + [last];
      hide Lower, IsLastType, HasNoType;
      LastTypeOfMore(before, last, |before|);
      if !NamesType(last) && ContentType(before).Some? {
        var k: nat :| IsLastType(before, k) && ContentType(before) == Some(before[k].1);
        LastTypeOfMore(before, last, k);
      }
    }
  }

  lemma {:induction false} OneLastType(headers: seq<Header>, j: nat, k: nat)
    requires IsLastType(headers, j) && IsLastType(headers, k)
    ensures j == k
  {
    hide NamesType;
  }

  lemma {:induction false} FormIs(headers: seq<Header>)
    ensures IsForm(headers) <==> IsFormType(ContentType(headers).Or(""))
  {
    TypeIs(headers);
    assert forall text :: IsFormName(text) <==> IsFormType(text);
    hide IsFormName, IsFormType, ContentType, HasNoType;
    if ContentType(headers).None? {
      assert IsFormType("") by {
        FormNames();
      }
    } else {
      var k: nat :| IsLastType(headers, k) && ContentType(headers) == Some(headers[k].1);
      forall j: nat | IsLastType(headers, j) ensures j == k {
        OneLastType(headers, j, k);
      }
    }
    hide IsLastType;
  }

  lemma {:induction false} FormNames()
    ensures IsFormType("")
  {
  }

  // ---- The request ----

  lemma {:induction false} OneFileIs(st: Reading, all: seq<Saying>)
    requires Holds(st, all)
    ensures IsOneFile(all) <==> |st.data| == 1 && |FileNames(st.data)| == 1 && st.binaryOnly
    ensures IsOneFile(all) ==> FileNames(st.data) == [st.data[0].name]
  {
    hide IsAllBinary, DataSaid;
    if |st.data| == 1 {
      assert st.data[1..] == [];
      assert FileNames(st.data) == if st.data[0].File? then [st.data[0].name] else [];
    }
  }

  lemma {:induction false} BodyIs(st: Reading, all: seq<Saying>, body: Body)
    requires Holds(st, all)
    ensures IsBody(all, body) <==> body == ReadBody(st)
  {
    OneFileIs(st, all);
    TextsAre(st.data);
    FormIs(st.headers);
    hide IsOneFile, IsForm, IsFormType, ContentType, WireTexts, Texts, FileNames, Files, Join, SearchParams,
      DataSaid, PartsSaid, HeadersSaid, UrlsSaid, WarningsSaid, MethodSaid, UserSaid, IsAllBinary;
  }

  lemma {:induction false} UrlIs(st: Reading, all: seq<Saying>, url: string)
    requires Holds(st, all) && st.urls != []
    ensures IsUrl(all, url) <==> url == ReadUrl(st)
  {
    TextsAre(st.data);
    hide WireTexts, Texts, FileNames, Files, Join, DataSaid, PartsSaid, HeadersSaid, UrlsSaid, WarningsSaid,
      MethodSaid, UserSaid, IsAllBinary;
  }

  lemma {:induction false} DataWarned(st: Reading, all: seq<Saying>)
    requires Holds(st, all)
    ensures DataWarnings(all) == BodyWarnings(st)
  {
    OneFileIs(st, all);
    TextsAre(st.data);
    hide IsOneFile, WireTexts, Texts, FileNames, Files, DataSaid, PartsSaid, HeadersSaid, UrlsSaid, WarningsSaid,
      MethodSaid, UserSaid, IsAllBinary;
  }

  lemma {:induction false} MethodIs(st: Reading, all: seq<Saying>, body: Body, verb: string)
    requires Holds(st, all)
    ensures IsMethod(all, body, verb) <==> verb == ReadVerb(st, body)
  {
    hide MethodSaid, UserSaid, HeadersSaid, DataSaid, PartsSaid, UrlsSaid, WarningsSaid, IsAllBinary;
  }

  lemma {:induction false} WarnedOf(st: Reading, all: seq<Saying>)
    requires Holds(st, all) && st.urls != []
    ensures st.warnings + (if |st.urls| > 1 then [ManyAddresses(st.urls[1..])] else []) + BodyWarnings(st)
         == WarningsSaid(all) + AddressWarnings(UrlsSaid(all)) + DataWarnings(all)
  {
    DataWarned(st, all);
    hide MethodSaid, UserSaid, HeadersSaid, DataSaid, PartsSaid, UrlsSaid, WarningsSaid, IsAllBinary, DataWarnings,
      BodyWarnings;
  }

  /** What is finished of a reading is the outcome of what was said, and no other. */
  lemma {:induction false} FinishIs(st: Reading, all: seq<Saying>, r: Result<Parsed, ImportError>)
    requires Holds(st, all)
    ensures IsOutcome(all, r) <==> r == Finish(st)
  {
    if st.urls != [] {
      forall body ensures IsBody(all, body) <==> body == ReadBody(st) {
        BodyIs(st, all, body);
      }
      forall body, verb ensures IsMethod(all, body, verb) <==> verb == ReadVerb(st, body) {
        MethodIs(st, all, body, verb);
      }
      forall url ensures IsUrl(all, url) <==> url == ReadUrl(st) {
        UrlIs(st, all, url);
      }
      WarnedOf(st, all);
      assert IsBody(all, ReadBody(st));
    }
    hide IsBody, ReadBody, IsUrl, ReadUrl, DataWarnings, BodyWarnings, IsHttpMethod, IsMethod, ReadVerb,
      DataSaid, PartsSaid, HeadersSaid, UrlsSaid, WarningsSaid, MethodSaid, UserSaid, IsAllBinary, AddressWarnings;
  }
}
