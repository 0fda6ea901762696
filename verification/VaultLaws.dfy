/**
 * What a vault gives back after any run of its tabs, from the events of the run alone: which passphrase opens it, and
 * which text each secret decrypts to.
 */
module VaultLaws {
  import opened Basics
  import opened VaultProtocol
  import opened VaultStore
  import opened VaultView

  // ---- What a vault gives back, from the events of its run ----

  /** An event begins what waits under its own job, or leaves what waited there and is not its commit. */
  lemma {:induction false} ThenWaits(v: View, e: Event, at: nat, job: JobId)
    requires job in Then(v, e, at).waiting && (job in v.waiting ==> Belongs(v.waiting[job].event, job))
    ensures var now := Then(v, e, at).waiting[job];
            || (now == Started(at, e) && Belongs(e, job))
            || (job in v.waiting && now == v.waiting[job] && !Commits(now.event, e))
  {
    hide IsTaken, Entered;
  }

  /** What waits was begun by the event at its place, and no later event was its commit. */
  lemma {:induction false} WaitsSince(events: seq<Event>, job: JobId)
    requires job in Seen(events).waiting
    ensures var Started(at, start) := Seen(events).waiting[job];
            && at < |events| && events[at] == start && Belongs(start, job)
            && forall k: nat :: at < k < |events| ==> !Commits(start, events[k])
  {
    var n := |events| - 1;
    var before := Seen(events[..n]);
    if job in before.waiting {
      WaitsSince(events[..n], job);
    }
    ThenWaits(before, events[n], n, job);
    hide Then, Commits, Seen;
  }

  /** The event at `j` commits the operation that the event at `i` began. */
  predicate Ends(events: seq<Event>, i: nat, j: nat) {
    && i < j < |events|
    && IsDue(Seen(events[..j]), events[j]) && Seen(events[..j]).waiting[events[j].job].at == i
  }

  /** The event at `j` commits the passphrase `p`, which the event at `i` asked for; a new vault only where none is. */
  predicate PutsPassphrase(events: seq<Event>, i: nat, j: nat, p: string) {
    && Ends(events, i, j)
    && ((events[i].StartCreate? && events[i].passphrase == p && Seen(events[..j]).passphrase.None?)
        || (events[i].StartChange? && events[i].next == p))
  }

  ghost predicate ChangesPassphrase(events: seq<Event>, j: nat) {
    exists i: nat, p :: PutsPassphrase(events, i, j, p)
  }

  /** No later event of the run puts a passphrase. */
  ghost predicate IsLastPassphrase(events: seq<Event>, i: nat, j: nat, p: string) {
    && j < |events| && PutsPassphrase(events, i, j, p)
    && forall l: nat :: j < l < |events| ==> !ChangesPassphrase(events, l)
  }

  /** A file holds a text for an id: that of its last document of that id. */
  predicate HoldsText(docs: seq<SecretDoc>, id: Id, text: string) {
    exists d ::
      && 0 <= d < |docs| && docs[d].id == id && docs[d].envelope.plaintext == text
      && forall later :: d < later < |docs| ==> docs[later].id != id
  }

  /**
   * The event at `j` commits a text for the secret `id`: the one the event at `i` was given, where a replacement asks
   * that the secret is there, or the one in the file that the event at `i` was given.
   */
  predicate PutsText(events: seq<Event>, i: nat, j: nat, id: Id, text: string) {
    && Ends(events, i, j)
    && ((events[i].StartSave? && events[i].id == id && events[i].plaintext == text)
        || (events[i].StartReplace? && events[i].id == id && events[i].plaintext == text
            && id in Seen(events[..j]).entries)
        || (events[i].StartImport? && HoldsText(events[i].docs, id, text)))
  }

  ghost predicate ChangesText(events: seq<Event>, j: nat, id: Id) {
    || (j < |events| && events[j] == Delete(id))
    || exists i: nat, text :: PutsText(events, i, j, id, text)
  }

  /** No later event of the run puts a text for the secret or deletes it. */
  ghost predicate IsLastText(events: seq<Event>, i: nat, j: nat, id: Id, text: string) {
    && j < |events| && PutsText(events, i, j, id, text)
    && forall l: nat :: j < l < |events| ==> !ChangesText(events, l, id)
  }

  /** What was so of a shorter run at `j` is so of the run. */
  lemma {:induction false} PrefixEnds(events: seq<Event>, n: nat, i: nat, j: nat)
    requires j < n <= |events|
    ensures Ends(events[..n], i, j) <==> Ends(events, i, j)
    ensures events[..n][..j] == events[..j]
    ensures forall p :: PutsPassphrase(events[..n], i, j, p) <==> PutsPassphrase(events, i, j, p)
    ensures forall id, text :: PutsText(events[..n], i, j, id, text) <==> PutsText(events, i, j, id, text)
  {
    assert events[..n][..j] == events[..j];
    if i < j {
      assert events[..n][i] == events[i];
    }
    hide Seen, IsDue, HoldsText;
  }

  /** The operation that the last event commits was begun at its place. */
  lemma {:induction false} LastEnds(events: seq<Event>)
    requires events != [] && IsDue(Seen(events[..|events| - 1]), events[|events| - 1])
    ensures var n := |events| - 1;
            var started := Seen(events[..n]).waiting[events[n].job];
            Ends(events, started.at, n) && events[started.at] == started.event
  {
    var n := |events| - 1;
    WaitsSince(events[..n], events[n].job);
    hide Seen;
  }

  /** The last event puts its passphrase, or leaves the one there was. */
  lemma {:induction false} PassphraseThen(events: seq<Event>)
    requires events != []
    ensures var n := |events| - 1;
            && (forall i: nat, p :: PutsPassphrase(events, i, n, p) ==> Seen(events).passphrase == Some(p))
            && (!ChangesPassphrase(events, n) ==> Seen(events).passphrase == Seen(events[..n]).passphrase)
  {
    var n := |events| - 1;
    var (v, e) := (Seen(events[..n]), events[n]);
    if IsDue(v, e) {
      LastEnds(events);
      var started := v.waiting[e.job];
      assert Seen(events) == AfterCommit(v.(waiting := v.waiting - {e.job}), started.event);
      hide Seen, Entered;
      if started.event.StartCreate? && v.passphrase.None? {
        assert PutsPassphrase(events, started.at, n, started.event.passphrase);
      } else if started.event.StartChange? {
        assert PutsPassphrase(events, started.at, n, started.event.next);
      }
    } else {
      assert Seen(events) == Then(v, e, n);
      hide Seen, IsTaken;
    }
  }

  lemma {:induction false} LastPassphraseBefore(events: seq<Event>, i: nat, j: nat, p: string)
    requires events != [] && !ChangesPassphrase(events, |events| - 1)
    ensures IsLastPassphrase(events, i, j, p) <==> IsLastPassphrase(events[..|events| - 1], i, j, p)
  {
    var n := |events| - 1;
    forall k: nat, l: nat, q | l < n
      ensures PutsPassphrase(events[..n], k, l, q) <==> PutsPassphrase(events, k, l, q)
    {
      PrefixEnds(events, n, k, l);
    }
    hide PutsPassphrase;
    forall l: nat | l < n ensures ChangesPassphrase(events[..n], l) <==> ChangesPassphrase(events, l) {
    }
    assert j == n ==> !PutsPassphrase(events, i, j, p);
    hide ChangesPassphrase;
  }

  /** The passphrase that was put last, by a commit that no later one followed, is the vault's. */
  lemma {:induction false} PassphraseIsLast(events: seq<Event>, p: string)
    ensures Seen(events).passphrase == Some(p) <==> exists i: nat, j: nat :: IsLastPassphrase(events, i, j, p)
  {
    if events != [] {
      var n := |events| - 1;
      PassphraseThen(events);
      hide Seen, PutsPassphrase;
      if ChangesPassphrase(events, n) {
        var i: nat, q :| PutsPassphrase(events, i, n, q);
        assert IsLastPassphrase(events, i, n, q);
        assert forall k: nat, j: nat :: IsLastPassphrase(events, k, j, p) ==> j == n;
      } else {
        PassphraseIsLast(events[..n], p);
        forall i: nat, j: nat
          ensures IsLastPassphrase(events, i, j, p) <==> IsLastPassphrase(events[..n], i, j, p)
        {
          LastPassphraseBefore(events, i, j, p);
        }
        hide IsLastPassphrase, ChangesPassphrase;
      }
    }
  }

  predicate Opens(s: State, p: string) {
    s.stored.record.Some? && Unwrap(s.stored.record.value, p).Some?
  }

  /**
   * After any run, a passphrase opens the stored vault exactly when the last commit that was written put it there: the
   * passphrase a vault was made with, or the one it was changed to. Every other one does not, the earlier ones too.
   */
  lemma {:induction false} OpensWithLastPassphrase(events: seq<Event>, p: string)
    ensures Opens(Run(Empty, events), p) <==> exists i: nat, j: nat :: IsLastPassphrase(events, i, j, p)
  {
    RunIsSeen(events);
    PassphraseIsLast(events, p);
    hide Run, Seen, IsLastPassphrase;
  }

  // ---- The texts of the secrets ----

  function TextOf(v: View, id: Id): Option<string> {
    if id in v.entries then Some(v.entries[id].text) else None
  }

  lemma {:induction false} EnteredHold(entries: map<Id, Entry>, docs: seq<SecretDoc>, id: Id, text: string)
    ensures HoldsText(docs, id, text) ==> id in Entered(entries, docs) && Entered(entries, docs)[id].text == text
  {
    if docs != [] {
      var n := |docs| - 1;
      EnteredHold(entries, docs[..n], id, text);
      if HoldsText(docs, id, text) && docs[n].id != id {
        var d :|
          && 0 <= d < |docs| && docs[d].id == id && docs[d].envelope.plaintext == text
          && forall later :: d < later < |docs| ==> docs[later].id != id;
        assert d < n && docs[..n][d] == docs[d];
        assert HoldsText(docs[..n], id, text);
      }
    }
  }

  /** Where a file holds no text for an id, its entry stays. */
  lemma {:induction false} EnteredLeave(entries: map<Id, Entry>, docs: seq<SecretDoc>, id: Id)
    requires forall text :: !HoldsText(docs, id, text)
    ensures id in Entered(entries, docs) <==> id in entries
    ensures id in entries ==> Entered(entries, docs)[id] == entries[id]
  {
    if docs != [] {
      var n := |docs| - 1;
      if docs[n].id == id {
        assert HoldsText(docs, id, docs[n].envelope.plaintext);
      }
      forall text: string | HoldsText(docs[..n], id, text) ensures HoldsText(docs, id, text) {
        HoldsMore(docs, id, text);
      }
      EnteredLeave(entries, docs[..n], id);
    }
  }

  lemma {:induction false} HoldsMore(docs: seq<SecretDoc>, id: Id, text: string)
    requires docs != [] && docs[|docs| - 1].id != id && HoldsText(docs[..|docs| - 1], id, text)
    ensures HoldsText(docs, id, text)
  {
    var n := |docs| - 1;
    var d :|
      && 0 <= d < n && docs[..n][d].id == id && docs[..n][d].envelope.plaintext == text
      && forall later :: d < later < n ==> docs[..n][later].id != id;
    assert docs[..n][d] == docs[d];
    forall later | d < later < |docs| ensures docs[later].id != id {
      assert later < n ==> docs[..n][later] == docs[later];
    }
  }

  /** The last event puts its text, deletes the secret, or leaves the text there was. */
  lemma {:induction false} TextThen(events: seq<Event>, id: Id)
    requires events != []
    ensures var n := |events| - 1;
            && (forall i: nat, text :: PutsText(events, i, n, id, text) ==> TextOf(Seen(events), id) == Some(text))
            && (events[n] == Delete(id) ==> TextOf(Seen(events), id) == None)
            && (!ChangesText(events, n, id) ==> TextOf(Seen(events), id) == TextOf(Seen(events[..n]), id))
  {
    var n := |events| - 1;
    var (v, e) := (Seen(events[..n]), events[n]);
    if IsDue(v, e) {
      LastEnds(events);
      var started := v.waiting[e.job];
      assert Seen(events) == AfterCommit(v.(waiting := v.waiting - {e.job}), started.event);
      hide Seen;
      TextCommitted(events, id, started.at);
    } else {
      assert Seen(events) == Then(v, e, n);
      hide Seen, IsTaken, HoldsText;
    }
  }

  lemma {:induction false} TextCommitted(events: seq<Event>, id: Id, i: nat)
    requires events != [] && Ends(events, i, |events| - 1)
    ensures var n := |events| - 1;
            var v := Seen(events[..n]);
            var after := AfterCommit(v.(waiting := v.waiting - {events[n].job}), events[i]);
            && (forall text :: PutsText(events, i, n, id, text) ==> TextOf(after, id) == Some(text))
            && (!ChangesText(events, n, id) ==> TextOf(after, id) == TextOf(v, id))
  {
    var n := |events| - 1;
    var v := Seen(events[..n]);
    var start := events[i];
    hide Seen, IsDue;
    if start.StartImport? {
      forall text: string ensures HoldsText(start.docs, id, text) ==>
                                  id in Entered(v.entries, start.docs) &&
                                  Entered(v.entries, start.docs)[id].text == text {
        EnteredHold(v.entries, start.docs, id, text);
      }
      if exists text :: HoldsText(start.docs, id, text) {
        var text :| HoldsText(start.docs, id, text);
        assert PutsText(events, i, n, id, text);
      } else {
        EnteredLeave(v.entries, start.docs, id);
      }
    } else if (start.StartSave? || start.StartReplace?) && start.id == id {
      assert start.StartSave? ==> PutsText(events, i, n, id, start.plaintext);
      assert start.StartReplace? && id in v.entries ==> PutsText(events, i, n, id, start.plaintext);
    }
    hide HoldsText, Entered;
  }

  lemma {:induction false} LastTextBefore(events: seq<Event>, i: nat, j: nat, id: Id, text: string)
    requires events != [] && !ChangesText(events, |events| - 1, id)
    ensures IsLastText(events, i, j, id, text) <==> IsLastText(events[..|events| - 1], i, j, id, text)
  {
    var n := |events| - 1;
    forall k: nat, l: nat, any | l < n
      ensures PutsText(events[..n], k, l, id, any) <==> PutsText(events, k, l, id, any)
    {
      PrefixEnds(events, n, k, l);
    }
    hide PutsText;
    forall l: nat | l < n ensures ChangesText(events[..n], l, id) <==> ChangesText(events, l, id) {
    }
    assert j == n ==> !PutsText(events, i, j, id, text);
    hide ChangesText;
  }

  lemma {:induction false} TextIsLast(events: seq<Event>, id: Id, text: string)
    ensures TextOf(Seen(events), id) == Some(text) <==> exists i: nat, j: nat :: IsLastText(events, i, j, id, text)
  {
    if events != [] {
      var n := |events| - 1;
      TextThen(events, id);
      hide Seen, PutsText, TextOf;
      if ChangesText(events, n, id) {
        assert forall k: nat, j: nat :: IsLastText(events, k, j, id, text) ==> j == n;
        if exists i: nat, any :: PutsText(events, i, n, id, any) {
          var i: nat, any :| PutsText(events, i, n, id, any);
          assert IsLastText(events, i, n, id, any);
        }
      } else {
        TextIsLast(events[..n], id, text);
        forall i: nat, j: nat
          ensures IsLastText(events, i, j, id, text) <==> IsLastText(events[..n], i, j, id, text)
        {
          LastTextBefore(events, i, j, id, text);
        }
        hide IsLastText, ChangesText;
      }
    }
  }

  /** A secret is stored, and opens under the key and for its own id to the text. */
  predicate Reads(s: State, key: Key, id: Id, text: string) {
    id in s.stored.secrets && Decrypt(key, id, s.stored.secrets[id].envelope) == Some(text)
  }

  /**
   * After any run, a secret decrypts under the vault's key to a text exactly when the last commit that put one for it
   * put that one, and it was not deleted since: a text it was saved with or given, or the text in an imported file.
   */
  lemma {:induction false} ReadsLastText(events: seq<Event>, id: Id, text: string)
    ensures Reads(Run(Empty, events), TheKey(Run(Empty, events)), id, text) <==>
            exists i: nat, j: nat :: IsLastText(events, i, j, id, text)
  {
    RunIsSeen(events);
    TextIsLast(events, id, text);
    hide Run, Seen, IsLastText, JobsAre;
  }

  /**
   * There is one data key: every tab that holds one holds the vault's, and what is stored opens under no other key and
   * for no other id.
   */
  lemma {:induction false} OneKeyForAll(events: seq<Event>)
    ensures var s := Run(Empty, events);
            && (forall tab :: tab in s.keys ==> s.stored.record.Some? && s.keys[tab] == TheKey(s))
            && (forall id :: id in s.stored.secrets ==> s.stored.record.Some?)
            && (forall id, other, key, text ::
                  id in s.stored.secrets && Decrypt(key, other, s.stored.secrets[id].envelope) == Some(text) ==>
                    key == TheKey(s) && other == id)
  {
    RunKeeps(Empty, events);
    RunIsSeen(events);
    hide Run, Seen, JobsAre;
  }

  /**
   * A key in a tab opens every secret that any tab saves later, to the text put last: a lost race leaves no secret
   * behind another key.
   */
  lemma {:induction false} HeldKeyReadsLaterSecrets(
    before: seq<Event>, after: seq<Event>, tab: Tab, id: Id, text: string)
    requires tab in Run(Empty, before).keys
    ensures Reads(Run(Empty, before + after), Run(Empty, before).keys[tab], id, text) <==>
            exists i: nat, j: nat :: IsLastText(before + after, i, j, id, text)
  {
    OneKeyForAll(before);
    KeyIsForever(before, after);
    ReadsLastText(before + after, id, text);
    hide Run, IsLastText, Reads;
  }
}
