/**
 * What the users of a vault did, and nothing else: which passphrase was chosen last, which tabs are open, which text
 * each secret was given last. No key, no record and no envelope is in this view; the protocol is shown to keep to it.
 */
module VaultView {
  import opened Basics
  import opened VaultProtocol
  import opened VaultStore

  datatype Entry = Entry(name: string, text: string)

  /** An operation that was started, by which event of the run. */
  datatype Started = Started(at: nat, event: Event)

  datatype View = View(
    passphrase: Option<string>,
    open: set<Tab>,
    entries: map<Id, Entry>,
    waiting: map<JobId, Started>,
    opening: map<JobId, Tab>)

  const Nothing: View := View(None, {}, map[], map[], map[])

  predicate Busy(v: View, job: JobId) {
    job in v.waiting || job in v.opening
  }

  /** A file that can be read: its vault has this passphrase, and each secret was sealed with its key for its own id. */
  predicate Readable(vault: VaultRecord, docs: seq<SecretDoc>, passphrase: string) {
    && vault.passphrase == passphrase
    && forall i :: 0 <= i < |docs| ==> docs[i].envelope.dek == vault.dek && docs[i].envelope.id == docs[i].id
  }

  /** Whether an operation is begun or refused. */
  predicate IsTaken(v: View, e: Event)
    requires IsStart(e)
  {
    && !Busy(v, e.job)
    && match e
       case StartCreate(_, _, _, _) => true
       case StartUnlock(_, _, passphrase) => v.passphrase == Some(passphrase)
       case StartSave(_, tab, _, _, _) => tab in v.open
       case StartReplace(_, tab, _, _) => tab in v.open
       case StartChange(_, current, _) => v.passphrase == Some(current)
       case StartImport(_, tab, vault, docs, passphrase) => tab in v.open && Readable(vault, docs, passphrase)
  }

  /** The commit of the operation that `start` began. */
  predicate Commits(start: Event, e: Event) {
    || (start.StartCreate? && e == CommitCreate(start.job))
    || (start.StartSave? && e == CommitSave(start.job))
    || (start.StartReplace? && e == CommitReplace(start.job))
    || (start.StartChange? && e == CommitChange(start.job))
    || (start.StartImport? && e == CommitImport(start.job))
  }

  predicate IsCommit(e: Event) {
    e.CommitCreate? || e.CommitSave? || e.CommitReplace? || e.CommitChange? || e.CommitImport?
  }

  /** The event commits an operation that waits. */
  predicate IsDue(v: View, e: Event) {
    IsCommit(e) && e.job in v.waiting && Commits(v.waiting[e.job].event, e)
  }

  /** The entries with those of a file put over them in order. */
  function Entered(entries: map<Id, Entry>, docs: seq<SecretDoc>): map<Id, Entry> {
    if docs == [] then entries
    else
      var last := docs[|docs| - 1];
      Entered(entries, docs[..|docs| - 1])[last.id := Entry(last.name, last.envelope.plaintext)]
  }

  /** What a commit makes of the view, from the event that began the operation. */
  function AfterCommit(v: View, start: Event): View {
    match start
    case StartCreate(job, tab, _, passphrase) =>
      if v.passphrase.Some? then v else v.(passphrase := Some(passphrase), opening := v.opening[job := tab])
    case StartSave(_, _, id, name, plaintext) => v.(entries := v.entries[id := Entry(name, plaintext)])
    case StartReplace(_, _, id, plaintext) =>
      if id in v.entries then v.(entries := v.entries[id := v.entries[id].(text := plaintext)]) else v
    case StartChange(_, _, next) => v.(passphrase := Some(next))
    case StartImport(_, _, _, docs, _) => v.(entries := Entered(v.entries, docs))
    case _ => v
  }

  /** The view after the event at place `at` of a run. */
  function Then(v: View, e: Event, at: nat): View {
    if IsStart(e) then
      if !IsTaken(v, e) then v
      else if e.StartUnlock? then v.(opening := v.opening[e.job := e.tab])
      else v.(waiting := v.waiting[e.job := Started(at, e)])
    else if IsCommit(e) then
      if IsDue(v, e) then AfterCommit(v.(waiting := v.waiting - {e.job}), v.waiting[e.job].event) else v
    else
      match e
      case Hold(job) =>
        if job in v.opening then v.(open := v.open + {v.opening[job]}, opening := v.opening - {job}) else v
      case Lock(tabs) => v.(open := v.open - tabs)
      case Rename(id, name) =>
        if id in v.entries then v.(entries := v.entries[id := v.entries[id].(name := name)]) else v
      case Delete(id) => v.(entries := v.entries - {id})
  }

  /** What was done in a run. */
  function Seen(events: seq<Event>): View {
    if events == [] then Nothing
    else
      var n := |events| - 1;
      Then(Seen(events[..n]), events[n], n)
  }

  // ---- The protocol keeps to the view ----

  /** What an operation has in hand is what the event that began it asks for. */
  predicate InHand(job: Job, start: Event, k: Key) {
    match start
    case StartCreate(_, tab, dek, passphrase) => job == Creating(tab, Wrapped(dek, passphrase))
    case StartSave(_, _, id, name, plaintext) => job == Saving(id, name, Sealed(k, id, plaintext))
    case StartReplace(_, _, id, plaintext) => job == Replacing(id, Sealed(k, id, plaintext))
    case StartChange(_, _, next) => job == Changing(Wrapped(k, next))
    case StartImport(_, _, _, docs, _) => job.Importing? && SealedAgain(job.docs, docs, k)
    case _ => false
  }

  predicate SealedAgain(made: seq<SecretDoc>, docs: seq<SecretDoc>, k: Key) {
    && |made| == |docs|
    && forall i :: 0 <= i < |docs| ==>
         made[i] == SecretDoc(docs[i].id, docs[i].name, Sealed(k, docs[i].id, docs[i].envelope.plaintext))
  }

  predicate Belongs(start: Event, job: JobId) {
    IsStart(start) && start.job == job
  }

  predicate JobsAre(jobs: map<JobId, Job>, waiting: map<JobId, Started>, opening: map<JobId, Tab>, k: Key) {
    && jobs.Keys == waiting.Keys + opening.Keys
    && (forall job :: job in waiting ==> job !in opening && Belongs(waiting[job].event, job))
    && (forall job :: job in waiting ==> InHand(jobs[job], waiting[job].event, k))
    && (forall job :: job in opening ==> jobs[job] == Holding(opening[job], k))
  }

  predicate SecretsAre(secrets: map<Id, Secret>, entries: map<Id, Entry>, k: Key) {
    && secrets.Keys == entries.Keys
    && forall id :: id in secrets ==> secrets[id] == Secret(entries[id].name, Sealed(k, id, entries[id].text))
  }

  /** The vault's one key, and any number before there is one. */
  function TheKey(s: State): Key {
    if s.stored.record.Some? then s.stored.record.value.dek else 0
  }

  /** The stores, the tabs and the operations are as the view tells, under the one key. */
  predicate Keeps(s: State, v: View) {
    && s.stored.record == (match v.passphrase case None => None case Some(p) => Some(Wrapped(TheKey(s), p)))
    && s.keys.Keys == v.open && (forall tab :: tab in s.keys ==> s.keys[tab] == TheKey(s))
    && SecretsAre(s.stored.secrets, v.entries, TheKey(s))
    && JobsAre(s.jobs, v.waiting, v.opening, TheKey(s))
    && (v.passphrase.None? ==> NoVault(v))
  }

  /** Without a vault nothing is open, nothing is stored, and nothing is under way but the making of one. */
  predicate NoVault(v: View) {
    && v.open == {} && v.entries == map[] && v.opening == map[]
    && forall job :: job in v.waiting ==> v.waiting[job].event.StartCreate?
  }

  lemma {:induction false} SealedWhenReadable(theirs: Key, local: Key, docs: seq<SecretDoc>)
    ensures Reencrypted(theirs, local, docs).Some? <==>
            forall i :: 0 <= i < |docs| ==> docs[i].envelope.dek == theirs && docs[i].envelope.id == docs[i].id
    ensures Reencrypted(theirs, local, docs).Some? ==>
              SealedAgain(Reencrypted(theirs, local, docs).value, docs, local)
  {
    if docs != [] {
      SealedWhenReadable(theirs, local, docs[1..]);
    }
  }

  lemma {:induction false} JobIs(s: State, v: View, job: JobId)
    requires Keeps(s, v)
    ensures job in s.jobs <==> Busy(v, job)
    ensures job in v.waiting ==> job in s.jobs && InHand(s.jobs[job], v.waiting[job].event, TheKey(s))
    ensures job in v.opening ==> job in s.jobs && s.jobs[job] == Holding(v.opening[job], TheKey(s))
    ensures job in v.waiting ==> job !in v.opening && Belongs(v.waiting[job].event, job)
  {
    hide InHand, SecretsAre;
  }

  lemma {:induction false} Begun(jobs: map<JobId, Job>, v: View, k: Key, e: Event, what: Job, at: nat)
    requires JobsAre(jobs, v.waiting, v.opening, k) && IsStart(e) && !Busy(v, e.job) && InHand(what, e, k)
    ensures JobsAre(jobs[e.job := what], v.waiting[e.job := Started(at, e)], v.opening, k)
  {
    hide InHand;
  }

  lemma {:induction false} Opening(jobs: map<JobId, Job>, v: View, k: Key, job: JobId, tab: Tab)
    requires JobsAre(jobs, v.waiting, v.opening, k) && !Busy(v, job)
    ensures JobsAre(jobs[job := Holding(tab, k)], v.waiting, v.opening[job := tab], k)
  {
    hide InHand;
  }

  lemma {:induction false} Ended(jobs: map<JobId, Job>, v: View, k: Key, job: JobId)
    requires JobsAre(jobs, v.waiting, v.opening, k)
    ensures JobsAre(jobs - {job}, v.waiting - {job}, v.opening - {job}, k)
  {
    hide InHand;
  }

  lemma {:induction false} KeyIsMade(jobs: map<JobId, Job>, v: View, k: Key, made: Key)
    requires JobsAre(jobs, v.waiting, v.opening, k) && NoVault(v)
    ensures JobsAre(jobs, v.waiting, v.opening, made)
  {
  }

  lemma {:induction false} RefusedChangesNothing(s: State, v: View, e: Event)
    requires Keeps(s, v) && IsStart(e) && !e.StartImport? && !IsTaken(v, e)
    ensures Next(s, e) == s
  {
    JobIs(s, v, e.job);
    hide SecretsAre, InHand, JobsAre, Busy;
  }

  lemma {:induction false} UnlockIsSeen(s: State, v: View, e: Event, at: nat)
    requires Keeps(s, v) && e.StartUnlock? && IsTaken(v, e)
    ensures Keeps(Next(s, e), Then(v, e, at))
  {
    JobIs(s, v, e.job);
    Opening(s.jobs, v, TheKey(s), e.job, e.tab);
    hide SecretsAre, InHand, JobsAre, Busy;
  }

  lemma {:induction false} StartIsSeen(s: State, v: View, e: Event, at: nat)
    requires Keeps(s, v) && IsStart(e) && !e.StartUnlock? && !e.StartImport? && IsTaken(v, e)
    ensures Keeps(Next(s, e), Then(v, e, at))
  {
    JobIs(s, v, e.job);
    assert e.job in Next(s, e).jobs;
    Begun(s.jobs, v, TheKey(s), e, Next(s, e).jobs[e.job], at);
    hide SecretsAre, InHand, JobsAre, Busy;
  }

  lemma {:induction false} ImportIsSeen(s: State, v: View, e: Event, at: nat)
    requires Keeps(s, v) && e.StartImport?
    ensures Keeps(Next(s, e), Then(v, e, at))
  {
    JobIs(s, v, e.job);
    if e.tab in s.keys && Unwrap(e.vault, e.passphrase).Some? {
      SealedWhenReadable(Unwrap(e.vault, e.passphrase).value, s.keys[e.tab], e.docs);
    }
    if IsTaken(v, e) {
      Begun(s.jobs, v, TheKey(s), e, Next(s, e).jobs[e.job], at);
    }
    hide SecretsAre, Reencrypted, SealedAgain, JobsAre, InHand;
  }

  /** A commit of what does not wait, or of another kind of operation, changes nothing. */
  lemma {:induction false} NothingIsDue(s: State, v: View, e: Event)
    requires Keeps(s, v) && IsCommit(e) && !IsDue(v, e)
    ensures Next(s, e) == s
  {
    JobIs(s, v, e.job);
    hide SealedAgain, JobsAre, SecretsAre, Keeps;
  }

  /** An operation that waits is in hand, and without it the others are as they were. */
  lemma {:induction false} WhatIsDue(s: State, v: View, e: Event)
    requires Keeps(s, v) && IsDue(v, e)
    ensures e.job in s.jobs && InHand(s.jobs[e.job], v.waiting[e.job].event, TheKey(s))
    ensures v.waiting[e.job].event.job == e.job
    ensures JobsAre(s.jobs - {e.job}, v.waiting - {e.job}, v.opening, TheKey(s))
  {
    JobIs(s, v, e.job);
    Ended(s.jobs, v, TheKey(s), e.job);
    assert v.opening - {e.job} == v.opening;
  }

  lemma {:induction false} ChangeIsSeen(s: State, v: View, e: Event, at: nat)
    requires Keeps(s, v) && e.CommitChange? && IsDue(v, e)
    ensures Keeps(Next(s, e), Then(v, e, at))
  {
    WhatIsDue(s, v, e);
    hide SealedAgain, JobsAre, SecretsAre;
  }

  /** Who makes a vault where there is one by then is told so, and nothing is written. */
  lemma {:induction false} LateCreateIsSeen(s: State, v: View, e: Event, at: nat)
    requires Keeps(s, v) && e.CommitCreate? && IsDue(v, e) && v.passphrase.Some?
    ensures Keeps(Next(s, e), Then(v, e, at))
  {
    WhatIsDue(s, v, e);
    hide SecretsAre, JobsAre, SealedAgain;
  }

  lemma {:induction false} CreateIsSeen(s: State, v: View, e: Event, at: nat)
    requires Keeps(s, v) && e.CommitCreate? && IsDue(v, e) && v.passphrase.None?
    ensures Keeps(Next(s, e), Then(v, e, at))
  {
    WhatIsDue(s, v, e);
    hide SecretsAre, JobsAre, SealedAgain;
    var start := v.waiting[e.job].event;
    var rest := v.(waiting := v.waiting - {e.job});
    KeyIsMade(s.jobs - {e.job}, rest, TheKey(s), start.dek);
    Opening(s.jobs - {e.job}, rest, start.dek, e.job, start.tab);
    var held := Holding(start.tab, start.dek);
    assert (s.jobs - {e.job})[e.job := held] == s.jobs[e.job := held];
    NoSecrets(start.dek);
  }

  lemma {:induction false} NoSecrets(k: Key)
    ensures SecretsAre(map[], map[], k)
    ensures forall secrets, any :: SecretsAre(secrets, map[], any) ==> secrets == map[]
  {
  }

  lemma {:induction false} NothingToHold(s: State, v: View, e: Event)
    requires Keeps(s, v) && e.Hold? && e.job !in v.opening
    ensures Next(s, e) == s
  {
    JobIs(s, v, e.job);
    hide SealedAgain, JobsAre, SecretsAre, Keeps;
  }

  lemma {:induction false} HoldIsSeen(s: State, v: View, e: Event, at: nat)
    requires Keeps(s, v) && e.Hold? && e.job in v.opening
    ensures Keeps(Next(s, e), Then(v, e, at))
  {
    JobIs(s, v, e.job);
    Ended(s.jobs, v, TheKey(s), e.job);
    assert v.waiting - {e.job} == v.waiting;
    hide InHand, JobsAre, SecretsAre;
    var tab := v.opening[e.job];
    assert Next(s, e) == s.(jobs := s.jobs - {e.job}, keys := s.keys[tab := TheKey(s)]);
    assert Then(v, e, at) == v.(open := v.open + {tab}, opening := v.opening - {e.job});
    hide Next, Then;
    assert s.keys[tab := TheKey(s)].Keys == v.open + {tab};
  }

  lemma {:induction false} LockIsSeen(s: State, v: View, e: Event, at: nat)
    requires Keeps(s, v) && e.Lock?
    ensures Keeps(Next(s, e), Then(v, e, at))
  {
    hide InHand, JobsAre, SecretsAre;
  }

  lemma {:induction false} RenameIsSeen(s: State, v: View, e: Event, at: nat)
    requires Keeps(s, v) && (e.Rename? || e.Delete?)
    ensures Keeps(Next(s, e), Then(v, e, at))
  {
    hide JobsAre;
  }

  lemma {:induction false} EntryPut(
    secrets: map<Id, Secret>, entries: map<Id, Entry>, k: Key, id: Id, name: string, text: string)
    requires SecretsAre(secrets, entries, k)
    ensures SecretsAre(secrets[id := Secret(name, Sealed(k, id, text))], entries[id := Entry(name, text)], k)
  {
  }

  lemma {:induction false} WrittenAre(
    s: Stored, entries: map<Id, Entry>, made: seq<SecretDoc>, docs: seq<SecretDoc>, k: Key)
    requires SecretsAre(s.secrets, entries, k) && SealedAgain(made, docs, k)
    ensures SecretsAre(SecretsWritten(s, made).secrets, Entered(entries, docs), k)
    ensures SecretsWritten(s, made).record == s.record
  {
    if docs != [] {
      var n := |docs| - 1;
      WrittenAre(s, entries, made[..n], docs[..n], k);
      WrittenLast(s, made);
    }
  }

  /** The last document is put over all others. */
  lemma {:induction false} WrittenLast(s: Stored, docs: seq<SecretDoc>)
    requires docs != []
    ensures var (before, last) := (SecretsWritten(s, docs[..|docs| - 1]), docs[|docs| - 1]);
            SecretsWritten(s, docs) == before.(secrets := before.secrets[last.id := Secret(last.name, last.envelope)])
    decreases |docs|
  {
    if |docs| > 1 {
      var first := docs[0];
      var next := s.(secrets := s.secrets[first.id := Secret(first.name, first.envelope)]);
      WrittenLast(next, docs[1..]);
      assert docs[1..][..|docs| - 2] == docs[..|docs| - 1][1..];
    }
  }

  lemma {:induction false} SaveIsSeen(s: State, v: View, e: Event, at: nat)
    requires Keeps(s, v) && e.CommitSave? && IsDue(v, e)
    ensures Keeps(Next(s, e), Then(v, e, at))
  {
    WhatIsDue(s, v, e);
    var start := v.waiting[e.job].event;
    var (made, doc) := (s.jobs[e.job].envelope, SecretDoc(start.id, start.name, s.jobs[e.job].envelope));
    WrittenLast(s.stored, [doc]);
    assert [doc][..0] == [];
    EntryPut(s.stored.secrets, v.entries, TheKey(s), start.id, start.name, start.plaintext);
    hide SealedAgain, JobsAre, SecretsAre;
  }

  lemma {:induction false} ReplaceIsSeen(s: State, v: View, e: Event, at: nat)
    requires Keeps(s, v) && e.CommitReplace? && IsDue(v, e)
    ensures Keeps(Next(s, e), Then(v, e, at))
  {
    WhatIsDue(s, v, e);
    var start := v.waiting[e.job].event;
    assert start.id in s.stored.secrets <==> start.id in v.entries;
    if start.id in v.entries {
      assert s.stored.secrets[start.id].name == v.entries[start.id].name;
      EntryPut(s.stored.secrets, v.entries, TheKey(s), start.id, v.entries[start.id].name, start.plaintext);
    }
    hide SealedAgain, JobsAre, SecretsAre;
  }

  lemma {:induction false} ImportCommitIsSeen(s: State, v: View, e: Event, at: nat)
    requires Keeps(s, v) && e.CommitImport? && IsDue(v, e)
    ensures Keeps(Next(s, e), Then(v, e, at))
  {
    WhatIsDue(s, v, e);
    WrittenAre(s.stored, v.entries, s.jobs[e.job].docs, v.waiting[e.job].event.docs, TheKey(s));
    hide SealedAgain, Entered, JobsAre, SecretsAre, SecretsWritten;
  }

  /** Every step of the protocol does what it does in the view, and nothing else. */
  lemma {:induction false} StepIsSeen(s: State, v: View, e: Event, at: nat)
    requires Keeps(s, v)
    ensures Keeps(Next(s, e), Then(v, e, at))
  {
    if IsCommit(e) && !IsDue(v, e) {
      NothingIsDue(s, v, e);
    } else if IsStart(e) && !e.StartImport? && !IsTaken(v, e) {
      RefusedChangesNothing(s, v, e);
    } else if e.Hold? && e.job !in v.opening {
      NothingToHold(s, v, e);
    } else {
      hide Keeps, Next, Then;
      match e
      case CommitCreate(_) =>
        if v.passphrase.Some? {
          LateCreateIsSeen(s, v, e, at);
        } else {
          CreateIsSeen(s, v, e, at);
        }
      case CommitChange(_) => ChangeIsSeen(s, v, e, at);
      case CommitSave(_) => SaveIsSeen(s, v, e, at);
      case CommitReplace(_) => ReplaceIsSeen(s, v, e, at);
      case CommitImport(_) => ImportCommitIsSeen(s, v, e, at);
      case Hold(_) => HoldIsSeen(s, v, e, at);
      case Lock(_) => LockIsSeen(s, v, e, at);
      case Rename(_, _) => RenameIsSeen(s, v, e, at);
      case Delete(_) => RenameIsSeen(s, v, e, at);
      case StartUnlock(_, _, _) => UnlockIsSeen(s, v, e, at);
      case StartImport(_, _, _, _, _) => ImportIsSeen(s, v, e, at);
      case _ => StartIsSeen(s, v, e, at);
    }
  }

  lemma {:induction false} RunEnds(events: seq<Event>)
    requires events != []
    ensures Run(Empty, events) == Next(Run(Empty, events[..|events| - 1]), events[|events| - 1])
  {
    var (before, last) := (events[..|events| - 1], events[|events| - 1]);
    assert events == before + [last];
    RunConcat(Empty, before, [last]);
    assert [last][1..] == [];
  }

  /** Whatever the tabs do, in whatever order, the stores, the keys and the operations are what the view tells. */
  lemma {:induction false} RunIsSeen(events: seq<Event>)
    ensures Keeps(Run(Empty, events), Seen(events))
  {
    if events != [] {
      var n := |events| - 1;
      RunIsSeen(events[..n]);
      RunEnds(events);
      StepIsSeen(Run(Empty, events[..n]), Seen(events[..n]), events[n], n);
    }
  }
}
