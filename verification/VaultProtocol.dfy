/**
 * The vault across the tabs of one browser. Each operation of a tab is cut where it waits: it reads, it computes, it
 * commits, it holds a key; between two of its steps any step of any other operation of any tab may come.
 */
module VaultProtocol {
  import opened Basics
  import opened VaultStore

  type Tab = nat
  type JobId = nat

  /** An operation that waits: what it has in hand for its next step. */
  datatype Job =
    | Creating(tab: Tab, record: VaultRecord)
    | Holding(tab: Tab, dek: Key)
    | Saving(id: Id, name: string, envelope: Envelope)
    | Replacing(id: Id, envelope: Envelope)
    | Changing(record: VaultRecord)
    | Importing(docs: seq<SecretDoc>)

  /** The stores, the key each tab holds, and the operations that wait. */
  datatype State = State(stored: Stored, keys: map<Tab, Key>, jobs: map<JobId, Job>)

  const Empty: State := State(Stored(None, map[]), map[], map[])

  datatype Event =
    | StartCreate(job: JobId, tab: Tab, dek: Key, passphrase: string)
    | CommitCreate(job: JobId)
    | Hold(job: JobId)
    | StartUnlock(job: JobId, tab: Tab, passphrase: string)
    | Lock(tabs: set<Tab>)
    | StartSave(job: JobId, tab: Tab, id: Id, name: string, plaintext: string)
    | CommitSave(job: JobId)
    | StartReplace(job: JobId, tab: Tab, id: Id, plaintext: string)
    | CommitReplace(job: JobId)
    | StartChange(job: JobId, current: string, next: string)
    | CommitChange(job: JobId)
    | StartImport(job: JobId, tab: Tab, vault: VaultRecord, docs: seq<SecretDoc>, passphrase: string)
    | CommitImport(job: JobId)
    | Rename(id: Id, name: string)
    | Delete(id: Id)

  function Waiting(s: State, job: JobId, what: Job): State {
    s.(jobs := s.jobs[job := what])
  }

  function Done(s: State, job: JobId): State {
    s.(jobs := s.jobs - {job})
  }

  /** One step. An event whose operation is refused, or is not waiting, changes nothing. */
  function Next(s: State, e: Event): State {
    match e
    case StartCreate(job, tab, dek, passphrase) =>
      if job in s.jobs then s else Waiting(s, job, Creating(tab, Wrapped(dek, passphrase)))
    case CommitCreate(job) =>
      if job !in s.jobs || !s.jobs[job].Creating? then s
      else
        var Creating(tab, record) := s.jobs[job];
        var (stored, written) := VaultWritten(s.stored, record, false);
        if written then Waiting(s, job, Holding(tab, record.dek)).(stored := stored) else Done(s, job)
    case Hold(job) =>
      if job !in s.jobs || !s.jobs[job].Holding? then s
      else Done(s, job).(keys := s.keys[s.jobs[job].tab := s.jobs[job].dek])
    case StartUnlock(job, tab, passphrase) =>
      if job in s.jobs || s.stored.record.None? then s
      else
        (match Unwrap(s.stored.record.value, passphrase)
         case None => s
         case Some(dek) => Waiting(s, job, Holding(tab, dek)))
    case Lock(tabs) => s.(keys := s.keys - tabs)
    case StartSave(job, tab, id, name, plaintext) =>
      if job in s.jobs || tab !in s.keys then s
      else Waiting(s, job, Saving(id, name, Encrypt(s.keys[tab], id, plaintext)))
    case CommitSave(job) =>
      if job !in s.jobs || !s.jobs[job].Saving? then s
      else
        var Saving(id, name, envelope) := s.jobs[job];
        Done(s, job).(stored := SecretsWritten(s.stored, [SecretDoc(id, name, envelope)]))
    case StartReplace(job, tab, id, plaintext) =>
      if job in s.jobs || tab !in s.keys then s
      else Waiting(s, job, Replacing(id, Encrypt(s.keys[tab], id, plaintext)))
    case CommitReplace(job) =>
      if job !in s.jobs || !s.jobs[job].Replacing? then s
      else
        var Replacing(id, envelope) := s.jobs[job];
        Done(s, job).(stored := CipherReplaced(s.stored, id, envelope).0)
    case StartChange(job, current, next) =>
      if job in s.jobs || s.stored.record.None? then s
      else
        (match Rewrap(s.stored.record.value, current, next)
         case None => s
         case Some(record) => Waiting(s, job, Changing(record)))
    case CommitChange(job) =>
      if job !in s.jobs || !s.jobs[job].Changing? then s
      else
        Done(s, job).(stored := VaultWritten(s.stored, s.jobs[job].record, true).0)
    case StartImport(job, tab, vault, docs, passphrase) =>
      if job in s.jobs || tab !in s.keys || Unwrap(vault, passphrase).None? then s
      else
        (match Reencrypted(Unwrap(vault, passphrase).value, s.keys[tab], docs)
         case None => s
         case Some(made) => Waiting(s, job, Importing(made)))
    case CommitImport(job) =>
      if job !in s.jobs || !s.jobs[job].Importing? then s
      else
        Done(s, job).(stored := SecretsWritten(s.stored, s.jobs[job].docs))
    case Rename(id, name) =>
      if id !in s.stored.secrets then s
      else s.(stored := s.stored.(secrets := s.stored.secrets[id := s.stored.secrets[id].(name := name)]))
    case Delete(id) =>
      s.(stored := s.stored.(secrets := s.stored.secrets - {id}))
  }

  /** The states of a run, one after each event. */
  function Run(s: State, events: seq<Event>): State
    decreases |events|
  {
    if events == [] then s else Run(Next(s, events[0]), events[1..])
  }

  // ---- What every step keeps ----

  predicate DocsFit(docs: seq<SecretDoc>, k: Key) {
    forall i :: 0 <= i < |docs| ==> docs[i].envelope.dek == k && docs[i].envelope.id == docs[i].id
  }

  /**
   * What an operation that waits has in hand fits the one data key `k`; one that makes a vault has a key of its own.
   */
  predicate FitsKey(job: Job, k: Key) {
    match job
    case Creating(_, _) => true
    case Holding(_, dek) => dek == k
    case Saving(id, _, envelope) => envelope.dek == k && envelope.id == id
    case Replacing(id, envelope) => envelope.dek == k && envelope.id == id
    case Changing(record) => record.dek == k
    case Importing(docs) => DocsFit(docs, k)
  }

  predicate SecretsFit(secrets: map<Id, Secret>, k: Key) {
    forall id :: id in secrets ==> secrets[id].envelope.dek == k && secrets[id].envelope.id == id
  }

  /** Before a vault is committed no tab has a key and no secret is stored; after, there is one key everywhere. */
  predicate Inv(s: State) {
    if s.stored.record.None? then
      && s.stored.secrets == map[] && s.keys == map[]
      && forall job :: job in s.jobs ==> s.jobs[job].Creating?
    else
      var k := s.stored.record.value.dek;
      && (forall tab :: tab in s.keys ==> s.keys[tab] == k)
      && (forall job :: job in s.jobs ==> FitsKey(s.jobs[job], k))
      && SecretsFit(s.stored.secrets, k)
  }

  /** A vault that is there stays, with its key. */
  predicate KeyStays(s: State, next: State) {
    s.stored.record.Some? ==> next.stored.record.Some? && next.stored.record.value.dek == s.stored.record.value.dek
  }

  lemma {:induction false} WrittenFit(s: Stored, docs: seq<SecretDoc>, k: Key)
    requires SecretsFit(s.secrets, k) && DocsFit(docs, k)
    ensures SecretsFit(SecretsWritten(s, docs).secrets, k)
    ensures SecretsWritten(s, docs).record == s.record
    decreases |docs|
  {
    if docs != [] {
      var doc := docs[0];
      WrittenFit(s.(secrets := s.secrets[doc.id := Secret(doc.name, doc.envelope)]), docs[1..], k);
    }
  }

  predicate IsStart(e: Event) {
    e.StartCreate? || e.StartUnlock? || e.StartSave? || e.StartReplace? || e.StartChange? || e.StartImport?
  }

  lemma {:induction false} StartKeeps(s: State, e: Event)
    requires Inv(s) && IsStart(e)
    ensures Inv(Next(s, e)) && Next(s, e).stored == s.stored
  {
    if e.StartImport? && e.job !in s.jobs && e.tab in s.keys && Unwrap(e.vault, e.passphrase).Some? {
      var theirs := Unwrap(e.vault, e.passphrase).value;
      if Reencrypted(theirs, s.keys[e.tab], e.docs).Some? {
        ReencryptedKeeps(theirs, s.keys[e.tab], e.docs);
      }
    }
    hide Reencrypted, SecretsFit;
  }

  lemma {:induction false} VaultCommitKeeps(s: State, e: Event)
    requires Inv(s) && (e.CommitCreate? || e.CommitChange? || e.Hold? || e.Lock?)
    ensures Inv(Next(s, e)) && KeyStays(s, Next(s, e))
  {
    if s.stored.record.Some? {
      hide SecretsFit;
    }
  }

  lemma {:induction false} WriteKeeps(s: State, e: Event)
    requires Inv(s) && (e.CommitSave? || e.CommitImport?)
    ensures Inv(Next(s, e)) && KeyStays(s, Next(s, e))
  {
    if e.job in s.jobs && s.jobs[e.job].Saving? {
      var Saving(id, name, envelope) := s.jobs[e.job];
      WrittenFit(s.stored, [SecretDoc(id, name, envelope)], s.stored.record.value.dek);
    } else if e.job in s.jobs && s.jobs[e.job].Importing? {
      WrittenFit(s.stored, s.jobs[e.job].docs, s.stored.record.value.dek);
    }
    hide SecretsWritten, SecretsFit;
  }

  lemma {:induction false} SecretCommitKeeps(s: State, e: Event)
    requires Inv(s) && !IsStart(e) && !(e.CommitCreate? || e.CommitChange? || e.Hold? || e.Lock?)
    ensures Inv(Next(s, e)) && KeyStays(s, Next(s, e))
  {
    hide SecretsWritten;
    if e.CommitSave? || e.CommitImport? {
      hide Inv, Next;
      WriteKeeps(s, e);
    }
  }

  /** Every step of every operation keeps the invariant and the vault's key, in every state and for every event. */
  lemma {:induction false} StepKeeps(s: State, e: Event)
    requires Inv(s)
    ensures Inv(Next(s, e)) && KeyStays(s, Next(s, e))
  {
    hide Inv, Next;
    if IsStart(e) {
      StartKeeps(s, e);
    } else if e.CommitCreate? || e.CommitChange? || e.Hold? || e.Lock? {
      VaultCommitKeeps(s, e);
    } else {
      SecretCommitKeeps(s, e);
    }
  }

  /** The invariant holds after every run, however the operations of the tabs are interleaved. */
  lemma {:induction false} RunKeeps(s: State, events: seq<Event>)
    requires Inv(s)
    ensures Inv(Run(s, events)) && KeyStays(s, Run(s, events))
    decreases |events|
  {
    if events != [] {
      StepKeeps(s, events[0]);
      RunKeeps(Next(s, events[0]), events[1..]);
    }
  }

  lemma {:induction false} RunConcat(s: State, a: seq<Event>, b: seq<Event>)
    ensures Run(s, a + b) == Run(Run(s, a), b)
    decreases |a|
  {
    if a == [] {
      assert a + b == b;
    } else {
      assert (a + b)[1..] == a[1..] + b;
      RunConcat(Next(s, a[0]), a[1..], b);
    }
  }

  /**
   * A vault that was committed is never taken back: later states of a run have its key, whatever came between, and so
   * has every tab that holds one.
   */
  lemma {:induction false} KeyIsForever(before: seq<Event>, after: seq<Event>)
    requires Run(Empty, before).stored.record.Some?
    ensures var (early, late) := (Run(Empty, before), Run(Empty, before + after));
            && late.stored.record.Some?
            && late.stored.record.value.dek == early.stored.record.value.dek
            && forall tab :: tab in late.keys ==> late.keys[tab] == early.stored.record.value.dek
  {
    RunConcat(Empty, before, after);
    RunKeeps(Empty, before);
    RunKeeps(Run(Empty, before), after);
  }
}
