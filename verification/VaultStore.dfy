/**
 * The vault's cryptography, as what it can and cannot do, and the store its commits go to. A wrapped key opens with its
 * own passphrase alone; an envelope opens under its own key and for its own secret alone.
 */
module VaultStore {
  import opened Basics

  type Id = string
  type Key = nat

  /** A data key wrapped under a passphrase. */
  datatype VaultRecord = Wrapped(dek: Key, passphrase: string)

  /** A ciphertext, symbolically: it opens for one key and one id. */
  datatype Envelope = Sealed(dek: Key, id: Id, plaintext: string)

  datatype Secret = Secret(name: string, envelope: Envelope)

  /** Opening a record gives its key to its own passphrase alone. */
  function Unwrap(record: VaultRecord, passphrase: string): Option<Key> {
    if record.passphrase == passphrase then Some(record.dek) else None
  }

  /** A record for `next` that opens to the same key, from a record that `current` opens. */
  function Rewrap(record: VaultRecord, current: string, next: string): Option<VaultRecord> {
    match Unwrap(record, current)
    case None => None
    case Some(dek) => Some(Wrapped(dek, next))
  }

  function Encrypt(dek: Key, id: Id, plaintext: string): Envelope {
    Sealed(dek, id, plaintext)
  }

  /** Opening an envelope succeeds for its own key and id alone. */
  function Decrypt(dek: Key, id: Id, envelope: Envelope): Option<string> {
    if envelope.dek == dek && envelope.id == id then Some(envelope.plaintext) else None
  }

  /** A secret as a file holds it, or as it is put. */
  datatype SecretDoc = SecretDoc(id: Id, name: string, envelope: Envelope)

  /** What the two stores hold. */
  datatype Stored = Stored(record: Option<VaultRecord>, secrets: map<Id, Secret>)

  /** A compare-and-put: the record goes in when its being there before is what `replace` expects. */
  function VaultWritten(s: Stored, record: VaultRecord, replace: bool): (Stored, bool) {
    if s.record.Some? != replace then (s, false) else (s.(record := Some(record)), true)
  }

  function CipherReplaced(s: Stored, id: Id, envelope: Envelope): (Stored, bool) {
    if id !in s.secrets then (s, false)
    else (s.(secrets := s.secrets[id := s.secrets[id].(envelope := envelope)]), true)
  }

  function SecretsWritten(s: Stored, docs: seq<SecretDoc>): Stored
    decreases |docs|
  {
    if docs == [] then s
    else
      var doc := docs[0];
      SecretsWritten(s.(secrets := s.secrets[doc.id := Secret(doc.name, doc.envelope)]), docs[1..])
  }

  /** The transactions on the `meta` and `secrets` stores, each of them one atomic step. */
  class SecretsRepository {
    var record: Option<VaultRecord>
    var secrets: map<Id, Secret>

    function Contents(): Stored
      reads this
    {
      Stored(record, secrets)
    }

    constructor ()
      ensures Contents() == Stored(None, map[])
    {
      record := None;
      secrets := map[];
    }

    method WriteVault(next: VaultRecord, replace: bool) returns (written: bool)
      modifies this
      ensures (Contents(), written) == VaultWritten(old(Contents()), next, replace)
    {
      var exists_ := record.Some?;
      if exists_ != replace {
        return false;
      }
      record := Some(next);
      written := true;
    }

    method ReplaceCipher(id: Id, envelope: Envelope) returns (written: bool)
      modifies this
      ensures (Contents(), written) == CipherReplaced(old(Contents()), id, envelope)
    {
      if id !in secrets {
        return false;
      }
      secrets := secrets[id := secrets[id].(envelope := envelope)];
      written := true;
    }

    method WriteSecrets(docs: seq<SecretDoc>)
      modifies this
      ensures Contents() == SecretsWritten(old(Contents()), docs)
    {
      assert docs[0..] == docs;
      for i := 0 to |docs|
        invariant SecretsWritten(Contents(), docs[i..]) == SecretsWritten(old(Contents()), docs)
      {
        assert docs[i..][1..] == docs[i + 1..];
        secrets := secrets[docs[i].id := Secret(docs[i].name, docs[i].envelope)];
      }
      assert docs[|docs|..] == [];
    }
  }

  /**
   * Every secret opened with the file's key and sealed with the local one; no result when one of them does not open.
   */
  function Reencrypted(theirs: Key, local: Key, docs: seq<SecretDoc>): Option<seq<SecretDoc>> {
    if docs == [] then Some([])
    else
      var doc := docs[0];
      match Decrypt(theirs, doc.id, doc.envelope)
      case None => None
      case Some(plaintext) =>
        match Reencrypted(theirs, local, docs[1..])
        case None => None
        case Some(rest) => Some([doc.(envelope := Encrypt(local, doc.id, plaintext))] + rest)
  }

  method ReencryptFile(theirs: Key, local: Key, docs: seq<SecretDoc>) returns (made: Option<seq<SecretDoc>>)
    ensures made == Reencrypted(theirs, local, docs)
  {
    var out: seq<SecretDoc> := [];
    assert docs[0..] == docs;
    ghost var all := Reencrypted(theirs, local, docs);
    assert all.Some? ==> [] + all.value == all.value;
    for i := 0 to |docs|
      invariant match Reencrypted(theirs, local, docs[i..])
                case None => Reencrypted(theirs, local, docs) == None
                case Some(rest) => Reencrypted(theirs, local, docs) == Some(out + rest)
    {
      assert docs[i..][1..] == docs[i + 1..];
      var plaintext := Decrypt(theirs, docs[i].id, docs[i].envelope);
      if plaintext.None? {
        return None;
      }
      var again := docs[i].(envelope := Encrypt(local, docs[i].id, plaintext.value));
      ghost var rest := Reencrypted(theirs, local, docs[i + 1..]);
      if rest.Some? {
        assert out + ([again] + rest.value) == (out + [again]) + rest.value;
      }
      out := out + [again];
    }
    assert docs[|docs|..] == [] && out + [] == out;
    made := Some(out);
  }

  /** Every secret of the file comes back under the local key, with its id, its name and its plaintext. */
  lemma {:induction false} ReencryptedKeeps(theirs: Key, local: Key, docs: seq<SecretDoc>)
    requires Reencrypted(theirs, local, docs).Some?
    ensures var made := Reencrypted(theirs, local, docs).value;
            && |made| == |docs|
            && forall k :: 0 <= k < |docs| ==>
                 && made[k].id == docs[k].id && made[k].name == docs[k].name
                 && Decrypt(local, made[k].id, made[k].envelope) == Decrypt(theirs, docs[k].id, docs[k].envelope)
                 && Decrypt(local, made[k].id, made[k].envelope).Some?
  {
    if docs != [] {
      ReencryptedKeeps(theirs, local, docs[1..]);
    }
  }
}
