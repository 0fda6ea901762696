/** An import the user confirms, one collection after the other, and the Undo it offers. */
module ImportPipeline {
  import opened Basics
  import opened Database
  import opened Stores

  function ImportedAll(s: Snapshot, ps: seq<Payload>, asNew: bool): Snapshot {
    if ps == [] then s else Imported(ImportedAll(s, ps[..|ps| - 1], asNew), ps[|ps| - 1], asNew)
  }

  /** What each import handed over, taken from the stores as the imports before it left them. */
  ghost predicate HandedAll(parts: seq<seq<Removed>>, s: Snapshot, ps: seq<Payload>, asNew: bool) {
    && |parts| == |ps|
    && forall i :: 0 <= i < |ps| ==> Handed(parts[i], ImportedAll(s, ps[..i], asNew), ps[i], asNew)
  }

  function Concat(parts: seq<seq<Removed>>): seq<Removed> {
    if parts == [] then [] else Concat(parts[..|parts| - 1]) + parts[|parts| - 1]
  }

  function DeletedAll(s: Snapshot, ids: seq<string>): Snapshot {
    if ids == [] then s else DeletedCollection(DeletedAll(s, ids[..|ids| - 1]), ids[|ids| - 1])
  }

  function IdsOf(ps: seq<Payload>): (ids: seq<string>)
    ensures |ids| == |ps| && forall i :: 0 <= i < |ps| ==> ids[i] == ps[i].collection.meta.id
  {
    seq(|ps|, i requires 0 <= i < |ps| => ps[i].collection.meta.id)
  }

  /** What the Undo of an import does: deletes what was added, then restores what was handed over, in that order. */
  function UndoneAll(s: Snapshot, added: seq<string>, replaced: seq<Removed>): Snapshot {
    PutBackAll(DeletedAll(s, added), replaced)
  }

  /** The imports in order, collecting ids and what is handed over; one that fails leaves those before it done. */
  method Confirm(db: Database, ps: seq<Payload>, asNew: bool)
    returns (done: Result<seq<string>, Error>, replaced: seq<Removed>, ghost parts: seq<seq<Removed>>)
    requires db.Valid()
    modifies db
    ensures db.Valid()
    ensures done.Ok? <==> forall i :: 0 <= i < |ps| ==> ps[i].collection.meta.id != ""
    ensures done.Ok? ==>
      && done.value == IdsOf(ps) && replaced == Concat(parts)
      && db.State() == ImportedAll(old(db.State()), ps, asNew) && HandedAll(parts, old(db.State()), ps, asNew)
  {
    hide Imported, Handed, ImportedAll, HandedAll, Concat;
    var added: seq<string> := [];
    replaced, parts := [], [];
    NothingHanded(db.State(), ps, asNew);
    for n := 0 to |ps|
      invariant db.Valid()
      invariant added == IdsOf(ps[..n]) && replaced == Concat(parts)
      invariant forall i :: 0 <= i < n ==> ps[i].collection.meta.id != ""
      invariant db.State() == ImportedAll(old(db.State()), ps[..n], asNew)
      invariant HandedAll(parts, old(db.State()), ps[..n], asNew)
    {
      var imported, handed := db.ImportCollectionExport(ps[n], asNew);
      if imported.Err? {
        return Err(imported.error), replaced, parts;
      }
      OneMoreHanded(parts, old(db.State()), ps, n, asNew, handed);
      added := added + [imported.value.meta.id];
      replaced := replaced + handed;
      parts := parts + [handed];
    }
    assert ps[..|ps|] == ps;
    done := Ok(added);
  }

  lemma {:induction false} NothingHanded(s: Snapshot, ps: seq<Payload>, asNew: bool)
    ensures ps[..0] == [] && ImportedAll(s, ps[..0], asNew) == s && HandedAll([], s, ps[..0], asNew) && Concat([]) == []
  {
  }

  lemma {:induction false} OneMoreHanded(parts: seq<seq<Removed>>, s: Snapshot, ps: seq<Payload>, n: nat,
    asNew: bool, handed: seq<Removed>)
    requires n < |ps| && HandedAll(parts, s, ps[..n], asNew)
    requires Handed(handed, ImportedAll(s, ps[..n], asNew), ps[n], asNew)
    ensures HandedAll(parts + [handed], s, ps[..n + 1], asNew)
    ensures Concat(parts + [handed]) == Concat(parts) + handed
    ensures ImportedAll(s, ps[..n + 1], asNew) == Imported(ImportedAll(s, ps[..n], asNew), ps[n], asNew)
  {
    hide Handed, Imported;
    assert ps[..n + 1][..n] == ps[..n];
    assert (parts + [handed])[..|parts|] == parts;
    forall i | 0 <= i <= n
      ensures Handed((parts + [handed])[i], ImportedAll(s, ps[..n + 1][..i], asNew), ps[..n + 1][i], asNew)
    {
      assert ps[..n + 1][..i] == ps[..i];
      if i < n {
        assert ps[..n][..i] == ps[..i] && ps[..n][i] == ps[i];
      }
    }
  }

  method TakeUndo(db: Database, added: seq<string>, replaced: seq<Removed>)
    requires db.Valid()
    modifies db
    ensures db.Valid() && db.State() == UndoneAll(old(db.State()), added, replaced)
  {
    hide DeletedCollection, PutBack;
    for i := 0 to |added|
      invariant db.Valid() && db.State() == DeletedAll(old(db.State()), added[..i])
    {
      assert added[..i + 1][..i] == added[..i];
      var _ := db.DeleteCollection(added[i]);
    }
    assert added[..|added|] == added;
    ghost var start := db.State();
    for i := 0 to |replaced|
      invariant db.Valid() && db.State() == PutBackAll(start, replaced[..i])
    {
      assert replaced[..i + 1][..i] == replaced[..i];
      db.Restore(replaced[i]);
    }
    assert replaced[..|replaced|] == replaced;
  }
}
