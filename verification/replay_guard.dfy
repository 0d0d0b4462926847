/** Per-device high-water marks that reject already observed revisions. */
module Replay {
  import opened Records

  datatype ReplayKey = ReplayKey(deviceID: string, dataset: string, recordID: string)

  datatype ReplayEntry = ReplayEntry(key: ReplayKey, revision: Revision)

  type Marks = map<ReplayKey, Revision>

  datatype Verdict = Accepted | AlreadyObserved | SaveFailed

  function KeyOf(deviceID: string, record: RecordEnvelope): ReplayKey
  {
    ReplayKey(deviceID, record.dataset, record.recordID)
  }

  /** The marks a saved list of entries loads back to: later entries win. */
  function Loaded(entries: seq<ReplayEntry>): Marks
  {
    if entries == [] then map[]
    else
      var last := entries[|entries| - 1];
      Loaded(entries[..|entries| - 1])[last.key := last.revision]
  }

  /**
   Marks in memory, marks on disk and the verdict after one `Accept`.  A failed save deletes
   the key from memory, whatever mark it carried before.
   */
  function Advance(persistent: bool, marks: Marks, saved: Marks, key: ReplayKey, revision: Revision,
                   writable: bool): (Marks, Marks, Verdict)
  {
    if key in marks && revision <= marks[key] then (marks, saved, AlreadyObserved)
    else
      var raised := marks[key := revision];
      if !persistent then (raised, saved, Accepted)
      else if writable then (raised, raised, Accepted)
      else (marks - {key}, saved, SaveFailed)
  }

  class ReplayGuard {
    const persistent: bool
    var revision: Marks
    var file: seq<ReplayEntry>

    constructor InMemory()
      ensures !persistent && revision == map[] && file == []
    {
      persistent := false;
      revision, file := map[], [];
    }

    /** Opens the guard on the file a previous process left behind. */
    constructor Persistent(stored: seq<ReplayEntry>)
      ensures persistent && file == stored && revision == Loaded(stored)
    {
      persistent := true;
      file := stored;
      revision := map[];
      new;
      for i := 0 to |stored|
        invariant revision == Loaded(stored[..i]) && file == stored
      {
        assert stored[..i + 1][..i] == stored[..i];
        revision := revision[stored[i].key := stored[i].revision];
      }
      assert stored[..|stored|] == stored;
    }

    method Accept(deviceID: string, record: RecordEnvelope, writable: bool) returns (v: Verdict)
      modifies this
      ensures (revision, Loaded(file), v)
           == Advance(persistent, old(revision), old(Loaded(file)), KeyOf(deviceID, record), record.revision, writable)
    {
      var key := KeyOf(deviceID, record);
      if key in revision && record.revision <= revision[key] {
        return AlreadyObserved;
      }
      revision := revision[key := record.revision];
      if persistent {
        var ok := Save(writable);
        if !ok {
          revision := revision - {key};
          assert revision == old(revision) - {key};
          return SaveFailed;
        }
      }
      return Accepted;
    }

    /** Writes every mark, in the arbitrary order of map iteration. */
    method Save(writable: bool) returns (ok: bool)
      modifies this`file
      ensures ok == writable
      ensures ok ==> Loaded(file) == revision
      ensures !ok ==> file == old(file)
    {
      var entries: seq<ReplayEntry> := [];
      var rest := revision.Keys;
      while rest != {}
        invariant rest <= revision.Keys
        invariant Loaded(entries) == revision - rest
        decreases |rest|
      {
        var key :| key in rest;
        var grown := entries + [ReplayEntry(key, revision[key])];
        assert grown[..|entries|] == entries;
        rest := rest - {key};
        assert revision - rest == (revision - (rest + {key}))[key := revision[key]];
        entries := grown;
      }
      if writable {
        file := entries;
      }
      return writable;
    }
  }

  /** Every mark is at least what it was. */
  ghost predicate KeepsMarks(before: Marks, after: Marks)
  {
    forall k | k in before :: k in after && before[k] <= after[k]
  }

  /** Marks never fall, except that a failed save of a raise forgets the key's earlier mark. */
  lemma {:induction false} MarksFallOnlyOnFailedRaise(persistent: bool, marks: Marks, saved: Marks, key: ReplayKey,
                                                      revision: Revision, writable: bool)
    ensures KeepsMarks(marks, Advance(persistent, marks, saved, key, revision, writable).0)
       <==> !(persistent && !writable && key in marks && marks[key] < revision)
  {
    var after := Advance(persistent, marks, saved, key, revision, writable).0;
    if persistent && !writable && key in marks && marks[key] < revision {
      assert key in marks && key !in after;
    }
  }

  /** Marks of different devices, datasets or records never touch each other. */
  lemma {:induction false} KeysApart(a: string, r: RecordEnvelope, b: string, q: RecordEnvelope)
    ensures KeyOf(a, r) == KeyOf(b, q) <==> a == b && r.dataset == q.dataset && r.recordID == q.recordID
  {
  }

  /** A saved list loads to the last entry of each key, and to nothing else. */
  lemma {:induction false} LastEntryCounts(entries: seq<ReplayEntry>, i: nat)
    requires i < |entries| && forall j | i < j < |entries| :: entries[j].key != entries[i].key
    ensures entries[i].key in Loaded(entries) && Loaded(entries)[entries[i].key] == entries[i].revision
  {
    var n := |entries| - 1;
    if i < n {
      LastEntryCounts(entries[..n], i);
    }
  }

  lemma {:induction false} LoadedIsListed(entries: seq<ReplayEntry>, key: ReplayKey)
    requires key in Loaded(entries)
    ensures exists i :: 0 <= i < |entries| && entries[i].key == key
  {
    var n := |entries| - 1;
    if entries[n].key != key {
      LoadedIsListed(entries[..n], key);
      var i :| 0 <= i < n && entries[..n][i].key == key;
      assert entries[i] == entries[..n][i];
    }
  }
}
