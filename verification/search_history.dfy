/** The conflict-resolving search.history store. */
module SearchHistory {
  import opened Outcomes
  import opened Records
  import opened Conflict
  import opened Policy

  const Dataset := "search.history"

  datatype PersistedRecord = PersistedRecord(envelope: RecordEnvelope, evidence: AcceptanceEvidence)

  /** The store file as `load` returns it; a missing or empty file is the empty table. */
  type Table = map<string, PersistedRecord>

  /** Whether the file operations of one call succeed. */
  datatype Disk = Disk(readable: bool, writable: bool)

  datatype StoreError = SearchHistoryOnly | NotAuthorized(reason: PolicyError) | Unreadable | Unwritable

  /** One record offered to the store together with the decisions about it. */
  datatype Submission = Submission(
    record: RecordEnvelope,
    peer: AuthenticatedPeer,
    privacy: PrivacyDecision,
    trust: TrustEvidence,
    now: Time,
    disk: Disk)

  function Authorization(s: Submission): Result<AcceptanceEvidence, PolicyError>
  {
    AuthorizeRecord(s.record, s.peer, s.privacy, s.trust, s.now)
  }

  /** The table and the answer after one `AcceptAndPersist`. */
  function Accept(table: Table, s: Submission): (Table, Result<AcceptanceEvidence, StoreError>)
  {
    if s.record.dataset != Dataset then (table, Failure(SearchHistoryOnly))
    else
      match Authorization(s)
      case Failure(e) => (table, Failure(NotAuthorized(e)))
      case Success(evidence) =>
        var id := s.record.recordID;
        if !s.disk.readable then (table, Failure(Unreadable))
        else if id in table && ResolveConflict(table[id].envelope, s.record) != Remote then
          (table, Success(table[id].evidence))
        else if !s.disk.writable then (table, Failure(Unwritable))
        else (table[id := PersistedRecord(ReadBack(s.record), evidence)], Success(evidence))
  }

  /** The store: one mutex-guarded file, replaced as a whole by every save. */
  class SearchHistoryStore {
    var file: Table

    constructor ()
      ensures file == map[]
    {
      file := map[];
    }

    method AcceptAndPersist(s: Submission) returns (r: Result<AcceptanceEvidence, StoreError>)
      modifies this
      ensures (file, r) == Accept(old(file), s)
    {
      if s.record.dataset != Dataset {
        return Failure(SearchHistoryOnly);
      }
      var authorization := Authorization(s);
      if authorization.Failure? {
        return Failure(NotAuthorized(authorization.error));
      }
      if !s.disk.readable {
        return Failure(Unreadable);
      }
      var records := file;
      var id := s.record.recordID;
      if id in records {
        match ResolveConflict(records[id].envelope, s.record) {
          case Local => return Success(records[id].evidence);
          case Converged => return Success(records[id].evidence);
          case Remote =>
        }
      }
      records := records[id := PersistedRecord(s.record, authorization.value)];
      var saved := Save(records, s.disk.writable, id);
      if !saved {
        return Failure(Unwritable);
      }
      assert file == old(file)[id := PersistedRecord(ReadBack(s.record), authorization.value)];
      r := Success(authorization.value);
    }

    /** Replaces the file by the JSON text of `records`, in which only the row `changed` is new. */
    method Save(records: Table, writable: bool, changed: string) returns (ok: bool)
      requires changed in records
      modifies this
      ensures ok == writable
      ensures !ok ==> file == old(file)
      ensures ok ==>
                file == records[changed := PersistedRecord(ReadBack(records[changed].envelope),
                                                           records[changed].evidence)]
    {
      if writable {
        var row := records[changed];
        file := records[changed := PersistedRecord(ReadBack(row.envelope), row.evidence)];
      }
      return writable;
    }
  }
}
