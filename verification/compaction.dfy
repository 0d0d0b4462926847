/** Removal of tombstones that are old enough and observed by every required peer. */
module Compaction {
  import opened Outcomes
  import opened Records
  import opened SearchHistory
  import opened Receipts

  datatype CompactionError =
    | InvalidRetention
    | ReceiptStoreRequired
    | StoreUnreadable
    | ReceiptsUnreadable
    | StoreUnwritable

  datatype CompactionRequest = CompactionRequest(
    now: Time,
    minimumRetention: int,
    requiredPeers: seq<string>,
    disk: Disk,
    receiptsReadable: bool)

  function Cutoff(q: CompactionRequest): Time
  {
    q.now - q.minimumRetention
  }

  /** A tombstone past retention, whose receipts are therefore looked up. */
  predicate Candidate(record: RecordEnvelope, q: CompactionRequest)
  {
    record.deleted && record.updatedAt <= Cutoff(q)
  }

  ghost predicate Removable(scheme: DigestScheme, record: RecordEnvelope, q: CompactionRequest,
                            receipts: set<ObservationReceipt>)
  {
    Candidate(record, q) && Confirmed(scheme, record, q.requiredPeers, receipts)
  }

  ghost function Survivors(scheme: DigestScheme, table: Table, q: CompactionRequest, receipts: set<ObservationReceipt>)
    : Table
  {
    map id | id in table && !Removable(scheme, table[id].envelope, q, receipts) :: table[id]
  }

  /** The table and the answer after one compaction. */
  ghost function Compact(scheme: DigestScheme, table: Table, q: CompactionRequest, receipts: set<ObservationReceipt>)
    : (Table, Result<nat, CompactionError>)
  {
    if q.minimumRetention <= 0 then (table, Failure(InvalidRetention))
    else if !q.disk.readable then (table, Failure(StoreUnreadable))
    else if !q.receiptsReadable && exists id :: id in table && Candidate(table[id].envelope, q) then
      (table, Failure(ReceiptsUnreadable))
    else
      SurvivorsAreFewer(scheme, table, q, receipts);
      var left := Survivors(scheme, table, q, receipts);
      if left == table then (table, Success(0))
      else if !q.disk.writable then (table, Failure(StoreUnwritable))
      else (left, Success(|table| - |left|))
  }

  lemma {:induction false} SurvivorsAreFewer(scheme: DigestScheme, table: Table, q: CompactionRequest,
                                             receipts: set<ObservationReceipt>)
    ensures |Survivors(scheme, table, q, receipts)| <= |table|
  {
    var left := Survivors(scheme, table, q, receipts);
    assert left.Keys <= table.Keys;
    KeysBound(left, table);
  }

  lemma {:induction false} KeysBound(small: Table, big: Table)
    requires small.Keys <= big.Keys
    ensures |small| <= |big|
  {
    assert big.Keys == small.Keys + (big.Keys - small.Keys);
  }

  /** Whether the row `id` has been visited and removed once only `rest` is left to visit. */
  ghost predicate Gone(scheme: DigestScheme, table: Table, q: CompactionRequest, receipts: set<ObservationReceipt>,
                       rest: set<string>, id: string)
    requires id in table
  {
    id !in rest && Removable(scheme, table[id].envelope, q, receipts)
  }

  ghost function Partly(scheme: DigestScheme, table: Table, q: CompactionRequest, receipts: set<ObservationReceipt>,
                        rest: set<string>): Table
  {
    map id | id in table && !Gone(scheme, table, q, receipts, rest, id) :: table[id]
  }

  /** Visiting one more row either keeps what is left or drops exactly that row. */
  lemma {:induction false} PartlyStep(scheme: DigestScheme, table: Table, q: CompactionRequest,
                                      receipts: set<ObservationReceipt>, rest: set<string>, id: string)
    requires id in rest && id in table
    ensures var before := Partly(scheme, table, q, receipts, rest);
            var after := Partly(scheme, table, q, receipts, rest - {id});
            && id in before
            && after == (if Removable(scheme, table[id].envelope, q, receipts) then before - {id} else before)
            && |after| == |before| - (if Removable(scheme, table[id].envelope, q, receipts) then 1 else 0)
  {
    hide Removable;
    var before := Partly(scheme, table, q, receipts, rest);
    var after := Partly(scheme, table, q, receipts, rest - {id});
    if Removable(scheme, table[id].envelope, q, receipts) {
      assert after == before - {id};
      assert after.Keys == before.Keys - {id};
    } else {
      assert after == before;
    }
  }

  /** Only receipts about the record itself decide its removal. */
  lemma {:induction false} OwnReceiptsDecide(scheme: DigestScheme, record: RecordEnvelope, peers: seq<string>,
                          receipts: set<ObservationReceipt>, own: set<ObservationReceipt>)
    requires forall r :: r in own <==> r in receipts && r.dataset == record.dataset && r.recordID == record.recordID
    ensures Confirmed(scheme, record, peers, own) == Confirmed(scheme, record, peers, receipts)
  {
    forall peer
      ensures Observed(scheme, record, peer, own) == Observed(scheme, record, peer, receipts)
    {
      if Observed(scheme, record, peer, receipts) {
        var r :| r in receipts && Matches(scheme, record, r) && r.observerDevice == peer;
        assert r in own;
      }
    }
  }

  lemma {:induction false} PartlyEnds(scheme: DigestScheme, table: Table, q: CompactionRequest,
                                      receipts: set<ObservationReceipt>)
    ensures Partly(scheme, table, q, receipts, table.Keys) == table
    ensures Partly(scheme, table, q, receipts, {}) == Survivors(scheme, table, q, receipts)
  {
    hide Removable;
  }

  method ConfirmedBy(receiptStore: ReceiptStore, scheme: DigestScheme, record: RecordEnvelope,
                     requiredPeers: seq<string>)
    returns (ok: bool)
    ensures ok == Confirmed(scheme, record, requiredPeers, receiptStore.Held())
  {
    hide Confirmed, Observed;
    var receipts := receiptStore.ForRecord(record.dataset, record.recordID);
    OwnReceiptsDecide(scheme, record, requiredPeers, receiptStore.Held(), Elements(receipts));
    ok := ConvergenceConfirmed(scheme, record, requiredPeers, receipts);
  }

  method CompactTombstonesWithReceipts(store: SearchHistoryStore, scheme: DigestScheme, q: CompactionRequest,
                                       receiptStore: ReceiptStore?)
    returns (r: Result<nat, CompactionError>)
    modifies store
    ensures receiptStore == null && q.minimumRetention > 0 ==>
              store.file == old(store.file) && r == Failure(ReceiptStoreRequired)
    ensures receiptStore != null || q.minimumRetention <= 0 ==>
              (store.file, r) == Compact(scheme, old(store.file), q,
                                         if receiptStore == null then {} else old(receiptStore.Held()))
  {
    hide Confirmed, Observed, Partly;
    if q.minimumRetention <= 0 {
      return Failure(InvalidRetention);
    }
    if receiptStore == null {
      return Failure(ReceiptStoreRequired);
    }
    if !q.disk.readable {
      return Failure(StoreUnreadable);
    }
    ghost var held := receiptStore.Held();
    var table := store.file;
    var records := table;
    var removed := 0;
    var rest := table.Keys;
    PartlyEnds(scheme, table, q, held);
    while rest != {}
      invariant rest <= table.Keys
      invariant store.file == table && receiptStore.Held() == held
      invariant records == Partly(scheme, table, q, held, rest)
      invariant removed == |table| - |records|
      invariant !q.receiptsReadable ==> forall id | id in table && id !in rest :: !Candidate(table[id].envelope, q)
      decreases |rest|
    {
      var id :| id in rest;
      PartlyStep(scheme, table, q, held, rest, id);
      rest := rest - {id};
      var record := table[id].envelope;
      if Candidate(record, q) {
        if !q.receiptsReadable {
          return Failure(ReceiptsUnreadable);
        }
        var confirmed := ConfirmedBy(receiptStore, scheme, record, q.requiredPeers);
        if confirmed {
          records := records - {id};
          removed := removed + 1;
        }
      }
    }
    if removed == 0 {
      SubmapOfSameSize(records, table);
      return Success(0);
    }
    if !q.disk.writable {
      return Failure(StoreUnwritable);
    }
    store.file := records;
    return Success(removed);
  }

  lemma {:induction false} SubmapOfSameSize(small: Table, big: Table)
    requires forall id | id in small :: id in big && small[id] == big[id]
    requires |small| == |big|
    ensures small == big
  {
    assert big.Keys == small.Keys + (big.Keys - small.Keys);
    assert |big.Keys - small.Keys| == 0;
  }

  /** A successful compaction drops exactly the removable tombstones, and counts them. */
  lemma {:induction false} CompactionIsExact(scheme: DigestScheme, table: Table, q: CompactionRequest,
                                             receipts: set<ObservationReceipt>)
    requires Compact(scheme, table, q, receipts).1.Success?
    ensures var (after, r) := Compact(scheme, table, q, receipts);
            && after.Keys == (set id | id in table && !Due(scheme, table[id].envelope, q, receipts))
            && (forall id | id in after :: after[id] == table[id])
            && r.value == |set id | id in table && Due(scheme, table[id].envelope, q, receipts)|
            && q.minimumRetention > 0
  {
    hide Removable, Due;
    SurvivorsAndRemoved(scheme, table, q, receipts);
    forall id | id in table
      ensures Due(scheme, table[id].envelope, q, receipts) <==> Removable(scheme, table[id].envelope, q, receipts)
    {
      DueIff(scheme, table[id].envelope, q, receipts);
    }
    assert (set id | id in table && Due(scheme, table[id].envelope, q, receipts))
        == (set id | id in table && Removable(scheme, table[id].envelope, q, receipts));
  }

  /** A receipt of this very version by this observer: the digest stands for time stamp and origin. */
  ghost predicate Witnessed(scheme: DigestScheme, t: RecordEnvelope, peer: string, receipts: set<ObservationReceipt>)
  {
    exists r :: r in receipts && r.dataset == t.dataset && r.recordID == t.recordID && r.revision == t.revision
                && r.recordDigest == RecordDigest(scheme, t) && r.observerDevice == peer
  }

  /** A tombstone whose retention has passed and which every required peer, of at least one, has observed. */
  ghost predicate Due(scheme: DigestScheme, t: RecordEnvelope, q: CompactionRequest, receipts: set<ObservationReceipt>)
  {
    && t.deleted && q.now - t.updatedAt >= q.minimumRetention
    && |q.requiredPeers| > 0 && forall i | 0 <= i < |q.requiredPeers| ::
       Witnessed(scheme, t, q.requiredPeers[i], receipts)
  }

  lemma {:induction false} DueIff(scheme: DigestScheme, t: RecordEnvelope, q: CompactionRequest,
                                  receipts: set<ObservationReceipt>)
    ensures Due(scheme, t, q, receipts) <==> Removable(scheme, t, q, receipts)
  {
    hide Witnessed, Confirmed;
    ConfirmedIff(scheme, t, q.requiredPeers, receipts);
  }

  /** Convergence is confirmed exactly for a tombstone that every required peer, of at least one, has observed. */
  lemma {:induction false} ConfirmedIff(scheme: DigestScheme, t: RecordEnvelope, peers: seq<string>,
                                        receipts: set<ObservationReceipt>)
    ensures Confirmed(scheme, t, peers, receipts)
       <==> t.deleted && |peers| > 0 && forall i | 0 <= i < |peers| :: Witnessed(scheme, t, peers[i], receipts)
  {
    hide RecordDigest;
    forall peer
      ensures Witnessed(scheme, t, peer, receipts) <==> Observed(scheme, t, peer, receipts)
    {
      WitnessedIff(scheme, t, peer, receipts);
    }
    assert forall peer | peer in peers :: exists i :: 0 <= i < |peers| && peers[i] == peer;
  }

  lemma {:induction false} WitnessedIff(scheme: DigestScheme, t: RecordEnvelope, peer: string,
                                        receipts: set<ObservationReceipt>)
    ensures Witnessed(scheme, t, peer, receipts) <==> Observed(scheme, t, peer, receipts)
  {
    hide RecordDigest;
    if Observed(scheme, t, peer, receipts) {
      var r :| r in receipts && Matches(scheme, t, r) && r.observerDevice == peer;
    }
    if Witnessed(scheme, t, peer, receipts) {
      var r :| r in receipts && r.dataset == t.dataset && r.recordID == t.recordID && r.revision == t.revision
               && r.recordDigest == RecordDigest(scheme, t) && r.observerDevice == peer;
      assert Matches(scheme, t, r);
    }
  }

  /** A tombstone past retention, whose receipts have to be looked up. */
  ghost predicate Aged(t: RecordEnvelope, q: CompactionRequest)
  {
    t.deleted && q.now - t.updatedAt >= q.minimumRetention
  }

  /**
   Which answer is given: receipts are needed only for an aged tombstone, a writable file only for
   one that is due.
   */
  lemma {:induction false} CompactionAnswers(scheme: DigestScheme, table: Table, q: CompactionRequest,
                                             receipts: set<ObservationReceipt>)
    ensures var r := Compact(scheme, table, q, receipts).1;
            var opens := q.minimumRetention > 0 && q.disk.readable;
            var looks := exists id :: id in table && Aged(table[id].envelope, q);
            var drops := exists id :: id in table && Due(scheme, table[id].envelope, q, receipts);
            && (r == Failure(InvalidRetention) <==> q.minimumRetention <= 0)
            && (r == Failure(StoreUnreadable) <==> q.minimumRetention > 0 && !q.disk.readable)
            && (r == Failure(ReceiptsUnreadable) <==> opens && looks && !q.receiptsReadable)
            && (r == Failure(StoreUnwritable) <==> opens && (looks ==> q.receiptsReadable) && drops && !q.disk.writable)
            && (r.Success? <==> opens && (looks ==> q.receiptsReadable) && (drops ==> q.disk.writable))
  {
    hide Confirmed, Witnessed;
    forall id | id in table
      ensures Due(scheme, table[id].envelope, q, receipts) <==> Removable(scheme, table[id].envelope, q, receipts)
      ensures Aged(table[id].envelope, q) <==> Candidate(table[id].envelope, q)
    {
      DueIff(scheme, table[id].envelope, q, receipts);
    }
    var left := Survivors(scheme, table, q, receipts);
    if left != table {
      assert exists id :: id in table && id !in left;
    }
    if id :| id in table && Due(scheme, table[id].envelope, q, receipts) {
      assert id !in left;
    }
  }

  /** Whatever the files do, no row disappears unless it is due, and no other row changes. */
  lemma {:induction false} OnlyDueRowsGo(scheme: DigestScheme, table: Table, q: CompactionRequest,
                                         receipts: set<ObservationReceipt>, id: string)
    requires id in table
    ensures var after := Compact(scheme, table, q, receipts).0;
            && (id !in after
                <==> q.minimumRetention > 0 && q.disk.readable && q.disk.writable && q.receiptsReadable
                     && Due(scheme, table[id].envelope, q, receipts))
            && (id in after ==> after[id] == table[id])
  {
    hide Confirmed, Due;
    DueIff(scheme, table[id].envelope, q, receipts);
    assert id in Survivors(scheme, table, q, receipts) <==> !Removable(scheme, table[id].envelope, q, receipts);
    if !q.receiptsReadable && Removable(scheme, table[id].envelope, q, receipts) {
      assert Candidate(table[id].envelope, q);
    }
  }

  lemma {:induction false} SurvivorsAndRemoved(scheme: DigestScheme, table: Table, q: CompactionRequest,
                                               receipts: set<ObservationReceipt>)
    ensures |table| == |Survivors(scheme, table, q, receipts)|
                       + |set id | id in table && Removable(scheme, table[id].envelope, q, receipts)|
  {
    hide Removable;
    var gone := set id | id in table && Removable(scheme, table[id].envelope, q, receipts);
    var left := Survivors(scheme, table, q, receipts);
    assert table.Keys == left.Keys + gone && left.Keys !! gone;
  }
}
