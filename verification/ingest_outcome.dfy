/** What an ingest demands of a request, field by field, and where everything on a node comes from. */
module IngestOutcome {
  import opened Outcomes
  import opened Records
  import opened Conflict
  import opened Policy
  import opened SearchHistory
  import opened Convergence
  import opened Replay
  import opened Receipts
  import opened Compaction
  import opened Ingest
  import opened ReplicationRuns

  /** The record's signature verified to the key of the authenticated peer, which is its origin. */
  predicate Proven(q: Request)
  {
    && q.providersReady
    && q.proof.verified == Some(q.peer.keyFingerprint)
    && q.record.originDevice == q.proof.deviceID == q.peer.deviceID && |q.peer.deviceID| > 0
  }

  /** Nothing changes and nothing succeeds without that proof. */
  lemma {:induction false} IngestNeedsProof(setup: Setup, node: Node, q: Request)
    ensures IngestStep(setup, node, q).0 != node || IngestStep(setup, node, q).1.Success? ==> Proven(q)
    ensures Presented(q) <==> Proven(q)
  {
    hide GuardStep, StoreStep, ReceiptStep;
  }

  /** The guard has not seen this device's revision of the record, or a later one. */
  predicate Fresh(marks: Marks, q: Request)
  {
    var key := ReplayKey(q.peer.deviceID, q.record.dataset, q.record.recordID);
    key in marks ==> q.record.revision > marks[key]
  }

  /** The receipt log takes the receipt of this request, or holds one of the same observation. */
  ghost predicate Receivable(setup: Setup, held: set<ObservationReceipt>, q: Request)
  {
    var digest := RecordDigest(setup.scheme, q.record);
    && |digest| > 0 && q.now != 0 && q.receiptsDisk.readable
    && (q.receiptsDisk.writable
        || exists r :: r in held && r.dataset == q.record.dataset && r.recordID == q.record.recordID
                       && r.revision == q.record.revision && r.recordDigest == digest
                       && r.observerDevice == q.peer.deviceID)
  }

  /** The request is entitled, and the providers could say so. */
  ghost predicate EntitledRequest(q: Request)
  {
    q.privacy.Some? && q.trust.Some? && Entitled(q.record, q.peer, q.privacy.value, q.trust.value)
  }

  /** An ingest succeeds exactly under all of these conditions. */
  lemma {:induction false} IngestSucceedsIff(setup: Setup, node: Node, q: Request)
    ensures IngestStep(setup, node, q).1.Success?
       <==> && Proven(q)
            && (setup.guarded ==> Fresh(node.marks, q) && (setup.persistent ==> q.guardWritable))
            && EntitledRequest(q)
            && q.record.dataset == "search.history" && setup.history
            && q.storeDisk.readable
            && (q.storeDisk.writable
                || (q.record.recordID in node.table && !Outranks(q.record, node.table[q.record.recordID].envelope)))
            && (setup.receipting ==> Receivable(setup, node.receipts, q))
  {
    hide StoreStep, ReceiptStep, Entitled, Outranks, Advance, KeyOf;
    IngestNeedsProof(setup, node, q);
    if Proven(q) {
      GuardLets(setup, node, q);
      var guarded := GuardStep(setup, node, q).0;
      StoreSucceedsIff(setup, guarded, q);
      var (stored, r) := StoreStep(setup, guarded, q);
      if r.Success? {
        ReceiptSucceedsIff(setup, stored, q, r.value);
      }
    }
  }

  lemma {:induction false} GuardLets(setup: Setup, node: Node, q: Request)
    ensures var (after, v) := GuardStep(setup, node, q);
            && after.table == node.table && after.receipts == node.receipts
            && (v == AlreadyObserved <==> setup.guarded && !Fresh(node.marks, q))
            && (v == SaveFailed <==> setup.guarded && Fresh(node.marks, q) && setup.persistent && !q.guardWritable)
            && (v == Accepted && setup.guarded ==>
                 after.marks
                 == node.marks[ReplayKey(q.peer.deviceID, q.record.dataset, q.record.recordID) := q.record.revision]
                 && (setup.persistent ==> after.saved == after.marks))
  {
  }

  lemma {:induction false} StoreSucceedsIff(setup: Setup, node: Node, q: Request)
    ensures var (after, r) := StoreStep(setup, node, q);
            && after.receipts == node.receipts
            && (r.Success?
                <==> && EntitledRequest(q) && q.record.dataset == "search.history" && setup.history
                     && q.storeDisk.readable
                     && (q.storeDisk.writable
                         || (q.record.recordID in node.table
                             && !Outranks(q.record, node.table[q.record.recordID].envelope))))
  {
    hide AuthorizeRecord, Entitled, Outranks;
    if q.privacy.Some? && q.trust.Some? {
      AuthorizedIff(q.record, q.peer, q.privacy.value, q.trust.value, q.now);
      if q.record.recordID in node.table {
        ResolutionFollowsRank(node.table[q.record.recordID].envelope, q.record);
        RankOutranks(q.record, node.table[q.record.recordID].envelope);
      }
    }
  }

  lemma {:induction false} ReceiptSucceedsIff(setup: Setup, node: Node, q: Request, evidence: AcceptanceEvidence)
    requires EntitledRequest(q) && q.record.originDevice == q.peer.deviceID && q.record.dataset == "search.history"
    ensures ReceiptStep(setup, node, q, evidence).1.Success?
       <==> (setup.receipting ==> Receivable(setup, node.receipts, q))
  {
    hide Text.Blank, Text.IsSpace, RecordDigest, Text.ByteLen;
    ReceiptOf(setup.scheme, q.record, q.peer.deviceID, q.now);
  }

  /** Which refusal is given: the first step that fails, in the order of the pipeline. */
  lemma {:induction false} IngestRefusesInOrder(setup: Setup, node: Node, q: Request)
    ensures var answer := IngestStep(setup, node, q).1;
            var (held, passed) := (setup.guarded && !Fresh(node.marks, q), !setup.persistent || q.guardWritable);
            && (answer == Failure(ProvidersUnavailable) <==> !q.providersReady)
            && (answer == Failure(RecordIdentityMismatch) <==> q.providersReady && !Proven(q))
            && (answer == Failure(ReplayRecord) <==> Proven(q) && held)
            && (answer == Failure(GuardUnwritable) <==> Proven(q) && setup.guarded && !held && !passed)
            && (answer == Failure(PrivacyUnavailable)
                <==> Proven(q) && (setup.guarded ==> !held && passed) && q.privacy.None?)
            && (answer == Failure(TrustUnavailable)
                <==> Proven(q) && (setup.guarded ==> !held && passed) && q.privacy.Some? && q.trust.None?)
            && (answer == Failure(UnsupportedDataset)
                <==> Proven(q) && (setup.guarded ==> !held && passed) && q.privacy.Some? && q.trust.Some?
                     && (q.record.dataset != "search.history" || !setup.history))
  {
    hide Advance, Accept, ReceiptStep, GuardStep;
    IngestNeedsProof(setup, node, q);
    if Proven(q) {
      GuardLets(setup, node, q);
      var (stored, r) := StoreStep(setup, GuardStep(setup, node, q).0, q);
      if r.Success? {
        ReceiptRefuses(setup, stored, q, r.value);
      }
    }
  }

  lemma {:induction false} ReceiptRefuses(setup: Setup, node: Node, q: Request, evidence: AcceptanceEvidence)
    ensures var answer := ReceiptStep(setup, node, q, evidence).1;
            answer.Success? || answer.error.NoReceipt? || answer.error.ReceiptNotStored?
  {
  }

  /** Event `k` is an ingest whose proof verified. */
  predicate ProvenAt(run: seq<Event>, k: nat)
  {
    k < |run| && run[k].Ingested? && Proven(run[k].q)
  }

  /** A row was put there by a proven and entitled ingest of this very record. */
  ghost predicate RowEarned(run: seq<Event>, id: string, row: PersistedRecord)
  {
    exists k: nat :: ProvenAt(run, k) && EntitledRequest(run[k].q) && run[k].q.record.recordID == id
                     && run[k].q.record.dataset == "search.history" && row.envelope == ReadBack(run[k].q.record)
                     && row.evidence.peerDeviceID == run[k].q.peer.deviceID
  }

  /** A mark was set by a proven request of this device for this record at this revision. */
  ghost predicate MarkEarned(run: seq<Event>, key: ReplayKey, revision: Revision)
  {
    exists k: nat :: ProvenAt(run, k) && run[k].q.record.revision == revision
                     && key == ReplayKey(run[k].q.peer.deviceID, run[k].q.record.dataset, run[k].q.record.recordID)
  }

  /** A receipt tells of a proven and entitled request by its observer. */
  ghost predicate ReceiptEarned(run: seq<Event>, r: ObservationReceipt)
  {
    exists k: nat :: ProvenAt(run, k) && EntitledRequest(run[k].q) && run[k].q.peer.deviceID == r.observerDevice
                     && run[k].q.record.dataset == r.dataset && run[k].q.record.recordID == r.recordID
                     && run[k].q.record.revision == r.revision && run[k].q.now == r.observedAt
  }

  /** Everything that a node holds was earned in its run. */
  ghost predicate Earned(run: seq<Event>, node: Node)
  {
    && (forall id | id in node.table :: RowEarned(run, id, node.table[id]))
    && (forall key | key in node.marks :: MarkEarned(run, key, node.marks[key]))
    && (forall key | key in node.saved :: MarkEarned(run, key, node.saved[key]))
    && (forall r | r in node.receipts :: ReceiptEarned(run, r))
  }

  lemma {:induction false} EarnedStays(run: seq<Event>, e: Event, node: Node)
    requires Earned(run, node)
    ensures Earned(run + [e], node)
  {
    hide Proven, EntitledRequest;
    var all := run + [e];
    assert forall k: nat | k < |run| :: all[k] == run[k];
    assert forall k: nat | ProvenAt(run, k) :: ProvenAt(all, k);
  }

  /** What one ingest adds: its own row, mark and receipt, and none of them without proof. */
  lemma {:induction false} IngestAdds(setup: Setup, node: Node, q: Request)
    ensures var after := IngestStep(setup, node, q).0;
            && (forall id | id in after.table ::
                  (id in node.table && after.table[id] == node.table[id]) || AddsRow(q, id, after.table[id]))
            && (forall key | key in after.marks ::
                  (key in node.marks && after.marks[key] == node.marks[key]) || AddsMark(q, key, after.marks[key]))
            && (forall key | key in after.saved ::
                  || (key in node.saved && after.saved[key] == node.saved[key])
                  || (key in node.marks && after.saved[key] == node.marks[key])
                  || AddsMark(q, key, after.saved[key]))
            && (forall r | r in after.receipts :: r in node.receipts || AddsReceipt(q, r))
  {
    hide StoreStep, ReceiptStep, KeyOf, AddsRow, AddsMark, AddsReceipt, Proven;
    IngestNeedsProof(setup, node, q);
    if Proven(q) {
      var (guarded, v) := GuardStep(setup, node, q);
      GuardAdds(setup, node, q);
      if v == Accepted {
        StoreAdds(setup, guarded, q);
        var (stored, r) := StoreStep(setup, guarded, q);
        if r.Success? {
          StoreSucceedsIff(setup, guarded, q);
          ReceiptAdds(setup, stored, q, r.value);
        }
      }
    }
  }

  ghost predicate AddsRow(q: Request, id: string, row: PersistedRecord)
  {
    && Proven(q) && EntitledRequest(q) && q.record.recordID == id && q.record.dataset == "search.history"
    && row.envelope == ReadBack(q.record) && row.evidence.peerDeviceID == q.peer.deviceID
  }

  predicate AddsMark(q: Request, key: ReplayKey, revision: Revision)
  {
    Proven(q) && q.record.revision == revision && key == ReplayKey(q.peer.deviceID, q.record.dataset, q.record.recordID)
  }

  ghost predicate AddsReceipt(q: Request, r: ObservationReceipt)
  {
    && Proven(q) && EntitledRequest(q) && q.peer.deviceID == r.observerDevice
    && q.record.dataset == r.dataset && q.record.recordID == r.recordID
    && q.record.revision == r.revision && q.now == r.observedAt
  }

  lemma {:induction false} GuardAdds(setup: Setup, node: Node, q: Request)
    requires Proven(q)
    ensures var after := GuardStep(setup, node, q).0;
            && after.table == node.table && after.receipts == node.receipts
            && (forall key | key in after.marks ::
                  (key in node.marks && after.marks[key] == node.marks[key]) || AddsMark(q, key, after.marks[key]))
            && (forall key | key in after.saved ::
                  || (key in node.saved && after.saved[key] == node.saved[key])
                  || (key in node.marks && after.saved[key] == node.marks[key])
                  || AddsMark(q, key, after.saved[key]))
  {
  }

  lemma {:induction false} StoreAdds(setup: Setup, node: Node, q: Request)
    requires Proven(q)
    ensures var after := StoreStep(setup, node, q).0;
            && after.marks == node.marks && after.saved == node.saved && after.receipts == node.receipts
            && forall id | id in after.table ::
                 (id in node.table && after.table[id] == node.table[id]) || AddsRow(q, id, after.table[id])
  {
    hide Accept, Entitled, Outranks, Proven, AuthorizeRecord;
    if q.privacy.Some? && q.trust.Some? {
      StoreChangesIff(node.table, SubmissionOf(q));
      AuthorizedIff(q.record, q.peer, q.privacy.value, q.trust.value, q.now);
    }
  }

  lemma {:induction false} ReceiptAdds(setup: Setup, node: Node, q: Request, evidence: AcceptanceEvidence)
    requires Proven(q) && EntitledRequest(q)
    ensures var after := ReceiptStep(setup, node, q, evidence).0;
            && after.table == node.table && after.marks == node.marks && after.saved == node.saved
            && forall r | r in after.receipts :: r in node.receipts || AddsReceipt(q, r)
  {
    hide WellFormed, SameReceipt, NewObservationReceipt, EntitledRequest;
    ReceiptOf(setup.scheme, q.record, q.peer.deviceID, q.now);
  }

  /**
   Over any run of ingests, compactions and restarts, every row, mark and receipt on the node
   stems from an ingest whose proof verified to the key of its peer, the record's origin; rows
   and receipts also from one that was entitled to write.
   */
  lemma {:induction false} RunIsEarned(setup: Setup, run: seq<Event>)
    ensures Earned(run, After(setup, run))
  {
    hide IngestStep, Compact, EntitledRequest, Proven;
    if run != [] {
      var (init, e) := (run[..|run| - 1], run[|run| - 1]);
      var before := After(setup, init);
      RunIsEarned(setup, init);
      EarnedStays(init, e, before);
      assert init + [e] == run;
      match e {
        case Ingested(q) =>
          IngestAdds(setup, before, q);
          AddedIsEarned(run, q);
        case Compacted(c) =>
          forall id | id in before.table
            ensures id in Compact(setup.scheme, before.table, c, before.receipts).0 ==>
                      Compact(setup.scheme, before.table, c, before.receipts).0[id] == before.table[id]
          {
            OnlyDueRowsGo(setup.scheme, before.table, c, before.receipts, id);
          }
          CompactAddsNothing(setup.scheme, before.table, c, before.receipts);
        case Restarted =>
      }
    }
  }

  lemma {:induction false} CompactAddsNothing(scheme: DigestScheme, table: Table, c: CompactionRequest,
                                              receipts: set<ObservationReceipt>)
    ensures Compact(scheme, table, c, receipts).0.Keys <= table.Keys
  {
    hide Removable;
  }

  lemma {:induction false} AddedIsEarned(run: seq<Event>, q: Request)
    requires run != [] && run[|run| - 1] == Ingested(q)
    ensures forall id, row | AddsRow(q, id, row) :: RowEarned(run, id, row)
    ensures forall key, revision | AddsMark(q, key, revision) :: MarkEarned(run, key, revision)
    ensures forall r | AddsReceipt(q, r) :: ReceiptEarned(run, r)
  {
    hide EntitledRequest, Proven;
    var k: nat := |run| - 1;
    assert Proven(q) ==> ProvenAt(run, k);
  }

  /** In any run the log never holds two receipts of one observation. */
  lemma {:induction false} LogHasNoDuplicates(setup: Setup, run: seq<Event>)
    ensures NoDuplicates(After(setup, run).receipts)
  {
    hide Step, NoDuplicates;
    if run == [] {
      EmptyHasNone();
    } else {
      var (init, e) := (run[..|run| - 1], run[|run| - 1]);
      LogHasNoDuplicates(setup, init);
      StepKeepsDistinct(setup, After(setup, init), e);
    }
  }

  lemma {:induction false} EmptyHasNone()
    ensures NoDuplicates({})
  {
  }

  lemma {:induction false} StepKeepsDistinct(setup: Setup, node: Node, e: Event)
    requires NoDuplicates(node.receipts)
    ensures NoDuplicates(Step(setup, node, e).receipts)
  {
    hide Compact, StoreStep, GuardStep, NewObservationReceipt, Appended, NoDuplicates;
    if e.Ingested? {
      var q := e.q;
      var (guarded, v) := GuardStep(setup, node, q);
      var (stored, r) := StoreStep(setup, guarded, q);
      StepsKeepReceipts(setup, node, q);
      var receipt := NewObservationReceipt(setup.scheme, q.record, q.peer.deviceID, q.now);
      if receipt.Some? {
        AppendIff(stored.receipts, receipt.value, q.receiptsDisk.readable, q.receiptsDisk.writable);
      }
    }
  }
}
