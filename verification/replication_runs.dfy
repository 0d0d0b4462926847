/** Whole runs of one node: ingests, compactions and restarts in any order. */
module ReplicationRuns {
  import opened Outcomes
  import opened Records
  import opened Convergence
  import opened Replay
  import opened Receipts
  import opened Compaction
  import opened Ingest

  datatype Event = Ingested(q: Request) | Compacted(c: CompactionRequest) | Restarted

  ghost function Step(setup: Setup, node: Node, e: Event): Node
  {
    match e
    case Ingested(q) => IngestStep(setup, node, q).0
    case Compacted(c) => node.(table := Compact(setup.scheme, node.table, c, node.receipts).0)
    case Restarted => node.(marks := node.saved)
  }

  /** The node after a run that starts from nothing. */
  ghost function After(setup: Setup, run: seq<Event>): Node
  {
    if run == [] then EmptyNode else Step(setup, After(setup, run[..|run| - 1]), run[|run| - 1])
  }

  lemma {:induction false} AfterNext(setup: Setup, run: seq<Event>, n: nat)
    requires n < |run|
    ensures After(setup, run[..n + 1]) == Step(setup, After(setup, run[..n]), run[n])
  {
    assert run[..n + 1][..n] == run[..n];
  }

  predicate MarkCovers(marks: Marks, key: ReplayKey, revision: Revision)
  {
    key in marks && revision <= marks[key]
  }

  function ReceiptKey(r: ObservationReceipt): ReplayKey
  {
    ReplayKey(r.observerDevice, r.dataset, r.recordID)
  }

  /** The request is authorised for the store and the store's file operations succeed. */
  predicate Authorised(q: Request)
  {
    q.privacy.Some? && q.trust.Some? && Lands(SubmissionOf(q))
  }

  predicate Durable(setup: Setup)
  {
    setup.guarded && setup.persistent
  }

  /** What one ingest does to marks and receipts. */
  lemma {:induction false} IngestMarksBeforeReceipts(setup: Setup, node: Node, q: Request)
    requires Durable(setup)
    ensures var after := IngestStep(setup, node, q).0;
            var key := KeyOf(q.peer.deviceID, q.record);
            && node.receipts <= after.receipts
            && (!Presented(q) ==> after == node)
            && (Presented(q) ==>
                 var (marks, saved, verdict) := Advance(true, node.marks, node.saved, key, q.record.revision,
                                                        q.guardWritable);
                 && after.marks == marks && after.saved == saved
                 && (verdict != Accepted ==> after.receipts == node.receipts && after.table == node.table)
                 && forall r | r in after.receipts - node.receipts ::
                      ReceiptKey(r) == key && r.revision == q.record.revision)
  {
    hide SearchHistory.Accept;
  }

  /** The receipts an ingest leaves behind: none goes, and a new one is its own, acknowledged in the answer. */
  lemma {:induction false} IngestReceipts(setup: Setup, node: Node, q: Request)
    ensures var (after, answer) := IngestStep(setup, node, q);
            var own := NewObservationReceipt(setup.scheme, q.record, q.peer.deviceID, q.now);
            && node.receipts <= after.receipts
            && (forall r | r in after.receipts - node.receipts ::
                  setup.receipting && SignatureHolds(q) && answer.Success? && own == Some(r))
            && (setup.receipting && answer.Success? ==>
                 && SignatureHolds(q) && own.Some?
                 && exists r :: r in after.receipts && SameReceipt(r, own.value))
  {
    hide GuardStep, StoreStep, NewObservationReceipt, WellFormed, SignatureHolds;
    if Presented(q) && GuardStep(setup, node, q).1 == Accepted {
      var (stored, r) := StoreStep(setup, GuardStep(setup, node, q).0, q);
      StepsKeepReceipts(setup, node, q);
      var receipt := NewObservationReceipt(setup.scheme, q.record, q.peer.deviceID, q.now);
      if r.Success? && receipt.Some? {
        assert SameReceipt(receipt.value, receipt.value);
      }
    } else {
      StepsKeepReceipts(setup, node, q);
    }
  }

  lemma {:induction false} StepsKeepReceipts(setup: Setup, node: Node, q: Request)
    ensures GuardStep(setup, node, q).0.receipts == node.receipts
    ensures StoreStep(setup, GuardStep(setup, node, q).0, q).0.receipts == node.receipts
  {
    hide Advance, SearchHistory.Accept;
  }

  lemma {:induction false} ReceiptsStay(setup: Setup, run: seq<Event>, i: nat, j: nat)
    requires i <= j <= |run|
    ensures After(setup, run[..i]).receipts <= After(setup, run[..j]).receipts
    decreases j
  {
    hide IngestStep, Compact, NewObservationReceipt, SignatureHolds;
    if i < j {
      ReceiptsStay(setup, run, i, j - 1);
      AfterNext(setup, run, j - 1);
      if run[j - 1].Ingested? {
        IngestReceipts(setup, After(setup, run[..j - 1]), run[j - 1].q);
      }
    }
  }

  /** Event `i` is a compaction that removes the row `id`. */
  ghost predicate Removes(setup: Setup, run: seq<Event>, i: nat, id: string)
  {
    && i < |run| && run[i].Compacted?
    && id in After(setup, run[..i]).table
    && id !in After(setup, run[..i + 1]).table
  }

  ghost function Tombstone(setup: Setup, run: seq<Event>, i: nat, id: string): RecordEnvelope
    requires Removes(setup, run, i, id)
  {
    After(setup, run[..i]).table[id].envelope
  }

  lemma {:induction false} RemovedWasConfirmed(setup: Setup, run: seq<Event>, i: nat, id: string)
    requires Removes(setup, run, i, id)
    ensures var t := Tombstone(setup, run, i, id);
            t.deleted && Confirmed(setup.scheme, t, run[i].c.requiredPeers, After(setup, run[..i]).receipts)
  {
    hide Confirmed;
    AfterNext(setup, run, i);
  }

  lemma {:induction false} CoveredIsRejected(setup: Setup, node: Node, q: Request)
    requires setup.guarded && MarkCovers(node.marks, KeyOf(q.peer.deviceID, q.record), q.record.revision)
    ensures IngestStep(setup, node, q).0 == node && IngestStep(setup, node, q).1.Failure?
  {
    hide SearchHistory.Accept, Appended;
  }
}
