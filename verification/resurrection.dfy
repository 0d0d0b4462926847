/** When compaction can remove a tombstone at all, and how a removed record can come back. */
module Resurrection {
  import opened Outcomes
  import opened Records
  import opened SearchHistory
  import opened Convergence
  import opened Replay
  import opened Receipts
  import opened Compaction
  import opened Ingest
  import opened ReplicationRuns
  import opened GuardMemory

  /** The records offered to `Ingest` in a run, as they read back from a file. */
  function Offered(run: seq<Event>): set<RecordEnvelope>
  {
    set i | 0 <= i < |run| && run[i].Ingested? :: ReadBack(run[i].q.record)
  }

  /** The digest hash separates the records of this run, and time stamps are single lines. */
  ghost predicate DigestsSeparate(scheme: DigestScheme, records: set<RecordEnvelope>)
  {
    && (forall a | a in records :: '\n' !in scheme.stamp(a.updatedAt))
    && (forall a, b | a in records && b in records && RecordDigest(scheme, a) == RecordDigest(scheme, b) ::
          DigestText(scheme, a) == DigestText(scheme, b))
  }

  /** `receipt` is the one `Ingest` writes for `record`, whose signer is its origin. */
  predicate Attests(scheme: DigestScheme, receipt: ObservationReceipt, record: RecordEnvelope)
  {
    && receipt.dataset == record.dataset
    && receipt.recordID == record.recordID
    && receipt.recordDigest == RecordDigest(scheme, record)
    && receipt.observerDevice == record.originDevice
  }

  ghost predicate Attested(scheme: DigestScheme, receipt: ObservationReceipt, records: set<RecordEnvelope>)
  {
    exists record :: record in records && Attests(scheme, receipt, record)
  }

  /** Rows and receipts of the node all stem from the offered records. */
  ghost predicate Traced(scheme: DigestScheme, node: Node, records: set<RecordEnvelope>)
  {
    && (forall id | id in node.table :: node.table[id].envelope in records)
    && (forall r | r in node.receipts :: Attested(scheme, r, records))
  }

  lemma {:induction false} StoreStepTraced(setup: Setup, node: Node, q: Request)
    ensures var after := StoreStep(setup, node, q).0;
            && after.receipts == node.receipts
            && forall id | id in after.table ::
                 (id in node.table && after.table[id] == node.table[id])
                     || after.table[id].envelope == ReadBack(q.record)
  {
    hide Policy.AuthorizeRecord;
  }

  lemma {:induction false} ReceiptStepTraced(setup: Setup, node: Node, q: Request, evidence: Policy.AcceptanceEvidence)
    requires q.record.originDevice == q.peer.deviceID
    ensures var after := ReceiptStep(setup, node, q, evidence).0;
            && after.table == node.table
            && forall r | r in after.receipts :: r in node.receipts || Attests(setup.scheme, r, ReadBack(q.record))
  {
    hide WellFormed, SameReceipt;
  }

  lemma {:induction false} IngestTraced(setup: Setup, node: Node, q: Request)
    ensures var after := IngestStep(setup, node, q).0;
            && (forall id | id in after.table ::
                  (id in node.table && after.table[id] == node.table[id])
                      || after.table[id].envelope == ReadBack(q.record))
            && (forall r | r in after.receipts :: r in node.receipts || Attests(setup.scheme, r, ReadBack(q.record)))
  {
    hide Advance, StoreStep, ReceiptStep, Attests;
    if Presented(q) {
      var (guarded, verdict) := GuardStep(setup, node, q);
      if verdict == Accepted {
        StoreStepTraced(setup, guarded, q);
        var (stored, r) := StoreStep(setup, guarded, q);
        if r.Success? {
          ReceiptStepTraced(setup, stored, q, r.value);
        }
      }
    }
  }

  lemma {:induction false} OfferedExtends(run: seq<Event>, e: Event)
    ensures Offered(run + [e]) == Offered(run) + if e.Ingested? then {ReadBack(e.q.record)} else {}
  {
    var all := run + [e];
    forall r | r in Offered(run)
      ensures r in Offered(all)
    {
      var i :| 0 <= i < |run| && run[i].Ingested? && ReadBack(run[i].q.record) == r;
      assert all[i] == run[i];
    }
    if e.Ingested? {
      assert all[|run|] == e;
    }
  }

  lemma {:induction false} StepTraced(setup: Setup, node: Node, e: Event, records: set<RecordEnvelope>)
    requires Traced(setup.scheme, node, records)
    ensures Traced(setup.scheme, Step(setup, node, e), records + if e.Ingested? then {ReadBack(e.q.record)} else {})
  {
    hide IngestStep, Attests, Removable;
    var more := records + if e.Ingested? then {ReadBack(e.q.record)} else {};
    if e.Ingested? {
      IngestTraced(setup, node, e.q);
    }
    forall r | r in Step(setup, node, e).receipts
      ensures Attested(setup.scheme, r, more)
    {
      if r in node.receipts {
        assert Attested(setup.scheme, r, records);
      } else {
        assert Attests(setup.scheme, r, ReadBack(e.q.record));
      }
    }
  }

  lemma {:induction false} RunTraced(setup: Setup, run: seq<Event>)
    ensures Traced(setup.scheme, After(setup, run), Offered(run))
  {
    hide Step, Traced;
    if run == [] {
      NothingTraced(setup.scheme, Offered(run));
    } else {
      var before, e := run[..|run| - 1], run[|run| - 1];
      assert before + [e] == run;
      RunTraced(setup, before);
      OfferedExtends(before, e);
      StepTraced(setup, After(setup, before), e, Offered(before));
    }
  }

  lemma {:induction false} NothingTraced(scheme: DigestScheme, records: set<RecordEnvelope>)
    ensures Traced(scheme, EmptyNode, records)
  {
  }

  /** Event `k` is an ingest of this very version of the record, answered with success. */
  ghost predicate Acknowledged(setup: Setup, run: seq<Event>, k: nat, t: RecordEnvelope)
    requires k < |run|
  {
    && run[k].Ingested? && IngestStep(setup, After(setup, run[..k]), run[k].q).1.Success?
    && SameVersion(setup.scheme, run[k].q.record, t)
  }

  /** Identifier, revision, time stamp and origin agree: all that a receipt can tell. */
  predicate SameVersion(scheme: DigestScheme, a: RecordEnvelope, b: RecordEnvelope)
  {
    && a.dataset == b.dataset && a.recordID == b.recordID && a.revision == b.revision
    && scheme.stamp(a.updatedAt) == scheme.stamp(b.updatedAt) && a.originDevice == b.originDevice
  }

  /** Event `k` is an ingest that wrote, and acknowledged, the receipt `r`. */
  ghost predicate Wrote(setup: Setup, run: seq<Event>, k: nat, r: ObservationReceipt)
    requires k < |run|
  {
    && run[k].Ingested? && SignatureHolds(run[k].q)
    && IngestStep(setup, After(setup, run[..k]), run[k].q).1.Success?
    && NewObservationReceipt(setup.scheme, run[k].q.record, run[k].q.peer.deviceID, run[k].q.now) == Some(r)
  }

  /** Every receipt in the log was acknowledged to its signer. */
  lemma {:induction false} ReceiptsAcknowledge(setup: Setup, run: seq<Event>, n: nat, r: ObservationReceipt)
    requires n <= |run| && r in After(setup, run[..n]).receipts
    ensures setup.receipting && exists k :: 0 <= k < n && Wrote(setup, run, k, r)
  {
    hide IngestStep, Compact, NewObservationReceipt, SignatureHolds;
    if n > 0 {
      AfterNext(setup, run, n - 1);
      if r in After(setup, run[..n - 1]).receipts {
        ReceiptsAcknowledge(setup, run, n - 1, r);
      } else {
        var (before, q) := (After(setup, run[..n - 1]), run[n - 1].q);
        IngestReceipts(setup, before, q);
        assert r in IngestStep(setup, before, q).0.receipts - before.receipts;
        assert Wrote(setup, run, n - 1, r);
      }
    }
  }

  lemma {:induction false} DigestsTell(scheme: DigestScheme, records: set<RecordEnvelope>, a: RecordEnvelope,
                                       b: RecordEnvelope)
    requires DigestsSeparate(scheme, records) && ReadBack(a) in records && b in records
    requires a.dataset == b.dataset && a.recordID == b.recordID && a.revision == b.revision
    ensures RecordDigest(scheme, a) == RecordDigest(scheme, b) <==> SameVersion(scheme, a, b)
  {
    assert DigestText(scheme, ReadBack(a)) == DigestText(scheme, a);
    if RecordDigest(scheme, a) == RecordDigest(scheme, b) {
      SameTextSameOrigin(scheme, ReadBack(a), b);
    }
  }

  /**
   Who counts as having observed a record: only its origin, because receipts are written for the
   signer, who must be the origin, and the digest covers the origin; and the origin exactly once
   an ingest of this version was answered with success.
   */
  lemma {:induction false} ObservedIffAcknowledged(setup: Setup, run: seq<Event>, n: nat, t: RecordEnvelope,
                                                   peer: string)
    requires n <= |run| && t in Offered(run[..n]) && DigestsSeparate(setup.scheme, Offered(run[..n]))
    ensures Observed(setup.scheme, t, peer, After(setup, run[..n]).receipts)
       <==> setup.receipting && peer == t.originDevice && exists k :: 0 <= k < n && Acknowledged(setup, run, k, t)
  {
    hide IngestStep, DigestsSeparate, After, DigestText;
    var held := After(setup, run[..n]).receipts;
    if Observed(setup.scheme, t, peer, held) {
      var r :| r in held && Matches(setup.scheme, t, r) && r.observerDevice == peer;
      ReceiptsAcknowledge(setup, run, n, r);
      var k :| 0 <= k < n && Wrote(setup, run, k, r);
      WasOffered(run, k, n);
      DigestsTell(setup.scheme, Offered(run[..n]), run[k].q.record, t);
      assert Acknowledged(setup, run, k, t);
    }
    if setup.receipting && peer == t.originDevice && exists k :: 0 <= k < n && Acknowledged(setup, run, k, t) {
      var k :| 0 <= k < n && Acknowledged(setup, run, k, t);
      var q := run[k].q;
      IngestReceipts(setup, After(setup, run[..k]), q);
      var r :| r in IngestStep(setup, After(setup, run[..k]), q).0.receipts
               && SameReceipt(r, NewObservationReceipt(setup.scheme, q.record, q.peer.deviceID, q.now).value);
      AfterNext(setup, run, k);
      ReceiptsStay(setup, run, k + 1, n);
      WasOffered(run, k, n);
      DigestsTell(setup.scheme, Offered(run[..n]), q.record, t);
      assert Matches(setup.scheme, t, r);
    }
  }

  lemma {:induction false} WasOffered(run: seq<Event>, k: nat, n: nat)
    requires k < n <= |run| && run[k].Ingested?
    ensures ReadBack(run[k].q.record) in Offered(run[..n])
  {
    assert run[..n][k] == run[k];
  }

  /** A compaction that asks for `peer` and nobody else, with the record past retention and working files. */
  predicate AsksOnly(c: CompactionRequest, peer: string, record: RecordEnvelope)
  {
    && c.minimumRetention > 0 && c.disk == Disk(true, true) && c.receiptsReadable
    && c.requiredPeers != [] && (forall p | p in c.requiredPeers :: p == peer)
    && record.deleted && record.updatedAt + c.minimumRetention <= c.now
  }

  /**
   When a compaction in a run removes a row: exactly when its file operations succeed, the row
   is a tombstone past retention, some peer is required and every required peer is the
   tombstone's own origin, and the origin's ingest of this version was once acknowledged.
   */
  lemma {:induction false} RemovesIff(setup: Setup, run: seq<Event>, i: nat, id: string)
    requires i < |run| && run[i].Compacted? && id in After(setup, run[..i]).table
    requires DigestsSeparate(setup.scheme, Offered(run[..i]))
    ensures Removes(setup, run, i, id)
       <==> var t := After(setup, run[..i]).table[id].envelope;
            && AsksOnly(run[i].c, t.originDevice, t) && setup.receipting
            && exists k :: 0 <= k < i && Acknowledged(setup, run, k, t)
  {
    hide After, DigestsSeparate, Observed, Witnessed, Acknowledged, Compact;
    var (c, before) := (run[i].c, After(setup, run[..i]));
    var t := before.table[id].envelope;
    AfterNext(setup, run, i);
    RunTraced(setup, run[..i]);
    OnlyDueRowsGo(setup.scheme, before.table, c, before.receipts, id);
    var acknowledged := setup.receipting && exists k :: 0 <= k < i && Acknowledged(setup, run, k, t);
    forall n | 0 <= n < |c.requiredPeers|
      ensures Witnessed(setup.scheme, t, c.requiredPeers[n], before.receipts)
         <==> acknowledged && c.requiredPeers[n] == t.originDevice
    {
      WitnessedIff(setup.scheme, t, c.requiredPeers[n], before.receipts);
      ObservedIffAcknowledged(setup, run, i, t, c.requiredPeers[n]);
    }
    DueIsAskedOf(setup.scheme, t, c, before.receipts, acknowledged);
    assert Removes(setup, run, i, id) <==> id !in Compact(setup.scheme, before.table, c, before.receipts).0;
  }

  lemma {:induction false} DueIsAskedOf(scheme: DigestScheme, t: RecordEnvelope, c: CompactionRequest,
                                        receipts: set<ObservationReceipt>, acknowledged: bool)
    requires forall n | 0 <= n < |c.requiredPeers| ::
               Witnessed(scheme, t, c.requiredPeers[n], receipts)
               <==> acknowledged && c.requiredPeers[n] == t.originDevice
    ensures AsksOnly(c, t.originDevice, t) && acknowledged
       <==> && c.minimumRetention > 0 && c.disk.readable && c.disk.writable && c.receiptsReadable
            && Due(scheme, t, c, receipts)
  {
    hide Witnessed;
    assert c.disk == Disk(c.disk.readable, c.disk.writable);
    assert forall n | 0 <= n < |c.requiredPeers| :: c.requiredPeers[n] in c.requiredPeers;
    if |c.requiredPeers| > 0 && Due(scheme, t, c, receipts) {
      assert Witnessed(scheme, t, c.requiredPeers[0], receipts);
      forall p | p in c.requiredPeers
        ensures p == t.originDevice
      {
        var n :| 0 <= n < |c.requiredPeers| && c.requiredPeers[n] == p;
        assert Witnessed(scheme, t, c.requiredPeers[n], receipts);
      }
    }
  }

  /** So a tombstone can be compacted only when every required peer is its origin. */
  lemma {:induction false} OnlyOriginConfirms(setup: Setup, run: seq<Event>, i: nat, id: string)
    requires Removes(setup, run, i, id) && DigestsSeparate(setup.scheme, Offered(run[..i]))
    ensures forall peer | peer in run[i].c.requiredPeers :: peer == Tombstone(setup, run, i, id).originDevice
  {
    hide After, DigestsSeparate, Acknowledged, Candidate;
    RemovesIff(setup, run, i, id);
  }

  /** With two different required peers, receipt-driven compaction removes nothing in any run. */
  lemma {:induction false} TwoRequiredPeersBlockCompaction(setup: Setup, run: seq<Event>, i: nat, p: string, q: string)
    requires i < |run| && run[i].Compacted? && p in run[i].c.requiredPeers && q in run[i].c.requiredPeers && p != q
    requires DigestsSeparate(setup.scheme, Offered(run[..i]))
    ensures After(setup, run[..i + 1]).table == After(setup, run[..i]).table
  {
    hide DigestsSeparate, Acknowledged, Candidate, Offered;
    var before, after := After(setup, run[..i]).table, After(setup, run[..i + 1]).table;
    AfterNext(setup, run, i);
    assert forall id | id in after :: id in before && after[id] == before[id];
    forall id | id in before
      ensures id in after
    {
      RemovesIff(setup, run, i, id);
    }
  }

  /** Any event but an authorised, signed ingest of `id` itself leaves an absent row absent. */
  lemma {:induction false} OnlyIngestsAdd(setup: Setup, run: seq<Event>, j: nat, id: string)
    requires j < |run| && id !in After(setup, run[..j]).table && id in After(setup, run[..j + 1]).table
    ensures run[j].Ingested? && run[j].q.record.recordID == id
  {
    hide IngestStep, Removable;
    AfterNext(setup, run, j);
    if run[j].Ingested? {
      IngestTraced(setup, After(setup, run[..j]), run[j].q);
      IngestKeysRows(setup, After(setup, run[..j]), run[j].q);
    }
  }

  lemma {:induction false} IngestKeysRows(setup: Setup, node: Node, q: Request)
    ensures IngestStep(setup, node, q).0.table.Keys <= node.table.Keys + {q.record.recordID}
  {
    hide Policy.AuthorizeRecord, Advance, ReceiptStep;
    if Presented(q) && GuardStep(setup, node, q).1 == Accepted {
      var (stored, r) := StoreStep(setup, GuardStep(setup, node, q).0, q);
      if r.Success? {
        ReceiptStepKeepsTable(setup, stored, q, r.value);
      }
    }
  }

  lemma {:induction false} ReceiptStepKeepsTable(setup: Setup, node: Node, q: Request,
                                                 evidence: Policy.AcceptanceEvidence)
    ensures ReceiptStep(setup, node, q, evidence).0.table == node.table
  {
  }

  /**
   When a removed record comes back.  While a row is absent, event `j` brings it (back) exactly
   when it is a signed and authorised ingest of the record, by whatever device, whose mark can
   be saved and whose key and revision the guard no longer remembers.
   */
  lemma {:induction false} ResurrectsIff(setup: Setup, run: seq<Event>, j: nat, id: string)
    requires Durable(setup) && setup.history
    requires j < |run| && id !in After(setup, run[..j]).table
    ensures id in After(setup, run[..j + 1]).table
       <==> && run[j].Ingested? && run[j].q.record.recordID == id
            && Presented(run[j].q) && Authorised(run[j].q) && run[j].q.guardWritable
            && !Remembered(setup, run, j, KeyAt(run[j]), run[j].q.record.revision)
  {
    hide After, Presented, Authorised, Remembered;
    if run[j].Ingested? {
      StoredUnlessRemembered(setup, run, j);
    }
    if id in After(setup, run[..j + 1]).table {
      OnlyIngestsAdd(setup, run, j, id);
    }
  }

  /**
   No resurrection by a required peer: its record at or below a compacted revision is rejected
   and changes nothing, as long as every loss of its mark has been healed by a restart in time.
   */
  lemma {:induction false} NoResurrection(setup: Setup, run: seq<Event>, i: nat, j: nat, id: string)
    requires Durable(setup)
    requires i < j < |run| && Removes(setup, run, i, id) && run[j].Ingested?
    requires var (q, t) := (run[j].q, Tombstone(setup, run, i, id));
             && q.peer.deviceID in run[i].c.requiredPeers
             && q.record.dataset == t.dataset && q.record.recordID == t.recordID && q.record.revision <= t.revision
    requires forall f | 0 <= f < j && Lost(setup, run, f, KeyAt(run[j])) :: Healed(setup, run, f, j)
    ensures IngestStep(setup, After(setup, run[..j]), run[j].q).1.Failure?
    ensures After(setup, run[..j + 1]) == After(setup, run[..j])
  {
    hide After, Removes, Lost, Healed;
    var (q, t) := (run[j].q, Tombstone(setup, run, i, id));
    RemovedWasConfirmed(setup, run, i, id);
    assert Observed(setup.scheme, t, q.peer.deviceID, After(setup, run[..i]).receipts);
    var r :| r in After(setup, run[..i]).receipts && Matches(setup.scheme, t, r) && r.observerDevice == q.peer.deviceID;
    ReceiptsStem(setup, run, i, r);
    var k :| 0 <= k < i && MarkedAt(setup, run, k, ReceiptKey(r), r.revision);
    assert ReceiptKey(r) == KeyAt(run[j]) && q.record.revision <= r.revision;
    assert MarkedAt(setup, run, k, KeyAt(run[j]), q.record.revision);
    assert Remembered(setup, run, j, KeyAt(run[j]), q.record.revision);
    MarksRemember(setup, run, j, KeyAt(run[j]), q.record.revision);
    AfterNext(setup, run, j);
    CoveredIsRejected(setup, After(setup, run[..j]), q);
  }

  /** A fully composed ingestor with durable marks and receipts. */
  predicate Complete(setup: Setup)
  {
    setup.history && setup.guarded && setup.persistent && setup.receipting
  }

  /** A signed, authorised search.history request whose store and receipt writes succeed. */
  predicate Sound(setup: Setup, q: Request)
  {
    && Presented(q) && q.privacy.Some? && q.trust.Some?
    && Lands(SubmissionOf(q))
    && q.receiptsDisk == Disk(true, true)
    && NewObservationReceipt(setup.scheme, q.record, q.peer.deviceID, q.now).Some?
    && WellFormed(NewObservationReceipt(setup.scheme, q.record, q.peer.deviceID, q.now).value)
  }

  lemma {:induction false} SoundIngestLands(setup: Setup, node: Node, q: Request)
    requires Complete(setup) && Sound(setup, q) && q.guardWritable
    requires !MarkCovers(node.marks, KeyOf(q.peer.deviceID, q.record), q.record.revision)
    requires q.record.recordID !in node.table
    ensures var (after, r) := IngestStep(setup, node, q);
            var raised := node.marks[KeyOf(q.peer.deviceID, q.record) := q.record.revision];
            && r.Success?
            && q.record.recordID in after.table
            && after.table[q.record.recordID].envelope == ReadBack(q.record)
            && after.table.Keys == node.table.Keys + {q.record.recordID}
            && after.marks == raised && after.saved == raised
            && Observed(setup.scheme, ReadBack(q.record), q.peer.deviceID, after.receipts)
  {
    hide Policy.AuthorizeRecord, NewObservationReceipt;
    hide WellFormed;
    var receipt := NewObservationReceipt(setup.scheme, q.record, q.peer.deviceID, q.now).value;
    ReceiptMatchesItsRecord(setup.scheme, q.record, q.peer.deviceID, q.now);
    var after := IngestStep(setup, node, q).0;
    if exists r :: r in node.receipts && SameReceipt(r, receipt) {
      var r :| r in node.receipts && SameReceipt(r, receipt);
      assert r in after.receipts && Matches(setup.scheme, ReadBack(q.record), r);
    } else {
      assert receipt in after.receipts;
    }
  }

  lemma {:induction false} ReceiptMatchesItsRecord(scheme: DigestScheme, record: RecordEnvelope, observer: string,
                                                   at: Time)
    requires NewObservationReceipt(scheme, record, observer, at).Some?
    ensures var receipt := NewObservationReceipt(scheme, record, observer, at).value;
            Matches(scheme, ReadBack(record), receipt) && receipt.observerDevice == observer
  {
  }

  lemma {:induction false} ObservedTombstoneGoes(setup: Setup, node: Node, c: CompactionRequest, id: string,
                                                 peer: string)
    requires id in node.table && AsksOnly(c, peer, node.table[id].envelope)
    requires Observed(setup.scheme, node.table[id].envelope, peer, node.receipts)
    ensures var after := Step(setup, node, Compacted(c));
            && id !in after.table
            && after.marks == node.marks && after.saved == node.saved && after.receipts == node.receipts
  {
    hide Observed;
    assert Confirmed(setup.scheme, node.table[id].envelope, c.requiredPeers, node.receipts);
    assert id !in Survivors(setup.scheme, node.table, c, node.receipts);
  }

  /**
   The healing hypothesis of `NoResurrection` is needed.  A device's tombstone is ingested,
   a later raise of its mark cannot be saved, the tombstone is compacted, and then the same
   device brings back any revision that the tombstone had replaced.
   */
  lemma {:induction false} ForgottenMarkResurrects(setup: Setup, t: Request, raise: Request, c: CompactionRequest,
                                                   late: Request)
    requires Complete(setup) && Sound(setup, t) && Sound(setup, late) && t.guardWritable && late.guardWritable
    requires Presented(raise) && !raise.guardWritable && t.record.revision < raise.record.revision
    requires t.peer.deviceID == raise.peer.deviceID == late.peer.deviceID
    requires t.record.recordID == raise.record.recordID == late.record.recordID
    requires raise.record.dataset == Dataset && late.record.revision <= t.record.revision
    requires AsksOnly(c, t.peer.deviceID, ReadBack(t.record))
    ensures var run := [Ingested(t), Ingested(raise), Compacted(c), Ingested(late)];
            && Removes(setup, run, 2, t.record.recordID)
            && IngestStep(setup, After(setup, run[..3]), late).1.Success?
            && late.record.recordID in After(setup, run).table
  {
    hide Sound;
    var run := [Ingested(t), Ingested(raise), Compacted(c), Ingested(late)];
    var key := KeyOf(t.peer.deviceID, t.record);
    SoundFacts(setup, t);
    SoundFacts(setup, late);
    SoundIngestLands(setup, EmptyNode, t);
    var n1 := Step(setup, EmptyNode, run[0]);
    IngestMarksBeforeReceipts(setup, n1, raise);
    var n2 := Step(setup, n1, run[1]);
    assert n2 == n1.(marks := n1.marks - {key}, table := n2.table, receipts := n2.receipts);
    ObservedTombstoneGoes(setup, n2, c, t.record.recordID, t.peer.deviceID);
    var n3 := Step(setup, n2, run[2]);
    SoundIngestLands(setup, n3, late);
    FourSteps(setup, run);
  }

  lemma {:induction false} SoundFacts(setup: Setup, q: Request)
    requires Sound(setup, q)
    ensures Presented(q) && q.record.dataset == Dataset
  {
  }

  lemma {:induction false} FourSteps(setup: Setup, run: seq<Event>)
    requires |run| == 4
    ensures After(setup, run[..2]) == Step(setup, Step(setup, EmptyNode, run[0]), run[1])
    ensures After(setup, run[..3]) == Step(setup, After(setup, run[..2]), run[2])
    ensures After(setup, run) == Step(setup, After(setup, run[..3]), run[3])
  {
    hide Step;
    AfterNext(setup, run, 0);
    AfterNext(setup, run, 1);
    AfterNext(setup, run, 2);
    AfterNext(setup, run, 3);
    assert run[..4] == run;
  }

  /** Compaction protects only against required peers: any other device can bring the record back. */
  lemma {:induction false} OtherDeviceResurrects(setup: Setup, t: Request, c: CompactionRequest, late: Request)
    requires Complete(setup) && Sound(setup, t) && Sound(setup, late) && t.guardWritable && late.guardWritable
    requires t.peer.deviceID != late.peer.deviceID && t.record.recordID == late.record.recordID
    requires AsksOnly(c, t.peer.deviceID, ReadBack(t.record))
    ensures var run := [Ingested(t), Compacted(c), Restarted, Ingested(late)];
            && Removes(setup, run, 1, t.record.recordID)
            && IngestStep(setup, After(setup, run[..3]), late).1.Success?
            && late.record.recordID in After(setup, run).table
  {
    hide Sound;
    var run := [Ingested(t), Compacted(c), Restarted, Ingested(late)];
    SoundIngestLands(setup, EmptyNode, t);
    var n1 := Step(setup, EmptyNode, run[0]);
    ObservedTombstoneGoes(setup, n1, c, t.record.recordID, t.peer.deviceID);
    var n3 := Step(setup, Step(setup, n1, run[1]), run[2]);
    SoundIngestLands(setup, n3, late);
    FourSteps(setup, run);
    AfterNext(setup, run, 0);
  }
}
