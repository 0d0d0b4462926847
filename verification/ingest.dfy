/** The ingest pipeline: signature, replay guard, policy, store, receipt, in that order. */
module Ingest {
  import opened Outcomes
  import opened Records
  import opened Policy
  import opened SearchHistory
  import opened Replay
  import opened Receipts

  /** A record proof and the key fingerprint its Ed25519 signature verifies to, if it does. */
  datatype RecordProof = RecordProof(deviceID: string, verified: Option<string>)

  /** One `Ingest` call with the answers of the providers and of the file system. */
  datatype Request = Request(
    providersReady: bool,
    peer: AuthenticatedPeer,
    record: RecordEnvelope,
    proof: RecordProof,
    privacy: Option<PrivacyDecision>,
    trust: Option<TrustEvidence>,
    now: Time,
    guardWritable: bool,
    storeDisk: Disk,
    receiptsDisk: Disk)

  datatype IngestError =
    | ProvidersUnavailable
    | RecordIdentityMismatch
    | ReplayRecord
    | GuardUnwritable
    | PrivacyUnavailable
    | TrustUnavailable
    | UnsupportedDataset
    | NotStored(reason: StoreError)
    | NoReceipt
    | ReceiptNotStored(why: ReceiptError)

  type Answer = Result<(AcceptanceEvidence, ObservationReceipt), IngestError>

  /** Everything durable on a node, and the guard's marks in memory. */
  datatype Node = Node(table: Table, marks: Marks, saved: Marks, receipts: set<ObservationReceipt>)

  const EmptyNode := Node(map[], map[], map[], {})

  /** Which optional parts an ingestor is composed with. */
  datatype Setup = Setup(history: bool, guarded: bool, persistent: bool, receipting: bool, scheme: DigestScheme)

  predicate SignatureHolds(q: Request)
  {
    && q.record.originDevice == q.peer.deviceID
    && q.proof.deviceID == q.peer.deviceID
    && q.proof.deviceID != ""
    && q.proof.verified == Some(q.peer.keyFingerprint)
  }

  /** The request gets past providers and signature, so the guard sees it. */
  predicate Presented(q: Request)
  {
    q.providersReady && SignatureHolds(q)
  }

  function GuardStep(setup: Setup, node: Node, q: Request): (Node, Verdict)
  {
    if !setup.guarded then (node, Accepted)
    else
      var (marks, saved, verdict) := Advance(setup.persistent, node.marks, node.saved,
                                             KeyOf(q.peer.deviceID, q.record), q.record.revision, q.guardWritable);
      (node.(marks := marks, saved := saved), verdict)
  }

  function SubmissionOf(q: Request): Submission
    requires q.privacy.Some? && q.trust.Some?
  {
    Submission(q.record, q.peer, q.privacy.value, q.trust.value, q.now, q.storeDisk)
  }

  function StoreStep(setup: Setup, node: Node, q: Request): (Node, Result<AcceptanceEvidence, IngestError>)
  {
    if q.privacy.None? then (node, Failure(PrivacyUnavailable))
    else if q.trust.None? then (node, Failure(TrustUnavailable))
    else if q.record.dataset != Dataset || !setup.history then (node, Failure(UnsupportedDataset))
    else
      var (table, r) := Accept(node.table, SubmissionOf(q));
      (node.(table := table), match r case Success(e) => Success(e) case Failure(e) => Failure(NotStored(e)))
  }

  function ReceiptStep(setup: Setup, node: Node, q: Request, evidence: AcceptanceEvidence): (Node, Answer)
  {
    match NewObservationReceipt(setup.scheme, q.record, q.peer.deviceID, q.now)
    case None => (node, Failure(NoReceipt))
    case Some(receipt) =>
      if !setup.receipting then (node, Success((evidence, receipt)))
      else
        var (receipts, r) := Appended(node.receipts, receipt, q.receiptsDisk.readable, q.receiptsDisk.writable);
        (node.(receipts := receipts),
         match r case Pass => Success((evidence, receipt)) case Fail(e) => Failure(ReceiptNotStored(e)))
  }

  /** The node and the answer after one `Ingest`. */
  function IngestStep(setup: Setup, node: Node, q: Request): (Node, Answer)
  {
    if !q.providersReady then (node, Failure(ProvidersUnavailable))
    else if !SignatureHolds(q) then (node, Failure(RecordIdentityMismatch))
    else
      var (guarded, verdict) := GuardStep(setup, node, q);
      match verdict
      case AlreadyObserved => (guarded, Failure(ReplayRecord))
      case SaveFailed => (guarded, Failure(GuardUnwritable))
      case Accepted =>
        var (stored, r) := StoreStep(setup, guarded, q);
        match r
        case Failure(e) => (stored, Failure(e))
        case Success(evidence) => ReceiptStep(setup, stored, q, evidence)
  }

  class Ingestor {
    const history: SearchHistoryStore?
    const receipts: ReceiptStore?
    const replay: ReplayGuard?
    const scheme: DigestScheme

    constructor (history: SearchHistoryStore?, receipts: ReceiptStore?, replay: ReplayGuard?, scheme: DigestScheme)
      ensures this.history == history && this.receipts == receipts && this.replay == replay && this.scheme == scheme
    {
      this.history, this.receipts, this.replay, this.scheme := history, receipts, replay, scheme;
    }

    ghost function SetupOf(): Setup
    {
      Setup(history != null, replay != null, replay != null && replay.persistent, receipts != null, scheme)
    }

    ghost function NodeOf(): Node
      reads history, receipts, replay
    {
      Node(if history == null then map[] else history.file,
           if replay == null then map[] else replay.revision,
           if replay == null then map[] else Loaded(replay.file),
           if receipts == null then {} else receipts.Held())
    }

    method Ingest(q: Request) returns (r: Answer)
      modifies history, receipts, replay
      ensures (NodeOf(), r) == IngestStep(SetupOf(), old(NodeOf()), q)
    {
      hide AuthorizeRecord;
      hide Accept, Advance, Appended, NewObservationReceipt, Loaded, Elements;
      if !q.providersReady {
        return Failure(ProvidersUnavailable);
      }
      if !SignatureHolds(q) {
        return Failure(RecordIdentityMismatch);
      }
      if replay != null {
        var verdict := replay.Accept(q.peer.deviceID, q.record, q.guardWritable);
        match verdict {
          case AlreadyObserved => return Failure(ReplayRecord);
          case SaveFailed => return Failure(GuardUnwritable);
          case Accepted =>
        }
      }
      ghost var guarded := NodeOf();
      assert (guarded, Accepted) == GuardStep(SetupOf(), old(NodeOf()), q);
      if q.privacy.None? {
        return Failure(PrivacyUnavailable);
      }
      if q.trust.None? {
        return Failure(TrustUnavailable);
      }
      if q.record.dataset != Dataset || history == null {
        return Failure(UnsupportedDataset);
      }
      var evidence := history.AcceptAndPersist(SubmissionOf(q));
      if evidence.Failure? {
        return Failure(NotStored(evidence.error));
      }
      ghost var stored := NodeOf();
      assert (stored, Success(evidence.value)) == StoreStep(SetupOf(), guarded, q);
      var receipt := NewObservationReceipt(scheme, q.record, q.peer.deviceID, q.now);
      if receipt.None? {
        return Failure(NoReceipt);
      }
      if receipts != null {
        var appended := receipts.Append(receipt.value, q.receiptsDisk.readable, q.receiptsDisk.writable);
        if appended.Fail? {
          return Failure(ReceiptNotStored(appended.error));
        }
      }
      r := Success((evidence.value, receipt.value));
    }
  }
}
