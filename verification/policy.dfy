/** Record acceptance: negotiation, Privacy Shield consent and Wardveil trust. */
module Policy {
  import opened Outcomes
  import opened Text
  import opened Records

  datatype AuthenticatedPeer = AuthenticatedPeer(
    deviceID: string,
    keyFingerprint: string,
    negotiated: seq<Capability>)

  datatype PrivacyDecision = PrivacyDecision(
    purpose: string,
    purposeAllowed: bool,
    consentGranted: bool,
    decidedAt: Time,
    evidenceID: string)

  datatype TrustEvidence = TrustEvidence(
    deviceID: string,
    keyFingerprint: string,
    trusted: bool,
    evaluatedAt: Time,
    evidenceID: string)

  datatype AcceptanceEvidence = AcceptanceEvidence(
    dataset: string,
    recordID: string,
    peerDeviceID: string,
    peerFingerprint: string,
    privacyEvidenceID: string,
    trustEvidenceID: string,
    acceptedAt: Time)

  datatype PolicyError =
    | DatasetUnauthorized
    | RecordRefused(reason: RecordError)
    | PurposeDenied
    | ConsentDenied
    | PeerUntrusted

  /** The first capability negotiated for a dataset. */
  function FirstFor(negotiated: seq<Capability>, dataset: string): Option<Capability>
  {
    if negotiated == [] then None
    else if negotiated[0].dataset == dataset then Some(negotiated[0])
    else FirstFor(negotiated[1..], dataset)
  }

  function AuthorizeRecord(record: RecordEnvelope, peer: AuthenticatedPeer, privacy: PrivacyDecision,
                           trust: TrustEvidence, now: Time): Result<AcceptanceEvidence, PolicyError>
  {
    match FirstFor(peer.negotiated, record.dataset)
    case None => Failure(DatasetUnauthorized)
    case Some(capability) =>
      match ValidateRecord(record, capability)
      case Fail(e) => Failure(RecordRefused(e))
      case Pass =>
        if Blank(privacy.purpose) || !privacy.purposeAllowed then Failure(PurposeDenied)
        else if !privacy.consentGranted || privacy.decidedAt == ZeroTime then Failure(ConsentDenied)
        else if !trust.trusted || trust.evaluatedAt == ZeroTime || trust.deviceID != peer.deviceID
                || trust.keyFingerprint != peer.keyFingerprint then Failure(PeerUntrusted)
        else Success(AcceptanceEvidence(record.dataset, record.recordID, peer.deviceID, peer.keyFingerprint,
                                        privacy.evidenceID, trust.evidenceID, now))
  }

  /** The first capability that was negotiated for the dataset. */
  ghost predicate IsFirstFor(negotiated: seq<Capability>, dataset: string, i: nat)
  {
    i < |negotiated| && negotiated[i].dataset == dataset && forall j | 0 <= j < i :: negotiated[j].dataset != dataset
  }

  lemma {:induction false} FirstForIsFirst(negotiated: seq<Capability>, dataset: string)
    ensures forall i: nat :: IsFirstFor(negotiated, dataset, i) ==> FirstFor(negotiated, dataset) == Some(negotiated[i])
    ensures FirstFor(negotiated, dataset).Some? ==> exists i: nat :: IsFirstFor(negotiated, dataset, i)
  {
    if negotiated != [] {
      var rest := negotiated[1..];
      FirstForIsFirst(rest, dataset);
      if negotiated[0].dataset == dataset {
        assert IsFirstFor(negotiated, dataset, 0);
      } else {
        forall i: nat | IsFirstFor(negotiated, dataset, i)
          ensures FirstFor(negotiated, dataset) == Some(negotiated[i])
        {
          assert forall j | 0 <= j < i - 1 :: rest[j] == negotiated[j + 1];
          assert IsFirstFor(rest, dataset, i - 1);
        }
        if FirstFor(rest, dataset).Some? {
          var i: nat :| IsFirstFor(rest, dataset, i);
          assert forall j | 0 < j < i + 1 :: negotiated[j] == rest[j - 1];
          assert IsFirstFor(negotiated, dataset, i + 1);
        }
      }
    }
  }

  /** Purpose and consent were granted, at some time. */
  ghost predicate Consented(p: PrivacyDecision)
  {
    && p.purposeAllowed && p.consentGranted && p.decidedAt != 0
    && exists k :: 0 <= k < |p.purpose| && !IsSpace(p.purpose[k])
  }

  /** The trust decision is about this very peer and key. */
  predicate Vouched(t: TrustEvidence, peer: AuthenticatedPeer)
  {
    t.trusted && t.evaluatedAt != 0 && t.deviceID == peer.deviceID && t.keyFingerprint == peer.keyFingerprint
  }

  /** Everything that a record must bring along to be accepted. */
  ghost predicate Entitled(record: RecordEnvelope, peer: AuthenticatedPeer, privacy: PrivacyDecision,
                           trust: TrustEvidence)
  {
    && Plausible(record)
    && (exists i: nat :: IsFirstFor(peer.negotiated, record.dataset, i) && Covers(peer.negotiated[i], record))
    && Consented(privacy) && Vouched(trust, peer)
  }

  /** A record is authorised exactly when it is entitled, and the evidence says for whom and why. */
  lemma {:induction false} AuthorizedIff(record: RecordEnvelope, peer: AuthenticatedPeer, privacy: PrivacyDecision,
                                         trust: TrustEvidence, now: Time)
    ensures AuthorizeRecord(record, peer, privacy, trust, now).Success? <==> Entitled(record, peer, privacy, trust)
    ensures AuthorizeRecord(record, peer, privacy, trust, now).Success? ==>
              var e := AuthorizeRecord(record, peer, privacy, trust, now).value;
              && e.dataset == record.dataset && e.recordID == record.recordID
              && e.peerDeviceID == peer.deviceID && e.peerFingerprint == peer.keyFingerprint
              && e.privacyEvidenceID == privacy.evidenceID && e.trustEvidenceID == trust.evidenceID
              && e.acceptedAt == now
  {
    hide ValidateRecord, Plausible, Covers, FirstFor, Blank, IsSpace, IsFirstFor;
    FirstForIsFirst(peer.negotiated, record.dataset);
    BlankIffAllSpaces(privacy.purpose);
    var first := FirstFor(peer.negotiated, record.dataset);
    if first.Some? {
      var i: nat :| IsFirstFor(peer.negotiated, record.dataset, i);
      ValidatesIff(record, first.value);
    }
  }

  /** A refusal names the first thing that is missing, in the order negotiation, record, purpose, consent, trust. */
  lemma {:induction false} RefusalNamesFirst(record: RecordEnvelope, peer: AuthenticatedPeer, privacy: PrivacyDecision,
                                             trust: TrustEvidence, now: Time)
    ensures var r := AuthorizeRecord(record, peer, privacy, trust, now);
            && (r == Failure(DatasetUnauthorized) <==> forall c | c in peer.negotiated :: c.dataset != record.dataset)
            && (r.Failure? && !r.error.DatasetUnauthorized? && !r.error.RecordRefused? ==>
                 && Plausible(record)
                 && exists i: nat :: IsFirstFor(peer.negotiated, record.dataset, i)
                                     && Covers(peer.negotiated[i], record))
            && (r == Failure(ConsentDenied) || r == Failure(PeerUntrusted) ==> privacy.purposeAllowed)
            && (r == Failure(PeerUntrusted) ==> Consented(privacy) && !Vouched(trust, peer))
  {
    hide ValidateRecord, Plausible, Covers, Blank, IsSpace;
    FirstForIsFirst(peer.negotiated, record.dataset);
    FirstForNone(peer.negotiated, record.dataset);
    BlankIffAllSpaces(privacy.purpose);
    var first := FirstFor(peer.negotiated, record.dataset);
    if first.Some? {
      var i: nat :| IsFirstFor(peer.negotiated, record.dataset, i);
      ValidatesIff(record, first.value);
    }
  }

  lemma {:induction false} FirstForNone(negotiated: seq<Capability>, dataset: string)
    ensures FirstFor(negotiated, dataset).None? <==> forall c | c in negotiated :: c.dataset != dataset
  {
    if negotiated != [] {
      FirstForNone(negotiated[1..], dataset);
      assert negotiated == [negotiated[0]] + negotiated[1..];
    }
  }
}
