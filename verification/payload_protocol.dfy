/** The control records of one payload transfer and how each is bound to its offer. */
module PayloadProtocol {
  import opened Manifests

  const ProtocolVersion := 1

  datatype Kind = FileKind | TextKind | OtherKind(name: string)

  datatype PayloadOffer = PayloadOffer(version: int, transferID: string, kind: Kind, manifest: Manifest)

  datatype PayloadDecision = PayloadDecision(version: int, transferID: string, accepted: bool)

  datatype PayloadCompletion = PayloadCompletion(version: int, transferID: string, size: Int64, hash: string)

  datatype ReceiptStatus = Verified | OtherStatus(name: string)

  datatype PayloadReceipt = PayloadReceipt(version: int, transferID: string, status: ReceiptStatus, size: Int64,
                                           hash: string)

  predicate ValidTransferID(id: string)
  {
    LowerHex(id, 32)
  }

  predicate ValidOffer(hash: Hasher, o: PayloadOffer)
  {
    && o.version == ProtocolVersion
    && ValidTransferID(o.transferID)
    && !o.kind.OtherKind?
    && Valid(hash, o.manifest)
  }

  predicate DecisionFor(d: PayloadDecision, o: PayloadOffer)
  {
    d.version == ProtocolVersion && ValidTransferID(d.transferID) && d.transferID == o.transferID
  }

  predicate CompletionFor(c: PayloadCompletion, o: PayloadOffer)
  {
    && c.version == ProtocolVersion && ValidTransferID(c.transferID) && c.transferID == o.transferID
    && c.size == o.manifest.size && c.hash == o.manifest.hash
  }

  predicate ReceiptFor(r: PayloadReceipt, o: PayloadOffer)
  {
    && r.version == ProtocolVersion && ValidTransferID(r.transferID) && r.transferID == o.transferID
    && r.status == Verified
    && r.size == o.manifest.size && r.hash == o.manifest.hash
  }

  function CompletedPayload(o: PayloadOffer): PayloadCompletion
  {
    PayloadCompletion(ProtocolVersion, o.transferID, o.manifest.size, o.manifest.hash)
  }

  function VerifiedPayloadReceipt(o: PayloadOffer): PayloadReceipt
  {
    PayloadReceipt(ProtocolVersion, o.transferID, Verified, o.manifest.size, o.manifest.hash)
  }

  /** 32 lowercase hexadecimal digits. */
  predicate HexID(id: string)
  {
    |id| == 32 && forall c | c in id :: c in "0123456789abcdef"
  }

  /** Validation leaves no freedom: the record accepted for an offer is the one built from it. */
  lemma {:induction false} RecordsAreBound(o: PayloadOffer, c: PayloadCompletion, r: PayloadReceipt)
    ensures CompletionFor(c, o) <==> HexID(o.transferID) && c == CompletedPayload(o)
    ensures ReceiptFor(r, o) <==> HexID(o.transferID) && r == VerifiedPayloadReceipt(o)
    ensures CompletedPayload(o) == PayloadCompletion(1, o.transferID, o.manifest.size, o.manifest.hash)
    ensures VerifiedPayloadReceipt(o) == PayloadReceipt(1, o.transferID, Verified, o.manifest.size, o.manifest.hash)
  {
    HexByDigit(o.transferID, 32);
  }

  /** The decisions accepted for an offer are the two that name it. */
  lemma {:induction false} DecisionsAreBound(o: PayloadOffer, d: PayloadDecision)
    ensures DecisionFor(d, o)
       <==> && HexID(o.transferID)
            && (d == PayloadDecision(1, o.transferID, true) || d == PayloadDecision(1, o.transferID, false))
  {
    HexByDigit(o.transferID, 32);
  }

  /** What an offer must be: this version, a hexadecimal identifier, a file or a text, a valid manifest. */
  lemma {:induction false} OfferValidIff(hash: Hasher, o: PayloadOffer)
    ensures ValidOffer(hash, o)
       <==> && o.version == 1 && HexID(o.transferID)
            && (o.kind == FileKind || o.kind == TextKind) && Valid(hash, o.manifest)
  {
    hide Valid;
    HexByDigit(o.transferID, 32);
  }
}
