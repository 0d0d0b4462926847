/** What a receiver may have staged, whatever bytes the other side sends. */
module StagingSafety {
  import opened Outcomes
  import opened Streams
  import opened Frames
  import opened Manifests
  import opened PayloadProtocol
  import opened PayloadTransfer

  predicate Approved(env: Env, offer: PayloadOffer)
  {
    ValidOffer(env.hash, offer) && env.authorize(offer) == Allow
  }

  function AcceptFrame(env: Env, offer: PayloadOffer): Bytes
  {
    env.codec.encodeDecision(PayloadDecision(ProtocolVersion, offer.transferID, true))
  }

  /** `staged` is exactly the first `k` chunks of the manifest, each with its declared digest. */
  ghost predicate StagedChunks(env: Env, offer: PayloadOffer, staged: Bytes, k: nat)
    requires ValidOffer(env.hash, offer)
  {
    && k <= |offer.manifest.chunks|
    && |staged| == Offset(offer.manifest.size, offer.manifest.chunkSize, k)
    && MatchesUpTo(env.hash, offer.manifest, staged, k)
  }

  /** The offer in the first frame of the input. */
  function OfferIn(env: Env, input: Bytes): Option<PayloadOffer>
  {
    match ParseFrame(input, MaxFrameSize)
    case Refused(_, _) => None
    case Payload(frame, _) => env.codec.decodeOffer(frame)
  }

  lemma {:induction false} PrefixKeepsParts(hash: Hasher, m: Manifest, staged: Bytes, frame: Bytes, k: nat)
    requires Valid(hash, m) && k < |m.chunks| && |staged| == Offset(m.size, m.chunkSize, k)
    requires MatchesUpTo(hash, m, staged, k) && ChunkVerifies(hash, m.chunks[k], frame)
    ensures |staged + frame| == Offset(m.size, m.chunkSize, k + 1) && MatchesUpTo(hash, m, staged + frame, k + 1)
  {
    hide ValidFilename, LowerHex, Offset;
    var more := staged + frame;
    OffsetStep(m.size, m.chunkSize, k);
    forall i | 0 <= i < k + 1 && Offset(m.size, m.chunkSize, i + 1) <= |more|
      ensures hash(Part(more, m.size, m.chunkSize, i)) == m.chunks[i].hash
    {
      if i < k {
        OffsetsAscend(m.size, m.chunkSize, i + 1, k);
        OffsetStep(m.size, m.chunkSize, i);
        assert Part(more, m.size, m.chunkSize, i) == Part(staged, m.size, m.chunkSize, i);
      } else {
        assert Part(more, m.size, m.chunkSize, k) == frame;
      }
    }
  }

  lemma {:induction false} OffsetsAscend(size: nat, chunkSize: nat, a: nat, b: nat)
    requires chunkSize > 0 && a <= b
    ensures Offset(size, chunkSize, a) <= Offset(size, chunkSize, b)
    decreases b
  {
    hide Offset;
    if a < b {
      OffsetsAscend(size, chunkSize, a, b - 1);
      OffsetStep(size, chunkSize, b - 1);
    }
  }

  /** What a run that began with an accepted offer leaves behind. */
  ghost predicate Verified(env: Env, offer: PayloadOffer, r: Receiver)
    requires ValidOffer(env.hash, offer)
  {
    && (exists n :: StagedChunks(env, offer, r.staged, n))
    && (r.phase.Received? ==>
         r.phase.offer == offer && r.phase.receipt == VerifiedPayloadReceipt(offer)
         && Matches(env.hash, offer.manifest, r.staged))
    && !r.phase.Denied?
  }

  /** From an accepted offer on: chunks in order, each verified, and a receipt only for all of them. */
  lemma {:induction false} AcceptedRunIsVerified(env: Env, offer: PayloadOffer, k: nat, staged: Bytes, input: Bytes)
    requires Approved(env, offer) && StagedChunks(env, offer, staged, k)
    ensures Verified(env, offer, Receive(env, Receiver(Receiving(offer, k), staged), input).0)
    decreases |input|
  {
    hide Valid, ValidOffer, ChunkVerifies, CompletionFor, ParseFrame, Sendable, StagedChunks, Verified, HearCompletion;
    var r := Receiver(Receiving(offer, k), staged);
    StagedIsVerified(env, offer, Receiver(ReceiverAborted, staged), k);
    StagedInRange(env, offer, staged, k);
    match ParseFrame(input, Bound(r)) {
      case Refused(_, left) =>
        assert Receive(env, r, input).0 == Receiver(ReceiverAborted, staged);
      case Payload(frame, rest) =>
        ParseShrinks(input, Bound(r));
        if k == |offer.manifest.chunks| {
          CompletionIsVerified(env, offer, staged, frame);
          var (r1, sent) := HearCompletion(env, offer, staged, frame);
          assert Receive(env, r1, rest).0 == r1;
          assert Receive(env, r, input).0 == r1;
        } else if ChunkVerifies(env.hash, offer.manifest.chunks[k], frame) {
          OneMoreStaged(env, offer, staged, frame, k);
          AcceptedRunIsVerified(env, offer, k + 1, staged + frame, rest);
          assert Receive(env, r, input).0 == Receive(env, Receiver(Receiving(offer, k + 1), staged + frame), rest).0;
        } else {
          assert Receive(env, r, input).0 == Receiver(ReceiverAborted, staged);
        }
    }
  }

  lemma {:induction false} StagedInRange(env: Env, offer: PayloadOffer, staged: Bytes, k: nat)
    requires ValidOffer(env.hash, offer) && StagedChunks(env, offer, staged, k)
    ensures k <= |offer.manifest.chunks|
  {
  }

  lemma {:induction false} StagedIsVerified(env: Env, offer: PayloadOffer, r: Receiver, k: nat)
    requires ValidOffer(env.hash, offer) && StagedChunks(env, offer, r.staged, k) && r.phase.ReceiverAborted?
    ensures Verified(env, offer, r)
  {
    hide StagedChunks, ValidOffer;
  }

  lemma {:induction false} OneMoreStaged(env: Env, offer: PayloadOffer, staged: Bytes, frame: Bytes, k: nat)
    requires ValidOffer(env.hash, offer) && StagedChunks(env, offer, staged, k) && k < |offer.manifest.chunks|
    requires ChunkVerifies(env.hash, offer.manifest.chunks[k], frame)
    ensures StagedChunks(env, offer, staged + frame, k + 1)
  {
    hide Valid, Offset, MatchesUpTo, ChunkVerifies;
    PrefixKeepsParts(env.hash, offer.manifest, staged, frame, k);
  }

  lemma {:induction false} CompletionIsVerified(env: Env, offer: PayloadOffer, staged: Bytes, frame: Bytes)
    requires ValidOffer(env.hash, offer) && StagedChunks(env, offer, staged, |offer.manifest.chunks|)
    ensures var r := HearCompletion(env, offer, staged, frame).0;
            ReceiverDone(r) && Verified(env, offer, r)
  {
    hide Valid, Offset, MatchesUpTo, CompletionFor, Sendable;
    ChunksCoverPayload(env.hash, offer.manifest);
    MatchesAll(env.hash, offer.manifest, staged);
    var r := HearCompletion(env, offer, staged, frame).0;
    assert r.staged == staged && StagedChunks(env, offer, r.staged, |offer.manifest.chunks|);
  }

  /**
   Staging safety against any sender: bytes are staged only behind a sent acceptance of a valid
   offer, they are always whole verified chunks in manifest order, and a receipt means that the
   staged bytes have the declared size and every declared digest.
   */
  lemma {:induction false} StagingIsVerified(env: Env, input: Bytes)
    ensures var (r, left, sent) := Receive(env, FreshReceiver, input);
            && (r.staged != [] || r.phase.Received? ==>
                 && OfferIn(env, input).Some? && Approved(env, OfferIn(env, input).value)
                 && sent != [] && sent[0] == AcceptFrame(env, OfferIn(env, input).value)
                 && exists n :: StagedChunks(env, OfferIn(env, input).value, r.staged, n))
            && (r.phase.Received? ==>
                 && r.phase.offer == OfferIn(env, input).value
                    && r.phase.receipt == VerifiedPayloadReceipt(r.phase.offer)
                 && Matches(env.hash, r.phase.offer.manifest, r.staged))
  {
    hide Valid, Offset, MatchesUpTo, ParseFrame, Sendable, StagedChunks;
    match ParseFrame(input, MaxFrameSize) {
      case Refused(_, _) =>
      case Payload(frame, rest) =>
        var (r1, sent) := HearOffer(env, frame);
        if r1.phase.Receiving? {
          NothingStaged(env, r1.phase.offer);
          AcceptedRunIsVerified(env, r1.phase.offer, 0, [], rest);
        }
    }
  }

  lemma {:induction false} NothingStaged(env: Env, offer: PayloadOffer)
    requires ValidOffer(env.hash, offer)
    ensures StagedChunks(env, offer, [], 0)
  {
    hide ValidFilename, LowerHex;
    OffsetStep(offer.manifest.size, offer.manifest.chunkSize, 0);
  }

  /**
   Against the manifest of a known payload `p`, verified chunks are a prefix of `p`, and all of
   them are `p`, unless the hash collides on two chunks that differ.
   */
  lemma {:induction false} StagedChunksArePayload(env: Env, offer: PayloadOffer, filename: string, p: Bytes,
                                                  chunkSize: nat, staged: Bytes, k: nat)
    requires ValidOffer(env.hash, offer) && ValidChunkSize(chunkSize)
    requires offer.manifest == ManifestOf(env.hash, filename, p, chunkSize) && |p| <= MaxInt64
    requires StagedChunks(env, offer, staged, k)
    ensures || (staged <= p && (k == |offer.manifest.chunks| ==> staged == p))
            || exists i :: 0 <= i < k && Offset(|p|, chunkSize, i + 1) <= |staged|
                           && Collides(env.hash, Part(staged, |p|, chunkSize, i), Part(p, |p|, chunkSize, i))
    decreases k
  {
    hide Valid, Offset, LowerHex, ManifestOf, Collides, Part, StagedChunks, ValidOffer;
    WrapSmall(|p|);
    SizeOfManifest(env.hash, filename, p, chunkSize);
    OffsetStep(|p|, chunkSize, 0);
    StagedFacts(env, offer, staged, k);
    if k > 0 {
      var a := Offset(|p|, chunkSize, k - 1);
      OffsetStep(|p|, chunkSize, k - 1);
      var earlier := staged[..a];
      EarlierChunks(env, offer, staged, k);
      StagedChunksArePayload(env, offer, filename, p, chunkSize, earlier, k - 1);
      if earlier <= p {
        LastChunkDecides(env, offer, filename, p, chunkSize, staged, k);
      } else {
        var i :| 0 <= i < k - 1 && Offset(|p|, chunkSize, i + 1) <= |earlier|
                 && Collides(env.hash, Part(earlier, |p|, chunkSize, i), Part(p, |p|, chunkSize, i));
        PartOfPrefix(staged, |p|, chunkSize, i, a);
      }
    }
    ChunksCoverPayload(env.hash, offer.manifest);
  }

  lemma {:induction false} SizeOfManifest(hash: Hasher, filename: string, p: Bytes, chunkSize: nat)
    requires chunkSize > 0 && |p| <= MaxInt64
    ensures var m := ManifestOf(hash, filename, p, chunkSize); m.size == |p| && m.chunkSize == chunkSize
  {
    WrapSmall(|p|);
  }

  lemma {:induction false} StagedFacts(env: Env, offer: PayloadOffer, staged: Bytes, k: nat)
    requires ValidOffer(env.hash, offer) && StagedChunks(env, offer, staged, k)
    ensures Valid(env.hash, offer.manifest) && offer.manifest.chunkSize > 0 && offer.manifest.size >= 0
    ensures k <= |offer.manifest.chunks| && |staged| == Offset(offer.manifest.size, offer.manifest.chunkSize, k)
  {
    hide LowerHex, ValidFilename, Offset;
  }

  lemma {:induction false} PartOfPrefix(staged: Bytes, size: nat, chunkSize: nat, i: nat, a: nat)
    requires chunkSize > 0 && a <= |staged| && Offset(size, chunkSize, i + 1) <= a
    ensures Part(staged[..a], size, chunkSize, i) == Part(staged, size, chunkSize, i)
  {
    hide Offset;
    OffsetStep(size, chunkSize, i);
  }

  /** Behind a common prefix, the last chunk is the payload's own or collides with it. */
  lemma {:induction false} LastChunkDecides(env: Env, offer: PayloadOffer, filename: string, p: Bytes, chunkSize: nat,
                                            staged: Bytes, k: nat)
    requires ValidOffer(env.hash, offer) && ValidChunkSize(chunkSize) && k > 0
    requires offer.manifest == ManifestOf(env.hash, filename, p, chunkSize) && |p| <= MaxInt64
    requires StagedChunks(env, offer, staged, k)
    requires Offset(|p|, chunkSize, k - 1) <= |staged| && staged[..Offset(|p|, chunkSize, k - 1)] <= p
    ensures Offset(|p|, chunkSize, k) <= |p| && Offset(|p|, chunkSize, k) <= |staged|
    ensures staged <= p || Collides(env.hash, Part(staged, |p|, chunkSize, k - 1), Part(p, |p|, chunkSize, k - 1))
  {
    hide Valid, Offset, LowerHex;
    WrapSmall(|p|);
    var (a, b) := (Offset(|p|, chunkSize, k - 1), Offset(|p|, chunkSize, k));
    OffsetStep(|p|, chunkSize, k - 1);
    assert env.hash(Part(staged, |p|, chunkSize, k - 1)) == env.hash(Part(p, |p|, chunkSize, k - 1));
    if Part(staged, |p|, chunkSize, k - 1) == Part(p, |p|, chunkSize, k - 1) {
      assert staged == staged[..a] + staged[a..b] && p[..b] == p[..a] + p[a..b];
    }
  }

  lemma {:induction false} EarlierChunks(env: Env, offer: PayloadOffer, staged: Bytes, k: nat)
    requires ValidOffer(env.hash, offer) && StagedChunks(env, offer, staged, k) && k > 0
    ensures Offset(offer.manifest.size, offer.manifest.chunkSize, k - 1) <= |staged|
    ensures StagedChunks(env, offer, staged[..Offset(offer.manifest.size, offer.manifest.chunkSize, k - 1)], k - 1)
  {
    hide ValidFilename, LowerHex, Offset;
    var m := offer.manifest;
    OffsetStep(m.size, m.chunkSize, k - 1);
    var earlier := staged[..Offset(m.size, m.chunkSize, k - 1)];
    forall i | 0 <= i < k - 1 && Offset(m.size, m.chunkSize, i + 1) <= |earlier|
      ensures env.hash(Part(earlier, m.size, m.chunkSize, i)) == m.chunks[i].hash
    {
      OffsetStep(m.size, m.chunkSize, i);
      assert Part(earlier, m.size, m.chunkSize, i) == Part(staged, m.size, m.chunkSize, i);
    }
  }
}
