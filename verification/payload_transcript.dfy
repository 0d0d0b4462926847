/**
 Exactly which conversations end well, whoever is at the other end: the frames one side must
 have read, field by field, and what its own material must be.
 */
module PayloadTranscript {
  import opened Outcomes
  import opened Streams
  import opened Frames
  import opened Manifests
  import opened PayloadProtocol
  import opened PayloadTransfer
  import opened PayloadSending

  // ----- the receiver

  /** The bounds of the frames that follow an accepted offer, from chunk `k` on. */
  function BoundsFrom(m: Manifest, k: nat): seq<int>
    decreases |m.chunks| - k
  {
    if k < |m.chunks| then [m.chunks[k].size] + BoundsFrom(m, k + 1) else [0x10_0000]
  }

  function Joined(frames: seq<Bytes>): Bytes
  {
    if frames == [] then [] else frames[0] + Joined(frames[1..])
  }

  function FinalRecord(offer: PayloadOffer): PayloadCompletion
  {
    PayloadCompletion(1, offer.transferID, offer.manifest.size, offer.manifest.hash)
  }

  function FinalReceipt(offer: PayloadOffer): PayloadReceipt
  {
    PayloadReceipt(1, offer.transferID, Verified, offer.manifest.size, offer.manifest.hash)
  }

  /** Frame by frame the declared chunks, each of its size and digest. */
  ghost predicate AreChunks(hash: Hasher, chunks: seq<Chunk>, frames: seq<Bytes>)
  {
    && |frames| == |chunks|
    && forall i | 0 <= i < |frames| :: |frames[i]| == chunks[i].size && hash(frames[i]) == chunks[i].hash
  }

  /** The remaining chunks, and behind them the one completion of this offer. */
  ghost predicate EarnsReceipt(env: Env, offer: PayloadOffer, k: nat, staged: Bytes, frames: seq<Bytes>)
    requires k <= |offer.manifest.chunks|
  {
    var n := |frames| - 1;
    && n >= 0 && AreChunks(env.hash, offer.manifest.chunks[k..], frames[..n])
    && env.codec.decodeCompletion(frames[n]) == Some(FinalRecord(offer))
    && env.hash(staged + Joined(frames[..n])) == offer.manifest.hash
    && 0 < |env.codec.encodeReceipt(FinalReceipt(offer))| <= 0x10_0000
  }

  /** What a receiver that stands at chunk `k` makes of the rest of its input. */
  ghost predicate EndsWell(env: Env, offer: PayloadOffer, k: nat, staged: Bytes, input: Bytes)
    requires k <= |offer.manifest.chunks|
  {
    match ParseFrames(input, BoundsFrom(offer.manifest, k))
    case None => false
    case Some((frames, _)) => EarnsReceipt(env, offer, k, staged, frames)
  }

  lemma {:induction false} BoundsOf(m: Manifest, k: nat)
    requires k <= |m.chunks|
    ensures |BoundsFrom(m, k)| == |m.chunks| - k + 1
    decreases |m.chunks| - k
  {
    if k < |m.chunks| {
      BoundsOf(m, k + 1);
    }
  }

  lemma {:induction false} ParsedCount(input: Bytes, bounds: seq<int>)
    ensures ParseFrames(input, bounds).Some? ==> |ParseFrames(input, bounds).value.0| == |bounds|
    decreases |bounds|
  {
    hide ParseFrame;
    if bounds != [] && ParseFrame(input, bounds[0]).Payload? {
      ParsedCount(ParseFrame(input, bounds[0]).rest, bounds[1..]);
    }
  }

  /** In a valid manifest, verifying a chunk is having its size and digest. */
  lemma {:induction false} ChunkVerifiesIff(hash: Hasher, m: Manifest, i: nat, data: Bytes)
    requires Valid(hash, m) && i < |m.chunks|
    ensures ChunkVerifies(hash, m.chunks[i], data) <==> |data| == m.chunks[i].size && hash(data) == m.chunks[i].hash
  {
    hide ValidFilename, LowerHex;
    SizesInRange(hash, m, i);
  }

  lemma {:induction false} OneMoreChunk(hash: Hasher, chunk: Chunk, chunks: seq<Chunk>, frame: Bytes,
                                        frames: seq<Bytes>)
    ensures AreChunks(hash, [chunk] + chunks, [frame] + frames)
       <==> |frame| == chunk.size && hash(frame) == chunk.hash && AreChunks(hash, chunks, frames)
  {
    var (cs, fs) := ([chunk] + chunks, [frame] + frames);
    assert cs[0] == chunk && fs[0] == frame && cs[1..] == chunks && fs[1..] == frames;
    assert forall i | 0 <= i < |fs| - 1 :: fs[i + 1] == fs[1..][i];
    assert forall i | 0 < i < |fs| :: fs[i] == fs[1..][i - 1];
  }

  /** One chunk more in front of a transcript. */
  lemma {:induction false} EarnsOneMore(env: Env, offer: PayloadOffer, k: nat, staged: Bytes, frame: Bytes,
                                        more: seq<Bytes>)
    requires k < |offer.manifest.chunks| && more != []
    ensures EarnsReceipt(env, offer, k, staged, [frame] + more)
       <==> && |frame| == offer.manifest.chunks[k].size && env.hash(frame) == offer.manifest.chunks[k].hash
            && EarnsReceipt(env, offer, k + 1, staged + frame, more)
  {
    hide AreChunks;
    var (all, n) := ([frame] + more, |more|);
    assert all[..n] == [frame] + more[..n - 1] && all[n] == more[n - 1];
    assert all[..n][1..] == more[..n - 1];
    assert staged + (frame + Joined(more[..n - 1])) == (staged + frame) + Joined(more[..n - 1]);
    var chunks := offer.manifest.chunks;
    assert chunks[k..] == [chunks[k]] + chunks[k + 1..];
    OneMoreChunk(env.hash, chunks[k], chunks[k + 1..], frame, more[..n - 1]);
  }

  /** The receiver on its last frame. */
  lemma {:induction false} CompletionDecides(env: Env, offer: PayloadOffer, staged: Bytes, frame: Bytes)
    requires ValidTransferID(offer.transferID)
    ensures var (r, sent) := HearCompletion(env, offer, staged, frame);
            && r.staged == staged && ReceiverDone(r) && !r.phase.Denied?
            && (r.phase.Received? <==> EarnsReceipt(env, offer, |offer.manifest.chunks|, staged, [frame]))
            && (r.phase.Received? ==>
                 && r.phase == Received(offer, FinalReceipt(offer))
                 && sent == [env.codec.encodeReceipt(FinalReceipt(offer))])
  {
    assert [frame][..0] == [] && staged + [] == staged;
  }

  /** From an accepted offer on: the receipt is earned exactly by the transcript the manifest asks for. */
  lemma {:induction false} ReceivedFrom(env: Env, offer: PayloadOffer, k: nat, staged: Bytes, input: Bytes)
    requires ValidOffer(env.hash, offer) && k <= |offer.manifest.chunks|
    ensures var run := Receive(env, Receiver(Receiving(offer, k), staged), input);
            && (run.0.phase.Received? <==> EndsWell(env, offer, k, staged, input))
            && !run.0.phase.Denied?
            && (run.0.phase.Received? ==>
                 var (frames, left) := ParseFrames(input, BoundsFrom(offer.manifest, k)).value;
                 && run.0 == Receiver(Received(offer, FinalReceipt(offer)), staged + Joined(frames[..|frames| - 1]))
                 && run.1 == left && run.2 == [env.codec.encodeReceipt(FinalReceipt(offer))])
    decreases |offer.manifest.chunks| - k
  {
    hide Valid, ParseFrame, EarnsReceipt, ChunkVerifies, HearCompletion, Sendable;
    var r := Receiver(Receiving(offer, k), staged);
    BoundsOf(offer.manifest, k);
    var p := ParseFrame(input, Bound(r));
    assert BoundsFrom(offer.manifest, k)[0] == Bound(r);
    if p.Payload? {
      var more := ParseFrames(p.rest, BoundsFrom(offer.manifest, k)[1..]);
      if k < |offer.manifest.chunks| {
        ChunkVerifiesIff(env.hash, offer.manifest, k, p.payload);
        assert BoundsFrom(offer.manifest, k)[1..] == BoundsFrom(offer.manifest, k + 1);
        ReceivedFrom(env, offer, k + 1, staged + p.payload, p.rest);
        if more.Some? {
          OneMoreFrame(env, offer, k, staged, p.payload, more.value.0, p.rest);
        }
        var run := Receive(env, Receiver(Receiving(offer, k + 1), staged + p.payload), p.rest);
        assert [] + run.2 == run.2;
      } else {
        assert BoundsFrom(offer.manifest, k)[1..] == [] && more == Some(([], p.rest));
        assert [p.payload] + [] == [p.payload] && [p.payload][..0] == [] && staged + [] == staged;
        CompletionDecides(env, offer, staged, p.payload);
        var (r1, sent) := HearCompletion(env, offer, staged, p.payload);
        assert Receive(env, r1, p.rest) == (r1, p.rest, []) && sent + [] == sent;
      }
    }
  }

  lemma {:induction false} OneMoreFrame(env: Env, offer: PayloadOffer, k: nat, staged: Bytes, frame: Bytes,
                                        more: seq<Bytes>, rest: Bytes)
    requires k < |offer.manifest.chunks| && ParseFrames(rest, BoundsFrom(offer.manifest, k + 1)).Some?
    requires more == ParseFrames(rest, BoundsFrom(offer.manifest, k + 1)).value.0
    ensures EarnsReceipt(env, offer, k, staged, [frame] + more)
       <==> && |frame| == offer.manifest.chunks[k].size && env.hash(frame) == offer.manifest.chunks[k].hash
            && EarnsReceipt(env, offer, k + 1, staged + frame, more)
    ensures |more| > 0
    ensures staged + Joined(([frame] + more)[..|more|]) == (staged + frame) + Joined(more[..|more| - 1])
  {
    hide EarnsReceipt;
    BoundsOf(offer.manifest, k + 1);
    ParsedCount(rest, BoundsFrom(offer.manifest, k + 1));
    EarnsOneMore(env, offer, k, staged, frame, more);
    var all := [frame] + more;
    assert all[..|more|][1..] == more[..|more| - 1] && all[..|more|][0] == frame;
    assert staged + (frame + Joined(more[..|more| - 1])) == (staged + frame) + Joined(more[..|more| - 1]);
  }

  /** The decision on an offer, as it goes over the wire, and whether it fits a frame. */
  function DecisionOn(codec: Codec, offer: PayloadOffer, accepted: bool): Bytes
  {
    codec.encodeDecision(PayloadDecision(1, offer.transferID, accepted))
  }

  predicate Fits(frame: Bytes)
  {
    0 < |frame| <= 0x10_0000
  }

  /**
   Whatever bytes arrive: a receiver ends with a receipt exactly when they begin with a valid
   offer that the application allows, followed by its chunks, each of the declared size and
   digest, and by the completion of this very transfer, and all of them have the declared digest.
   It ends with a denial exactly when the offer is valid and denied.
   */
  lemma {:induction false} ReceiptIff(env: Env, input: Bytes)
    ensures var (run, p) := (Receive(env, FreshReceiver, input), ParseFrame(input, 0x10_0000));
            var offer := if p.Payload? then env.codec.decodeOffer(p.payload) else None;
            && (run.0.phase.Received?
                <==> && offer.Some? && ValidOffer(env.hash, offer.value) && env.authorize(offer.value) == Allow
                     && Fits(DecisionOn(env.codec, offer.value, true)) && EndsWell(env, offer.value, 0, [], p.rest))
            && (run.0.phase.Denied?
                <==> && offer.Some? && ValidOffer(env.hash, offer.value) && env.authorize(offer.value) == Deny
                     && Fits(DecisionOn(env.codec, offer.value, false)))
            && (run.0.phase.Denied? ==>
                 run == (Receiver(Denied(offer.value), []), p.rest, [DecisionOn(env.codec, offer.value, false)]))
            && (run.0.phase.Received? ==>
                 var (frames, left) := ParseFrames(p.rest, BoundsFrom(offer.value.manifest, 0)).value;
                 && run.0 == Receiver(Received(offer.value, FinalReceipt(offer.value)), Joined(frames[..|frames| - 1]))
                 && run.1 == left
                 && run.2 == [DecisionOn(env.codec, offer.value, true),
                              env.codec.encodeReceipt(FinalReceipt(offer.value))])
  {
    hide ValidOffer, ParseFrame, ParseFrames, EarnsReceipt;
    var p := ParseFrame(input, 0x10_0000);
    if p.Payload? {
      var (r1, sent) := HearOffer(env, p.payload);
      var run := Receive(env, r1, p.rest);
      assert Receive(env, FreshReceiver, input) == (run.0, run.1, sent + run.2);
      if r1.phase.Receiving? {
        ReceivedFrom(env, r1.phase.offer, 0, [], p.rest);
        NothingJoins(env, r1.phase.offer, p.rest);
      } else {
        assert run == (r1, p.rest, []) && sent + [] == sent;
      }
    }
  }

  lemma {:induction false} NothingJoins(env: Env, offer: PayloadOffer, input: Bytes)
    ensures EndsWell(env, offer, 0, [], input) ==>
              var frames := ParseFrames(input, BoundsFrom(offer.manifest, 0)).value.0;
              frames != [] && [] + Joined(frames[..|frames| - 1]) == Joined(frames[..|frames| - 1])
  {
    hide ParseFrames;
  }

  /** A chunk frame that declares more than the chunk's size is refused behind its header, whatever follows. */
  lemma {:induction false} OversizedChunkStaysUnread(env: Env, offer: PayloadOffer, k: nat, staged: Bytes, size: nat,
                                                     tail: Bytes)
    requires ValidOffer(env.hash, offer) && k < |offer.manifest.chunks|
    requires offer.manifest.chunks[k].size < size < 0x1_0000_0000
    ensures Receive(env, Receiver(Receiving(offer, k), staged), Header(size) + tail)
         == (Receiver(ReceiverAborted, staged), tail, [])
  {
    hide Valid, ParseFrame, Header;
    SizesInRange(env.hash, offer.manifest, k);
    OversizeStopsAfterHeader(size, offer.manifest.chunks[k].size, tail);
  }

  // ----- the sender

  /** The first frame of the input, as a decision. */
  function DecisionIn(codec: Codec, input: Bytes): Option<PayloadDecision>
  {
    var p := ParseFrame(input, 0x10_0000);
    if p.Payload? then codec.decodeDecision(p.payload) else None
  }

  /** What a sender hears in place of a decision, for a well-formed identifier. */
  lemma {:induction false} DecisionDecides(o: Outgoing, s: Sender, frame: Bytes)
    requires ValidTransferID(o.offer.transferID) && s.phase == AwaitDecision
    ensures var (heard, d) := (Hear(o, s, frame), o.codec.decodeDecision(frame));
            && heard.source == s.source && heard.hashed == s.hashed && (heard.phase.Sending? ==> heard.phase.next == 0)
            && (heard.phase.Sending? <==> d == Some(PayloadDecision(1, o.offer.transferID, true)))
            && (heard.phase.Rejected? <==> d == Some(PayloadDecision(1, o.offer.transferID, false)))
            && (heard.phase.Sending? || heard.phase.Rejected? || heard.phase.SenderAborted?)
  {
  }

  /** The source's own part in a successful send: it is the payload of the manifest, and nothing else. */
  ghost predicate SourceServes(o: Outgoing, source: Bytes)
    requires o.offer.manifest.chunkSize > 0
  {
    o.end == EndOfFile && Matches(o.hash, o.offer.manifest, source)
    && Fits(o.codec.encodeCompletion(FinalRecord(o.offer)))
  }

  /** The receipt that a sender accepts. */
  predicate ReceiptIn(o: Outgoing, input: Bytes)
  {
    var p := ParseFrame(input, 0x10_0000);
    p.Payload? && o.codec.decodeReceipt(p.payload) == Some(FinalReceipt(o.offer))
  }

  /** From an accepted offer on: the sender ends with the receipt exactly when source and receipt are right. */
  lemma {:induction false} SentFrom(o: Outgoing, source: Bytes, k: nat, input: Bytes)
    requires ValidOffer(o.hash, o.offer) && k <= |Chunks(o)|
    requires Offset(o.offer.manifest.size, o.offer.manifest.chunkSize, k) <= |source|
    requires MatchesUpTo(o.hash, o.offer.manifest, source, k)
    ensures var off := Offset(o.offer.manifest.size, o.offer.manifest.chunkSize, k);
            var run := Send(o, Sender(Sending(k), source[off..], source[..off]), input);
            && !run.0.phase.Rejected?
            && (run.0.phase.Sent? <==> SourceServes(o, source) && ReceiptIn(o, input))
            && (run.0.phase.Sent? ==>
                 run.0 == Sender(Sent(FinalReceipt(o.offer)), [], source) && run.1 == ParseFrame(input, 0x10_0000).rest)
    decreases |Chunks(o)| - k
  {
    hide Valid, Offset, Part, MatchesUpTo, Matches, ChunkVerifies, ParseFrame;
    var m := o.offer.manifest;
    ChunksCoverPayload(o.hash, m);
    var (a, b) := (Offset(m.size, m.chunkSize, k), Offset(m.size, m.chunkSize, k + 1));
    var s := Sender(Sending(k), source[a..], source[..a]);
    if k < |m.chunks| {
      SizesInRange(o.hash, m, k);
      var rest := source[a..];
      var data := rest[..if m.chunks[k].size <= |rest| then m.chunks[k].size else |rest|];
      ChunkReadDecides(o.hash, m, source, k, data);
      if |rest| < m.chunks[k].size {
        TooShort(o.hash, m, source);
        AbortedSends(o, s.(source := []), input);
      } else if !ChunkVerifies(o.hash, m.chunks[k], data) {
        ChunkRefutes(o.hash, m, source, k);
        AbortedSends(o, s.(source := rest[m.chunks[k].size..]), input);
      } else {
        MatchedOneMore(o.hash, m, source, k);
        assert rest[m.chunks[k].size..] == source[b..];
        assert SayChunk(o, s, k) == (Sender(Sending(k + 1), source[b..], source[..b]), [data]);
        SentFrom(o, source, k + 1, input);
        var run := Send(o, Sender(Sending(k + 1), source[b..], source[..b]), input);
        assert Send(o, s, input) == (run.0, run.1, [data] + run.2);
      }
    } else {
      LastStep(o, source, input);
    }
  }

  lemma {:induction false} TooShort(hash: Hasher, m: Manifest, p: Bytes)
    requires m.chunkSize > 0 && |p| < m.size
    ensures !Matches(hash, m, p)
  {
    hide Offset, Part;
  }

  lemma {:induction false} AbortedSends(o: Outgoing, s: Sender, input: Bytes)
    ensures Send(o, s.(phase := SenderAborted), input) == (s.(phase := SenderAborted), input, [])
  {
  }

  /** The sender with all chunks out: trailing data, digest, completion, receipt. */
  lemma {:induction false} LastStep(o: Outgoing, source: Bytes, input: Bytes)
    requires ValidOffer(o.hash, o.offer) && o.offer.manifest.size <= |source|
    requires MatchesUpTo(o.hash, o.offer.manifest, source, |Chunks(o)|)
    ensures var off := o.offer.manifest.size;
            var run := Send(o, Sender(Sending(|Chunks(o)|), source[off..], source[..off]), input);
            && !run.0.phase.Rejected?
            && (run.0.phase.Sent? <==> SourceServes(o, source) && ReceiptIn(o, input))
            && (run.0.phase.Sent? ==>
                 run.0 == Sender(Sent(FinalReceipt(o.offer)), [], source) && run.1 == ParseFrame(input, 0x10_0000).rest)
  {
    hide Valid, Offset, Part, MatchesUpTo, ParseFrame, Send;
    var (m, off) := (o.offer.manifest, o.offer.manifest.size);
    ChunksCoverPayload(o.hash, m);
    var s := Sender(Sending(|Chunks(o)|), source[off..], source[..off]);
    if |source| == m.size {
      assert source[off..] == [] && source[..off] == source;
      MatchesAll(o.hash, m, source);
    }
    SendsOneStep(o, s, input);
    if Say(o, s).0.phase.SenderAborted? {
      AbortedSends(o, s, input);
    } else {
      HearsReceipt(o, s.(phase := AwaitReceipt), input);
    }
  }

  lemma {:induction false} SendsOneStep(o: Outgoing, s: Sender, input: Bytes)
    requires Speaks(s)
    ensures var run := Send(o, Say(o, s).0, input);
            Send(o, s, input) == (run.0, run.1, Say(o, s).1 + run.2)
  {
    hide Say, ParseFrame, Hear;
  }

  lemma {:induction false} HearsReceipt(o: Outgoing, s: Sender, input: Bytes)
    requires ValidTransferID(o.offer.transferID) && s.phase == AwaitReceipt
    ensures var run := Send(o, s, input);
            && run.2 == [] && !run.0.phase.Rejected?
            && (run.0.phase.Sent? <==> ReceiptIn(o, input))
            && (run.0.phase.Sent? ==>
                 run.0 == s.(phase := Sent(FinalReceipt(o.offer))) && run.1 == ParseFrame(input, 0x10_0000).rest)
  {
    hide ParseFrame;
    var p := ParseFrame(input, 0x10_0000);
    if p.Payload? {
      var s1 := Hear(o, s, p.payload);
      assert Send(o, s1, p.rest) == (s1, p.rest, []);
    }
  }

  /**
   Whatever bytes arrive: a sender ends with the receipt exactly when the offer fits, the first
   frame accepts this very transfer, the source is the manifest's payload and nothing else, and
   the next frame is this transfer's receipt; it ends rejected exactly when the first frame
   rejects this very transfer; and without an acceptance of it nothing but the offer is sent and
   nothing of the source is taken.
   */
  lemma {:induction false} SentIff(o: Outgoing, source: Bytes, input: Bytes)
    requires ValidOffer(o.hash, o.offer)
    ensures o.offer.manifest.chunkSize > 0
    ensures var (run, offer) := (Send(o, FreshSender(source), input), o.codec.encodeOffer(o.offer));
            var (d, rest) := (DecisionIn(o.codec, input), ParseFrame(input, 0x10_0000).rest);
            && (run.0.phase.Sent?
                <==> && Fits(offer) && d == Some(PayloadDecision(1, o.offer.transferID, true))
                     && SourceServes(o, source) && ReceiptIn(o, rest))
            && (run.0.phase.Sent? ==>
                 run.0.phase == Sent(FinalReceipt(o.offer)) && run.1 == ParseFrame(rest, 0x10_0000).rest)
            && (run.0.phase.Rejected?
                <==> Fits(offer) && d == Some(PayloadDecision(1, o.offer.transferID, false)))
            && (d != Some(PayloadDecision(1, o.offer.transferID, true)) || !Fits(offer) ==>
                 run.0.source == source && run.2 == if Fits(offer) then [offer] else [])
            && (d == Some(PayloadDecision(1, o.offer.transferID, true)) && Fits(offer) ==>
                 var (first, said) := Say(o, Sender(Sending(0), source, []));
                 run.2 == [offer] + said + Send(o, first, rest).2 && (|run.2| > 1 <==> said != []))
  {
    hide Valid, Offset, ParseFrame, Hear, Send, SourceServes, ReceiptIn, Sendable, SayChunk, SayCompletion;
    ChunksCoverPayload(o.hash, o.offer.manifest);
    NoneMatched(o, source);
    assert source[0..] == source && source[..0] == [];
    var (opening, waiting) := (FreshSender(source), FreshSender(source).(phase := AwaitDecision));
    FitsIsSendable(o.codec.encodeOffer(o.offer));
    SendsOneStep(o, opening, input);
    AbortedSends(o, opening, input);
    WaitsForDecision(o, waiting, input);
    var p := ParseFrame(input, 0x10_0000);
    if p.Payload? {
      DecisionDecides(o, waiting, p.payload);
      SentFrom(o, source, 0, p.rest);
      SendsOneStep(o, Sender(Sending(0), source, []), p.rest);
      SaysOrAborts(o, Sender(Sending(0), source, []), p.rest);
      var said := Say(o, Sender(Sending(0), source, [])).1;
      var more := Send(o, Say(o, Sender(Sending(0), source, [])).0, p.rest).2;
      assert [o.codec.encodeOffer(o.offer)] + (said + more) == [o.codec.encodeOffer(o.offer)] + said + more;
    }
    assert [o.codec.encodeOffer(o.offer)] + [] == [o.codec.encodeOffer(o.offer)];
  }

  lemma {:induction false} NoneMatched(o: Outgoing, source: Bytes)
    requires ValidOffer(o.hash, o.offer)
    ensures o.offer.manifest.chunkSize > 0 && o.offer.manifest.size >= 0
    ensures MatchesUpTo(o.hash, o.offer.manifest, source, 0)
  {
    hide Offset, Part, LowerHex, ValidFilename;
  }

  lemma {:induction false} FitsIsSendable(frame: Bytes)
    ensures Fits(frame) <==> Sendable(frame)
  {
  }

  lemma {:induction false} SaysOrAborts(o: Outgoing, s: Sender, input: Bytes)
    requires Speaks(s)
    ensures Say(o, s).1 == [] ==> Say(o, s).0.phase.SenderAborted? && Send(o, Say(o, s).0, input).2 == []
  {
    hide ChunkVerifies, Sendable, ParseFrame;
  }

  lemma {:induction false} WaitsForDecision(o: Outgoing, s: Sender, input: Bytes)
    requires s.phase == AwaitDecision
    ensures var p := ParseFrame(input, 0x10_0000);
            if p.Refused? then Send(o, s, input) == (s.(phase := SenderAborted), p.rest, [])
            else
              && Send(o, s, input) == Send(o, Hear(o, s, p.payload), p.rest)
              && (SenderDone(Hear(o, s, p.payload)) ==> Send(o, s, input) == (Hear(o, s, p.payload), p.rest, []))
  {
    hide ParseFrame, Hear, Say;
  }
}
