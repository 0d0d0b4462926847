/**
 Agreement over bytes.  Each side runs on whatever prefix of the other side's bytes arrives, so
 writes that break off inside a frame, lost tails and closed connections are all covered.
 */
module PayloadAgreement {
  import opened Outcomes
  import opened Streams
  import opened Frames
  import opened Manifests
  import opened PayloadProtocol
  import opened PayloadTransfer
  import opened PayloadSending
  import opened PayloadSession

  /** Both sides use the same hash and codec, and the offer is well formed. */
  ghost predicate Shared(o: Outgoing, env: Env)
  {
    env.hash == o.hash && env.codec == o.codec && RoundTrips(o.codec) && ValidOffer(o.hash, o.offer)
  }

  function OfferFrame(o: Outgoing): Bytes
  {
    o.codec.encodeOffer(o.offer)
  }

  function DecisionFrame(o: Outgoing, accepted: bool): Bytes
  {
    o.codec.encodeDecision(PayloadDecision(ProtocolVersion, o.offer.transferID, accepted))
  }

  function ReceiptFrame(o: Outgoing): Bytes
  {
    o.codec.encodeReceipt(VerifiedPayloadReceipt(o.offer))
  }

  lemma {:induction false} FramesDecode(o: Outgoing, env: Env)
    requires Shared(o, env)
    ensures o.codec.decodeOffer(OfferFrame(o)) == Some(o.offer)
    ensures forall b ::
              o.codec.decodeDecision(DecisionFrame(o, b))
              == Some(PayloadDecision(ProtocolVersion, o.offer.transferID, b))
    ensures var done := CompletedPayload(o.offer);
            o.codec.decodeCompletion(o.codec.encodeCompletion(done)) == Some(done)
    ensures o.codec.decodeReceipt(ReceiptFrame(o)) == Some(VerifiedPayloadReceipt(o.offer))
  {
  }

  /** Of a prefix of one frame and what follows, either that frame is read or none. */
  lemma {:induction false} PrefixParse(bytes: Bytes, frame: Bytes, rest: Bytes, bound: int)
    requires Sendable(frame) && bytes <= Frame(frame) + rest
    ensures var p := ParseFrame(bytes, bound);
            p.Refused? || (p.payload == frame && p.rest <= rest && bytes == Frame(frame) + p.rest)
  {
    HeaderRoundTrip(|frame|);
    var all := Frame(frame) + rest;
    if |bytes| >= 4 {
      assert bytes[..4] == all[..4] == Header(|frame|);
      if |bytes| >= 4 + |frame| {
        assert bytes[4..4 + |frame|] == all[4..4 + |frame|] == frame;
        assert bytes[4 + |frame|..] <= all[4 + |frame|..] == rest;
        assert bytes == bytes[..4] + bytes[4..4 + |frame|] + bytes[4 + |frame|..];
      }
    }
  }

  /** The same for a prefix of a list of frames: only its first frame can be read. */
  lemma {:induction false} FirstOfWire(bytes: Bytes, frames: seq<Bytes>, bound: int)
    requires AllSendable(frames) && bytes <= Wire(frames)
    ensures var p := ParseFrame(bytes, bound);
            p.Payload? ==>
              && frames != [] && p.payload == frames[0]
              && AllSendable(frames[1..]) && p.rest <= Wire(frames[1..])
              && (p.rest == Wire(frames[1..]) ==> bytes == Wire(frames))
  {
    hide Frame, ParseFrame, Sendable;
    if frames == [] {
      NothingParses(bound);
    } else {
      PrefixParse(bytes, frames[0], Wire(frames[1..]), bound);
    }
  }

  lemma {:induction false} NothingOnWire(frames: seq<Bytes>)
    requires AllSendable(frames)
    ensures |frames| == 1 ==> Wire(frames[1..]) == []
  {
  }

  lemma {:induction false} NothingParses(bound: int)
    ensures ParseFrame([], bound).Refused?
  {
  }

  /** What the receiver has done with chunks from an accepted state on: nothing sent, or all received and read. */
  ghost predicate StagesSource(o: Outgoing, whole: Bytes, run: (Receiver, Bytes, seq<Bytes>))
  {
    && run.0.staged <= whole && !run.0.phase.Denied?
    && if run.0.phase.Received? then
         && run.0 == Receiver(Received(o.offer, VerifiedPayloadReceipt(o.offer)), whole)
         && run.1 == [] && run.2 == [ReceiptFrame(o)]
       else run.2 == []
  }

  /** A receiver that has staged what the sender has sent stays in step with it, up to its very last byte. */
  lemma {:induction false} ChunksInStep(o: Outgoing, env: Env, s: Sender, k: nat, up: Bytes, down: Bytes)
    requires Shared(o, env) && s.phase == Sending(k) && k <= |Chunks(o)|
    requires AllSendable(Send(o, s, up).2) && down <= Wire(Send(o, s, up).2)
    ensures var run := Receive(env, Receiver(Receiving(o.offer, k), s.hashed), down);
            StagesSource(o, s.hashed + s.source, run) && (run.0.phase.Received? ==> down == Wire(Send(o, s, up).2))
    decreases |Chunks(o)| - k
  {
    hide Valid, ChunkVerifies, RoundTrips, ParseFrame, Wire, Sendable, Send;
    var r := Receiver(Receiving(o.offer, k), s.hashed);
    var (s1, said) := Say(o, s);
    SayIsOne(o, s, up);
    FirstOfWire(down, Send(o, s, up).2, Bound(r));
    match ParseFrame(down, Bound(r)) {
      case Refused(_, _) => assert s.hashed <= s.hashed + s.source;
      case Payload(frame, rest) =>
        if k < |Chunks(o)| {
          var size := Chunks(o)[k].size;
          assert s.source == s.source[..size] + s.source[size..];
          assert s.hashed + s.source == s1.hashed + s1.source;
          ChunksInStep(o, env, s1, k + 1, up, rest);
          var run := Receive(env, Receiver(Receiving(o.offer, k + 1), s1.hashed), rest);
          assert [] + run.2 == run.2;
        } else {
          NothingBehindCompletion(o, s1, up);
          CompletionInStep(o, env, s, down);
        }
    }
  }

  /** A step of a sending sender says nothing and aborts, or says one frame. */
  lemma {:induction false} SayIsOne(o: Outgoing, s: Sender, up: Bytes)
    requires s.phase.Sending? && s.phase.next <= |Chunks(o)|
    ensures var (s1, said) := Say(o, s);
            && Send(o, s, up).2 == said + Send(o, s1, up).2
            && (said == [] ==> s1.phase.SenderAborted? && Send(o, s, up).2 == [])
            && (said != [] ==>
                 |said| == 1 && Send(o, s, up).2[0] == said[0] && Send(o, s, up).2[1..] == Send(o, s1, up).2)
  {
    hide ChunkVerifies, Hear, ParseFrame, Sendable;
    var (s1, said) := Say(o, s);
    RankFalls(o, s, []);
    if said != [] {
      assert (said + Send(o, s1, up).2)[1..] == Send(o, s1, up).2;
    }
  }

  lemma {:induction false} NothingBehindCompletion(o: Outgoing, s: Sender, up: Bytes)
    requires s.phase.AwaitReceipt? || s.phase.SenderAborted?
    ensures Send(o, s, up).2 == [] && Wire([]) == []
  {
    hide ParseFrame;
    var p := ParseFrame(up, MaxFrameSize);
    if s.phase.AwaitReceipt? && p.Payload? {
      assert SenderDone(Hear(o, s, p.payload)) && Send(o, Hear(o, s, p.payload), p.rest).2 == [];
    }
  }

  lemma {:induction false} CompletionInStep(o: Outgoing, env: Env, s: Sender, down: Bytes)
    requires Shared(o, env) && s.phase == Sending(|Chunks(o)|) && Say(o, s).1 != []
    requires ParseFrame(down, MaxFrameSize) == Payload(Say(o, s).1[0], [])
    ensures StagesSource(o, s.hashed + s.source,
                         Receive(env, Receiver(Receiving(o.offer, |Chunks(o)|), s.hashed), down))
  {
    hide Valid, RoundTrips, ParseFrame, Sendable;
    FramesDecode(o, env);
    var r := Receiver(Receiving(o.offer, |Chunks(o)|), s.hashed);
    var p := ParseFrame(down, MaxFrameSize);
    var (r1, sent) := React(env, r, p.payload);
    assert s.hashed + s.source == s.hashed;
    assert sent + [] == sent;
    assert ReceiverDone(r1) && Receive(env, r1, p.rest) == (r1, p.rest, []);
  }

  /** The four ways a receive can go against an honest sender. */
  ghost predicate ReceivedInStep(o: Outgoing, source: Bytes, run: (Receiver, Bytes, seq<Bytes>))
  {
    && run.0.staged <= source
    && (run.0.phase.Received? ==>
         && run.0 == Receiver(Received(o.offer, VerifiedPayloadReceipt(o.offer)), source)
         && run.1 == [] && run.2 == [DecisionFrame(o, true), ReceiptFrame(o)])
    && (run.0.phase.Denied? ==> run.0.staged == [] && run.2 == [DecisionFrame(o, false)])
    && (!run.0.phase.Received? && !run.0.phase.Denied? ==> run.2 == [] || run.2 == [DecisionFrame(o, true)])
  }

  /** The receiver on any prefix of the bytes an honest sender sends. */
  lemma {:induction false} ReceiverInStep(o: Outgoing, env: Env, source: Bytes, up: Bytes, down: Bytes)
    requires Shared(o, env)
    requires AllSendable(Send(o, FreshSender(source), up).2) && down <= Wire(Send(o, FreshSender(source), up).2)
    ensures var (run, frames) := (Receive(env, FreshReceiver, down), Send(o, FreshSender(source), up).2);
            && ReceivedInStep(o, source, run)
            && (run.0.phase.Received? ==> down == Wire(frames))
            && (run.0.phase.Denied? && |frames| <= 1 ==> run.1 == [] && down == Wire(frames))
  {
    hide Valid, ValidOffer, RoundTrips, ParseFrame, Wire, Send;
    var waiting := FreshSender(source).(phase := AwaitDecision);
    FramesDecode(o, env);
    OfferIsFirst(o, source, up);
    FirstOfWire(down, Send(o, FreshSender(source), up).2, MaxFrameSize);
    var p := ParseFrame(down, MaxFrameSize);
    if p.Payload? {
      assert ValidOffer(o.hash, o.offer);
      var (r1, sent) := HearOffer(env, OfferFrame(o));
      if r1.phase.Receiving? {
        AcceptedInStep(o, env, source, up, p.rest);
        var run := Receive(env, r1, p.rest);
        assert Receive(env, FreshReceiver, down) == (run.0, run.1, [DecisionFrame(o, true)] + run.2);
        assert [DecisionFrame(o, true)] + [] == [DecisionFrame(o, true)];
        assert [DecisionFrame(o, true)] + [ReceiptFrame(o)] == [DecisionFrame(o, true), ReceiptFrame(o)];
      } else {
        assert Receive(env, r1, p.rest) == (r1, p.rest, []);
        assert sent + [] == sent;
        NothingOnWire(Send(o, FreshSender(source), up).2);
      }
    }
  }

  lemma {:induction false} OfferIsFirst(o: Outgoing, source: Bytes, up: Bytes)
    ensures var frames := Send(o, FreshSender(source), up).2;
            if Sendable(OfferFrame(o)) then
              frames != [] && frames[0] == OfferFrame(o)
              && frames[1..] == Send(o, FreshSender(source).(phase := AwaitDecision), up).2
            else frames == []
  {
    hide Sendable, ParseFrame, Hear;
    var waiting := FreshSender(source).(phase := AwaitDecision);
    if Sendable(OfferFrame(o)) {
      assert ([OfferFrame(o)] + Send(o, waiting, up).2)[1..] == Send(o, waiting, up).2;
    }
  }

  /** After acceptance: the sender sends chunks only once it has heard a decision. */
  lemma {:induction false} AcceptedInStep(o: Outgoing, env: Env, source: Bytes, up: Bytes, down: Bytes)
    requires Shared(o, env)
    requires var frames := Send(o, FreshSender(source).(phase := AwaitDecision), up).2;
             AllSendable(frames) && down <= Wire(frames)
    ensures var run := Receive(env, Receiver(Receiving(o.offer, 0), []), down);
            && StagesSource(o, source, run)
            && (run.0.phase.Received? ==> down == Wire(Send(o, FreshSender(source).(phase := AwaitDecision), up).2))
  {
    hide Valid, ValidOffer, RoundTrips, ParseFrame, Receive;
    var waiting := FreshSender(source).(phase := AwaitDecision);
    var p := ParseFrame(up, MaxFrameSize);
    if p.Payload? && Hear(o, waiting, p.payload).phase.Sending? {
      assert Hear(o, waiting, p.payload) == Sender(Sending(0), source, []);
      assert [] + source == source;
      ChunksInStep(o, env, Sender(Sending(0), source, []), 0, p.rest, down);
    } else {
      assert Send(o, waiting, up).2 == [];
      SilenceAborts(env, Receiver(Receiving(o.offer, 0), []), down);
    }
  }

  lemma {:induction false} SilenceAborts(env: Env, r: Receiver, down: Bytes)
    requires !ReceiverDone(r) && down <= Wire([])
    ensures var run := Receive(env, r, down); run.0 == Receiver(ReceiverAborted, r.staged) && run.2 == []
  {
    NothingParses(Bound(r));
  }

  /** A sender past the decision is never rejected, and reads its receipt as the next frame. */
  lemma {:induction false} ReceiptWasRead(o: Outgoing, s: Sender, input: Bytes)
    requires s.phase.Sending? && s.phase.next <= |Chunks(o)|
    ensures var (end, p) := (Send(o, s, input).0, ParseFrame(input, MaxFrameSize));
            && !end.phase.Rejected?
            && (end.phase.Sent? ==>
                 && p.Payload? && o.codec.decodeReceipt(p.payload) == Some(end.phase.receipt)
                 && Send(o, s, input).1 == p.rest)
    decreases |Chunks(o)| - s.phase.next
  {
    hide ChunkVerifies, ParseFrame, Sendable;
    var (s1, said) := Say(o, s);
    RankFalls(o, s, []);
    assert Send(o, s, input).0 == Send(o, s1, input).0 && Send(o, s, input).1 == Send(o, s1, input).1;
    if s1.phase.Sending? {
      ReceiptWasRead(o, s1, input);
    } else if s1.phase.AwaitReceipt? && ParseFrame(input, MaxFrameSize).Payload? {
      var p := ParseFrame(input, MaxFrameSize);
      var s2 := Hear(o, s1, p.payload);
      assert Send(o, s2, p.rest) == (s2, p.rest, []);
      assert Send(o, s1, input).0 == s2 && Send(o, s1, input).1 == p.rest;
    }
  }

  /** A sender that got as far as a decision: what it makes of it and of the rest of its input. */
  lemma {:induction false} DecisionHeard(o: Outgoing, source: Bytes, up: Bytes)
    requires ParseFrame(up, MaxFrameSize).Payload?
    ensures var (p, run) := (ParseFrame(up, MaxFrameSize), Send(o, FreshSender(source), up));
            var s0 := Hear(o, FreshSender(source).(phase := AwaitDecision), p.payload);
            && (run.0.phase.SenderAborted? || (run.0 == Send(o, s0, p.rest).0 && run.1 == Send(o, s0, p.rest).1))
            && (!s0.phase.Sending? ==> SenderDone(s0) && Send(o, s0, p.rest) == (s0, p.rest, []) && |run.2| <= 1)
  {
    hide ParseFrame, Sendable;
    var (p, waiting) := (ParseFrame(up, MaxFrameSize), FreshSender(source).(phase := AwaitDecision));
    var s0 := Hear(o, waiting, p.payload);
    OfferGoesOut(o, source, up);
    assert Send(o, waiting, up) == Send(o, s0, p.rest);
    if !s0.phase.Sending? {
      assert Send(o, s0, p.rest) == (s0, p.rest, []);
    }
  }

  /** The sender on any prefix of the bytes of a receiver that is in step. */
  lemma {:induction false} SenderInStep(o: Outgoing, env: Env, source: Bytes, up: Bytes,
                                        run: (Receiver, Bytes, seq<Bytes>))
    requires Shared(o, env) && ReceivedInStep(o, source, run) && AllSendable(run.2) && up <= Wire(run.2)
    ensures var (s, left, frames) := Send(o, FreshSender(source), up);
            && (s.phase.Sent? ==>
                 run.0.phase.Received? && s.phase.receipt == run.0.phase.receipt && !(up <= Opening(run.2)))
            && (s.phase.Rejected? ==> run.0.phase.Denied?)
            && (s.phase.Sent? || s.phase.Rejected? ==> left == [] && up == Wire(run.2))
            && (run.0.phase.Denied? ==> |frames| <= 1)
  {
    hide Valid, ValidOffer, RoundTrips, ParseFrame, Sendable, Wire, Send;
    FramesDecode(o, env);
    FirstOfWire(up, run.2, MaxFrameSize);
    var p := ParseFrame(up, MaxFrameSize);
    if p.Refused? {
      UndecidedAborts(o, source, up);
    } else {
      var s0 := Hear(o, FreshSender(source).(phase := AwaitDecision), p.payload);
      DecisionHeard(o, source, up);
      NothingOnWire(run.2);
      if s0.phase.Sending? {
        ReceiptWasRead(o, s0, p.rest);
        if Send(o, FreshSender(source), up).0.phase.Sent? {
          FirstOfWire(p.rest, run.2[1..], MaxFrameSize);
          NothingOnWire(run.2[1..]);
          BehindFirst(up, run.2[0]);
        }
      }
    }
  }

  lemma {:induction false} UndecidedAborts(o: Outgoing, source: Bytes, up: Bytes)
    requires ParseFrame(up, MaxFrameSize).Refused?
    ensures var run := Send(o, FreshSender(source), up); run.0.phase.SenderAborted? && |run.2| <= 1
  {
    hide ParseFrame, Sendable;
    OfferGoesOut(o, source, up);
    assert Send(o, FreshSender(source).(phase := AwaitDecision), up).0.phase.SenderAborted?;
  }

  lemma {:induction false} OfferGoesOut(o: Outgoing, source: Bytes, up: Bytes)
    ensures var (run, rest) := (Send(o, FreshSender(source), up),
                                Send(o, FreshSender(source).(phase := AwaitDecision), up));
            if Sendable(OfferFrame(o)) then run == (rest.0, rest.1, [OfferFrame(o)] + rest.2)
            else run.0.phase.SenderAborted? && run.2 == []
  {
    hide Sendable, ParseFrame, Hear;
    var s1 := SayOffer(o, FreshSender(source)).0;
    assert Send(o, FreshSender(source), up).0 == Send(o, s1, up).0;
  }

  lemma {:induction false} BehindFirst(up: Bytes, first: Bytes)
    requires Sendable(first) && ParseFrame(up, MaxFrameSize).Payload?
    requires ParseFrame(ParseFrame(up, MaxFrameSize).rest, MaxFrameSize).Payload?
    ensures !(up <= Frame(first))
  {
    if up <= Frame(first) {
      assert up <= Frame(first) + [];
      PrefixParse(up, first, [], MaxFrameSize);
    }
  }

  /**
   Agreement over bytes: whatever prefix of each side's bytes reaches the other, a receipt at
   the sender means that the receiver has it too and has staged exactly the source; a receipt at
   the receiver means the latter as well; a rejection at the sender was the receiver's; and a
   side that ends well has read every byte the other one had to say.
   */
  lemma {:induction false} BytesAgree(o: Outgoing, env: Env, source: Bytes, up: Bytes, down: Bytes)
    requires Shared(o, env)
    requires var (sent, answered) := (Send(o, FreshSender(source), up).2, Receive(env, FreshReceiver, down).2);
             AllSendable(sent) && AllSendable(answered) && down <= Wire(sent) && up <= Wire(answered)
    ensures var (s, r) := (Send(o, FreshSender(source), up).0, Receive(env, FreshReceiver, down).0);
            && r.staged <= source
            && (r.phase.Received? ==> r == Receiver(Received(o.offer, VerifiedPayloadReceipt(o.offer)), source))
            && (s.phase.Sent? ==> r.phase.Received? && s.phase.receipt == r.phase.receipt)
            && (s.phase.Rejected? ==> r.phase.Denied?)
    ensures var (sending, receiving) := (Send(o, FreshSender(source), up), Receive(env, FreshReceiver, down));
            && (sending.0.phase.Sent? || sending.0.phase.Rejected? ==> sending.1 == [] && up == Wire(receiving.2))
            && (receiving.0.phase.Received? || receiving.0.phase.Denied? ==>
                 receiving.1 == [] && down == Wire(sending.2))
  {
    hide Shared, Send, Receive, Wire;
    ReceiverInStep(o, env, source, up, down);
    SenderInStep(o, env, source, up, Receive(env, FreshReceiver, down));
  }

  /**
   Two calls on one connection: what each was given, what it returned and left behind, and which
   bytes ever reached it.  `sendSound` and `receiveSound` say that its streams and checks held.
   */
  datatype Exchange = Exchange(
    o: Outgoing, source: Bytes, up: Bytes, sending: SendResult, sent: Bytes,
    sendClosed: bool, sendLeft: Bytes, sendSound: bool,
    env: Env, down: Bytes, receiving: ReceiveResult, staged: Bytes, answered: Bytes,
    receiveClosed: bool, receiveLeft: Bytes, receiveSound: bool)

  /** Both calls kept their contracts, and what reached each side is a prefix of what the other wrote. */
  ghost predicate Happened(x: Exchange)
  {
    && Shared(x.o, x.env)
    && SendMeets(x.o, x.source, x.up, x.sending, x.sendClosed, x.sendLeft, x.sent, x.sendSound)
    && ReceiveMeets(x.env, x.down, x.receiving, x.receiveClosed, x.receiveLeft, x.staged, x.answered, x.receiveSound)
    && x.down <= x.sent && x.up <= x.answered
  }

  /**
   Agreement of the two calls, guarded or not, whatever fails: a receipt on either side means
   that exactly the source is already staged, and a rejection that nothing is.  A call that did
   not fail has read every byte the other one wrote, so the next transfer finds clean streams.
   */
  lemma {:induction false} CallsAgree(x: Exchange)
    requires Happened(x)
    ensures x.staged <= x.source
    ensures x.receiving.Delivered? ==>
              x.staged == x.source && x.receiving == Delivered(x.o.offer, VerifiedPayloadReceipt(x.o.offer))
    ensures x.sending.Completed? ==>
              x.staged == x.source && x.sending == Completed(VerifiedPayloadReceipt(x.o.offer))
    ensures x.sending.TransferRejected? ==> x.staged == []
    ensures !x.sending.SendFailed? ==> x.sendLeft == [] && x.up == x.answered
    ensures !x.receiving.ReceiveFailed? ==> x.receiveLeft == [] && x.down == x.sent
  {
    hide Shared, Send, Receive, Wire;
    BytesAgree(x.o, x.env, x.source, x.up, x.down);
    ReceiverInStep(x.o, x.env, x.source, x.up, x.down);
    SenderInStep(x.o, x.env, x.source, x.up, Receive(x.env, FreshReceiver, x.down));
  }
}
