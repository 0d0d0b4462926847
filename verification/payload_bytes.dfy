/** The two byte conversations of an undisturbed transfer are each other's input. */
module PayloadBytes {
  import opened Streams
  import opened Frames
  import opened Manifests
  import opened PayloadProtocol
  import opened PayloadTransfer
  import opened PayloadSending
  import opened PayloadSession
  import opened PayloadOutcome

  /** The sender's frames from number `i` on. */
  function Script(link: Link, source: Bytes, i: nat): seq<Bytes>
    requires Proper(link)
    decreases N(link) + 2 - i
  {
    if i >= N(link) + 2 then [] else [DownFrame(link, source, i)] + Script(link, source, i + 1)
  }

  ghost predicate Agreed(link: Link, source: Bytes)
  {
    Smooth(link, source) && link.authorize(link.o.offer) == Allow
  }

  lemma {:induction false} ScriptFrame(link: Link, source: Bytes, i: nat)
    requires Smooth(link, source) && i < N(link) + 2
    ensures Proper(link) && Sendable(DownFrame(link, source, i))
    ensures 1 <= i <= N(link) ==>
              && Off(link, i - 1) <= Off(link, i) <= |source|
              && DownFrame(link, source, i) == source[Off(link, i - 1)..Off(link, i)]
              && |DownFrame(link, source, i)| == ManifestIn(link).chunks[i - 1].size
              && ChunkVerifies(link.o.hash, ManifestIn(link).chunks[i - 1], DownFrame(link, source, i))
  {
    hide Offset, ValidFilename, RoundTrips;
    if 1 <= i <= N(link) {
      OffFacts(link, i - 1);
      MatchingChunk(link, source, i - 1);
      PartIs(link, source, i - 1);
      assert source[Off(link, i - 1)..][..ManifestIn(link).chunks[i - 1].size]
          == source[Off(link, i - 1)..Off(link, i)];
    }
  }

  lemma {:induction false} ScriptWire(link: Link, source: Bytes, i: nat)
    requires Smooth(link, source)
    ensures Proper(link) && AllSendable(Script(link, source, i))
    ensures i < N(link) + 2 ==>
              AllSendable(Script(link, source, i + 1)) && Sendable(DownFrame(link, source, i))
              && Wire(Script(link, source, i)) == Frame(DownFrame(link, source, i)) + Wire(Script(link, source, i + 1))
    decreases N(link) + 2 - i
  {
    hide Smooth, DownFrame, Frame, Sendable, Valid;
    SmoothIsProper(link, source);
    if i < N(link) + 2 {
      ScriptFrame(link, source, i);
      ScriptWire(link, source, i + 1);
      WireOne(DownFrame(link, source, i));
      EncodeJoin([DownFrame(link, source, i)], Script(link, source, i + 1));
    }
  }

  function Replies(link: Link): seq<Bytes>
  {
    [UpFrame(link, 0), UpFrame(link, 1)]
  }

  /** Reading one whole frame off the wire is one reaction. */
  lemma {:induction false} ReceiveOne(env: Env, r: Receiver, frame: Bytes, rest: Bytes)
    requires !ReceiverDone(r) && Sendable(frame) && |frame| <= Bound(r) <= MaxFrameSize
    ensures var (r1, sent) := React(env, r, frame);
            Receive(env, r, Frame(frame) + rest) == After(sent, Receive(env, r1, rest))
  {
    hide ParseFrame, React, Frame;
    FrameRoundTrip(frame, Bound(r), rest);
  }

  lemma {:induction false} ReceiverOnScript(link: Link, source: Bytes, k: nat)
    requires Agreed(link, source) && k <= N(link)
    ensures Proper(link) && Off(link, k) <= |source| && AllSendable(Script(link, source, k + 1))
    ensures Receive(EnvOf(link), Receiver(Receiving(link.o.offer, k), source[..Off(link, k)]),
                    Wire(Script(link, source, k + 1)))
         == (Receiver(Received(link.o.offer, VerifiedPayloadReceipt(link.o.offer)), source), [], [UpFrame(link, 1)])
    decreases N(link) - k
  {
    hide Valid, Offset, Frame, ChunkVerifies, Receive, Script, Wire, Matches;
    var env, offer := EnvOf(link), link.o.offer;
    SmoothIsProper(link, source);
    ScriptWire(link, source, k + 1);
    ScriptFrame(link, source, k + 1);
    OffFacts(link, k);
    SizeOfSource(link, source);
    var r := Receiver(Receiving(offer, k), source[..Off(link, k)]);
    var frame := DownFrame(link, source, k + 1);
    ReceiveOne(env, r, frame, Wire(Script(link, source, k + 2)));
    if k < N(link) {
      assert source[..Off(link, k)] + frame == source[..Off(link, k + 1)];
      ReceiverOnScript(link, source, k + 1);
      assert [] + [UpFrame(link, 1)] == [UpFrame(link, 1)];
    } else {
      assert source[..|source|] == source;
      ScriptEnds(link, source);
      ReceiveDone(env, Receiver(Received(offer, VerifiedPayloadReceipt(offer)), source));
      assert [UpFrame(link, 1)] + [] == [UpFrame(link, 1)];
    }
  }

  lemma {:induction false} ReceiveDone(env: Env, r: Receiver)
    requires ReceiverDone(r)
    ensures Receive(env, r, []) == (r, [], [])
  {
  }

  lemma {:induction false} ScriptEnds(link: Link, source: Bytes)
    requires Proper(link)
    ensures Script(link, source, N(link) + 2) == [] && Wire([]) == []
  {
  }

  lemma {:induction false} SizeOfSource(link: Link, source: Bytes)
    requires Smooth(link, source)
    ensures Proper(link) && Off(link, N(link)) == |source| && link.o.hash(source) == ManifestIn(link).hash
  {
    hide Valid, Offset, RoundTrips;
    OffFacts(link, 0);
  }

  lemma {:induction false} SenderOnReceipt(link: Link, source: Bytes, k: nat)
    requires Agreed(link, source) && k <= N(link)
    ensures Proper(link) && Off(link, k) <= |source| && AllSendable([UpFrame(link, 1)])
    ensures var (s, left, sent) := Send(link.o, Sender(Sending(k), source[Off(link, k)..], source[..Off(link, k)]),
                                        Wire([UpFrame(link, 1)]));
            s.phase == Sent(VerifiedPayloadReceipt(link.o.offer)) && left == [] && sent == Script(link, source, k + 1)
    decreases N(link) - k
  {
    hide Valid, Offset, Frame, ChunkVerifies, Wire, Matches;
    SmoothIsProper(link, source);
    ScriptFrame(link, source, k + 1);
    OffFacts(link, k);
    SizeOfSource(link, source);
    WireOne(UpFrame(link, 1));
    var s := Sender(Sending(k), source[Off(link, k)..], source[..Off(link, k)]);
    if k < N(link) {
      assert s.source[..ManifestIn(link).chunks[k].size] == DownFrame(link, source, k + 1);
      assert s.source[ManifestIn(link).chunks[k].size..] == source[Off(link, k + 1)..];
      assert s.hashed + DownFrame(link, source, k + 1) == source[..Off(link, k + 1)];
      SenderOnReceipt(link, source, k + 1);
    } else {
      assert source[..|source|] == source && source[|source|..] == [];
      assert SayCompletion(link.o, s).1 == [DownFrame(link, source, k + 1)];
      FrameRoundTrip(UpFrame(link, 1), MaxFrameSize, []);
      assert Frame(UpFrame(link, 1)) + [] == Frame(UpFrame(link, 1));
      ScriptEnds(link, source);
      assert Script(link, source, k + 1) == [DownFrame(link, source, k + 1)] + Script(link, source, k + 2);
      AwaitingReceiptEnds(link, s.(phase := AwaitReceipt));
      assert [DownFrame(link, source, k + 1)] + [] == [DownFrame(link, source, k + 1)];
    }
  }

  lemma {:induction false} AwaitingReceiptEnds(link: Link, s: Sender)
    requires RoundTrips(link.o.codec) && Proper(link) && Sendable(UpFrame(link, 1)) && s.phase == AwaitReceipt
    ensures Send(link.o, s, Frame(UpFrame(link, 1)))
         == (s.(phase := Sent(VerifiedPayloadReceipt(link.o.offer))), [], [])
  {
    hide Frame, Valid, ParseFrame;
    FrameRoundTrip(UpFrame(link, 1), MaxFrameSize, []);
    assert Frame(UpFrame(link, 1)) + [] == Frame(UpFrame(link, 1));
    var s1 := s.(phase := Sent(VerifiedPayloadReceipt(link.o.offer)));
    assert Hear(link.o, s, UpFrame(link, 1)) == s1;
    assert Send(link.o, s1, []) == (s1, [], []);
  }

  /**
   The bytes fit together: fed with everything the other side sends, the sender ends with the
   receipt and the receiver with the source staged, and neither leaves a byte unread.
   */
  lemma {:induction false} ConversationsMeet(link: Link, source: Bytes)
    requires Agreed(link, source)
    ensures Proper(link) && AllSendable(Script(link, source, 0)) && AllSendable(Replies(link))
    ensures Receive(EnvOf(link), FreshReceiver, Wire(Script(link, source, 0)))
         == (Receiver(Received(link.o.offer, VerifiedPayloadReceipt(link.o.offer)), source), [], Replies(link))
    ensures var (s, left, sent) := Send(link.o, FreshSender(source), Wire(Replies(link)));
            s.phase == Sent(VerifiedPayloadReceipt(link.o.offer)) && left == [] && sent == Script(link, source, 0)
  {
    hide Valid, Offset, Frame, Wire, Script, Matches, Receive, Send, Smooth;
    ReceiverConverses(link, source);
    SenderConverses(link, source);
  }

  lemma {:induction false} ReceiverConverses(link: Link, source: Bytes)
    requires Agreed(link, source)
    ensures Proper(link) && AllSendable(Script(link, source, 0))
    ensures Receive(EnvOf(link), FreshReceiver, Wire(Script(link, source, 0)))
         == (Receiver(Received(link.o.offer, VerifiedPayloadReceipt(link.o.offer)), source), [], Replies(link))
  {
    hide Valid, Offset, Frame, Wire, Script, Matches;
    SmoothIsProper(link, source);
    ScriptWire(link, source, 0);
    OffFacts(link, 0);
    assert source[..0] == [];
    ReceiveOne(EnvOf(link), FreshReceiver, DownFrame(link, source, 0), Wire(Script(link, source, 1)));
    ReceiverOnScript(link, source, 0);
    assert [UpFrame(link, 0)] + [UpFrame(link, 1)] == Replies(link);
  }

  lemma {:induction false} SenderConverses(link: Link, source: Bytes)
    requires Agreed(link, source)
    ensures Proper(link) && AllSendable(Replies(link))
    ensures var (s, left, sent) := Send(link.o, FreshSender(source), Wire(Replies(link)));
            s.phase == Sent(VerifiedPayloadReceipt(link.o.offer)) && left == [] && sent == Script(link, source, 0)
  {
    hide Valid, Offset, Frame, Wire, Script, Matches, Say, Hear, Receive;
    SmoothIsProper(link, source);
    OffFacts(link, 0);
    assert source[..0] == [] && source[0..] == source;
    assert [UpFrame(link, 0)] + [UpFrame(link, 1)] == Replies(link);
    WireOne(UpFrame(link, 0));
    WireOne(UpFrame(link, 1));
    EncodeJoin([UpFrame(link, 0)], [UpFrame(link, 1)]);
    SenderOnReceipt(link, source, 0);
    SenderOpens(link, source);
  }

  lemma {:induction false} SenderOpens(link: Link, source: Bytes)
    requires Agreed(link, source) && AllSendable(Replies(link)) && AllSendable([UpFrame(link, 1)])
    requires Wire(Replies(link)) == Frame(UpFrame(link, 0)) + Wire([UpFrame(link, 1)])
    ensures Proper(link)
    ensures var run := Send(link.o, Sender(Sending(0), source, []), Wire([UpFrame(link, 1)]));
            Send(link.o, FreshSender(source), Wire(Replies(link)))
            == (run.0, run.1, [DownFrame(link, source, 0)] + run.2)
    ensures Script(link, source, 0) == [DownFrame(link, source, 0)] + Script(link, source, 1)
  {
    hide Valid, Frame, Wire, Matches, ParseFrame;
    var o, waiting := link.o, FreshSender(source).(phase := AwaitDecision);
    FrameRoundTrip(UpFrame(link, 0), MaxFrameSize, Wire([UpFrame(link, 1)]));
    assert Say(o, FreshSender(source)) == (waiting, [DownFrame(link, source, 0)]);
    assert Hear(o, waiting, UpFrame(link, 0)) == Sender(Sending(0), source, []);
    assert Send(o, waiting, Wire(Replies(link))) == Send(o, Sender(Sending(0), source, []), Wire([UpFrame(link, 1)]));
  }

  /**
   The rejected conversation: the receiver denies the offer and stages nothing, the sender
   records the rejection with its source untouched, and neither leaves a byte unread.
   */
  lemma {:induction false} RejectionMeets(link: Link, source: Bytes)
    requires Smooth(link, source) && link.authorize(link.o.offer) == Deny
    ensures Proper(link) && AllSendable([DownFrame(link, source, 0)]) && AllSendable([UpFrame(link, 0)])
    ensures Receive(EnvOf(link), FreshReceiver, Wire([DownFrame(link, source, 0)]))
         == (Receiver(Denied(link.o.offer), []), [], [UpFrame(link, 0)])
    ensures Send(link.o, FreshSender(source), Wire([UpFrame(link, 0)]))
         == (Sender(Rejected, source, []), [], [DownFrame(link, source, 0)])
  {
    hide Valid, Frame, Wire, Matches, ParseFrame;
    var (env, o, offered, answer) := (EnvOf(link), link.o, DownFrame(link, source, 0), UpFrame(link, 0));
    WireOne(offered);
    WireOne(answer);
    assert Frame(offered) + [] == Frame(offered) && Frame(answer) + [] == Frame(answer);
    ReceiveOne(env, FreshReceiver, offered, []);
    assert React(env, FreshReceiver, offered) == (Receiver(Denied(o.offer), []), [answer]);
    ReceiveDone(env, Receiver(Denied(o.offer), []));
    assert [answer] + [] == [answer];
    FrameRoundTrip(answer, MaxFrameSize, []);
    var waiting := FreshSender(source).(phase := AwaitDecision);
    assert Say(o, FreshSender(source)) == (waiting, [offered]);
    assert Hear(o, waiting, answer) == Sender(Rejected, source, []);
    assert Send(o, waiting, Wire([answer])) == (Sender(Rejected, source, []), [], []);
    assert [offered] + [] == [offered];
  }
}
