/** The sending side of a payload transfer: offer, decision, chunks, completion, receipt. */
module PayloadSending {
  import opened Outcomes
  import opened Streams
  import opened Frames
  import opened Manifests
  import opened Peers
  import opened Gates
  import opened PayloadProtocol
  import opened PayloadTransfer

  /** One offer, and how the stream it is read from ends. */
  datatype Outgoing = Outgoing(hash: Hasher, codec: Codec, offer: PayloadOffer, end: End)

  datatype SenderPhase =
    | Offering
    | AwaitDecision
    | Sending(next: nat)
    | AwaitReceipt
    | Sent(receipt: PayloadReceipt)
    | Rejected
    | SenderAborted

  datatype Sender = Sender(phase: SenderPhase, source: Bytes, hashed: Bytes)

  function FreshSender(source: Bytes): Sender
  {
    Sender(Offering, source, [])
  }

  predicate SenderDone(s: Sender)
  {
    s.phase.Sent? || s.phase.Rejected? || s.phase.SenderAborted?
  }

  /** The sender acts on its own: it has a frame to send. */
  predicate Speaks(s: Sender)
  {
    s.phase.Offering? || s.phase.Sending?
  }

  function Chunks(o: Outgoing): seq<Chunk>
  {
    o.offer.manifest.chunks
  }

  function Aborted(s: Sender): (Sender, seq<Bytes>)
  {
    (s.(phase := SenderAborted), [])
  }

  function SayOffer(o: Outgoing, s: Sender): (Sender, seq<Bytes>)
  {
    var frame := o.codec.encodeOffer(o.offer);
    if Sendable(frame) then (s.(phase := AwaitDecision), [frame]) else Aborted(s)
  }

  /** Reads the next chunk from the source and sends it once it verifies. */
  function SayChunk(o: Outgoing, s: Sender, next: nat): (Sender, seq<Bytes>)
    requires next < |Chunks(o)|
  {
    var expected := Chunks(o)[next];
    if expected.size < 0 || |s.source| < expected.size then Aborted(s.(source := []))
    else
      var data, rest := s.source[..expected.size], s.source[expected.size..];
      if !ChunkVerifies(o.hash, expected, data) || !Sendable(data) then Aborted(s.(source := rest))
      else (Sender(Sending(next + 1), rest, s.hashed + data), [data])
  }

  /** No trailing data, the whole digest agrees: the completion goes out. */
  function SayCompletion(o: Outgoing, s: Sender): (Sender, seq<Bytes>)
  {
    var frame := o.codec.encodeCompletion(CompletedPayload(o.offer));
    if s.source != [] || o.end == Broken || o.hash(s.hashed) != o.offer.manifest.hash || !Sendable(frame) then
      Aborted(s)
    else (s.(phase := AwaitReceipt), [frame])
  }

  function Say(o: Outgoing, s: Sender): (Sender, seq<Bytes>)
    requires Speaks(s)
  {
    match s.phase
    case Offering => SayOffer(o, s)
    case Sending(next) => if next < |Chunks(o)| then SayChunk(o, s, next) else SayCompletion(o, s)
  }

  /** The sender's reaction to the one frame it waits for. */
  function Hear(o: Outgoing, s: Sender, frame: Bytes): Sender
    requires !Speaks(s) && !SenderDone(s)
  {
    var aborted := s.(phase := SenderAborted);
    match s.phase
    case AwaitDecision =>
      (match o.codec.decodeDecision(frame)
       case None => aborted
       case Some(d) =>
         if !DecisionFor(d, o.offer) then aborted
         else if d.accepted then s.(phase := Sending(0)) else s.(phase := Rejected))
    case AwaitReceipt =>
      (match o.codec.decodeReceipt(frame)
       case None => aborted
       case Some(receipt) => if ReceiptFor(receipt, o.offer) then s.(phase := Sent(receipt)) else aborted)
  }

  function Rank(o: Outgoing, s: Sender): nat
  {
    var n := |Chunks(o)|;
    match s.phase
    case Offering => n + 4
    case AwaitDecision => n + 3
    case Sending(next) => if next < n then n + 2 - next else 2
    case AwaitReceipt => 1
    case _ => 0
  }

  /** Where the sender ends up on a whole input, the input it leaves unread, and all it sends. */
  function Send(o: Outgoing, s: Sender, input: Bytes): (Sender, Bytes, seq<Bytes>)
    decreases Rank(o, s)
  {
    if SenderDone(s) then (s, input, [])
    else if Speaks(s) then
      var (s1, sent) := Say(o, s);
      var (s2, left, more) := Send(o, s1, input);
      (s2, left, sent + more)
    else
      match ParseFrame(input, MaxFrameSize)
      case Refused(_, rest) => (s.(phase := SenderAborted), rest, [])
      case Payload(frame, rest) => Send(o, Hear(o, s, frame), rest)
  }

  /** The whole run equals what was sent so far plus the run of `s` on `input`. */
  ghost predicate Follows(o: Outgoing, source: Bytes, whole: Bytes, s: Sender, sent: seq<Bytes>, input: Bytes)
  {
    var run := Send(o, s, input);
    && Send(o, FreshSender(source), whole) == (run.0, run.1, sent + run.2)
    && AllSendable(sent)
  }

  lemma {:induction false} SaySendable(o: Outgoing, s: Sender)
    requires Speaks(s)
    ensures AllSendable(Say(o, s).1)
  {
    hide ChunkVerifies;
  }

  lemma {:induction false} SendSendable(o: Outgoing, s: Sender, input: Bytes)
    ensures AllSendable(Send(o, s, input).2)
    decreases Rank(o, s)
  {
    hide Say, Hear, Sendable, ParseFrame;
    if !SenderDone(s) {
      if Speaks(s) {
        RankFalls(o, s, []);
        SaySendable(o, s);
        SendSendable(o, Say(o, s).0, input);
      } else if ParseFrame(input, MaxFrameSize).Payload? {
        var p := ParseFrame(input, MaxFrameSize);
        RankFalls(o, s, p.payload);
        SendSendable(o, Hear(o, s, p.payload), p.rest);
      }
    }
  }

  lemma {:induction false} RankFalls(o: Outgoing, s: Sender, frame: Bytes)
    requires !SenderDone(s)
    ensures Speaks(s) ==> Rank(o, Say(o, s).0) < Rank(o, s)
    ensures !Speaks(s) ==> Rank(o, Hear(o, s, frame)) < Rank(o, s)
  {
    hide ChunkVerifies, Sendable;
  }

  lemma {:induction false} FollowStart(o: Outgoing, source: Bytes, whole: Bytes)
    ensures Follows(o, source, whole, FreshSender(source), [], whole)
  {
    hide Say;
    var run := Send(o, FreshSender(source), whole);
    assert [] + run.2 == run.2;
  }

  lemma {:induction false} FollowSay(o: Outgoing, source: Bytes, whole: Bytes, s: Sender, sent: seq<Bytes>,
                                     input: Bytes)
    requires Follows(o, source, whole, s, sent, input) && Speaks(s)
    ensures var (s1, more) := Say(o, s);
            Follows(o, source, whole, s1, sent + more, input)
  {
    hide Say, Hear, Sendable, ParseFrame;
    SaySendable(o, s);
    var (s1, more) := Say(o, s);
    var run := Send(o, s1, input);
    assert sent + (more + run.2) == (sent + more) + run.2;
  }

  /** A run that stops here, or whose next frame is refused or heard. */
  lemma {:induction false} FollowHear(o: Outgoing, source: Bytes, whole: Bytes, s: Sender, sent: seq<Bytes>,
                                      input: Bytes)
    requires Follows(o, source, whole, s, sent, input)
    ensures SenderDone(s) ==> Send(o, FreshSender(source), whole) == (s, input, sent)
    ensures !SenderDone(s) && !Speaks(s) ==>
              var p := ParseFrame(input, MaxFrameSize);
              if p.Refused? then Send(o, FreshSender(source), whole).0.phase.SenderAborted?
              else Follows(o, source, whole, Hear(o, s, p.payload), sent, p.rest)
  {
    hide Say, Hear, Sendable, ParseFrame;
    assert sent + [] == sent;
  }

  lemma {:induction false} FollowBounds(o: Outgoing, source: Bytes, whole: Bytes, s: Sender, sent: seq<Bytes>,
                                        input: Bytes)
    requires Follows(o, source, whole, s, sent, input)
    ensures var all := Send(o, FreshSender(source), whole).2;
            AllSendable(sent) && AllSendable(all) && Wire(sent) <= Wire(all)
  {
    hide Say, Hear, Sendable, ParseFrame;
    SendSendable(o, s, input);
    EncodeJoin(sent, Send(o, s, input).2);
  }

  datatype SendResult =
    | SenderNotTrusted
    | OfferInvalid
    | Completed(receipt: PayloadReceipt)
    | TransferRejected
    | SendFailed

  /** How a send call that was let in relates to the run of the sender machine. */
  ghost predicate SendMeets(o: Outgoing, source: Bytes, whole: Bytes, result: SendResult, closed: bool, input: Bytes,
                            sent: Bytes, healthy: bool)
  {
    var (s, left, frames) := Send(o, FreshSender(source), whole);
    && AllSendable(frames)
    && (match result
        case SenderNotTrusted => false
        case OfferInvalid => false
        case Completed(receipt) => s.phase == Sent(receipt)
        case TransferRejected => s.phase == Rejected
        case SendFailed => closed && sent <= Wire(frames))
    && (!result.SendFailed? ==> !closed && input == left && sent == Wire(frames))
    && (healthy ==> (result.SendFailed? <==> s.phase.SenderAborted?))
  }

  /** `failPayloadTransfer` on the sending side. */
  method FailSend(peer: PeerConn, o: Outgoing, ghost source: Bytes, ghost whole: Bytes, ghost s: Sender,
                  ghost sent: seq<Bytes>, ghost input: Bytes, ghost start: Bytes, ghost sound: bool)
    requires peer.connected && Follows(o, source, whole, s, sent, input)
    requires AllSendable(sent) && start <= peer.output.written <= start + Wire(sent)
    requires sound ==> Send(o, FreshSender(source), whole).0.phase.SenderAborted?
    modifies peer`closed
    ensures peer.closed
    ensures SendMeets(o, source, whole, SendFailed, peer.closed, peer.input.remaining,
                      Gained(peer.output.written, |start|), sound)
  {
    peer.Close();
    FollowBounds(o, source, whole, s, sent, input);
    GainedOf(start, peer.output.written, Wire(sent));
  }

  /** Sends the frame of one spontaneous step, if the step produced one. */
  method Speak(peer: PeerConn, o: Outgoing, frame: Bytes, ghost source: Bytes, ghost whole: Bytes, ghost s: Sender,
               ghost sent: seq<Bytes>, ghost start: Bytes) returns (ok: bool)
    requires peer.connected && !peer.closed && Speaks(s) && Follows(o, source, whole, s, sent, peer.input.remaining)
    requires AllSendable(sent) && peer.output.written == start + Wire(sent)
    requires Say(o, s).1 == if Sendable(frame) then [frame] else []
    requires !Sendable(frame) ==> Say(o, s).0.phase.SenderAborted?
    modifies peer.output, peer`closed
    ensures !ok ==>
              && start <= peer.output.written && peer.closed
              && SendMeets(o, source, whole, SendFailed, peer.closed, peer.input.remaining,
                           Gained(peer.output.written, |start|), peer.output.healthy)
    ensures ok ==>
              && !peer.closed && Say(o, s).1 == [frame]
              && AllSendable(sent + [frame]) && peer.output.written == start + Wire(sent + [frame])
              && Follows(o, source, whole, Say(o, s).0, sent + [frame], peer.input.remaining)
  {
    hide Say, Follows, Send, SendMeets, Wire;
    ghost var (s1, more) := Say(o, s);
    FollowSay(o, source, whole, s, sent, peer.input.remaining);
    FollowHear(o, source, whole, s1, sent + more, peer.input.remaining);
    FollowBounds(o, source, whole, s1, sent + more, peer.input.remaining);
    assert sent + [] == sent;
    ok := SendRecord(peer, frame, start, sent);
    if !ok {
      FailSend(peer, o, source, whole, s1, sent + more, peer.input.remaining, start, peer.output.healthy);
    }
  }

  /** Waits for one control frame. */
  method Listen(peer: PeerConn, o: Outgoing, ghost source: Bytes, ghost whole: Bytes, ghost s: Sender,
                ghost sent: seq<Bytes>)
    returns (frame: Result<Bytes, FrameError>)
    requires !Speaks(s) && !SenderDone(s) && Follows(o, source, whole, s, sent, peer.input.remaining)
    modifies peer.input
    ensures frame.Failure? ==> Send(o, FreshSender(source), whole).0.phase.SenderAborted?
    ensures frame.Success? ==>
              && Follows(o, source, whole, Hear(o, s, frame.value), sent, peer.input.remaining)
              && ParseFrame(old(peer.input.remaining), MaxFrameSize) == Payload(frame.value, peer.input.remaining)
  {
    hide Hear, Follows, Send, ParseFrame;
    FollowHear(o, source, whole, s, sent, peer.input.remaining);
    frame := ReadFrame(peer.input, MaxFrameSize);
  }

  lemma {:induction false} WireNothing(start: Bytes)
    ensures AllSendable([]) && start == start + Wire([])
  {
  }

  lemma {:induction false} EndMeets(o: Outgoing, source: Bytes, whole: Bytes, s: Sender, sent: seq<Bytes>, input: Bytes,
                                    result: SendResult, start: Bytes, now: Bytes, healthy: bool)
    requires Send(o, FreshSender(source), whole) == (s, input, sent) && AllSendable(sent) && now == start + Wire(sent)
    requires match result
             case Completed(receipt) => s.phase == Sent(receipt)
             case TransferRejected => s.phase == Rejected
             case _ => false
    ensures SendMeets(o, source, whole, result, false, input, Gained(now, |start|), healthy)
  {
    hide Send;
    GainedOf(start, now, Wire(sent));
  }

  /** A step that ends the run without a frame. */
  lemma {:induction false} SayStops(o: Outgoing, source: Bytes, whole: Bytes, s: Sender, sent: seq<Bytes>, input: Bytes)
    requires Follows(o, source, whole, s, sent, input)
    requires Speaks(s) && Say(o, s).0.phase.SenderAborted? && Say(o, s).1 == []
    ensures Send(o, FreshSender(source), whole).0.phase.SenderAborted?
  {
    hide Say, Send;
    FollowSay(o, source, whole, s, sent, input);
    FollowHear(o, source, whole, Say(o, s).0, sent + [], input);
  }

  /** The first frame of the input accepts this very transfer. */
  predicate AcceptedIn(o: Outgoing, input: Bytes)
  {
    var p := ParseFrame(input, 0x10_0000);
    p.Payload? && o.codec.decodeDecision(p.payload) == Some(PayloadDecision(1, o.offer.transferID, true))
  }

  /** The opening of a send: offer and decision. */
  method SendOffer(peer: PeerConn, o: Outgoing, ghost data: Bytes, ghost start: Bytes)
    returns (ended: Option<SendResult>, ghost sent: seq<Bytes>)
    requires peer.connected && !peer.closed && peer.output.written == start
    modifies peer`closed, peer.input, peer.output
    ensures ended.Some? ==>
              && (ended.value.TransferRejected? || ended.value.SendFailed?) && start <= peer.output.written
              && SendMeets(o, data, old(peer.input.remaining), ended.value, peer.closed, peer.input.remaining,
                           Gained(peer.output.written, |start|), peer.output.healthy)
    ensures ended.None? ==>
              && AcceptedIn(o, old(peer.input.remaining))
              && !peer.closed && AllSendable(sent) && peer.output.written == start + Wire(sent)
              && Follows(o, data, old(peer.input.remaining), Sender(Sending(0), data, []), sent, peer.input.remaining)
  {
    hide Follows, Send, SendMeets, Wire;
    ghost var whole := peer.input.remaining;
    ghost var s := FreshSender(data);
    sent := [];
    FollowStart(o, data, whole);
    WireNothing(start);
    var frame := o.codec.encodeOffer(o.offer);
    var ok := Speak(peer, o, frame, data, whole, s, sent, start);
    if !ok {
      return Some(SendFailed), sent;
    }
    s, sent := s.(phase := AwaitDecision), sent + [frame];
    ghost var input := peer.input.remaining;
    var heard := Listen(peer, o, data, whole, s, sent);
    if heard.Failure? {
      FailSend(peer, o, data, whole, s, sent, input, start, peer.output.healthy);
      return Some(SendFailed), sent;
    }
    s := Hear(o, s, heard.value);
    FollowHear(o, data, whole, s, sent, peer.input.remaining);
    var decision := o.codec.decodeDecision(heard.value);
    if decision.None? || !DecisionFor(decision.value, o.offer) {
      FailSend(peer, o, data, whole, s, sent, peer.input.remaining, start, peer.output.healthy);
      return Some(SendFailed), sent;
    }
    if !decision.value.accepted {
      EndMeets(o, data, whole, s, sent, peer.input.remaining, TransferRejected, start, peer.output.written,
               peer.output.healthy);
      return Some(TransferRejected), sent;
    }
    ended := None;
  }

  /** One chunk: read in full, verified, sent. */
  method SendChunk(peer: PeerConn, o: Outgoing, source: GatedReader, buffer: array<byte>, k: nat, ghost data: Bytes,
                   ghost whole: Bytes, ghost s: Sender, ghost sent: seq<Bytes>, ghost start: Bytes, ghost from: nat,
                   ghost calls: nat) returns (ok: bool, chunk: Bytes)
    requires source.stream != peer.input && source.gate.peer == peer
    requires k < |Chunks(o)| && 0 < Chunks(o)[k].size <= buffer.Length
    requires peer.connected && !peer.closed && AllSendable(sent) && peer.output.written == start + Wire(sent)
    requires s.phase == Sending(k) && s.source == source.stream.remaining
    requires Follows(o, data, whole, s, sent, peer.input.remaining)
    requires source.gate.Valid() && source.gate.Holds(from)
    requires Lockstep(source.gate, from, source.gate.turn, calls, source.stream.calls)
    modifies peer.output, peer`closed, source.stream, source.gate.Footprint(), buffer
    ensures source.gate.Valid() && old(source.gate.seen) <= source.gate.seen
    ensures Lockstep(source.gate, from, source.gate.turn, calls, source.stream.calls)
    ensures !source.gate.Holds(from) ==> !ok && Frozen(source.gate, source.Now())
    ensures !ok ==>
              && start <= peer.output.written && peer.closed
              && SendMeets(o, data, whole, SendFailed, peer.closed, peer.input.remaining,
                           Gained(peer.output.written, |start|), peer.output.healthy && source.gate.Holds(from))
    ensures ok ==>
              && !peer.closed && AllSendable(sent + [chunk]) && peer.output.written == start + Wire(sent + [chunk])
              && Follows(o, data, whole, Sender(Sending(k + 1), source.stream.remaining, s.hashed + chunk),
                         sent + [chunk], peer.input.remaining)
  {
    hide Follows, Send, SendMeets, Wire, ChunkVerifies, SecurePeers.PassesAs, Frozen, Lockstep;
    var expected := Chunks(o)[k];
    var n, fill := source.ReadFull(buffer, expected.size, from, calls);
    chunk := buffer[..n];
    if fill != Filled || !ChunkVerifies(o.hash, expected, chunk) {
      if source.gate.Holds(from) {
        SayStops(o, data, whole, s, sent, peer.input.remaining);
      }
      FailSend(peer, o, data, whole, s, sent, peer.input.remaining, start,
               peer.output.healthy && source.gate.Holds(from));
      ok := false;
      return;
    }
    ok := Speak(peer, o, chunk, data, whole, s, sent, start);
  }

  /** The chunk loop and the checks that must pass before the completion may go out. */
  method SendChunks(peer: PeerConn, o: Outgoing, source: GatedReader, ghost data: Bytes, ghost whole: Bytes,
                    ghost before: seq<Bytes>, ghost start: Bytes, ghost from: nat, ghost calls: nat)
    returns (ok: bool, hashed: Bytes, ghost s: Sender, ghost sent: seq<Bytes>)
    requires source.stream != peer.input && source.gate.peer == peer && source.stream.end == o.end
    requires ValidOffer(o.hash, o.offer)
    requires peer.connected && !peer.closed && AllSendable(before) && peer.output.written == start + Wire(before)
    requires data == source.stream.remaining
    requires Follows(o, data, whole, Sender(Sending(0), data, []), before, peer.input.remaining)
    requires source.gate.Valid() && source.gate.Holds(from)
    requires Lockstep(source.gate, from, source.gate.turn, calls, source.stream.calls)
    modifies peer.output, peer`closed, source.stream, source.gate.Footprint()
    ensures source.gate.Valid() && old(source.gate.seen) <= source.gate.seen
    ensures Lockstep(source.gate, from, source.gate.turn, calls, source.stream.calls)
    ensures !source.gate.Holds(from) ==> !ok && Frozen(source.gate, source.Now())
    ensures !ok ==>
              && start <= peer.output.written
              && SendMeets(o, data, whole, SendFailed, peer.closed, peer.input.remaining,
                           Gained(peer.output.written, |start|), peer.output.healthy && source.gate.Holds(from))
              && peer.closed
    ensures ok ==>
              && !peer.closed && AllSendable(sent) && peer.output.written == start + Wire(sent)
              && s == Sender(Sending(|Chunks(o)|), [], hashed) && o.end != Broken
              && o.hash(hashed) == o.offer.manifest.hash
              && Follows(o, data, whole, s, sent, peer.input.remaining)
  {
    hide Follows, Send, SendMeets, Wire, Valid, ChunkVerifies, SecurePeers.PassesAs, Frozen, Lockstep;
    s, sent, hashed := Sender(Sending(0), data, []), before, [];
    var m := o.offer.manifest;
    ChunksCoverPayload(o.hash, m);
    var buffer := new byte[m.chunkSize];
    for k := 0 to |m.chunks|
      invariant fresh(buffer) && peer.connected && !peer.closed
      invariant source.gate.Valid() && source.gate.Holds(from) && old(source.gate.seen) <= source.gate.seen
      invariant Lockstep(source.gate, from, source.gate.turn, calls, source.stream.calls)
      invariant s == Sender(Sending(k), source.stream.remaining, hashed)
      invariant Follows(o, data, whole, s, sent, peer.input.remaining)
      invariant AllSendable(sent) && peer.output.written == start + Wire(sent)
    {
      SizesInRange(o.hash, m, k);
      var chunk;
      ok, chunk := SendChunk(peer, o, source, buffer, k, data, whole, s, sent, start, from, calls);
      if !ok {
        return;
      }
      hashed := hashed + chunk;
      s, sent := Sender(Sending(k + 1), source.stream.remaining, hashed), sent + [chunk];
    }
    var n, fill := source.ReadFull(buffer, 1, from, calls);
    if n > 0 || fill == Failed || o.hash(hashed) != m.hash {
      if source.gate.Holds(from) {
        SayStops(o, data, whole, s, sent, peer.input.remaining);
      }
      FailSend(peer, o, data, whole, s, sent, peer.input.remaining, start,
               peer.output.healthy && source.gate.Holds(from));
      ok := false;
      return;
    }
    ok := true;
  }

  /** The closing of a send: completion and receipt. */
  method SendCompletion(peer: PeerConn, o: Outgoing, ghost data: Bytes, ghost whole: Bytes, ghost first: Sender,
                        ghost before: seq<Bytes>, ghost start: Bytes) returns (result: SendResult)
    requires peer.connected && !peer.closed && AllSendable(before) && peer.output.written == start + Wire(before)
    requires first.phase == Sending(|Chunks(o)|) && first.source == [] && o.end != Broken
    requires o.hash(first.hashed) == o.offer.manifest.hash
    requires Follows(o, data, whole, first, before, peer.input.remaining)
    modifies peer`closed, peer.input, peer.output
    ensures start <= peer.output.written && (result.Completed? || result.SendFailed?)
    ensures SendMeets(o, data, whole, result, peer.closed, peer.input.remaining,
                      Gained(peer.output.written, |start|), peer.output.healthy)
  {
    hide Follows, Send, SendMeets, Wire;
    var frame := o.codec.encodeCompletion(CompletedPayload(o.offer));
    var ok := Speak(peer, o, frame, data, whole, first, before, start);
    if !ok {
      return SendFailed;
    }
    ghost var s, sent := first.(phase := AwaitReceipt), before + [frame];
    ghost var input := peer.input.remaining;
    var heard := Listen(peer, o, data, whole, s, sent);
    if heard.Failure? {
      FailSend(peer, o, data, whole, s, sent, input, start, peer.output.healthy);
      return SendFailed;
    }
    s := Hear(o, s, heard.value);
    FollowHear(o, data, whole, s, sent, peer.input.remaining);
    var receipt := o.codec.decodeReceipt(heard.value);
    if receipt.None? || !ReceiptFor(receipt.value, o.offer) {
      FailSend(peer, o, data, whole, s, sent, peer.input.remaining, start, peer.output.healthy);
      return SendFailed;
    }
    result := Completed(receipt.value);
    EndMeets(o, data, whole, s, sent, peer.input.remaining, result, start, peer.output.written, peer.output.healthy);
  }

  /**
   Sends one manifested payload; no payload byte goes out before the offer was accepted.  Every
   read of the source goes in lockstep with the checks of its gate.  After a failed check nothing
   is read or sent any more and the call fails; without one the call runs the sender machine.
   */
  method SendTransferPayload(peer: PeerConn, hash: Hasher, codec: Codec, offer: PayloadOffer, source: GatedReader)
    returns (result: SendResult)
    requires source.stream != peer.input && source.gate.peer == peer && source.gate.Valid()
    modifies peer`closed, peer.input, peer.output, source.stream, source.gate.Footprint()
    ensures source.gate.Valid() && old(source.gate.seen) <= source.gate.seen
    ensures Lockstep(source.gate, old(source.gate.turn), source.gate.turn, old(source.stream.calls),
                     source.stream.calls)
    ensures !source.gate.Holds(old(source.gate.turn)) ==>
              result == SendFailed && peer.closed && Frozen(source.gate, source.Now())
    ensures result == SenderNotTrusted
       <==> !peer.connected || old(peer.closed) || peer.deviceID == "" || peer.fingerprint == ""
    ensures source.stream.calls != old(source.stream.calls) ==>
              AcceptedIn(Outgoing(hash, codec, offer, source.stream.end), old(peer.input.remaining))
    ensures !old(peer.Trusted()) ==>
              && result == SenderNotTrusted && peer.closed == (old(peer.closed) || peer.connected)
              && source.gate.turn == old(source.gate.turn)
              && peer.output.written == old(peer.output.written)
                 && source.stream.remaining == old(source.stream.remaining)
    ensures old(peer.Trusted()) && !ValidOffer(hash, offer) ==>
              && result == OfferInvalid && !peer.closed && source.gate.turn == old(source.gate.turn)
              && peer.output.written == old(peer.output.written)
                 && source.stream.remaining == old(source.stream.remaining)
    ensures old(peer.Trusted()) && ValidOffer(hash, offer) ==>
              && old(peer.output.written) <= peer.output.written
              && SendMeets(Outgoing(hash, codec, offer, source.stream.end), old(source.stream.remaining),
                           old(peer.input.remaining), result, peer.closed, peer.input.remaining,
                           Gained(peer.output.written, |old(peer.output.written)|),
                           peer.output.healthy && source.gate.Holds(old(source.gate.turn)))
  {
    hide Follows, Send, SendMeets, Wire, ValidOffer, Valid, ChunkVerifies, SecurePeers.PassesAs, Frozen;
    if !peer.Trusted() {
      peer.Close();
      return SenderNotTrusted;
    }
    if !ValidOffer(hash, offer) {
      return OfferInvalid;
    }
    var o := Outgoing(hash, codec, offer, source.stream.end);
    ghost var data, whole, start := source.stream.remaining, peer.input.remaining, peer.output.written;
    ghost var from, calls := source.gate.turn, source.stream.calls;
    var ended, ok, hashed;
    ghost var s, sent;
    ended, sent := SendOffer(peer, o, data, start);
    if ended.Some? {
      return ended.value;
    }
    ok, hashed, s, sent := SendChunks(peer, o, source, data, whole, sent, start, from, calls);
    if !ok {
      return SendFailed;
    }
    result := SendCompletion(peer, o, data, whole, s, sent, start);
  }
}
