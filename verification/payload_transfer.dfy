/**
 The two sides of one payload transfer.  Each side is a machine that reacts to whole frames;
 the methods run the machines over a byte stream and close the peer on every failure.
 */
module PayloadTransfer {
  import opened Outcomes
  import opened Streams
  import opened Frames
  import opened Manifests
  import opened Peers
  import opened Gates
  import opened PayloadProtocol

  /** JSON encoding and strict decoding of the control records. */
  datatype Codec = Codec(
    encodeOffer: PayloadOffer -> Bytes, decodeOffer: Bytes -> Option<PayloadOffer>,
    encodeDecision: PayloadDecision -> Bytes, decodeDecision: Bytes -> Option<PayloadDecision>,
    encodeCompletion: PayloadCompletion -> Bytes, decodeCompletion: Bytes -> Option<PayloadCompletion>,
    encodeReceipt: PayloadReceipt -> Bytes, decodeReceipt: Bytes -> Option<PayloadReceipt>)

  /** What the application answers to an offer; a trust-aware authorizer may close the peer. */
  datatype Authorization = Allow | Deny | DenyAndClose

  datatype Env = Env(hash: Hasher, codec: Codec, authorize: PayloadOffer -> Authorization)

  // ----- the receiving side

  datatype ReceiverPhase =
    | AwaitOffer
    | Receiving(offer: PayloadOffer, next: nat)
    | Received(offer: PayloadOffer, receipt: PayloadReceipt)
    | Denied(offer: PayloadOffer)
    | ReceiverAborted

  datatype Receiver = Receiver(phase: ReceiverPhase, staged: Bytes)

  const FreshReceiver := Receiver(AwaitOffer, [])

  predicate ReceiverDone(r: Receiver)
  {
    r.phase.Received? || r.phase.Denied? || r.phase.ReceiverAborted?
  }

  /** The bound the receiver reads its next frame with. */
  function Bound(r: Receiver): int
  {
    if r.phase.Receiving? && r.phase.next < |r.phase.offer.manifest.chunks| then
      r.phase.offer.manifest.chunks[r.phase.next].size
    else MaxFrameSize
  }

  /** Sends a control record, or gives up if it does not fit a frame. */
  function Answer(r: Receiver, record: Bytes): (Receiver, seq<Bytes>)
  {
    if Sendable(record) then (r, [record]) else (Receiver(ReceiverAborted, r.staged), [])
  }

  /** The reaction to a valid offer: what the application answers decides. */
  function Decided(env: Env, offer: PayloadOffer): (Receiver, seq<Bytes>)
  {
    var answer := env.authorize(offer);
    if answer == DenyAndClose then (Receiver(ReceiverAborted, []), [])
    else
      Answer(Receiver(if answer == Allow then Receiving(offer, 0) else Denied(offer), []),
             env.codec.encodeDecision(PayloadDecision(ProtocolVersion, offer.transferID, answer == Allow)))
  }

  function HearOffer(env: Env, frame: Bytes): (Receiver, seq<Bytes>)
  {
    var offer := env.codec.decodeOffer(frame);
    if offer.None? || !ValidOffer(env.hash, offer.value) then (Receiver(ReceiverAborted, []), [])
    else Decided(env, offer.value)
  }

  function HearChunk(env: Env, offer: PayloadOffer, next: nat, staged: Bytes, frame: Bytes): Receiver
    requires next < |offer.manifest.chunks|
  {
    if ChunkVerifies(env.hash, offer.manifest.chunks[next], frame) then
      Receiver(Receiving(offer, next + 1), staged + frame)
    else Receiver(ReceiverAborted, staged)
  }

  function HearCompletion(env: Env, offer: PayloadOffer, staged: Bytes, frame: Bytes): (Receiver, seq<Bytes>)
  {
    var aborted := (Receiver(ReceiverAborted, staged), []);
    match env.codec.decodeCompletion(frame)
    case None => aborted
    case Some(completion) =>
      if !CompletionFor(completion, offer) || env.hash(staged) != offer.manifest.hash then aborted
      else
        var receipt := VerifiedPayloadReceipt(offer);
        Answer(Receiver(Received(offer, receipt), staged), env.codec.encodeReceipt(receipt))
  }

  /** The receiver's reaction to one frame, and the frames it sends back. */
  function React(env: Env, r: Receiver, frame: Bytes): (Receiver, seq<Bytes>)
    requires !ReceiverDone(r)
  {
    match r.phase
    case AwaitOffer => HearOffer(env, frame)
    case Receiving(offer, next) =>
      if next < |offer.manifest.chunks| then (HearChunk(env, offer, next, r.staged, frame), [])
      else HearCompletion(env, offer, r.staged, frame)
  }

  /** Where the receiver ends up on a whole input, the input it leaves unread, and all it sends. */
  function Receive(env: Env, r: Receiver, input: Bytes): (Receiver, Bytes, seq<Bytes>)
    decreases |input|
  {
    if ReceiverDone(r) then (r, input, [])
    else
      match ParseFrame(input, Bound(r))
      case Refused(_, rest) => (Receiver(ReceiverAborted, r.staged), rest, [])
      case Payload(frame, rest) =>
        var (r1, sent) := React(env, r, frame);
        var (r2, left, more) := Receive(env, r1, rest);
        (r2, left, sent + more)
  }

  /** Prepends frames already sent to the outcome of the rest of a run. */
  function After(sent: seq<Bytes>, run: (Receiver, Bytes, seq<Bytes>)): (Receiver, Bytes, seq<Bytes>)
  {
    (run.0, run.1, sent + run.2)
  }

  predicate AllSendable(frames: seq<Bytes>)
  {
    forall f | f in frames :: Sendable(f)
  }

  /** All frames of a list one after the other. */
  ghost function Wire(frames: seq<Bytes>): Bytes
    requires AllSendable(frames)
  {
    EncodeFrames(frames)
  }

  /** The first of a list of frames on the wire. */
  ghost function Opening(frames: seq<Bytes>): Bytes
    requires AllSendable(frames)
  {
    if frames == [] then [] else Frame(frames[0])
  }

  lemma {:induction false} EncodeJoin(a: seq<Bytes>, b: seq<Bytes>)
    requires AllSendable(a) && AllSendable(b)
    ensures AllSendable(a + b) && Wire(a + b) == Wire(a) + Wire(b)
  {
    hide Sendable, Frame;
    var all := a + b;
    if a == [] {
      assert all == b && Wire(a) == [];
      assert [] + Wire(b) == Wire(b);
    } else {
      EncodeJoin(a[1..], b);
      assert all[0] == a[0] && all[1..] == a[1..] + b;
      assert Wire(all) == Frame(all[0]) + Wire(all[1..]);
      assert Frame(a[0]) + (Wire(a[1..]) + Wire(b)) == (Frame(a[0]) + Wire(a[1..])) + Wire(b);
    }
  }

  lemma {:induction false} WireOne(frame: Bytes)
    requires Sendable(frame)
    ensures AllSendable([frame]) && Wire([frame]) == Frame(frame) == Opening([frame])
  {
    hide Frame;
    assert [frame][1..] == [];
    assert Wire([frame]) == Frame(frame) + EncodeFrames([]);
    assert Frame(frame) + [] == Frame(frame);
  }

  /** A run only adds to what was staged and sends only whole frames. */
  lemma {:induction false} ReceiveGrows(env: Env, r: Receiver, input: Bytes)
    requires r.phase.AwaitOffer? ==> r.staged == []
    ensures r.staged <= Receive(env, r, input).0.staged && AllSendable(Receive(env, r, input).2)
    decreases |input|
  {
    hide ParseFrame, ValidOffer, ChunkVerifies, CompletionFor, Sendable;
    if !ReceiverDone(r) {
      match ParseFrame(input, Bound(r)) {
        case Refused(_, _) =>
        case Payload(frame, rest) =>
          ParseShrinks(input, Bound(r));
          var (r1, sent) := React(env, r, frame);
          ReactGrows(env, r, frame);
          ReceiveGrows(env, r1, rest);
      }
    }
  }

  lemma {:induction false} ReactGrows(env: Env, r: Receiver, frame: Bytes)
    requires !ReceiverDone(r)
    ensures var (r1, sent) := React(env, r, frame);
            && (r.phase.Receiving? || r.staged == [] ==> r.staged <= r1.staged)
            && AllSendable(sent) && |sent| <= 1 && !r1.phase.AwaitOffer?
  {
    hide ValidOffer, ChunkVerifies, CompletionFor;
  }

  lemma {:induction false} ParseShrinks(input: Bytes, bound: int)
    ensures var p := ParseFrame(input, bound); p.Payload? ==> |p.rest| < |input|
  {
  }

  /** The whole run on `whole` equals what was sent so far plus the run of `r` on `input`. */
  ghost predicate Tracks(env: Env, whole: Bytes, r: Receiver, sent: seq<Bytes>, input: Bytes)
  {
    && Receive(env, FreshReceiver, whole) == After(sent, Receive(env, r, input))
    && AllSendable(sent)
    && (r.phase.AwaitOffer? ==> r.staged == [])
  }

  lemma {:induction false} TrackStart(env: Env, whole: Bytes)
    ensures Tracks(env, whole, FreshReceiver, [], whole)
  {
    assert [] + Receive(env, FreshReceiver, whole).2 == Receive(env, FreshReceiver, whole).2;
  }

  lemma {:induction false} TrackStep(env: Env, whole: Bytes, r: Receiver, sent: seq<Bytes>, input: Bytes)
    requires Tracks(env, whole, r, sent, input) && !ReceiverDone(r) && ParseFrame(input, Bound(r)).Payload?
    ensures var p := ParseFrame(input, Bound(r));
            var (r1, more) := React(env, r, p.payload);
            Tracks(env, whole, r1, sent + more, p.rest)
  {
    hide ParseFrame, React, Bound, Sendable;
    var p := ParseFrame(input, Bound(r));
    var (r1, more) := React(env, r, p.payload);
    ReactGrows(env, r, p.payload);
    var run := Receive(env, r1, p.rest);
    assert sent + (more + run.2) == (sent + more) + run.2;
  }

  /** A run that stops here: refused input or a final state. */
  lemma {:induction false} TrackEnd(env: Env, whole: Bytes, r: Receiver, sent: seq<Bytes>, input: Bytes)
    requires Tracks(env, whole, r, sent, input)
    ensures ReceiverDone(r) ==> Receive(env, FreshReceiver, whole) == (r, input, sent)
    ensures !ReceiverDone(r) && ParseFrame(input, Bound(r)).Refused? ==>
              Receive(env, FreshReceiver, whole)
              == (Receiver(ReceiverAborted, r.staged), ParseFrame(input, Bound(r)).rest, sent)
  {
    hide ParseFrame, React, Bound, Sendable;
    assert sent + [] == sent;
  }

  /** What was staged and sent so far is a prefix of all that will be. */
  lemma {:induction false} TrackBounds(env: Env, whole: Bytes, r: Receiver, sent: seq<Bytes>, input: Bytes)
    requires Tracks(env, whole, r, sent, input)
    ensures var (r1, left, all) := Receive(env, FreshReceiver, whole);
            && r.staged <= r1.staged && AllSendable(all) && Wire(sent) <= Wire(all)
            && Opening(sent) <= Opening(all) && (sent != [] ==> all != [] && Opening(sent) == Opening(all))
  {
    ReceiveGrows(env, r, input);
    ReceiveGrows(env, FreshReceiver, whole);
    EncodeJoin(sent, Receive(env, r, input).2);
  }

  datatype ReceiveResult =
    | ReceiverNotTrusted
    | Delivered(offer: PayloadOffer, receipt: PayloadReceipt)
    | AuthorizationDenied(offer: PayloadOffer)
    | ReceiveFailed

  /**
   How a receive call that was let in relates to the run of the receiver machine.  A failed call
   has sent a prefix of the run: the whole decision before anything was staged, and nothing
   behind it before everything was.
   */
  ghost predicate ReceiveMeets(env: Env, whole: Bytes, result: ReceiveResult, closed: bool, input: Bytes,
                               staged: Bytes, sent: Bytes, healthy: bool)
  {
    var (r, left, frames) := Receive(env, FreshReceiver, whole);
    && AllSendable(frames)
    && (match result
        case ReceiverNotTrusted => false
        case Delivered(offer, receipt) => r.phase == Received(offer, receipt)
        case AuthorizationDenied(offer) => r.phase == Denied(offer)
        case ReceiveFailed =>
          && closed && staged <= r.staged && sent <= Wire(frames)
          && (staged != [] ==> frames != [] && Opening(frames) <= sent)
          && (staged == r.staged || sent <= Opening(frames)))
    && (!result.ReceiveFailed? ==> !closed && input == left && staged == r.staged && sent == Wire(frames))
    && (healthy ==> (result.ReceiveFailed? <==> r.phase.ReceiverAborted?))
  }

  /** One frame's worth of input for the receiver `r`; an unreadable frame ends the run. */
  method NextFrame(peer: PeerConn, bound: int, env: Env, ghost whole: Bytes, ghost r: Receiver, ghost sent: seq<Bytes>)
    returns (frame: Result<Bytes, FrameError>)
    requires Tracks(env, whole, r, sent, peer.input.remaining) && !ReceiverDone(r) && bound == Bound(r)
    modifies peer.input
    ensures frame.Failure? ==> Receive(env, FreshReceiver, whole).0 == Receiver(ReceiverAborted, r.staged)
    ensures frame.Success? ==>
              var (r1, more) := React(env, r, frame.value);
              Tracks(env, whole, r1, sent + more, peer.input.remaining)
  {
    hide React, Tracks, ParseFrame, Bound;
    ghost var input := peer.input.remaining;
    frame := ReadFrame(peer.input, bound);
    if frame.Success? {
      TrackStep(env, whole, r, sent, input);
    } else {
      TrackEnd(env, whole, r, sent, input);
    }
  }

  /** Sends one control record of the receiver and keeps the wire in step with `sent`. */
  method SendRecord(peer: PeerConn, record: Bytes, ghost start: Bytes, ghost sent: seq<Bytes>) returns (ok: bool)
    requires AllSendable(sent) && peer.output.written == start + Wire(sent)
    modifies peer.output
    ensures ok ==>
              && Sendable(record) && AllSendable(sent + [record])
              && peer.output.written == start + Wire(sent + [record])
    ensures !Sendable(record) ==> !ok && peer.output.written == start + Wire(sent)
    ensures Sendable(record) ==>
              && AllSendable(sent + [record])
              && start + Wire(sent) <= peer.output.written <= start + Wire(sent + [record])
    ensures peer.output.healthy ==> (ok <==> Sendable(record))
  {
    hide Wire, Frame;
    if Sendable(record) {
      WireOne(record);
      EncodeJoin(sent, [record]);
      assert start + Wire(sent) + Frame(record) == start + Wire(sent + [record]);
    }
    ok := WriteFrame(peer.output, record);
  }

  /** What a stream gained behind its first `from` bytes. */
  function Gained(now: Bytes, from: nat): Bytes
  {
    if from <= |now| then now[from..] else []
  }

  lemma {:induction false} GainedOf(before: Bytes, now: Bytes, upTo: Bytes)
    ensures now == before + upTo ==> Gained(now, |before|) == upTo
    ensures before <= now <= before + upTo ==> Gained(now, |before|) <= upTo
  {
  }

  lemma {:induction false} GainedAtLeast(before: Bytes, now: Bytes, atLeast: Bytes)
    requires before + atLeast <= now
    ensures before <= now && atLeast <= Gained(now, |before|)
  {
  }

  /** `failPayloadTransfer`: closes the peer; whatever went out or was staged is a prefix of the run. */
  method FailReceive(peer: PeerConn, env: Env, ghost whole: Bytes, ghost r: Receiver, ghost sent: seq<Bytes>,
                     ghost input: Bytes, ghost start: Bytes, ghost staged: Bytes, ghost healthy: bool)
    requires peer.connected && Tracks(env, whole, r, sent, input)
    requires staged <= r.staged && start <= peer.output.written && Gained(peer.output.written, |start|) <= Wire(sent)
    requires Gained(peer.output.written, |start|) <= Opening(sent)
              || staged == Receive(env, FreshReceiver, whole).0.staged
    requires staged != [] ==> sent != [] && Opening(sent) <= Gained(peer.output.written, |start|)
    requires healthy ==> Receive(env, FreshReceiver, whole).0.phase.ReceiverAborted?
    modifies peer`closed
    ensures peer.closed
    ensures ReceiveMeets(env, whole, ReceiveFailed, peer.closed, peer.input.remaining, staged,
                         Gained(peer.output.written, |start|), healthy)
  {
    peer.Close();
    TrackBounds(env, whole, r, sent, input);
  }

  /**
   The checks `from`, ..., `to - 1` of one receive: none at all, or one before the approval,
   made before any write, and then, if it passed, one directly before each write.
   */
  ghost predicate ChecksAndWrites(gate: Gate, from: nat, to: nat, first: nat, calls: nat)
    reads gate, gate.peer`fingerprint
  {
    && from <= to <= |gate.seen|
    && (to == from || (to == from + 1 && !gate.Passes(from)) ==> calls == first)
    && (to > from ==> gate.seen[from].calls == first)
    && (to > from && gate.Passes(from) ==> Lockstep(gate, from + 1, to, first, calls))
    && (to > from + 1 ==> gate.Passes(from))
  }

  /** `guardedAuthorize`: the check comes first, and a failed one closes the peer instead of answering. */
  method Approve(env: Env, destination: GatedWriter, offer: PayloadOffer) returns (answer: Authorization)
    requires destination.gate.Valid()
    modifies destination.gate.Footprint(), destination.gate.peer`closed
    ensures destination.gate.Valid() && destination.gate.turn == old(destination.gate.turn) + 1
    ensures destination.gate.seen == old(destination.gate.seen) + [old(destination.Now())]
    ensures destination.gate.Passes(old(destination.gate.turn)) ==>
              answer == env.authorize(offer) && destination.gate.peer.closed == old(destination.gate.peer.closed)
    ensures !destination.gate.Passes(old(destination.gate.turn)) ==> answer == DenyAndClose
  {
    var ok := destination.gate.Check(destination.Now());
    answer := if ok then env.authorize(offer) else DenyAndClose;
  }

  lemma {:induction false} DoneMeets(env: Env, whole: Bytes, r: Receiver, sent: seq<Bytes>, input: Bytes,
                                     result: ReceiveResult, staged: Bytes, out: Bytes, healthy: bool)
    requires Tracks(env, whole, r, sent, input) && staged == r.staged && out == Wire(sent)
    requires match result
             case Delivered(offer, receipt) => r.phase == Received(offer, receipt)
             case AuthorizationDenied(offer) => r.phase == Denied(offer)
             case _ => false
    ensures ReceiveMeets(env, whole, result, false, input, staged, out, healthy)
  {
    hide Receive;
    TrackEnd(env, whole, r, sent, input);
  }

  lemma {:induction false} TracksAllSent(env: Env, whole: Bytes, r: Receiver, sent: seq<Bytes>, input: Bytes)
    requires Tracks(env, whole, r, sent, input)
    ensures AllSendable(sent)
  {
  }

  /** A refusal stands whatever else may go wrong. */
  lemma {:induction false} MeetsForLess(env: Env, whole: Bytes, result: ReceiveResult, closed: bool, input: Bytes,
                                        staged: Bytes, out: Bytes, healthy: bool, less: bool)
    requires ReceiveMeets(env, whole, result, closed, input, staged, out, healthy) && (less ==> healthy)
    ensures ReceiveMeets(env, whole, result, closed, input, staged, out, less)
  {
  }

  /** Reads and validates the offer. */
  method ReadOffer(peer: PeerConn, env: Env, ghost start: Bytes)
    returns (offer: Option<PayloadOffer>, ghost r: Receiver, ghost more: seq<Bytes>)
    requires peer.Trusted() && peer.output.written == start
    modifies peer`closed, peer.input
    ensures offer.None? ==>
              && peer.closed
              && ReceiveMeets(env, old(peer.input.remaining), ReceiveFailed, peer.closed, peer.input.remaining, [],
                              Gained(peer.output.written, |start|), peer.output.healthy)
    ensures offer.Some? ==>
              && !peer.closed && ValidOffer(env.hash, offer.value) && (r, more) == Decided(env, offer.value)
              && Tracks(env, old(peer.input.remaining), r, more, peer.input.remaining)
  {
    hide Tracks, ReceiveMeets, ValidOffer, Receive, Decided;
    ghost var whole := peer.input.remaining;
    r, more := FreshReceiver, [];
    TrackStart(env, whole);
    GainedOf(start, start, []);
    var frame := NextFrame(peer, MaxFrameSize, env, whole, r, []);
    if frame.Failure? {
      FailReceive(peer, env, whole, FreshReceiver, [], whole, start, [], peer.output.healthy);
      return None, r, more;
    }
    r, more := React(env, FreshReceiver, frame.value).0, React(env, FreshReceiver, frame.value).1;
    assert [] + more == more;
    TrackEnd(env, whole, r, more, peer.input.remaining);
    offer := env.codec.decodeOffer(frame.value);
    if offer.None? || !ValidOffer(env.hash, offer.value) {
      FailReceive(peer, env, whole, r, more, peer.input.remaining, start, [], peer.output.healthy);
      offer := None;
    }
  }

  /** Sends the decision on an approved or denied offer. */
  method Decide(peer: PeerConn, env: Env, offer: PayloadOffer, answer: Authorization, ghost whole: Bytes,
                ghost r: Receiver, ghost more: seq<Bytes>, ghost start: Bytes)
    returns (ended: Option<ReceiveResult>, record: Bytes)
    requires peer.connected && !peer.closed && peer.output.written == start && answer != DenyAndClose
    requires Tracks(env, whole, r, more, peer.input.remaining)
    requires (r, more) == Answer(Receiver(if answer == Allow then Receiving(offer, 0) else Denied(offer), []),
                                 env.codec.encodeDecision(
                                   PayloadDecision(ProtocolVersion, offer.transferID, answer == Allow)))
    modifies peer`closed, peer.output
    ensures ended.Some? ==>
              && start <= peer.output.written && (ended.value.ReceiveFailed? ==> peer.closed)
              && (ended.value.ReceiveFailed? || ended.value.AuthorizationDenied?)
              && ReceiveMeets(env, whole, ended.value, peer.closed, peer.input.remaining, [],
                              Gained(peer.output.written, |start|), peer.output.healthy)
    ensures ended.None? ==>
              && !peer.closed && r == Receiver(Receiving(offer, 0), []) && more == [record]
              && Sendable(record) && AllSendable([record]) && peer.output.written == start + Wire([record])
  {
    hide Tracks, ReceiveMeets, Receive;
    assert start + Wire([]) == start;
    TrackEnd(env, whole, r, more, peer.input.remaining);
    record := env.codec.encodeDecision(PayloadDecision(ProtocolVersion, offer.transferID, answer == Allow));
    var ok := SendRecord(peer, record, start, []);
    assert [] + [record] == [record];
    if Sendable(record) {
      WireOne(record);
    }
    GainedOf(start, peer.output.written, if Sendable(record) then Wire([record]) else []);
    if !ok {
      FailReceive(peer, env, whole, r, more, peer.input.remaining, start, [], peer.output.healthy);
      return Some(ReceiveFailed), record;
    }
    if answer == Deny {
      DoneMeets(env, whole, r, more, peer.input.remaining, AuthorizationDenied(offer), [],
                Gained(peer.output.written, |start|), peer.output.healthy);
      return Some(AuthorizationDenied(offer)), record;
    }
    ended := None;
  }

  /**
   The opening of a receive: offer, validation, authorization, decision.  One check is made, and
   that before the authorization; if it fails nothing is answered.
   */
  method ReceiveOffer(peer: PeerConn, env: Env, destination: GatedWriter, ghost start: Bytes)
    returns (opening: Result<PayloadOffer, ReceiveResult>, ghost decision: Bytes)
    requires peer.Trusted() && peer.output.written == start
    requires destination.stream != peer.output && destination.gate.peer == peer && destination.gate.Valid()
    modifies peer`closed, peer.input, peer.output, destination.gate.Footprint()
    ensures destination.gate.Valid() && old(destination.gate.seen) <= destination.gate.seen
    ensures old(destination.gate.turn) <= destination.gate.turn <= old(destination.gate.turn) + 1
    ensures destination.gate.turn > old(destination.gate.turn) ==>
              destination.gate.seen[old(destination.gate.turn)] == old(destination.Now())
    ensures !destination.gate.Holds(old(destination.gate.turn)) ==>
              opening == Failure(ReceiveFailed) && peer.output.written == start
    ensures opening == Failure(ReceiveFailed) ==> peer.closed
    ensures opening.Failure? ==>
              && (opening.error.ReceiveFailed? || opening.error.AuthorizationDenied?) && start <= peer.output.written
              && ReceiveMeets(env, old(peer.input.remaining), opening.error, peer.closed, peer.input.remaining, [],
                              Gained(peer.output.written, |start|),
                              peer.output.healthy && destination.gate.Holds(old(destination.gate.turn)))
    ensures opening.Success? ==>
              && !peer.closed && Sendable(decision) && AllSendable([decision])
              && destination.gate.turn == old(destination.gate.turn) + 1
              && peer.output.written == start + Wire([decision])
              && Tracks(env, old(peer.input.remaining), Receiver(Receiving(opening.value, 0), []), [decision],
                        peer.input.remaining)
  {
    hide Tracks, ReceiveMeets, ValidOffer, Receive, SecurePeers.PassesAs, Gate.Passes, Sendable;
    ghost var whole, from := peer.input.remaining, destination.gate.turn;
    var offer;
    ghost var r, more;
    offer, r, more := ReadOffer(peer, env, start);
    if offer.None? {
      return Failure(ReceiveFailed), [];
    }
    GainedOf(start, start, []);
    TrackEnd(env, whole, r, more, peer.input.remaining);
    var answer := Approve(env, destination, offer.value);
    if answer == DenyAndClose {
      FailReceive(peer, env, whole, r, more, peer.input.remaining, start, [],
                  peer.output.healthy && destination.gate.Holds(from));
      return Failure(ReceiveFailed), [];
    }
    var ended;
    ended, decision := Decide(peer, env, offer.value, answer, whole, r, more, start);
    opening := if ended.Some? then Failure(ended.value) else Success(offer.value);
  }

  /** Stages one verified chunk. */
  method StageChunk(peer: PeerConn, env: Env, destination: GatedWriter, data: Bytes, ghost hashed: Bytes,
                    ghost decision: Bytes, ghost whole: Bytes, ghost r: Receiver, ghost start: Bytes,
                    ghost base: Bytes, ghost from: nat, ghost calls: nat)
    returns (ok: bool)
    requires destination.stream != peer.output && destination.gate.peer == peer && destination.gate.Valid()
    requires destination.gate.Holds(from)
    requires Lockstep(destination.gate, from, destination.gate.turn, calls, destination.stream.calls)
    requires peer.connected && !peer.closed && AllSendable([decision])
    requires peer.output.written == start + Wire([decision]) && destination.stream.written == base + hashed
    requires r.staged == hashed + data && Tracks(env, whole, r, [decision], peer.input.remaining)
    modifies peer`closed, destination.stream, destination.gate.Footprint()
    ensures destination.gate.Valid() && old(destination.gate.seen) <= destination.gate.seen
    ensures Lockstep(destination.gate, from, destination.gate.turn, calls, destination.stream.calls)
    ensures !destination.gate.Holds(from) ==> !ok && Frozen(destination.gate, destination.Now())
    ensures !ok ==>
              && peer.closed && base <= destination.stream.written
              && ReceiveMeets(env, whole, ReceiveFailed, peer.closed, peer.input.remaining,
                              Gained(destination.stream.written, |base|), Gained(peer.output.written, |start|),
                              destination.stream.healthy && peer.output.healthy && destination.gate.Holds(from))
    ensures ok ==> !peer.closed && destination.stream.written == base + (hashed + data)
  {
    hide Tracks, Receive, ReceiveMeets, Wire, Opening, Frame, Lockstep, Frozen, Gate.Passes, SecurePeers.PassesAs;
    WireOne(decision);
    GainedOf(start, peer.output.written, Wire([decision]));
    ok := destination.WriteAll(data, from, calls);
    assert base + hashed + data == base + (hashed + data);
    GainedOf(base, destination.stream.written, hashed + data);
    if !ok {
      FailReceive(peer, env, whole, r, [decision], peer.input.remaining, start,
                  Gained(destination.stream.written, |base|),
                  destination.stream.healthy && peer.output.healthy && destination.gate.Holds(from));
    }
  }

  /** One chunk: a bounded frame, verified, staged. */
  method ReceiveChunk(peer: PeerConn, env: Env, destination: GatedWriter, offer: PayloadOffer, k: nat, hashed: Bytes,
                      ghost decision: Bytes, ghost whole: Bytes, ghost start: Bytes, ghost base: Bytes,
                      ghost from: nat, ghost calls: nat)
    returns (ok: bool, data: Bytes)
    requires destination.stream != peer.output && destination.gate.peer == peer && destination.gate.Valid()
    requires destination.gate.Holds(from)
    requires Lockstep(destination.gate, from, destination.gate.turn, calls, destination.stream.calls)
    requires peer.connected && !peer.closed && AllSendable([decision])
              && peer.output.written == start + Wire([decision])
    requires k < |offer.manifest.chunks| && destination.stream.written == base + hashed
    requires Tracks(env, whole, Receiver(Receiving(offer, k), hashed), [decision], peer.input.remaining)
    modifies peer`closed, peer.input, destination.stream, destination.gate.Footprint()
    ensures destination.gate.Valid() && old(destination.gate.seen) <= destination.gate.seen
    ensures Lockstep(destination.gate, from, destination.gate.turn, calls, destination.stream.calls)
    ensures !destination.gate.Holds(from) ==> !ok && Frozen(destination.gate, destination.Now())
    ensures !ok ==>
              && peer.closed && base <= destination.stream.written
              && ReceiveMeets(env, whole, ReceiveFailed, peer.closed, peer.input.remaining,
                              Gained(destination.stream.written, |base|), Gained(peer.output.written, |start|),
                              destination.stream.healthy && peer.output.healthy && destination.gate.Holds(from))
    ensures ok ==>
              && !peer.closed && destination.stream.written == base + (hashed + data)
              && Tracks(env, whole, Receiver(Receiving(offer, k + 1), hashed + data), [decision], peer.input.remaining)
  {
    hide Tracks, Receive, ChunkVerifies, ReceiveMeets, Wire, Opening, Frame, Lockstep, Frozen, Gate.Passes,
         SecurePeers.PassesAs;
    var expected := offer.manifest.chunks[k];
    ghost var r, input := Receiver(Receiving(offer, k), hashed), peer.input.remaining;
    ghost var healthy := destination.stream.healthy && peer.output.healthy;
    WireOne(decision);
    GainedOf(start, peer.output.written, Wire([decision]));
    GainedOf(base, destination.stream.written, hashed);
    data := [];
    var frame := NextFrame(peer, expected.size, env, whole, r, [decision]);
    if frame.Failure? {
      FailReceive(peer, env, whole, r, [decision], input, start, hashed, healthy);
      ok := false;
      return;
    }
    data := frame.value;
    r := HearChunk(env, offer, k, hashed, data);
    assert [decision] + [] == [decision];
    TrackEnd(env, whole, r, [decision], peer.input.remaining);
    if !ChunkVerifies(env.hash, expected, data) {
      FailReceive(peer, env, whole, r, [decision], peer.input.remaining, start, hashed, healthy);
      ok := false;
      return;
    }
    ok := StageChunk(peer, env, destination, data, hashed, decision, whole, r, start, base, from, calls);
  }

  /** The chunk loop: each chunk is read, verified and then staged behind its checks. */
  method ReceiveChunks(peer: PeerConn, env: Env, destination: GatedWriter, offer: PayloadOffer, ghost decision: Bytes,
                       ghost whole: Bytes, ghost start: Bytes, ghost from: nat, ghost calls: nat)
    returns (ok: bool, hashed: Bytes)
    requires destination.stream != peer.output && destination.gate.peer == peer && destination.gate.Valid()
    requires destination.gate.Holds(from)
    requires Lockstep(destination.gate, from, destination.gate.turn, calls, destination.stream.calls)
    requires peer.connected && !peer.closed && AllSendable([decision])
              && peer.output.written == start + Wire([decision])
    requires Tracks(env, whole, Receiver(Receiving(offer, 0), []), [decision], peer.input.remaining)
    modifies peer`closed, peer.input, destination.stream, destination.gate.Footprint()
    ensures destination.gate.Valid() && old(destination.gate.seen) <= destination.gate.seen
    ensures Lockstep(destination.gate, from, destination.gate.turn, calls, destination.stream.calls)
    ensures !destination.gate.Holds(from) ==> !ok && Frozen(destination.gate, destination.Now())
    ensures !ok ==>
              && peer.closed && old(destination.stream.written) <= destination.stream.written
              && ReceiveMeets(env, whole, ReceiveFailed, peer.closed, peer.input.remaining,
                              Gained(destination.stream.written, |old(destination.stream.written)|),
                              Gained(peer.output.written, |start|),
                              destination.stream.healthy && peer.output.healthy && destination.gate.Holds(from))
    ensures ok ==>
              && !peer.closed && destination.stream.written == old(destination.stream.written) + hashed
              && Tracks(env, whole, Receiver(Receiving(offer, |offer.manifest.chunks|), hashed), [decision],
                        peer.input.remaining)
  {
    hide Tracks, Receive, ReceiveMeets, Wire, Lockstep, Frozen, SecurePeers.PassesAs;
    ghost var base := destination.stream.written;
    ghost var r := Receiver(Receiving(offer, 0), []);
    hashed := [];
    assert base + [] == base;
    for k := 0 to |offer.manifest.chunks|
      invariant peer.connected && !peer.closed
      invariant destination.gate.Valid() && destination.gate.Holds(from)
                && old(destination.gate.seen) <= destination.gate.seen
      invariant Lockstep(destination.gate, from, destination.gate.turn, calls, destination.stream.calls)
      invariant r == Receiver(Receiving(offer, k), hashed) && Tracks(env, whole, r, [decision], peer.input.remaining)
      invariant destination.stream.written == base + hashed
    {
      var data;
      ok, data := ReceiveChunk(peer, env, destination, offer, k, hashed, decision, whole, start, base, from, calls);
      if !ok {
        return;
      }
      hashed := hashed + data;
      r := Receiver(Receiving(offer, k + 1), hashed);
      assert base + hashed[..|hashed| - |data|] + data == base + hashed;
    }
    ok := true;
  }

  /** The closing of a receive: completion, whole-payload digest, receipt. */
  method ReceiveCompletion(peer: PeerConn, env: Env, offer: PayloadOffer, hashed: Bytes, ghost decision: Bytes,
                           ghost whole: Bytes, ghost start: Bytes, ghost healthy: bool) returns (result: ReceiveResult)
    requires peer.connected && !peer.closed && (healthy ==> peer.output.healthy)
    requires Tracks(env, whole, Receiver(Receiving(offer, |offer.manifest.chunks|), hashed), [decision],
                    peer.input.remaining)
    requires AllSendable([decision]) && peer.output.written == start + Wire([decision])
    modifies peer`closed, peer.input, peer.output
    ensures start <= peer.output.written && (result.Delivered? || result.ReceiveFailed?)
    ensures ReceiveMeets(env, whole, result, peer.closed, peer.input.remaining, hashed,
                         Gained(peer.output.written, |start|), healthy)
  {
    hide Tracks, Receive, Valid, ReceiveMeets, Wire;
    ghost var r, sent := Receiver(Receiving(offer, |offer.manifest.chunks|), hashed), [decision];
    ghost var input := peer.input.remaining;
    WireOne(decision);
    GainedAtLeast(start, peer.output.written, Wire(sent));
    GainedOf(start, peer.output.written, Wire(sent));
    var frame := NextFrame(peer, MaxFrameSize, env, whole, r, sent);
    if frame.Failure? {
      FailReceive(peer, env, whole, r, sent, input, start, hashed, healthy);
      return ReceiveFailed;
    }
    ghost var (r1, more) := HearCompletion(env, offer, hashed, frame.value);
    TracksAllSent(env, whole, r1, sent + more, peer.input.remaining);
    TrackEnd(env, whole, r1, sent + more, peer.input.remaining);
    assert more == [] ==> sent + more == sent;
    var completion := env.codec.decodeCompletion(frame.value);
    if completion.None? || !CompletionFor(completion.value, offer) {
      FailReceive(peer, env, whole, r1, sent + more, peer.input.remaining, start, hashed, healthy);
      return ReceiveFailed;
    }
    if env.hash(hashed) != offer.manifest.hash {
      FailReceive(peer, env, whole, r1, sent + more, peer.input.remaining, start, hashed, healthy);
      return ReceiveFailed;
    }
    var receipt := VerifiedPayloadReceipt(offer);
    var record := env.codec.encodeReceipt(receipt);
    var ok := SendRecord(peer, record, start, sent);
    GainedAtLeast(start, peer.output.written, Wire(sent));
    GainedOf(start, peer.output.written, if Sendable(record) then Wire(sent + [record]) else Wire(sent));
    if !ok {
      FailReceive(peer, env, whole, r1, sent + more, peer.input.remaining, start, hashed, healthy);
      return ReceiveFailed;
    }
    result := Delivered(offer, receipt);
    DoneMeets(env, whole, r1, sent + more, peer.input.remaining, result, hashed, Gained(peer.output.written, |start|),
              healthy);
  }

  /**
   Receives one payload into staging, after explicit approval of its offer.  The first check of
   the gate is made before the approval, and from then on every write goes in lockstep with the
   checks.  After a failed check nothing is staged or sent any more and the call fails; without
   one the call runs the receiver machine.
   */
  method ReceiveTransferPayload(peer: PeerConn, env: Env, destination: GatedWriter) returns (result: ReceiveResult)
    requires destination.stream != peer.output && destination.gate.peer == peer && destination.gate.Valid()
    modifies peer`closed, peer.input, peer.output, destination.stream, destination.gate.Footprint()
    ensures destination.gate.Valid() && old(destination.gate.seen) <= destination.gate.seen
    ensures ChecksAndWrites(destination.gate, old(destination.gate.turn), destination.gate.turn,
                            old(destination.stream.calls), destination.stream.calls)
    ensures destination.stream.written != old(destination.stream.written) ==>
              destination.gate.turn > old(destination.gate.turn) && destination.gate.Passes(old(destination.gate.turn))
    ensures !destination.gate.Holds(old(destination.gate.turn)) ==>
              result == ReceiveFailed && peer.closed && Frozen(destination.gate, destination.Now())
    ensures result == ReceiverNotTrusted
       <==> !peer.connected || old(peer.closed) || peer.deviceID == "" || peer.fingerprint == ""
    ensures !old(peer.Trusted()) ==>
              && result == ReceiverNotTrusted && peer.closed == (old(peer.closed) || peer.connected)
              && destination.gate.turn == old(destination.gate.turn)
              && peer.input.remaining == old(peer.input.remaining) && peer.output.written == old(peer.output.written)
              && destination.stream.written == old(destination.stream.written)
    ensures old(peer.Trusted()) ==>
              && old(destination.stream.written) <= destination.stream.written
              && old(peer.output.written) <= peer.output.written
              && ReceiveMeets(env, old(peer.input.remaining), result, peer.closed, peer.input.remaining,
                              Gained(destination.stream.written, |old(destination.stream.written)|),
                              Gained(peer.output.written, |old(peer.output.written)|),
                              destination.stream.healthy && peer.output.healthy
                              && destination.gate.Holds(old(destination.gate.turn)))
  {
    hide Tracks, Receive, Valid, ChunkVerifies, ReceiveMeets, Wire, Gate.Passes, SecurePeers.PassesAs;
    if !peer.Trusted() {
      peer.Close();
      return ReceiverNotTrusted;
    }
    ghost var whole, start, base := peer.input.remaining, peer.output.written, destination.stream.written;
    ghost var from, calls := destination.gate.turn, destination.stream.calls;
    GainedOf(base, base, []);
    var opening, ok, hashed;
    ghost var decision;
    opening, decision := ReceiveOffer(peer, env, destination, start);
    if opening.Failure? {
      MeetsForLess(env, whole, opening.error, peer.closed, peer.input.remaining, [],
                   Gained(peer.output.written, |start|),
                   peer.output.healthy && destination.gate.Holds(from),
                   destination.stream.healthy && peer.output.healthy && destination.gate.Holds(from));
      return opening.error;
    }
    var offer := opening.value;
    ok, hashed := ReceiveChunks(peer, env, destination, offer, decision, whole, start, from + 1, calls);
    if !ok {
      return ReceiveFailed;
    }
    result := ReceiveCompletion(peer, env, offer, hashed, decision, whole, start,
                                destination.stream.healthy && peer.output.healthy);
    GainedOf(base, destination.stream.written, hashed);
  }
}
