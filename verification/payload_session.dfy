/**
 Both sides of one transfer at once: an honest sender and receiver joined by two bounded FIFO
 channels of frames, scheduled in any order, each allowed to fail at any moment.
 */
module PayloadSession {
  import opened Outcomes
  import opened Streams
  import opened Frames
  import opened Manifests
  import opened PayloadProtocol
  import opened PayloadTransfer
  import opened PayloadSending

  datatype Link = Link(o: Outgoing, authorize: PayloadOffer -> Authorization, capacity: nat)

  function EnvOf(link: Link): Env
  {
    Env(link.o.hash, link.o.codec, link.authorize)
  }

  /** What each side has done so far; the channels carry whole frames. */
  datatype Session = Session(
    s: Sender,
    r: Receiver,
    outbox: seq<Bytes>,    // the receiver's answer, not written yet
    down: seq<Bytes>,      // sender to receiver
    up: seq<Bytes>,        // receiver to sender
    said: nat,             // frames sent by the sender
    heard: nat,            // frames read by the receiver
    answered: nat,         // frames sent by the receiver
    listened: nat)         // frames read by the sender

  function Begin(source: Bytes): Session
  {
    Session(FreshSender(source), FreshReceiver, [], [], [], 0, 0, 0, 0)
  }

  datatype Move = SenderSays | SenderHears | ReceiverHears | ReceiverSays | SenderFails | ReceiverFails

  predicate Enabled(link: Link, w: Session, m: Move)
  {
    match m
    case SenderSays => Speaks(w.s) && |w.down| < link.capacity
    case SenderHears => !Speaks(w.s) && !SenderDone(w.s) && w.up != []
    case ReceiverHears => !ReceiverDone(w.r) && w.outbox == [] && w.down != []
    case ReceiverSays => w.outbox != [] && |w.up| < link.capacity
    case _ => true
  }

  /** The receiver on one frame: a frame over its bound is refused unread. */
  function HearFrame(env: Env, r: Receiver, frame: Bytes): (Receiver, seq<Bytes>)
    requires !ReceiverDone(r)
  {
    if |frame| <= Bound(r) then React(env, r, frame) else (Receiver(ReceiverAborted, r.staged), [])
  }

  /** One scheduled move; a move that is not enabled leaves the session as it is. */
  function Next(link: Link, w: Session, m: Move): Session
  {
    if !Enabled(link, w, m) then w
    else
      match m
      case SenderSays =>
        var (s1, out) := Say(link.o, w.s);
        w.(s := s1, down := w.down + out, said := w.said + |out|)
      case SenderHears =>
        w.(s := Hear(link.o, w.s, w.up[0]), up := w.up[1..], listened := w.listened + 1)
      case ReceiverHears =>
        var (r1, out) := HearFrame(EnvOf(link), w.r, w.down[0]);
        w.(r := r1, outbox := out, down := w.down[1..], heard := w.heard + 1)
      case ReceiverSays =>
        w.(outbox := w.outbox[1..], up := w.up + [w.outbox[0]], answered := w.answered + 1)
      case SenderFails => w.(s := w.s.(phase := SenderAborted))
      case ReceiverFails => w.(r := w.r.(phase := ReceiverAborted), outbox := [])
  }

  /** The session after a schedule. */
  function Play(link: Link, source: Bytes, moves: seq<Move>): Session
  {
    if moves == [] then Begin(source) else Next(link, Play(link, source, moves[..|moves| - 1]), moves[|moves| - 1])
  }

  /** JSON decoding inverts JSON encoding. */
  ghost predicate RoundTrips(c: Codec)
  {
    && (forall x :: c.decodeOffer(c.encodeOffer(x)) == Some(x))
    && (forall x :: c.decodeDecision(c.encodeDecision(x)) == Some(x))
    && (forall x :: c.decodeCompletion(c.encodeCompletion(x)) == Some(x))
    && (forall x :: c.decodeReceipt(c.encodeReceipt(x)) == Some(x))
  }

  // ----- the one script an honest exchange follows

  function N(link: Link): nat
  {
    |Chunks(link.o)|
  }

  function ManifestIn(link: Link): Manifest
  {
    link.o.offer.manifest
  }

  predicate Proper(link: Link)
  {
    ValidOffer(link.o.hash, link.o.offer)
  }

  function Off(link: Link, k: nat): nat
    requires Proper(link)
  {
    Offset(ManifestIn(link).size, ManifestIn(link).chunkSize, k)
  }

  /** Frame `i` of the sender: offer, chunks, completion. */
  function DownFrame(link: Link, source: Bytes, i: nat): Bytes
    requires Proper(link)
  {
    if i == 0 then link.o.codec.encodeOffer(link.o.offer)
    else if i <= N(link) then
      if Off(link, i) <= |source| then Part(source, ManifestIn(link).size, ManifestIn(link).chunkSize, i - 1) else []
    else link.o.codec.encodeCompletion(CompletedPayload(link.o.offer))
  }

  /** Frame `j` of the receiver: decision, receipt. */
  function UpFrame(link: Link, j: nat): Bytes
  {
    if j == 0 then
      link.o.codec.encodeDecision(PayloadDecision(ProtocolVersion, link.o.offer.transferID,
                                                  link.authorize(link.o.offer) == Allow))
    else link.o.codec.encodeReceipt(VerifiedPayloadReceipt(link.o.offer))
  }

  /** How many chunks a sender of `said` frames has sent, or a receiver of that many has staged. */
  function ChunksIn(link: Link, frames: nat): nat
  {
    if frames == 0 then 0 else if frames - 1 <= N(link) then frames - 1 else N(link)
  }

  /** How many answers a receiver of `heard` frames has produced. */
  function Produced(link: Link, heard: nat): nat
  {
    if heard == 0 then 0 else if heard == N(link) + 2 then 2 else 1
  }

  ghost predicate DownOk(link: Link, source: Bytes, w: Session)
    requires Proper(link)
  {
    && w.heard <= w.said <= N(link) + 2
    && |w.down| == w.said - w.heard
    && (forall i | 0 <= i < |w.down| :: w.down[i] == DownFrame(link, source, w.heard + i))
    && Off(link, ChunksIn(link, w.said)) <= |source|
    && (w.said == N(link) + 2 ==> |source| == ManifestIn(link).size)
    && MatchesUpTo(link.o.hash, ManifestIn(link), source, ChunksIn(link, w.said))
  }

  predicate UpOk(link: Link, w: Session)
  {
    && w.listened <= w.answered <= Produced(link, w.heard)
    && |w.up| == w.answered - w.listened
    && (forall i | 0 <= i < |w.up| :: w.up[i] == UpFrame(link, w.listened + i))
    && (w.outbox == [] || (w.outbox == [UpFrame(link, w.answered)] && w.answered < Produced(link, w.heard)))
    && (!w.r.phase.ReceiverAborted? ==> |w.outbox| == Produced(link, w.heard) - w.answered)
  }

  predicate SenderOk(link: Link, source: Bytes, w: Session)
    requires Proper(link)
  {
    match w.s.phase
    case Offering => w.said == 0 && w.listened == 0 && w.s == FreshSender(source)
    case AwaitDecision => w.said == 1 && w.listened == 0 && w.s.source == source && w.s.hashed == []
    case Sending(k) =>
      && k <= N(link) && w.said == k + 1 && w.listened == 1 && link.authorize(link.o.offer) == Allow
      && Off(link, k) <= |source| && w.s.source == source[Off(link, k)..] && w.s.hashed == source[..Off(link, k)]
    case AwaitReceipt => w.said == N(link) + 2 && w.listened == 1 && link.authorize(link.o.offer) == Allow
    case Sent(receipt) =>
      && w.said == N(link) + 2 && w.listened == 2 && link.authorize(link.o.offer) == Allow
      && receipt == VerifiedPayloadReceipt(link.o.offer)
    case Rejected => w.said == 1 && w.listened == 1 && link.authorize(link.o.offer) != Allow
    case SenderAborted => true
  }

  predicate ReceiverOk(link: Link, source: Bytes, w: Session)
    requires Proper(link) && Off(link, ChunksIn(link, w.heard)) <= |source|
  {
    && w.r.staged == source[..Off(link, ChunksIn(link, w.heard))]
    && match w.r.phase
       case AwaitOffer => w.heard == 0
       case Receiving(offer, k) =>
         w.heard == k + 1 && k <= N(link) && offer == link.o.offer && link.authorize(offer) == Allow
       case Received(offer, receipt) =>
         && w.heard == N(link) + 2 && offer == link.o.offer && link.authorize(offer) == Allow
         && receipt == VerifiedPayloadReceipt(offer)
       case Denied(offer) => w.heard == 1 && offer == link.o.offer && link.authorize(offer) == Deny
       case ReceiverAborted => true
  }

  /** What every reachable session satisfies. */
  ghost predicate Inv(link: Link, source: Bytes, w: Session)
    requires Proper(link)
  {
    && DownOk(link, source, w)
    && UpOk(link, w)
    && SenderOk(link, source, w)
    && Off(link, ChunksIn(link, w.heard)) <= |source|
    && ReceiverOk(link, source, w)
  }

  // ----- every move keeps the invariant

  lemma {:induction false} OffFacts(link: Link, k: nat)
    requires Proper(link)
    ensures ManifestIn(link).size >= 0 && ManifestIn(link).chunkSize > 0
    ensures Off(link, 0) == 0 && Off(link, N(link)) == ManifestIn(link).size
    ensures Off(link, k) <= Off(link, k + 1) <= ManifestIn(link).size
    ensures k < N(link) ==>
              && 0 < ManifestIn(link).chunks[k].size == Off(link, k + 1) - Off(link, k) <= MaxFrameSize
              && ManifestIn(link).chunks[k].index == k
  {
    hide ValidFilename, LowerHex, Offset, ChunkCount;
    OffsetStep(ManifestIn(link).size, ManifestIn(link).chunkSize, 0);
    OffsetStep(ManifestIn(link).size, ManifestIn(link).chunkSize, k);
    OffsetStep(ManifestIn(link).size, ManifestIn(link).chunkSize, N(link));
  }

  lemma {:induction false} BeginOk(link: Link, source: Bytes)
    requires Proper(link)
    ensures Inv(link, source, Begin(source))
  {
    hide Valid, Offset, MatchesUpTo;
    OffFacts(link, 0);
    NothingMatchedYet(link.o.hash, ManifestIn(link), source);
  }

  /** A chunk the sender sends is its own stretch of the source. */
  lemma {:induction false} SaidChunk(link: Link, source: Bytes, s: Sender, k: nat)
    requires Proper(link) && k < N(link) && Off(link, k) <= |source|
    requires s == Sender(Sending(k), source[Off(link, k)..], source[..Off(link, k)])
    ensures var (s1, out) := SayChunk(link.o, s, k);
            || (s1.phase.SenderAborted? && out == [])
            || (Off(link, k + 1) <= |source| && out == [DownFrame(link, source, k + 1)]
                && link.o.hash(source[Off(link, k)..Off(link, k + 1)]) == ManifestIn(link).chunks[k].hash
                && s1 == Sender(Sending(k + 1), source[Off(link, k + 1)..], source[..Off(link, k + 1)]))
  {
    hide Valid, Offset, Sendable, LowerHex;
    OffFacts(link, k);
    var size := ManifestIn(link).chunks[k].size;
    if size <= |s.source| {
      var (a, b) := (Off(link, k), Off(link, k + 1));
      assert source[a..][..size] == source[a..b] && source[a..][size..] == source[b..];
      assert source[..a] + source[a..b] == source[..b];
      PartIs(link, source, k);
    }
  }

  lemma {:induction false} PartIs(link: Link, source: Bytes, k: nat)
    requires Proper(link) && k < N(link) && Off(link, k + 1) <= |source|
    ensures Off(link, k) <= Off(link, k + 1) && DownFrame(link, source, k + 1) == source[Off(link, k)..Off(link, k + 1)]
  {
    hide Valid, Offset;
    OffFacts(link, k);
  }

  lemma {:induction false} SenderSaysOk(link: Link, source: Bytes, w: Session)
    requires Proper(link) && Inv(link, source, w)
    ensures Inv(link, source, Next(link, w, SenderSays))
  {
    hide Valid, Offset, ChunkVerifies, DownFrame, UpFrame, Say, MatchesUpTo;
    hide UpOk, ReceiverOk;
    if Enabled(link, w, SenderSays) {
      var (s1, out) := Say(link.o, w.s);
      SaidByScript(link, source, w);
      var w1 := Next(link, w, SenderSays);
      OffFacts(link, w.said);
      UpOkIgnoresSaid(link, w, w1);
      ReceiverOkIgnoresSaid(link, source, w, w1);
    }
  }

  lemma {:induction false} UpOkIgnoresSaid(link: Link, w: Session, w1: Session)
    requires UpOk(link, w) && w1 == w.(s := w1.s, down := w1.down, said := w1.said)
    ensures UpOk(link, w1)
  {
    hide UpFrame;
  }

  lemma {:induction false} ReceiverOkIgnoresSaid(link: Link, source: Bytes, w: Session, w1: Session)
    requires Proper(link) && Off(link, ChunksIn(link, w.heard)) <= |source| && ReceiverOk(link, source, w)
    requires w1.r == w.r && w1.heard == w.heard
    ensures ReceiverOk(link, source, w1)
  {
    hide Valid, Offset;
  }

  /** Each spontaneous step of the sender aborts or sends the next frame of the script. */
  lemma {:induction false} SaidByScript(link: Link, source: Bytes, w: Session)
    requires Proper(link) && SenderOk(link, source, w) && Speaks(w.s) && |source| >= Off(link, ChunksIn(link, w.said))
    requires MatchesUpTo(link.o.hash, ManifestIn(link), source, ChunksIn(link, w.said))
    ensures var (s1, out) := Say(link.o, w.s);
            || (s1.phase.SenderAborted? && out == [])
            || (&& out == [DownFrame(link, source, w.said)] && w.said < N(link) + 2
                && Off(link, ChunksIn(link, w.said + 1)) <= |source|
                && MatchesUpTo(link.o.hash, ManifestIn(link), source, ChunksIn(link, w.said + 1))
                && (w.said + 1 == N(link) + 2 ==> |source| == ManifestIn(link).size)
                && SenderOk(link, source, w.(s := s1, said := w.said + 1)))
  {
    hide Valid, Offset, ChunkVerifies, Sendable, MatchesUpTo;
    OffFacts(link, N(link));
    match w.s.phase {
      case Offering =>
      case Sending(k) =>
        if k < N(link) {
          SaidChunk(link, source, w.s, k);
          if Say(link.o, w.s).1 != [] {
            OffFacts(link, k);
            MatchedOneMore(link.o.hash, ManifestIn(link), source, k);
          }
        } else {
          assert Off(link, k) == ManifestIn(link).size;
        }
    }
  }

  lemma {:induction false} TailShifts(frames: seq<Bytes>)
    requires frames != []
    ensures forall i | 0 <= i < |frames| - 1 :: frames[1..][i] == frames[i + 1]
  {
  }

  lemma {:induction false} SenderHearsOk(link: Link, source: Bytes, w: Session)
    requires Proper(link) && RoundTrips(link.o.codec) && Inv(link, source, w)
    ensures Inv(link, source, Next(link, w, SenderHears))
  {
    hide Valid, Offset, MatchesUpTo;
    if Enabled(link, w, SenderHears) {
      OffFacts(link, 0);
      assert w.up[0] == UpFrame(link, w.listened + 0);
      TailShifts(w.up);
    }
  }

  lemma {:induction false} ReceiverSaysOk(link: Link, source: Bytes, w: Session)
    requires Proper(link) && Inv(link, source, w)
    ensures Inv(link, source, Next(link, w, ReceiverSays))
  {
    hide Valid, Offset, MatchesUpTo, UpFrame;
  }

  lemma {:induction false} FailsOk(link: Link, source: Bytes, w: Session, m: Move)
    requires Proper(link) && Inv(link, source, w) && (m.SenderFails? || m.ReceiverFails?)
    ensures Inv(link, source, Next(link, w, m))
  {
    hide Valid, Offset, MatchesUpTo, UpFrame;
  }

  /** A frame the receiver hears moves its staging along the source, whether or not it then aborts. */
  lemma {:induction false} HeardByScript(link: Link, source: Bytes, w: Session)
    requires Proper(link) && RoundTrips(link.o.codec) && Inv(link, source, w) && Enabled(link, w, ReceiverHears)
    ensures var (r1, out) := HearFrame(EnvOf(link), w.r, w.down[0]);
            var w1 := w.(r := r1, heard := w.heard + 1);
            && Off(link, ChunksIn(link, w1.heard)) <= |source|
            && ReceiverOk(link, source, w1)
            && (out == [] || out == [UpFrame(link, w.answered)])
            && (!r1.phase.ReceiverAborted? ==> |out| == Produced(link, w1.heard) - w.answered)
            && (out != [] ==> w.answered < Produced(link, w1.heard))
  {
    hide Valid, Offset, MatchesUpTo;
    assert w.down[0] == DownFrame(link, source, w.heard + 0);
    OffFacts(link, w.heard);
    match w.r.phase {
      case AwaitOffer =>
      case Receiving(offer, k) =>
        OffFacts(link, k);
        if k < N(link) {
          HeardChunk(link, source, w, k);
        } else {
          OffFacts(link, N(link));
        }
    }
  }

  lemma {:induction false} HeardChunk(link: Link, source: Bytes, w: Session, k: nat)
    requires Proper(link) && DownOk(link, source, w) && w.down != [] && w.heard == k + 1 && k < N(link)
    ensures Off(link, k) <= Off(link, k + 1) <= |source|
    ensures w.down[0] == source[Off(link, k)..Off(link, k + 1)]
    ensures |w.down[0]| == ManifestIn(link).chunks[k].size
    ensures ChunkVerifies(link.o.hash, ManifestIn(link).chunks[k], w.down[0])
    ensures source[..Off(link, k)] + w.down[0] == source[..Off(link, k + 1)]
  {
    hide Offset;
    assert w.down[0] == DownFrame(link, source, w.heard + 0);
    OffFacts(link, k);
    MoreChunksMoreBytes(link, k + 1, ChunksIn(link, w.said));
    PartIs(link, source, k);
  }

  lemma {:induction false} MoreChunksMoreBytes(link: Link, a: nat, b: nat)
    requires Proper(link) && a <= b
    ensures Off(link, a) <= Off(link, b)
    decreases b
  {
    hide Valid, Offset;
    if a < b {
      MoreChunksMoreBytes(link, a, b - 1);
      OffFacts(link, b - 1);
    }
  }

  lemma {:induction false} ReceiverHearsOk(link: Link, source: Bytes, w: Session)
    requires Proper(link) && RoundTrips(link.o.codec) && Inv(link, source, w)
    ensures Inv(link, source, Next(link, w, ReceiverHears))
  {
    hide Valid, Offset, MatchesUpTo, HearFrame, UpFrame, DownFrame, RoundTrips;
    if Enabled(link, w, ReceiverHears) {
      HeardByScript(link, source, w);
      assert forall i | 0 <= i < |w.down| - 1 :: w.down[1..][i] == w.down[i + 1];
    }
  }

  lemma {:induction false} Reachable(link: Link, source: Bytes, moves: seq<Move>)
    requires Proper(link) && RoundTrips(link.o.codec)
    ensures Inv(link, source, Play(link, source, moves))
  {
    hide Inv, Next, Proper, RoundTrips;
    if moves == [] {
      BeginOk(link, source);
    } else {
      var before, m := moves[..|moves| - 1], moves[|moves| - 1];
      Reachable(link, source, before);
      var w := Play(link, source, before);
      match m {
        case SenderSays => SenderSaysOk(link, source, w);
        case SenderHears => SenderHearsOk(link, source, w);
        case ReceiverHears => ReceiverHearsOk(link, source, w);
        case ReceiverSays => ReceiverSaysOk(link, source, w);
        case SenderFails => FailsOk(link, source, w, m);
        case ReceiverFails => FailsOk(link, source, w, m);
      }
    }
  }
}
