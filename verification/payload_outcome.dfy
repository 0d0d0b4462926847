/** What holds of every schedule of a transfer: agreement, clean channels, progress. */
module PayloadOutcome {
  import opened Streams
  import opened Frames
  import opened Manifests
  import opened PayloadProtocol
  import opened PayloadTransfer
  import opened PayloadSending
  import opened PayloadSession

  /**
   Agreement, whatever fails and whenever: a sender's receipt means that exactly its source
   bytes are already staged, and a receiver's receipt means the same about its own staging.
   */
  lemma {:induction false} Agreement(link: Link, source: Bytes, moves: seq<Move>)
    requires Proper(link) && RoundTrips(link.o.codec)
    ensures var w := Play(link, source, moves);
            && w.r.staged <= source
            && (w.s.phase.Sent? ==> w.r.staged == source && w.s.phase.receipt == VerifiedPayloadReceipt(link.o.offer))
            && (w.r.phase.Received? ==> w.r.staged == source && w.r.phase.offer == link.o.offer
                                        && w.r.phase.receipt == VerifiedPayloadReceipt(link.o.offer))
  {
    hide Valid, Offset, MatchesUpTo, Play, UpFrame, DownFrame, RoundTrips;
    Reachable(link, source, moves);
    OffFacts(link, N(link));
  }

  predicate Finished(w: Session)
  {
    SenderDone(w.s) && ReceiverDone(w.r) && w.outbox == []
  }

  predicate SomeoneAborted(w: Session)
  {
    w.s.phase.SenderAborted? || w.r.phase.ReceiverAborted?
  }

  /** Two sides that finish without closing leave nothing on the wire and report the same outcome. */
  lemma {:induction false} ChannelsEndEmpty(link: Link, source: Bytes, moves: seq<Move>)
    requires Proper(link) && RoundTrips(link.o.codec)
    requires Finished(Play(link, source, moves)) && !SomeoneAborted(Play(link, source, moves))
    ensures var w := Play(link, source, moves);
            && w.down == [] && w.up == []
            && (w.s.phase.Sent? <==> w.r.phase.Received?) && (w.s.phase.Rejected? <==> w.r.phase.Denied?)
  {
    hide Valid, Offset, MatchesUpTo, Play, UpFrame, DownFrame, RoundTrips;
    Reachable(link, source, moves);
  }

  /** One transfer of a series on one connection, with its schedule. */
  datatype Transfer = Transfer(link: Link, source: Bytes, moves: seq<Move>)

  function PlayAlone(t: Transfer): Session
  {
    Play(t.link, t.source, t.moves)
  }

  /** A schedule that starts from whatever the channels hold. */
  function PlayOn(link: Link, w: Session, moves: seq<Move>): Session
  {
    if moves == [] then w else Next(link, PlayOn(link, w, moves[..|moves| - 1]), moves[|moves| - 1])
  }

  /** The session after a series: each transfer takes over the channels its predecessor left behind. */
  function Series(ts: seq<Transfer>): Session
  {
    if ts == [] then Begin([])
    else
      var (before, t) := (Series(ts[..|ts| - 1]), ts[|ts| - 1]);
      PlayOn(t.link, Begin(t.source).(down := before.down, up := before.up), t.moves)
  }

  lemma {:induction false} PlayOnFresh(link: Link, source: Bytes, moves: seq<Move>)
    ensures PlayOn(link, Begin(source), moves) == Play(link, source, moves)
  {
    hide Next;
    if moves != [] {
      PlayOnFresh(link, source, moves[..|moves| - 1]);
    }
  }

  /**
   Reuse: after any number of transfers that both sides finished without closing, accepted or
   rejected, the next one runs on the same connection exactly as on a fresh one.
   */
  lemma {:induction false} SeriesRunsLikeFresh(ts: seq<Transfer>)
    requires ts != []
    requires forall i | 0 <= i < |ts| - 1 ::
               && Proper(ts[i].link) && RoundTrips(ts[i].link.o.codec)
               && Finished(PlayAlone(ts[i])) && !SomeoneAborted(PlayAlone(ts[i]))
    ensures Series(ts) == PlayAlone(ts[|ts| - 1])
  {
    hide Play, Proper, RoundTrips, Finished, SomeoneAborted, PlayOn;
    var (earlier, t) := (ts[..|ts| - 1], ts[|ts| - 1]);
    if earlier != [] {
      SeriesRunsLikeFresh(earlier);
      var last := ts[|ts| - 2];
      assert earlier[|earlier| - 1] == last;
      ChannelsEndEmpty(last.link, last.source, last.moves);
    }
    PlayOnFresh(t.link, t.source, t.moves);
  }

  /** Nothing but the schedule is left to chance: the source matches and every record fits a frame. */
  ghost predicate Smooth(link: Link, source: Bytes)
  {
    && Proper(link) && RoundTrips(link.o.codec) && link.capacity > 0
    && Matches(link.o.hash, ManifestIn(link), source) && link.o.end == EndOfFile
    && link.authorize(link.o.offer) != DenyAndClose
    && Sendable(link.o.codec.encodeOffer(link.o.offer))
    && Sendable(link.o.codec.encodeCompletion(CompletedPayload(link.o.offer)))
    && Sendable(UpFrame(link, 0)) && Sendable(UpFrame(link, 1))
  }

  predicate Fails(m: Move)
  {
    m.SenderFails? || m.ReceiverFails?
  }

  lemma {:induction false} MatchingChunk(link: Link, source: Bytes, k: nat)
    requires Smooth(link, source) && k < N(link)
    ensures Off(link, k) <= |source| && 0 < ManifestIn(link).chunks[k].size <= |source| - Off(link, k)
    ensures var data := source[Off(link, k)..][..ManifestIn(link).chunks[k].size];
            ChunkVerifies(link.o.hash, ManifestIn(link).chunks[k], data) && Sendable(data)
  {
    hide Offset, ValidFilename, RoundTrips;
    OffFacts(link, k);
    PartIs(link, source, k);
    assert source[Off(link, k)..][..ManifestIn(link).chunks[k].size] == source[Off(link, k)..Off(link, k + 1)];
  }

  lemma {:induction false} SenderNeverAborts(link: Link, source: Bytes, w: Session)
    requires Smooth(link, source) && Inv(link, source, w) && Speaks(w.s)
    ensures !Say(link.o, w.s).0.phase.SenderAborted? && |Say(link.o, w.s).1| == 1
  {
    hide Valid, Offset, MatchesUpTo, ChunkVerifies, RoundTrips;
    OffFacts(link, N(link));
    match w.s.phase {
      case Offering =>
      case Sending(k) =>
        if k < N(link) {
          MatchingChunk(link, source, k);
          assert SayChunk(link.o, w.s, k).1 == [source[Off(link, k)..][..ManifestIn(link).chunks[k].size]];
        } else {
          assert source[..|source|] == source;
        }
    }
  }

  lemma {:induction false} ReceiverNeverAborts(link: Link, source: Bytes, w: Session)
    requires Smooth(link, source) && Inv(link, source, w) && Enabled(link, w, ReceiverHears)
    ensures !HearFrame(EnvOf(link), w.r, w.down[0]).0.phase.ReceiverAborted?
  {
    hide Valid, Offset, MatchesUpTo;
    assert w.down[0] == DownFrame(link, source, w.heard + 0);
    match w.r.phase {
      case AwaitOffer =>
      case Receiving(offer, k) =>
        if k < N(link) {
          HeardChunk(link, source, w, k);
        } else {
          OffFacts(link, N(link));
          assert source[..|source|] == source;
        }
    }
  }

  lemma {:induction false} SenderHearsWell(link: Link, source: Bytes, w: Session)
    requires Smooth(link, source) && Inv(link, source, w) && Enabled(link, w, SenderHears)
    ensures !Hear(link.o, w.s, w.up[0]).phase.SenderAborted?
  {
    hide Valid, Offset, MatchesUpTo;
    assert w.up[0] == UpFrame(link, w.listened + 0);
  }

  function Total(w: Session): nat
  {
    w.said + w.heard + w.answered + w.listened
  }

  /** Without a failure, every enabled move is one frame of progress and nobody aborts. */
  lemma {:induction false} MoveAdvances(link: Link, source: Bytes, w: Session, m: Move)
    requires Smooth(link, source) && Inv(link, source, w) && !SomeoneAborted(w) && !Fails(m)
    ensures !SomeoneAborted(Next(link, w, m))
    ensures Total(Next(link, w, m)) == Total(w) + if Enabled(link, w, m) then 1 else 0
  {
    hide Inv, Smooth, Say, Hear, HearFrame;
    if Enabled(link, w, m) {
      match m {
        case SenderSays => SenderNeverAborts(link, source, w);
        case SenderHears => SenderHearsWell(link, source, w);
        case ReceiverHears => ReceiverNeverAborts(link, source, w);
        case ReceiverSays =>
      }
    }
  }

  /** The two sides are never both stuck: until both have finished, some move is enabled. */
  lemma {:induction false} SomeoneCanMove(link: Link, source: Bytes, w: Session) returns (m: Move)
    requires Smooth(link, source) && Inv(link, source, w) && !SomeoneAborted(w) && !Finished(w)
    ensures !Fails(m) && Enabled(link, w, m)
  {
    hide Valid, Offset, MatchesUpTo, UpFrame, DownFrame, RoundTrips, Matches;
    if Enabled(link, w, SenderSays) {
      m := SenderSays;
    } else if Enabled(link, w, SenderHears) {
      m := SenderHears;
    } else if Enabled(link, w, ReceiverHears) {
      m := ReceiverHears;
    } else {
      m := ReceiverSays;
    }
  }

  /** The moves of a schedule that were enabled when their turn came. */
  function Effective(link: Link, source: Bytes, moves: seq<Move>): nat
  {
    if moves == [] then 0
    else
      Effective(link, source, moves[..|moves| - 1])
      + if Enabled(link, Play(link, source, moves[..|moves| - 1]), moves[|moves| - 1]) then 1 else 0
  }

  lemma {:induction false} FailureFree(link: Link, source: Bytes, moves: seq<Move>)
    requires Smooth(link, source) && forall m | m in moves :: !Fails(m)
    ensures !SomeoneAborted(Play(link, source, moves))
    ensures Total(Play(link, source, moves)) == Effective(link, source, moves)
  {
    hide Smooth, Inv, Next, Enabled;
    if moves != [] {
      var before, m := moves[..|moves| - 1], moves[|moves| - 1];
      FailureFree(link, source, before);
      SmoothIsProper(link, source);
      Reachable(link, source, before);
      MoveAdvances(link, source, Play(link, source, before), m);
    }
  }

  lemma {:induction false} SmoothIsProper(link: Link, source: Bytes)
    requires Smooth(link, source)
    ensures Proper(link) && RoundTrips(link.o.codec)
  {
  }

  /**
   Progress: a failure-free schedule makes at most 2n + 8 effective moves for n chunks; while
   it is unfinished some move is enabled; and once finished both sides report the same outcome.
   */
  lemma {:induction false} EveryScheduleSettles(link: Link, source: Bytes, moves: seq<Move>)
    requires Smooth(link, source) && forall m | m in moves :: !Fails(m)
    ensures var w := Play(link, source, moves);
            && Effective(link, source, moves) <= 2 * N(link) + 8
            && (!Finished(w) ==> exists m :: !Fails(m) && Enabled(link, w, m))
            && (Finished(w) && link.authorize(link.o.offer) == Allow ==>
                 w.s.phase == Sent(VerifiedPayloadReceipt(link.o.offer)) && w.r.phase.Received? && w.r.staged == source)
            && (Finished(w) && link.authorize(link.o.offer) == Deny ==>
                 w.s.phase == Rejected && w.r.phase.Denied? && w.r.staged == [])
  {
    SmoothIsProper(link, source);
    Reachable(link, source, moves);
    FailureFree(link, source, moves);
    Agreement(link, source, moves);
    var w := Play(link, source, moves);
    if !Finished(w) {
      var m := SomeoneCanMove(link, source, w);
    }
    SettledOutcome(link, source, w);
  }

  lemma {:induction false} SettledOutcome(link: Link, source: Bytes, w: Session)
    requires Proper(link) && Inv(link, source, w) && !SomeoneAborted(w)
    ensures Total(w) <= 2 * N(link) + 8
    ensures Finished(w) && link.authorize(link.o.offer) == Allow ==> w.s.phase.Sent? && w.r.phase.Received?
    ensures Finished(w) && link.authorize(link.o.offer) == Deny ==>
              w.s.phase.Rejected? && w.r.phase.Denied? && w.r.staged == []
  {
    hide Valid, Offset, MatchesUpTo, UpFrame, DownFrame;
    OffFacts(link, 0);
  }
}
