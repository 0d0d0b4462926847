/** The application's guarded send and receive: checks before, during and after the transport call. */
module GuardedCalls {
  import opened Outcomes
  import opened Streams
  import opened Manifests
  import opened Peers
  import opened PayloadProtocol
  import opened PayloadTransfer
  import opened PayloadSending
  import opened Gates

  /** A check around the transport call, at which `to` checks were made; it keeps the lockstep so far. */
  method Checkpoint(gate: Gate, ghost now: Sight, ghost to: nat, ghost first: nat, ghost calls: nat) returns (ok: bool)
    requires gate.Valid() && gate.turn == to
    modifies gate.Footprint(), gate.peer`closed
    ensures gate.Valid() && gate.turn == to + 1 && gate.seen == old(gate.seen) + [now]
    ensures ok <==> gate.Passes(to)
    ensures ok ==> gate.peer.closed == old(gate.peer.closed)
    ensures !ok ==> Frozen(gate, now) && SecurePeers.Closed(gate.peer)
    ensures old(Lockstep(gate, 1, to, first, calls)) ==> Lockstep(gate, 1, to, first, calls)
    ensures to == 0 && calls == first ==> Lockstep(gate, 1, 1, first, calls)
  {
    hide SecurePeers.PassesAs;
    ok := gate.Check(now);
  }

  datatype GuardedSend = SendRefused | ReceiptWithheld | SendReturned(result: SendResult)

  /**
   The guarded send.  Check 0 is made on entry, checks 1, 2, ... directly before each read of the
   source, and the last one before a receipt is handed out.  `inner` is what the transport call
   returned and `made` how many checks had been made by then.
   */
  method SendTransferPayload(f: SecurePeers.Factory, peer: PeerConn, hash: Hasher, codec: Codec, offer: PayloadOffer,
                             source: ByteReader, moments: nat -> Moment)
    returns (r: GuardedSend, ghost gate: Gate, ghost inner: SendResult, ghost made: nat)
    requires source != peer.input
    modifies peer`closed, f.store, peer.input, peer.output, source
    ensures gate.factory == Some(f) && gate.peer == peer && gate.moments == moments && gate.Valid()
    ensures 1 <= made && made <= gate.turn <= made + 1
              && gate.seen[0] == Sight(old(source.calls), old(source.remaining), old(peer.output.written))
    // the answer is decided by the first check, the transport call and the last check
    ensures r == if !gate.Passes(0) then SendRefused
                 else if inner.Completed? && !gate.Passes(made) then ReceiptWithheld
                 else SendReturned(inner)
    ensures gate.turn == made + if gate.Passes(0) && inner.Completed? then 1 else 0
    ensures r.SendRefused? || r.ReceiptWithheld? ==> SecurePeers.Closed(peer)
    // every read is directly preceded by its own passed check, and nothing happens after a failed one
    ensures r.SendRefused? ==> made == 1 && source.calls == old(source.calls)
    ensures !r.SendRefused? ==> Lockstep(gate, 1, made, old(source.calls), source.calls)
    ensures !gate.Holds(0) ==> Frozen(gate, GatedReader(source, gate).Now())
    ensures !r.SendRefused? && !gate.AllPass(1, made) ==> inner == SendFailed && peer.closed
    // the transport call ran the sender machine
    ensures !r.SendRefused? && !old(peer.Trusted()) ==>
              && inner == SenderNotTrusted
              && source.remaining == old(source.remaining) && peer.output.written == old(peer.output.written)
    ensures !r.SendRefused? && old(peer.Trusted()) && !ValidOffer(hash, offer) ==>
              && inner == OfferInvalid
              && source.remaining == old(source.remaining) && peer.output.written == old(peer.output.written)
    ensures !r.SendRefused? && old(peer.Trusted()) && ValidOffer(hash, offer) ==>
              && old(peer.output.written) <= peer.output.written
              && SendMeets(Outgoing(hash, codec, offer, source.end), old(source.remaining), old(peer.input.remaining),
                           inner, if r.ReceiptWithheld? then false else peer.closed, peer.input.remaining,
                           Gained(peer.output.written, |old(peer.output.written)|),
                           peer.output.healthy && gate.AllPass(1, made))
  {
    hide SendMeets, ValidOffer, SecurePeers.PassesAs, Lockstep, Frozen, Gate.Passes, Gained;
    ghost var calls := source.calls;
    ghost var data, whole, start := source.remaining, peer.input.remaining, peer.output.written;
    var g := new Gate(Some(f), peer, moments);
    gate, inner, made := g, SendFailed, 1;
    var reader := GatedReader(source, g);
    var ok := Checkpoint(g, reader.Now(), 0, calls, calls);
    if !ok {
      return SendRefused, gate, inner, made;
    }
    var result := PayloadSending.SendTransferPayload(peer, hash, codec, offer, reader);
    inner, made := result, g.turn;
    if !result.Completed? {
      return SendReturned(result), gate, inner, made;
    }
    CompletedIsOpen(Outgoing(hash, codec, offer, source.end), data, whole, result, peer.closed, peer.input.remaining,
                    Gained(peer.output.written, |start|), peer.output.healthy && g.AllPass(1, made));
    ok := Checkpoint(g, reader.Now(), made, calls, source.calls);
    r := if ok then SendReturned(result) else ReceiptWithheld;
  }

  lemma {:induction false} CompletedIsOpen(o: Outgoing, source: Bytes, whole: Bytes, result: SendResult, closed: bool,
                                           input: Bytes, sent: Bytes, healthy: bool)
    requires SendMeets(o, source, whole, result, closed, input, sent, healthy) && result.Completed?
    ensures !closed
  {
    hide Send;
  }

  datatype GuardedReceive = ReceiveRefused | OutcomeWithheld | ReceiveReturned(result: ReceiveResult)

  /**
   The guarded receive.  Check 0 is made on entry, check 1 before the approval of the offer,
   checks 2, 3, ... directly before each write to the destination, and the last one before a
   receipt is handed out.
   */
  method ReceiveTransferPayload(f: SecurePeers.Factory, peer: PeerConn, env: Env, destination: ByteWriter,
                                moments: nat -> Moment)
    returns (r: GuardedReceive, ghost gate: Gate, ghost inner: ReceiveResult, ghost made: nat)
    requires destination != peer.output
    modifies peer`closed, f.store, peer.input, peer.output, destination
    ensures gate.factory == Some(f) && gate.peer == peer && gate.moments == moments && gate.Valid()
    ensures 1 <= made <= gate.turn
    ensures gate.seen[0] == Sight(old(destination.calls), old(destination.written), old(peer.output.written))
    // the answer is decided by the first check, the transport call and the last check
    ensures r == if !gate.Passes(0) then ReceiveRefused
                 else if inner.Delivered? && !gate.Passes(made) then OutcomeWithheld
                 else ReceiveReturned(inner)
    ensures gate.turn == made + if gate.Passes(0) && inner.Delivered? then 1 else 0
    ensures r.ReceiveRefused? || r.OutcomeWithheld? ==> SecurePeers.Closed(peer)
    // approval and every write sit directly behind a passed check, and nothing happens after a failed one
    ensures r.ReceiveRefused? ==> made == 1 && destination.calls == old(destination.calls)
    ensures !r.ReceiveRefused? ==> ChecksAndWrites(gate, 1, made, old(destination.calls), destination.calls)
    ensures destination.written != old(destination.written) ==> made > 1 && gate.Passes(0) && gate.Passes(1)
    ensures !gate.Holds(0) ==> Frozen(gate, GatedWriter(destination, gate).Now())
    ensures !r.ReceiveRefused? && !gate.AllPass(1, made) ==> inner == ReceiveFailed && peer.closed
    // the transport call ran the receiver machine
    ensures !r.ReceiveRefused? && !old(peer.Trusted()) ==>
              inner == ReceiverNotTrusted && peer.output.written == old(peer.output.written)
    ensures !r.ReceiveRefused? && old(peer.Trusted()) ==>
              && old(destination.written) <= destination.written && old(peer.output.written) <= peer.output.written
              && ReceiveMeets(env, old(peer.input.remaining), inner, if r.OutcomeWithheld? then false else peer.closed,
                              peer.input.remaining, Gained(destination.written, |old(destination.written)|),
                              Gained(peer.output.written, |old(peer.output.written)|),
                              destination.healthy && peer.output.healthy && gate.AllPass(1, made))
  {
    hide ReceiveMeets, SecurePeers.PassesAs, Lockstep, ChecksAndWrites, Frozen, Gate.Passes, Gained;
    ghost var calls, whole := destination.calls, peer.input.remaining;
    ghost var base, start := destination.written, peer.output.written;
    var g := new Gate(Some(f), peer, moments);
    gate, inner, made := g, ReceiveFailed, 1;
    var writer := GatedWriter(destination, g);
    var ok := Checkpoint(g, writer.Now(), 0, calls, calls);
    if !ok {
      return ReceiveRefused, gate, inner, made;
    }
    var result := PayloadTransfer.ReceiveTransferPayload(peer, env, writer);
    inner, made := result, g.turn;
    if !result.Delivered? {
      return ReceiveReturned(result), gate, inner, made;
    }
    DeliveredIsOpen(env, whole, result, peer.closed, peer.input.remaining, Gained(destination.written, |base|),
                    Gained(peer.output.written, |start|),
                    destination.healthy && peer.output.healthy && g.AllPass(1, made));
    ok := FinalCheckpoint(g, writer.Now(), calls, destination.calls);
    r := if ok then ReceiveReturned(result) else OutcomeWithheld;
  }

  /** The check before a receipt is handed out. */
  method FinalCheckpoint(gate: Gate, ghost now: Sight, ghost first: nat, ghost calls: nat) returns (ok: bool)
    requires gate.Valid() && gate.turn > 0 && ChecksAndWrites(gate, 1, gate.turn, first, calls)
    modifies gate.Footprint(), gate.peer`closed
    ensures gate.Valid() && gate.turn == old(gate.turn) + 1 && gate.seen == old(gate.seen) + [now]
    ensures ok <==> gate.Passes(old(gate.turn))
    ensures ok ==> gate.peer.closed == old(gate.peer.closed)
    ensures !ok ==> Frozen(gate, now) && SecurePeers.Closed(gate.peer)
    ensures ChecksAndWrites(gate, 1, old(gate.turn), first, calls)
  {
    hide SecurePeers.PassesAs;
    ok := gate.Check(now);
  }

  lemma {:induction false} DeliveredIsOpen(env: Env, whole: Bytes, result: ReceiveResult, closed: bool, input: Bytes,
                                           staged: Bytes, sent: Bytes, healthy: bool)
    requires ReceiveMeets(env, whole, result, closed, input, staged, sent, healthy) && result.Delivered?
    ensures !closed
  {
    hide Receive;
  }
}
