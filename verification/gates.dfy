/** Streams behind current-trust checks: `currentTrustReader` and `currentTrustWriter`. */
module Gates {
  import opened Outcomes
  import opened Streams
  import opened TrustedDevices
  import opened Peers
  import opened SecurePeers

  /** The registry as one checkpoint finds it; other parties may have changed it arbitrarily. */
  datatype Moment = Moment(registry: Registry, readable: bool)

  /** What a check found: the calls its stream had served, the stream, and the bytes sent to the peer. */
  datatype Sight = Sight(calls: nat, stream: Bytes, sent: Bytes)

  /**
   The checks of one call.  Check number k finds the registry of `moments(k)`.  Without a
   factory every check passes: that is the plain `io.Reader` or `io.Writer` of a call that is
   not guarded.
   */
  class Gate {
    const factory: Option<Factory>
    const peer: PeerConn
    const moments: nat -> Moment
    /** The checks made so far, and what each of them found. */
    var turn: nat
    ghost var seen: seq<Sight>

    constructor (factory: Option<Factory>, peer: PeerConn, moments: nat -> Moment)
      ensures this.factory == factory && this.peer == peer && this.moments == moments
      ensures Valid() && turn == 0
    {
      this.factory, this.peer, this.moments := factory, peer, moments;
      turn, seen := 0, [];
    }

    ghost predicate Valid()
      reads this
    {
      |seen| == turn
    }

    /** What a check may change besides the peer's closed flag. */
    ghost function Footprint(): set<object>
    {
      {this} + if factory.Some? && factory.value.store != null then {factory.value.store} else {}
    }

    ghost predicate Passes(k: nat)
      reads peer`fingerprint
    {
      || factory.None?
      || PassesAs(factory.value, peer.deviceID, peer.fingerprint, moments(k).registry, moments(k).readable)
    }

    ghost predicate AllPass(from: nat, to: nat)
      reads peer`fingerprint
    {
      forall k | from <= k < to :: Passes(k)
    }

    /** Every check from number `from` on passed. */
    ghost predicate Holds(from: nat)
      reads this, peer`fingerprint
    {
      AllPass(from, turn)
    }

    /** One checkpoint. */
    method Check(ghost now: Sight) returns (ok: bool)
      requires Valid()
      modifies Footprint(), peer`closed
      ensures Valid() && turn == old(turn) + 1 && seen == old(seen) + [now]
      ensures ok <==> Passes(old(turn))
      ensures ok ==> peer.closed == old(peer.closed)
      ensures !ok ==> Closed(peer)
    {
      hide Current;
      var moment := moments(turn);
      turn := turn + 1;
      seen := seen + [now];
      if factory.None? {
        return true;
      }
      if factory.value.store != null {
        factory.value.store.devices := moment.registry;
      }
      var r := RevalidateConnection(factory.value, peer, moment.readable);
      return r.Pass?;
    }
  }

  /**
   The checks `from`, ..., `to - 1` and the calls of one stream went in lockstep: check number
   `from + i` was made directly before call number `first + i`, every call but none other was
   made, and only the last check may have failed, in which case its call was not made.
   */
  ghost predicate Lockstep(gate: Gate, from: nat, to: nat, first: nat, calls: nat)
    reads gate, gate.peer`fingerprint
  {
    && from <= to <= |gate.seen|
    && (forall k | from <= k < to :: gate.seen[k].calls == first + (k - from))
    && (forall k | from <= k < to - 1 :: gate.Passes(k))
    && calls == first + (to - from) - if from < to && !gate.Passes(to - 1) then 1 else 0
  }

  /** The last check failed, and neither the stream nor what was sent to the peer has changed since. */
  ghost predicate Frozen(gate: Gate, now: Sight)
    reads gate, gate.peer`fingerprint
  {
    0 < gate.turn == |gate.seen| && !gate.Passes(gate.turn - 1) && gate.seen[gate.turn - 1] == now
  }

  datatype GatedReader = GatedReader(stream: ByteReader, gate: Gate) {

    ghost function Now(): Sight
      reads stream, gate, gate.peer, gate.peer.output
    {
      Sight(stream.calls, stream.remaining, gate.peer.output.written)
    }

    /** One `Read`: the stream is touched only behind a passed check of its own. */
    method Read(buffer: array<byte>, from: nat, to: nat) returns (n: nat, stop: Option<End>)
      requires from < to <= buffer.Length && gate.Valid()
      modifies gate.Footprint(), gate.peer`closed, stream, buffer
      ensures gate.Valid() && gate.turn == old(gate.turn) + 1 && gate.seen == old(gate.seen) + [old(Now())]
      ensures !gate.Passes(old(gate.turn)) ==>
                && n == 0 && stop == Some(Broken) && Closed(gate.peer)
                && stream.calls == old(stream.calls) && stream.remaining == old(stream.remaining)
                && buffer[..from] == old(buffer[..from])
      ensures gate.Passes(old(gate.turn)) ==>
                && gate.peer.closed == old(gate.peer.closed) && stream.calls == old(stream.calls) + 1
                && n <= to - from && n <= |old(stream.remaining)| && stream.remaining == old(stream.remaining)[n..]
                && buffer[..from + n] == old(buffer[..from]) + old(stream.remaining)[..n]
                && (stop.Some? ==> stream.remaining == [] && stop.value == stream.end)
                && (stop.None? ==> n > 0 || stream.pauses < old(stream.pauses))
      ensures stream.pauses <= old(stream.pauses)
    {
      var ok := gate.Check(Now());
      if !ok {
        return 0, Some(Broken);
      }
      n, stop := stream.Read(buffer, from, to);
    }

    /**
     `io.ReadFull` over checked reads: a failed check ends it; otherwise only the data decides.
     Check `from` and call `first` are where the lockstep of the caller began.
     */
    method ReadFull(buffer: array<byte>, want: nat, ghost from: nat, ghost first: nat) returns (n: nat, fill: Fill)
      requires want <= buffer.Length && gate.Valid()
      requires Lockstep(gate, from, gate.turn, first, stream.calls) && gate.Holds(from)
      modifies gate.Footprint(), gate.peer`closed, stream, buffer
      ensures gate.Valid() && old(gate.seen) <= gate.seen
      ensures Lockstep(gate, from, gate.turn, first, stream.calls)
      ensures gate.Holds(from) ==>
                && gate.peer.closed == old(gate.peer.closed)
                && n == (if want <= |old(stream.remaining)| then want else |old(stream.remaining)|)
                && stream.remaining == old(stream.remaining)[n..] && buffer[..n] == old(stream.remaining)[..n]
                && fill == if n == want then Filled
                           else if stream.end == Broken then Failed
                           else if n == 0 then Empty
                           else Short
      ensures !gate.Holds(from) ==> n < want && fill == Failed && Frozen(gate, Now()) && Closed(gate.peer)
    {
      hide PassesAs;
      ghost var data, before := stream.remaining, gate.seen;
      n := 0;
      var stop: Option<End> := None;
      while n < want && stop.None?
        invariant gate.Valid() && before <= gate.seen
        invariant n <= want && n <= |data| && stream.remaining == data[n..] && buffer[..n] == data[..n]
        invariant Lockstep(gate, from, gate.turn, first, stream.calls)
        invariant stop.None? ==> gate.Holds(from)
        invariant gate.Holds(from) ==> gate.peer.closed == old(gate.peer.closed)
        invariant gate.Holds(from) && stop.Some? ==> n == |data| && stop.value == stream.end
        invariant !gate.Holds(from) ==> n < want && stop == Some(Broken) && Frozen(gate, Now()) && Closed(gate.peer)
        decreases want - n, stream.pauses, stop.None?
      {
        var more;
        more, stop := Read(buffer, n, want);
        assert data[..n] + data[n..][..more] == data[..n + more];
        n := n + more;
      }
      fill := if n >= want then Filled
              else if stop == Some(Broken) then Failed
              else if n == 0 then Empty
              else Short;
    }
  }

  datatype GatedWriter = GatedWriter(stream: ByteWriter, gate: Gate) {

    ghost function Now(): Sight
      reads stream, gate, gate.peer, gate.peer.output
    {
      Sight(stream.calls, stream.written, gate.peer.output.written)
    }

    /** One `Write`: the stream is touched only behind a passed check of its own. */
    method Write(data: Bytes) returns (n: nat, ok: bool)
      requires gate.Valid()
      modifies gate.Footprint(), gate.peer`closed, stream
      ensures gate.Valid() && gate.turn == old(gate.turn) + 1 && gate.seen == old(gate.seen) + [old(Now())]
      ensures n <= |data| && stream.written == old(stream.written) + data[..n]
      ensures !gate.Passes(old(gate.turn)) ==>
                && n == 0 && !ok && Closed(gate.peer)
                && stream.calls == old(stream.calls) && stream.refusals == old(stream.refusals)
      ensures gate.Passes(old(gate.turn)) ==>
                && gate.peer.closed == old(gate.peer.closed) && stream.calls == old(stream.calls) + 1
                && stream.refusals == old(stream.refusals) + (if !ok || (n == 0 && data != []) then 1 else 0)
                && (stream.healthy ==> ok && (data != [] ==> n > 0))
    {
      var trusted := gate.Check(Now());
      if !trusted {
        return 0, false;
      }
      n, ok := stream.Write(data);
    }

    /** `writePayloadBytes`: retries after partial writes, gives up on an error or a write of nothing. */
    method WriteAll(data: Bytes, ghost from: nat, ghost first: nat) returns (ok: bool)
      requires gate.Valid() && stream != gate.peer.output
      requires Lockstep(gate, from, gate.turn, first, stream.calls) && gate.Holds(from)
      modifies gate.Footprint(), gate.peer`closed, stream
      ensures gate.Valid() && old(gate.seen) <= gate.seen
      ensures Lockstep(gate, from, gate.turn, first, stream.calls)
      ensures old(stream.written) <= stream.written <= old(stream.written) + data
      ensures ok ==> stream.written == old(stream.written) + data
      ensures gate.Holds(from) ==>
                && gate.peer.closed == old(gate.peer.closed) && (stream.healthy ==> ok)
                && stream.refusals == old(stream.refusals) + if ok then 0 else 1
      ensures !gate.Holds(from) ==>
                !ok && Frozen(gate, Now()) && Closed(gate.peer) && stream.refusals == old(stream.refusals)
    {
      hide PassesAs;
      ghost var before := gate.seen;
      var rest := data;
      while |rest| > 0
        invariant gate.Valid() && before <= gate.seen
        invariant |rest| <= |data| && rest == data[|data| - |rest|..]
        invariant stream.written == old(stream.written) + data[..|data| - |rest|]
        invariant Lockstep(gate, from, gate.turn, first, stream.calls) && gate.Holds(from)
        invariant gate.peer.closed == old(gate.peer.closed) && stream.refusals == old(stream.refusals)
      {
        var n, fine := Write(rest);
        ghost var done := |data| - |rest|;
        assert data[..done] + rest[..n] == data[..done + n];
        if n > 0 {
          rest := rest[n..];
        }
        if !fine {
          return false;
        }
        if n == 0 {
          return false;
        }
      }
      return true;
    }
  }
}
