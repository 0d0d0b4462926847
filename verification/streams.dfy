/** Byte streams that split their data as they please, as `io.Reader` and `io.Writer` may. */
module Streams {
  import opened Outcomes

  type byte = n: int | 0 <= n < 256

  type Bytes = seq<byte>

  /** How a stream ends once its data is used up. */
  datatype End = EndOfFile | Broken

  /** `io.ReadFull`'s outcomes: the buffer was filled, or the data ran out. */
  datatype Fill = Filled | Empty | Short | Failed

  class ByteReader {
    /** The data not delivered yet. */
    var remaining: Bytes
    /** What follows the data. */
    const end: End
    /** How often `Read` may still return nothing without an error. */
    var pauses: nat
    /** How often `Read` was called. */
    var calls: nat

    constructor (data: Bytes, end: End, pauses: nat)
      ensures remaining == data && this.end == end && this.pauses == pauses && calls == 0
    {
      remaining, this.end, this.pauses, calls := data, end, pauses, 0;
    }

    /**
     One `Read` into `buffer[from..to]`: any number of the next bytes, with the end of the
     stream reported together with the last bytes or after them.
     */
    method Read(buffer: array<byte>, from: nat, to: nat) returns (n: nat, stop: Option<End>)
      requires from < to <= buffer.Length
      modifies this, buffer
      ensures n <= to - from && n <= |old(remaining)| && remaining == old(remaining)[n..]
      ensures buffer[..from + n] == old(buffer[..from]) + old(remaining)[..n]
      ensures stop.Some? ==> remaining == [] && stop.value == end
      ensures stop.None? ==> n > 0 || pauses < old(pauses)
      ensures pauses <= old(pauses) && calls == old(calls) + 1
    {
      calls := calls + 1;
      var late: bool :| true;
      n :| n <= to - from && n <= |remaining|;
      if n == 0 {
        if remaining == [] && !late {
          return 0, Some(end);
        } else if pauses > 0 {
          pauses := pauses - 1;
          return 0, None;
        } else if remaining == [] {
          return 0, Some(end);
        }
        n := 1;
      }
      for i := 0 to n
        invariant remaining == old(remaining)
        invariant pauses == old(pauses) && calls == old(calls) + 1
        invariant buffer[..from + i] == old(buffer[..from]) + remaining[..i]
      {
        buffer[from + i] := remaining[i];
      }
      remaining := remaining[n..];
      stop := if remaining == [] && late then Some(end) else None;
    }

    /** `io.ReadFull` of `want` bytes: the result depends only on the data, not on the splits. */
    method ReadFull(buffer: array<byte>, want: nat) returns (n: nat, fill: Fill)
      requires want <= buffer.Length
      modifies this, buffer
      ensures n == if want <= |old(remaining)| then want else |old(remaining)|
      ensures remaining == old(remaining)[n..] && buffer[..n] == old(remaining)[..n]
      ensures fill == if n == want then Filled
                      else if end == Broken then Failed
                      else if n == 0 then Empty
                      else Short
    {
      ghost var data := remaining;
      n := 0;
      var stop: Option<End> := None;
      while n < want && stop.None?
        invariant n <= want && n <= |data| && remaining == data[n..] && buffer[..n] == data[..n]
        invariant stop.Some? ==> n == |data| && stop.value == end
        decreases want - n, pauses, stop.None?
      {
        var more;
        more, stop := Read(buffer, n, want);
        assert data[..n] + data[n..][..more] == data[..n + more];
        n := n + more;
      }
      fill := if n >= want then Filled
              else if stop == Some(Broken) then Failed
              else if n == 0 then Empty
              else Short;
    }
  }

  class ByteWriter {
    /** Everything written so far. */
    var written: Bytes
    /** Whether every write makes progress and none fails. */
    const healthy: bool
    /** How often `Write` was called. */
    var calls: nat
    /** How many of these calls failed or wrote nothing of something. */
    var refusals: nat

    constructor (healthy: bool)
      ensures written == [] && this.healthy == healthy && calls == 0 && refusals == 0
    {
      written, this.healthy, calls, refusals := [], healthy, 0, 0;
    }

    /** One `Write`: some prefix of the data goes out, and the call may fail. */
    method Write(data: Bytes) returns (n: nat, ok: bool)
      modifies this
      ensures n <= |data| && written == old(written) + data[..n] && calls == old(calls) + 1
      ensures refusals == old(refusals) + if !ok || (n == 0 && data != []) then 1 else 0
      ensures healthy ==> ok && (data != [] ==> n > 0)
    {
      calls := calls + 1;
      n :| n <= |data|;
      ok :| true;
      if healthy {
        ok := true;
        if n == 0 && data != [] {
          n := 1;
        }
      }
      written := written + data[..n];
      if !ok || (n == 0 && data != []) {
        refusals := refusals + 1;
      }
    }

    /** `writeFrameBytes`: retries after partial writes and gives up on an error or a write of nothing. */
    method WriteAll(data: Bytes) returns (ok: bool)
      modifies this
      ensures old(written) <= written <= old(written) + data
      ensures ok ==> written == old(written) + data
      ensures refusals == old(refusals) + if ok then 0 else 1
      ensures healthy ==> ok
    {
      var rest := data;
      while |rest| > 0
        invariant |rest| <= |data| && rest == data[|data| - |rest|..]
        invariant written == old(written) + data[..|data| - |rest|]
        invariant refusals == old(refusals)
      {
        var n, fine := Write(rest);
        ghost var done := |data| - |rest|;
        assert data[..done] + rest[..n] == data[..done + n];
        if n > 0 {
          rest := rest[n..];
        }
        if !fine {
          return false;
        }
        if n == 0 {
          return false;
        }
      }
      return true;
    }
  }
}
