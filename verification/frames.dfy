/** Length-prefixed frames: four big-endian length bytes, then the payload. */
module Frames {
  import opened Outcomes
  import opened Streams

  const MaxFrameSize := 0x10_0000

  /** `binary.BigEndian.PutUint32`. */
  function Header(n: nat): Bytes
    requires n < 0x1_0000_0000
  {
    [n / 0x100_0000, n / 0x1_0000 % 0x100, n / 0x100 % 0x100, n % 0x100]
  }

  /** `binary.BigEndian.Uint32`. */
  function HeaderValue(b: Bytes): nat
    requires |b| == 4
  {
    b[0] as int * 0x100_0000 + b[1] as int * 0x1_0000 + b[2] as int * 0x100 + b[3] as int
  }

  lemma {:induction false} HeaderRoundTrip(n: nat)
    requires n < 0x1_0000_0000
    ensures |Header(n)| == 4 && HeaderValue(Header(n)) == n
  {
    var (low, mid, high) := (n % 0x100, n / 0x100 % 0x100, n / 0x1_0000 % 0x100);
    var top := n / 0x100_0000;
    assert n / 0x1_0000 == top * 0x100 + high;
    assert n / 0x100 == (top * 0x100 + high) * 0x100 + mid;
    assert Header(n) == [top, high, mid, low];
  }

  /** A payload one frame can carry. */
  predicate Sendable(payload: Bytes)
  {
    0 < |payload| <= MaxFrameSize
  }

  function Frame(payload: Bytes): Bytes
    requires Sendable(payload)
  {
    Header(|payload|) + payload
  }

  datatype FrameError = BoundOutOfRange | HeaderTruncated | SizeOutOfRange | PayloadTruncated

  /** A read frame and what follows it, or the reason for refusal and what is left unread. */
  datatype Parsed = Payload(payload: Bytes, rest: Bytes) | Refused(error: FrameError, rest: Bytes)

  function ParseFrame(stream: Bytes, maxSize: int): Parsed
  {
    if maxSize <= 0 || maxSize > MaxFrameSize then Refused(BoundOutOfRange, stream)
    else if |stream| < 4 then Refused(HeaderTruncated, [])
    else
      var size := HeaderValue(stream[..4]);
      if size == 0 || size > MaxFrameSize || size > maxSize then Refused(SizeOutOfRange, stream[4..])
      else if |stream| < 4 + size then Refused(PayloadTruncated, [])
      else Payload(stream[4..4 + size], stream[4 + size..])
  }

  /** Writes one frame; an unsendable payload writes nothing. */
  method WriteFrame(w: ByteWriter, payload: Bytes) returns (ok: bool)
    modifies w
    ensures ok ==> Sendable(payload) && w.written == old(w.written) + Frame(payload)
    ensures Sendable(payload) ==> old(w.written) <= w.written <= old(w.written) + Frame(payload)
    ensures !Sendable(payload) ==> w.written == old(w.written)
    ensures w.healthy && Sendable(payload) ==> ok
  {
    if |payload| == 0 || |payload| > MaxFrameSize {
      return false;
    }
    ok := w.WriteAll(Header(|payload|));
    if !ok {
      return;
    }
    ok := w.WriteAll(payload);
    assert old(w.written) + Frame(payload) == old(w.written) + Header(|payload|) + payload;
  }

  /** Reads one frame of at most `maxSize` bytes, consuming exactly what `ParseFrame` says. */
  method ReadFrame(r: ByteReader, maxSize: int) returns (frame: Result<Bytes, FrameError>)
    modifies r
    ensures match ParseFrame(old(r.remaining), maxSize)
            case Payload(payload, rest) => frame == Success(payload) && r.remaining == rest
            case Refused(error, rest) => frame == Failure(error) && r.remaining == rest
  {
    if maxSize <= 0 || maxSize > MaxFrameSize {
      return Failure(BoundOutOfRange);
    }
    ghost var stream := r.remaining;
    var header := new byte[4];
    var n, fill := r.ReadFull(header, 4);
    if fill != Filled {
      return Failure(HeaderTruncated);
    }
    var size := HeaderValue(header[..4]);
    if size == 0 || size > MaxFrameSize || size > maxSize {
      return Failure(SizeOutOfRange);
    }
    var payload := new byte[size];
    n, fill := r.ReadFull(payload, size);
    if fill != Filled {
      return Failure(PayloadTruncated);
    }
    assert stream[4..][..size] == stream[4..4 + size] && stream[4..][size..] == stream[4 + size..];
    return Success(payload[..size]);
  }

  function EncodeFrames(payloads: seq<Bytes>): Bytes
    requires forall p | p in payloads :: Sendable(p)
  {
    if payloads == [] then [] else Frame(payloads[0]) + EncodeFrames(payloads[1..])
  }

  /** Reads one frame per bound; `None` when any of them is refused. */
  function ParseFrames(stream: Bytes, bounds: seq<int>): Option<(seq<Bytes>, Bytes)>
  {
    if bounds == [] then Some(([], stream))
    else
      match ParseFrame(stream, bounds[0])
      case Refused(_, _) => None
      case Payload(payload, rest) =>
        match ParseFrames(rest, bounds[1..])
        case None => None
        case Some((more, after)) => Some(([payload] + more, after))
  }

  /** Reading back one frame, with anything behind it, gives exactly its payload and the rest. */
  lemma {:induction false} FrameRoundTrip(payload: Bytes, maxSize: int, tail: Bytes)
    requires Sendable(payload) && |payload| <= maxSize <= MaxFrameSize
    ensures ParseFrame(Frame(payload) + tail, maxSize) == Payload(payload, tail)
  {
    HeaderRoundTrip(|payload|);
    var stream := Frame(payload) + tail;
    assert stream[..4] == Header(|payload|);
    assert stream[4..4 + |payload|] == payload && stream[4 + |payload|..] == tail;
  }

  ghost predicate Admits(bounds: seq<int>, payloads: seq<Bytes>)
  {
    |bounds| == |payloads|
    && forall i | 0 <= i < |payloads| :: Sendable(payloads[i]) && |payloads[i]| <= bounds[i] <= MaxFrameSize
  }

  /** Any list of sendable payloads survives the wire, and nothing behind it is touched. */
  lemma {:induction false} FramesRoundTrip(payloads: seq<Bytes>, bounds: seq<int>, tail: Bytes)
    requires Admits(bounds, payloads)
    ensures ParseFrames(EncodeFrames(payloads) + tail, bounds) == Some((payloads, tail))
  {
    hide Frame, ParseFrame, Sendable;
    if payloads == [] {
      assert [] + tail == tail;
    } else {
      var (first, more) := (payloads[0], EncodeFrames(payloads[1..]));
      FrameRoundTrip(first, bounds[0], more + tail);
      FramesRoundTrip(payloads[1..], bounds[1..], tail);
      assert EncodeFrames(payloads) + tail == Frame(first) + (more + tail);
      assert [first] + payloads[1..] == payloads;
    }
  }

  /** A cut anywhere inside the encoding is noticed: no proper prefix reads as the whole list. */
  lemma {:induction false} TruncationIsRefused(payloads: seq<Bytes>, bounds: seq<int>, cut: nat)
    requires Admits(bounds, payloads) && cut < |EncodeFrames(payloads)|
    ensures ParseFrames(EncodeFrames(payloads)[..cut], bounds) == None
  {
    var first, more := Frame(payloads[0]), EncodeFrames(payloads[1..]);
    var stream := EncodeFrames(payloads)[..cut];
    HeaderRoundTrip(|payloads[0]|);
    if cut < |first| {
      if cut >= 4 {
        assert stream[..4] == Header(|payloads[0]|);
      }
    } else {
      assert stream == first + more[..cut - |first|];
      FrameRoundTrip(payloads[0], bounds[0], more[..cut - |first|]);
      TruncationIsRefused(payloads[1..], bounds[1..], cut - |first|);
    }
  }

  /** A declared size above the bound fails after the four header bytes, however much follows. */
  lemma {:induction false} OversizeStopsAfterHeader(size: nat, maxSize: int, tail: Bytes)
    requires 0 < maxSize <= MaxFrameSize && maxSize < size < 0x1_0000_0000
    ensures ParseFrame(Header(size) + tail, maxSize) == Refused(SizeOutOfRange, tail)
  {
    HeaderRoundTrip(size);
    assert (Header(size) + tail)[..4] == Header(size) && (Header(size) + tail)[4..] == tail;
  }

  /** The number that bytes denote in base 256, most significant digit first. */
  function BigEndian(b: Bytes): nat
  {
    if b == [] then 0 else BigEndian(b[..|b| - 1]) * 256 + b[|b| - 1] as int
  }

  lemma {:induction false} BigEndianOfFour(b: Bytes)
    requires |b| == 4
    ensures BigEndian(b) == HeaderValue(b)
  {
    assert b[..3][..2] == b[..2] && b[..2][..1] == b[..1] && b[..1][..0] == [];
    assert BigEndian(b[..1]) == b[0] as int;
    assert BigEndian(b[..2]) == b[0] as int * 256 + b[1] as int;
    assert BigEndian(b[..3]) == (b[0] as int * 256 + b[1] as int) * 256 + b[2] as int;
  }

  lemma {:induction false} DigitsAreUnique(a: Bytes, b: Bytes)
    requires |a| == |b| && BigEndian(a) == BigEndian(b)
    ensures a == b
  {
    if a != [] {
      var n := |a| - 1;
      DigitsAreUnique(a[..n], b[..n]);
      assert a == a[..n] + [a[n]] && b == b[..n] + [b[n]];
    }
  }

  /** The header is the length in base 256, most significant digit first, and no other four bytes denote it. */
  lemma {:induction false} HeaderIsBigEndian(n: nat, b: Bytes)
    requires n < 0x1_0000_0000 && |b| == 4
    ensures b == Header(n) <==> BigEndian(b) == n
  {
    hide Header;
    HeaderRoundTrip(n);
    BigEndianOfFour(b);
    BigEndianOfFour(Header(n));
    if BigEndian(b) == n {
      DigitsAreUnique(b, Header(n));
    }
  }

  /** Reading succeeds exactly when the stream begins with the frame of a payload within both bounds. */
  lemma {:induction false} ParseIff(stream: Bytes, maxSize: int, payload: Bytes, rest: Bytes)
    ensures ParseFrame(stream, maxSize) == Payload(payload, rest)
       <==> && 0 < maxSize <= 0x10_0000 && 0 < |payload| <= maxSize
            && stream == Header(|payload|) + payload + rest
  {
    hide Header;
    if ParseFrame(stream, maxSize) == Payload(payload, rest) {
      BigEndianOfFour(stream[..4]);
      HeaderIsBigEndian(|payload|, stream[..4]);
      assert stream == stream[..4] + stream[4..4 + |payload|] + stream[4 + |payload|..];
    }
    if 0 < maxSize <= 0x10_0000 && 0 < |payload| <= maxSize && stream == Header(|payload|) + payload + rest {
      assert Frame(payload) == Header(|payload|) + payload;
      FrameRoundTrip(payload, maxSize, rest);
    }
  }

  /** A refused frame costs nothing with a bad bound, its header with a bad size, and all with too few bytes. */
  lemma {:induction false} RefusalLeaves(stream: Bytes, maxSize: int)
    requires ParseFrame(stream, maxSize).Refused?
    ensures var rest := ParseFrame(stream, maxSize).rest;
            if maxSize < 1 || maxSize > 0x10_0000 then rest == stream
            else if |stream| < 4 then rest == []
            else
              var size := BigEndian(stream[..4]);
              if size < 1 || size > maxSize then rest == stream[4..] else |stream| < 4 + size && rest == []
  {
    if |stream| >= 4 {
      BigEndianOfFour(stream[..4]);
    }
  }
}
