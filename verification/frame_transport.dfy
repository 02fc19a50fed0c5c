/** The two-part frame message between the capture service and the
    detectors: a fixed-size `FrameMetadata` header copied byte for byte,
    then the raw YUYV payload; and the checks a detector applies, in order,
    to each message it receives. */
module FrameTransport {
  import opened Wrappers
  import opened CArith

  /** `V4L2_PIX_FMT_YUYV`, the four-character code 'Y','U','Y','V' read as
      a little-endian 32-bit word. */
  const YUYV: uint32 := 0x5659_5559
  /** `sizeof(FrameMetadata)` on a 64-bit target: two `int`s, a `uint32_t`,
      four bytes of padding and a `size_t`. */
  const METADATA_SIZE: nat := 24
  const UINT64_LIMIT: int := 0x1_0000_0000_0000_0000

  datatype FrameMetadata = FrameMetadata(width: int, height: int, format: uint32, dataSize: nat)

  predicate Representable(m: FrameMetadata)
  {
    InInt32(m.width) && InInt32(m.height) && m.dataSize < UINT64_LIMIT
  }

  function Pow256(n: nat): (p: nat)
    ensures p >= 1
  {
    if n == 0 then 1 else 256 * Pow256(n - 1)
  }

  /** The `n` bytes of `v`, least significant first. */
  function LeBytes(v: nat, n: nat): (b: seq<byte>)
    ensures |b| == n
  {
    if n == 0 then [] else [v % 256] + LeBytes(v / 256, n - 1)
  }

  /** The value of little-endian bytes. */
  function LeValue(b: seq<byte>): nat
  {
    if b == [] then 0 else b[0] + 256 * LeValue(b[1..])
  }

  /** The header as `memcpy` copies it; `pad` stands for the four padding
      bytes, whose contents the source leaves unspecified. */
  function EncodeMetadata(m: FrameMetadata, pad: seq<byte>): (b: seq<byte>)
    requires Representable(m) && |pad| == 4
    ensures |b| == METADATA_SIZE
  {
    LeBytes(Int32ToUint32(m.width), 4) + LeBytes(Int32ToUint32(m.height), 4)
      + LeBytes(m.format, 4) + pad + LeBytes(m.dataSize, 8)
  }

  /** The receiver's size check and `memcpy` into a `FrameMetadata`. */
  function DecodeMetadata(b: seq<byte>): (r: Option<FrameMetadata>)
    ensures r.Some? <==> |b| == METADATA_SIZE
  {
    if |b| != METADATA_SIZE then None
    else
      var w := LeValue(b[0..4]);
      var h := LeValue(b[4..8]);
      var f := LeValue(b[8..12]);
      LeBytesBound(b[0..4]);
      LeBytesBound(b[4..8]);
      LeBytesBound(b[8..12]);
      Some(FrameMetadata(Uint32ToInt32(w), Uint32ToInt32(h), f, LeValue(b[16..24])))
  }

  /** Little-endian bytes denote a value below 256 to their count. */
  lemma {:induction false} LeValueBound(b: seq<byte>)
    ensures LeValue(b) < Pow256(|b|)
  {
    if b != [] {
      LeValueBound(b[1..]);
    }
  }

  lemma LeBytesBound(b: seq<byte>)
    requires |b| == 4
    ensures LeValue(b) < UINT32_LIMIT
  {
    LeValueBound(b);
    assert Pow256(4) == UINT32_LIMIT;
  }

  /** One message part as a non-blocking receive yields it. */
  datatype Part = Part(data: seq<byte>, more: bool)

  /** Why a detector skipped a message, or the frame it accepted. */
  datatype Verdict =
    | MissingMore
    | BadHeaderSize
    | BadFormat(format: uint32)
    | NoPayload
    | BadPayloadSize(expected: nat, received: nat)
    | Accepted(meta: FrameMetadata, payload: seq<byte>)

  /** One pass of a detector's receive loop over a non-empty queue: the
      verdict and the parts left unread. The checks come in the order the
      loop applies them; after a format rejection the payload part stays
      in the queue. */
  function Examine(inbox: seq<Part>): (r: (Verdict, seq<Part>))
    requires inbox != []
    ensures |r.1| < |inbox| && r.1 == inbox[|inbox| - |r.1|..]
    ensures r.0.Accepted? ==> |r.1| == |inbox| - 2
    ensures !r.0.Accepted? && !r.0.BadPayloadSize? ==> |r.1| == |inbox| - 1
  {
    var header := inbox[0];
    var rest := inbox[1..];
    if !header.more then (MissingMore, rest)
    else
      match DecodeMetadata(header.data)
      case None => (BadHeaderSize, rest)
      case Some(m) =>
        if m.format != YUYV then (BadFormat(m.format), rest)
        else if rest == [] then (NoPayload, rest)
        else if |rest[0].data| != m.dataSize then (BadPayloadSize(m.dataSize, |rest[0].data|), rest[1..])
        else (Accepted(m, rest[0].data), rest[1..])
  }

  /** The frames a receive loop accepts from a queue, in order. */
  function AcceptedFrames(inbox: seq<Part>): (r: seq<(FrameMetadata, seq<byte>)>)
    ensures 2 * |r| <= |inbox|
    decreases |inbox|
  {
    if inbox == [] then []
    else
      var (v, rest) := Examine(inbox);
      if v.Accepted? then [(v.meta, v.payload)] + AcceptedFrames(rest) else AcceptedFrames(rest)
  }

  /** The two parts the capture service publishes for one frame. */
  function Publish(m: FrameMetadata, pad: seq<byte>, payload: seq<byte>): seq<Part>
    requires Representable(m) && |pad| == 4
  {
    [Part(EncodeMetadata(m, pad), true), Part(payload, false)]
  }
}

/** Facts about the header encoding and the receive checks. */
module FrameTransportFacts {
  import opened Wrappers
  import opened CArith
  import opened FrameTransport

  lemma {:induction false} LeRoundTrip(v: nat, n: nat)
    requires v < Pow256(n)
    ensures LeValue(LeBytes(v, n)) == v
  {
    if n > 0 {
      LeRoundTrip(v / 256, n - 1);
    }
  }

  /** The receiver reads back the header the sender copied, whatever the
      padding bytes were. */
  lemma MetadataRoundTrip(m: FrameMetadata, pad: seq<byte>)
    requires Representable(m) && |pad| == 4
    ensures DecodeMetadata(EncodeMetadata(m, pad)) == Some(m)
  {
    var b := EncodeMetadata(m, pad);
    var w, h, f := Int32ToUint32(m.width), Int32ToUint32(m.height), m.format;
    assert Pow256(4) == UINT32_LIMIT;
    assert Pow256(8) == UINT64_LIMIT;
    LeRoundTrip(w, 4);
    LeRoundTrip(h, 4);
    LeRoundTrip(f, 4);
    LeRoundTrip(m.dataSize, 8);
    assert b[0..4] == LeBytes(w, 4);
    assert b[4..8] == LeBytes(h, 4);
    assert b[8..12] == LeBytes(f, 4);
    assert b[16..24] == LeBytes(m.dataSize, 8);
  }

  /** A YUYV frame published with a payload of the announced length is
      accepted as it was sent, and nothing else is consumed. */
  lemma PublishedFrameAccepted(m: FrameMetadata, pad: seq<byte>, payload: seq<byte>, later: seq<Part>)
    requires Representable(m) && |pad| == 4 && m.format == YUYV && |payload| == m.dataSize
    ensures Examine(Publish(m, pad, payload) + later) == (Accepted(m, payload), later)
  {
    MetadataRoundTrip(m, pad);
    var q := Publish(m, pad, payload) + later;
    assert q[0] == Part(EncodeMetadata(m, pad), true);
    assert q[1..][0] == Part(payload, false);
    assert q[1..][1..] == later;
  }

  /** After a format rejection the payload part is the next one examined:
      it is taken as a header, and, lacking the more flag, rejected too. */
  lemma BadFormatPayloadTakenAsHeader(m: FrameMetadata, pad: seq<byte>, payload: seq<byte>, later: seq<Part>)
    requires Representable(m) && |pad| == 4 && m.format != YUYV
    ensures Examine(Publish(m, pad, payload) + later) == (BadFormat(m.format), [Part(payload, false)] + later)
    ensures Examine([Part(payload, false)] + later) == (MissingMore, later)
  {
    MetadataRoundTrip(m, pad);
    var q := Publish(m, pad, payload) + later;
    assert q[0] == Part(EncodeMetadata(m, pad), true);
    assert q[1..] == [Part(payload, false)] + later;
    assert ([Part(payload, false)] + later)[1..] == later;
  }

  /** A frame whose payload is shorter or longer than announced is dropped
      and the following frame is still processed. */
  lemma ShortPayloadSkipped(m1: FrameMetadata, p1: seq<byte>, m2: FrameMetadata, p2: seq<byte>, pad: seq<byte>)
    requires Representable(m1) && Representable(m2) && |pad| == 4
    requires m1.format == YUYV && m2.format == YUYV
    requires |p1| != m1.dataSize && |p2| == m2.dataSize
    ensures AcceptedFrames(Publish(m1, pad, p1) + Publish(m2, pad, p2)) == [(m2, p2)]
  {
    MetadataRoundTrip(m1, pad);
    var q := Publish(m1, pad, p1) + Publish(m2, pad, p2);
    assert q[0] == Part(EncodeMetadata(m1, pad), true);
    assert q[1..][0] == Part(p1, false);
    assert q[1..][1..] == Publish(m2, pad, p2);
    assert Examine(q) == (BadPayloadSize(m1.dataSize, |p1|), Publish(m2, pad, p2));
    PublishedFrameAccepted(m2, pad, p2, []);
    assert Publish(m2, pad, p2) + [] == Publish(m2, pad, p2);
    assert AcceptedFrames(Publish(m2, pad, p2)) == [(m2, p2)] + AcceptedFrames([]);
  }

  /** A stream of well-formed published frames is accepted frame for frame. */
  lemma {:induction false} PublishedStreamAccepted(ms: seq<FrameMetadata>, ps: seq<seq<byte>>, pad: seq<byte>)
    requires |ms| == |ps| && |pad| == 4
    requires forall i :: 0 <= i < |ms| ==> Representable(ms[i]) && ms[i].format == YUYV && |ps[i]| == ms[i].dataSize
    ensures AcceptedFrames(Stream(ms, ps, pad)) == seq(|ms|, i requires 0 <= i < |ms| => (ms[i], ps[i]))
  {
    if ms != [] {
      var tail := Stream(ms[1..], ps[1..], pad);
      PublishedFrameAccepted(ms[0], pad, ps[0], tail);
      PublishedStreamAccepted(ms[1..], ps[1..], pad);
    }
  }

  function Stream(ms: seq<FrameMetadata>, ps: seq<seq<byte>>, pad: seq<byte>): seq<Part>
    requires |ms| == |ps| && |pad| == 4
    requires forall i :: 0 <= i < |ms| ==> Representable(ms[i])
  {
    if ms == [] then [] else Publish(ms[0], pad, ps[0]) + Stream(ms[1..], ps[1..], pad)
  }
}
