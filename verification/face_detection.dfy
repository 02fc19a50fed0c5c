/** The face-centre service of the cursor pipeline: it drains the frames the
    capture service published, finds the first face in each, and pushes its
    centre as a "FaceCenter:<x>,<y>" text message. The subscriber queue is
    the sequence of message parts waiting; the push socket is the sequence of
    messages sent. The colour conversion and the cascade classifier are
    oracles over the accepted frame. */
module FaceDetection {
  import opened Wrappers
  import opened CArith
  import opened Decimal
  import opened FrameTransport
  import opened Geometry

  /** The size of the buffer the message is formatted into. */
  const MESSAGE_BUFFER_SIZE: nat := 50
  const MESSAGE_PREFIX: string := "FaceCenter:"

  /** The text pushed for a face centre. */
  function Message(c: Point): string
  {
    MESSAGE_PREFIX + JoinCommaInts([c.x, c.y])
  }

  /** The centre pushed for one examined message, if any: the frame must
      have been accepted and converted, and both coordinates of the centre
      must be non-negative (no face gives (-1,-1), which is not pushed). */
  function FrameCenter(v: Verdict, convert: (FrameMetadata, seq<byte>) -> bool,
                       detect: (FrameMetadata, seq<byte>) -> seq<Rect>): Option<Point>
  {
    if v.Accepted? && convert(v.meta, v.payload) then
      var c := FaceCenter(detect(v.meta, v.payload));
      if c.x >= 0 && c.y >= 0 then Some(c) else None
    else None
  }

  /** The centres one drain of `inbox` pushes, in order. */
  function SentCenters(inbox: seq<Part>, convert: (FrameMetadata, seq<byte>) -> bool,
                       detect: (FrameMetadata, seq<byte>) -> seq<Rect>): seq<Point>
    decreases |inbox|
  {
    if inbox == [] then []
    else
      var (v, rest) := Examine(inbox);
      match FrameCenter(v, convert, detect)
      case Some(c) => [c] + SentCenters(rest, convert, detect)
      case None => SentCenters(rest, convert, detect)
  }

  function Messages(cs: seq<Point>): seq<string>
  {
    if cs == [] then [] else [Message(cs[0])] + Messages(cs[1..])
  }

  /** The messages pushed for one examined message. */
  function Outgoing(o: Option<Point>): seq<string>
  {
    if o.Some? then [Message(o.value)] else []
  }

  lemma MessagesStep(inbox: seq<Part>, convert: (FrameMetadata, seq<byte>) -> bool,
                     detect: (FrameMetadata, seq<byte>) -> seq<Rect>)
    requires inbox != []
    ensures Messages(SentCenters(inbox, convert, detect))
      == Outgoing(FrameCenter(Examine(inbox).0, convert, detect)) + Messages(SentCenters(Examine(inbox).1, convert, detect))
  {
    var (v, rest) := Examine(inbox);
    match FrameCenter(v, convert, detect)
    case Some(c) =>
      var tail := SentCenters(rest, convert, detect);
      assert ([c] + tail)[1..] == tail;
    case None =>
  }

  lemma AppendAssoc(a: seq<string>, b: seq<string>, c: seq<string>)
    ensures a + (b + c) == (a + b) + c
  {
  }

  class FaceCenterService {
    /** Whether the face classifier has been loaded (a static flag shared by
        both entry points). */
    var initialized: bool
    /** The message parts waiting on the frame subscriber socket. */
    var inbox: seq<Part>
    /** The messages pushed so far. */
    var outbox: seq<string>

    constructor(pending: seq<Part>)
      ensures !initialized && inbox == pending && outbox == []
    {
      initialized := false;
      inbox := pending;
      outbox := [];
    }

    /** `initFaceCenterService`: loads the classifier unless it already is. */
    method Init(loadOk: bool)
      modifies this`initialized
      ensures initialized == (old(initialized) || loadOk)
    {
      if !initialized {
        if !loadOk {
          return;
        }
        initialized := true;
      }
    }

    /** `faceCenterDetectionService`: after loading the classifier if needed,
        drains the queue. A failed load returns before receiving anything. */
    method Serve(loadOk: bool, convert: (FrameMetadata, seq<byte>) -> bool,
                 detect: (FrameMetadata, seq<byte>) -> seq<Rect>)
      modifies this
      ensures !old(initialized) && !loadOk ==> !initialized && inbox == old(inbox) && outbox == old(outbox)
      ensures old(initialized) || loadOk ==>
        initialized && inbox == [] && outbox == old(outbox) + Messages(SentCenters(old(inbox), convert, detect))
    {
      if !initialized {
        if !loadOk {
          return;
        }
        initialized := true;
      }
      Drain(convert, detect);
    }

    /** The receive loop: examines message after message until the queue
        is empty. */
    method Drain(convert: (FrameMetadata, seq<byte>) -> bool, detect: (FrameMetadata, seq<byte>) -> seq<Rect>)
      modifies this`inbox, this`outbox
      ensures inbox == [] && outbox == old(outbox) + Messages(SentCenters(old(inbox), convert, detect))
    {
      while inbox != []
        invariant old(outbox) + Messages(SentCenters(old(inbox), convert, detect))
          == outbox + Messages(SentCenters(inbox, convert, detect))
        decreases |inbox|
      {
        var (v, rest) := Examine(inbox);
        MessagesStep(inbox, convert, detect);
        ghost var previous := outbox;
        inbox := rest;
        Handle(v, convert, detect);
        AppendAssoc(previous, Outgoing(FrameCenter(v, convert, detect)), Messages(SentCenters(rest, convert, detect)));
      }
      assert outbox + Messages(SentCenters(inbox, convert, detect)) == outbox;
    }

    /** The handling of one examined message: an accepted frame that
        converts has its face centre computed, and pushed when both
        coordinates are non-negative. */
    method Handle(v: Verdict, convert: (FrameMetadata, seq<byte>) -> bool, detect: (FrameMetadata, seq<byte>) -> seq<Rect>)
      modifies this`outbox
      ensures outbox == old(outbox) + Outgoing(FrameCenter(v, convert, detect))
    {
      if v.Accepted? && convert(v.meta, v.payload) {
        var faceCenter := FaceCenter(detect(v.meta, v.payload));
        if faceCenter.x >= 0 && faceCenter.y >= 0 {
          outbox := outbox + [Message(faceCenter)];
        }
      }
    }
  }
}

/** What the face-centre service sends and how a receiver reads it. */
module FaceDetectionFacts {
  import opened Wrappers
  import opened CArith
  import opened Decimal
  import DecimalRoundTrip
  import opened FrameTransport
  import FrameTransportFacts
  import opened Geometry
  import GeometryFacts
  import opened FaceDetection

  /** Every pushed centre has both coordinates non-negative. */
  lemma {:induction false} SentCentersNonNegative(inbox: seq<Part>, convert: (FrameMetadata, seq<byte>) -> bool,
                                                  detect: (FrameMetadata, seq<byte>) -> seq<Rect>)
    ensures forall i :: 0 <= i < |SentCenters(inbox, convert, detect)| ==>
      SentCenters(inbox, convert, detect)[i].x >= 0 && SentCenters(inbox, convert, detect)[i].y >= 0
    decreases |inbox|
  {
    if inbox != [] {
      var (v, rest) := Examine(inbox);
      SentCentersNonNegative(rest, convert, detect);
    }
  }

  /** At most one message is pushed per accepted frame. */
  lemma {:induction false} SentAtMostAccepted(inbox: seq<Part>, convert: (FrameMetadata, seq<byte>) -> bool,
                                             detect: (FrameMetadata, seq<byte>) -> seq<Rect>)
    ensures |SentCenters(inbox, convert, detect)| <= |AcceptedFrames(inbox)|
    decreases |inbox|
  {
    if inbox != [] {
      var (v, rest) := Examine(inbox);
      SentAtMostAccepted(rest, convert, detect);
    }
  }

  /** A well-formed YUYV frame showing a face inside the image has that
      face's centre pushed for it, before anything the later parts give. */
  lemma PublishedFaceSent(m: FrameMetadata, pad: seq<byte>, payload: seq<byte>, later: seq<Part>,
                          convert: (FrameMetadata, seq<byte>) -> bool, detect: (FrameMetadata, seq<byte>) -> seq<Rect>)
    requires Representable(m) && |pad| == 4 && m.format == YUYV && |payload| == m.dataSize
    requires convert(m, payload)
    requires var faces := detect(m, payload);
      faces != [] && faces[0].x >= 0 && faces[0].y >= 0 && faces[0].width >= 0 && faces[0].height >= 0
    ensures SentCenters(Publish(m, pad, payload) + later, convert, detect)
      == [FaceCenter(detect(m, payload))] + SentCenters(later, convert, detect)
  {
    FrameTransportFacts.PublishedFrameAccepted(m, pad, payload, later);
    GeometryFacts.FaceCenterOfVisibleFace(detect(m, payload));
  }

  /** A frame of another pixel format pushes nothing, and its payload part,
      read next as a header, pushes nothing either. */
  lemma BadFormatSendsNothing(m: FrameMetadata, pad: seq<byte>, payload: seq<byte>, later: seq<Part>,
                              convert: (FrameMetadata, seq<byte>) -> bool, detect: (FrameMetadata, seq<byte>) -> seq<Rect>)
    requires Representable(m) && |pad| == 4 && m.format != YUYV
    ensures SentCenters(Publish(m, pad, payload) + later, convert, detect) == SentCenters(later, convert, detect)
  {
    FrameTransportFacts.BadFormatPayloadTakenAsHeader(m, pad, payload, later);
    assert SentCenters([Part(payload, false)] + later, convert, detect) == SentCenters(later, convert, detect);
  }

  function Pow10(k: nat): (p: nat)
    ensures p >= 1
  {
    if k == 0 then 1 else 10 * Pow10(k - 1)
  }

  lemma {:induction false} NatToStringLength(n: nat, k: nat)
    requires k >= 1 && n < Pow10(k)
    ensures |NatToString(n)| <= k
  {
    if n >= 10 {
      NatToStringLength(n / 10, k - 1);
    }
  }

  /** Any pushed centre (coordinates in 0..INT32_MAX) fits the 50-byte
      buffer with its terminator, so the formatting never truncates. */
  lemma MessageFitsBuffer(c: Point)
    requires 0 <= c.x <= INT32_MAX && 0 <= c.y <= INT32_MAX
    ensures |Message(c)| < MESSAGE_BUFFER_SIZE
  {
    assert Pow10(10) == 10_000_000_000;
    NatToStringLength(c.x, 10);
    NatToStringLength(c.y, 10);
    assert JoinCommaInts([c.x, c.y]) == IntToString(c.x) + ("," + JoinCommaInts([c.y]));
  }

  /** A reader that skips the "FaceCenter:" prefix and scans two
      comma-separated integers gets the centre back. */
  lemma MessageRoundTrip(c: Point)
    ensures Message(c)[..|MESSAGE_PREFIX|] == MESSAGE_PREFIX
    ensures ScanCommaInts(Message(c)[|MESSAGE_PREFIX|..], 2) == [c.x, c.y]
  {
    DecimalRoundTrip.ScanJoinedInts([c.x, c.y], 2);
    assert Message(c)[|MESSAGE_PREFIX|..] == JoinCommaInts([c.x, c.y]);
  }
}
