/** The eye-tracking service of the stand-alone pipeline: it drains the
    published frames and, for each frame with a face, exactly two eyes and
    at least one circle in the left eye, appends the darkest circle's centre
    to the history of centres and steadies it with a five-point moving
    average. The colour conversion and every OpenCV detector are oracles. */
module EyeDetection {
  import opened Wrappers
  import opened CArith
  import opened FrameTransport
  import opened Geometry

  /** How many recent centres the steadied position averages. */
  const STABLE_WINDOW: nat := 5

  /** What the detectors report for one eye region: its equalised grey
      image and the circles found in it. */
  datatype EyeView = EyeView(image: seq<seq<byte>>, circles: seq<Circle>)

  /** What the detectors report for one frame: the faces, the eyes in the
      first face, and what they see in any eye rectangle they are asked
      about. */
  datatype Observation = Observation(faces: seq<Rect>, eyes: seq<Rect>, eyeView: Rect -> EyeView)

  /** The centre `eyeDetection` appends for one frame, if any. The circle's
      real coordinates are truncated to an integer point. None for no face,
      an eye count other than two, no circle, or (where the source would
      index the circle list with -1) no circle darker than the sentinel. */
  function EyeballCenter(obs: Observation): Option<Point>
  {
    if obs.faces == [] || |obs.eyes| != 2 then None
    else
      var view := obs.eyeView(obs.eyes[LeftEyeIndex(obs.eyes)]);
      if view.circles == [] then None
      else
        match DarkestCircle(view.image, view.circles)
        case None => None
        case Some(k) => Some(Point(Trunc(view.circles[k].cx), Trunc(view.circles[k].cy)))
  }

  /** The centre found in one examined message: only an accepted frame
      that converts is looked at. */
  function Found(v: Verdict, convert: (FrameMetadata, seq<byte>) -> bool,
                 observe: (FrameMetadata, seq<byte>) -> Observation): Option<Point>
  {
    if v.Accepted? && convert(v.meta, v.payload) then EyeballCenter(observe(v.meta, v.payload)) else None
  }

  function Listed(o: Option<Point>): seq<Point>
  {
    if o.Some? then [o.value] else []
  }

  /** The centres one drain of `inbox` appends, in order. */
  function NewCenters(inbox: seq<Part>, convert: (FrameMetadata, seq<byte>) -> bool,
                      observe: (FrameMetadata, seq<byte>) -> Observation): seq<Point>
    decreases |inbox|
  {
    if inbox == [] then []
    else
      var (v, rest) := Examine(inbox);
      Listed(Found(v, convert, observe)) + NewCenters(rest, convert, observe)
  }

  lemma AppendAssoc(a: seq<Point>, b: seq<Point>, c: seq<Point>)
    ensures a + (b + c) == (a + b) + c
  {
  }

  class EyeTracker {
    /** Whether both classifiers have been loaded (a static flag). */
    var initialized: bool
    /** The message parts waiting on the frame subscriber socket. */
    var inbox: seq<Part>
    /** Every eyeball centre found so far (the global `centers`). */
    var centers: seq<Point>
    /** The steadied eyeball position (the global `track_Eyeball`). */
    var track: Point

    constructor(pending: seq<Part>)
      ensures !initialized && inbox == pending && centers == [] && track == Point(0, 0)
    {
      initialized := false;
      inbox := pending;
      centers := [];
      track := Point(0, 0);
    }

    /** `eyeDetection`: returns early without a face or without exactly two
        eyes; otherwise picks the left eye, and when circles are found in
        it, appends the darkest one's centre and steadies the track. */
    method EyeDetection(obs: Observation)
      modifies this`centers, this`track
      ensures EyeballCenter(obs).None? ==> centers == old(centers) && track == old(track)
      ensures EyeballCenter(obs).Some? ==>
        centers == old(centers) + [EyeballCenter(obs).value] && track == Mean(Window(centers, STABLE_WINDOW))
    {
      if obs.faces == [] {
        return;
      }
      if |obs.eyes| != 2 {
        return;
      }
      var index := DetectLeftEye(obs.eyes);
      var view := obs.eyeView(obs.eyes[index]);
      if |view.circles| > 0 {
        var choice := EyeBallDetection(view.image, view.circles);
        match choice
        case None =>
        case Some(k) =>
          var eyeball := view.circles[k];
          var center := Point(Trunc(eyeball.cx), Trunc(eyeball.cy));
          centers := centers + [center];
          center := MakeStable(centers, STABLE_WINDOW);
          track := center;
      }
    }

    /** `eyeDetectionService`: loads the face and then the eye classifier
        unless already loaded, returning on the first failure, then drains
        the queue. */
    method Serve(faceLoadOk: bool, eyeLoadOk: bool, convert: (FrameMetadata, seq<byte>) -> bool,
                 observe: (FrameMetadata, seq<byte>) -> Observation)
      modifies this
      ensures !old(initialized) && !(faceLoadOk && eyeLoadOk) ==>
        !initialized && inbox == old(inbox) && centers == old(centers) && track == old(track)
      ensures old(initialized) || (faceLoadOk && eyeLoadOk) ==>
        initialized && inbox == [] && centers == old(centers) + NewCenters(old(inbox), convert, observe)
      ensures (old(initialized) || (faceLoadOk && eyeLoadOk)) && NewCenters(old(inbox), convert, observe) == [] ==>
        track == old(track)
      ensures (old(initialized) || (faceLoadOk && eyeLoadOk)) && NewCenters(old(inbox), convert, observe) != [] ==>
        track == Mean(Window(centers, STABLE_WINDOW))
    {
      if !initialized {
        if !faceLoadOk {
          return;
        }
        if !eyeLoadOk {
          return;
        }
        initialized := true;
      }
      Drain(convert, observe);
    }

    /** The handling of one examined message: the detection runs on an
        accepted frame that converts. */
    method Handle(v: Verdict, convert: (FrameMetadata, seq<byte>) -> bool, observe: (FrameMetadata, seq<byte>) -> Observation)
      modifies this`centers, this`track
      ensures centers == old(centers) + Listed(Found(v, convert, observe))
      ensures Found(v, convert, observe).None? ==> track == old(track)
      ensures Found(v, convert, observe).Some? ==> track == Mean(Window(centers, STABLE_WINDOW))
    {
      if v.Accepted? && convert(v.meta, v.payload) {
        EyeDetection(observe(v.meta, v.payload));
      }
    }

    /** The receive loop: examines message after message until the queue
        is empty, and runs the detection on every frame that passes the
        checks and converts. */
    method Drain(convert: (FrameMetadata, seq<byte>) -> bool, observe: (FrameMetadata, seq<byte>) -> Observation)
      modifies this`inbox, this`centers, this`track
      ensures inbox == [] && centers == old(centers) + NewCenters(old(inbox), convert, observe)
      ensures NewCenters(old(inbox), convert, observe) == [] ==> track == old(track)
      ensures NewCenters(old(inbox), convert, observe) != [] ==> track == Mean(Window(centers, STABLE_WINDOW))
    {
      while inbox != []
        invariant old(centers) + NewCenters(old(inbox), convert, observe) == centers + NewCenters(inbox, convert, observe)
        invariant |centers| >= |old(centers)|
        invariant |centers| == |old(centers)| ==> track == old(track)
        invariant |centers| > |old(centers)| ==> track == Mean(Window(centers, STABLE_WINDOW))
        decreases |inbox|
      {
        var (v, rest) := Examine(inbox);
        ghost var found := Listed(Found(v, convert, observe));
        ghost var previous := centers;
        assert NewCenters(inbox, convert, observe) == found + NewCenters(rest, convert, observe);
        inbox := rest;
        Handle(v, convert, observe);
        assert found == [] ==> centers == previous;
        AppendAssoc(previous, found, NewCenters(rest, convert, observe));
      }
      assert centers + NewCenters(inbox, convert, observe) == centers;
    }
  }
}

/** What the eye tracker promises across frames. */
module EyeDetectionFacts {
  import opened Wrappers
  import opened CArith
  import opened FrameTransport
  import FrameTransportFacts
  import opened Geometry
  import GeometryFacts
  import opened EyeDetection

  /** A well-formed YUYV frame is handed to the detectors, and its eyeball
      centre (if one is found) is appended before anything later parts
      give. */
  lemma PublishedFrameTracked(m: FrameMetadata, pad: seq<byte>, payload: seq<byte>, later: seq<Part>,
                              convert: (FrameMetadata, seq<byte>) -> bool, observe: (FrameMetadata, seq<byte>) -> Observation)
    requires Representable(m) && |pad| == 4 && m.format == YUYV && |payload| == m.dataSize
    requires convert(m, payload)
    ensures NewCenters(Publish(m, pad, payload) + later, convert, observe)
      == Listed(EyeballCenter(observe(m, payload))) + NewCenters(later, convert, observe)
  {
    FrameTransportFacts.PublishedFrameAccepted(m, pad, payload, later);
  }

  /** The steadied track lies within the bounding box of the last five
      centres. */
  lemma TrackWithinRecentCenters(centers: seq<Point>, lo: Point, hi: Point)
    requires centers != []
    requires forall i :: |centers| - |Window(centers, STABLE_WINDOW)| <= i < |centers| ==>
      lo.x <= centers[i].x <= hi.x && lo.y <= centers[i].y <= hi.y
    ensures var t := Mean(Window(centers, STABLE_WINDOW));
      lo.x <= t.x <= hi.x && lo.y <= t.y <= hi.y
  {
    var w := Window(centers, STABLE_WINDOW);
    WindowIsSuffix(centers, STABLE_WINDOW);
    var first := |centers| - |w|;
    assert forall i :: 0 <= i < |w| ==> w[i] == centers[first + i];
    GeometryFacts.MeanInBox(w, lo, hi);
  }

  /** When the eye rests at one point for five frames, the track is exactly
      that point. */
  lemma SteadyEyeTracked(centers: seq<Point>, c: Point)
    requires |centers| >= STABLE_WINDOW
    requires forall i :: |centers| - STABLE_WINDOW <= i < |centers| ==> centers[i] == c
    ensures Mean(Window(centers, STABLE_WINDOW)) == c
  {
    TrackWithinRecentCenters(centers, c, c);
  }
}
