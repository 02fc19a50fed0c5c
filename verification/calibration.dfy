/** The two calibration tools. Each walks the user through five head (or
    eye) positions, captures a point per position from the camera, and
    writes the six readings as a two-line CSV file that the cursor service
    loads. Camera frames, the detectors and key presses are inputs: a
    capture is given the events it sees, one per loop iteration. */
module Calibration {
  import opened Wrappers
  import opened CArith
  import opened Decimal
  import opened Geometry
  import opened EyeDetection

  const CAMERA_X: int := 640
  const CAMERA_Y: int := 480
  /** The keys that confirm a capture: carriage return, and for the eye
      tool also line feed. */
  const KEY_RETURN: int := 13
  const KEY_LINE_FEED: int := 10
  /** The point a skipped position records. */
  const SKIP_X: int := 320
  const SKIP_Y: int := 240
  /** How many recent eye centres the eye tool averages. */
  const EYE_STABLE_WINDOW: nat := 5
  /** The header line: the six column names separated by commas. */
  const CSV_HEADER: string := "straight_x" + "," + "straight_y" + "," + "left_x" + "," + "right_x" + "," + "top_y" + "," + "bottom_y"

  /** What one iteration of a capture loop sees: a frame (what the
      detectors report in it, and the key `waitKey` returned), or no frame
      (a failed read or an empty frame). */
  datatype Event<Seen> = Frame(seen: Seen, key: int) | NoFrame

  /** How a capture ended: a point was captured, the camera failed, or the
      events ran out while the loop was still waiting (the source would go
      on waiting). */
  datatype Status = Captured | Failed | Waiting

  /** The end of a capture and the two output variables after it. */
  datatype Capture = Capture(status: Status, x: int, y: int)

  predicate IsSkipKey(key: int)
  {
    key == 'q' as int || key == 'Q' as int
  }

  /** The acceptance test for a detected point: inside the camera image,
      edges included. */
  predicate InFrame(p: Point)
  {
    0 <= p.x <= CAMERA_X && 0 <= p.y <= CAMERA_Y
  }

  // ---------------------------------------------------------------- face tool

  /** `captureFaceCenter` from event `i` on: a missing frame ends it
      uncaptured; Enter with the face centre inside the image captures
      that centre; 'q' or 'Q' captures the skip point; anything else waits
      for the next frame. The outputs change only on a capture. */
  function FaceCaptureFrom(events: seq<Event<seq<Rect>>>, i: nat, x: int, y: int): Capture
    decreases |events| - i
  {
    if i >= |events| then Capture(Waiting, x, y)
    else
      match events[i]
      case NoFrame => Capture(Failed, x, y)
      case Frame(faces, key) =>
        var center := FaceCenter(faces);
        if key == KEY_RETURN && InFrame(center) then Capture(Captured, center.x, center.y)
        else if key != KEY_RETURN && IsSkipKey(key) then Capture(Captured, SKIP_X, SKIP_Y)
        else FaceCaptureFrom(events, i + 1, x, y)
  }

  function FaceCapture(events: seq<Event<seq<Rect>>>, x: int, y: int): Capture
  {
    FaceCaptureFrom(events, 0, x, y)
  }

  /** `captureFaceCenter`: reads frames until the camera fails, a point is
      accepted, or the position is skipped. `x` and `y` are the output
      variables' values before the call. */
  method CaptureFaceCenter(events: seq<Event<seq<Rect>>>, x: int, y: int) returns (r: Capture)
    ensures r == FaceCapture(events, x, y)
  {
    var i := 0;
    while i < |events|
      invariant 0 <= i <= |events|
      invariant FaceCaptureFrom(events, i, x, y) == FaceCapture(events, x, y)
      decreases |events| - i
    {
      match events[i]
      case NoFrame =>
        return Capture(Failed, x, y);
      case Frame(faces, key) =>
        var faceCenter := FaceCenter(faces);
        if key == KEY_RETURN {
          if InFrame(faceCenter) {
            return Capture(Captured, faceCenter.x, faceCenter.y);
          }
        } else if IsSkipKey(key) {
          return Capture(Captured, SKIP_X, SKIP_Y);
        }
      i := i + 1;
    }
    return Capture(Waiting, x, y);
  }

  /** The six readings, named as in the file header. */
  datatype Readings = Readings(straightX: int, straightY: int, leftX: int, rightX: int, topY: int, bottomY: int)

  /** The events each of the five positions sees, in the order they are
      asked for. */
  datatype Sessions<Seen> = Sessions(straight: seq<Event<Seen>>, left: seq<Event<Seen>>, right: seq<Event<Seen>>,
                                     up: seq<Event<Seen>>, down: seq<Event<Seen>>)

  function Fields(r: Readings): (vs: seq<int>)
    ensures |vs| == 6
  {
    [r.straightX, r.straightY, r.leftX, r.rightX, r.topY, r.bottomY]
  }

  /** The file both tools write: the header line, then the six readings
      joined by commas. */
  function CsvText(r: Readings): string
  {
    CSV_HEADER + "\n" + JoinCommaInts(Fields(r)) + "\n"
  }

  /** The readings after the five face captures, which write their points
      into (straight_x, straight_y), (left_x, top_y), (right_x, top_y),
      (straight_x, top_y) and (straight_x, bottom_y) in turn. `initial`
      stands for the variables' unset values. */
  function FaceReadings(initial: Readings, s: Sessions<seq<Rect>>): Readings
  {
    var c1 := FaceCapture(s.straight, initial.straightX, initial.straightY);
    var r1 := initial.(straightX := c1.x, straightY := c1.y);
    var c2 := FaceCapture(s.left, r1.leftX, r1.topY);
    var r2 := r1.(leftX := c2.x, topY := c2.y);
    var c3 := FaceCapture(s.right, r2.rightX, r2.topY);
    var r3 := r2.(rightX := c3.x, topY := c3.y);
    var c4 := FaceCapture(s.up, r3.straightX, r3.topY);
    var r4 := r3.(straightX := c4.x, topY := c4.y);
    var c5 := FaceCapture(s.down, r4.straightX, r4.bottomY);
    r4.(straightX := c5.x, bottomY := c5.y)
  }

  /** The face tool's `main`: exit status 1 (and no file) when the cascade
      does not load, the camera does not open or the file cannot be
      created; otherwise the five captures and the file. */
  method FaceCalibration(cascadeOk: bool, cameraOk: bool, s: Sessions<seq<Rect>>, initial: Readings, fileOk: bool)
    returns (exitCode: int, file: Option<string>)
    ensures exitCode == (if cascadeOk && cameraOk && fileOk then 0 else 1)
    ensures file == if exitCode == 0 then Some(CsvText(FaceReadings(initial, s))) else None
  {
    if !cascadeOk || !cameraOk {
      return 1, None;
    }
    var r := initial;
    var c := CaptureFaceCenter(s.straight, r.straightX, r.straightY);
    r := r.(straightX := c.x, straightY := c.y);
    c := CaptureFaceCenter(s.left, r.leftX, r.topY);
    r := r.(leftX := c.x, topY := c.y);
    c := CaptureFaceCenter(s.right, r.rightX, r.topY);
    r := r.(rightX := c.x, topY := c.y);
    c := CaptureFaceCenter(s.up, r.straightX, r.topY);
    r := r.(straightX := c.x, topY := c.y);
    c := CaptureFaceCenter(s.down, r.straightX, r.bottomY);
    r := r.(straightX := c.x, bottomY := c.y);
    if !fileOk {
      return 1, None;
    }
    return 0, Some(CsvText(r));
  }

  // ----------------------------------------------------------------- eye tool

  /** The centre `detectEyeCenter` adds to the history for one frame: the
      darkest circle's centre rounded by `cvRound`. None for no face, an eye
      count other than two, no circle, or (where the source would index the
      circle list with -1) no circle darker than the sentinel. */
  function RoundedEyeball(obs: Observation): Option<Point>
  {
    if obs.faces == [] || |obs.eyes| != 2 then None
    else
      var view := obs.eyeView(obs.eyes[LeftEyeIndex(obs.eyes)]);
      if view.circles == [] then None
      else
        match DarkestCircle(view.image, view.circles)
        case None => None
        case Some(k) => Some(Point(CvRound(view.circles[k].cx), CvRound(view.circles[k].cy)))
  }

  /** The reported centre and the history after `detectEyeCenter`. */
  datatype EyeStep = EyeStep(center: Point, centers: seq<Point>)

  /** `detectEyeCenter` on one frame, given the history and the centre
      variable's value before the call: (-1,-1) for no face; otherwise the
      new centre appended and the steadied average reported, or, when there
      is none, the variable left as it was. */
  function EyeCenterAfter(obs: Observation, centers: seq<Point>, eyeCenter: Point): EyeStep
  {
    if obs.faces == [] then EyeStep(Point(-1, -1), centers)
    else
      match RoundedEyeball(obs)
      case None => EyeStep(eyeCenter, centers)
      case Some(p) => EyeStep(Mean(Window(centers + [p], EYE_STABLE_WINDOW)), centers + [p])
  }

  /** The end of a capture and the history after it. */
  datatype EyeCaptureEnd = EyeCaptureEnd(capture: Capture, centers: seq<Point>)

  /** `captureEyeCenter` from event `i` on. The centre variable starts as
      (0,0) in every iteration; either Enter key accepts it when inside the
      image; 'q' or 'Q' captures the skip point. */
  function EyeCaptureFrom(events: seq<Event<Observation>>, i: nat, centers: seq<Point>, x: int, y: int): EyeCaptureEnd
    decreases |events| - i
  {
    if i >= |events| then EyeCaptureEnd(Capture(Waiting, x, y), centers)
    else
      match events[i]
      case NoFrame => EyeCaptureEnd(Capture(Failed, x, y), centers)
      case Frame(obs, key) =>
        var step := EyeCenterAfter(obs, centers, Point(0, 0));
        var center := step.center;
        var enter := key == KEY_RETURN || key == KEY_LINE_FEED;
        if enter && InFrame(center) then EyeCaptureEnd(Capture(Captured, center.x, center.y), step.centers)
        else if !enter && IsSkipKey(key) then EyeCaptureEnd(Capture(Captured, SKIP_X, SKIP_Y), step.centers)
        else EyeCaptureFrom(events, i + 1, step.centers, x, y)
  }

  function EyeCapture(events: seq<Event<Observation>>, centers: seq<Point>, x: int, y: int): EyeCaptureEnd
  {
    EyeCaptureFrom(events, 0, centers, x, y)
  }

  /** The readings and the history after the five eye captures, written
      into the same variables in the same order as the face tool. */
  function EyeReadings(initial: Readings, centers: seq<Point>, s: Sessions<Observation>): (Readings, seq<Point>)
  {
    var e1 := EyeCapture(s.straight, centers, initial.straightX, initial.straightY);
    var r1 := initial.(straightX := e1.capture.x, straightY := e1.capture.y);
    var e2 := EyeCapture(s.left, e1.centers, r1.leftX, r1.topY);
    var r2 := r1.(leftX := e2.capture.x, topY := e2.capture.y);
    var e3 := EyeCapture(s.right, e2.centers, r2.rightX, r2.topY);
    var r3 := r2.(rightX := e3.capture.x, topY := e3.capture.y);
    var e4 := EyeCapture(s.up, e3.centers, r3.straightX, r3.topY);
    var r4 := r3.(straightX := e4.capture.x, topY := e4.capture.y);
    var e5 := EyeCapture(s.down, e4.centers, r4.straightX, r4.bottomY);
    (r4.(straightX := e5.capture.x, bottomY := e5.capture.y), e5.centers)
  }

  /** The eye tool, with the global history of eye centres. */
  class EyeCalibrator {
    var centers: seq<Point>

    constructor()
      ensures centers == []
    {
      centers := [];
    }

    /** `detectEyeCenter`: returns the new value of the centre variable
        whose value before the call is `eyeCenter`. */
    method DetectEyeCenter(obs: Observation, eyeCenter: Point) returns (center: Point)
      modifies this
      ensures EyeStep(center, centers) == EyeCenterAfter(obs, old(centers), eyeCenter)
    {
      if obs.faces == [] {
        return Point(-1, -1);
      }
      if |obs.eyes| != 2 {
        return eyeCenter;
      }
      var left := DetectLeftEye(obs.eyes);
      var view := obs.eyeView(obs.eyes[left]);
      if |view.circles| > 0 {
        var choice := EyeBallDetection(view.image, view.circles);
        if choice.Some? {
          var eyeball := view.circles[choice.value];
          centers := centers + [Point(CvRound(eyeball.cx), CvRound(eyeball.cy))];
          center := MakeStable(centers, EYE_STABLE_WINDOW);
          return;
        }
      }
      return eyeCenter;
    }

    /** `captureEyeCenter`: reads frames until the camera fails, a point
        is accepted, or the position is skipped. */
    method CaptureEyeCenter(events: seq<Event<Observation>>, x: int, y: int) returns (r: Capture)
      modifies this
      ensures EyeCaptureEnd(r, centers) == EyeCapture(events, old(centers), x, y)
    {
      var i := 0;
      while i < |events|
        invariant 0 <= i <= |events|
        invariant EyeCaptureFrom(events, i, centers, x, y) == EyeCapture(events, old(centers), x, y)
        decreases |events| - i
      {
        match events[i]
        case NoFrame =>
          return Capture(Failed, x, y);
        case Frame(obs, key) =>
          var eyeCenter := DetectEyeCenter(obs, Point(0, 0));
          if key == KEY_RETURN || key == KEY_LINE_FEED {
            if InFrame(eyeCenter) {
              return Capture(Captured, eyeCenter.x, eyeCenter.y);
            }
          } else if IsSkipKey(key) {
            return Capture(Captured, SKIP_X, SKIP_Y);
          }
        i := i + 1;
      }
      return Capture(Waiting, x, y);
    }

    /** The eye tool's `main`: exit status 1 (and no file) when either
        cascade does not load, the camera does not open or the file cannot
        be created; otherwise the five captures and the file. */
    method EyeCalibration(faceCascadeOk: bool, eyeCascadeOk: bool, cameraOk: bool, s: Sessions<Observation>,
                          initial: Readings, fileOk: bool)
      returns (exitCode: int, file: Option<string>)
      modifies this
      ensures exitCode == (if faceCascadeOk && eyeCascadeOk && cameraOk && fileOk then 0 else 1)
      ensures !(faceCascadeOk && eyeCascadeOk && cameraOk) ==> centers == old(centers)
      ensures faceCascadeOk && eyeCascadeOk && cameraOk ==> centers == EyeReadings(initial, old(centers), s).1
      ensures file == if exitCode == 0 then Some(CsvText(EyeReadings(initial, old(centers), s).0)) else None
    {
      if !faceCascadeOk || !eyeCascadeOk || !cameraOk {
        return 1, None;
      }
      var r := initial;
      var c := CaptureEyeCenter(s.straight, r.straightX, r.straightY);
      r := r.(straightX := c.x, straightY := c.y);
      c := CaptureEyeCenter(s.left, r.leftX, r.topY);
      r := r.(leftX := c.x, topY := c.y);
      c := CaptureEyeCenter(s.right, r.rightX, r.topY);
      r := r.(rightX := c.x, topY := c.y);
      c := CaptureEyeCenter(s.up, r.straightX, r.topY);
      r := r.(straightX := c.x, topY := c.y);
      c := CaptureEyeCenter(s.down, r.straightX, r.bottomY);
      r := r.(straightX := c.x, bottomY := c.y);
      if !fileOk {
        return 1, None;
      }
      return 0, Some(CsvText(r));
    }
  }
}

/** What the calibration tools promise: where a captured point can come
    from, what a failed capture leaves, which capture each reading comes
    from, and that the cursor service reads the file back. */
module CalibrationFacts {
  import opened Wrappers
  import opened Decimal
  import opened Geometry
  import opened EyeDetection
  import opened Calibration
  import Cursor
  import CursorFacts

  /** A face capture either captures a point inside the camera image (a
      face centre seen with Enter pressed, or the skip point) or leaves
      both outputs as they were. */
  lemma {:induction false} FaceCaptureOutcome(events: seq<Event<seq<Rect>>>, i: nat, x: int, y: int)
    ensures var r := FaceCaptureFrom(events, i, x, y);
      (r.status == Captured ==> InFrame(Point(r.x, r.y)))
      && (r.status != Captured ==> r.x == x && r.y == y)
      && (r.status == Captured ==>
            exists j :: i <= j < |events| && events[j].Frame? &&
              ((events[j].key == KEY_RETURN && FaceCenter(events[j].seen) == Point(r.x, r.y))
               || (IsSkipKey(events[j].key) && r.x == SKIP_X && r.y == SKIP_Y)))
    decreases |events| - i
  {
    if i < |events| && events[i].Frame? {
      FaceCaptureOutcome(events, i + 1, x, y);
    }
  }

  /** Whether a face capture captures does not depend on the outputs'
      earlier values, and neither does the point it captures. */
  lemma {:induction false} FaceCaptureIgnoresOutputs(events: seq<Event<seq<Rect>>>, i: nat, x: int, y: int, x': int, y': int)
    ensures FaceCaptureFrom(events, i, x, y).status == FaceCaptureFrom(events, i, x', y').status
    ensures FaceCaptureFrom(events, i, x, y).status == Captured ==>
      FaceCaptureFrom(events, i, x, y) == FaceCaptureFrom(events, i, x', y')
    decreases |events| - i
  {
    if i < |events| && events[i].Frame? {
      FaceCaptureIgnoresOutputs(events, i + 1, x, y, x', y');
    }
  }

  /** With no face inside the image and no skip key, a face capture never
      captures: the (-1,-1) "no face" centre is always refused. */
  lemma {:induction false} FaceCaptureNeedsVisibleFace(events: seq<Event<seq<Rect>>>, i: nat, x: int, y: int)
    requires forall j :: i <= j < |events| && events[j].Frame? ==>
      !IsSkipKey(events[j].key) && !InFrame(FaceCenter(events[j].seen))
    ensures FaceCaptureFrom(events, i, x, y).status != Captured
    decreases |events| - i
  {
    if i < |events| && events[i].Frame? {
      FaceCaptureNeedsVisibleFace(events, i + 1, x, y);
    }
  }

  /** The aliasing of the output variables: when all five face captures
      capture, straight_x holds the "Max down" point's x, top_y the
      "Max up" point's y, and the "Straight facing" x and the y of the
      left and right turns are overwritten. */
  lemma FaceCaptureOrder(initial: Readings, s: Sessions<seq<Rect>>)
    requires FaceCapture(s.straight, 0, 0).status == Captured && FaceCapture(s.left, 0, 0).status == Captured
      && FaceCapture(s.right, 0, 0).status == Captured && FaceCapture(s.up, 0, 0).status == Captured
      && FaceCapture(s.down, 0, 0).status == Captured
    ensures var c1, c2, c3, c4, c5 := FaceCapture(s.straight, 0, 0), FaceCapture(s.left, 0, 0),
        FaceCapture(s.right, 0, 0), FaceCapture(s.up, 0, 0), FaceCapture(s.down, 0, 0);
      FaceReadings(initial, s) == Readings(c5.x, c1.y, c2.x, c3.x, c4.y, c5.y)
  {
    var c1 := FaceCapture(s.straight, initial.straightX, initial.straightY);
    FaceCaptureIgnoresOutputs(s.straight, 0, initial.straightX, initial.straightY, 0, 0);
    var r1 := initial.(straightX := c1.x, straightY := c1.y);
    FaceCaptureIgnoresOutputs(s.left, 0, r1.leftX, r1.topY, 0, 0);
    var c2 := FaceCapture(s.left, r1.leftX, r1.topY);
    var r2 := r1.(leftX := c2.x, topY := c2.y);
    FaceCaptureIgnoresOutputs(s.right, 0, r2.rightX, r2.topY, 0, 0);
    var c3 := FaceCapture(s.right, r2.rightX, r2.topY);
    var r3 := r2.(rightX := c3.x, topY := c3.y);
    FaceCaptureIgnoresOutputs(s.up, 0, r3.straightX, r3.topY, 0, 0);
    var c4 := FaceCapture(s.up, r3.straightX, r3.topY);
    var r4 := r3.(straightX := c4.x, topY := c4.y);
    FaceCaptureIgnoresOutputs(s.down, 0, r4.straightX, r4.bottomY, 0, 0);
  }

  /** The cursor service's loader reads back the file either tool writes:
      left_x, right_x, top_y and bottom_y land in the calibration. */
  lemma CsvLoadsBack(r: Readings, cal: Cursor.Calibration)
    ensures Cursor.Loaded(Some(CsvText(r)), cal) == Cursor.Calibration(r.leftX, r.rightX, r.topY, r.bottomY)
  {
    assert '\n' !in "straight_x" && '\n' !in "straight_y" && '\n' !in "left_x";
    assert '\n' !in "right_x" && '\n' !in "top_y" && '\n' !in "bottom_y";
    var line := JoinCommaInts(Fields(r));
    assert CsvText(r) == CSV_HEADER + "\n" + line + "\n" + [];
    CursorFacts.CalibrationLineLoaded(cal, CSV_HEADER, Fields(r), []);
  }

  /** End to end: after a face calibration whose five captures all
      capture, the cursor service calibrates with the x of the left and
      right turns and the y of the up and down positions. */
  lemma FaceCalibrationFeedsCursor(initial: Readings, s: Sessions<seq<Rect>>, cal: Cursor.Calibration)
    requires FaceCapture(s.straight, 0, 0).status == Captured && FaceCapture(s.left, 0, 0).status == Captured
      && FaceCapture(s.right, 0, 0).status == Captured && FaceCapture(s.up, 0, 0).status == Captured
      && FaceCapture(s.down, 0, 0).status == Captured
    ensures Cursor.Loaded(Some(CsvText(FaceReadings(initial, s))), cal)
      == Cursor.Calibration(FaceCapture(s.left, 0, 0).x, FaceCapture(s.right, 0, 0).x,
                            FaceCapture(s.up, 0, 0).y, FaceCapture(s.down, 0, 0).y)
  {
    FaceCaptureOrder(initial, s);
    CsvLoadsBack(FaceReadings(initial, s), cal);
  }

  /** An eye capture either captures a point inside the camera image or
      leaves both outputs as they were; the history of centres only grows
      at its end. */
  lemma {:induction false} EyeCaptureOutcome(events: seq<Event<Observation>>, i: nat, centers: seq<Point>, x: int, y: int)
    ensures var e := EyeCaptureFrom(events, i, centers, x, y);
      (e.capture.status == Captured ==> InFrame(Point(e.capture.x, e.capture.y)))
      && (e.capture.status != Captured ==> e.capture.x == x && e.capture.y == y)
      && |centers| <= |e.centers| && e.centers[..|centers|] == centers
    decreases |events| - i
  {
    if i < |events| && events[i].Frame? {
      var step := EyeCenterAfter(events[i].seen, centers, Point(0, 0));
      EyeCaptureOutcome(events, i + 1, step.centers, x, y);
      var e := EyeCaptureFrom(events, i + 1, step.centers, x, y);
      assert e.centers[..|step.centers|][..|centers|] == e.centers[..|centers|];
    }
  }

  /** The eye tool's hazard: its centre variable starts each iteration as
      (0,0), and a frame with a face but not exactly two eyes leaves it so.
      (0,0) lies inside the image, so Enter on such a frame captures (0,0)
      although no eye was seen. */
  lemma EyeCaptureAcceptsUnseenEye(events: seq<Event<Observation>>, i: nat, centers: seq<Point>, x: int, y: int)
    requires i < |events| && events[i].Frame?
    requires events[i].seen.faces != [] && |events[i].seen.eyes| != 2
    requires events[i].key == KEY_RETURN || events[i].key == KEY_LINE_FEED
    ensures EyeCaptureFrom(events, i, centers, x, y) == EyeCaptureEnd(Capture(Captured, 0, 0), centers)
  {
  }

  /** The face tool has no such hazard: without a face the centre is
      (-1,-1) and Enter is refused. */
  lemma FaceCaptureRefusesNoFace(events: seq<Event<seq<Rect>>>, i: nat, x: int, y: int)
    requires i < |events| && events[i] == Frame([], KEY_RETURN)
    ensures FaceCaptureFrom(events, i, x, y) == FaceCaptureFrom(events, i + 1, x, y)
  {
  }
}
