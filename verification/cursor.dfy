/** The cursor translator: it loads the calibration written by a
    calibration tool, pulls "Center:<x>,<y>" messages, mirrors and smooths
    the position over the last five points, maps it through the calibration
    onto the display and moves an absolute pointer there. Files are given as
    their contents; the pointer device's writes and the control messages are
    recorded as sequences. */
module Cursor {
  import opened Wrappers
  import opened CArith
  import opened Decimal
  import opened Geometry

  const DISPLAY_X: nat := 1920
  const DISPLAY_Y: nat := 1080
  const CAMERA_X: int := 640
  /** How many recent positions the pointer averages. */
  const SMOOTHING_WINDOW: nat := 5
  const CENTER_PREFIX: string := "Center:"
  const FACE_CALIBRATION_FILE: string := "calibration_face.csv"
  const EYE_CALIBRATION_FILE: string := "calibration_eye.csv"

  /** The calibrated extremes of the tracked position. */
  datatype Calibration = Calibration(leftX: int, rightX: int, topY: int, bottomY: int)

  const DEFAULT_CALIBRATION: Calibration := Calibration(0, 0, 0, 0)

  /** The index of the first newline of `s`, or |s| when there is none. */
  function LineEnd(s: string): (k: nat)
    ensures k <= |s|
  {
    if s == [] || s[0] == '\n' then 0 else 1 + LineEnd(s[1..])
  }

  /** `std::getline`: the text up to the first newline and what follows
      it; the last line may lack its newline; None at the end of input. */
  function GetLine(s: string): Option<(string, string)>
  {
    if s == [] then None
    else
      var k := LineEnd(s);
      if k < |s| then Some((s[..k], s[k + 1..])) else Some((s, []))
  }

  /** What `sscanf` stores of the six fields: the straight-ahead pair goes
      to locals, fields three to six into the calibration, each only if
      that conversion succeeded. */
  function StoreFields(cal: Calibration, fields: seq<int>): Calibration
  {
    Calibration(
      if |fields| >= 3 then fields[2] else cal.leftX,
      if |fields| >= 4 then fields[3] else cal.rightX,
      if |fields| >= 5 then fields[4] else cal.topY,
      if |fields| >= 6 then fields[5] else cal.bottomY)
  }

  /** The calibration after `loadCalibrationData` of a file with the given
      contents (None when it cannot be opened): the first line is a header,
      the second holds the fields; a short line keeps what was stored. */
  function Loaded(file: Option<string>, cal: Calibration): (r: Calibration)
    ensures file.None? ==> r == cal
  {
    match file
    case None => cal
    case Some(s) =>
      var rest := match GetLine(s) case None => [] case Some((_, after)) => after;
      match GetLine(rest)
      case None => cal
      case Some((line, _)) => StoreFields(cal, ScanCommaInts(line, 6))
  }

  /** The calibration file `cursorInit` loads for a detection type. */
  function CalibrationFile(detectionType: byte): (name: Option<string>)
    ensures name.Some? <==> detectionType == 1 || detectionType == 2
  {
    if detectionType == 1 then Some(FACE_CALIBRATION_FILE)
    else if detectionType == 2 then Some(EYE_CALIBRATION_FILE)
    else None
  }

  /** `sscanf(s, "Center:%d,%d")`: the literal prefix must match character
      for character; the values converted after it. */
  function ScanCenter(s: string): (fields: seq<int>)
    ensures |fields| <= 2
  {
    if |s| >= |CENTER_PREFIX| && s[..|CENTER_PREFIX|] == CENTER_PREFIX then ScanCommaInts(s[|CENTER_PREFIX|..], 2)
    else []
  }

  /** The normalised position scaled to the display, computed in floating
      point: None when the calibrated range is empty (the division by zero
      gives a non-finite value). */
  function Scaled(v: int, from: int, to: int, size: nat): Option<real>
  {
    if to == from then None else Some((v - from) as real / (to - from) as real * size as real)
  }

  /** A floating-point value converted to `int`: truncated when the result
      fits. Converting a non-finite or out-of-range value is undefined in
      C++; the model fixes the answer of x86-64's conversion instruction,
      INT32_MIN (AArch64 saturates instead). */
  function FloatToInt(v: Option<real>): (r: int)
    ensures InInt32(r)
    ensures v.Some? && InInt32(Trunc(v.value)) ==> r == Trunc(v.value)
    ensures v.None? ==> r == INT32_MIN
  {
    match v
    case None => INT32_MIN
    case Some(x) => if InInt32(Trunc(x)) then Trunc(x) else INT32_MIN
  }

  /** `max(0, min(v, hi))`. */
  function Clamp(v: int, hi: nat): (r: int)
    ensures 0 <= r <= hi
    ensures 0 <= v <= hi ==> r == v
    ensures v < 0 ==> r == 0
    ensures v > hi ==> r == hi
  {
    if v < 0 then 0 else if v > hi then hi else v
  }

  /** The display position for a smoothed position: x is normalised
      between the right and left calibrated extremes, y between top and
      bottom, then scaled and clamped to the display. */
  function Display(avg: Point, cal: Calibration): Point
  {
    Point(Clamp(FloatToInt(Scaled(avg.x, cal.rightX, cal.leftX, DISPLAY_X)), DISPLAY_X),
          Clamp(FloatToInt(Scaled(avg.y, cal.topY, cal.bottomY, DISPLAY_Y)), DISPLAY_Y))
  }

  /** The control message sent for each move, with its terminating NUL. */
  function ControlMessage(avg: Point, d: Point): string
  {
    "Center: " + IntToString(avg.x) + " x " + IntToString(avg.y)
      + " ,Cursor: " + IntToString(d.x) + " x " + IntToString(d.y) + "\0"
  }

  class CursorTranslator {
    /** The global calibration data. */
    var calib: Calibration
    /** The messages waiting on the face-centre pull socket. */
    var inbox: seq<string>
    /** The smoothing buffer. */
    var recent: seq<Point>
    /** Every mirrored position accepted so far. */
    ghost var accepted: seq<Point>
    /** The absolute positions written to the pointer device. */
    var moves: seq<Point>
    /** The control messages pushed. */
    var reports: seq<string>

    /** The smoothing buffer holds the last five accepted positions in
        arrival order (all of them while there are fewer). */
    ghost predicate Valid()
      reads this
    {
      recent == Window(accepted, SMOOTHING_WINDOW)
    }

    constructor(pending: seq<string>)
      ensures Valid() && calib == DEFAULT_CALIBRATION && inbox == pending
      ensures accepted == [] && moves == [] && reports == []
    {
      calib := DEFAULT_CALIBRATION;
      inbox := pending;
      recent := [];
      accepted := [];
      moves := [];
      reports := [];
    }

    /** `loadCalibrationData`: `sscanf` writes straight into the global
        calibration, so a short line still stores its leading fields. */
    method LoadCalibrationData(file: Option<string>)
      modifies this`calib
      ensures calib == Loaded(file, old(calib))
    {
      if file.None? {
        return;
      }
      var header := GetLine(file.value);
      var rest := if header.Some? then header.value.1 else [];
      var data := GetLine(rest);
      if data.Some? {
        var fields := ScanCommaInts(data.value.0, 6);
        calib := StoreFields(calib, fields);
      }
    }

    /** `cursorInit`: loads the calibration file for the detection type,
        then opens and creates the pointer device (1 on failure, 0 on
        success). `files` gives each file's contents. */
    method CursorInit(detectionType: byte, files: string -> Option<string>, openOk: bool, createOk: bool)
      returns (status: byte)
      modifies this`calib
      ensures CalibrationFile(detectionType).None? ==> calib == old(calib)
      ensures CalibrationFile(detectionType).Some? ==> calib == Loaded(files(CalibrationFile(detectionType).value), old(calib))
      ensures status == if openOk && createOk then 0 else 1
    {
      if detectionType == 1 {
        LoadCalibrationData(files(FACE_CALIBRATION_FILE));
      } else if detectionType == 2 {
        LoadCalibrationData(files(EYE_CALIBRATION_FILE));
      }
      if !openOk {
        return 1;
      }
      if !createOk {
        return 1;
      }
      return 0;
    }

    /** The smoothing step: the position joins the window, the oldest is
        dropped beyond five, and the window's average is returned. */
    method Smooth(p: Point) returns (avg: Point)
      requires Valid()
      modifies this`recent, this`accepted
      ensures Valid() && accepted == old(accepted) + [p] && avg == Mean(recent)
    {
      WindowSnoc(accepted, p, SMOOTHING_WINDOW);
      accepted := accepted + [p];
      recent := recent + [p];
      if |recent| > SMOOTHING_WINDOW {
        recent := recent[1..];
      }
      avg := MakeStable(recent, SMOOTHING_WINDOW);
      assert Window(recent, SMOOTHING_WINDOW) == recent;
    }

    /** `cursorTranslationService`: takes at most one message. A message
        that is not "Center:<x>,<y>" is only logged. Otherwise x is
        mirrored, the position joins the smoothing window (dropping the
        oldest beyond five), and the pointer moves to the display position
        of the window's average. */
    method TranslationService()
      requires Valid()
      modifies this`inbox, this`recent, this`accepted, this`moves, this`reports
      ensures Valid()
      ensures old(inbox) == [] ==> inbox == [] && accepted == old(accepted) && moves == old(moves) && reports == old(reports)
      ensures old(inbox) != [] ==> inbox == old(inbox)[1..]
      ensures old(inbox) != [] && |ScanCenter(old(inbox)[0])| != 2 ==>
        accepted == old(accepted) && moves == old(moves) && reports == old(reports)
      ensures old(inbox) != [] && |ScanCenter(old(inbox)[0])| == 2 ==>
        var fields := ScanCenter(old(inbox)[0]);
        var avg := Mean(recent);
        accepted == old(accepted) + [Point(CAMERA_X - fields[0], fields[1])]
        && moves == old(moves) + [Display(avg, calib)]
        && reports == old(reports) + [ControlMessage(avg, Display(avg, calib))]
    {
      if inbox == [] {
        return;
      }
      var message := inbox[0];
      inbox := inbox[1..];
      var fields := ScanCenter(message);
      if |fields| != 2 {
        return;
      }
      var x, y := fields[0], fields[1];
      x := CAMERA_X - x;
      Move(Point(x, y));
    }

    /** One accepted position: smoothing, the pointer move and the control
        message. */
    method Move(p: Point)
      requires Valid()
      modifies this`recent, this`accepted, this`moves, this`reports
      ensures Valid() && accepted == old(accepted) + [p]
      ensures moves == old(moves) + [Display(Mean(recent), calib)]
      ensures reports == old(reports) + [ControlMessage(Mean(recent), Display(Mean(recent), calib))]
    {
      var avg := Smooth(p);
      var d := Display(avg, calib);
      moves := moves + [d];
      reports := reports + [ControlMessage(avg, d)];
    }
  }

  /** Appending to the window and dropping the oldest beyond its size is
      the window of the longer history. */
  lemma WindowSnoc(s: seq<Point>, p: Point, n: nat)
    requires n >= 1
    ensures var w := Window(s, n) + [p];
      Window(s + [p], n) == if |w| > n then w[1..] else w
  {
    var w := Window(s, n) + [p];
    if |s| >= n {
      assert w[1..] == (s + [p])[|s| + 1 - n..];
    } else {
      assert w == s + [p];
    }
  }
}

/** What the translator promises about the messages it accepts, the
    calibration it reads and where it puts the pointer. */
module CursorFacts {
  import opened Wrappers
  import opened CArith
  import opened Decimal
  import DecimalRoundTrip
  import opened Geometry
  import FaceDetection
  import opened Cursor

  /** The messages the face-centre service sends all start "FaceCenter:",
      so the "Center:" pattern rejects every one of them: no face position
      ever reaches the pointer. */
  lemma FaceCenterMessagesRejected(c: Point)
    ensures ScanCenter(FaceDetection.Message(c)) == []
  {
    var m := FaceDetection.Message(c);
    assert m[0] == 'F';
    if |m| >= |CENTER_PREFIX| {
      assert m[..|CENTER_PREFIX|][0] == 'F';
    }
  }

  /** A "Center:<x>,<y>" message is read back as its two values. */
  lemma CenterMessageAccepted(x: int, y: int)
    ensures ScanCenter(CENTER_PREFIX + JoinCommaInts([x, y])) == [x, y]
  {
    var m := CENTER_PREFIX + JoinCommaInts([x, y]);
    assert m[..|CENTER_PREFIX|] == CENTER_PREFIX;
    assert m[|CENTER_PREFIX|..] == JoinCommaInts([x, y]);
    DecimalRoundTrip.ScanJoinedInts([x, y], 2);
  }

  /** With the built-in all-zero calibration both ranges are empty and the
      scaled values are non-finite; under x86-64 float-to-int conversion
      the pointer is then pinned to (0,0) whatever the tracked position. */
  lemma DefaultCalibrationPinsCursor(avg: Point)
    ensures Display(avg, DEFAULT_CALIBRATION) == Point(0, 0)
  {
  }

  /** With a calibration of non-empty ranges, the right extreme maps to the
      display's left edge and the left extreme to its right edge; the top
      maps to the top edge and the bottom to the bottom edge. */
  lemma CalibratedExtremes(cal: Calibration)
    requires cal.leftX != cal.rightX && cal.topY != cal.bottomY
    ensures Display(Point(cal.rightX, cal.topY), cal) == Point(0, 0)
    ensures Display(Point(cal.leftX, cal.bottomY), cal) == Point(DISPLAY_X, DISPLAY_Y)
  {
    assert (cal.leftX - cal.rightX) as real / (cal.leftX - cal.rightX) as real == 1.0;
    assert (cal.bottomY - cal.topY) as real / (cal.bottomY - cal.topY) as real == 1.0;
  }

  /** No `%d` output contains a newline. */
  lemma {:induction false} JoinedIntsHaveNoNewline(vs: seq<int>)
    ensures '\n' !in JoinCommaInts(vs)
  {
    if vs != [] {
      var i := vs[0];
      var d := if i < 0 then NatToString(-i) else NatToString(i);
      DecimalRoundTrip.NatToStringDigits(if i < 0 then -i else i);
      assert forall k :: 0 <= k < |IntToString(i)| ==> IntToString(i)[k] != '\n';
      if |vs| > 1 {
        JoinedIntsHaveNoNewline(vs[1..]);
      }
    }
  }

  lemma LineEndOf(a: string, b: string)
    requires '\n' !in a
    ensures LineEnd(a + "\n" + b) == |a|
    decreases |a|
  {
    if a != [] {
      assert (a + "\n" + b)[1..] == a[1..] + "\n" + b;
      LineEndOf(a[1..], b);
    }
  }

  lemma GetLineOf(a: string, b: string)
    requires '\n' !in a
    ensures GetLine(a + "\n" + b) == Some((a, b))
  {
    LineEndOf(a, b);
    var s := a + "\n" + b;
    assert s[..|a|] == a;
    assert s[|a| + 1..] == b;
  }

  /** A file with a header line and a line of one to six comma-separated
      integers stores those of fields three to six that are present and
      keeps the rest: all four with six fields, none with fewer than
      three. */
  lemma CalibrationLineLoaded(cal: Calibration, header: string, vs: seq<int>, more: string)
    requires '\n' !in header && 1 <= |vs| <= 6
    ensures var r := Loaded(Some(header + "\n" + JoinCommaInts(vs) + "\n" + more), cal);
      r == StoreFields(cal, vs)
      && (|vs| == 6 ==> r == Calibration(vs[2], vs[3], vs[4], vs[5]))
      && (|vs| < 3 ==> r == cal)
  {
    var line := JoinCommaInts(vs);
    JoinedIntsHaveNoNewline(vs);
    var rest := line + "\n" + more;
    var s := header + "\n" + line + "\n" + more;
    assert s == header + "\n" + rest;
    GetLineOf(header, rest);
    GetLineOf(line, more);
    DecimalRoundTrip.ScanJoinedInts(vs, 6);
    assert Loaded(Some(s), cal) == StoreFields(cal, ScanCommaInts(line, 6));
  }

  /** A file holding only a header line (with or without its newline)
      leaves the calibration as it was. */
  lemma HeaderOnlyKeepsCalibration(cal: Calibration, header: string)
    requires '\n' !in header
    ensures Loaded(Some(header), cal) == cal
    ensures Loaded(Some(header + "\n"), cal) == cal
  {
    GetLineOf(header, []);
    assert header + "\n" == header + "\n" + [];
    NoNewlineLineEnd(header);
  }

  lemma NoNewlineLineEnd(s: string)
    requires '\n' !in s
    ensures LineEnd(s) == |s|
    decreases |s|
  {
    if s != [] {
      NoNewlineLineEnd(s[1..]);
    }
  }
}
