/** The small image-geometry helpers the detectors and the calibration tools
    share: the centre of a face rectangle, the left-most eye rectangle, the
    darkest circle of a grey eye image, and the moving average that steadies
    the eyeball position. The detectors' outputs are inputs here. */
module Geometry {
  import opened Wrappers
  import opened CArith

  /** An OpenCV `Point` with `int` coordinates. */
  datatype Point = Point(x: int, y: int)
  /** An OpenCV `Rect`: top-left corner, width and height. */
  datatype Rect = Rect(x: int, y: int, width: int, height: int)
  /** A `Vec3f` circle from the circle detector: centre and radius. */
  datatype Circle = Circle(cx: real, cy: real, r: real)

  /** The sentinel the left-eye search starts from. */
  const LEFT_EYE_LIMIT: int := 99999999
  /** The sentinel the darkest-circle search starts from. */
  const SMALLEST_SUM_LIMIT: int := 9999999

  /** The centre of the first face, or (-1,-1) when there is none; the
      halves are taken with C's truncating division. */
  function FaceCenter(faces: seq<Rect>): (c: Point)
    ensures faces == [] ==> c == Point(-1, -1)
    ensures faces != [] && faces[0].width >= 0 ==>
      faces[0].x <= c.x <= faces[0].x + faces[0].width && faces[0].width - 1 <= 2 * (c.x - faces[0].x) <= faces[0].width
    ensures faces != [] && faces[0].height >= 0 ==>
      faces[0].y <= c.y <= faces[0].y + faces[0].height && faces[0].height - 1 <= 2 * (c.y - faces[0].y) <= faces[0].height
  {
    if faces == [] then Point(-1, -1)
    else Point(faces[0].x + TruncDiv(faces[0].width, 2), faces[0].y + TruncDiv(faces[0].height, 2))
  }

  /** Whether pixel (x, y) lies strictly inside a circle whose centre and
      radius are first rounded to integers. */
  predicate Inside(x: int, y: int, c: Circle)
  {
    var cx, cy, r := Round(c.cx), Round(c.cy), Round(c.r);
    (x - cx) * (x - cx) + (y - cy) * (y - cy) < r * r
  }

  /** The sum of the first `n` pixels of row `y` that lie inside `c`. */
  function RowSum(row: seq<byte>, y: int, c: Circle, n: nat): int
    requires n <= |row|
  {
    if n == 0 then 0 else RowSum(row, y, c, n - 1) + (if Inside(n - 1, y, c) then row[n - 1] else 0)
  }

  /** The sum of the pixels of the first `m` rows that lie inside `c`. */
  function GridSum(grid: seq<seq<byte>>, c: Circle, m: nat): int
    requires m <= |grid|
  {
    if m == 0 then 0 else GridSum(grid, c, m - 1) + RowSum(grid[m - 1], m - 1, c, |grid[m - 1]|)
  }

  /** The brightness inside a circle: the sum of the grey values of the
      image's pixels that lie strictly inside it. */
  function InteriorSum(grid: seq<seq<byte>>, c: Circle): int
  {
    GridSum(grid, c, |grid|)
  }

  /** The interior sum of every circle, in order. */
  function Sums(grid: seq<seq<byte>>, circles: seq<Circle>): (sums: seq<int>)
    ensures |sums| == |circles|
  {
    seq(|circles|, i requires 0 <= i < |circles| => InteriorSum(grid, circles[i]))
  }

  /** The index of the first strictly smallest value below `limit`, found
      by a scan that keeps the best value so far; None when no value is
      below `limit`. */
  function FirstSmallest(values: seq<int>, limit: int): (r: Option<nat>)
    ensures r.Some? ==> r.value < |values|
  {
    if values == [] then None
    else
      var n := |values| - 1;
      var prev := FirstSmallest(values[..n], limit);
      var best := if prev.Some? then values[prev.value] else limit;
      if values[n] < best then Some(n) else prev
  }

  /** The circle `eyeBallDetection` picks: the first with the strictly
      smallest interior sum below the sentinel. When there is none the
      source indexes the circle list with -1; the model answers None. */
  function DarkestCircle(grid: seq<seq<byte>>, circles: seq<Circle>): (r: Option<nat>)
    ensures r.Some? ==> r.value < |circles|
  {
    FirstSmallest(Sums(grid, circles), SMALLEST_SUM_LIMIT)
  }

  /** `eyeBallDetection`: sums, in nested loops over rows, columns and
      circles, the pixels inside each circle, then scans for the smallest. */
  method EyeBallDetection(grid: seq<seq<byte>>, circles: seq<Circle>) returns (choice: Option<nat>)
    ensures choice == DarkestCircle(grid, circles)
  {
    var sums := seq(|circles|, _ => 0);
    var y := 0;
    while y < |grid|
      invariant 0 <= y <= |grid| && |sums| == |circles|
      invariant forall i :: 0 <= i < |circles| ==> sums[i] == GridSum(grid, circles[i], y)
    {
      var row := grid[y];
      var x := 0;
      while x < |row|
        invariant 0 <= x <= |row| && |sums| == |circles|
        invariant forall i :: 0 <= i < |circles| ==> sums[i] == GridSum(grid, circles[i], y) + RowSum(row, y, circles[i], x)
      {
        var pixel := row[x];
        var i := 0;
        while i < |circles|
          invariant 0 <= i <= |circles| && |sums| == |circles|
          invariant forall k :: 0 <= k < i ==> sums[k] == GridSum(grid, circles[k], y) + RowSum(row, y, circles[k], x + 1)
          invariant forall k :: i <= k < |circles| ==> sums[k] == GridSum(grid, circles[k], y) + RowSum(row, y, circles[k], x)
        {
          if Inside(x, y, circles[i]) {
            sums := sums[i := sums[i] + pixel];
          }
          i := i + 1;
        }
        x := x + 1;
      }
      y := y + 1;
    }
    assert sums == Sums(grid, circles);
    var smallestSum := SMALLEST_SUM_LIMIT;
    choice := None;
    var i := 0;
    while i < |circles|
      invariant 0 <= i <= |circles|
      invariant choice == FirstSmallest(sums[..i], SMALLEST_SUM_LIMIT)
      invariant smallestSum == if choice.Some? then sums[choice.value] else SMALLEST_SUM_LIMIT
    {
      assert sums[..i + 1][..i] == sums[..i];
      if sums[i] < smallestSum {
        smallestSum := sums[i];
        choice := Some(i);
      }
      i := i + 1;
    }
    assert sums[..i] == sums;
  }

  /** The left edges of the eye rectangles, in order. */
  function LeftEdges(eyes: seq<Rect>): (xs: seq<int>)
    ensures |xs| == |eyes|
  {
    seq(|eyes|, i requires 0 <= i < |eyes| => eyes[i].x)
  }

  /** The rectangle `detectLeftEye` picks: the first with the strictly
      smallest left edge below the sentinel, or the first when none is. */
  function LeftEyeIndex(eyes: seq<Rect>): (k: nat)
    requires eyes != []
    ensures k < |eyes|
  {
    match FirstSmallest(LeftEdges(eyes), LEFT_EYE_LIMIT)
    case Some(k) => k
    case None => 0
  }

  /** `detectLeftEye`: a scan for the smallest left edge. */
  method DetectLeftEye(eyes: seq<Rect>) returns (index: nat)
    requires eyes != []
    ensures index == LeftEyeIndex(eyes)
  {
    ghost var xs := LeftEdges(eyes);
    ghost var found: Option<nat> := None;
    var leftEye := LEFT_EYE_LIMIT;
    index := 0;
    var i := 0;
    while i < |eyes|
      invariant 0 <= i <= |eyes|
      invariant found == FirstSmallest(xs[..i], LEFT_EYE_LIMIT)
      invariant index == if found.Some? then found.value else 0
      invariant leftEye == if found.Some? then xs[found.value] else LEFT_EYE_LIMIT
    {
      assert xs[..i + 1][..i] == xs[..i];
      if eyes[i].x < leftEye {
        leftEye := eyes[i].x;
        index := i;
        found := Some(i);
      }
      i := i + 1;
    }
    assert xs[..i] == xs;
  }

  /** The points `makeStable` averages: the last `iteration` of them, or all
      when there are fewer. */
  function Window(points: seq<Point>, iteration: nat): (w: seq<Point>)
    ensures |w| == if |points| < iteration then |points| else iteration
  {
    if |points| <= iteration then points else points[|points| - iteration..]
  }

  /** The window is the tail of the points. */
  lemma WindowIsSuffix(points: seq<Point>, iteration: nat)
    ensures Window(points, iteration) == points[|points| - |Window(points, iteration)|..]
  {
  }

  function SumX(ps: seq<Point>): int
  {
    if ps == [] then 0 else SumX(ps[..|ps| - 1]) + ps[|ps| - 1].x
  }

  function SumY(ps: seq<Point>): int
  {
    if ps == [] then 0 else SumY(ps[..|ps| - 1]) + ps[|ps| - 1].y
  }

  /** The mean of the points, each coordinate truncated toward zero as the
      conversion of the floating-point mean to an `int` point does; (0,0)
      for no points. */
  function Mean(ps: seq<Point>): Point
  {
    if ps == [] then Point(0, 0)
    else Point(TruncDiv(SumX(ps), |ps|), TruncDiv(SumY(ps), |ps|))
  }

  /** `makeStable`: the mean of the last `iteration` points. */
  method MakeStable(points: seq<Point>, iteration: nat) returns (p: Point)
    ensures p == Mean(Window(points, iteration))
  {
    var sumX, sumY, count := 0, 0, 0;
    var j := if |points| - iteration > 0 then |points| - iteration else 0;
    ghost var first := j;
    while j < |points|
      invariant first <= j <= |points| && count == j - first
      invariant sumX == SumX(points[first..j]) && sumY == SumY(points[first..j])
    {
      assert points[first..j + 1][..j - first] == points[first..j];
      sumX := sumX + points[j].x;
      sumY := sumY + points[j].y;
      count := count + 1;
      j := j + 1;
    }
    WindowIsSuffix(points, iteration);
    assert points[first..j] == Window(points, iteration);
    if count > 0 {
      p := Point(TruncDiv(sumX, count), TruncDiv(sumY, count));
    } else {
      p := Point(0, 0);
    }
  }
}

/** What the helpers promise beyond their single results. */
module GeometryFacts {
  import opened Wrappers
  import opened CArith
  import opened Geometry

  /** A face found inside the image (its corner at non-negative
      coordinates) never yields the (-1,-1) "no face" marker, and its centre
      passes the non-negative test the face service sends under. */
  lemma FaceCenterOfVisibleFace(faces: seq<Rect>)
    requires faces != [] && faces[0].x >= 0 && faces[0].y >= 0
    requires faces[0].width >= 0 && faces[0].height >= 0
    ensures FaceCenter(faces) != Point(-1, -1)
    ensures FaceCenter(faces).x >= 0 && FaceCenter(faces).y >= 0
  {
  }

  /** The scan's answer is the first minimum: no value is smaller, every
      earlier value is strictly larger, and it is below the sentinel; the
      scan answers None exactly when no value is below the sentinel. */
  lemma {:induction false} FirstSmallestIsFirstMinimum(values: seq<int>, limit: int)
    ensures var r := FirstSmallest(values, limit);
      (r.Some? ==> (values[r.value] < limit
        && (forall j :: 0 <= j < |values| ==> values[r.value] <= values[j])
        && (forall j :: 0 <= j < r.value ==> values[r.value] < values[j])))
      && (r.None? <==> forall j :: 0 <= j < |values| ==> values[j] >= limit)
  {
    if values != [] {
      var n := |values| - 1;
      FirstSmallestIsFirstMinimum(values[..n], limit);
      assert forall j :: 0 <= j < n ==> values[..n][j] == values[j];
    }
  }

  /** `eyeBallDetection` picks the first circle with the strictly smallest
      interior sum, and finds none exactly when every sum reaches the
      sentinel. */
  lemma DarkestCircleIsDarkest(grid: seq<seq<byte>>, circles: seq<Circle>)
    ensures var r := DarkestCircle(grid, circles);
      (r.Some? ==> (InteriorSum(grid, circles[r.value]) < SMALLEST_SUM_LIMIT
        && (forall j :: 0 <= j < |circles| ==> InteriorSum(grid, circles[r.value]) <= InteriorSum(grid, circles[j]))
        && (forall j :: 0 <= j < r.value ==> InteriorSum(grid, circles[r.value]) < InteriorSum(grid, circles[j]))))
      && (r.None? <==> forall j :: 0 <= j < |circles| ==> InteriorSum(grid, circles[j]) >= SMALLEST_SUM_LIMIT)
  {
    var sums := Sums(grid, circles);
    FirstSmallestIsFirstMinimum(sums, SMALLEST_SUM_LIMIT);
    assert forall j :: 0 <= j < |circles| ==> sums[j] == InteriorSum(grid, circles[j]);
  }

  /** `detectLeftEye` picks the first rectangle with the smallest left edge
      when some edge is below the sentinel, and the first rectangle
      otherwise. */
  lemma LeftEyeIsLeftMost(eyes: seq<Rect>)
    requires eyes != []
    ensures var k := LeftEyeIndex(eyes);
      (eyes[k].x < LEFT_EYE_LIMIT ==>
        (forall j :: 0 <= j < |eyes| ==> eyes[k].x <= eyes[j].x)
        && (forall j :: 0 <= j < k ==> eyes[k].x < eyes[j].x))
      && (eyes[k].x >= LEFT_EYE_LIMIT ==> k == 0 && forall j :: 0 <= j < |eyes| ==> eyes[j].x >= LEFT_EYE_LIMIT)
  {
    var xs := LeftEdges(eyes);
    FirstSmallestIsFirstMinimum(xs, LEFT_EYE_LIMIT);
    assert forall j :: 0 <= j < |eyes| ==> xs[j] == eyes[j].x;
  }

  lemma {:induction false} SumXBounds(ps: seq<Point>, lo: int, hi: int)
    requires forall i :: 0 <= i < |ps| ==> lo <= ps[i].x <= hi
    ensures |ps| * lo <= SumX(ps) <= |ps| * hi
  {
    if ps != [] {
      var n := |ps| - 1;
      assert forall i :: 0 <= i < n ==> ps[..n][i] == ps[i];
      SumXBounds(ps[..n], lo, hi);
    }
  }

  lemma {:induction false} SumYBounds(ps: seq<Point>, lo: int, hi: int)
    requires forall i :: 0 <= i < |ps| ==> lo <= ps[i].y <= hi
    ensures |ps| * lo <= SumY(ps) <= |ps| * hi
  {
    if ps != [] {
      var n := |ps| - 1;
      assert forall i :: 0 <= i < n ==> ps[..n][i] == ps[i];
      SumYBounds(ps[..n], lo, hi);
    }
  }

  lemma MulBelow(n: int, a: int, b: int)
    requires n > 0 && a < b
    ensures n * a <= n * b - n
  {
    assert n * b - n - n * a == n * (b - a - 1);
  }

  /** An integer mean truncated toward zero stays within any integer bounds
      of the exact mean. */
  lemma TruncDivBetween(sum: int, n: int, lo: int, hi: int)
    requires n > 0 && n * lo <= sum <= n * hi
    ensures lo <= TruncDiv(sum, n) <= hi
  {
    var q := TruncDiv(sum, n);
    if q < lo {
      MulBelow(n, q, lo);
    }
    if q > hi {
      MulBelow(n, hi, q);
    }
  }

  /** The steadied point lies in the bounding box of the points averaged:
      the moving average never leaves the range of the recent positions. */
  lemma MeanInBox(ps: seq<Point>, lo: Point, hi: Point)
    requires ps != []
    requires forall i :: 0 <= i < |ps| ==> lo.x <= ps[i].x <= hi.x && lo.y <= ps[i].y <= hi.y
    ensures lo.x <= Mean(ps).x <= hi.x && lo.y <= Mean(ps).y <= hi.y
  {
    SumXBounds(ps, lo.x, hi.x);
    SumYBounds(ps, lo.y, hi.y);
    TruncDivBetween(SumX(ps), |ps|, lo.x, hi.x);
    TruncDivBetween(SumY(ps), |ps|, lo.y, hi.y);
  }
}
