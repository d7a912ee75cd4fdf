/**
 * Landmark bookkeeping of `HandDetector` (hand_tracking_module.py).
 *
 * The keypoint detector's output for a frame is given as one sequence of
 * pixel points per detected hand; the float-to-pixel conversion that
 * produces them is not part of this model.
 */
module HandTracking {
  import opened Wrappers

  /** A landmark position in frame pixels, as the detector reports it. */
  datatype Point = Point(x: int, y: int)

  /** One `[id, cx, cy]` entry of the detector's landmark list. */
  datatype Landmark = Landmark(id: int, cx: int, cy: int)

  /** `bounding_box`: the empty list when no hand was found, else `[xmin, ymin, xmax, ymax]`. */
  datatype BoundingBox = NoBox | Box(xmin: int, ymin: int, xmax: int, ymax: int)

  /** What `find_position` returns: the landmark list and the bounding box. */
  datatype Position = Position(landmarks: seq<Landmark>, box: BoundingBox)

  /** The two landmarks `find_distance` picks, and their floor-divided midpoint. */
  datatype Segment = Segment(x1: int, y1: int, x2: int, y2: int, cx: int, cy: int)

  /**
   * What `find_distance` returns, with the Euclidean length replaced by its
   * square (the rendered image is not modelled).
   */
  datatype Measure = Measure(squaredLength: int, points: Segment)

  /** Python subscripting `s[i]` of a list of length `n`: negative `i` counts from the end. */
  function PyIndex(i: int, n: nat): (r: Option<nat>)
    ensures r.Some? <==> -(n as int) <= i < n
    ensures r.Some? ==> r.value < n && (r.value == i || r.value == n + i)
  {
    if 0 <= i < n then Some(i) else if -(n as int) <= i < 0 then Some(n + i) else None
  }

  /** `min()` of a non-empty list. */
  function Min(s: seq<int>): (m: int)
    requires |s| > 0
    ensures forall k :: 0 <= k < |s| ==> m <= s[k]
    ensures exists k :: 0 <= k < |s| && s[k] == m
  {
    if |s| == 1 then s[0]
    else
      var t := Min(s[1..]);
      assert forall k :: 1 <= k < |s| ==> s[k] == s[1..][k - 1];
      if s[0] <= t then s[0] else t
  }

  /** `max()` of a non-empty list. */
  function Max(s: seq<int>): (m: int)
    requires |s| > 0
    ensures forall k :: 0 <= k < |s| ==> s[k] <= m
    ensures exists k :: 0 <= k < |s| && s[k] == m
  {
    if |s| == 1 then s[0]
    else
      var t := Max(s[1..]);
      assert forall k :: 1 <= k < |s| ==> s[k] == s[1..][k - 1];
      if s[0] >= t then s[0] else t
  }

  /** `x_list` after the loop has appended the x coordinate of every point in turn. */
  function Xs(pts: seq<Point>): (xs: seq<int>)
    ensures |xs| == |pts|
    ensures forall k :: 0 <= k < |pts| ==> xs[k] == pts[k].x
  {
    if |pts| == 0 then [] else Xs(pts[..|pts| - 1]) + [pts[|pts| - 1].x]
  }

  /** `y_list` after the loop has appended the y coordinate of every point in turn. */
  function Ys(pts: seq<Point>): (ys: seq<int>)
    ensures |ys| == |pts|
    ensures forall k :: 0 <= k < |pts| ==> ys[k] == pts[k].y
  {
    if |pts| == 0 then [] else Ys(pts[..|pts| - 1]) + [pts[|pts| - 1].y]
  }

  /**
   * The landmark list after the loop has appended `[lm_id, cx, cy]` for every
   * point, numbering them as `enumerate` does.
   */
  function Enumerate(pts: seq<Point>): (lms: seq<Landmark>)
    ensures |lms| == |pts|
    ensures forall k :: 0 <= k < |pts| ==> lms[k] == Landmark(k, pts[k].x, pts[k].y)
  {
    if |pts| == 0 then []
    else Enumerate(pts[..|pts| - 1]) + [Landmark(|pts| - 1, pts[|pts| - 1].x, pts[|pts| - 1].y)]
  }

  /** The bounding box of a non-empty list of points. */
  function BoxOf(pts: seq<Point>): (b: BoundingBox)
    requires |pts| > 0
  {
    Box(Min(Xs(pts)), Min(Ys(pts)), Max(Xs(pts)), Max(Ys(pts)))
  }

  /**
   * The value `find_position(img, hand_no)` returns, given the hands the
   * detector found in the frame.
   */
  function Locate(hands: seq<seq<Point>>, handNo: int): (r: Result<Position>)
    ensures |hands| == 0 ==> r == Ok(Position([], NoBox))
    ensures r.Err? <==>
      |hands| != 0 && (PyIndex(handNo, |hands|).None? || |hands[PyIndex(handNo, |hands|).value]| == 0)
    ensures r.Err? ==>
      r.error == (if PyIndex(handNo, |hands|).None? then IndexError else ValueError)
  {
    if |hands| == 0 then Ok(Position([], NoBox))
    else
      match PyIndex(handNo, |hands|)
      case None => Err(IndexError)
      case Some(h) =>
        var pts := hands[h];
        if |pts| == 0 then Err(ValueError) else Ok(Position(Enumerate(pts), BoxOf(pts)))
  }

  /** With a hand found, entry k of the list is `[k, cx_k, cy_k]` of the chosen hand, in order. */
  lemma LocateEntries(hands: seq<seq<Point>>, handNo: int)
    requires Locate(hands, handNo).Ok? && |hands| != 0
    ensures var pts := hands[PyIndex(handNo, |hands|).value];
      var lms := Locate(hands, handNo).value.landmarks;
      |lms| == |pts| &&
      forall k :: 0 <= k < |pts| ==> lms[k] == Landmark(k, pts[k].x, pts[k].y)
  {
  }

  /**
   * With a hand found, the box encloses every landmark of the list, and each
   * of its four bounds is attained by some landmark.
   */
  lemma LocateBox(hands: seq<seq<Point>>, handNo: int)
    requires Locate(hands, handNo).Ok? && |hands| != 0
    ensures var p := Locate(hands, handNo).value;
      var lms := p.landmarks;
      var b := p.box;
      b.Box? &&
      (forall k :: 0 <= k < |lms| ==> b.xmin <= lms[k].cx <= b.xmax && b.ymin <= lms[k].cy <= b.ymax) &&
      (exists k :: 0 <= k < |lms| && lms[k].cx == b.xmin) &&
      (exists k :: 0 <= k < |lms| && lms[k].cx == b.xmax) &&
      (exists k :: 0 <= k < |lms| && lms[k].cy == b.ymin) &&
      (exists k :: 0 <= k < |lms| && lms[k].cy == b.ymax)
  {
    var pts := hands[PyIndex(handNo, |hands|).value];
    var lms := Enumerate(pts);
    var xs, ys := Xs(pts), Ys(pts);
    forall k | 0 <= k < |lms|
      ensures lms[k].cx == xs[k] && lms[k].cy == ys[k]
    {
    }
    var i1 :| 0 <= i1 < |xs| && xs[i1] == Min(xs);
    var i2 :| 0 <= i2 < |xs| && xs[i2] == Max(xs);
    var i3 :| 0 <= i3 < |ys| && ys[i3] == Min(ys);
    var i4 :| 0 <= i4 < |ys| && ys[i4] == Max(ys);
    assert lms[i1].cx == Min(xs) && lms[i2].cx == Max(xs);
    assert lms[i3].cy == Min(ys) && lms[i4].cy == Max(ys);
  }

  /**
   * `(a + b) // 2`: Python's `//` floors, and Dafny's `/` agrees with it for
   * the positive divisor 2. The result lies between the two coordinates, and
   * a coordinate is its own midpoint.
   */
  function Midpoint(a: int, b: int): (m: int)
    ensures a <= m <= b || b <= m <= a
    ensures a == b ==> m == a
  {
    (a + b) / 2
  }

  /**
   * `find_distance(p1, p2)` over the stored landmark list: the two landmarks'
   * coordinates, their midpoint by floor division, and the squared length.
   */
  function FindDistance(lms: seq<Landmark>, p1: int, p2: int): (r: Result<Measure>)
    ensures r.Ok? <==> PyIndex(p1, |lms|).Some? && PyIndex(p2, |lms|).Some?
    ensures r.Err? ==> r.error == IndexError
    ensures r.Ok? ==>
      var a := lms[PyIndex(p1, |lms|).value];
      var b := lms[PyIndex(p2, |lms|).value];
      var s := r.value.points;
      s.x1 == a.cx && s.y1 == a.cy && s.x2 == b.cx && s.y2 == b.cy &&
      s.cx == Midpoint(s.x1, s.x2) && s.cy == Midpoint(s.y1, s.y2) &&
      r.value.squaredLength == SquaredLength(b.cx - a.cx, b.cy - a.cy)
  {
    match (PyIndex(p1, |lms|), PyIndex(p2, |lms|))
    case (Some(i), Some(j)) =>
      var x1, y1 := lms[i].cx, lms[i].cy;
      var x2, y2 := lms[j].cx, lms[j].cy;
      Ok(Measure(SquaredLength(x2 - x1, y2 - y1), Segment(x1, y1, x2, y2, Midpoint(x1, x2), Midpoint(y1, y2))))
    case _ => Err(IndexError)
  }

  /** The length does not depend on the order of the two landmarks. */
  lemma DistanceSymmetric(lms: seq<Landmark>, p1: int, p2: int)
    requires FindDistance(lms, p1, p2).Ok?
    ensures FindDistance(lms, p2, p1).Ok?
    ensures FindDistance(lms, p2, p1).value.squaredLength == FindDistance(lms, p1, p2).value.squaredLength
  {
    var a := lms[PyIndex(p1, |lms|).value];
    var b := lms[PyIndex(p2, |lms|).value];
    SquaredLengthNegate(b.cx - a.cx, b.cy - a.cy);
  }

  /** A landmark is at length zero from itself. */
  lemma DistanceToItself(lms: seq<Landmark>, p: int)
    requires FindDistance(lms, p, p).Ok?
    ensures FindDistance(lms, p, p).value.squaredLength == 0
  {
  }

  /**
   * The length zero means the two landmarks coincide; any other pair of
   * positions is at a positive length.
   */
  lemma DistanceZeroIff(lms: seq<Landmark>, p1: int, p2: int)
    requires FindDistance(lms, p1, p2).Ok?
    ensures var s := FindDistance(lms, p1, p2).value.points;
      FindDistance(lms, p1, p2).value.squaredLength == 0 <==> s.x1 == s.x2 && s.y1 == s.y2
  {
  }

  /**
   * `dx * dx + dy * dy`, the square of `math.hypot(dx, dy)`: never negative,
   * and zero only for the zero offset.
   */
  function SquaredLength(dx: int, dy: int): (r: int)
    ensures r >= 0
    ensures r == 0 <==> dx == 0 && dy == 0
  {
    Square(dx) + Square(dy)
  }

  /**
   * `d * d`, built up by odd numbers (`(d + 1)^2 = d^2 + 2d + 1`) so that
   * reasoning about lengths stays linear; `SquareIsProduct` ties it to `d * d`.
   */
  function Square(d: int): (r: int)
    ensures r >= 0
    ensures d != 0 ==> r > 0
    decreases if d < 0 then -d else d
  {
    if d == 0 then 0
    else if d > 0 then Square(d - 1) + 2 * d - 1
    else Square(d + 1) - 2 * d - 1
  }

  lemma {:induction false} SquareIsProduct(d: int)
    ensures Square(d) == d * d
    decreases if d < 0 then -d else d
  {
    if d > 0 {
      SquareIsProduct(d - 1);
      assert (d - 1) * (d - 1) == d * d - 2 * d + 1;
    } else if d < 0 {
      SquareIsProduct(d + 1);
      assert (d + 1) * (d + 1) == d * d + 2 * d + 1;
    }
  }

  /** Reversing the offset keeps the squared length. */
  lemma SquaredLengthNegate(dx: int, dy: int)
    ensures SquaredLength(-dx, -dy) == SquaredLength(dx, dy)
  {
    SquareNegate(dx);
    SquareNegate(dy);
  }

  lemma {:induction false} SquareNegate(d: int)
    ensures Square(-d) == Square(d)
    decreases if d < 0 then -d else d
  {
    if d > 0 {
      SquareNegate(d - 1);
    } else if d < 0 {
      SquareNegate(d + 1);
    }
  }

  /**
   * A non-negative length `d` with square `sq` is below the pixel threshold
   * `t` exactly when `sq` is below `t * t`; so comparing `hypot` with 25 is
   * comparing the squared length with 625.
   */
  lemma BelowThresholdIff(d: real, sq: int, t: nat)
    requires 0.0 <= d && d * d == sq as real
    ensures d < t as real <==> sq < t * t
  {
    var tr := t as real;
    assert (t * t) as real == tr * tr;
    if d < tr {
      assert d * d <= d * tr;
      assert d * tr < tr * tr;
    } else {
      assert tr * tr <= tr * d;
      assert tr * d <= d * d;
    }
  }

  /** The detector object, with the landmark list it stores between calls. */
  class HandDetector {
    /** `self.landmarks`: the list built by the latest `find_position`. */
    var landmarks: seq<Landmark>

    constructor ()
      ensures landmarks == []
    {
      landmarks := [];
    }

    /**
     * `find_position(img, hand_no)`: resets the stored list, then, when a hand
     * was found, appends one entry per landmark of hand `hand_no` and takes the
     * bounding box of their coordinates. The stored list is the one returned.
     */
    method FindPosition(hands: seq<seq<Point>>, handNo: int) returns (r: Result<Position>)
      modifies this
      ensures r == Locate(hands, handNo)
      ensures landmarks == (if r.Ok? then r.value.landmarks else [])
    {
      var xList: seq<int> := [];
      var yList: seq<int> := [];
      var boundingBox := NoBox;
      landmarks := [];
      if |hands| != 0 {
        var h := PyIndex(handNo, |hands|);
        if h.None? {
          return Err(IndexError);
        }
        var handLms := hands[h.value];
        var lmId := 0;
        while lmId < |handLms|
          invariant 0 <= lmId <= |handLms|
          invariant xList == Xs(handLms[..lmId])
          invariant yList == Ys(handLms[..lmId])
          invariant landmarks == Enumerate(handLms[..lmId])
        {
          var cx, cy := handLms[lmId].x, handLms[lmId].y;
          assert handLms[..lmId + 1][..lmId] == handLms[..lmId];
          xList := xList + [cx];
          yList := yList + [cy];
          landmarks := landmarks + [Landmark(lmId, cx, cy)];
          lmId := lmId + 1;
        }
        assert handLms[..|handLms|] == handLms;
        if |xList| == 0 {
          return Err(ValueError);
        }
        boundingBox := Box(Min(xList), Min(yList), Max(xList), Max(yList));
      }
      r := Ok(Position(landmarks, boundingBox));
    }
  }
}
