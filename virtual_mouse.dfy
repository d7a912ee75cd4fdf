/**
 * The per-frame gesture and cursor step of ai_virtual_mouse.py.
 *
 * Each frame the loop reads the landmark list of the tracked hand and the
 * up/down state of the index and middle fingers. With only the index finger
 * up it remaps the index fingertip from the inset camera rectangle to the
 * screen, smooths it and moves the cursor there; with both fingers up it
 * clicks when the two fingertips are closer than 25 pixels.
 */
module VirtualMouse {
  import opened Wrappers
  import opened HandTracking

  /** `cam_width, cam_height`: the camera frame size in pixels. */
  const CamWidth: int := 640
  const CamHeight: int := 480
  /** `frame`: the margin of the active rectangle inside the camera frame. */
  const Margin: int := 80
  /** `smoothening`: the divisor of the smoothing step. */
  const Smoothening: real := 5.0
  /** The click fires below this fingertip distance, in frame pixels. */
  const ClickThreshold: nat := 25

  /** The module-level cursor variables `prev_x, prev_y, curr_x, curr_y`. */
  datatype Cursor = Cursor(prevX: real, prevY: real, currX: real, currY: real)

  /** What a frame does to the outside world: `smooth_move(x, y)`, `click()`, or nothing. */
  datatype Action = NoAction | MoveTo(x: real, y: real) | Click

  /**
   * The finger state the loop reads from the fingers module: whether the
   * index and middle fingers are up, and their fingertip landmark ids.
   */
  datatype Fingers = Fingers(index: bool, middle: bool, indexTip: int, middleTip: int)

  /** The cursor variables after a frame, and the action the frame took. */
  datatype Outcome = Outcome(cursor: Cursor, action: Action)

  /** Which smoothing update a frame applies: the one in the source, or its repair. */
  datatype Smoothing = AsWritten | Corrected

  function Abs(r: real): real { if r < 0.0 then -r else r }

  /** `0 < num < den` puts `num / den` strictly between 0 and 1. */
  lemma FractionInUnit(num: real, den: real)
    requires 0.0 < num < den
    ensures 0.0 < num / den < 1.0
  {
    assert num / den > 0.0;
    assert (den - num) / den > 0.0;
    assert (den - num) / den == den / den - num / den;
    assert den / den == 1.0;
  }

  /** Scaling by a factor in `[0, 1]` keeps a non-negative value between 0 and itself. */
  lemma ScaleWithin(a: real, t: real)
    requires 0.0 <= a && 0.0 <= t <= 1.0
    ensures 0.0 <= a * t <= a
  {
    assert a * (1.0 - t) >= 0.0;
    assert a * (1.0 - t) == a - a * t;
  }

  /**
   * `np.interp(v, (x0, x1), (y0, y1))`: linear interpolation between the two
   * given points, clamped to `y0` left of `x0` and to `y1` right of `x1`.
   */
  function Interp(v: real, x0: real, x1: real, y0: real, y1: real): (r: real)
    requires x0 < x1
    ensures v <= x0 ==> r == y0
    ensures x1 <= v ==> r == y1
    ensures y0 <= y1 ==> y0 <= r <= y1
  {
    if v <= x0 then y0
    else if x1 <= v then y1
    else
      var t := (v - x0) / (x1 - x0);
      FractionInUnit(v - x0, x1 - x0);
      assert y0 <= y1 ==> 0.0 <= (y1 - y0) * t <= y1 - y0 by {
        if y0 <= y1 {
          ScaleWithin(y1 - y0, t);
        }
      }
      y0 + (y1 - y0) * t
  }

  /** Division by a positive number keeps the order. */
  lemma DivideMonotone(a: real, b: real, d: real)
    requires a <= b && 0.0 < d
    ensures a / d <= b / d
  {
    assert (b - a) / d >= 0.0;
    assert (b - a) / d == b / d - a / d;
  }

  /** `np.interp` with increasing end values never decreases. */
  lemma InterpMonotone(v: real, w: real, x0: real, x1: real, y0: real, y1: real)
    requires x0 < x1 && y0 <= y1 && v <= w
    ensures Interp(v, x0, x1, y0, y1) <= Interp(w, x0, x1, y0, y1)
  {
    if x0 < v && w < x1 {
      var tv, tw := (v - x0) / (x1 - x0), (w - x0) / (x1 - x0);
      assert Interp(v, x0, x1, y0, y1) == y0 + (y1 - y0) * tv;
      assert Interp(w, x0, x1, y0, y1) == y0 + (y1 - y0) * tw;
      DivideMonotone(v - x0, w - x0, x1 - x0);
      MultiplyMonotone(tv, tw, y1 - y0);
    }
  }

  /** Line 48: the fingertip x remapped from `[80, 560]` onto `[0, screen_width]`. */
  function RemapX(xi: int, screenWidth: real): (x: real)
    ensures 0.0 <= screenWidth ==> 0.0 <= x <= screenWidth
    ensures xi <= Margin ==> x == 0.0
    ensures xi >= CamWidth - Margin ==> x == screenWidth
    ensures xi == CamWidth / 2 ==> x == screenWidth / 2.0
  {
    assert xi == CamWidth / 2 ==> (xi as real - 80.0) / 480.0 == 0.5;
    Interp(xi as real, Margin as real, (CamWidth - Margin) as real, 0.0, screenWidth)
  }

  /** Line 49: the fingertip y remapped from `[80, 400]` onto `[0, screen_height]`. */
  function RemapY(yi: int, screenHeight: real): (y: real)
    ensures 0.0 <= screenHeight ==> 0.0 <= y <= screenHeight
    ensures yi <= Margin ==> y == 0.0
    ensures yi >= CamHeight - Margin ==> y == screenHeight
    ensures yi == CamHeight / 2 ==> y == screenHeight / 2.0
  {
    assert yi == CamHeight / 2 ==> (yi as real - 80.0) / 320.0 == 0.5;
    Interp(yi as real, Margin as real, (CamHeight - Margin) as real, 0.0, screenHeight)
  }

  /** A fingertip further right never lands further left on the screen. */
  lemma RemapXMonotone(a: int, b: int, screenWidth: real)
    requires a <= b && 0.0 <= screenWidth
    ensures RemapX(a, screenWidth) <= RemapX(b, screenWidth)
  {
    InterpMonotone(a as real, b as real, Margin as real, (CamWidth - Margin) as real, 0.0, screenWidth);
  }

  /** A fingertip further down never lands further up on the screen. */
  lemma RemapYMonotone(a: int, b: int, screenHeight: real)
    requires a <= b && 0.0 <= screenHeight
    ensures RemapY(a, screenHeight) <= RemapY(b, screenHeight)
  {
    InterpMonotone(a as real, b as real, Margin as real, (CamHeight - Margin) as real, 0.0, screenHeight);
  }

  /**
   * Lines 51-52 as written: the x step closes a fifth of the gap to the
   * target; the y step starts from `prev_x` while taking its gap from
   * `prev_y`. The previous-cursor variables are left as they were.
   */
  function SmoothAsWritten(c: Cursor, x: real, y: real): (n: Cursor)
    ensures n.prevX == c.prevX && n.prevY == c.prevY
    ensures n.currX - x == (c.prevX - x) * 0.8
    ensures n.currY - c.prevX == (y - c.prevY) / Smoothening
  {
    c.(currX := c.prevX + (x - c.prevX) / Smoothening,
       currY := c.prevX + (y - c.prevY) / Smoothening)
  }

  /**
   * The intended smoothing: each axis closes a fifth of the gap between its
   * own previous value and the target, and the result becomes the previous
   * cursor of the next frame.
   */
  function SmoothCorrected(c: Cursor, x: real, y: real): (n: Cursor)
    ensures n.prevX == n.currX && n.prevY == n.currY
    ensures n.currX - x == (c.prevX - x) * 0.8
    ensures n.currY - y == (c.prevY - y) * 0.8
  {
    var cx := c.prevX + (x - c.prevX) / Smoothening;
    var cy := c.prevY + (y - c.prevY) / Smoothening;
    Cursor(cx, cy, cx, cy)
  }

  function Smooth(mode: Smoothing, c: Cursor, x: real, y: real): Cursor
  {
    match mode
    case AsWritten => SmoothAsWritten(c, x, y)
    case Corrected => SmoothCorrected(c, x, y)
  }

  /** Both fingertip landmarks exist, so the lookups of lines 37-38 succeed. */
  predicate TipsPresent(lms: seq<Landmark>, f: Fingers)
  {
    PyIndex(f.indexTip, |lms|).Some? && PyIndex(f.middleTip, |lms|).Some?
  }

  /** The index fingertip of the frame (lines 37 and 40). */
  function IndexTip(lms: seq<Landmark>, f: Fingers): Landmark
    requires TipsPresent(lms, f)
  {
    lms[PyIndex(f.indexTip, |lms|).value]
  }

  /** A frame in move mode: a hand, both tips present, index up and middle down. */
  predicate MoveFrame(lms: seq<Landmark>, f: Fingers)
  {
    |lms| != 0 && TipsPresent(lms, f) && f.index && !f.middle
  }

  /**
   * One iteration of the loop body (lines 33-63) on the cursor variables `c`,
   * given the frame's landmark list, finger state and the screen size. An
   * `IndexError` from a fingertip lookup ends the frame with no effect.
   */
  function Frame(mode: Smoothing, c: Cursor, lms: seq<Landmark>, f: Fingers,
                 screenWidth: real, screenHeight: real): (r: Result<Outcome>)
    ensures |lms| == 0 ==> r == Ok(Outcome(c, NoAction))
    ensures r.Err? <==> |lms| != 0 && !TipsPresent(lms, f)
    ensures r.Err? ==> r.error == IndexError
    ensures r.Ok? && r.value.action.MoveTo? ==>
      f.index && !f.middle && r.value.action == MoveTo(r.value.cursor.currX, r.value.cursor.currY)
    ensures r.Ok? && r.value.action.Click? ==> f.index && f.middle
    ensures r.Ok? && !r.value.action.MoveTo? ==> r.value.cursor == c
    ensures r.Ok? && !f.index ==> r.value == Outcome(c, NoAction)
    ensures r.Ok? && mode.AsWritten? ==> r.value.cursor.prevX == c.prevX && r.value.cursor.prevY == c.prevY
  {
    if |lms| == 0 then Ok(Outcome(c, NoAction))
    else if !TipsPresent(lms, f) then Err(IndexError)
    else
      var tip := IndexTip(lms, f);
      if f.index && !f.middle then
        var n := Smooth(mode, c, RemapX(tip.cx, screenWidth), RemapY(tip.cy, screenHeight));
        Ok(Outcome(n, MoveTo(n.currX, n.currY)))
      else if f.index && f.middle then
        match FindDistance(lms, f.indexTip, f.middleTip)
        case Err(e) => Err(e)
        case Ok(m) =>
          Ok(Outcome(c, if m.squaredLength < ClickThreshold * ClickThreshold then Click else NoAction))
      else Ok(Outcome(c, NoAction))
  }

  /**
   * A frame moves the cursor exactly in move mode, and then to the smoothed
   * remapped index fingertip.
   */
  lemma MoveIff(mode: Smoothing, c: Cursor, lms: seq<Landmark>, f: Fingers, sw: real, sh: real)
    ensures var r := Frame(mode, c, lms, f, sw, sh);
      (r.Ok? && r.value.action.MoveTo?) <==> MoveFrame(lms, f)
    ensures MoveFrame(lms, f) ==>
      var tip := IndexTip(lms, f);
      Frame(mode, c, lms, f, sw, sh).value.cursor == Smooth(mode, c, RemapX(tip.cx, sw), RemapY(tip.cy, sh))
  {
  }

  /**
   * A frame clicks exactly when a hand is seen, both fingers are up and the
   * squared fingertip distance is below 625, so the distance below 25.
   */
  lemma ClickIff(mode: Smoothing, c: Cursor, lms: seq<Landmark>, f: Fingers, sw: real, sh: real)
    ensures Frame(mode, c, lms, f, sw, sh) == Ok(Outcome(c, Click)) <==>
      |lms| != 0 && TipsPresent(lms, f) && f.index && f.middle &&
      FindDistance(lms, f.indexTip, f.middleTip).value.squaredLength < ClickThreshold * ClickThreshold
  {
  }

  /**
   * In the source as written the previous cursor stays at the origin, so
   * every move frame puts the cursor at a fifth of the remapped fingertip,
   * inside `[0, screen_width / 5] x [0, screen_height / 5]`.
   */
  lemma AsWrittenMovesToFifth(c: Cursor, lms: seq<Landmark>, f: Fingers, sw: real, sh: real)
    requires c.prevX == 0.0 && c.prevY == 0.0 && 0.0 <= sw && 0.0 <= sh
    requires MoveFrame(lms, f)
    ensures var n := Frame(AsWritten, c, lms, f, sw, sh).value.cursor;
      var tip := IndexTip(lms, f);
      n.currX == RemapX(tip.cx, sw) / Smoothening && n.currY == RemapY(tip.cy, sh) / Smoothening &&
      0.0 <= n.currX <= sw / Smoothening && 0.0 <= n.currY <= sh / Smoothening
  {
    MoveIff(AsWritten, c, lms, f, sw, sh);
  }

  /** The cursor after `n` frames with the same landmarks and finger state. */
  function Repeat(mode: Smoothing, c: Cursor, lms: seq<Landmark>, f: Fingers,
                  sw: real, sh: real, n: nat): Cursor
    decreases n
  {
    if n == 0 then c
    else
      match Frame(mode, c, lms, f, sw, sh)
      case Ok(o) => Repeat(mode, o.cursor, lms, f, sw, sh, n - 1)
      case Err(_) => c
  }

  /** `n` smoothing steps towards the fixed target `(x, y)`. */
  function Settle(mode: Smoothing, c: Cursor, x: real, y: real, n: nat): Cursor
    decreases n
  {
    if n == 0 then c else Settle(mode, Smooth(mode, c, x, y), x, y, n - 1)
  }

  /** Repeating a move frame is repeated smoothing towards the remapped fingertip. */
  lemma {:induction false} RepeatMoves(mode: Smoothing, c: Cursor, lms: seq<Landmark>, f: Fingers,
                                       sw: real, sh: real, n: nat)
    requires MoveFrame(lms, f)
    decreases n
    ensures var tip := IndexTip(lms, f);
      Repeat(mode, c, lms, f, sw, sh, n) == Settle(mode, c, RemapX(tip.cx, sw), RemapY(tip.cy, sh), n)
  {
    if n > 0 {
      var tip := IndexTip(lms, f);
      MoveIff(mode, c, lms, f, sw, sh);
      RepeatMoves(mode, Smooth(mode, c, RemapX(tip.cx, sw), RemapY(tip.cy, sh)), lms, f, sw, sh, n - 1);
    }
  }

  /** As written, every smoothing step after the first lands on the same point. */
  lemma {:induction false} SettleAsWritten(c: Cursor, x: real, y: real, n: nat)
    requires n >= 1
    decreases n
    ensures Settle(AsWritten, c, x, y, n) == SmoothAsWritten(c, x, y)
  {
    if n > 1 {
      var one := SmoothAsWritten(c, x, y);
      SettleAsWritten(one, x, y, n - 1);
      assert SmoothAsWritten(one, x, y) == one;
    }
  }

  /**
   * As written, holding the fingertip still never lets the cursor approach
   * it: every move frame after the first lands on the same point.
   */
  lemma AsWrittenNeverSettles(c: Cursor, lms: seq<Landmark>, f: Fingers, sw: real, sh: real, n: nat)
    requires MoveFrame(lms, f) && n >= 1
    ensures var tip := IndexTip(lms, f);
      Repeat(AsWritten, c, lms, f, sw, sh, n) == SmoothAsWritten(c, RemapX(tip.cx, sw), RemapY(tip.cy, sh))
  {
    var tip := IndexTip(lms, f);
    RepeatMoves(AsWritten, c, lms, f, sw, sh, n);
    SettleAsWritten(c, RemapX(tip.cx, sw), RemapY(tip.cy, sh), n);
  }

  /**
   * A concrete case: a hand of 21 landmarks held at the frame centre, index
   * finger up, on a 1920 x 1080 screen. The cursor as written stays at
   * `(192, 108)` for every frame instead of approaching `(960, 540)`.
   */
  lemma AsWrittenStuckAtFifth(n: nat)
    requires n >= 1
    ensures var lms := seq(21, k => Landmark(k, 320, 240));
      var r := Repeat(AsWritten, Cursor(0.0, 0.0, 0.0, 0.0), lms, Fingers(true, false, 8, 12), 1920.0, 1080.0, n);
      r.currX == 192.0 && r.currY == 108.0
  {
    var lms := seq(21, k => Landmark(k, 320, 240));
    var f := Fingers(true, false, 8, 12);
    assert IndexTip(lms, f) == Landmark(8, 320, 240);
    AsWrittenNeverSettles(Cursor(0.0, 0.0, 0.0, 0.0), lms, f, 1920.0, 1080.0, n);
  }

  /** The y update as written agrees with the intended one exactly when `prev_x == prev_y`. */
  lemma YSmoothingReadsPrevX(c: Cursor, x: real, y: real)
    ensures SmoothAsWritten(c, x, y).currY == SmoothCorrected(c, x, y).currY <==> c.prevX == c.prevY
  {
  }

  /** Previous cursor `(100, 500)` and target y 500: the y step as written lands at 100, not 500. */
  lemma YSmoothingExample()
    ensures SmoothAsWritten(Cursor(100.0, 500.0, 0.0, 0.0), 100.0, 500.0).currY == 100.0
    ensures SmoothCorrected(Cursor(100.0, 500.0, 0.0, 0.0), 100.0, 500.0).currY == 500.0
  {
  }

  /** `0.8^n`: the share of the gap left after `n` corrected smoothing steps. */
  function Decay(n: nat): real
  {
    if n == 0 then 1.0 else 0.8 * Decay(n - 1)
  }

  /** The powers of 0.8 lie in `(0, 1]` and do not increase. */
  lemma {:induction false} DecayBounds(n: nat)
    ensures 0.0 < Decay(n) <= 1.0
    ensures Decay(n + 1) <= Decay(n)
  {
    if n > 0 {
      DecayBounds(n - 1);
    }
  }

  /** Bernoulli's inequality for 5/4, turned around: `0.8^n * (4 + n) <= 4`. */
  lemma {:induction false} DecayBernoulli(n: nat)
    ensures Decay(n) * (4.0 + n as real) <= 4.0
  {
    if n > 0 {
      DecayBernoulli(n - 1);
      DecayBounds(n - 1);
      var p := Decay(n - 1);
      assert Decay(n) * (4.0 + n as real) == 0.8 * (p * (4.0 + (n - 1) as real) + p);
    }
  }

  /** Each corrected smoothing step shrinks the gap to the target by the factor 4/5 on each axis. */
  lemma {:induction false} SettleGap(c: Cursor, x: real, y: real, n: nat)
    decreases n
    ensures var r := Settle(Corrected, c, x, y, n);
      r.prevX - x == Decay(n) * (c.prevX - x) && r.prevY - y == Decay(n) * (c.prevY - y)
  {
    if n > 0 {
      var one := SmoothCorrected(c, x, y);
      SettleGap(one, x, y, n - 1);
      ShrinkOnce(Decay(n - 1), c.prevX - x, one.prevX - x);
      ShrinkOnce(Decay(n - 1), c.prevY - y, one.prevY - y);
    }
  }

  lemma ShrinkOnce(p: real, g: real, h: real)
    requires h == g * 0.8
    ensures p * h == (0.8 * p) * g
  {
  }

  /**
   * With the corrected update, each move frame with the same fingertip
   * shrinks the gap between the cursor and the remapped fingertip by the
   * factor 4/5 on each axis.
   */
  lemma CorrectedGap(c: Cursor, lms: seq<Landmark>, f: Fingers, sw: real, sh: real, n: nat)
    requires MoveFrame(lms, f)
    ensures var tip := IndexTip(lms, f);
      var x, y := RemapX(tip.cx, sw), RemapY(tip.cy, sh);
      var r := Repeat(Corrected, c, lms, f, sw, sh, n);
      r.prevX - x == Decay(n) * (c.prevX - x) && r.prevY - y == Decay(n) * (c.prevY - y)
  {
    var tip := IndexTip(lms, f);
    RepeatMoves(Corrected, c, lms, f, sw, sh, n);
    SettleGap(c, RemapX(tip.cx, sw), RemapY(tip.cy, sh), n);
  }

  /** A gap `d` scaled by `0.8^n` is within `eps` of zero once `n * eps >= 4 * |d|`. */
  lemma ScaledGapSmall(d: real, eps: real, n: nat)
    requires 0.0 < eps && 4.0 * Abs(d) <= n as real * eps
    ensures -eps <= Decay(n) * d <= eps
  {
    DecayBounds(n);
    DecayTimesFrames(n);
    ScaledBound(Decay(n), n as real, Abs(d), eps);
    AbsOfScaled(Decay(n), d);
  }

  lemma DecayTimesFrames(n: nat)
    ensures Decay(n) * (n as real) <= 4.0
  {
    DecayBounds(n);
    DecayBernoulli(n);
    assert Decay(n) * (4.0 + n as real) == 4.0 * Decay(n) + Decay(n) * (n as real);
  }

  /** `p * n <= 4` and `4 * a <= n * eps` give `p * a <= eps`. */
  lemma ScaledBound(p: real, n: real, a: real, eps: real)
    requires 0.0 <= p && 0.0 < eps && p * n <= 4.0 && 4.0 * a <= n * eps
    ensures p * a <= eps
  {
    MultiplyMonotone(4.0 * a, n * eps, p);
    assert p * (n * eps) == (p * n) * eps;
    MultiplyMonotone(p * n, 4.0, eps);
    assert p * (4.0 * a) == 4.0 * (p * a);
  }

  /** Multiplying by a non-negative number keeps the order. */
  lemma MultiplyMonotone(a: real, b: real, c: real)
    requires a <= b && 0.0 <= c
    ensures c * a <= c * b && a * c <= b * c
  {
    assert (b - a) * c >= 0.0;
  }

  lemma AbsOfScaled(p: real, d: real)
    requires 0.0 <= p
    ensures var g := p * d; Abs(g) == p * Abs(d)
  {
    if d < 0.0 {
      assert p * d == -(p * (-d));
      assert p * (-d) >= 0.0;
    } else {
      assert p * d >= 0.0;
    }
  }

  /** The previous cursor is within `eps` of `(x, y)` on both axes. */
  predicate Near(r: Cursor, x: real, y: real, eps: real)
  {
    -eps <= r.prevX - x <= eps && -eps <= r.prevY - y <= eps
  }

  /** After `n` corrected steps, with `n * eps` covering four times the initial gap. */
  lemma SettleWithin(c: Cursor, x: real, y: real, eps: real, n: nat)
    requires 0.0 < eps && 4.0 * (Abs(c.prevX - x) + Abs(c.prevY - y)) <= n as real * eps
    ensures Near(Settle(Corrected, c, x, y, n), x, y, eps)
  {
    var r := Settle(Corrected, c, x, y, n);
    SettleGap(c, x, y, n);
    GapWithin(c.prevX, x, r.prevX, eps, n);
    GapWithin(c.prevY, y, r.prevY, eps, n);
  }

  lemma GapWithin(start: real, target: real, now: real, eps: real, n: nat)
    requires 0.0 < eps && 4.0 * Abs(start - target) <= n as real * eps
    requires now - target == Decay(n) * (start - target)
    ensures -eps <= now - target <= eps
  {
    ScaledGapSmall(start - target, eps, n);
  }

  /** A frame count `m` with `m * eps` covering `4 * d`. */
  lemma EnoughFrames(d: real, eps: real) returns (m: nat)
    requires 0.0 <= d && 0.0 < eps
    ensures 4.0 * d <= m as real * eps
  {
    var q := 4.0 * d / eps;
    m := q.Floor + 1;
    assert q * eps == 4.0 * d;
    MultiplyMonotone(q, m as real, eps);
  }

  /** From frame `m` on, repeating the frame keeps the corrected cursor within `eps` of `(x, y)`. */
  ghost predicate SettledFrom(c: Cursor, lms: seq<Landmark>, f: Fingers, sw: real, sh: real,
                              x: real, y: real, eps: real, m: nat)
  {
    forall n: nat :: m <= n ==> Near(Repeat(Corrected, c, lms, f, sw, sh, n), x, y, eps)
  }

  /**
   * With the corrected update, holding the fingertip still makes the cursor
   * converge to the remapped fingertip: for every tolerance there is a frame
   * count after which both axes stay within it.
   */
  lemma CorrectedConverges(c: Cursor, lms: seq<Landmark>, f: Fingers, sw: real, sh: real, eps: real)
    requires MoveFrame(lms, f) && 0.0 < eps
    ensures var tip := IndexTip(lms, f);
      var x, y := RemapX(tip.cx, sw), RemapY(tip.cy, sh);
      exists m: nat :: SettledFrom(c, lms, f, sw, sh, x, y, eps, m)
  {
    var tip := IndexTip(lms, f);
    var x, y := RemapX(tip.cx, sw), RemapY(tip.cy, sh);
    var m := EnoughFrames(Abs(c.prevX - x) + Abs(c.prevY - y), eps);
    forall n: nat | m <= n
      ensures Near(Repeat(Corrected, c, lms, f, sw, sh, n), x, y, eps)
    {
      MultiplyMonotone(m as real, n as real, eps);
      SettleWithin(c, x, y, eps, n);
      RepeatMoves(Corrected, c, lms, f, sw, sh, n);
    }
    assert SettledFrom(c, lms, f, sw, sh, x, y, eps, m);
  }

  /** With the corrected update a cursor on the screen stays on the screen. */
  lemma CorrectedStaysOnScreen(c: Cursor, lms: seq<Landmark>, f: Fingers, sw: real, sh: real)
    requires 0.0 <= c.prevX <= sw && 0.0 <= c.prevY <= sh
    requires Frame(Corrected, c, lms, f, sw, sh).Ok?
    ensures var n := Frame(Corrected, c, lms, f, sw, sh).value.cursor;
      0.0 <= n.prevX <= sw && 0.0 <= n.prevY <= sh
  {
    if MoveFrame(lms, f) {
      MoveIff(Corrected, c, lms, f, sw, sh);
    }
  }

  /**
   * The script's cursor state: the screen size read once at start-up and
   * the four module-level cursor variables the loop reassigns.
   */
  class Mouse {
    const screenWidth: real
    const screenHeight: real
    var prevX: real
    var prevY: real
    var currX: real
    var currY: real

    function State(): Cursor
      reads this
    {
      Cursor(prevX, prevY, currX, currY)
    }

    /**
     * What every state of the script as written satisfies: the previous
     * cursor stays at the origin and the cursor within a fifth of the screen.
     */
    ghost predicate Valid()
      reads this
    {
      0.0 <= screenWidth && 0.0 <= screenHeight &&
      prevX == 0.0 && prevY == 0.0 &&
      0.0 <= currX <= screenWidth / Smoothening && 0.0 <= currY <= screenHeight / Smoothening
    }

    /** Lines 15 and 20-21: the screen size and the cursor variables at zero. */
    constructor (screenWidth: real, screenHeight: real)
      requires 0.0 <= screenWidth && 0.0 <= screenHeight
      ensures Valid()
      ensures this.screenWidth == screenWidth && this.screenHeight == screenHeight
      ensures State() == Cursor(0.0, 0.0, 0.0, 0.0)
    {
      this.screenWidth := screenWidth;
      this.screenHeight := screenHeight;
      prevX, prevY := 0.0, 0.0;
      currX, currY := 0.0, 0.0;
    }

    /** One iteration of the loop body, lines 33-63, as written. */
    method Step(lms: seq<Landmark>, f: Fingers) returns (r: Result<Action>)
      requires Valid()
      modifies this
      ensures Valid()
      ensures var o := Frame(AsWritten, old(State()), lms, f, screenWidth, screenHeight);
        if o.Ok? then r == Ok(o.value.action) && State() == o.value.cursor
        else r == Err(o.error) && State() == old(State())
    {
      r := Ok(NoAction);
      if |lms| != 0 {
        var index := PyIndex(f.indexTip, |lms|);
        var middle := PyIndex(f.middleTip, |lms|);
        if index.None? || middle.None? {
          return Err(IndexError);
        }
        var xi, yi := lms[index.value].cx, lms[index.value].cy;
        if f.index && !f.middle {
          var x := RemapX(xi, screenWidth);
          var y := RemapY(yi, screenHeight);
          currX := prevX + (x - prevX) / Smoothening;
          currY := prevX + (y - prevY) / Smoothening;
          r := Ok(MoveTo(currX, currY));
          // Line 56 binds two new names, so `prev_x, prev_y` keep their value.
          var xPrev, yPrev := currX, currY;
        }
        if f.index && f.middle {
          var d := FindDistance(lms, f.indexTip, f.middleTip);
          // The two lookups above succeeded, so `find_distance` cannot raise here.
          assert d.Ok?;
          if d.value.squaredLength < ClickThreshold * ClickThreshold {
            r := Ok(Click);
          }
        }
      }
    }
  }
}
