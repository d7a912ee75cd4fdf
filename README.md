# Virtual mouse: hand landmarks to cursor moves and clicks

This project models the core of a webcam virtual mouse. A hand detector turns
a camera frame into a list of 21 hand landmarks, each written `[id, cx, cy]` in
frame pixels. A per-frame loop then reads two fingers:

- with only the index finger up, it remaps the index fingertip from the inset
  rectangle `[80, 560] x [80, 400]` of the 640 x 480 frame onto the screen,
  smooths it with divisor 5 and moves the cursor there;
- with the index and middle fingers up, it clicks when the two fingertips are
  less than 25 pixels apart.

The project has three modules:

- `Wrappers` holds `Option`, `Result`, and the two Python exceptions the code
  can raise: `IndexError` and `ValueError`.
- `HandTracking` models `HandDetector.find_position` as the class
  `HandDetector`. Its method updates the stored landmark list with a loop. The
  method is proved against the pure function `Locate`. `find_distance` is a pure
  function over a landmark list, including Python's negative subscripts and
  floor-division midpoint.
- `VirtualMouse` models the loop body as the pure function `Frame` and as the
  class `Mouse`. `Mouse` holds the four module-level cursor variables, and its
  imperative `Step` is proved against `Frame`. `np.interp` is modelled over
  reals as clamped linear interpolation.

The smoothing is modelled exactly as written, with two slips kept:

- the y update reads `prev_x`;
- the final assignment binds the new names `x_prev, y_prev`, so `prev_x, prev_y`
  stay 0 forever.

The evident intent is a cursor that follows the fingertip smoothly. The model
follows the code as written. It also defines the corrected update, `Smoothing.Corrected`, and proves
what the authors evidently wanted from it. See "## Findings".

## Model

| member | source | states |
|---|---|---|
| HandTracking.PyIndex | hand_tracking_module.py:59-60 | a Python subscript `s[i]` succeeds exactly when `-len(s) <= i < len(s)`; a negative index counts from the end |
| HandTracking.Min | hand_tracking_module.py:50-51 | `min()` of a non-empty list is at most every element and is one of them |
| HandTracking.Max | hand_tracking_module.py:50-51 | `max()` of a non-empty list is at least every element and is one of them |
| HandTracking.Xs | hand_tracking_module.py:45 | `x_list` holds the x coordinate of every landmark, in order |
| HandTracking.Ys | hand_tracking_module.py:46 | `y_list` holds the y coordinate of every landmark, in order |
| HandTracking.Enumerate | hand_tracking_module.py:40-47 | entry k of the landmark list is `[k, cx_k, cy_k]` |
| HandTracking.Locate | hand_tracking_module.py:33-56 | no hand found gives `([], [])`; a bad `hand_no` raises IndexError; a hand with no landmarks raises ValueError from `min`; otherwise the result is a list and a box |
| HandTracking.LocateEntries | hand_tracking_module.py:40-47 | with a hand found, the list has one `[k, cx, cy]` entry per landmark of hand `hand_no`, in order |
| HandTracking.LocateBox | hand_tracking_module.py:50-52 | the bounding box encloses every landmark of the list, and each of its four bounds is attained by a landmark |
| HandTracking.HandDetector.constructor | hand_tracking_module.py:20 | a new detector stores the empty landmark list |
| HandTracking.HandDetector.FindPosition | hand_tracking_module.py:33-56 | the loop's result equals `Locate`; the stored list is reset and then becomes the returned list (empty on either exception) |
| HandTracking.Midpoint | hand_tracking_module.py:61 | `(a + b) // 2` lies between the two coordinates and is the coordinate itself when they are equal |
| HandTracking.FindDistance | hand_tracking_module.py:58-68 | succeeds exactly when both subscripts are valid, else IndexError; returns the two landmarks' coordinates, their midpoint and the squared length between them |
| HandTracking.DistanceSymmetric | hand_tracking_module.py:67 | swapping `p1` and `p2` keeps the length |
| HandTracking.DistanceToItself | hand_tracking_module.py:67 | a landmark is at length zero from itself |
| HandTracking.DistanceZeroIff | hand_tracking_module.py:67 | the length is zero exactly when the two points coincide |
| HandTracking.SquaredLength | hand_tracking_module.py:67 | `hypot(dx, dy)^2` is never negative and is zero only for the zero offset |
| HandTracking.SquareIsProduct | hand_tracking_module.py:67 | the recursive square equals `d * d` |
| HandTracking.SquaredLengthNegate | hand_tracking_module.py:67 | reversing the offset keeps the squared length |
| HandTracking.BelowThresholdIff | ai_virtual_mouse.py:61 | a length is below 25 exactly when its square is below 625 |
| VirtualMouse.Interp | ai_virtual_mouse.py:48-49 | `np.interp` clamps to the end values outside the input range and stays between increasing end values |
| VirtualMouse.InterpMonotone | ai_virtual_mouse.py:48-49 | `np.interp` with increasing end values is monotone |
| VirtualMouse.RemapX | ai_virtual_mouse.py:48 | the fingertip x lands in `[0, screen_width]`: 0 at or left of 80, the full width at or right of 560, half the width at 320 |
| VirtualMouse.RemapY | ai_virtual_mouse.py:49 | the fingertip y lands in `[0, screen_height]`: 0 at or above 80, the full height at or below 400, half the height at 240 |
| VirtualMouse.RemapXMonotone | ai_virtual_mouse.py:48 | a fingertip further right never maps further left |
| VirtualMouse.RemapYMonotone | ai_virtual_mouse.py:49 | a fingertip further down never maps further up |
| VirtualMouse.SmoothAsWritten | ai_virtual_mouse.py:51-52 | as written: x closes a fifth of its gap; y starts from `prev_x` and takes its gap from `prev_y`; the previous cursor is unchanged |
| VirtualMouse.SmoothCorrected | ai_virtual_mouse.py:51-56 | intended: each axis closes a fifth of its own gap, and the result becomes the previous cursor |
| VirtualMouse.Frame | ai_virtual_mouse.py:33-63 | no hand means no action; a missing fingertip raises IndexError; only a move-mode frame moves, and to the new cursor; only a click-mode frame clicks; any other frame leaves the cursor alone; as written, the previous cursor never changes |
| VirtualMouse.MoveIff | ai_virtual_mouse.py:46-54 | a frame moves exactly in move mode (hand seen, index up, middle down), and then to the smoothed remapped index fingertip |
| VirtualMouse.ClickIff | ai_virtual_mouse.py:58-63 | a frame clicks exactly when a hand is seen, both fingers are up and the squared fingertip distance is below 625 |
| VirtualMouse.AsWrittenMovesToFifth | ai_virtual_mouse.py:20-21 | with the previous cursor at the origin, a move puts the cursor at a fifth of the remapped fingertip, inside `[0, w/5] x [0, h/5]` |
| VirtualMouse.RepeatMoves | ai_virtual_mouse.py:46-56 | repeating a move frame is repeated smoothing towards the remapped fingertip |
| VirtualMouse.SettleAsWritten | ai_virtual_mouse.py:51-56 | as written, every smoothing step after the first lands on the same point |
| VirtualMouse.AsWrittenNeverSettles | ai_virtual_mouse.py:56 | as written, holding the fingertip still leaves the cursor where the first frame put it |
| VirtualMouse.AsWrittenStuckAtFifth | ai_virtual_mouse.py:56 | a hand held at the frame centre on a 1920 x 1080 screen leaves the cursor at `(192, 108)` on every frame |
| VirtualMouse.YSmoothingReadsPrevX | ai_virtual_mouse.py:52 | the y update as written agrees with the intended one exactly when `prev_x == prev_y` |
| VirtualMouse.YSmoothingExample | ai_virtual_mouse.py:52 | with the previous cursor at `(100, 500)` and target y 500, the y update as written gives 100 instead of 500 |
| VirtualMouse.DecayBounds | ai_virtual_mouse.py:19 | `0.8^n` lies in `(0, 1]` and does not increase |
| VirtualMouse.DecayBernoulli | ai_virtual_mouse.py:19 | `0.8^n * (4 + n) <= 4` |
| VirtualMouse.SettleGap | ai_virtual_mouse.py:51-56 | after n corrected steps, each axis's gap to the target is `0.8^n` times its initial gap |
| VirtualMouse.CorrectedGap | ai_virtual_mouse.py:33-63 | after n corrected move frames with a still fingertip, each axis's gap is `0.8^n` times the initial gap |
| VirtualMouse.SettleWithin | ai_virtual_mouse.py:51-56 | once `n * eps` reaches four times the initial gap, n corrected steps leave the cursor within `eps` on both axes |
| VirtualMouse.CorrectedConverges | ai_virtual_mouse.py:33-63 | with the corrected update, a still fingertip makes the cursor converge to it: for every tolerance, some frame count keeps it within that tolerance from then on |
| VirtualMouse.CorrectedStaysOnScreen | ai_virtual_mouse.py:48-56 | with the corrected update, a cursor on the screen stays on the screen |
| VirtualMouse.Mouse.constructor | ai_virtual_mouse.py:15-21 | the screen size is read once, and the cursor variables start at zero |
| VirtualMouse.Mouse.Step | ai_virtual_mouse.py:33-63 | one iteration of the loop body, imperatively: the action and the new cursor variables are those of `Frame` as written, and on an exception the state is unchanged; it keeps the invariant that `prev` is at the origin and the cursor within a fifth of the screen |

## Left out

- Camera capture, image flipping, drawing (circles, rectangles, text, windows) and the `draw` parameters: output only, they do not change the modelled state.
- MediaPipe and `find_hands`: the hands found in a frame are an input to `FindPosition`, as one sequence of pixel points per hand. The case where `find_position` is called before `find_hands` (with `self.results` still `None`) is not modelled.
- The conversion `int(landmark.x * width)` of normalised coordinates to pixels: landmarks arrive as integer pixel points.
- `HandDetector.__init__`'s configuration fields, which only go to MediaPipe: the constructor models only the empty landmark list.
- `find_distance` is a function of the landmark list passed to it, not a method reading `self.landmarks`. The loop passes it the list that `find_position` just stored.
- The fingers module is not part of this model. The loop's `index` and `middle` flags, from `identify_up_fingers`, and its fingertip ids arrive as the `Fingers` input. Line 31's `find_position(img, False)` selects hand 0, because `False == 0` in Python.
- HandTracking.FindDistance: returns the squared length instead of the float `math.hypot`. `BelowThresholdIff` connects the two for the threshold. Float rounding of `hypot` near 25 is not modelled.
- Floating point in general: `np.interp`, the smoothing and the screen size are exact reals, not float64.
- autopy: the screen size enters the `Mouse` constructor, `smooth_move` and `click` are the `MoveTo` and `Click` actions, and the size is assumed non-negative.
- The frame rate computation, `cv2.waitKey` and the two `main` loops: timing and I/O only.
- An exception in the source ends the script. The model returns `Err` and leaves the cursor variables unchanged.

## Findings

| source | as written | input that shows it | evidently intended | confidence | as-written member | corrected member |
|---|---|---|---|---|---|---|
| ai_virtual_mouse.py:52 | `curr_y = prev_x + (y - prev_y) / smoothening` starts the y step from the x coordinate | previous cursor `(100, 500)`, target y 500: the new y is 100, not 500 (hidden as written, because the previous cursor stays at the origin) | `curr_y = prev_y + (y - prev_y) / smoothening` | high by reading; not executed | VirtualMouse.YSmoothingExample | VirtualMouse.SettleGap |
| ai_virtual_mouse.py:56 | `x_prev, y_prev = curr_x, curr_y` binds new names, so `prev_x, prev_y` stay 0 and every move lands at a fifth of the target | a hand held at the frame centre on a 1920 x 1080 screen: the cursor stays at `(192, 108)` instead of approaching `(960, 540)` | `prev_x, prev_y = curr_x, curr_y`, so the cursor converges to the fingertip | high by reading; not executed | VirtualMouse.AsWrittenStuckAtFifth | VirtualMouse.CorrectedConverges |
