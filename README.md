# Kinetic scroll, modelled in Dafny

KineticScroll is an IntelliJ plugin that scrolls a component with a held mouse
button and, on release, keeps it moving along a decaying "trail". This project
models the plugin's core and proves properties of the model:

- **Trail motion models** (`trails.dfy`, module `Trails`). A trail maps two
  millisecond timestamps to the continuous displacement on each axis between
  them, and says when the fling is over. There are three kinds:
  - `NoTrail`
  - `VerticalTrail`
  - distance-based trails, with an exponential or a linear slowdown law.

  `TrailAlgorithms.kt` and `TailAlgorithms.kt` declare the same family. They
  differ only in the exponential trail's speed threshold 1/2^n: `TailAlgorithms.kt`
  fixes n = 12, and `TrailAlgorithms.kt` derives n from the `subpixelTrail`
  setting. Both are instances of one `ExponentialSlowdownTrail` that takes n as a
  parameter.
- **The per-press `Handler`** (`kinetic_scroll.dfy`, module `KineticScroll`). It
  is a class with the source's fields:
  - While dragging, it gathers the reversed pointer movement and a windowed
    velocity estimate.
  - On release after the activation delay, it builds a trail.
  - On every alarm tick it scrolls the pending displacement in whole units and
    carries the fraction to the next tick.
  - It disposes itself once the trail is finished.

  `EventListener.DisposeHandler` models `disposeHandler`.
- **Settings** (`settings.dfy`, module `FMSSettings`): the two enumerations, the
  mapping between the centred speed slider (0..100, 50 = x1) and the stored
  percentage (20..500), and the slider's snap to its centre.
- **Kotlin runtime pieces** (`kotlin.dfy`, module `Kotlin`):
  - `Double.toInt()`/`toLong()` as truncation toward zero
  - `coerceIn`, `max`, `abs`, `sign`
  - `Long.MIN_VALUE`, the source's ln 2 literal, nullable values

Time and the scrolled component are explicit:
- `System.currentTimeMillis()` becomes a `now` argument.
- The `Alarm` becomes the `Handler.Fling` loop, which calls `DoScroll` every
  `delayMs`.
- `scrollComponent` becomes the ghost sequence `Handler.emitted` of the
  (dx, dy) pairs it would receive.

The central invariant is `Handler.Valid`:
- The carry stays strictly within one unit on each axis.
- The whole units scrolled plus the carry equal all the continuous displacement
  fed so far.
- After release, what was fed is exactly the trail's own displacement from
  release to the last tick.

`Handler.Fling` uses this invariant to prove that a fling always ends, and that
it then accounts for the trail's entire displacement.

`kotlin.math.ln` and `2.0.pow` are left uninterpreted: they are fields of a
`Transcendentals` value, and the only fact the model uses is that a power of two
is positive, apart from the hypotheses `ExponentialRemainingHalves` and
`ExponentialScenario` state (pow2 doubling over one unit; ln 4 = 2·ln 2).

## Model

| member | source | states |
|---|---|---|
| Kotlin.Trunc | src/main/kotlin/FMSSettings.kt:26 | `toInt`/`toLong` of a finite value truncates toward zero: within one unit of the argument, never beyond it, same sign |
| Kotlin.CoerceIn | src/main/kotlin/TrailAlgorithms.kt:43-44 | `coerceIn(lo, hi)` (callers must have lo <= hi) lands in [lo, hi]: the identity inside, lo below, hi above |
| FMSSettings.SliderToScale | src/main/kotlin/FMSSettings.kt:21-35 | slider 0..100 maps into 20..500 percent; the left half stays below x1 and the right half at or above it |
| FMSSettings.ScaleToSlider | src/main/kotlin/FMSSettings.kt:38-50 | percent 20..500 maps into slider 0..100; below 100 percent lands on the left half, from 100 percent on the right half |
| FMSSettings.SliderToScaleLandmarks | src/main/kotlin/FMSSettings.kt:21-35 | slider 0, 50, 100 give 20, 100, 500 percent (x0.2, x1, x5) |
| FMSSettings.ScaleToSliderLandmarks | src/main/kotlin/FMSSettings.kt:38-50 | 20, 100, 500 percent show as slider 0, 50, 100 |
| FMSSettings.SliderToScaleMonotone | src/main/kotlin/FMSSettings.kt:22-34 | moving the slider right never lowers the scale |
| FMSSettings.ScaleToSliderMonotone | src/main/kotlin/FMSSettings.kt:39-49 | a larger scale never shows the slider further left |
| FMSSettings.SliderRoundTrip | src/main/kotlin/FMSSettings.kt:21-50 | in exact arithmetic, stored-then-shown slider positions come back exactly on the right half and at most one position left on the left half; slider 1 comes back as 0 |
| FMSSettings.SnapToCenter | src/main/kotlin/FMSSettings.kt:115-122 | the snapped position is 50 exactly when the slider is within 3 of the centre; otherwise it is left where it is |
| FMSSettings.StoredScale | src/main/kotlin/FMSSettings.kt:115-126 | the change listener stores a scale in 20..500, and exactly x1 (100) anywhere in 47..53 |
| Trails.DeltaX | src/main/kotlin/TrailAlgorithms.kt:19-47 | `NoTrail` and `VerticalTrail` never move horizontally; an empty interval moves nothing |
| Trails.DeltaY | src/main/kotlin/TrailAlgorithms.kt:19-54 | `NoTrail` never moves; `VerticalTrail` moves vertically exactly as the trail it wraps; an empty interval moves nothing |
| Trails.AxisDelta | src/main/kotlin/TrailAlgorithms.kt:42-54 | one axis of `deltaX`/`deltaY` is the difference of `distance` at the timestamps clamped into [initTs, axisEnd] (the equal-points shortcut changes nothing); intervals wholly before the start or after the axis end give 0 |
| Trails.WithScrollMode | src/main/kotlin/TrailAlgorithms.kt:7-27 | NONE gives a trail finished at every time with zero deltas; VERTICAL keeps `finished` and `deltaY` and zeroes `deltaX`; BOTH returns the trail itself; soundness and start time carry over |
| Trails.FinishedIffHorizon | src/main/kotlin/TrailAlgorithms.kt:19-40 | a trail is finished exactly from its end on (`end <= from`), through `VerticalTrail`'s delegation, and always for `NoTrail` |
| Trails.FinishedStaysFinished | src/main/kotlin/TrailAlgorithms.kt:40 | once finished, a trail stays finished at every later time |
| Trails.ActiveTrailDefined | src/main/kotlin/TrailAlgorithms.kt:42-54 | sampling a built trail that is not yet finished, at or after its start, never makes `coerceIn` throw on either axis |
| Trails.DeltasAdditive | src/main/kotlin/TrailAlgorithms.kt:42-54 | delta over [a, b] plus delta over [b, c] equals delta over [a, c], on each axis and for every trail kind (also TailAlgorithms.kt:43-55) |
| Trails.FinishedTrailIsStill | src/main/kotlin/TrailAlgorithms.kt:40-54 | after its end a trail moves nothing further on either axis |
| Trails.DeltasTelescope | src/main/kotlin/TailAlgorithms.kt:43-55 | the deltas between any run of successive tick times sum to the delta between the first and the last |
| Trails.ExponentialRemainingHalves | src/main/kotlin/TrailAlgorithms.kt:68-72 | where 2^x doubles from x to x + 1, the exponential `distance`, minus the distance still to go, halves every p ms: distance(t + p) = distance(t)/2 |
| Trails.LinearDistanceMagnitude | src/main/kotlin/TrailAlgorithms.kt:104-106 | the linear `distance` is sign(v0) times the distance covered at speed abs(v0), so opposite velocities mirror each other; it is 0 at t = 0 |
| Trails.Log2Speed | src/main/kotlin/TrailAlgorithms.kt:80-82 | the exponent r is log2 of the combined speed: ln(vX² + vY²) = 2·r·ln 2 |
| Trails.ExponentialEndOffset | src/main/kotlin/TrailAlgorithms.kt:82 | the exponential trail's end offset is p·(n + log2 of the speed) truncated, so within one millisecond of it |
| Trails.ThresholdLengthensTrail | src/main/kotlin/TrailAlgorithms.kt:66-82 | a higher threshold exponent n never ends the exponential trail sooner |
| Trails.ExponentialSlowdownTrail | src/main/kotlin/TrailAlgorithms.kt:57-85 | p = max(pUnsafe, 0) + 1 >= 1 whatever the input; endX = endY = end; with nonzero speed, end = initTs + p·(n + log2 of the combined speed), truncated; at zero speed the trail is finished at once (Long.MIN_VALUE end); the trail is sound and starts at initTs |
| Trails.TailExponentialTrail | src/main/kotlin/TailAlgorithms.kt:5-84 | the exponential trail the handler builds, with the fixed threshold n = 12: it keeps vX, vY and initTs; p = max(pUnsafe, 0) + 1; endX = endY = end = initTs + p·(12 + log2 of the speed) truncated at nonzero speed; finished at once at zero speed; sound, starting at initTs |
| Trails.SubpixelThreshold | src/main/kotlin/TrailAlgorithms.kt:66 | n = (subpixelTrail + 20)/10 lies in [2, 12] for the setting's range 0..100, and reaches 12 at 100 |
| Trails.SubpixelExponentialTrail | src/main/kotlin/TrailAlgorithms.kt:57-85 | the exponential trail with `subpixelTrail`: it keeps vX, vY and initTs; p = max(pUnsafe, 0) + 1; endX = endY = end = initTs + p·(n + log2 of the speed) truncated, n = (subpixelTrail + 20)/10, at nonzero speed; finished at once at zero speed; sound, starting at initTs |
| Trails.ExponentialScenario | src/main/kotlin/TrailAlgorithms.kt:65-82 | speed 2 px/ms with decay setting 500 and subpixel setting 20 ends 2505 ms after release: finished at +2505, not at +2504 |
| Trails.LinearRate | src/main/kotlin/TrailAlgorithms.kt:95 | the linear deceleration lies in [0.001, 0.008] px/ms² for settings 0..1000: 0.008 at 0 and 0.001 at 1000 |
| Trails.StopMs | src/main/kotlin/TrailAlgorithms.kt:100-101 | `(abs(v)/p).toLong()` is the whole number k with k·p <= abs(v) < (k+1)·p |
| Trails.AxisStopTs | src/main/kotlin/TailAlgorithms.kt:99-100 | an axis of a linear trail is clamped no earlier than initTs and at the last whole millisecond before its velocity reaches zero |
| Trails.LinearSlowdownTrail | src/main/kotlin/TrailAlgorithms.kt:88-107 | the law is the setting's deceleration; each axis end is initTs + floor(abs(v)/p), so >= initTs; end = max(endX, endY); the trail is sound, starts at initTs and has the linear shape |
| Trails.LinearDecays | src/main/kotlin/TrailAlgorithms.kt:97-106 | from the trail's start on, on each axis, a window of len ms never moves the view further than an earlier window of the same length: the linear trail only slows down |
| Trails.LinearNeverReverses | src/main/kotlin/TrailAlgorithms.kt:100-106 | for from <= to, each axis of a linear trail moves in the direction of its initial velocity or not at all |
| KineticScroll.Accumulate | src/main/kotlin/KineticScroll.kt:314-318 | one tick on one axis: the scrolled whole units plus the new carry equal the delta plus the old carry; the carry is strictly within one unit; truncation toward zero never overshoots |
| KineticScroll.LastMoveWeight | src/main/kotlin/KineticScroll.kt:286-290 | the weight of the previous velocity estimate, (windowLeft/allWindow)², lies strictly in (0, 1) |
| KineticScroll.Blend | src/main/kotlin/KineticScroll.kt:291-294 | with a weight in [0, 1], the blended velocity lies between the previous estimate and the raw velocity |
| KineticScroll.NewVelocity | src/main/kotlin/KineticScroll.kt:275-295 | when the window does not reach back past the previous sample the raw velocity move/Δt replaces the estimate; in every case the new estimate lies between the previous estimate and move/Δt |
| KineticScroll.CarriedStep | src/main/kotlin/KineticScroll.kt:314-320 | a tick keeps the carry within one unit and the whole units scrolled plus the carry equal to everything fed |
| KineticScroll.TrailFedStep | src/main/kotlin/KineticScroll.kt:304-311 | a tick on an unfinished trail can sample both axes and keeps "fed since release = trail displacement from release to the last tick" |
| KineticScroll.TrailFedFinished | src/main/kotlin/KineticScroll.kt:305-308 | a tick on a finished trail feeds nothing and keeps the same accounting |
| KineticScroll.TrailFedAtRelease | src/main/kotlin/KineticScroll.kt:249-253 | at release the accounting starts at zero: the new trail has moved nothing between release and the release tick |
| KineticScroll.ReleaseTrail | src/main/kotlin/KineticScroll.kt:250-253 | the trail built at release is sound and starts at the release time; EXPONENTIAL picks the exponential trail of TailAlgorithms.kt and LINEAR the linear one, both from the release velocity and decay setting; VERTICAL wraps that trail as a `VerticalTrail` with zero horizontal movement; NONE gives a trail finished at once, any other mode a trail with an end |
| KineticScroll.Handler.constructor | src/main/kotlin/KineticScroll.kt:202-229 | the settings are read once; the press time is the first scroll and move time; `trailSince` = press + activationMs; deltas, carry and velocity start at 0; no trail; not disposed |
| KineticScroll.Handler.Dispose | src/main/kotlin/KineticScroll.kt:237-241 | the handler is disposed |
| KineticScroll.Handler.WindowStart | src/main/kotlin/KineticScroll.kt:279 | the velocity window starts at the later of the press time and `now - velocityWindowMs` |
| KineticScroll.Handler.UpdateVelocity | src/main/kotlin/KineticScroll.kt:275-295 | nothing changes unless `now` is after the previous sample; otherwise each axis becomes `NewVelocity` over the window max(press, now - velocityWindowMs) |
| KineticScroll.Handler.MouseMoved | src/main/kotlin/KineticScroll.kt:258-273 | a no-op when disposed, once a trail exists, or for a sample not later than the last; otherwise the reversed movement is added to the deltas, the sample becomes the last one, and the velocity follows `NewVelocity`; the invariant is kept |
| KineticScroll.Handler.MouseReleased | src/main/kotlin/KineticScroll.kt:243-256 | answers true exactly when `now >= trailSince`; a refused release changes nothing; otherwise the final sample goes through `mouseMoved`: when accepted it adds the reversed movement to the deltas and updates the velocity by `NewVelocity`, and when ignored it leaves deltas, velocity and last sample as they were; the trail is the `ReleaseTrail` of the resulting velocity estimate, and the last tick time is the release time, which is the trail's start |
| KineticScroll.Handler.StartTrail | src/main/kotlin/KineticScroll.kt:249-253 | installs the trail and the release time as the last tick time, keeping the invariant |
| KineticScroll.Handler.DoScroll | src/main/kotlin/KineticScroll.kt:297-323 | a disposed handler does nothing; a trail finished at the last tick disposes the handler without scrolling, leaving the deltas and carry as they were; otherwise it re-arms and scrolls `Accumulate` of the pending drag delta (before release) or of the trail's delta since the last tick (after release, replacing any drag delta); the last tick time becomes `now`; the invariant is kept |
| KineticScroll.Handler.Emit | src/main/kotlin/KineticScroll.kt:314-320 | scrolls the whole units of delta plus carry, keeps the fraction as the carry and clears the deltas |
| KineticScroll.Handler.Fling | src/main/kotlin/KineticScroll.kt:297-327 | ticking every `delayMs` after release always ends, with the handler disposed and the trail finished; the whole units scrolled plus the carry equal the carry at release plus the trail's displacement from release to the last tick |
| KineticScroll.EventListener.DisposeHandler | src/main/kotlin/KineticScroll.kt:160-166 | the handler is dropped; the answer is true exactly when there was a live handler, which is now disposed; nothing but the listener's `handler` field and the old handler's `isDisposed` changes |
| KineticScroll.FirstMoveScenario | src/main/kotlin/KineticScroll.kt:264-282 | samples (0, 0) at the press and (10, 0) 100 ms later, with a 140 ms window, give velocity (-0.1, 0): the raw velocity with the drag's sign reversed |
| KineticScroll.ActivationScenario | src/main/kotlin/KineticScroll.kt:211-246 | with a 100 ms activation delay, a release 99 ms after the press starts no fling and one at 100 ms does |

## Left out

- Platform glue is not modelled:
  - plugin start-up and event routing: `KineticScrollStarter`, `dispatch`, `findEditor`, `findScrollPane`, `installHandler`
  - the editor and scroll-pane `scrollComponent`/`setCursor` side effects
  - the `Alarm` and its threading

  Scrolling is recorded in the ghost sequence `emitted`, and the alarm is the `Fling` loop.
- `Handler.Fling`: ticks land exactly `delayMs` apart. A real alarm fires late. `DoScroll` itself takes any later `now`.
- `Handler.DoScroll`: requires a clock that does not go backwards (`lastScrollTs <= now`). Otherwise `coerceIn` could be handed an empty range.
- `Handler.start`: only schedules the first tick and sets the cursor, so it has no member of its own.
- Floating point is modelled as exact `real` arithmetic:
  - NaN, infinities and rounding are not modelled.
  - `toInt`/`toLong` saturation and `Long` overflow are not modelled.
- FMSSettings.SliderRoundTrip and FMSSettings.SliderToScale: the settings arithmetic is exact here, but the program computes in doubles, and at one slider position the rounding changes an integer result. In doubles ((79 - 50)/50.0)·400 is 231.99999999999997, so slider 79 stores 331% (the model gives 332), and (331 - 100)/400.0·50 = 28.875 then truncates to 28, so the setting reopens at 78. In the program 79 is the only right-half position that does not come back; the model's round trip proves it comes back as 79.
- ln and powers of two are uninterpreted. The model knows only that a power of two is positive. Trails.ExponentialRemainingHalves proves the halving of the remaining distance every p ms only where `pow2` is assumed to double over one unit, and the link between `end` and the speed threshold 1/2^n is not proved.
- Trails.ExponentialSlowdownTrail: at zero speed the source's `ln(0)` is negative infinity, and `toLong` turns the end offset into `Long.MIN_VALUE`. The model writes that case out rather than deriving it from ln.
- Trails.LinearSlowdownTrail, KineticScroll.ReleaseTrail and KineticScroll.Handler.constructor require the decay setting to be in 0..1000, the slider's range, for simplicity. The source accepts any value: the linear deceleration turns negative from 1143 on, and the exponential trail accepts any value.
- Trails.LinearDecays: holds from the trail's start on. A window that begins before the start is partly clamped away, so it can move less than a later one.
- KineticScroll.Handler.constructor requires `delayMs > 0`. `delayMs` and `velocityWindowMs` are settings that FMSSettings.kt does not define; the model takes them as parameters.
- The `FMSSettings` persistent-state class and the settings dialog are not modelled, apart from the slider mapping and the snap rule.
- A drag moves the view opposite to the pointer (`lastPoint - currentPoint`, KineticScroll.kt:264-265), so a pointer moving right gives a negative velocity.
- The threshold n = (subpixelTrail + 20)/10.0 is not clamped (TrailAlgorithms.kt:66).
