/** The trail motion models: after release, a trail maps a pair of millisecond
    timestamps to the continuous displacement on each axis between them, and
    says when the fling is over.

    TrailAlgorithms.kt and TailAlgorithms.kt declare the same family; they differ
    only in the exponential trail's speed threshold 1/2^n: TailAlgorithms.kt fixes
    n = 12, TrailAlgorithms.kt derives n from the `subpixelTrail` setting. Both are
    instances of `ExponentialSlowdownTrail` below, which takes n as a parameter. */
module Trails {
  import opened Kotlin
  import opened FMSSettings

  /** The closed-form displacement law of a distance-based trail. */
  datatype SlowdownLaw =
      // v(t) = v0 / 2^(t/p): the speed halves every p ms; the source's `p`
    | ExponentialLaw(halvingMs: int, pow2: PositiveFunction)
      // v(t) = v0 - sign(v0)·p·t: the source's `p`, a deceleration in px/ms²
    | LinearLaw(decel: real)

  /** `NoTrail`, `VerticalTrail(impl)` (delegates all but `deltaX`) and
      `DistanceBasedTrail`, whose fields are fixed when the trail is built. */
  datatype Trail =
    | NoTrail
    | VerticalTrail(impl: Trail)
    | DistanceBasedTrail(vX: real, vY: real, initTs: int, law: SlowdownLaw,
                         endX: int, endY: int, end: int)

  /** `distance(t, v0)`: displacement after `t` ms at initial velocity `v0`. */
  function Distance(law: SlowdownLaw, t: int, v0: real): real
  {
    match law
    case ExponentialLaw(p, pow2) =>
      if p == 0 then 0.0  // never built: ExponentialSlowdownTrail makes p >= 1
      else -v0 * p as real / LN2 / pow2(1.0 * t as real / p as real)
    case LinearLaw(p) =>
      v0 * t as real - Sign(v0) * p * t as real * t as real / 2.0
  }

  /** `finished(from)`. */
  predicate Finished(t: Trail, from: int)
  {
    match t
    case NoTrail => true
    case VerticalTrail(impl) => Finished(impl, from)
    case DistanceBasedTrail(_, _, _, _, _, _, end) => end <= from
  }

  /** `deltaX` does not throw: its `coerceIn` range `[initTs, endX]` is not empty. */
  predicate XDefined(t: Trail)
  {
    t.DistanceBasedTrail? ==> t.initTs <= t.endX
  }

  /** `deltaY` does not throw: its `coerceIn` range `[initTs, endY]` is not empty. */
  predicate YDefined(t: Trail)
  {
    match t
    case NoTrail => true
    case VerticalTrail(impl) => YDefined(impl)
    case DistanceBasedTrail(_, _, initTs, _, _, endY, _) => initTs <= endY
  }

  /** One axis of `DistanceBasedTrail.deltaX`/`deltaY`: clamp both timestamps into
      `[initTs, axisEnd]` and take the difference of `distance` at the clamped points. */
  function AxisDelta(law: SlowdownLaw, v: real, initTs: int, axisEnd: int, from: int, to: int): (d: real)
    requires initTs <= axisEnd
    // the early return for coinciding points does not change the value
    ensures d == Distance(law, CoerceIn(to, initTs, axisEnd) - initTs, v)
               - Distance(law, CoerceIn(from, initTs, axisEnd) - initTs, v)
    // intervals wholly before the start or wholly after the axis end move nothing
    ensures from <= initTs && to <= initTs ==> d == 0.0
    ensures axisEnd <= from && axisEnd <= to ==> d == 0.0
  {
    var fromSafe := CoerceIn(from, initTs, axisEnd) - initTs;
    var toSafe := CoerceIn(to, initTs, axisEnd) - initTs;
    if fromSafe == toSafe then 0.0 else Distance(law, toSafe, v) - Distance(law, fromSafe, v)
  }

  /** `deltaX(from, to)`. */
  function DeltaX(t: Trail, from: int, to: int): (d: real)
    requires XDefined(t)
    // `NoTrail` and `VerticalTrail` never move horizontally
    ensures !t.DistanceBasedTrail? ==> d == 0.0
    // an empty interval moves nothing
    ensures from == to ==> d == 0.0
  {
    match t
    case DistanceBasedTrail(vX, _, initTs, law, endX, _, _) => AxisDelta(law, vX, initTs, endX, from, to)
    case _ => 0.0  // NoTrail, and VerticalTrail's override
  }

  /** `deltaY(from, to)`. */
  function DeltaY(t: Trail, from: int, to: int): (d: real)
    requires YDefined(t)
    // `NoTrail` never moves; `VerticalTrail` moves vertically as the trail it wraps
    ensures t.NoTrail? ==> d == 0.0
    ensures t.VerticalTrail? ==> d == DeltaY(t.impl, from, to)
    // an empty interval moves nothing
    ensures from == to ==> d == 0.0
  {
    match t
    case NoTrail => 0.0
    case VerticalTrail(impl) => DeltaY(impl, from, to)
    case DistanceBasedTrail(_, vY, initTs, law, _, endY, _) => AxisDelta(law, vY, initTs, endY, from, to)
  }

  /** The extension `withScrollMode`: NONE drops the trail, VERTICAL silences the
      horizontal axis, BOTH keeps the trail as it is. */
  function WithScrollMode(t: Trail, mode: InertiaDirection): (r: Trail)
    ensures mode == NONE ==> forall from :: Finished(r, from)
    ensures mode == NONE ==>
      XDefined(r) && YDefined(r) && forall from, to :: DeltaX(r, from, to) == 0.0 && DeltaY(r, from, to) == 0.0
    ensures mode != NONE ==> forall from :: Finished(r, from) == Finished(t, from)
    ensures mode == VERTICAL ==> XDefined(r) && forall from, to :: DeltaX(r, from, to) == 0.0
    ensures mode == VERTICAL ==> YDefined(r) == YDefined(t)
    ensures mode == VERTICAL && YDefined(t) ==> forall from, to :: DeltaY(r, from, to) == DeltaY(t, from, to)
    ensures mode == BOTH ==> r == t
    ensures Sound(t) ==> Sound(r)
    ensures forall ts :: StartedAt(t, ts) ==> StartedAt(r, ts)
  {
    match mode
    case NONE => NoTrail
    case VERTICAL => VerticalTrail(t)
    case BOTH => t
  }

  /** The time from which the trail reports finished; `None` when it is finished
      from the start whatever the time. */
  function Horizon(t: Trail): Option<int>
  {
    match t
    case NoTrail => None
    case VerticalTrail(impl) => Horizon(impl)
    case DistanceBasedTrail(_, _, _, _, _, _, end) => Some(end)
  }

  /** A trail is finished exactly from its end on (for `NoTrail`, always). */
  lemma {:induction false} FinishedIffHorizon(t: Trail, from: int)
    ensures Finished(t, from) <==> Horizon(t).None? || Horizon(t).value <= from
  {
    if t.VerticalTrail? {
      FinishedIffHorizon(t.impl, from);
    }
  }

  /** Once finished, a trail stays finished. */
  lemma {:induction false} FinishedStaysFinished(t: Trail, a: int, b: int)
    requires a <= b && Finished(t, a)
    ensures Finished(t, b)
  {
    FinishedIffHorizon(t, a);
    FinishedIffHorizon(t, b);
  }

  /** The shape every trail the source builds has: no axis outlasts the trail, and
      an axis's clamping range is empty only when the trail is over at once. */
  predicate Sound(t: Trail)
  {
    match t
    case NoTrail => true
    case VerticalTrail(impl) => Sound(impl)
    case DistanceBasedTrail(_, _, initTs, law, endX, endY, end) =>
      endX <= end && endY <= end && (initTs < end ==> initTs <= endX && initTs <= endY)
  }

  /** The trail was built at time `ts` (its `initTs`). */
  predicate StartedAt(t: Trail, ts: int)
  {
    match t
    case NoTrail => true
    case VerticalTrail(impl) => StartedAt(impl, ts)
    case DistanceBasedTrail(_, _, initTs, _, _, _, _) => initTs == ts
  }

  /** A trail that is not finished at a time after it started can be sampled on
      both axes without `coerceIn` throwing. */
  lemma {:induction false} ActiveTrailDefined(t: Trail, start: int, from: int)
    requires Sound(t) && StartedAt(t, start) && start <= from && !Finished(t, from)
    ensures XDefined(t) && YDefined(t)
  {
    if t.VerticalTrail? {
      ActiveTrailDefined(t.impl, start, from);
    }
  }

  /** Additivity: the displacement over [a, b] plus that over [b, c] is the
      displacement over [a, c], on each axis. */
  lemma {:induction false} DeltasAdditive(t: Trail, a: int, b: int, c: int)
    ensures XDefined(t) ==> DeltaX(t, a, b) + DeltaX(t, b, c) == DeltaX(t, a, c)
    ensures YDefined(t) ==> DeltaY(t, a, b) + DeltaY(t, b, c) == DeltaY(t, a, c)
  {
    if t.VerticalTrail? {
      DeltasAdditive(t.impl, a, b, c);
    }
  }

  /** A finished trail moves nothing further on either axis. */
  lemma {:induction false} FinishedTrailIsStill(t: Trail, from: int, to: int)
    requires Sound(t) && Finished(t, from) && from <= to
    ensures XDefined(t) ==> DeltaX(t, from, to) == 0.0
    ensures YDefined(t) ==> DeltaY(t, from, to) == 0.0
  {
    if t.VerticalTrail? {
      FinishedTrailIsStill(t.impl, from, to);
    }
  }

  /** The sum of the X deltas between consecutive timestamps of `ts`. */
  function SumDeltasX(t: Trail, ts: seq<int>): real
    requires XDefined(t)
  {
    if |ts| < 2 then 0.0 else SumDeltasX(t, ts[..|ts| - 1]) + DeltaX(t, ts[|ts| - 2], ts[|ts| - 1])
  }

  /** The sum of the Y deltas between consecutive timestamps of `ts`. */
  function SumDeltasY(t: Trail, ts: seq<int>): real
    requires YDefined(t)
  {
    if |ts| < 2 then 0.0 else SumDeltasY(t, ts[..|ts| - 1]) + DeltaY(t, ts[|ts| - 2], ts[|ts| - 1])
  }

  /** Successive tick deltas telescope: over any run of ticks they sum to the
      displacement between the first and the last tick. */
  lemma {:induction false} DeltasTelescope(t: Trail, ts: seq<int>)
    requires |ts| >= 1
    ensures XDefined(t) ==> SumDeltasX(t, ts) == DeltaX(t, ts[0], ts[|ts| - 1])
    ensures YDefined(t) ==> SumDeltasY(t, ts) == DeltaY(t, ts[0], ts[|ts| - 1])
  {
    var n := |ts|;
    if n == 1 {
      DeltasAdditive(t, ts[0], ts[0], ts[0]);
    } else {
      var prefix := ts[..n - 1];
      DeltasTelescope(t, prefix);
      assert prefix[0] == ts[0] && prefix[n - 2] == ts[n - 2];
      DeltasAdditive(t, ts[0], ts[n - 2], ts[n - 1]);
    }
  }

  /** The exponential law's remaining distance halves every `halvingMs`: `distance`
      is minus the distance still to go, v0·p/ln 2 · 2^(-t/p), so one more halving
      period halves it (given that `pow2` doubles over one unit there). */
  lemma ExponentialRemainingHalves(law: SlowdownLaw, t: int, v0: real)
    requires law.ExponentialLaw? && 1 <= law.halvingMs
    requires var p := law.halvingMs as real;
      law.pow2(1.0 * t as real / p + 1.0) == 2.0 * law.pow2(1.0 * t as real / p)
    ensures Distance(law, t + law.halvingMs, v0) == Distance(law, t, v0) / 2.0
  {
    var p := law.halvingMs as real;
    assert 1.0 * (t + law.halvingMs) as real / p == 1.0 * t as real / p + 1.0 by {
      assert (t as real + p) / p == t as real / p + p / p;
    }
    var q := law.pow2(1.0 * t as real / p);
    assert 0.0 < q;
    assert Distance(law, t, v0) == -v0 * p / LN2 / q;
    assert Distance(law, t + law.halvingMs, v0) == -v0 * p / LN2 / (2.0 * q);
  }

  /** The distance covered after `t` ms of a linear law at speed `speed`. */
  function LinearMagnitude(speed: real, decel: real, t: int): real
  {
    speed * t as real - decel * t as real * t as real / 2.0
  }

  /** The linear law moves in the direction of `v0` by the distance the speed |v0|
      covers, so the two directions mirror each other; it starts at zero. */
  lemma LinearDistanceMagnitude(decel: real, t: int, v0: real)
    ensures Distance(LinearLaw(decel), t, v0) == Sign(v0) * LinearMagnitude(Abs(v0), decel, t)
    ensures Distance(LinearLaw(decel), t, -v0) == -Distance(LinearLaw(decel), t, v0)
    ensures Distance(LinearLaw(decel), 0, v0) == 0.0
  {
    var tr := t as real;
    if v0 < 0.0 {
      assert Sign(v0) == -1.0 && Sign(-v0) == 1.0 && Abs(v0) == -v0;
      assert v0 * tr == -((-v0) * tr);
    } else if v0 > 0.0 {
      assert Sign(v0) == 1.0 && Sign(-v0) == -1.0 && Abs(v0) == v0;
      assert (-v0) * tr == -(v0 * tr);
    }
  }

  // ----- exponential slowdown -----

  /** The source's log2 of the combined speed: 0.5·ln(vX² + vY²)/ln 2. */
  function Log2Speed(math: Transcendentals, vX: real, vY: real): (r: real)
    // 2^r is the speed: ln(vX² + vY²) = 2·r·ln 2
    ensures math.ln(vX * vX + vY * vY) == 2.0 * r * LN2
  {
    0.5 * math.ln(vX * vX + vY * vY) / LN2
  }

  /** How long after release the exponential trail ends at speed |v| = 2^log2Speed:
      p·(n + log2|v|) ms, truncated by `toLong`. */
  function ExponentialEndOffset(halvingMs: int, n: real, log2Speed: real): (offset: int)
    requires 1 <= halvingMs
    ensures -1.0 < offset as real - halvingMs as real * (n + log2Speed) < 1.0
  {
    Trunc(halvingMs as real * (n + log2Speed))
  }

  /** `MulMonotone` stated with a whole-millisecond factor on the left, the exact
      product `ExponentialEndOffset` truncates, so that its caller sees this one
      fact and none of the commuted products. */
  lemma ScaleMonotone(h: int, a: real, b: real)
    requires 1 <= h && a <= b
    ensures h as real * a <= h as real * b
  {
    MulMonotone(a, b, h as real);
  }

  /** A higher threshold exponent (a higher `subpixelTrail`) never ends the trail sooner. */
  lemma ThresholdLengthensTrail(halvingMs: int, n1: real, n2: real, log2Speed: real)
    requires 1 <= halvingMs && n1 <= n2
    ensures ExponentialEndOffset(halvingMs, n1, log2Speed) <= ExponentialEndOffset(halvingMs, n2, log2Speed)
  {
    ScaleMonotone(halvingMs, n1 + log2Speed, n2 + log2Speed);
    TruncMonotone(halvingMs as real * (n1 + log2Speed), halvingMs as real * (n2 + log2Speed));
  }

  /** `ExponentialSlowdownTrail` with speed threshold 1/2^n. It ends when the
      combined speed falls to 1/2^n, at t = p·(n + log2|v|) truncated; both axes
      share that end. At zero speed ln gives -infinity, `toLong` gives
      `Long.MIN_VALUE`, and the trail is finished from the start. */
  function ExponentialSlowdownTrail(vX: real, vY: real, initTs: int, pUnsafe: int, n: real,
                                    math: Transcendentals): (r: Trail)
    ensures r.DistanceBasedTrail? && r.vX == vX && r.vY == vY && r.initTs == initTs
    ensures r.law.ExponentialLaw? && r.law.halvingMs >= 1
    ensures r.law.halvingMs == (if pUnsafe < 0 then 0 else pUnsafe) + 1
    ensures r.endX == r.end && r.endY == r.end
    ensures vX * vX + vY * vY != 0.0 ==>
      r.end == initTs + ExponentialEndOffset(r.law.halvingMs, n, Log2Speed(math, vX, vY))
    ensures vX == 0.0 && vY == 0.0 ==> Finished(r, initTs)
    ensures Sound(r) && StartedAt(r, initTs)
  {
    var p := (if pUnsafe < 0 then 0 else pUnsafe) + 1;
    var speedSq := vX * vX + vY * vY;
    assert vX == 0.0 && vY == 0.0 ==> speedSq == 0.0;
    var offset := if speedSq == 0.0 then LONG_MIN
                  else ExponentialEndOffset(p, n, Log2Speed(math, vX, vY));
    var end := initTs + offset;
    DistanceBasedTrail(vX, vY, initTs, ExponentialLaw(p, math.pow2), end, end, end)
  }

  /** The threshold exponent of TailAlgorithms.kt. */
  const TAIL_N: int := 12

  /** `ExponentialSlowdownTrail` of TailAlgorithms.kt (the one the handler builds):
      the trail ends when the speed falls to 1/2^12. */
  function TailExponentialTrail(vX: real, vY: real, initTs: int, pUnsafe: int,
                                math: Transcendentals): (r: Trail)
    ensures r.DistanceBasedTrail? && r.vX == vX && r.vY == vY && r.initTs == initTs
    ensures r.law.ExponentialLaw? && r.law.halvingMs >= 1
    ensures r.law.halvingMs == (if pUnsafe < 0 then 0 else pUnsafe) + 1
    ensures r.endX == r.end && r.endY == r.end
    ensures vX * vX + vY * vY != 0.0 ==>
      r.end == initTs + ExponentialEndOffset(r.law.halvingMs, TAIL_N as real, Log2Speed(math, vX, vY))
    ensures vX == 0.0 && vY == 0.0 ==> Finished(r, initTs)
    ensures Sound(r) && StartedAt(r, initTs)
  {
    ExponentialSlowdownTrail(vX, vY, initTs, pUnsafe, TAIL_N as real, math)
  }

  /** The threshold exponent of TrailAlgorithms.kt: n = (subpixelTrail + 20)/10;
      each ten steps of the setting halve the speed at which the trail stops, and
      the setting's maximum, 100, gives the fixed n = 12 of TailAlgorithms.kt. */
  function SubpixelThreshold(subpixelTrail: int): (n: real)
    ensures 0 <= subpixelTrail <= 100 ==> 2.0 <= n <= TAIL_N as real
    ensures subpixelTrail == 100 ==> n == TAIL_N as real
  {
    (subpixelTrail + 20) as real / 10.0
  }

  /** `ExponentialSlowdownTrail` of TrailAlgorithms.kt, with its `subpixelTrail` knob. */
  function SubpixelExponentialTrail(vX: real, vY: real, initTs: int, pUnsafe: int, subpixelTrail: int,
                                    math: Transcendentals): (r: Trail)
    ensures r.DistanceBasedTrail? && r.vX == vX && r.vY == vY && r.initTs == initTs
    ensures r.law.ExponentialLaw? && r.law.halvingMs >= 1
    ensures r.law.halvingMs == (if pUnsafe < 0 then 0 else pUnsafe) + 1
    ensures r.endX == r.end && r.endY == r.end
    ensures vX * vX + vY * vY != 0.0 ==>
      r.end == initTs + ExponentialEndOffset(r.law.halvingMs, SubpixelThreshold(subpixelTrail),
                                             Log2Speed(math, vX, vY))
    ensures vX == 0.0 && vY == 0.0 ==> Finished(r, initTs)
    ensures Sound(r) && StartedAt(r, initTs)
  {
    ExponentialSlowdownTrail(vX, vY, initTs, pUnsafe, SubpixelThreshold(subpixelTrail), math)
  }

  /** Speed 2 px/ms, decay setting 500 (p = 501) and
      subpixel setting 20 (n = 4) end 501·(4 + log2 2) = 2505 ms after release. */
  lemma ExponentialScenario(initTs: int, math: Transcendentals)
    requires math.ln(4.0) == 2.0 * LN2
    ensures var t := SubpixelExponentialTrail(2.0, 0.0, initTs, 500, 20, math);
            t.end == initTs + 2505 && Finished(t, initTs + 2505) && !Finished(t, initTs + 2504)
  {
    assert Log2Speed(math, 2.0, 0.0) == 1.0;
    assert SubpixelThreshold(20) == 4.0;
    assert 501 as real * (4.0 + 1.0) == 2505.0;
  }

  // ----- linear slowdown -----

  /** The linear trail's deceleration, px/ms², for the decay setting `param1000`. */
  function LinearRate(param1000: int): (p: real)
    ensures 0 <= param1000 <= 1000 ==> 0.001 <= p <= 0.008
    ensures param1000 == 0 ==> p == 0.008
    ensures param1000 == 1000 ==> p == 0.001
  {
    0.001 * param1000 as real / 1000.0 + 0.008 * (1000 - param1000) as real / 1000.0
  }

  /** An axis moving at `speed` and decelerating at `decel` comes to rest during
      the `stop`-th whole millisecond: `stop` ms do not use up its speed, one more would. */
  predicate RestsAfter(stop: int, speed: real, decel: real)
  {
    stop as real * decel <= speed < (stop + 1) as real * decel
  }

  /** `(|v|/p).toLong()`: the last whole millisecond at or before an axis moving at
      speed |v| and decelerating at p comes to rest. */
  function StopMs(speed: real, p: real): (k: int)
    requires 0.0 <= speed && 0.0 < p
    ensures 0 <= k && RestsAfter(k, speed, p)
  {
    var q := speed / p;
    var whole := Trunc(q);
    assert q * p == speed;
    assert 0.0 <= q by {
      if q < 0.0 { MulMonotoneStrict(q, 0.0, p); }
    }
    MulMonotone(whole as real, q, p);
    MulMonotoneStrict(q, whole as real + 1.0, p);
    assert q * p < (whole as real + 1.0) * p;
    assert speed < (whole as real + 1.0) * p;
    assert (whole + 1) as real * p == (whole as real + 1.0) * p;
    assert speed < (whole + 1) as real * p;
    whole
  }

  /** `LinearSlowdownTrail`: each axis decelerates at `p` until its velocity reaches
      zero; `endX`/`endY` are the last whole millisecond at or before that, and the
      trail ends with the slower axis. */
  function LinearSlowdownTrail(vX: real, vY: real, initTs: int, param1000: int): (r: Trail)
    requires 0 <= param1000 <= 1000
    ensures r.DistanceBasedTrail? && r.vX == vX && r.vY == vY && r.initTs == initTs
    ensures r.law == LinearLaw(LinearRate(param1000))
    ensures initTs <= r.endX && initTs <= r.endY
    ensures RestsAfter(r.endX - initTs, Abs(vX), r.law.decel) && RestsAfter(r.endY - initTs, Abs(vY), r.law.decel)
    ensures r.end == Max(r.endX, r.endY)
    ensures LinearShape(r) && Sound(r) && StartedAt(r, initTs)
  {
    var p := LinearRate(param1000);
    var endX := AxisStopTs(initTs, vX, p);
    var endY := AxisStopTs(initTs, vY, p);
    DistanceBasedTrail(vX, vY, initTs, LinearLaw(p), endX, endY, Max(endX, endY))
  }

  /** `initTs + (|v| / p).toLong()`: the timestamp at which one axis of a linear
      trail is clamped. */
  function AxisStopTs(initTs: int, v: real, p: real): (end: int)
    requires 0.0 < p
    ensures initTs <= end && RestsAfter(end - initTs, Abs(v), p)
  {
    var stop := StopMs(Abs(v), p);
    assert initTs + stop - initTs == stop;
    initTs + stop
  }

  /** One axis of a linear trail between whole milliseconds `a <= b` that do not
      pass its stop time `stop` moves in the direction of `v`. */
  lemma LinearStepSign(v: real, p: real, a: int, b: int, stop: int)
    requires 0.0 < p && 0 <= a <= b <= stop && stop as real * p <= Abs(v)
    ensures 0.0 <= v ==> 0.0 <= Distance(LinearLaw(p), b, v) - Distance(LinearLaw(p), a, v)
    ensures v <= 0.0 ==> Distance(LinearLaw(p), b, v) - Distance(LinearLaw(p), a, v) <= 0.0
  {
    var m := LinearMagnitude(Abs(v), p, b) - LinearMagnitude(Abs(v), p, a);
    LinearWindowShrinks(Abs(v), p, stop, a, b - a, a, 0);
    assert 0.0 <= m;
    LinearAxisMagnitude(p, v, a, b);
    ProductSign(m, Sign(v));
  }

  /** One axis of a linear trail, clamped to its stop time, moves in the
      direction of its initial velocity between `from <= to`. */
  lemma LinearAxisSign(p: real, v: real, initTs: int, axisEnd: int, from: int, to: int)
    requires 0.0 < p && initTs <= axisEnd && (axisEnd - initTs) as real * p <= Abs(v) && from <= to
    ensures 0.0 <= v ==> 0.0 <= AxisDelta(LinearLaw(p), v, initTs, axisEnd, from, to)
    ensures v <= 0.0 ==> AxisDelta(LinearLaw(p), v, initTs, axisEnd, from, to) <= 0.0
  {
    LinearStepSign(v, p, CoerceIn(from, initTs, axisEnd) - initTs, CoerceIn(to, initTs, axisEnd) - initTs,
                   axisEnd - initTs);
  }

  /** The shape `LinearSlowdownTrail` builds: a positive deceleration, and each
      axis clamped no later than the moment its velocity reaches zero. */
  predicate LinearShape(t: Trail)
  {
    t.DistanceBasedTrail? && t.law.LinearLaw? && 0.0 < t.law.decel &&
    t.initTs <= t.endX && (t.endX - t.initTs) as real * t.law.decel <= Abs(t.vX) &&
    t.initTs <= t.endY && (t.endY - t.initTs) as real * t.law.decel <= Abs(t.vY)
  }

  /** A linear trail never reverses an axis: between `from <= to` each axis moves
      in the direction of its initial velocity, or not at all. */
  lemma LinearNeverReverses(t: Trail, from: int, to: int)
    requires LinearShape(t) && from <= to
    ensures 0.0 <= t.vX ==> 0.0 <= DeltaX(t, from, to)
    ensures t.vX <= 0.0 ==> DeltaX(t, from, to) <= 0.0
    ensures 0.0 <= t.vY ==> 0.0 <= DeltaY(t, from, to)
    ensures t.vY <= 0.0 ==> DeltaY(t, from, to) <= 0.0
  {
    LinearAxisSign(t.law.decel, t.vX, t.initTs, t.endX, from, to);
    LinearAxisSign(t.law.decel, t.vY, t.initTs, t.endY, from, to);
  }

  /** The distance covered between `x` and `y` is their gap times the mean of the
      speeds at the two ends, (y - x)·(speed - decel·(x + y)/2). */
  lemma LinearMagnitudeStep(speed: real, decel: real, x: int, y: int)
    ensures LinearMagnitude(speed, decel, y) - LinearMagnitude(speed, decel, x)
         == (y as real - x as real) * (speed - decel * (x as real + y as real) / 2.0)
  {
    var xr, yr := x as real, y as real;
    assert (yr - xr) * (xr + yr) == yr * yr - xr * xr;
  }

  /** The mean-speed form of `LinearWindowShrinks`, on reals: a window of length
      `len2` from `u2` against the first `len2` and the remaining `len - len2` of a
      window from `u <= u2`, all before the stop time. */
  lemma SlowerWindow(speed: real, decel: real, stop: real, u: real, len: real, u2: real, len2: real)
    requires 0.0 < decel && stop * decel <= speed
    requires 0.0 <= u <= u2 && 0.0 <= len2 <= len && u + len <= stop && u2 + len2 <= stop
    ensures len2 * (speed - decel * (u2 + (u2 + len2)) / 2.0)
         <= len2 * (speed - decel * (u + (u + len2)) / 2.0)
            + (len - len2) * (speed - decel * ((u + len2) + (u + len)) / 2.0)
  {
    var later := speed - decel * (u2 + (u2 + len2)) / 2.0;
    var earlier := speed - decel * (u + (u + len2)) / 2.0;
    var rest := speed - decel * ((u + len2) + (u + len)) / 2.0;
    MulMonotone(u + (u + len2), u2 + (u2 + len2), decel);
    ProductSign(len2, earlier - later);
    assert len2 * earlier - len2 * later == len2 * (earlier - later);
    MulMonotone((u + len2) + (u + len), stop + stop, decel);
    ProductSign(len - len2, rest);
  }

  /** Within the part of a linear trail where the speed is not used up, a window of
      length `len2` starting at `u2` covers no more than a window of length
      `len >= len2` starting at `u <= u2`: the speed only falls. */
  lemma LinearWindowShrinks(speed: real, decel: real, stop: int, u: int, len: int, u2: int, len2: int)
    requires 0.0 < decel && stop as real * decel <= speed
    requires 0 <= u <= u2 && 0 <= len2 <= len && u + len <= stop && u2 + len2 <= stop
    ensures LinearMagnitude(speed, decel, u2 + len2) - LinearMagnitude(speed, decel, u2)
         <= LinearMagnitude(speed, decel, u + len) - LinearMagnitude(speed, decel, u)
  {
    LinearMagnitudeStep(speed, decel, u2, u2 + len2);
    LinearMagnitudeStep(speed, decel, u, u + len2);
    LinearMagnitudeStep(speed, decel, u + len2, u + len);
    SlowerWindow(speed, decel, stop as real, u as real, len as real, u2 as real, len2 as real);
  }

  /** One axis of a linear trail, sampled at `u <= w` (offsets from its start),
      moves in the direction of `v` by the magnitude covered in between. */
  lemma LinearAxisMagnitude(p: real, v: real, u: int, w: int)
    ensures Distance(LinearLaw(p), w, v) - Distance(LinearLaw(p), u, v)
         == Sign(v) * (LinearMagnitude(Abs(v), p, w) - LinearMagnitude(Abs(v), p, u))
  {
    LinearDistanceMagnitude(p, u, v);
    LinearDistanceMagnitude(p, w, v);
    var mu, mw := LinearMagnitude(Abs(v), p, u), LinearMagnitude(Abs(v), p, w);
    assert Sign(v) * mw - Sign(v) * mu == Sign(v) * (mw - mu);
  }

  /** One axis of a linear trail between offsets `u2 <= w2` covers no more than
      between `u <= w` when the first window starts no earlier and is no longer,
      all before the stop time. */
  lemma LinearSpanDecays(p: real, v: real, stop: int, u: int, w: int, u2: int, w2: int)
    requires 0.0 < p && stop as real * p <= Abs(v)
    requires 0 <= u <= u2 && u <= w <= stop && u2 <= w2 <= stop && w2 - u2 <= w - u
    ensures Abs(Distance(LinearLaw(p), w2, v) - Distance(LinearLaw(p), u2, v))
         <= Abs(Distance(LinearLaw(p), w, v) - Distance(LinearLaw(p), u, v))
  {
    var m := LinearMagnitude(Abs(v), p, w) - LinearMagnitude(Abs(v), p, u);
    var m2 := LinearMagnitude(Abs(v), p, w2) - LinearMagnitude(Abs(v), p, u2);
    LinearWindowShrinks(Abs(v), p, stop, u, w - u, u2, w2 - u2);
    assert m2 <= m;
    LinearWindowShrinks(Abs(v), p, stop, u2, w2 - u2, u2, 0);
    assert 0.0 <= m2;
    LinearAxisMagnitude(p, v, u, w);
    LinearAxisMagnitude(p, v, u2, w2);
    SignedMagnitude(v, m2, m);
  }

  /** One axis of a linear trail: from its start on, a window of `len` ms never
      covers more than an earlier window of the same length. */
  lemma LinearAxisDecays(p: real, v: real, initTs: int, axisEnd: int, from: int, from2: int, len: int)
    requires 0.0 < p && initTs <= axisEnd && (axisEnd - initTs) as real * p <= Abs(v)
    requires initTs <= from <= from2 && 0 <= len
    ensures Abs(AxisDelta(LinearLaw(p), v, initTs, axisEnd, from2, from2 + len))
         <= Abs(AxisDelta(LinearLaw(p), v, initTs, axisEnd, from, from + len))
  {
    var u, w := CoerceIn(from, initTs, axisEnd) - initTs, CoerceIn(from + len, initTs, axisEnd) - initTs;
    var u2, w2 := CoerceIn(from2, initTs, axisEnd) - initTs, CoerceIn(from2 + len, initTs, axisEnd) - initTs;
    LinearSpanDecays(p, v, axisEnd - initTs, u, w, u2, w2);
  }

  /** Giving two ordered non-negative magnitudes the same sign keeps their order in absolute value. */
  lemma SignedMagnitude(v: real, m2: real, m: real)
    requires 0.0 <= m2 <= m
    ensures Abs(Sign(v) * m2) <= Abs(Sign(v) * m)
  {
  }

  /** A linear trail decays: from its start on, on each axis, a tick of `len` ms
      never scrolls further than an earlier tick of the same length. */
  lemma LinearDecays(t: Trail, from: int, from2: int, len: int)
    requires LinearShape(t) && t.initTs <= from <= from2 && 0 <= len
    ensures Abs(DeltaX(t, from2, from2 + len)) <= Abs(DeltaX(t, from, from + len))
    ensures Abs(DeltaY(t, from2, from2 + len)) <= Abs(DeltaY(t, from, from + len))
  {
    LinearDecaysX(t, from, from2, len);
    LinearDecaysY(t, from, from2, len);
  }

  /** The horizontal half of `LinearDecays`. */
  lemma LinearDecaysX(t: Trail, from: int, from2: int, len: int)
    requires LinearShape(t) && t.initTs <= from <= from2 && 0 <= len
    ensures Abs(DeltaX(t, from2, from2 + len)) <= Abs(DeltaX(t, from, from + len))
  {
    LinearAxisDecays(t.law.decel, t.vX, t.initTs, t.endX, from, from2, len);
  }

  /** The vertical half of `LinearDecays`. */
  lemma LinearDecaysY(t: Trail, from: int, from2: int, len: int)
    requires LinearShape(t) && t.initTs <= from <= from2 && 0 <= len
    ensures Abs(DeltaY(t, from2, from2 + len)) <= Abs(DeltaY(t, from, from + len))
  {
    LinearAxisDecays(t.law.decel, t.vY, t.initTs, t.endY, from, from2, len);
  }
}
