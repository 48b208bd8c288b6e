/** The per-press session of KineticScroll.kt: a `Handler` follows the drag while
    the toggle button is held, builds a trail on release, and on every alarm tick
    turns the continuous displacement into whole scroll units, carrying the
    fraction to the next tick, until the trail is finished.

    The clock is the `now` argument of each operation; the scrolled component is
    the ghost sequence `emitted` of the (dx, dy) pairs handed to `scrollComponent`;
    the alarm is the `Fling` loop, which calls `DoScroll` every `delayMs` for as
    long as it re-arms. */
module KineticScroll {
  import opened Kotlin
  import opened FMSSettings
  import opened Trails

  /** A pointer position in the component's coordinates. */
  datatype Point = Point(x: int, y: int)

  /** One axis of a tick's conversion to whole units: `move` is what is scrolled,
      `carry` the fraction kept for the next tick. */
  datatype Step = Step(move: int, carry: real)

  /** `(delta + shift).toInt()` and the new shift `delta + shift - move`. */
  function Accumulate(delta: real, shift: real): (s: Step)
    // nothing is lost: what is scrolled plus what is carried is what was due
    ensures s.move as real + s.carry == delta + shift
    // the carry stays strictly within one unit
    ensures -1.0 < s.carry < 1.0
    // truncation toward zero: the move never overshoots what was due
    ensures 0.0 <= delta + shift ==> 0 <= s.move && 0.0 <= s.carry
    ensures delta + shift <= 0.0 ==> s.move <= 0 && s.carry <= 0.0
  {
    var move := Trunc(delta + shift);
    Step(move, delta + shift - move as real)
  }

  /** `lastMoveWeight`, the weight of the previous velocity estimate: the square of
      the share of the sensitivity window that lay before the previous sample. */
  function LastMoveWeight(windowLeft: int, allWindow: int): (w: real)
    requires 0 < windowLeft < allWindow
    ensures 0.0 < w < 1.0
  {
    var l, a := windowLeft as real, allWindow as real;
    assert 0.0 < l * l < a * a by {
      assert l * l < l * a by { assert l * a - l * l == l * (a - l); }
      assert l * a < a * a by { assert a * a - l * a == a * (a - l); }
    }
    assert 0.0 < a * a;
    assert 1.0 * l * l / a / a == (l * l) / (a * a);
    1.0 * l * l / a / a
  }

  /** The blended velocity estimate: weight `w` on the previous estimate and the
      rest on the raw velocity of the latest move. */
  function Blend(w: real, previous: real, raw: real): (v: real)
    // with a weight in [0, 1] the estimate lies between the two it blends
    ensures 0.0 <= w <= 1.0 && previous <= raw ==> previous <= v <= raw
    ensures 0.0 <= w <= 1.0 && raw <= previous ==> raw <= v <= previous
  {
    var v := w * previous + (1.0 - w) * raw;
    assert v - previous == (1.0 - w) * (raw - previous);
    assert raw - v == w * (raw - previous);
    if 0.0 <= w <= 1.0 then
      ProductSign(1.0 - w, raw - previous);
      ProductSign(w, raw - previous);
      v
    else v
  }

  /** The velocity estimate on one axis after a move of `move` between `prevTs`
      and `now`, with the sensitivity window starting at `windowStart`. */
  function NewVelocity(previous: real, move: int, prevTs: int, now: int, windowStart: int): (v: real)
    requires prevTs < now
    // a window that does not reach back past the previous sample: the raw velocity
    ensures prevTs <= windowStart ==> v == move as real / (now - prevTs) as real
    // otherwise a blend, which lies between the previous estimate and the raw velocity
    ensures var raw := move as real / (now - prevTs) as real;
      (previous <= raw ==> previous <= v <= raw) && (raw <= previous ==> raw <= v <= previous)
  {
    var raw := move as real / (now - prevTs) as real;
    if prevTs <= windowStart then raw
    else Blend(LastMoveWeight(prevTs - windowStart, now - windowStart), previous, raw)
  }

  /** The sum of the horizontal scroll units handed to `scrollComponent`. */
  function SumX(s: seq<(int, int)>): int
  {
    if s == [] then 0 else SumX(s[..|s| - 1]) + s[|s| - 1].0
  }

  /** The sum of the vertical scroll units handed to `scrollComponent`. */
  function SumY(s: seq<(int, int)>): int
  {
    if s == [] then 0 else SumY(s[..|s| - 1]) + s[|s| - 1].1
  }

  /** The carry is within one unit on each axis, and the whole units scrolled plus
      the carry are the continuous displacement fed so far. */
  ghost predicate Carried(emitted: seq<(int, int)>, shiftX: real, shiftY: real, fedX: real, fedY: real)
  {
    -1.0 < shiftX < 1.0 && -1.0 < shiftY < 1.0 &&
    SumX(emitted) as real + shiftX == fedX && SumY(emitted) as real + shiftY == fedY
  }

  /** One tick's conversion keeps `Carried`: feeding (dx, dy) scrolls the whole
      units `Accumulate` yields and carries the rest. */
  lemma CarriedStep(emitted: seq<(int, int)>, shiftX: real, shiftY: real, fedX: real, fedY: real, dx: real, dy: real)
    requires Carried(emitted, shiftX, shiftY, fedX, fedY)
    ensures var sx, sy := Accumulate(dx, shiftX), Accumulate(dy, shiftY);
      Carried(emitted + [(sx.move, sy.move)], sx.carry, sy.carry, fedX + dx, fedY + dy)
  {
    var e := emitted + [(Accumulate(dx, shiftX).move, Accumulate(dy, shiftY).move)];
    assert e[..|e| - 1] == emitted;
  }

  /** After release: the trail is sound and starts at the release time, which is
      not after the last tick, and what was fed since release is the trail's own
      displacement from release to the last tick. */
  ghost predicate TrailFed(t: Trail, releaseTs: int, lastTs: int, fedX: real, fedY: real, atReleaseX: real, atReleaseY: real)
  {
    Sound(t) && StartedAt(t, releaseTs) && releaseTs <= lastTs &&
    (XDefined(t) ==> fedX == atReleaseX + DeltaX(t, releaseTs, lastTs)) &&
    (YDefined(t) ==> fedY == atReleaseY + DeltaY(t, releaseTs, lastTs))
  }

  /** At release nothing has been fed from the new trail yet. */
  lemma TrailFedAtRelease(t: Trail, now: int, fedX: real, fedY: real)
    requires Sound(t) && StartedAt(t, now)
    ensures TrailFed(t, now, now, fedX, fedY, fedX, fedY)
  {
    DeltasAdditive(t, now, now, now);
  }

  /** A tick from `from` to `to` on a trail not finished at `from` is defined on
      both axes and, feeding the trail's delta, keeps `TrailFed`. */
  lemma TrailFedStep(t: Trail, releaseTs: int, from: int, to: int, fedX: real, fedY: real, atReleaseX: real, atReleaseY: real)
    requires TrailFed(t, releaseTs, from, fedX, fedY, atReleaseX, atReleaseY)
    requires from <= to && !Finished(t, from)
    ensures XDefined(t) && YDefined(t)
    ensures TrailFed(t, releaseTs, to, fedX + DeltaX(t, from, to), fedY + DeltaY(t, from, to), atReleaseX, atReleaseY)
  {
    ActiveTrailDefined(t, releaseTs, from);
    DeltasAdditive(t, releaseTs, from, to);
  }

  /** A tick on a trail finished at `from` feeds nothing and keeps `TrailFed`. */
  lemma TrailFedFinished(t: Trail, releaseTs: int, from: int, to: int, fedX: real, fedY: real, atReleaseX: real, atReleaseY: real)
    requires TrailFed(t, releaseTs, from, fedX, fedY, atReleaseX, atReleaseY)
    requires from <= to && Finished(t, from)
    ensures TrailFed(t, releaseTs, to, fedX, fedY, atReleaseX, atReleaseY)
  {
    FinishedTrailIsStill(t, from, to);
    DeltasAdditive(t, releaseTs, from, to);
  }

  /** The trail `mouseReleased` builds from the velocity at release: the
      exponential trail of TailAlgorithms.kt or the linear one, narrowed by the
      scroll mode. */
  function ReleaseTrail(trailMode: InertiaAlgorithm, scrollMode: InertiaDirection, vX: real, vY: real,
                        now: int, decayCoeff1000: int, math: Transcendentals): (t: Trail)
    requires 0 <= decayCoeff1000 <= 1000
    ensures Sound(t) && StartedAt(t, now)
    ensures scrollMode == NONE ==> forall from :: Finished(t, from)
    ensures scrollMode != NONE ==> Horizon(t).Some?
    ensures scrollMode == VERTICAL ==> XDefined(t) && forall from, to :: DeltaX(t, from, to) == 0.0
    // the setting picks the trail: the exponential one of TailAlgorithms.kt or the
    // linear one, wrapped as a whole by VERTICAL
    ensures scrollMode == VERTICAL ==> t.VerticalTrail?
    ensures var base := if scrollMode == VERTICAL && t.VerticalTrail? then t.impl else t;
      scrollMode != NONE ==>
        (trailMode == EXPONENTIAL ==> base == TailExponentialTrail(vX, vY, now, decayCoeff1000, math)) &&
        (trailMode == LINEAR ==> base == LinearSlowdownTrail(vX, vY, now, decayCoeff1000))
  {
    var trail := match trailMode
      case EXPONENTIAL => TailExponentialTrail(vX, vY, now, decayCoeff1000, math)
      case LINEAR => LinearSlowdownTrail(vX, vY, now, decayCoeff1000);
    WithScrollMode(trail, scrollMode)
  }

  /** `Handler`: one press of the toggle button. */
  class Handler {
    // settings read when the handler is created
    const delayMs: int
    const decayCoeff1000: int
    const velocityWindowMs: int
    const scrollMode: InertiaDirection
    const trailMode: InertiaAlgorithm
    const math: Transcendentals
    const scrollSinceTs: int
    const trailSince: int

    var lastScrollTs: int
    var lastMoveTs: int
    var lastPoint: Point
    var deltaX: real
    var deltaY: real
    var shiftX: real
    var shiftY: real
    var velocityX: real
    var velocityY: real
    var trail: Option<Trail>
    var isDisposed: bool

    /** What `scrollComponent` received, tick by tick. */
    ghost var emitted: seq<(int, int)>
    /** The continuous displacement the ticks have handed to the accumulator. */
    ghost var fedX: real
    ghost var fedY: real
    /** The release time, and what had been fed by then. */
    ghost var releaseTs: int
    ghost var fedAtReleaseX: real
    ghost var fedAtReleaseY: real

    /** The session's invariant: the carry stays within one unit and, with what was
        scrolled, accounts for every bit of continuous displacement; after release
        the trail starts at the release time and the ticks have fed exactly the
        trail's displacement from release to the last tick. */
    ghost predicate Valid()
      reads this
    {
      0 <= decayCoeff1000 <= 1000 && 0 < delayMs &&
      Carried(emitted, shiftX, shiftY, fedX, fedY) &&
      (trail.Some? ==> TrailFed(trail.value, releaseTs, lastScrollTs, fedX, fedY, fedAtReleaseX, fedAtReleaseY))
    }

    /** The handler created on a press at time `now` at `start`. */
    constructor (now: int, start: Point, activationMs: int, decayCoeff1000: int, velocityWindowMs: int,
                 delayMs: int, scrollMode: InertiaDirection, trailMode: InertiaAlgorithm, math: Transcendentals)
      requires 0 <= decayCoeff1000 <= 1000 && 0 < delayMs
      ensures Valid()
      ensures this.delayMs == delayMs && this.decayCoeff1000 == decayCoeff1000
      ensures this.velocityWindowMs == velocityWindowMs
      ensures this.scrollMode == scrollMode && this.trailMode == trailMode && this.math == math
      ensures scrollSinceTs == now && trailSince == now + activationMs
      ensures lastScrollTs == now && lastMoveTs == now && lastPoint == start
      ensures deltaX == 0.0 && deltaY == 0.0 && shiftX == 0.0 && shiftY == 0.0
      ensures velocityX == 0.0 && velocityY == 0.0
      ensures trail == None && !isDisposed && emitted == []
    {
      this.delayMs := delayMs;
      this.decayCoeff1000 := decayCoeff1000;
      this.velocityWindowMs := velocityWindowMs;
      this.scrollMode := scrollMode;
      this.trailMode := trailMode;
      this.math := math;
      scrollSinceTs := now;
      trailSince := now + activationMs;
      lastScrollTs := now;
      lastMoveTs := now;
      lastPoint := start;
      deltaX, deltaY := 0.0, 0.0;
      shiftX, shiftY := 0.0, 0.0;
      velocityX, velocityY := 0.0, 0.0;
      trail := None;
      isDisposed := false;
      emitted := [];
      fedX, fedY := 0.0, 0.0;
      releaseTs := now;
      fedAtReleaseX, fedAtReleaseY := 0.0, 0.0;
    }

    /** `dispose`: the handler stops for good (cursor and alarm are left out). */
    method Dispose()
      modifies this`isDisposed
      ensures isDisposed
    {
      isDisposed := true;
    }

    /** The start of the sensitivity window for a sample at `now`: the window's
        width back from `now`, but never before the press. */
    function WindowStart(now: int): (start: int)
      // never before the press, and never more than the window's width back
      ensures scrollSinceTs <= start && now - velocityWindowMs <= start
      ensures start == scrollSinceTs || start == now - velocityWindowMs
    {
      Max(scrollSinceTs, now - velocityWindowMs)
    }

    /** `updateVelocity`: fold a move of (moveX, moveY) between `prevTs` and `now`
        into the velocity estimate. */
    method UpdateVelocity(moveX: int, moveY: int, prevTs: int, now: int)
      modifies this`velocityX, this`velocityY
      ensures now <= prevTs ==> velocityX == old(velocityX) && velocityY == old(velocityY)
      ensures prevTs < now ==>
        velocityX == NewVelocity(old(velocityX), moveX, prevTs, now, WindowStart(now)) &&
        velocityY == NewVelocity(old(velocityY), moveY, prevTs, now, WindowStart(now))
    {
      if now <= prevTs {
        return;
      }
      var deltaTs := now - prevTs;
      var windowStart := Max(scrollSinceTs, now - velocityWindowMs);
      if windowStart >= prevTs {
        velocityX := 1.0 * moveX as real / deltaTs as real;
        velocityY := 1.0 * moveY as real / deltaTs as real;
        return;
      }
      var allWindow := now - windowStart;
      var windowLeft := prevTs - windowStart;
      var lastMoveWeight := LastMoveWeight(windowLeft, allWindow);
      assert windowStart == WindowStart(now);
      // lastMoveWeight·velocity + currentMoveWeight·move/deltaTs
      velocityX := Blend(lastMoveWeight, velocityX, moveX as real / deltaTs as real);
      velocityY := Blend(lastMoveWeight, velocityY, moveY as real / deltaTs as real);
    }

    /** `mouseMoved`: while dragging, a sample later than the last accepted one adds
        the pointer's movement, sign reversed, to the pending delta and updates the
        velocity estimate. */
    method MouseMoved(now: int, point: Point)
      requires Valid()
      modifies this`lastMoveTs, this`lastPoint, this`deltaX, this`deltaY, this`velocityX, this`velocityY
      ensures Valid()
      ensures old(isDisposed) || old(trail).Some? || now <= old(lastMoveTs) ==> unchanged(this)
      ensures !old(isDisposed) && old(trail).None? && old(lastMoveTs) < now ==>
        deltaX == old(deltaX) + (old(lastPoint).x - point.x) as real &&
        deltaY == old(deltaY) + (old(lastPoint).y - point.y) as real &&
        lastMoveTs == now && lastPoint == point
      ensures !old(isDisposed) && old(trail).None? && old(lastMoveTs) < now ==>
        velocityX == NewVelocity(old(velocityX), old(lastPoint).x - point.x, old(lastMoveTs), now, WindowStart(now)) &&
        velocityY == NewVelocity(old(velocityY), old(lastPoint).y - point.y, old(lastMoveTs), now, WindowStart(now))
    {
      if isDisposed || trail.Some? {
        return;
      }
      if now <= lastMoveTs {
        return;
      }
      var moveX := lastPoint.x - point.x;
      var moveY := lastPoint.y - point.y;
      UpdateVelocity(moveX, moveY, lastMoveTs, now);
      deltaX := deltaX + moveX as real;
      deltaY := deltaY + moveY as real;
      lastMoveTs := now;
      lastPoint := point;
    }

    /** `mouseReleased`: a release before `trailSince` starts no fling; otherwise the
        final move is taken in and the trail is built from the velocity estimate,
        starting at the release time, which also becomes the last tick time. */
    method MouseReleased(now: int, point: Point) returns (started: bool)
      requires Valid()
      modifies this`lastMoveTs, this`lastPoint, this`deltaX, this`deltaY, this`velocityX, this`velocityY,
               this`lastScrollTs, this`trail, this`releaseTs, this`fedAtReleaseX, this`fedAtReleaseY
      ensures Valid()
      ensures started <==> trailSince <= now
      ensures !started ==> unchanged(this)
      ensures started ==>
        trail == Some(ReleaseTrail(trailMode, scrollMode, velocityX, velocityY, now, decayCoeff1000, math)) &&
        lastScrollTs == now && StartedAt(trail.value, now)
      ensures started && !old(isDisposed) && old(trail).None? && old(lastMoveTs) < now ==>
        lastMoveTs == now && lastPoint == point &&
        deltaX == old(deltaX) + (old(lastPoint).x - point.x) as real &&
        deltaY == old(deltaY) + (old(lastPoint).y - point.y) as real
      ensures started && !old(isDisposed) && old(trail).None? && old(lastMoveTs) < now ==>
        velocityX == NewVelocity(old(velocityX), old(lastPoint).x - point.x, old(lastMoveTs), now, WindowStart(now)) &&
        velocityY == NewVelocity(old(velocityY), old(lastPoint).y - point.y, old(lastMoveTs), now, WindowStart(now))
      // a final sample that `mouseMoved` ignores leaves the drag state as it was
      ensures started && (old(isDisposed) || old(trail).Some? || now <= old(lastMoveTs)) ==>
        deltaX == old(deltaX) && deltaY == old(deltaY) && velocityX == old(velocityX) &&
        velocityY == old(velocityY) && lastMoveTs == old(lastMoveTs) && lastPoint == old(lastPoint)
    {
      if now < trailSince {
        return false;
      }
      MouseMoved(now, point);
      StartTrail(now, ReleaseTrail(trailMode, scrollMode, velocityX, velocityY, now, decayCoeff1000, math));
      started := true;
    }

    /** The second half of `mouseReleased`: the trail built from the velocity
        estimate replaces any previous one and starts at `now`, which becomes the
        last tick time. */
    method StartTrail(now: int, t: Trail)
      requires Valid() && Sound(t) && StartedAt(t, now)
      modifies this`lastScrollTs, this`trail, this`releaseTs, this`fedAtReleaseX, this`fedAtReleaseY
      ensures Valid()
      ensures trail == Some(t) && lastScrollTs == now
    {
      lastScrollTs := now;
      trail := Some(t);
      releaseTs := now;
      fedAtReleaseX, fedAtReleaseY := fedX, fedY;
      TrailFedAtRelease(t, now, fedX, fedY);
    }

    /** `doScroll`, one alarm tick at `now`: a disposed handler does nothing; a
        finished trail disposes the handler without scrolling; otherwise the
        pending displacement plus the carry is scrolled in whole units, the
        fraction is carried, and the tick re-arms. */
    method DoScroll(now: int) returns (rearmed: bool)
      requires Valid() && lastScrollTs <= now
      modifies this`lastScrollTs, this`deltaX, this`deltaY, this`shiftX, this`shiftY, this`isDisposed,
               this`emitted, this`fedX, this`fedY
      ensures Valid()
      ensures old(isDisposed) ==> !rearmed && unchanged(this)
      ensures !old(isDisposed) ==> lastScrollTs == now
      ensures !old(isDisposed) ==>
        (rearmed <==> old(trail).None? || !Finished(old(trail).value, old(lastScrollTs)))
      ensures !rearmed ==>
        isDisposed && emitted == old(emitted) && shiftX == old(shiftX) && shiftY == old(shiftY) &&
        deltaX == old(deltaX) && deltaY == old(deltaY)
      ensures rearmed ==> !isDisposed && deltaX == 0.0 && deltaY == 0.0
      // before release a tick scrolls the drag delta gathered since the last tick
      ensures rearmed && trail.None? ==>
        var stepX, stepY := Accumulate(old(deltaX), old(shiftX)), Accumulate(old(deltaY), old(shiftY));
        emitted == old(emitted) + [(stepX.move, stepY.move)] && shiftX == stepX.carry && shiftY == stepY.carry
      // after release it scrolls the trail's displacement since the last tick
      ensures rearmed && trail.Some? ==>
        XDefined(trail.value) && YDefined(trail.value) &&
        (var stepX := Accumulate(DeltaX(trail.value, old(lastScrollTs), now), old(shiftX));
         var stepY := Accumulate(DeltaY(trail.value, old(lastScrollTs), now), old(shiftY));
         emitted == old(emitted) + [(stepX.move, stepY.move)] && shiftX == stepX.carry && shiftY == stepY.carry)
    {
      if isDisposed {
        return false;
      }
      var from := lastScrollTs;
      var to := now;
      lastScrollTs := to;
      if trail.Some? {
        var t := trail.value;
        if Finished(t, from) {
          TrailFedFinished(t, releaseTs, from, to, fedX, fedY, fedAtReleaseX, fedAtReleaseY);
          Dispose();
          return false;
        }
        TrailFedStep(t, releaseTs, from, to, fedX, fedY, fedAtReleaseX, fedAtReleaseY);
        deltaX := DeltaX(t, from, to);
        deltaY := DeltaY(t, from, to);
      }
      Emit();
      rearmed := true;
    }

    /** The second half of `doScroll`: the pending delta plus the carry is handed to
        `scrollComponent` in whole units, the fraction becomes the new carry, and
        the pending delta is cleared. */
    method Emit()
      requires Carried(emitted, shiftX, shiftY, fedX, fedY)
      modifies this`deltaX, this`deltaY, this`shiftX, this`shiftY, this`emitted, this`fedX, this`fedY
      ensures Carried(emitted, shiftX, shiftY, fedX, fedY)
      ensures var stepX, stepY := Accumulate(old(deltaX), old(shiftX)), Accumulate(old(deltaY), old(shiftY));
        emitted == old(emitted) + [(stepX.move, stepY.move)] && shiftX == stepX.carry && shiftY == stepY.carry
      ensures fedX == old(fedX) + old(deltaX) && fedY == old(fedY) + old(deltaY)
      ensures deltaX == 0.0 && deltaY == 0.0
    {
      var stepX := Accumulate(deltaX, shiftX);
      var stepY := Accumulate(deltaY, shiftY);
      CarriedStep(emitted, shiftX, shiftY, fedX, fedY, deltaX, deltaY);
      emitted := emitted + [(stepX.move, stepY.move)];  // scrollComponent(moveX, moveY)
      fedX, fedY := fedX + deltaX, fedY + deltaY;
      shiftX := deltaX + shiftX - stepX.move as real;
      shiftY := deltaY + shiftY - stepY.move as real;
      deltaX, deltaY := 0.0, 0.0;
    }

    /** How many milliseconds of trail remain after the last tick. */
    ghost function Remaining(): nat
      reads this
      requires trail.Some?
    {
      match Horizon(trail.value)
      case None => 0
      case Some(end) => if end > lastScrollTs then end - lastScrollTs else 0
    }

    /** The alarm after release: `doScroll` every `delayMs` until it stops re-arming.
        The fling always ends, once the trail is finished, and then the whole units
        scrolled plus the carry equal what was carried at release plus the trail's
        entire displacement. */
    method Fling() returns (ticks: nat)
      requires Valid() && trail.Some? && !isDisposed
      modifies this`lastScrollTs, this`deltaX, this`deltaY, this`shiftX, this`shiftY, this`isDisposed,
               this`emitted, this`fedX, this`fedY
      ensures Valid() && isDisposed && 1 <= ticks
      ensures Finished(trail.value, lastScrollTs)
      ensures old(emitted) <= emitted && |emitted| == |old(emitted)| + ticks - 1
      ensures XDefined(trail.value) ==>
        SumX(emitted) as real + shiftX == fedAtReleaseX + DeltaX(trail.value, releaseTs, lastScrollTs)
      ensures YDefined(trail.value) ==>
        SumY(emitted) as real + shiftY == fedAtReleaseY + DeltaY(trail.value, releaseTs, lastScrollTs)
    {
      ticks := 0;
      var armed := true;
      while armed
        invariant Valid() && armed == !isDisposed
        invariant old(emitted) <= emitted
        invariant armed ==> |emitted| == |old(emitted)| + ticks
        invariant !armed ==> 1 <= ticks && |emitted| == |old(emitted)| + ticks - 1
        invariant !armed ==> Finished(trail.value, lastScrollTs)
        decreases armed, Remaining()
      {
        var from := lastScrollTs;
        armed := DoScroll(from + delayMs);
        ticks := ticks + 1;
        if armed {
          FinishedIffHorizon(trail.value, from);
        } else {
          FinishedStaysFinished(trail.value, from, lastScrollTs);
        }
      }
    }
  }

  /** `KineticScrollEventListener`, reduced to the handler it holds. */
  class EventListener {
    var handler: Handler?

    /** `disposeHandler`: drop the current handler, disposing it if it is still
        live; answers whether it had to be disposed. */
    method DisposeHandler() returns (disposed: bool)
      modifies this`handler, (if handler == null then {} else {handler})`isDisposed
      ensures handler == null
      ensures disposed <==> old(handler) != null && !old(handler.isDisposed)
      ensures old(handler) != null ==> old(handler).isDisposed
    {
      var h := handler;
      if h == null {
        return false;
      }
      disposed := !h.isDisposed;
      if disposed {
        h.Dispose();
      }
      handler := null;
    }
  }

  /** Two samples, (0, 0) at the press at t = 0 and (10, 0) at t = 100, with a 140 ms
      window: the window reaches back to the press, so the velocity is the raw one,
      10 px / 100 ms, with the sign reversed as for every drag. */
  method FirstMoveScenario(math: Transcendentals) returns (vX: real, vY: real)
    ensures vX == -0.1 && vY == 0.0
  {
    var h := new Handler(0, Point(0, 0), 100, 500, 140, 16, BOTH, EXPONENTIAL, math);
    h.MouseMoved(100, Point(10, 0));
    vX, vY := h.velocityX, h.velocityY;
  }

  /** Activation gating with a 100 ms threshold: a release at 99 ms starts no
      fling, one at 100 ms does. */
  method ActivationScenario(math: Transcendentals) returns (early: bool, onTime: bool)
    ensures !early && onTime
  {
    var h1 := new Handler(1000, Point(0, 0), 100, 500, 140, 16, BOTH, LINEAR, math);
    early := h1.MouseReleased(1099, Point(0, 0));
    var h2 := new Handler(1000, Point(0, 0), 100, 500, 140, 16, BOTH, LINEAR, math);
    onTime := h2.MouseReleased(1100, Point(0, 0));
  }
}
