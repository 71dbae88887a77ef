/**
 * The touch gestures of `useGesture` (hooks/useGesture.ts): a two-finger pinch reports the
 * finger distance relative to the distance at pinch start, and a quick one-finger horizontal
 * stroke reports a swipe to the left or right.
 *
 * The three listeners share five refs, gathered in `Tracker`.  `Math.hypot` is a parameter, and
 * `Date.now()` is the `now` carried by the start and end events.
 */
module Gesture {
  import opened Types

  datatype Point = Point(x: real, y: real)

  datatype Direction = Left | Right

  /** What the hook reports through `onPinch` and `onSwipe`. */
  datatype Gesture = Pinch(scale: real) | Swipe(direction: Direction)

  datatype TouchEvent =
    | TouchStart(touches: seq<Point>, now: int)
    | TouchMove(touches: seq<Point>)
    | TouchEnd(touches: seq<Point>, changedTouches: seq<Point>, now: int)

  /** The refs: pinch start distance and last reported scale, and the swipe start point and time. */
  datatype Tracker = Tracker(initialDistance: real, lastScale: real,
                             startX: real, startY: real, startTime: int)

  const Initial: Tracker := Tracker(0.0, 1.0, 0.0, 0.0, 0)

  /** The least change of scale that is reported. */
  const PinchThreshold: real := 0.02
  /** A swipe covers more than 50 pixels horizontally, in less than 300 milliseconds. */
  const MinSwipeDistance: real := 50.0
  const MaxSwipeTime: int := 300

  datatype Reaction = Reaction(state: Tracker, out: seq<Gesture>)

  function Abs(x: real): (a: real)
    ensures a >= 0.0 && (a == x || a == -x)
  {
    if x < 0.0 then -x else x
  }

  /** `getDistance`: zero for fewer than two touches, else the distance of the first two. */
  function Distance(hypot: (real, real) -> real, touches: seq<Point>): real
  {
    if |touches| < 2 then 0.0
    else hypot(touches[0].x - touches[1].x, touches[0].y - touches[1].y)
  }

  /** `handleTouchStart`. */
  function Start(opts: GestureOptions, hypot: (real, real) -> real, s: Tracker,
                 touches: seq<Point>, now: int): Tracker
  {
    var pinched := if |touches| == 2 && opts.hasPinch
                   then s.(initialDistance := Distance(hypot, touches), lastScale := 1.0)
                   else s;
    if |touches| == 1 && opts.hasSwipe
    then pinched.(startX := touches[0].x, startY := touches[0].y, startTime := now)
    else pinched
  }

  /** `handleTouchMove`. */
  function Move(opts: GestureOptions, hypot: (real, real) -> real, s: Tracker,
                touches: seq<Point>): Reaction
  {
    if |touches| == 2 && opts.hasPinch && s.initialDistance > 0.0 then
      var scale := Distance(hypot, touches) / s.initialDistance;
      if Abs(scale - s.lastScale) > PinchThreshold
      then Reaction(s.(lastScale := scale), [Pinch(scale)])
      else Reaction(s, [])
    else Reaction(s, [])
  }

  /** Whether a stroke with these displacements and duration is a swipe. */
  predicate IsSwipe(dx: real, dy: real, dt: int)
  {
    Abs(dx) > MinSwipeDistance && Abs(dx) > Abs(dy) && dt < MaxSwipeTime
  }

  /** `handleTouchEnd`. */
  function End(opts: GestureOptions, s: Tracker, touches: seq<Point>,
               changed: seq<Point>, now: int): Reaction
  {
    var released := if |touches| < 2 then s.(initialDistance := 0.0) else s;
    if opts.hasSwipe && |changed| == 1 then
      var dx := changed[0].x - s.startX;
      var dy := changed[0].y - s.startY;
      var dt := now - s.startTime;
      if IsSwipe(dx, dy, dt)
      then Reaction(released, [Swipe(if dx > 0.0 then Right else Left)])
      else Reaction(released, [])
    else Reaction(released, [])
  }

  function Step(opts: GestureOptions, hypot: (real, real) -> real, s: Tracker, e: TouchEvent): Reaction
  {
    match e
    case TouchStart(touches, now) => Reaction(Start(opts, hypot, s, touches, now), [])
    case TouchMove(touches) => Move(opts, hypot, s, touches)
    case TouchEnd(touches, changed, now) => End(opts, s, touches, changed, now)
  }

  function Run(opts: GestureOptions, hypot: (real, real) -> real, s: Tracker,
               events: seq<TouchEvent>): Reaction
    decreases |events|
  {
    if events == [] then Reaction(s, [])
    else
      var r := Step(opts, hypot, s, events[0]);
      var rest := Run(opts, hypot, r.state, events[1..]);
      Reaction(rest.state, r.out + rest.out)
  }

  /** The scales of the pinches among the reported gestures, in order. */
  function Pinches(gs: seq<Gesture>): seq<real>
    decreases |gs|
  {
    if gs == [] then []
    else (if gs[0].Pinch? then [gs[0].scale] else []) + Pinches(gs[1..])
  }

  lemma {:induction false} PinchesAppend(xs: seq<Gesture>, ys: seq<Gesture>)
    ensures Pinches(xs + ys) == Pinches(xs) + Pinches(ys)
    decreases |xs|
  {
    if xs == [] {
      assert xs + ys == ys;
    } else {
      var head := if xs[0].Pinch? then [xs[0].scale] else [];
      assert (xs + ys)[0] == xs[0];
      assert (xs + ys)[1..] == xs[1..] + ys;
      assert Pinches(xs + ys) == head + Pinches(xs[1..] + ys);
      PinchesAppend(xs[1..], ys);
      assert head + (Pinches(xs[1..]) + Pinches(ys)) == (head + Pinches(xs[1..])) + Pinches(ys);
    }
  }

  /** Each reported scale differs from the one before it (the first from `prev`) by more than 0.02. */
  predicate Jumps(prev: real, scales: seq<real>)
    decreases |scales|
  {
    scales == [] || (Abs(scales[0] - prev) > PinchThreshold && Jumps(scales[0], scales[1..]))
  }

  /** Whether an event starts a pinch (two fingers down, with a pinch callback). */
  predicate StartsPinch(opts: GestureOptions, e: TouchEvent)
  {
    e.TouchStart? && |e.touches| == 2 && opts.hasPinch
  }

  // ---------------------------------------------------------------------------------------------
  // Properties
  // ---------------------------------------------------------------------------------------------

  /**
   * A move reports a pinch iff two fingers are down, a pinch callback is supplied, a pinch with a
   * positive start distance is in progress and the scale moved by more than 0.02; the scale is the
   * current distance over the start distance and becomes the last reported scale.  Otherwise the
   * move changes nothing.
   */
  lemma PinchIff(opts: GestureOptions, hypot: (real, real) -> real, s: Tracker, touches: seq<Point>)
    ensures var r := Move(opts, hypot, s, touches);
            r.out != [] <==>
              && |touches| == 2 && opts.hasPinch && s.initialDistance > 0.0
              && Abs(Distance(hypot, touches) / s.initialDistance - s.lastScale) > PinchThreshold
    ensures var r := Move(opts, hypot, s, touches);
            r.out != [] ==>
              && r.out == [Pinch(Distance(hypot, touches) / s.initialDistance)]
              && r.state == s.(lastScale := r.out[0].scale)
    ensures var r := Move(opts, hypot, s, touches);
            r.out == [] ==> r.state == s
  {
  }

  /**
   * Lifting a finger reports a swipe iff a swipe callback is supplied, exactly one touch changed
   * and the stroke from the recorded start is a swipe; it is to the right iff the finger moved
   * right.  The pinch start distance is cleared iff fewer than two fingers remain, and nothing
   * else changes.
   */
  lemma SwipeIff(opts: GestureOptions, s: Tracker, touches: seq<Point>, changed: seq<Point>, now: int)
    ensures var r := End(opts, s, touches, changed, now);
            r.out != [] <==>
              && opts.hasSwipe && |changed| == 1
              && IsSwipe(changed[0].x - s.startX, changed[0].y - s.startY, now - s.startTime)
    ensures var r := End(opts, s, touches, changed, now);
            r.out != [] ==> r.out == [Swipe(if changed[0].x > s.startX then Right else Left)]
    ensures var r := End(opts, s, touches, changed, now);
            r.state == (if |touches| < 2 then s.(initialDistance := 0.0) else s)
  {
  }

  /** Mirroring a stroke left to right mirrors the swipe it reports. */
  lemma SwipeMirror(opts: GestureOptions, s: Tracker, touches: seq<Point>, p: Point, now: int)
    ensures var r := End(opts, s, touches, [p], now);
            var m := End(opts, s.(startX := -s.startX), touches, [p.(x := -p.x)], now);
            && (r.out != [] <==> m.out != [])
            && (r.out != [] ==> r.out[0].direction != m.out[0].direction)
  {
  }

  /** A stroke of 60 pixels right and 10 down in 200 milliseconds is a swipe to the right. */
  lemma SwipeExample(opts: GestureOptions)
    requires opts.hasSwipe
    ensures var s := Start(opts, (dx, dy) => 0.0, Initial, [Point(100.0, 100.0)], 1000);
            End(opts, s, [], [Point(160.0, 110.0)], 1200).out == [Swipe(Right)]
  {
  }

  /**
   * A single touch starts a swipe only with a swipe callback and leaves the pinch state alone;
   * two touches start a pinch only with a pinch callback, resetting the last scale to 1.  Fewer
   * than two touches measure a distance of 0.
   */
  lemma StartRecords(opts: GestureOptions, hypot: (real, real) -> real, s: Tracker,
                     touches: seq<Point>, now: int)
    ensures var t := Start(opts, hypot, s, touches, now);
            && (|touches| == 1 && opts.hasSwipe ==>
                  t == s.(startX := touches[0].x, startY := touches[0].y, startTime := now))
            && (|touches| == 2 && opts.hasPinch ==>
                  t == s.(initialDistance := Distance(hypot, touches), lastScale := 1.0))
            && (!(|touches| == 1 && opts.hasSwipe) && !(|touches| == 2 && opts.hasPinch) ==> t == s)
    ensures |touches| < 2 ==> Distance(hypot, touches) == 0.0
  {
  }

  /**
   * Once the pinch state is cleared (as lifting a finger does), no pinch is reported until a new
   * two-finger start: every run without one reports no pinch and keeps the state cleared.
   */
  lemma {:induction false} NoPinchAfterRelease(opts: GestureOptions, hypot: (real, real) -> real,
                                               s: Tracker, events: seq<TouchEvent>)
    requires s.initialDistance == 0.0
    requires forall k :: 0 <= k < |events| ==> !StartsPinch(opts, events[k])
    ensures Pinches(Run(opts, hypot, s, events).out) == []
    ensures Run(opts, hypot, s, events).state.initialDistance == 0.0
    decreases |events|
  {
    if events != [] {
      var r := Step(opts, hypot, s, events[0]);
      assert !StartsPinch(opts, events[0]);
      NoPinchAfterRelease(opts, hypot, r.state, events[1..]);
      PinchesAppend(r.out, Run(opts, hypot, r.state, events[1..]).out);
      assert Pinches(r.out) == [] by {
        if r.out != [] {
          assert Pinches(r.out[1..]) == [];
        }
      }
    }
  }

  /**
   * One event that does not start a pinch either reports nothing about pinches and keeps the last
   * scale, or reports exactly the new last scale, which moved by more than 0.02.
   */
  lemma StepPinch(opts: GestureOptions, hypot: (real, real) -> real, s: Tracker, e: TouchEvent)
    requires !StartsPinch(opts, e)
    ensures var r := Step(opts, hypot, s, e);
            || (Pinches(r.out) == [] && r.state.lastScale == s.lastScale)
            || (Pinches(r.out) == [r.state.lastScale] && Abs(r.state.lastScale - s.lastScale) > PinchThreshold)
  {
    var r := Step(opts, hypot, s, e);
    assert |r.out| <= 1;
    if r.out != [] {
      assert r.out[1..] == [];
    }
  }

  /**
   * Within one pinch (no new two-finger start), the reported scales are spaced: each differs from
   * the previous report, the first from the last reported scale before the run, by more than 0.02.
   */
  lemma {:induction false} PinchesAreSpaced(opts: GestureOptions, hypot: (real, real) -> real,
                                            s: Tracker, events: seq<TouchEvent>)
    requires forall k :: 0 <= k < |events| ==> !StartsPinch(opts, events[k])
    ensures Jumps(s.lastScale, Pinches(Run(opts, hypot, s, events).out))
    decreases |events|
  {
    if events != [] {
      var r := Step(opts, hypot, s, events[0]);
      var rest := Run(opts, hypot, r.state, events[1..]);
      assert !StartsPinch(opts, events[0]);
      StepPinch(opts, hypot, s, events[0]);
      PinchesAreSpaced(opts, hypot, r.state, events[1..]);
      PinchesAppend(r.out, rest.out);
      var ps := Pinches(rest.out);
      if Pinches(r.out) == [] {
        assert Pinches(r.out) + ps == ps;
      } else {
        assert ([r.state.lastScale] + ps)[1..] == ps;
      }
    }
  }

  /** Whether a report is backed by the matching callback. */
  predicate Gated(opts: GestureOptions, g: Gesture)
  {
    (g.Pinch? ==> opts.hasPinch) && (g.Swipe? ==> opts.hasSwipe)
  }

  predicate AllGated(opts: GestureOptions, gs: seq<Gesture>)
  {
    forall k :: 0 <= k < |gs| ==> Gated(opts, gs[k])
  }

  /** Without a pinch callback no pinch is ever reported, and without a swipe callback no swipe. */
  lemma {:induction false} CallbacksGate(opts: GestureOptions, hypot: (real, real) -> real,
                                         s: Tracker, events: seq<TouchEvent>)
    ensures AllGated(opts, Run(opts, hypot, s, events).out)
    decreases |events|
  {
    if events != [] {
      var r := Step(opts, hypot, s, events[0]);
      var rest := Run(opts, hypot, r.state, events[1..]);
      CallbacksGate(opts, hypot, r.state, events[1..]);
      assert forall k :: 0 <= k < |r.out| ==> Gated(opts, r.out[k]);
      var out := r.out + rest.out;
      forall k | 0 <= k < |out|
        ensures Gated(opts, out[k])
      {
        if k >= |r.out| {
          assert out[k] == rest.out[k - |r.out|];
        }
      }
    }
  }
}
