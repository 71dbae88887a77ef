/**
 * The zoom percentage kept by `useScaler` (Scaler/useScaler.ts): buttons step by 10, the wheel
 * with Ctrl or Cmd held steps by 5, and every step is clamped to `[10, 200]`.
 */
module Scaler {

  const MinScale: int := 10
  const MaxScale: int := 200

  /** What the hook's four actions receive. */
  datatype Action =
    | ZoomUp
    | ZoomDown
    | Reset
    | Wheel(ctrlKey: bool, metaKey: bool, deltaY: real)

  /** A step up by `by`, not past the maximum. */
  function Up(prev: int, step: nat): (next: int)
    ensures next <= MaxScale
    ensures next <= prev + step
    ensures next == prev + step || next == MaxScale
  {
    if prev + step < MaxScale then prev + step else MaxScale
  }

  /** A step down by `by`, not past the minimum. */
  function Down(prev: int, step: nat): (next: int)
    ensures next >= MinScale
    ensures next >= prev - step
    ensures next == prev - step || next == MinScale
  {
    if prev - step > MinScale then prev - step else MinScale
  }

  /** The scale after one action, with `initial` the value the hook was created with. */
  function Apply(initial: int, prev: int, a: Action): (next: int)
  {
    match a
    case ZoomUp => Up(prev, 10)
    case ZoomDown => Down(prev, 10)
    case Reset => initial
    case Wheel(ctrl, meta, deltaY) =>
      if !ctrl && !meta then prev
      else if deltaY > 0.0 then Down(prev, 5)
      else Up(prev, 5)
  }

  /** The scale after a sequence of actions. */
  function Run(initial: int, prev: int, actions: seq<Action>): int
    decreases |actions|
  {
    if actions == [] then prev else Run(initial, Apply(initial, prev, actions[0]), actions[1..])
  }

  /** A wheel event without Ctrl or Cmd leaves the scale alone. */
  lemma WheelNeedsModifier(initial: int, prev: int, deltaY: real)
    ensures Apply(initial, prev, Wheel(false, false, deltaY)) == prev
  {
  }

  /**
   * With Ctrl or Cmd (or both) held, scrolling down (`deltaY > 0`) zooms out by 5 and anything
   * else, including `deltaY == 0`, zooms in by 5, each clamped to the range.
   */
  lemma WheelDirection(initial: int, prev: int, ctrl: bool, meta: bool, deltaY: real)
    requires ctrl || meta
    ensures deltaY > 0.0 ==> Apply(initial, prev, Wheel(ctrl, meta, deltaY)) == Down(prev, 5)
    ensures deltaY <= 0.0 ==> Apply(initial, prev, Wheel(ctrl, meta, deltaY)) == Up(prev, 5)
  {
  }

  /** Away from the ends of the range, a wheel step out and a wheel step in undo each other. */
  lemma WheelStepsInverse(prev: int)
    requires MinScale <= prev <= MaxScale
    ensures MinScale + 5 <= prev ==> Up(Down(prev, 5), 5) == prev
    ensures prev + 5 <= MaxScale ==> Down(Up(prev, 5), 5) == prev
  {
  }

  /** Zooming in at 200 and zooming out at 10 change nothing, however often repeated. */
  lemma ClampedAtEnds(initial: int)
    ensures Apply(initial, MaxScale, ZoomUp) == MaxScale
    ensures Apply(initial, MinScale, ZoomDown) == MinScale
    ensures Apply(initial, MaxScale, Wheel(true, true, -1.0)) == MaxScale
    ensures Apply(initial, MinScale, Wheel(true, true, 1.0)) == MinScale
  {
  }

  /** Reset returns to the initial value whatever the current one. */
  lemma ResetRestores(initial: int, prev: int, actions: seq<Action>)
    ensures Run(initial, prev, actions + [Reset]) == initial
  {
    RunAppend(initial, prev, actions, [Reset]);
  }

  lemma {:induction false} RunAppend(initial: int, prev: int, xs: seq<Action>, ys: seq<Action>)
    ensures Run(initial, prev, xs + ys) == Run(initial, Run(initial, prev, xs), ys)
    decreases |xs|
  {
    if xs == [] {
      assert xs + ys == ys;
    } else {
      assert (xs + ys)[1..] == xs[1..] + ys;
      RunAppend(initial, Apply(initial, prev, xs[0]), xs[1..], ys);
    }
  }

  /**
   * With the initial value inside `[10, 200]`, every reachable scale stays inside it, whatever
   * the sequence of buttons, wheel events and resets.
   */
  lemma {:induction false} StaysInRange(initial: int, prev: int, actions: seq<Action>)
    requires MinScale <= initial <= MaxScale
    requires MinScale <= prev <= MaxScale
    ensures MinScale <= Run(initial, prev, actions) <= MaxScale
    decreases |actions|
  {
    if actions != [] {
      StaysInRange(initial, Apply(initial, prev, actions[0]), actions[1..]);
    }
  }

  /** The key codes of `+` and `-` for which the browser's own zoom shortcut is suppressed. */
  const ZoomKeyCodes: set<int> := {61, 107, 173, 109, 187, 189}

  /** The keydown listener prevents the default iff Ctrl or Cmd is held and a zoom key is pressed. */
  predicate KeyPrevented(ctrlKey: bool, metaKey: bool, which: int)
  {
    (ctrlKey || metaKey) && which in ZoomKeyCodes
  }

  /** The wheel listeners prevent the default iff Ctrl or Cmd is held. */
  predicate WheelPrevented(ctrlKey: bool, metaKey: bool)
  {
    ctrlKey || metaKey
  }

  /**
   * Strictly inside the range, a wheel event changes the scale exactly when its default is
   * suppressed, and a zoom key is suppressed only under the modifiers that make the wheel zoom.
   */
  lemma ShortcutsSuppressed(initial: int, prev: int, ctrl: bool, meta: bool, deltaY: real, which: int)
    requires MinScale < prev < MaxScale
    ensures Apply(initial, prev, Wheel(ctrl, meta, deltaY)) != prev <==> WheelPrevented(ctrl, meta)
    ensures KeyPrevented(ctrl, meta, which) ==> WheelPrevented(ctrl, meta)
  {
  }
}
