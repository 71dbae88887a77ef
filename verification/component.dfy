/**
 * The React wrapper around the renderer (`Watermark/index.tsx`): three effects and a `hasDrawn`
 * flag that decides whether option changes reach the renderer.
 *
 * React runs an effect when one of its dependencies changes; each effect run is an event here
 * (`Mount` runs all three in declaration order, as the first commit does).  Image decoding events
 * are passed to the renderer; a resolved `draw` promise runs its `then` handler, which sets
 * `hasDrawn`, and a rejected one only logs.
 */
module WatermarkComponent {
  import opened Wrappers
  import opened Types
  import R = Renderer

  /** The props the component declares; it reads only `url` and `options`. */
  datatype Props = Props(url: string, options: WatermarkOptions,
                         onResize: bool, onDrawComplete: bool, onError: bool)

  /** The two refs: the renderer instance and the `hasDrawn` flag. */
  datatype Component = Component(instance: Option<R.Watermark>, hasDrawn: bool)

  const Initial: Component := Component(None, false)

  datatype Event =
    | Mount(props: Props)
    | UrlChanged(url: string)
    | OptionsChanged(options: WatermarkOptions)
    | Browser(image: R.Event)
    | Unmount

  datatype Transition = Transition(state: Component, notices: seq<R.Notice>)

  /** The url effect: no url or no instance, nothing; otherwise clear `hasDrawn` and start a draw. */
  function UrlEffect(env: R.Env, c: Component, url: string): Transition
  {
    if url == [] || c.instance.None? then Transition(c, [])
    else
      var t := R.Step(env, c.instance.value, R.Draw(url));
      Transition(Component(Some(t.state), false), t.notices)
  }

  /** The options effect: forwarded to `setOptions` only once the instance has drawn. */
  function OptionsEffect(env: R.Env, c: Component, o: WatermarkOptions): Transition
  {
    if c.instance.None? || !c.hasDrawn then Transition(c, [])
    else
      var t := R.Step(env, c.instance.value, R.SetOptions(o));
      Transition(c.(instance := Some(t.state)), t.notices)
  }

  /** Whether a resolved `draw` promise is among the notices. */
  predicate AnyResolved(notices: seq<R.Notice>)
  {
    exists k :: 0 <= k < |notices| && notices[k].Resolved?
  }

  function Step(env: R.Env, c: Component, e: Event): Transition
  {
    match e
    case Mount(props) =>
      // the instance gets an error callback of its own; the props' callbacks are not passed on
      var created := c.(instance := Some(R.New(env, true, false)));
      var u := UrlEffect(env, created, props.url);
      var o := OptionsEffect(env, u.state, props.options);
      Transition(o.state, u.notices + o.notices)
    case UrlChanged(url) => UrlEffect(env, c, url)
    case OptionsChanged(o) => OptionsEffect(env, c, o)
    case Browser(image) =>
      if c.instance.None? || image.Draw? || image.SetOptions? || image.Destroy? then Transition(c, [])
      else
        var t := R.Step(env, c.instance.value, image);
        Transition(Component(Some(t.state), c.hasDrawn || AnyResolved(t.notices)), t.notices)
    case Unmount =>
      if c.instance.None? then Transition(Component(None, false), [])
      else
        var t := R.Step(env, c.instance.value, R.Destroy);
        Transition(Component(None, false), t.notices)
  }

  function Run(env: R.Env, c: Component, events: seq<Event>): Transition
    decreases |events|
  {
    if events == [] then Transition(c, [])
    else
      var t := Step(env, c, events[0]);
      var rest := Run(env, t.state, events[1..]);
      Transition(rest.state, t.notices + rest.notices)
  }

  // ---------------------------------------------------------------------------------------------
  // Properties
  // ---------------------------------------------------------------------------------------------

  /**
   * The callbacks among the props change nothing: mounting with any of them gives the same
   * result, and the instance is built with the component's own error callback and no resize
   * callback.
   */
  lemma CallbacksNotWired(env: R.Env, c: Component, p: Props, q: Props)
    requires p.url == q.url && p.options == q.options
    ensures Step(env, c, Mount(p)) == Step(env, c, Mount(q))
    ensures var s := Step(env, c, Mount(p)).state;
            s.instance.Some? && s.instance.value.onError && !s.instance.value.onResize
  {
  }

  /**
   * The url effect does nothing for an empty url or a missing instance; otherwise it clears
   * `hasDrawn` before the draw starts and the renderer's image becomes the new, loading one.
   */
  lemma UrlEffectResets(env: R.Env, c: Component, url: string)
    ensures var t := Step(env, c, UrlChanged(url));
            && (url == [] || c.instance.None? ==> t.state == c && t.notices == [])
            && (url != [] && c.instance.Some? ==>
                  && !t.state.hasDrawn
                  && t.state.instance.Some?
                  && t.state.instance.value.img
                     == Some(R.Image(c.instance.value.draws, url, R.Loading)))
  {
  }

  /**
   * `hasDrawn` becomes true only through a resolved `draw` promise: after any event, it is set
   * exactly when it was already set and the event did not clear it, or a promise resolved.
   * A rejected draw leaves it as it was.
   */
  lemma HasDrawnOnlyOnResolve(env: R.Env, c: Component, e: Event)
    ensures var t := Step(env, c, e);
            t.state.hasDrawn ==> AnyResolved(t.notices) || (c.hasDrawn && !e.Unmount?)
    ensures var t := Step(env, c, e);
            e.Browser? && c.instance.Some? && AnyResolved(t.notices) ==> t.state.hasDrawn
    ensures e.Browser? && e.image.ImageError? ==> Step(env, c, e).state.hasDrawn == c.hasDrawn
  {
  }

  /**
   * Option changes reach the renderer only while an instance exists and has drawn; otherwise they
   * are dropped (the state is unchanged, nothing is queued).
   */
  lemma OptionsGated(env: R.Env, c: Component, o: WatermarkOptions)
    ensures var t := Step(env, c, OptionsChanged(o));
            && (c.instance.None? || !c.hasDrawn ==> t == Transition(c, []))
            && (c.instance.Some? && c.hasDrawn ==>
                  && t.state.instance.Some?
                  && t.state.instance.value.options == o
                  && t.state.hasDrawn)
  {
  }

  /** Unmounting destroys the instance, drops it and clears `hasDrawn`. */
  lemma UnmountClears(env: R.Env, c: Component)
    ensures Step(env, c, Unmount).state == Initial
    ensures c.instance.Some? ==>
              R.Destroyed(R.Step(env, c.instance.value, R.Destroy).state)
  {
  }

  /**
   * The `options` prop given at mount is not applied: the renderer keeps its built-in defaults,
   * whatever options were passed.
   */
  lemma InitialOptionsNotApplied(env: R.Env, c: Component, p: Props)
    requires !c.hasDrawn
    ensures var s := Step(env, c, Mount(p)).state;
            s.instance.Some? && s.instance.value.options == R.DefaultOptions
  {
  }

  /**
   * Until some image has loaded, the renderer never sees an option change: from the initial
   * state, along any run without image loads, every instance keeps the built-in defaults and
   * `hasDrawn` stays false.
   */
  lemma {:induction false} OptionsWaitForFirstLoad(env: R.Env, c: Component, events: seq<Event>)
    requires !c.hasDrawn
    requires c.instance.Some? ==> c.instance.value.options == R.DefaultOptions
    requires forall k :: 0 <= k < |events| ==> !(events[k].Browser? && events[k].image.ImageLoad?)
    ensures var s := Run(env, c, events).state;
            && !s.hasDrawn
            && (s.instance.Some? ==> s.instance.value.options == R.DefaultOptions)
    decreases |events|
  {
    if events != [] {
      var t := Step(env, c, events[0]);
      assert !t.state.hasDrawn by {
        HasDrawnOnlyOnResolve(env, c, events[0]);
        if events[0].Browser? && c.instance.Some? {
          assert !events[0].image.ImageLoad?;
        }
      }
      OptionsWaitForFirstLoad(env, t.state, events[1..]);
    }
  }
}
