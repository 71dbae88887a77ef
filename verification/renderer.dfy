/**
 * The `Watermark` class (Watermark.ts) as a state machine.
 *
 * The canvas is a list of layers: the image drawn by `drawImage`, then the tiled pattern filled by
 * `addWatermark`.  Asynchronous image decoding is an event the browser delivers
 * (`ImageLoad` / `ImageError`, naming the image by the number of the `draw` call that created
 * it); the class's own methods are the other events.  What the outside world can observe besides
 * the state (callbacks run, promises settled, exceptions thrown) is a list of notices.
 *
 * The browser is a parameter: glyph widths, the integer offsets the trigonometry yields for an
 * angle and block width, the viewport width, and whether the canvas has a 2D context.
 */
module Renderer {
  import opened Wrappers
  import opened Types
  import opened Geometry

  /** A viewport width at least 100 pixels, so that the display width limit is not negative. */
  type Viewport = w: int | w >= 100 witness 100

  datatype Env = Env(glyph: (int, char) -> real, offsetOf: (int, int) -> Offset,
                     innerWidth: Viewport, hasContext: bool)

  /** The options a new instance starts with. */
  const DefaultOptions: WatermarkOptions :=
    WatermarkOptions("仅用于办理XXXX，他用无效。", 23, "rgba(100, 100, 100, 0.4)", 280, 180, 20)

  /** The size a new instance reports before any image has loaded. */
  const DefaultSize: Size := Size(100.0, 160.0)

  /** The decoding state of an image element; `complete` is true once it is no longer loading. */
  datatype ImageState = Loading | Decoded(width: nat, height: nat) | Broken

  /** An image created by the `draw` call numbered `id`. */
  datatype Image = Image(id: nat, src: string, state: ImageState)
  {
    predicate Complete() { !state.Loading? }

    /** `img.width` / `img.height`: the natural size once decoded, 0 before or on failure. */
    function Natural(): (n: (nat, nat))
      ensures !state.Decoded? ==> n == (0, 0)
    {
      if state.Decoded? then (state.width, state.height) else (0, 0)
    }
  }

  /** What has been painted on the canvas: an image scaled to `width x height`, or the pattern
   * filled over a `columns x rows` pixel area. */
  datatype Layer =
    | ImageLayer(image: nat, width: real, height: real)
    | PatternLayer(tile: Tile, columns: nat, rows: nat)

  datatype Canvas = Canvas(width: nat, height: nat, layers: seq<Layer>)

  /** The instance's fields. `onError` / `onResize` record whether a callback is set. */
  datatype Watermark = Watermark(
    img: Option<Image>,
    draws: nat,
    options: WatermarkOptions,
    tile: Tile,
    imgWidth: real,
    imgHeight: real,
    onError: bool,
    onResize: bool,
    canvas: Canvas)

  datatype Event =
    | Draw(url: string)
    | ImageLoad(image: nat, width: nat, height: nat)
    | ImageError(image: nat)
    | SetOptions(options: WatermarkOptions)
    | Destroy

  /** Observable effects: callbacks, settled `draw` promises, an exception out of a handler. */
  datatype Notice =
    | Resized(width: real, height: real)
    | ErrorReported
    | Resolved(draw: nat)
    | Rejected(draw: nat)
    | Threw

  /** The tile `createWatermarkCanvas` builds for options `o`. */
  function TileFor(env: Env, o: WatermarkOptions): Tile
  {
    BuildTile(o, env.glyph, env.offsetOf(o.rotate, o.watermarkWidth))
  }

  /** `new Watermark(canvas, { onError, onResize })` on a fresh 300 x 150 canvas. */
  function New(env: Env, onError: bool, onResize: bool): (w: Watermark)
    ensures w.img.None? && w.canvas.layers == []
    ensures w.options == DefaultOptions && w.tile == TileFor(env, DefaultOptions)
  {
    Watermark(None, 0, DefaultOptions, TileFor(env, DefaultOptions), DefaultSize.width,
              DefaultSize.height, onError, onResize,
              Canvas(DefaultCanvasWidth, DefaultCanvasHeight, []))
  }

  /** `getSize()`. */
  function GetSize(w: Watermark): Size
  {
    Size(w.imgWidth, w.imgHeight)
  }

  /** The painting done by a call, with its notices and whether it ended in an exception. */
  datatype Outcome = Outcome(canvas: Canvas, notices: seq<Notice>, threw: bool)

  /**
   * `drawImage()`: without a context or an image, nothing.  Otherwise the canvas is resized to
   * the display size (which clears it) and the image painted over it; an image still loading
   * paints nothing and a broken one makes `drawImage` throw before the resize callback runs.
   */
  function DrawImage(env: Env, w: Watermark): (out: Outcome)
    ensures !env.hasContext || w.img.None? ==> out == Outcome(w.canvas, [], false)
    ensures env.hasContext && w.img.Some? ==>
              && out.canvas.width == CanvasDimension(w.imgWidth, DefaultCanvasWidth)
              && out.canvas.height == CanvasDimension(w.imgHeight, DefaultCanvasHeight)
              && (out.threw <==> w.img.value.state.Broken?)
              && |out.canvas.layers| <= 1
    ensures env.hasContext && w.img.Some? ==>
              out.notices == (if w.onResize && !w.img.value.state.Broken? then [Resized(w.imgWidth, w.imgHeight)] else [])
    ensures env.hasContext && w.img.Some? && w.img.value.Natural().0 > 0 && w.img.value.Natural().1 > 0 ==>
              out.canvas.layers == [ImageLayer(w.img.value.id, w.imgWidth, w.imgHeight)]
  {
    if !env.hasContext || w.img.None? then Outcome(w.canvas, [], false)
    else
      var img := w.img.value;
      var cleared := Canvas(CanvasDimension(w.imgWidth, DefaultCanvasWidth),
                            CanvasDimension(w.imgHeight, DefaultCanvasHeight), []);
      var resized := if w.onResize then [Resized(w.imgWidth, w.imgHeight)] else [];
      match img.state
      case Broken => Outcome(cleared, [], true)
      case Loading => Outcome(cleared, resized, false)
      case Decoded(nw, nh) =>
        var painted := if nw > 0 && nh > 0 then [ImageLayer(img.id, w.imgWidth, w.imgHeight)] else [];
        Outcome(cleared.(layers := painted), resized, false)
  }

  /**
   * `addWatermark()`: the tile as a repeating pattern filled over the whole canvas.  A tile with
   * a zero side cannot make a pattern and `createPattern` throws.
   */
  function AddWatermark(env: Env, tile: Tile, before: Outcome): (out: Outcome)
    ensures out.notices == before.notices
    ensures !env.hasContext ==> out == before
    ensures env.hasContext ==>
              (out.threw <==> before.threw || tile.width == 0 || tile.height == 0)
    ensures env.hasContext && !out.threw ==>
              out.canvas.layers
              == before.canvas.layers + [PatternLayer(tile, before.canvas.width, before.canvas.height)]
  {
    if !env.hasContext then before
    else if tile.width == 0 || tile.height == 0 then before.(threw := true)
    else
      var c := before.canvas;
      before.(canvas := c.(layers := c.layers + [PatternLayer(tile, c.width, c.height)]))
  }

  /** `_draw()`: the image, then, unless that threw, the pattern over it. */
  function Render(env: Env, w: Watermark): Outcome
  {
    var a := DrawImage(env, w);
    if a.threw then a else AddWatermark(env, w.tile, a)
  }

  /**
   * With a context and a decoded, non-empty image, `_draw` paints exactly two layers, the image
   * at the display size and then the pattern over the whole canvas; it fails only for a tile
   * with a zero side.
   */
  lemma RenderLayers(env: Env, w: Watermark)
    requires env.hasContext && w.img.Some?
    requires w.img.value.state.Decoded? && w.img.value.state.width > 0 && w.img.value.state.height > 0
    ensures var out := Render(env, w);
            && (out.threw <==> w.tile.width == 0 || w.tile.height == 0)
            && (!out.threw ==>
                  out.canvas.layers
                  == [ImageLayer(w.img.value.id, w.imgWidth, w.imgHeight),
                      PatternLayer(w.tile, out.canvas.width, out.canvas.height)])
            && out.canvas.width == CanvasDimension(w.imgWidth, DefaultCanvasWidth)
  {
  }

  /** A state and the notices one event produced. */
  datatype Transition = Transition(state: Watermark, notices: seq<Notice>)

  /** The image element after the browser reports on image `id`: only the current one changes. */
  function Mark(img: Option<Image>, id: nat, state: ImageState): (r: Option<Image>)
    ensures img.Some? && img.value.id == id ==> r == Some(img.value.(state := state))
    ensures img.None? || img.value.id != id ==> r == img
  {
    if img.Some? && img.value.id == id then Some(img.value.(state := state)) else img
  }

  /**
   * The `onload` handler of the image of draw `id`.  It reads the instance's CURRENT image, which
   * is a later one if `draw` was called again meanwhile; after `destroy` it returns at once and
   * the promise never settles.
   */
  function OnLoad(env: Env, w: Watermark, id: nat): Transition
  {
    if w.img.None? then Transition(w, [])
    else
      var (ow, oh) := w.img.value.Natural();
      var size := DisplaySize(ow, oh, env.innerWidth);
      var sized := w.(imgWidth := size.width, imgHeight := size.height);
      var out := Render(env, sized);
      Transition(sized.(canvas := out.canvas),
                 out.notices + (if out.threw then [Threw] else [Resolved(id)]))
  }

  /** One event. Reports on images no `draw` call created are ignored. */
  function Step(env: Env, w: Watermark, e: Event): Transition
  {
    match e
    case Draw(url) =>
      Transition(w.(img := Some(Image(w.draws, url, Loading)), draws := w.draws + 1), [])
    case ImageLoad(id, nw, nh) =>
      if id >= w.draws then Transition(w, [])
      else OnLoad(env, w.(img := Mark(w.img, id, Decoded(nw, nh))), id)
    case ImageError(id) =>
      if id >= w.draws then Transition(w, [])
      else
        Transition(w.(img := Mark(w.img, id, Broken)),
                   (if w.onError then [ErrorReported] else []) + [Rejected(id)])
    case SetOptions(o) =>
      var rebuilt := w.(options := o, tile := TileFor(env, o));
      if rebuilt.img.Some? && rebuilt.img.value.Complete() then
        var out := Render(env, rebuilt);
        Transition(rebuilt.(canvas := out.canvas), out.notices + (if out.threw then [Threw] else []))
      else Transition(rebuilt, [])
    case Destroy =>
      Transition(w.(img := None, onError := false, onResize := false), [])
  }

  /** A sequence of events, with all the notices in order. */
  function Run(env: Env, w: Watermark, events: seq<Event>): Transition
    decreases |events|
  {
    if events == [] then Transition(w, [])
    else
      var t := Step(env, w, events[0]);
      var rest := Run(env, t.state, events[1..]);
      Transition(rest.state, t.notices + rest.notices)
  }

  // ---------------------------------------------------------------------------------------------
  // Properties
  // ---------------------------------------------------------------------------------------------

  /** Before any image has loaded the reported size is 100 x 160. */
  lemma InitialSize(env: Env, onError: bool, onResize: bool)
    ensures GetSize(New(env, onError, onResize)) == Size(100.0, 160.0)
  {
  }

  /** Only the `onload` handler changes the reported size. */
  lemma SizeChangesOnlyOnLoad(env: Env, w: Watermark, e: Event)
    requires !e.ImageLoad?
    ensures GetSize(Step(env, w, e).state) == GetSize(w)
  {
  }

  /**
   * When the current image loads, its display size becomes the reported size and the draw
   * promise resolves unless painting threw.
   */
  lemma LoadCurrent(env: Env, w: Watermark, nw: nat, nh: nat)
    requires w.img.Some? && w.img.value.id < w.draws
    ensures var t := Step(env, w, ImageLoad(w.img.value.id, nw, nh));
            && GetSize(t.state) == DisplaySize(nw, nh, env.innerWidth)
            && t.state.img == Some(w.img.value.(state := Decoded(nw, nh)))
            && (Resolved(w.img.value.id) in t.notices <==> Threw !in t.notices)
  {
  }

  /**
   * With a context, when the current image loads with a non-empty natural size and the tile has
   * no zero side, the canvas takes the display size and shows the image at that size with the
   * pattern over it.
   */
  lemma LoadCurrentPaints(env: Env, w: Watermark, nw: nat, nh: nat)
    requires env.hasContext && w.img.Some? && w.img.value.id < w.draws
    requires nw > 0 && nh > 0 && w.tile.width > 0 && w.tile.height > 0
    ensures var t := Step(env, w, ImageLoad(w.img.value.id, nw, nh));
            var size := DisplaySize(nw, nh, env.innerWidth);
            && t.state.canvas.width == CanvasDimension(size.width, DefaultCanvasWidth)
            && t.state.canvas.height == CanvasDimension(size.height, DefaultCanvasHeight)
            && t.state.canvas.layers
               == [ImageLayer(w.img.value.id, size.width, size.height),
                   PatternLayer(w.tile, t.state.canvas.width, t.state.canvas.height)]
  {
    var size := DisplaySize(nw, nh, env.innerWidth);
    var loaded := w.(img := Mark(w.img, w.img.value.id, Decoded(nw, nh)));
    RenderLayers(env, loaded.(imgWidth := size.width, imgHeight := size.height));
  }

  /**
   * `setOptions` always stores the options and rebuilds the tile; it repaints only when there is
   * an image and it is complete, and otherwise leaves the canvas alone and reports nothing.
   */
  lemma SetOptionsRedrawsOnlyComplete(env: Env, w: Watermark, o: WatermarkOptions)
    ensures var t := Step(env, w, Event.SetOptions(o));
            && t.state.options == o
            && t.state.tile == TileFor(env, o)
            && t.state.img == w.img
            && GetSize(t.state) == GetSize(w)
            && (w.img.None? || !w.img.value.Complete() ==> t.state.canvas == w.canvas && t.notices == [])
            && (w.img.Some? && w.img.value.Complete() ==>
                  t.state.canvas == Render(env, w.(options := o, tile := TileFor(env, o))).canvas)
  {
  }

  /**
   * Changing options after a successful load repaints the same image with the new tile on top.
   */
  lemma SetOptionsRepaints(env: Env, w: Watermark, o: WatermarkOptions)
    requires env.hasContext && w.img.Some?
    requires w.img.value.state.Decoded? && w.img.value.state.width > 0 && w.img.value.state.height > 0
    requires TileFor(env, o).width > 0 && TileFor(env, o).height > 0
    ensures var t := Step(env, w, Event.SetOptions(o));
            && |t.state.canvas.layers| == 2
            && t.state.canvas.layers[0] == ImageLayer(w.img.value.id, w.imgWidth, w.imgHeight)
            && t.state.canvas.layers[1].PatternLayer?
            && t.state.canvas.layers[1].tile == TileFor(env, o)
            && Threw !in t.notices
  {
    RenderLayers(env, w.(options := o, tile := TileFor(env, o)));
  }

  /** A failed image rejects its promise, reporting through `onError` only while that is set. */
  lemma ErrorRejects(env: Env, w: Watermark, id: nat)
    requires id < w.draws
    ensures var t := Step(env, w, ImageError(id));
            && t.state.canvas == w.canvas
            && GetSize(t.state) == GetSize(w)
            && Rejected(id) in t.notices
            && (ErrorReported in t.notices <==> w.onError)
            && (forall n :: n in t.notices ==> n == ErrorReported || n == Rejected(id))
  {
  }

  /** No image and no callbacks: what `destroy` leaves behind. */
  predicate Destroyed(w: Watermark)
  {
    w.img.None? && !w.onError && !w.onResize
  }

  /**
   * After `destroy`, until `draw` is called again, nothing is painted, the size stays, no promise
   * resolves and no callback runs: a pending `onload` and later `setOptions` calls are inert.
   * Failed images still reject their promises.
   */
  lemma {:induction false} DestroyedIsInert(env: Env, w: Watermark, events: seq<Event>)
    requires Destroyed(w)
    requires forall k :: 0 <= k < |events| ==> !events[k].Draw?
    ensures var t := Run(env, w, events);
            && t.state.canvas == w.canvas
            && GetSize(t.state) == GetSize(w)
            && Destroyed(t.state)
            && forall n :: n in t.notices ==> n.Rejected?
    decreases |events|
  {
    if events != [] {
      var t := Step(env, w, events[0]);
      assert Destroyed(t.state) && t.state.canvas == w.canvas && GetSize(t.state) == GetSize(w);
      assert forall n :: n in t.notices ==> n.Rejected?;
      DestroyedIsInert(env, t.state, events[1..]);
    }
  }

  /** `destroy` leaves the instance destroyed, whatever its state. */
  lemma DestroyDestroys(env: Env, w: Watermark)
    ensures Destroyed(Step(env, w, Destroy).state)
    ensures Step(env, w, Destroy).state.canvas == w.canvas
  {
  }

  /** `draw(url)` replaces the image with a new, loading one numbered after the previous draws. */
  lemma DrawStartsLoading(env: Env, w: Watermark, url: string)
    ensures var t := Step(env, w, Draw(url));
            && t.state.img == Some(Image(w.draws, url, Loading))
            && t.state.draws == w.draws + 1
            && t.state.canvas == w.canvas && GetSize(t.state) == GetSize(w)
            && t.notices == []
  {
  }

  /**
   * A stale load: when an earlier image loads while a later one is still loading (after
   * `draw(a)` then `draw(b)`), the handler reads the later image, so it sizes the canvas 0 x 0,
   * paints no image, and still resolves the earlier promise.
   */
  lemma StaleLoadUsesCurrentImage(env: Env, w: Watermark, id: nat, nw: nat, nh: nat)
    requires env.hasContext
    requires w.img.Some? && w.img.value.state == Loading
    requires id < w.draws && id != w.img.value.id
    ensures var t := Step(env, w, ImageLoad(id, nw, nh));
            && GetSize(t.state) == Size(0.0, 0.0)
            && t.state.img == w.img
            && (forall k :: 0 <= k < |t.state.canvas.layers| ==> !t.state.canvas.layers[k].ImageLayer?)
            && (Threw in t.notices || Resolved(id) in t.notices)
  {
    assert DisplaySize(0, 0, env.innerWidth) == Size(0.0, 0.0);
  }

  /**
   * After `draw(a)` then `draw(b)`, the order in which the two images load does not matter to the
   * final state: each `onload` reads the current image `b`, so the last handler to run sizes and
   * paints from `b` either way.  Only the order of the notices differs.
   */
  lemma LoadOrderIrrelevant(env: Env, w: Watermark, a: string, b: string, na: nat, ha: nat, nb: nat, hb: nat)
    ensures var ia := w.draws;
            var ib := w.draws + 1;
            Run(env, w, [Draw(a), Draw(b), ImageLoad(ia, na, ha), ImageLoad(ib, nb, hb)]).state
            == Run(env, w, [Draw(a), Draw(b), ImageLoad(ib, nb, hb), ImageLoad(ia, na, ha)]).state
    ensures env.hasContext && nb > 0 && hb > 0 && w.tile.width > 0 && w.tile.height > 0 ==>
            var c := Run(env, w, [Draw(a), Draw(b), ImageLoad(w.draws, na, ha), ImageLoad(w.draws + 1, nb, hb)]).state.canvas;
            var size := DisplaySize(nb, hb, env.innerWidth);
            c.layers == [ImageLayer(w.draws + 1, size.width, size.height), PatternLayer(w.tile, c.width, c.height)]
  {
    var ia := w.draws;
    var ib := w.draws + 1;
    var w2 := Step(env, Step(env, w, Draw(a)).state, Draw(b)).state;
    var b2 := Image(ib, b, Decoded(nb, hb));
    assert w2.img == Some(Image(ib, b, Loading)) && w2.draws == ib + 1;
    var x1 := Step(env, w2, ImageLoad(ia, na, ha)).state;
    var x2 := Step(env, x1, ImageLoad(ib, nb, hb)).state;
    var y1 := Step(env, w2, ImageLoad(ib, nb, hb)).state;
    var y2 := Step(env, y1, ImageLoad(ia, na, ha)).state;
    assert x1.img == w2.img;
    assert x2.img == Some(b2) && y1.img == Some(b2) && y2.img == Some(b2);
    var size := DisplaySize(nb, hb, env.innerWidth);
    var sized := w2.(img := Some(b2), imgWidth := size.width, imgHeight := size.height);
    assert x2 == sized.(canvas := Render(env, sized).canvas);
    assert y2 == sized.(canvas := Render(env, sized).canvas);
    if env.hasContext && nb > 0 && hb > 0 && w.tile.width > 0 && w.tile.height > 0 {
      RenderLayers(env, sized);
    }
    RunUnfold4(env, w, Draw(a), Draw(b), ImageLoad(ia, na, ha), ImageLoad(ib, nb, hb));
    RunUnfold4(env, w, Draw(a), Draw(b), ImageLoad(ib, nb, hb), ImageLoad(ia, na, ha));
  }

  /** A run of four events ends where the four steps, taken one after another, end. */
  lemma RunUnfold4(env: Env, w: Watermark, e0: Event, e1: Event, e2: Event, e3: Event)
    ensures Run(env, w, [e0, e1, e2, e3]).state
            == Step(env, Step(env, Step(env, Step(env, w, e0).state, e1).state, e2).state, e3).state
  {
    var s0 := Step(env, w, e0).state;
    var s1 := Step(env, s0, e1).state;
    var s2 := Step(env, s1, e2).state;
    var s3 := Step(env, s2, e3).state;
    assert [e3][1..] == [];
    assert Run(env, s2, [e3]).state == s3;
    assert [e2, e3][1..] == [e3];
    assert Run(env, s1, [e2, e3]).state == s3;
    assert [e1, e2, e3][1..] == [e2, e3];
    assert Run(env, s0, [e1, e2, e3]).state == s3;
    assert [e0, e1, e2, e3][1..] == [e1, e2, e3];
  }

  /** Setting the same options twice in a row has the effect of setting them once. */
  lemma SetOptionsIdempotent(env: Env, w: Watermark, o: WatermarkOptions)
    ensures var t := Step(env, w, Event.SetOptions(o));
            Step(env, t.state, Event.SetOptions(o)) == t
  {
  }
}
