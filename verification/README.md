# watermark-pro in Dafny

watermark-pro is a browser tool that stamps a tiled, rotated text watermark on ID photos. This
project models its logic as pure functions over immutable datatypes and proves what that logic
promises. The model covers:

- the greedy line wrap `canvasTextAutoLine`;
- the tile and display sizes computed by the `Watermark` class;
- the `Watermark` class itself as a state machine over an abstract list of canvas layers;
- the `hasDrawn` gating in the React wrapper;
- the zoom hook `useScaler` and the touch hook `useGesture`;
- the helpers `getBase64`, `throttle`, `debounce` and `formatFileSize`;
- the application shell's reducer, options form, preview lookup and gallery handlers
  (upload, paste, drop, swipe navigation).

One module per source file:

| file | module | source |
|---|---|---|
| `wrappers.dfy` | `Wrappers` | `Option`, for optional and nullable slots |
| `types.dfy` | `Types` | `src/types/index.ts` |
| `autoline.dfy` | `AutoLine` | `canvasTextAutoLine` in `src/components/Watermark/Watermark.ts` |
| `geometry.dfy` | `Geometry` | tile canvas size and display size in `Watermark.ts` |
| `renderer.dfy` | `Renderer` | the `Watermark` class |
| `component.dfy` | `WatermarkComponent` | `src/components/Watermark/index.tsx` |
| `scaler.dfy` | `Scaler` | `src/components/Scaler/useScaler.ts` |
| `gesture.dfy` | `Gesture` | `src/hooks/useGesture.ts` |
| `utils.dfy` | `Utils` | `src/utils/index.ts` |
| `app.dfy` | `App` | `src/App.tsx` |

The browser appears only as parameters:

- glyph widths are a function `measure: char -> real`, standing in for `measureText`;
- the trigonometric text offsets are an integer `Offset`;
- the viewport width is a parameter;
- whether a 2D context exists is a parameter;
- `Math.hypot` is a parameter;
- the clock is the time carried by each event;
- new uids are parameters;
- asynchronous completions (image decode, `FileReader`, timers) are events in arrival order.

The wrap is modelled twice:

- `AutoLine.Scan` follows the loop statement by statement, including its quirk. After an
  overflow the running total restarts at 0, yet the character that overflowed opens the next
  line, so its width is never counted.
- `Overflows`, `Cut` and `Place` describe the same result independently, as sums over slices.

`AutoLine.ScanIsGreedy` proves that the two agree. Every wrap property is then stated on the
loop as written.

Two details of the class are easy to misread:

- **Tile width.** The tile width is the diagonal truncated toward zero, because
  `canvas.width` is an `unsigned long` and the floating-point `sqrt` is assigned to it. A
  100 x 100 block gets a 141-pixel tile (`Geometry.TileWidthExample`).
- **No destroyed state.** The class has no destroyed state: `destroy` nulls the image and the
  callbacks, and a later `draw` works again. `Renderer.Destroyed` is the predicate "no image and
  no callbacks".

A `char` stands for one UTF-16 code unit of the JavaScript string, and the model's numbers are
exact (see "## Left out").

## Model

| member | source | states |
|---|---|---|
| AutoLine.FindOverflow | src/components/Watermark/Watermark.ts:23-27 | The search result is the first index at or after the start where the widths counted from `c` pass the budget, or the text length when none do. |
| AutoLine.Overflows | src/components/Watermark/Watermark.ts:23-31 | The overflow positions are strictly increasing and lie inside the text. |
| AutoLine.Cut | src/components/Watermark/Watermark.ts:28-36  | Cutting at `n` positions gives `n + 1` lines. |
| AutoLine.ScanIsGreedy | src/components/Watermark/Watermark.ts:20-38 | From any loop state whose running total is the width of `s[c..i]`, the remaining `fillText` calls are the reference lines placed from the current `y` downward. |
| AutoLine.AutoLineIsGreedy | src/components/Watermark/Watermark.ts:12-39 | For non-empty text, the draw calls are the text cut at its overflow positions, with line `k` placed `k` pitches below the start. |
| AutoLine.OverflowsAreGreedy | src/components/Watermark/Watermark.ts:24-31 | The overflow list is greedy. Each element is the first overflow counted from just after the previous one (the overflowing character is not counted again). After the last element, no prefix passes the budget. |
| AutoLine.GreedyIsOverflows | src/components/Watermark/Watermark.ts:24-31 | Any greedy list equals the computed overflow list, so the line breaks are uniquely determined. |
| AutoLine.AutoLineEmptyIff | src/components/Watermark/Watermark.ts:23-36  | The text draws nothing exactly when it is empty. Non-empty text always draws at least one line. |
| AutoLine.AutoLinePartition | src/components/Watermark/Watermark.ts:28-36  | The drawn texts, concatenated in order, equal the input exactly: nothing is dropped or duplicated. |
| AutoLine.AutoLineLayout | src/components/Watermark/Watermark.ts:27-36  | Line `k` is drawn at `(initX, initY + k * lineHeight)`. There is one line more than there are overflow events. |
| AutoLine.AutoLinePositions | src/components/Watermark/Watermark.ts:28-36  | For any text, call `k` is at `x = initX` and `y = initY + k * lineHeight`. |
| AutoLine.AutoLineSingleLine | src/components/Watermark/Watermark.ts:24-36  | Exactly one line is drawn iff no prefix of the text is wider than `width - initX`. That line is the whole text at `(initX, initY)`. |
| AutoLine.AutoLineEmptyLines | src/components/Watermark/Watermark.ts:27-31 | For non-empty text, a drawn line is empty exactly when it is the first line and the first character alone is wider than `width - initX`. |
| AutoLine.CutAt | src/components/Watermark/Watermark.ts:28-36  | Line `k` runs from the previous cut position to the next one. Every line after the first is non-empty. |
| AutoLine.JoinCut | src/components/Watermark/Watermark.ts:28-36  | The cut lines, concatenated, give back the text. |
| Geometry.Truncate | src/components/Watermark/Watermark.ts:97-98 | Conversion to an integer rounds toward zero, for both signs. |
| Geometry.CanvasDimension | src/components/Watermark/Watermark.ts:97-98 | An assigned canvas dimension in `[0, 2^31)` keeps its floor. Otherwise the result is a reflected value or the default. |
| Geometry.FloorSqrt | src/components/Watermark/Watermark.ts:97 | The result is the integer square root: `r*r <= n < (r+1)*(r+1)`. |
| Geometry.TileCoversBlock | src/components/Watermark/Watermark.ts:97-98 | The tile is exactly `watermarkHeight` tall. While the diagonal fits a canvas, the tile is at least as wide as both sides of the block. |
| Geometry.TileWidthExample | src/components/Watermark/Watermark.ts:97 | A 100 x 100 block gives a tile 141 wide: the diagonal is truncated, not rounded up. |
| Geometry.TileText | src/components/Watermark/Watermark.ts:114-121 | The tile's `fillText` calls, in order, spell the option text wrapped at `watermarkWidth`. |
| Geometry.TileLinePositions | src/components/Watermark/Watermark.ts:114-121 | Tile line `k` starts at `(X + 10, Y + fontSize + 20 + k * fontSize * 1.4)`. |
| Geometry.TileDrawsText | src/components/Watermark/Watermark.ts:114-121 | The tile carries text exactly when the option text is not empty. |
| Geometry.MaxDisplayWidth | src/components/Watermark/Watermark.ts:191 | The width limit is the smaller of `innerWidth - 100` and 1200. |
| Geometry.DisplaySize | src/components/Watermark/Watermark.ts:191-199 | The displayed width is `min(origW, maxWidth)`. A scaled image keeps its aspect ratio (`height * origW == maxWidth * origH`). An image within the limit keeps its natural size. |
| Geometry.DisplayWidthBound | src/components/Watermark/Watermark.ts:191-199 | The displayed width never exceeds 1200 or the viewport width less 100. |
| Geometry.DisplaySizeExample | src/components/Watermark/Watermark.ts:191-199 | A 2000 x 1000 image in a 1920-wide window is shown at 1200 x 600. |
| Renderer.New | src/components/Watermark/Watermark.ts:48-80 | A new instance has no image, an empty canvas, the built-in default options and the tile built from them. |
| Renderer.DrawImage | src/components/Watermark/Watermark.ts:127-145 | Without a context or an image, `drawImage` changes nothing. Otherwise the canvas takes the display size; a decoded non-empty image is its only layer; `onResize` gets the display size when set unless the image is broken; and the call throws exactly for a broken image. |
| Renderer.AddWatermark | src/components/Watermark/Watermark.ts:150-160 | `addWatermark` adds no notices. Without a context it changes nothing. With a context, it fails exactly for a tile with a zero side, and otherwise appends one pattern layer covering the canvas. |
| Renderer.RenderLayers | src/components/Watermark/Watermark.ts:165-168 | For a decoded, non-empty image, `_draw` paints exactly the image layer and then the pattern layer. It fails only for a tile with a zero side. |
| Renderer.Mark | src/components/Watermark/Watermark.ts:183-188 | A report on the current image sets that image's decoding state, and a report on any other image, or with no image, leaves the image unchanged. |
| Renderer.InitialSize | src/components/Watermark/Watermark.ts:50-51  | `getSize` is 100 x 160 before any image has loaded. |
| Renderer.SizeChangesOnlyOnLoad | src/components/Watermark/Watermark.ts:183-203  | Only the `onload` handler changes the reported size. |
| Renderer.LoadCurrent | src/components/Watermark/Watermark.ts:183-203 | When the current image loads, it is marked decoded, its display size becomes the reported size, and the `draw` promise resolves exactly when painting did not throw. |
| Renderer.StaleLoadUsesCurrentImage | src/components/Watermark/Watermark.ts:183-203 | When an earlier image loads while a later one is still loading, the handler reads the later image: it sizes the canvas 0 x 0, paints no image, and still resolves the earlier promise. |
| Renderer.LoadCurrentPaints | src/components/Watermark/Watermark.ts:183-201 | With a context, a non-empty loaded image and a tile with no zero side, the canvas takes the display size and shows the image at that size under the pattern. |
| Renderer.LoadOrderIrrelevant | src/components/Watermark/Watermark.ts:175-203 | After `draw(a)` then `draw(b)`, both load orders end in the same state, which shows `b` at its display size under the pattern. |
| Renderer.ErrorRejects | src/components/Watermark/Watermark.ts:206-216 | A failed image rejects its promise and reports through `onError` exactly when that callback is set. Nothing is painted and the size stays. |
| Renderer.SetOptionsRedrawsOnlyComplete | src/components/Watermark/Watermark.ts:227-235 | `setOptions` always stores the options and rebuilds the tile. It repaints only when an image is present and complete; otherwise the canvas and notices are untouched. |
| Renderer.SetOptionsRepaints | src/components/Watermark/Watermark.ts:227-235 | After a successful load, changing options repaints the same image with the new tile on top. |
| Renderer.SetOptionsIdempotent | src/components/Watermark/Watermark.ts:227-235 | Setting the same options a second time changes neither the state nor the notices the first call produced. |
| Renderer.DrawStartsLoading | src/components/Watermark/Watermark.ts:175-180  | `draw(url)` replaces the image with a new, loading one and paints nothing yet. |
| Renderer.DestroyDestroys | src/components/Watermark/Watermark.ts:271-275 | `destroy` leaves no image and no callbacks, and the canvas as it was. |
| Renderer.DestroyedIsInert | src/components/Watermark/Watermark.ts:271-275  | After `destroy`, until the next `draw`, nothing is painted, the size stays, no promise resolves and no callback runs. Only rejections can occur. |
| WatermarkComponent.CallbacksNotWired | src/components/Watermark/index.tsx:12-40  | Mounting gives the same result whatever callbacks the props carry. The instance gets the component's own error callback and no resize callback. |
| WatermarkComponent.UrlEffectResets | src/components/Watermark/index.tsx:50-56 | An empty url or a missing instance does nothing. Otherwise `hasDrawn` is cleared and a new image starts loading. |
| WatermarkComponent.HasDrawnOnlyOnResolve | src/components/Watermark/index.tsx:55-63 | `hasDrawn` becomes true only through a resolved `draw` promise, and a resolution always sets it. A rejected draw leaves it as it was. |
| WatermarkComponent.OptionsGated | src/components/Watermark/index.tsx:66-71 | Options reach `setOptions` only when the instance exists and has drawn. Otherwise they are dropped, not queued. |
| WatermarkComponent.UnmountClears | src/components/Watermark/index.tsx:42-46 | Unmounting destroys the instance, drops the ref and clears `hasDrawn`. |
| WatermarkComponent.InitialOptionsNotApplied | src/components/Watermark/index.tsx:32-47  | The `options` prop given at mount is not applied; the renderer keeps its built-in defaults. |
| WatermarkComponent.OptionsWaitForFirstLoad | src/components/Watermark/index.tsx:50-71 | Until some image loads, `hasDrawn` stays false and every instance keeps the built-in defaults, whatever else happens. |
| Scaler.Up | src/components/Scaler/useScaler.ts:21 | A step up adds the step but never goes past 200. |
| Scaler.Down | src/components/Scaler/useScaler.ts:26 | A step down subtracts the step but never goes below 10. |
| Scaler.WheelNeedsModifier | src/components/Scaler/useScaler.ts:36 | A wheel event without Ctrl or Cmd leaves the scale alone. |
| Scaler.WheelDirection | src/components/Scaler/useScaler.ts:41-47 | With Ctrl or Cmd held, `deltaY > 0` steps down by 5 clamped at 10, and any other `deltaY` steps up by 5 clamped at 200. |
| Scaler.WheelStepsInverse | src/components/Scaler/useScaler.ts:43-46 | Away from the ends of the range, a wheel step out and a wheel step in undo each other. |
| Scaler.ClampedAtEnds | src/components/Scaler/useScaler.ts:21-46  | Zooming in at 200 and zooming out at 10 change nothing. |
| Scaler.ResetRestores | src/components/Scaler/useScaler.ts:30-32 | A reset returns to the initial value after any history. |
| Scaler.RunAppend | src/components/Scaler/useScaler.ts:20-48 | Running two action sequences in a row is running their concatenation. |
| Scaler.StaysInRange | src/components/Scaler/useScaler.ts:21-46  | From an initial value in `[10, 200]`, every reachable scale stays in `[10, 200]`. |
| Scaler.ShortcutsSuppressed | src/components/Scaler/useScaler.ts:36-67 | Strictly inside the range, a wheel event changes the scale exactly when its default is suppressed, and a zoom key is suppressed only under the modifiers that make the wheel zoom. |
| Gesture.Abs | src/hooks/useGesture.ts:107-108  | `Math.abs` is non-negative and equals the argument or its negation. |
| Gesture.StartRecords | src/hooks/useGesture.ts:37-61  | One touch records the swipe start, only with a swipe callback. Two touches record the pinch distance and reset the last scale to 1, only with a pinch callback. Otherwise nothing changes. Fewer than two touches measure distance 0. |
| Gesture.PinchIff | src/hooks/useGesture.ts:64-79 | A move reports a pinch iff all of these hold: two fingers, a pinch callback, a positive start distance, and a scale change above 0.02. The reported scale becomes the last scale; a move that reports nothing changes nothing. |
| Gesture.SwipeIff | src/hooks/useGesture.ts:82-116 | Lifting reports a swipe iff there is a swipe callback, one touch changed, and the stroke is a swipe. The swipe is to the right iff `dx > 0`. The pinch distance is cleared iff fewer than two fingers remain. |
| Gesture.SwipeMirror | src/hooks/useGesture.ts:103-111 | Mirroring a stroke left to right mirrors the swipe it reports. |
| Gesture.SwipeExample | src/hooks/useGesture.ts:103-111 | A stroke of 60 pixels right and 10 down in 200 ms is a swipe to the right. |
| Gesture.NoPinchAfterRelease | src/hooks/useGesture.ts:67-87  | Once the pinch distance is cleared, no pinch is reported until a new two-finger start, and the distance stays cleared. |
| Gesture.StepPinch | src/hooks/useGesture.ts:64-79 | An event that does not start a pinch either reports no pinch and keeps the last scale, or reports exactly the new last scale, which moved by more than 0.02. |
| Gesture.PinchesAreSpaced | src/hooks/useGesture.ts:67-75 | Within one pinch, consecutive reported scales differ by more than 0.02. The first differs by that much from the last scale before the pinch. |
| Gesture.PinchesAppend | src/hooks/useGesture.ts:74 | The pinches of two report lists in a row are the pinches of each, concatenated. |
| Gesture.CallbacksGate | src/hooks/useGesture.ts:48-90  | No pinch is reported without a pinch callback, and no swipe without a swipe callback. |
| Utils.Race | src/utils/index.ts:44-69 | A started read never rejects as too large, and times out only when a timer was armed. |
| Utils.Defaults | src/utils/index.ts:26-30 | Empty options give a 30 000 ms timeout and a 10 MiB limit. A field that is given, even 0, is used as given. |
| Utils.SizeGuard | src/utils/index.ts:34-49 | A file is rejected as too large iff its size exceeds the limit, so a file of exactly the limit is read. A rejected file starts no read and arms no timer. A read arms the timer iff the timeout is positive. |
| Utils.FirstSettlerWins | src/utils/index.ts:44-69 | The promise settles as the first settling event says: load, read error, or armed timeout. |
| Utils.PendingIff | src/utils/index.ts:44-69 | The promise stays pending iff no event settles it. |
| Utils.SettlesOnce | src/utils/index.ts:44-69 | A settled promise stays settled; later events change nothing. |
| Utils.ThrottleIff | src/utils/index.ts:142-147 | A call runs iff `now - lastTime >= limit`, and only a call that runs moves `lastTime`. |
| Utils.ThrottleSpaced | src/utils/index.ts:140-147 | Over any call sequence, the calls that run are at least `limit` apart, and `lastTime` ends at the last one that ran. |
| Utils.ThrottleFirstCall | src/utils/index.ts:140-143  | Since `lastTime` starts at 0, the first call runs iff the clock reads at least `limit`. |
| Utils.Burst | src/utils/index.ts:121-128 | A burst holds one call per argument list, in order. |
| Utils.BurstPending | src/utils/index.ts:121-128 | A burst of calls fires nothing yet and leaves the last call's arguments pending. |
| Utils.DebounceLatest | src/utils/index.ts:121-128 | After a burst and the delay, exactly one call is made, with the latest arguments, and nothing stays pending. |
| Utils.DebounceAppend | src/utils/index.ts:121-128 | Running two event sequences in a row is running their concatenation. |
| Utils.DebounceFiresAtMostOnce | src/utils/index.ts:121-128 | Calls made plus calls pending never exceed calls requested plus the one pending at the start. |
| Utils.UnitIndex | src/utils/index.ts:159 | The unit index `i` satisfies `1024^i <= bytes < 1024^(i+1)`. |
| Utils.UnitIndexUnique | src/utils/index.ts:159 | That `i` is the only index with this property. |
| Utils.FormatFileSizeLabel | src/utils/index.ts:156-160 | 0 is `0 B`. Any other count is scaled into `[1, 1024)` of its unit. From `1024^4` bytes on, the unit is read past the four-entry table as `undefined`. |
| Utils.FormatFileSizeExamples | src/utils/index.ts:155-161 | 1536 bytes is 1.5 KB, and one tebibyte falls off the table. |
| App.ReduceFrame | src/App.tsx:72-89 | Each action sets exactly the field(s) it names (`SET_PREVIEW` sets both name and image) and leaves the rest. An unknown action changes nothing. |
| App.ReduceIdempotent | src/App.tsx:72-89 | Dispatching an action twice is the same as dispatching it once. |
| App.ReduceCommutes | src/App.tsx:72-89 | Actions on different fields commute. |
| App.MergeFieldwise | src/App.tsx:137-145 | Each of the six fields takes the form's value when given and its default when absent, and a complete form gives exactly its own values. |
| App.FillNormalised | src/App.tsx:151-157 | A string fill is kept, even when empty. A colour object gives its non-empty hex string. Anything else gives `#00000080`. The fill is empty only for the empty string. |
| App.ProcessedOptions | src/App.tsx:137-161 | The stored options take the normalised fill, and each of the five other fields takes the form value or its default. |
| App.FormBurstApplies | src/App.tsx:137-161 | A burst of form changes followed by the debounce delay dispatches once, with the last change's options. The rest of the state is untouched. |
| App.FindIndex | src/App.tsx:128-134 | The lookup gives -1 iff the uid is absent, and otherwise the first position holding it. |
| App.ReplaceByUid | src/App.tsx:195 | Mapping keeps the length and replaces exactly the entries with the item's uid. |
| App.RemoveUid | src/App.tsx:203 | Filtering leaves no entry with the uid, never grows the list, and adds no new entries. |
| App.UpsertPlaces | src/App.tsx:194-198 | An item with a listed uid replaces that entry in place, keeping length and order. Otherwise it is appended. Either way the item is listed afterward. |
| App.RemoveAbsentUid | src/App.tsx:203 | Removing an absent uid changes nothing. |
| App.RemoveUidKeeps | src/App.tsx:203 | Removing a uid keeps every entry with another uid. |
| App.RemoveUidConcat | src/App.tsx:203 | Filtering a concatenation filters each part and keeps the parts in order. |
| App.RemoveUidSingle | src/App.tsx:203 | A single entry is dropped exactly when it has the uid. |
| App.PreviewLookup | src/App.tsx:128-134 | An unknown selection shows no image under the name `未选择图片`. A known one shows the first matching entry's name and preview, each falling back when empty or missing. |
| App.ReadPreview | src/App.tsx:182-185 | A file over 15 MiB is rejected as too large. A missing object or a string rejects. |
| App.UploadRemoval | src/App.tsx:166-177 | A shorter reported list is taken as the new list. It clears the selection when empty, and otherwise selects its last entry. |
| App.UploadAddition | src/App.tsx:179-206 | A successful read stores the file as done, with its data URL as preview and thumbnail, and selects it (in place or appended). A failed read removes the uid and keeps the selection. A read that never settles changes nothing. |
| App.UploadTooLarge | src/App.tsx:182-203  | An uploaded file over 15 MiB never stays in the list. |
| App.FirstPastable | src/App.tsx:223-260  | The processed clipboard item is the first image item that yields a file; no earlier item qualifies, and -1 means none does. |
| App.Decimal | src/App.tsx:239 | The time stamp in a pasted name is the decimal numeral of `now`: its digits denote `now` and have no leading zero. |
| App.PasteCapped | src/App.tsx:218-263 | A successful paste appends exactly one entry to a list of fewer than eight, from the first usable image item, with the new uid. A full list is left as it is. The default is suppressed iff some item is an image. |
| App.PasteIntoFullList | src/App.tsx:246-253 | A paste into a full list still selects the new uid, which is not listed, so the preview shows nothing. |
| App.DropLoopAppends | src/App.tsx:304-337 | The loop only appends done, previewed image files after the existing entries, at most `8 - captured - added` of them. The first addition becomes the selection. |
| App.DropCapped | src/App.tsx:295-343 | A drop onto an up-to-date list never takes it past eight entries. It keeps the existing entries in front and selects the first one added. |
| App.DropSkipsNonImages | src/App.tsx:306-307 | Dropping only non-images changes nothing. |
| App.NavigateMoves | src/App.tsx:368-378 | An unknown selection ignores swipes. Otherwise a left swipe selects the next entry and a right swipe the previous one, and the selection stays put at the ends. |
| App.FindUnique | src/App.tsx:370 | With distinct uids, an entry is found at its own position. |
| App.NavigateInverseLeft | src/App.tsx:368-378 | With distinct uids, a left swipe away from any entry but the last is undone by a right swipe. |
| App.NavigateInverseRight | src/App.tsx:368-378 | With distinct uids, a right swipe away from any entry but the first is undone by a left swipe. |

## Left out

- Canvas and DOM calls (`getContext`, `rotate`, `font`, `createPattern`, `fillRect`, `drawImage`, `clearRect`, `measureText`): the canvas is a list of abstract layers and glyph widths are a parameter. These are browser APIs.
- The rotation and the trigonometric offsets `Y = parseInt(String(sin(..) * w))` and `X = -parseInt(String(Y / tan(..)))`: floating point. They are an integer `Offset` parameter.
- `toBlob`, export to ZIP, file saving and confetti: browser and third-party I/O.
- `Math.hypot`, `toFixed(2)`/`parseFloat` in `formatFileSize`, and the floating-point rounding of `Math.log(bytes) / Math.log(1024)`: floating point. The distance is a parameter, the scaled value is exact, and the unit index is the exact integer logarithm.
- `generateUID`, `Date.now()`, `isMobileDevice` and `isTouchDevice`: randomness, clock and environment. Uids and times are parameters.
- Timers, event-listener registration and removal, and React scheduling: the effects and handlers are events in arrival order. The microtask delay between a settled promise and its `then` handler is not modelled separately.
- The `onProgress` option of `getBase64`: a side channel with no effect on the result.
- `FileReader.abort()` after a timeout: the rejection is modelled, and later reader events find the promise settled.
- The pinch handler in `App.tsx` (it only calls `onReset`) and the UI state (`isLoading`, `isDragging`, drawer, slider widgets).
- `useDebounceFn` from ahooks: modelled by the same trailing-debounce abstraction as `debounce` in `utils/index.ts` (`Utils.DebounceRun`), because the library is outside this repository.
- Renderer.Env: the viewport width is at least 100 pixels (`Renderer.Viewport`). Narrower windows give a negative width limit and, for a non-empty image, negative sizes; the model does not follow canvas behaviour there.
- Renderer.Step: the tile canvas's 2D context is assumed to exist. Only the main canvas's context is a parameter.
- Geometry.DisplaySize: requires a viewport of at least 100 pixels or a non-zero natural width, because the code divides by the natural width when scaling down.
- Geometry.TileCoversBlock: stated only while the diagonal fits in a canvas dimension (below 2^31). Beyond that the canvas falls back to its default size, which `Geometry.CanvasDimension` models.
- AutoLine.CanvasTextAutoLine: numbers are exact reals, not IEEE doubles. In the code `23 * 1.4` is not exactly 32.2, the repeated `initY += lineHeight` drifts from `initY + k * lineHeight`, and a running width sum can round across the `>` test at the boundary; `AutoLine.AutoLineLayout`, `AutoLine.AutoLinePositions`, `Geometry.LinePitch` and `Geometry.DisplaySize` state the exact values.
- AutoLine.CanvasTextAutoLine: `str[i]` and `substring` work on UTF-16 code units, so a character outside the Basic Multilingual Plane (an emoji) is measured as two surrogates and can be split across lines. A Dafny `char` cannot hold a lone surrogate, so the model covers text whose code units are all characters.
- Renderer.Step: an image is `complete` only after its `ImageLoad` or `ImageError` event. A browser may mark an image whose URL it already has as complete as soon as `src` is set, before `onload` runs; `setOptions` then repaints with the previous size. `Renderer.SetOptionsRedrawsOnlyComplete` rests on the model's notion.
- App.DropCapped: the drop handler runs as one event. The code awaits between files, so a paste or upload that settles in between appends through `prev`, and the list can then pass eight entries.
- App.Merge: a form field present with the value `undefined` overrides the default in a spread. The model treats a field as either present with a value or absent.
- App.PasteIntoFullList: the model keeps the code's behaviour at the cap (the new uid is selected even though nothing was added). It does not state the behaviour the user might expect.
- App.ReadPreview: a missing `originFileObj` or a string in its place makes `FileReader` throw inside the promise. This is modelled as a read failure.
- App.UploadChange: the upload widget's own bookkeeping of its list (statuses `uploading`, `error`, `removed`) is outside the handler.
