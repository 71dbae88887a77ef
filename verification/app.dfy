/**
 * The list and state logic of the application shell (App.tsx): the reducer, the options form
 * (merge with defaults, colour normalisation, debounced dispatch), the preview lookup, the
 * upload, paste and drop handlers on the gallery, and swipe navigation.
 *
 * The gallery (`fileList` and `selected`) is component state updated through functional
 * setters; each handler is a function from the gallery before to the gallery after.  File reads
 * go through `Utils.GetBase64` with their reader events; ids (`generateUID()`) and the clock
 * (`Date.now()`) are parameters.
 */
module App {
  import opened Wrappers
  import opened Types
  import Utils
  import Gesture

  // ---------------------------------------------------------------------------------------------
  // State and reducer
  // ---------------------------------------------------------------------------------------------

  const DefaultFill: string := "#00000080"

  const DefaultOptions: WatermarkOptions :=
    WatermarkOptions("仅用于办理住房公积金，他用无效。", 26, DefaultFill, 252, 180, 20)

  /** The name shown when no file is selected. */
  const NoFileName: string := "未选择图片"

  const InitialState: AppState := AppState(DefaultOptions, [], 0, "", NoFileName)

  /** `reducer`: each action replaces the field(s) it names; any other action changes nothing. */
  function Reduce(s: AppState, a: AppAction): AppState
  {
    match a
    case SetOptions(o) => s.(options := o)
    case SetCurrent(c) => s.(current := c)
    case SetFileList(fs) => s.(fileList := fs)
    case SetPreview(name, image) => s.(fileName := name, previewImage := image)
    case Unrecognised(_) => s
  }

  /**
   * Each action sets exactly what it names and leaves every other field as it was; an
   * unrecognised action returns the state unchanged.
   */
  lemma ReduceFrame(s: AppState, a: AppAction)
    ensures var t := Reduce(s, a);
            && t.options == (if a.SetOptions? then a.options else s.options)
            && t.current == (if a.SetCurrent? then a.current else s.current)
            && t.fileList == (if a.SetFileList? then a.fileList else s.fileList)
            && t.fileName == (if a.SetPreview? then a.fileName else s.fileName)
            && t.previewImage == (if a.SetPreview? then a.previewImage else s.previewImage)
  {
  }

  /** Dispatching the same action twice is the same as dispatching it once. */
  lemma ReduceIdempotent(s: AppState, a: AppAction)
    ensures Reduce(Reduce(s, a), a) == Reduce(s, a)
  {
  }

  /** Which field an action writes; two actions on different fields commute. */
  function Field(a: AppAction): nat
  {
    match a
    case SetOptions(_) => 0
    case SetCurrent(_) => 1
    case SetFileList(_) => 2
    case SetPreview(_, _) => 3
    case Unrecognised(_) => 4
  }

  lemma ReduceCommutes(s: AppState, a: AppAction, b: AppAction)
    requires Field(a) != Field(b)
    ensures Reduce(Reduce(s, a), b) == Reduce(Reduce(s, b), a)
  {
  }

  // ---------------------------------------------------------------------------------------------
  // Options form
  // ---------------------------------------------------------------------------------------------

  /** `Partial<WatermarkOptions>`: `None` is a field the object does not have. */
  datatype PartialOptions = PartialOptions(
    text: Option<string>,
    fontSize: Option<int>,
    fillStyle: Option<string>,
    watermarkWidth: Option<int>,
    watermarkHeight: Option<int>,
    rotate: Option<int>)

  /** `{ ...defaultOptions, ...values }`: the defaults overridden by every field present. */
  function Merge(p: PartialOptions): WatermarkOptions
  {
    WatermarkOptions(p.text.GetOr(DefaultOptions.text), p.fontSize.GetOr(DefaultOptions.fontSize),
                     p.fillStyle.GetOr(DefaultOptions.fillStyle),
                     p.watermarkWidth.GetOr(DefaultOptions.watermarkWidth),
                     p.watermarkHeight.GetOr(DefaultOptions.watermarkHeight),
                     p.rotate.GetOr(DefaultOptions.rotate))
  }

  /** The partial options with every field of `o`. */
  function Complete(o: WatermarkOptions): PartialOptions
  {
    PartialOptions(Some(o.text), Some(o.fontSize), Some(o.fillStyle), Some(o.watermarkWidth),
                   Some(o.watermarkHeight), Some(o.rotate))
  }

  const NoFields: PartialOptions := PartialOptions(None, None, None, None, None, None)

  /**
   * A complete form gives exactly its values; an empty one gives the defaults; and a field the
   * form leaves out takes its default while a field it gives is kept.
   */
  lemma MergeFieldwise(o: WatermarkOptions, p: PartialOptions)
    ensures Merge(Complete(o)) == o
    ensures Merge(NoFields) == DefaultOptions
    ensures p.text.None? ==> Merge(p).text == DefaultOptions.text
    ensures p.text.Some? ==> Merge(p).text == p.text.value
    ensures p.fontSize.None? ==> Merge(p).fontSize == DefaultOptions.fontSize
    ensures p.fontSize.Some? ==> Merge(p).fontSize == p.fontSize.value
    ensures p.fillStyle.None? ==> Merge(p).fillStyle == DefaultFill
    ensures p.fillStyle.Some? ==> Merge(p).fillStyle == p.fillStyle.value
    ensures p.watermarkWidth.None? ==> Merge(p).watermarkWidth == DefaultOptions.watermarkWidth
    ensures p.watermarkWidth.Some? ==> Merge(p).watermarkWidth == p.watermarkWidth.value
    ensures p.watermarkHeight.None? ==> Merge(p).watermarkHeight == DefaultOptions.watermarkHeight
    ensures p.watermarkHeight.Some? ==> Merge(p).watermarkHeight == p.watermarkHeight.value
    ensures p.rotate.None? ==> Merge(p).rotate == DefaultOptions.rotate
    ensures p.rotate.Some? ==> Merge(p).rotate == p.rotate.value
    ensures Merge(p.(rotate := Some(o.rotate))).(rotate := Merge(p).rotate) == Merge(p)
  {
  }

  /** What the colour picker field may hold. */
  datatype FillValue =
    | FillText(s: string)                 // a string
    | ColorObject(hex: Option<string>)    // an object; `hex` is what `toHexString` returns, if it has one
    | NoFill                              // undefined, null or anything else

  /** The form values as the change handler receives them. */
  datatype FormValues = FormValues(
    text: Option<string>,
    fontSize: Option<int>,
    fillStyle: FillValue,
    watermarkWidth: Option<int>,
    watermarkHeight: Option<int>,
    rotate: Option<int>)

  /** The `fillStyle` the handler passes on: a string as is, else a non-empty hex string, else the default. */
  function NormaliseFill(f: FillValue): string
  {
    match f
    case FillText(s) => s
    case ColorObject(hex) => if hex.Some? && hex.value != "" then hex.value else DefaultFill
    case NoFill => DefaultFill
  }

  /** `processedValues`: the form values with `fillStyle` always set. */
  function Process(v: FormValues): PartialOptions
  {
    PartialOptions(v.text, v.fontSize, Some(NormaliseFill(v.fillStyle)), v.watermarkWidth,
                   v.watermarkHeight, v.rotate)
  }

  /**
   * A string fill is kept exactly, even empty; a colour object gives its hex string; anything
   * else, or an empty hex string, gives `#00000080`.  So the fill is empty only when the form held
   * the empty string.
   */
  lemma FillNormalised(f: FillValue)
    ensures f.FillText? ==> NormaliseFill(f) == f.s
    ensures f.ColorObject? && f.hex.Some? && f.hex.value != "" ==> NormaliseFill(f) == f.hex.value
    ensures !f.FillText? && !(f.ColorObject? && f.hex.Some? && f.hex.value != "") ==>
              NormaliseFill(f) == DefaultFill
    ensures NormaliseFill(f) == "" <==> f == FillText("")
  {
  }

  /** The options the debounced dispatch stores for the form values `v`. */
  lemma ProcessedOptions(v: FormValues)
    ensures Merge(Process(v)).fillStyle == NormaliseFill(v.fillStyle)
    ensures Merge(Process(v)).fontSize == v.fontSize.GetOr(26)
    ensures Merge(Process(v)).text == v.text.GetOr(DefaultOptions.text)
    ensures Merge(Process(v)).watermarkWidth == v.watermarkWidth.GetOr(DefaultOptions.watermarkWidth)
    ensures Merge(Process(v)).watermarkHeight == v.watermarkHeight.GetOr(DefaultOptions.watermarkHeight)
    ensures Merge(Process(v)).rotate == v.rotate.GetOr(DefaultOptions.rotate)
  {
  }

  /** The dispatches made by the debounced setter when it fires. */
  function ApplyFired(s: AppState, fired: seq<PartialOptions>): AppState
    decreases |fired|
  {
    if fired == [] then s else ApplyFired(Reduce(s, SetOptions(Merge(fired[0]))), fired[1..])
  }

  /**
   * A burst of form changes followed by the debounce delay dispatches once, with the options of
   * the last change; the rest of the state is untouched.
   */
  lemma FormBurstApplies(s: AppState, changes: seq<FormValues>)
    requires changes != []
    ensures var processed := seq(|changes|, k requires 0 <= k < |changes| => Process(changes[k]));
            var r := Utils.DebounceRun(Utils.Debouncer(None), Utils.Burst(processed) + [Utils.Elapse]);
            ApplyFired(s, r.fired) == s.(options := Merge(Process(changes[|changes| - 1])))
  {
    var processed := seq(|changes|, k requires 0 <= k < |changes| => Process(changes[k]));
    Utils.DebounceLatest(Utils.Debouncer(None), processed);
  }

  // ---------------------------------------------------------------------------------------------
  // File list helpers
  // ---------------------------------------------------------------------------------------------

  predicate HasUid(files: seq<FileItem>, uid: string)
  {
    exists k :: 0 <= k < |files| && files[k].uid == uid
  }

  predicate UniqueUids(files: seq<FileItem>)
  {
    forall i, j :: 0 <= i < j < |files| ==> files[i].uid != files[j].uid
  }

  /** `findIndex` by uid: the first position holding `uid`, or -1. */
  function FindIndex(files: seq<FileItem>, uid: string): (k: int)
    ensures -1 <= k < |files|
    ensures k == -1 <==> !HasUid(files, uid)
    ensures k >= 0 ==> files[k].uid == uid && forall j :: 0 <= j < k ==> files[j].uid != uid
    decreases |files|
  {
    if files == [] then -1
    else if files[0].uid == uid then 0
    else
      var k := FindIndex(files[1..], uid);
      if k == -1 then
        assert forall j :: 1 <= j < |files| ==> files[j] == files[1..][j - 1];
        -1
      else k + 1
  }

  /** `prev.map(f => f.uid === item.uid ? item : f)`. */
  function ReplaceByUid(files: seq<FileItem>, item: FileItem): (r: seq<FileItem>)
    ensures |r| == |files|
    ensures forall k :: 0 <= k < |files| ==> r[k] == (if files[k].uid == item.uid then item else files[k])
    decreases |files|
  {
    if files == [] then []
    else [if files[0].uid == item.uid then item else files[0]] + ReplaceByUid(files[1..], item)
  }

  /** Replace every entry with the item's uid, or append the item when there is none. */
  function Upsert(files: seq<FileItem>, item: FileItem): seq<FileItem>
  {
    ReplaceByUid(files, item) + (if HasUid(files, item.uid) then [] else [item])
  }

  /** `prev.filter(f => f.uid !== uid)`. */
  function RemoveUid(files: seq<FileItem>, uid: string): (r: seq<FileItem>)
    ensures |r| <= |files|
    ensures !HasUid(r, uid)
    ensures forall k :: 0 <= k < |r| ==> r[k] in files
    decreases |files|
  {
    if files == [] then []
    else
      var rest := RemoveUid(files[1..], uid);
      if files[0].uid == uid then rest else [files[0]] + rest
  }

  /**
   * An item whose uid is already listed replaces that entry in place (same length, same order,
   * other entries untouched); otherwise it is appended.  Either way the item is then listed.
   */
  lemma UpsertPlaces(files: seq<FileItem>, item: FileItem)
    ensures HasUid(files, item.uid) ==>
              var r := Upsert(files, item);
              && |r| == |files|
              && (forall k :: 0 <= k < |files| && files[k].uid != item.uid ==> r[k] == files[k])
              && (forall k :: 0 <= k < |files| && files[k].uid == item.uid ==> r[k] == item)
    ensures !HasUid(files, item.uid) ==> Upsert(files, item) == files + [item]
    ensures item in Upsert(files, item)
  {
    var r := ReplaceByUid(files, item);
    if HasUid(files, item.uid) {
      var k := FindIndex(files, item.uid);
      assert r[k] == item;
      assert Upsert(files, item) == r + [];
    } else {
      assert forall k :: 0 <= k < |files| ==> r[k] == files[k];
      assert r == files;
    }
  }

  /** Removing an absent uid changes nothing. */
  lemma {:induction false} RemoveAbsentUid(files: seq<FileItem>, uid: string)
    requires !HasUid(files, uid)
    ensures RemoveUid(files, uid) == files
    decreases |files|
  {
    if files != [] {
      assert files[0].uid != uid;
      assert !HasUid(files[1..], uid) by {
        assert forall j :: 0 <= j < |files[1..]| ==> files[1..][j] == files[j + 1];
      }
      RemoveAbsentUid(files[1..], uid);
      assert [files[0]] + files[1..] == files;
    }
  }

  /** Filtering a concatenation filters each part and keeps them in order. */
  lemma {:induction false} RemoveUidConcat(a: seq<FileItem>, b: seq<FileItem>, uid: string)
    ensures RemoveUid(a + b, uid) == RemoveUid(a, uid) + RemoveUid(b, uid)
    decreases |a|
  {
    if a == [] {
      assert a + b == b;
    } else {
      assert (a + b)[0] == a[0];
      assert (a + b)[1..] == a[1..] + b;
      RemoveUidConcat(a[1..], b, uid);
    }
  }

  /** On one entry the filter drops it exactly when it has the uid. */
  lemma RemoveUidSingle(f: FileItem, uid: string)
    ensures RemoveUid([f], uid) == (if f.uid == uid then [] else [f])
  {
    assert [f][1..] == [];
  }

  /** Removing a uid keeps every entry with another uid. */
  lemma {:induction false} RemoveUidKeeps(files: seq<FileItem>, uid: string, k: nat)
    requires k < |files| && files[k].uid != uid
    ensures files[k] in RemoveUid(files, uid)
    decreases k
  {
    if k > 0 {
      assert files[k] == files[1..][k - 1];
      RemoveUidKeeps(files[1..], uid, k - 1);
    }
  }

  // ---------------------------------------------------------------------------------------------
  // Preview lookup
  // ---------------------------------------------------------------------------------------------

  /** The gallery: the file list and the selected uid. */
  datatype Gallery = Gallery(files: seq<FileItem>, selected: string)

  datatype Preview = Preview(fileName: string, previewImage: string)

  /** The name and image shown for the selection: the first entry with that uid, with fallbacks. */
  function PreviewOf(g: Gallery): Preview
  {
    var k := FindIndex(g.files, g.selected);
    if k == -1 then Preview(NoFileName, "")
    else
      var f := g.files[k];
      Preview(if f.name != "" then f.name else NoFileName,
              if f.preview.Some? && f.preview.value != "" then f.preview.value else "")
  }

  /**
   * An unknown selection shows no image under the name `未选择图片`; a known one shows the first
   * matching entry's name and preview, each falling back when empty or missing.
   */
  lemma PreviewLookup(g: Gallery)
    ensures !HasUid(g.files, g.selected) ==> PreviewOf(g) == Preview(NoFileName, "")
    ensures forall k :: 0 <= k < |g.files| && g.files[k].uid == g.selected
                        && (forall j :: 0 <= j < k ==> g.files[j].uid != g.selected) ==>
              && PreviewOf(g).fileName == (if g.files[k].name != "" then g.files[k].name else NoFileName)
              && PreviewOf(g).previewImage == g.files[k].preview.GetOr("")
  {
    forall k | 0 <= k < |g.files| && g.files[k].uid == g.selected
               && (forall j :: 0 <= j < k ==> g.files[j].uid != g.selected)
      ensures PreviewOf(g).fileName == (if g.files[k].name != "" then g.files[k].name else NoFileName)
      ensures PreviewOf(g).previewImage == g.files[k].preview.GetOr("")
    {
      var i := FindIndex(g.files, g.selected);
      if i != k {
        assert false;
      }
    }
  }

  // ---------------------------------------------------------------------------------------------
  // Reading a file
  // ---------------------------------------------------------------------------------------------

  /** The limits every handler reads with: 30 seconds and 15 MiB. */
  const ReadOptions: GetBase64Options := GetBase64Options(Some(30000), Some(15 * 1024 * 1024))

  /**
   * Reading a file object into a data URL.  Anything but a `File` (a missing object or a plain
   * string) makes `getBase64` throw inside its promise, which rejects.
   */
  function ReadPreview(obj: Option<FileObject>, events: seq<Utils.ReaderEvent>): (r: Utils.Settlement)
    ensures obj.Some? && obj.value.Blob? && obj.value.size > 15 * 1024 * 1024 ==>
              r == Utils.Rejected(Utils.TooLarge(15 * 1024 * 1024))
    ensures !(obj.Some? && obj.value.Blob?) ==> r.Rejected?
  {
    match obj
    case Some(Blob(_, _, size)) => Utils.GetBase64(size, ReadOptions, events).settlement
    case _ => Utils.Rejected(Utils.ReadFailed)
  }

  /** A file handed over by the browser (a clipboard or drop entry) is always a `File`. */
  type BrowserFile = f: FileObject | f.Blob? witness Blob("", "", 0)

  predicate IsImage(mime: string)
  {
    "image/" <= mime
  }

  // ---------------------------------------------------------------------------------------------
  // Upload change
  // ---------------------------------------------------------------------------------------------

  /**
   * `handleUploadChange`, with `captured` the list length the handler was created with and
   * `current` the list the upload widget reports.  A shorter list is a removal; anything else
   * reads the changed file and, when the read settles, stores it or drops its uid.
   */
  function UploadChange(g: Gallery, captured: nat, file: FileItem, current: seq<FileItem>,
                        events: seq<Utils.ReaderEvent>): Gallery
  {
    if |current| < captured then
      if current == [] then Gallery([], "")
      else Gallery(current, current[|current| - 1].uid)
    else
      match ReadPreview(file.originFileObj, events)
      case Resolved(p) =>
        var item := file.(status := Done, preview := Some(p), thumbUrl := Some(p));
        Gallery(Upsert(g.files, item), file.uid)
      case Rejected(_) => g.(files := RemoveUid(g.files, file.uid))
      case Pending => g
  }

  /**
   * A removal that empties the list clears the selection; any other removal takes the reported
   * list and selects its last entry.
   */
  lemma UploadRemoval(g: Gallery, captured: nat, file: FileItem, current: seq<FileItem>,
                      events: seq<Utils.ReaderEvent>)
    requires |current| < captured
    ensures var r := UploadChange(g, captured, file, current, events);
            && r.files == current
            && (current == [] ==> r.selected == "")
            && (current != [] ==> r.selected == current[|current| - 1].uid)
  {
  }

  /**
   * An addition whose read succeeds stores the file as done with its data URL as preview and
   * thumbnail, and selects it; one whose read fails removes every entry with its uid and keeps
   * the selection; one whose read never settles changes nothing.
   */
  lemma UploadAddition(g: Gallery, captured: nat, file: FileItem, current: seq<FileItem>,
                       events: seq<Utils.ReaderEvent>)
    requires |current| >= captured
    ensures var r := UploadChange(g, captured, file, current, events);
            match ReadPreview(file.originFileObj, events)
            case Resolved(p) =>
              && r.selected == file.uid
              && HasUid(r.files, file.uid)
              && file.(status := Done, preview := Some(p), thumbUrl := Some(p)) in r.files
              && (HasUid(g.files, file.uid) ==> |r.files| == |g.files|)
              && (!HasUid(g.files, file.uid) ==> |r.files| == |g.files| + 1)
            case Rejected(_) => !HasUid(r.files, file.uid) && r.selected == g.selected
            case Pending => r == g
  {
    match ReadPreview(file.originFileObj, events)
    case Resolved(p) =>
      var item := file.(status := Done, preview := Some(p), thumbUrl := Some(p));
      UpsertPlaces(g.files, item);
      var r := Upsert(g.files, item);
      assert exists k :: 0 <= k < |r| && r[k] == item;
    case Rejected(_) =>
    case Pending =>
  }

  /** A file over 15 MiB never enters the list: its uid is removed. */
  lemma UploadTooLarge(g: Gallery, captured: nat, file: FileItem, current: seq<FileItem>,
                       events: seq<Utils.ReaderEvent>, name: string, mime: string, size: nat)
    requires |current| >= captured
    requires file.originFileObj == Some(Blob(name, mime, size)) && size > 15 * 1024 * 1024
    ensures !HasUid(UploadChange(g, captured, file, current, events).files, file.uid)
  {
  }

  // ---------------------------------------------------------------------------------------------
  // Paste
  // ---------------------------------------------------------------------------------------------

  /** The gallery's capacity for pasted and dropped images. */
  const MaxFiles: nat := 8

  /** A clipboard item: its MIME type and, for a file item, the file. */
  datatype ClipItem = ClipItem(mime: string, file: Option<BrowserFile>)

  /** The position of the first image item that yields a file: the only one processed. */
  function FirstPastable(items: seq<ClipItem>): (k: int)
    ensures -1 <= k < |items|
    ensures k >= 0 ==> IsImage(items[k].mime) && items[k].file.Some?
    ensures k >= 0 ==> forall j :: 0 <= j < k ==> !(IsImage(items[j].mime) && items[j].file.Some?)
    ensures k == -1 <==> forall j :: 0 <= j < |items| ==> !(IsImage(items[j].mime) && items[j].file.Some?)
    decreases |items|
  {
    if items == [] then -1
    else if IsImage(items[0].mime) && items[0].file.Some? then 0
    else
      var k := FirstPastable(items[1..]);
      assert forall j :: 1 <= j < |items| ==> items[j] == items[1..][j - 1];
      if k == -1 then -1 else k + 1
  }

  /** The number a string of decimal digits denotes, read most significant digit first. */
  function DigitValue(s: string): int
  {
    if s == [] then 0 else 10 * DigitValue(s[..|s| - 1]) + (s[|s| - 1] as int - '0' as int)
  }

  /** The decimal digits of a natural number, without leading zeros. */
  function Decimal(n: nat): (r: string)
    ensures |r| >= 1
    ensures forall k :: 0 <= k < |r| ==> '0' <= r[k] <= '9'
    ensures DigitValue(r) == n
    ensures n > 0 ==> r[0] != '0'
  {
    var d := [('0' as int + n % 10) as char];
    if n < 10 then d else Decimal(n / 10) + d
  }

  /** `粘贴图片_<Date.now()>.png`. */
  function PastedName(now: nat): string
  {
    "粘贴图片_" + Decimal(now) + ".png"
  }

  datatype PasteOutcome = PasteOutcome(gallery: Gallery, defaultPrevented: bool)

  /**
   * `handlePaste`: the first image item with a file is read; on success an entry is appended
   * unless eight are already listed, and the new uid is selected either way.
   */
  function Paste(g: Gallery, items: seq<ClipItem>, uid: string, now: nat,
                 events: seq<Utils.ReaderEvent>): PasteOutcome
  {
    var prevented := exists j :: 0 <= j < |items| && IsImage(items[j].mime);
    var k := FirstPastable(items);
    if k == -1 then PasteOutcome(g, prevented)
    else
      var file := items[k].file.value;
      match ReadPreview(Some(file), events)
      case Resolved(p) =>
        var item := FileItem(uid, PastedName(now), Done, None, Some(p), Some(file), Some(p), None);
        PasteOutcome(Gallery(if |g.files| >= MaxFiles then g.files else g.files + [item], uid),
                     prevented)
      case _ => PasteOutcome(g, prevented)
  }

  /**
   * A paste that reads successfully appends exactly one entry, the file from the first usable
   * image item, to a list of fewer than eight; a full list is left as it is.  The browser's
   * default is suppressed iff some item is an image.
   */
  lemma PasteCapped(g: Gallery, items: seq<ClipItem>, uid: string, now: nat,
                    events: seq<Utils.ReaderEvent>)
    ensures var r := Paste(g, items, uid, now, events);
            && (r.defaultPrevented <==> exists j :: 0 <= j < |items| && IsImage(items[j].mime))
            && (|g.files| >= MaxFiles ==> r.gallery.files == g.files)
            && (r.gallery.files == g.files || r.gallery.files[..|g.files|] == g.files)
            && |r.gallery.files| <= |g.files| + 1
            && (|r.gallery.files| == |g.files| + 1 ==>
                  var k := FirstPastable(items);
                  && k >= 0
                  && r.gallery.files[|g.files|].originFileObj == items[k].file
                  && r.gallery.files[|g.files|].uid == uid
                  && |g.files| < MaxFiles)
  {
    var r := Paste(g, items, uid, now, events);
    if r.gallery.files != g.files {
      assert (r.gallery.files)[..|g.files|] == g.files;
    }
  }

  /**
   * With eight entries already listed, a successful paste still selects the new uid, which is not
   * in the list (when the list does not hold it already): the preview shows nothing.
   */
  lemma PasteIntoFullList(g: Gallery, items: seq<ClipItem>, uid: string, now: nat,
                          events: seq<Utils.ReaderEvent>)
    requires |g.files| >= MaxFiles && !HasUid(g.files, uid)
    requires FirstPastable(items) >= 0
    requires ReadPreview(Some(items[FirstPastable(items)].file.value), events).Resolved?
    ensures PreviewOf(Paste(g, items, uid, now, events).gallery) == Preview(NoFileName, "")
  {
  }

  // ---------------------------------------------------------------------------------------------
  // Drop
  // ---------------------------------------------------------------------------------------------

  /** A dropped file with the uid it would get and the events of its read. */
  datatype Dropped = Dropped(file: BrowserFile, uid: string, events: seq<Utils.ReaderEvent>)

  /**
   * The loop of `handleDrop` from the file list's start, with `added` files added so far:
   * non-images are skipped, the loop stops once the captured length plus `added` reaches eight,
   * and a read that never settles stops it too.
   */
  function DropLoop(g: Gallery, captured: nat, added: nat, files: seq<Dropped>): Gallery
    decreases |files|
  {
    if files == [] then g
    else
      var d := files[0];
      if !IsImage(d.file.mime) then DropLoop(g, captured, added, files[1..])
      else if captured + added >= MaxFiles then g
      else
        match ReadPreview(Some(d.file), d.events)
        case Resolved(p) =>
          var item := FileItem(d.uid, d.file.name, Done, None, Some(p), Some(d.file), Some(p), None);
          DropLoop(Gallery(g.files + [item], if added == 0 then d.uid else g.selected),
                   captured, added + 1, files[1..])
        case Rejected(_) => DropLoop(g, captured, added, files[1..])
        case Pending => g
  }

  /** `handleDrop`, with `captured` the list length the handler was created with. */
  function Drop(g: Gallery, captured: nat, files: seq<Dropped>): Gallery
  {
    DropLoop(g, captured, 0, files)
  }

  /**
   * The loop only appends: the list keeps its entries in front, and the new ones are done, carry a
   * preview and come from image files.  It appends at most `8 - captured - added` of them.  The
   * selection moves to the first new entry when the loop starts with nothing added, and stays
   * otherwise.
   */
  lemma {:induction false} DropLoopAppends(g: Gallery, captured: nat, added: nat, files: seq<Dropped>)
    ensures var r := DropLoop(g, captured, added, files);
            && |g.files| <= |r.files|
            && r.files[..|g.files|] == g.files
            && |r.files| - |g.files| <= (if captured + added >= MaxFiles then 0 else MaxFiles - captured - added)
            && (forall k :: |g.files| <= k < |r.files| ==>
                  r.files[k].status == Done && r.files[k].preview.Some?
                  && r.files[k].originFileObj.Some? && r.files[k].originFileObj.value.Blob?
                  && IsImage(r.files[k].originFileObj.value.mime))
            && (|r.files| == |g.files| || added > 0 ==> r.selected == g.selected)
            && (|r.files| > |g.files| && added == 0 ==> r.selected == r.files[|g.files|].uid)
    decreases |files|
  {
    if files != [] {
      var d := files[0];
      if !IsImage(d.file.mime) {
        DropLoopAppends(g, captured, added, files[1..]);
      } else if captured + added < MaxFiles {
        match ReadPreview(Some(d.file), d.events)
        case Resolved(p) =>
          var item := FileItem(d.uid, d.file.name, Done, None, Some(p), Some(d.file), Some(p), None);
          var g' := Gallery(g.files + [item], if added == 0 then d.uid else g.selected);
          DropLoopAppends(g', captured, added + 1, files[1..]);
          var r := DropLoop(g', captured, added + 1, files[1..]);
          assert r.files[..|g'.files|] == g'.files;
          assert r.files[..|g.files|] == g'.files[..|g.files|];
          assert r.files[|g.files|] == g'.files[|g.files|] == item;
        case Rejected(_) =>
          DropLoopAppends(g, captured, added, files[1..]);
        case Pending =>
      }
    }
  }

  /**
   * A drop onto a list whose captured length is `n` adds at most `8 - n` images (none once `n`
   * reaches eight), appended after the existing entries; the first one added becomes the
   * selection.  So a drop onto an up-to-date list never takes it past eight entries.
   */
  lemma DropCapped(g: Gallery, files: seq<Dropped>)
    requires |g.files| <= MaxFiles
    ensures var r := Drop(g, |g.files|, files);
            && |g.files| <= |r.files| <= MaxFiles
            && r.files[..|g.files|] == g.files
            && (|r.files| > |g.files| ==> r.selected == r.files[|g.files|].uid)
  {
    DropLoopAppends(g, |g.files|, 0, files);
  }

  /** Dropping only non-images changes nothing. */
  lemma {:induction false} DropSkipsNonImages(g: Gallery, captured: nat, added: nat, files: seq<Dropped>)
    requires forall k :: 0 <= k < |files| ==> !IsImage(files[k].file.mime)
    ensures DropLoop(g, captured, added, files) == g
    decreases |files|
  {
    if files != [] {
      assert !IsImage(files[0].file.mime);
      DropSkipsNonImages(g, captured, added, files[1..]);
    }
  }

  // ---------------------------------------------------------------------------------------------
  // Swipe navigation
  // ---------------------------------------------------------------------------------------------

  /** `onSwipe`: a left swipe selects the next entry, a right swipe the previous one, when there is one. */
  function Navigate(g: Gallery, direction: Gesture.Direction): Gallery
  {
    var k := FindIndex(g.files, g.selected);
    if k == -1 then g
    else if direction == Gesture.Left && k < |g.files| - 1 then g.(selected := g.files[k + 1].uid)
    else if direction == Gesture.Right && k > 0 then g.(selected := g.files[k - 1].uid)
    else g
  }

  /**
   * An unknown selection ignores swipes; otherwise the selection moves one entry in the swipe's
   * direction and stays at the ends.
   */
  lemma NavigateMoves(g: Gallery, direction: Gesture.Direction)
    ensures !HasUid(g.files, g.selected) ==> Navigate(g, direction) == g
    ensures HasUid(g.files, g.selected) ==>
              var k := FindIndex(g.files, g.selected);
              && Navigate(g, direction).files == g.files
              && (direction == Gesture.Left ==>
                    Navigate(g, direction).selected == (if k + 1 < |g.files| then g.files[k + 1].uid else g.selected))
              && (direction == Gesture.Right ==>
                    Navigate(g, direction).selected == (if k > 0 then g.files[k - 1].uid else g.selected))
  {
  }

  /** The position of an entry in a list with distinct uids is found by its uid. */
  lemma FindUnique(files: seq<FileItem>, k: nat)
    requires UniqueUids(files) && k < |files|
    ensures FindIndex(files, files[k].uid) == k
  {
    var i := FindIndex(files, files[k].uid);
    if i != k {
      assert false;
    }
  }

  /**
   * With distinct uids, a left swipe away from any image but the last is undone by a right
   * swipe.
   */
  lemma NavigateInverseLeft(g: Gallery)
    requires UniqueUids(g.files)
    requires HasUid(g.files, g.selected)
    requires FindIndex(g.files, g.selected) < |g.files| - 1
    ensures Navigate(Navigate(g, Gesture.Left), Gesture.Right) == g
  {
    var k := FindIndex(g.files, g.selected);
    var h := g.(selected := g.files[k + 1].uid);
    assert Navigate(g, Gesture.Left) == h;
    FindUnique(g.files, k + 1);
    assert FindIndex(h.files, h.selected) == k + 1;
  }

  /** The mirror image: a right swipe away from the first image is undone by a left swipe. */
  lemma NavigateInverseRight(g: Gallery)
    requires UniqueUids(g.files)
    requires HasUid(g.files, g.selected)
    requires FindIndex(g.files, g.selected) > 0
    ensures Navigate(Navigate(g, Gesture.Right), Gesture.Left) == g
  {
    var k := FindIndex(g.files, g.selected);
    var h := g.(selected := g.files[k - 1].uid);
    assert Navigate(g, Gesture.Right) == h;
    FindUnique(g.files, k - 1);
    assert FindIndex(h.files, h.selected) == k - 1;
  }
}
