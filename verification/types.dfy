/**
 * The records shared by the watermark engine and the application (`src/types/index.ts`).
 *
 * Numbers that the program takes from integer sliders (font size, tile size, angle) are `int`;
 * optional TypeScript fields (`x?: T`) are `Option<T>`.
 */
module Types {
  import opened Wrappers

  /** `WatermarkOptions`: what one watermark tile looks like. */
  datatype WatermarkOptions = WatermarkOptions(
    text: string,
    fontSize: int,
    fillStyle: string,
    watermarkWidth: int,
    watermarkHeight: int,
    rotate: int)

  /** `FileItem.status`. */
  datatype FileStatus = Uploading | Done | Error | Removed

  /**
   * What a `File` is to this program: a name, a MIME type, a byte size.  `originFileObj` may
   * also be a plain string.
   */
  datatype FileObject = Blob(name: string, mime: string, size: nat) | Reference(path: string)

  /** `FileItem`: one entry of the gallery. */
  datatype FileItem = FileItem(
    uid: string,
    name: string,
    status: FileStatus,
    url: Option<string>,
    preview: Option<string>,
    originFileObj: Option<FileObject>,
    thumbUrl: Option<string>,
    error: Option<string>)

  /** `AppState`: the reducer's state. */
  datatype AppState = AppState(
    options: WatermarkOptions,
    fileList: seq<FileItem>,
    current: int,
    previewImage: string,
    fileName: string)

  /**
   * `AppAction`.  `Unrecognised` stands for any other action object reaching the reducer at run
   * time, which the `default` branch handles.
   */
  datatype AppAction =
    | SetOptions(options: WatermarkOptions)
    | SetCurrent(current: int)
    | SetFileList(fileList: seq<FileItem>)
    | SetPreview(fileName: string, previewImage: string)
    | Unrecognised(tag: string)

  /** `GetBase64Options`; `None` is a field left `undefined`. The progress callback is not modelled. */
  datatype GetBase64Options = GetBase64Options(timeout: Option<int>, maxSize: Option<int>)

  /** `GestureOptions`: which of the two callbacks are supplied. */
  datatype GestureOptions = GestureOptions(hasPinch: bool, hasSwipe: bool)
}
