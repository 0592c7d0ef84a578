/** components/ImageUploader.tsx: which dropped or picked file reaches the app, the
    drag highlight, and the preview-versus-drop-zone choice. */
module ImageUploader {
  import opened Wrappers
  import opened JsStrings
  import opened FileUtils

  /** `file.type.startsWith('image/')` */
  predicate IsImage(file: File) {
    StartsWith(file.mimeType, "image/")
  }

  /** `handleFile`: the file handed to `onImageUpload`, if any. */
  function HandleFile(file: Option<File>): (forwarded: Option<File>)
    ensures forwarded.Some? <==> file.Some? && IsImage(file.value)
    ensures forwarded.Some? ==> forwarded == file
  {
    if file.Some? && IsImage(file.value) then file else None
  }

  /** `files[0]`: the first file of a list, `undefined` when it is empty. */
  function FirstFile(files: seq<File>): Option<File> {
    if |files| == 0 then None else Some(files[0])
  }

  /** `handleFileChange`: `e.target.files?.[0]`, where the list itself may be null. */
  function FileChange(files: Option<seq<File>>): (forwarded: Option<File>)
    ensures forwarded.Some? <==> files.Some? && |files.value| > 0 && IsImage(files.value[0])
    ensures forwarded.Some? ==> forwarded.value == files.value[0]
  {
    match files
    case None => HandleFile(None)
    case Some(list) => HandleFile(FirstFile(list))
  }

  /** What the uploader draws: the preview when `imageDataUrl` is truthy (present and
      non-empty), otherwise the drop zone, highlighted while a drag is over it. */
  datatype UploaderView = Preview(src: string) | DropZone(highlighted: bool)

  function View(imageDataUrl: Option<string>, isDragging: bool): (v: UploaderView)
    ensures v.Preview? <==> imageDataUrl.Some? && imageDataUrl.value != ""
    ensures v.Preview? ==> v.src == imageDataUrl.value
    ensures v.DropZone? ==> v.highlighted == isDragging
  {
    if imageDataUrl.Some? && imageDataUrl.value != "" then Preview(imageDataUrl.value)
    else DropZone(isDragging)
  }

  /** The component's own state: the `isDragging` flag. */
  class Uploader {
    var isDragging: bool

    constructor ()
      ensures !isDragging
    {
      isDragging := false;
    }

    method DragEnter()
      modifies this
      ensures isDragging
    {
      isDragging := true;
    }

    method DragLeave()
      modifies this
      ensures !isDragging
    {
      isDragging := false;
    }

    /** Only stops the browser's default handling. */
    method DragOver()
      ensures unchanged(this)
    {
    }

    /** `handleDrop`: clears the highlight and forwards the first dropped file if it is
        an image. */
    method Drop(files: seq<File>) returns (forwarded: Option<File>)
      modifies this
      ensures !isDragging
      ensures forwarded.Some? <==> |files| > 0 && IsImage(files[0])
      ensures forwarded.Some? ==> forwarded.value == files[0]
    {
      isDragging := false;
      forwarded := HandleFile(FirstFile(files));
    }
  }

  /** Files after the first never matter: two drops that agree on the first file forward
      the same thing. */
  lemma OnlyFirstFileCounts(a: seq<File>, b: seq<File>)
    requires |a| > 0 && |b| > 0 && a[0] == b[0]
    ensures HandleFile(FirstFile(a)) == HandleFile(FirstFile(b))
    ensures FileChange(Some(a)) == FileChange(Some(b))
  {
  }
}
