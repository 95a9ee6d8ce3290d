/**
 * The icon field of the tile form (packages/client/src/components/IconPicker.tsx): an upload
 * mode that turns an image file into a `data:` URL, a URL mode with its validity flag, the
 * rule that clears a value that does not fit the mode switched to, and what the preview
 * square shows.
 */
module IconPicker {
  import opened Common
  import opened Text
  import opened Oracles
  import Image
  import opened IconUtils
  import TileCard

  /** `IconMode`: where the icon comes from. */
  datatype IconMode = Upload | Url

  /** The default of `maxKB`: uploads of at most 200 KiB. */
  const DEFAULT_MAX_KB: int := 200

  /** A picked or dropped file: its declared MIME type and its contents (so `size` is `|bytes|`). */
  datatype FileInfo = FileInfo(mimeType: string, bytes: seq<byte>)

  /** The two messages `processFile` can set: "File must be an image" and "Image must be ≤ …KB". */
  datatype UploadError = NotAnImage | TooLarge(maxKB: int)

  /** `/^image\//.test(type)`. */
  predicate IsImageType(mimeType: string)
  {
    StartsWith(mimeType, "image/")
  }

  /**
   * The checks of `processFile`, type before size: the error it reports, or None when the
   * file is read.
   */
  function FileCheck(file: FileInfo, maxKB: int): (r: Option<UploadError>)
    ensures r == Some(NotAnImage) <==> !IsImageType(file.mimeType)
    ensures r == Some(TooLarge(maxKB)) <==>
      IsImageType(file.mimeType) && |file.bytes| > maxKB * 1024
    ensures r.None? <==> IsImageType(file.mimeType) && |file.bytes| <= maxKB * 1024
  {
    if !IsImageType(file.mimeType) then Some(NotAnImage)
    else if |file.bytes| > maxKB * 1024 then Some(TooLarge(maxKB))
    else None
  }

  /** A file that fails both checks is reported as not an image. */
  lemma TypeCheckedFirst(file: FileInfo, maxKB: int)
    requires !IsImageType(file.mimeType) && |file.bytes| > maxKB * 1024
    ensures FileCheck(file, maxKB) == Some(NotAnImage)
  {
  }

  /** `isHttpUrl`: a non-empty value that parses as a URL with protocol `http:` or `https:`. */
  function IsHttpUrl(value: string, parseUrl: UrlParser): (r: bool)
    ensures r ==> value != "" && parseUrl(value).Some?
    ensures r ==> parseUrl(value).value.protocol in {"http:", "https:"}
  {
    if value == "" then false
    else
      match parseUrl(value)
      case None => false
      case Some(u) => u.protocol == "http:" || u.protocol == "https:"
  }

  /** `invalidIconUrl`: the URL box is flagged. */
  function InvalidIconUrl(mode: IconMode, value: string, parseUrl: UrlParser): bool
  {
    mode == Url && value != "" && !IsHttpUrl(value, parseUrl)
  }

  /**
   * The flag is raised exactly in URL mode on a non-empty value that does not parse, or that
   * parses with a protocol other than `http:` and `https:`.
   */
  lemma InvalidIconUrlIff(mode: IconMode, value: string, parseUrl: UrlParser)
    ensures InvalidIconUrl(mode, value, parseUrl) <==>
      && mode == Url && value != ""
      && (parseUrl(value).None? || parseUrl(value).value.protocol !in {"http:", "https:"})
  {
  }

  /** An empty box is never flagged, in either mode. */
  lemma EmptyValueNotFlagged(mode: IconMode, parseUrl: UrlParser)
    ensures !InvalidIconUrl(mode, "", parseUrl)
  {
  }

  /** The value `mode` can hold: a `data:` URL for uploads, anything else for URLs. */
  predicate FitsMode(mode: IconMode, value: string)
  {
    value == "" || (mode == Upload <==> IsDataUrl(value))
  }

  /**
   * The mode-switch rule: switching to upload clears a value that is not a `data:` URL, and
   * switching to URL clears one that is.
   */
  function ValueAfterModeSwitch(next: IconMode, value: string): (r: string)
    ensures r == value || r == ""
    ensures FitsMode(next, r)
  {
    if next == Upload && value != "" && !IsDataUrl(value) then ""
    else if next == Url && value != "" && IsDataUrl(value) then ""
    else value
  }

  /** A value that already fits the mode switched to is kept; one that does not is cleared. */
  lemma ModeSwitchKeepsIff(next: IconMode, value: string)
    ensures ValueAfterModeSwitch(next, value) == value <==> FitsMode(next, value)
  {
  }

  /** Switching to the same mode a second time changes nothing more. */
  lemma ModeSwitchIdempotent(next: IconMode, value: string)
    ensures ValueAfterModeSwitch(next, ValueAfterModeSwitch(next, value)) ==
      ValueAfterModeSwitch(next, value)
  {
    ModeSwitchKeepsIff(next, ValueAfterModeSwitch(next, value));
  }

  /**
   * The argument of `onPreview`: the value as `iconUrl` unless it is a `data:` URL; an
   * uploaded icon is never passed.
   */
  datatype PreviewArgs = PreviewArgs(iconUrl: Option<string>)

  function PreviewArgsOf(value: string): (r: PreviewArgs)
    ensures r.iconUrl.Some? <==> !IsDataUrl(value)
    ensures r.iconUrl.Some? ==> r.iconUrl.value == value
  {
    if !IsDataUrl(value) then PreviewArgs(Some(value)) else PreviewArgs(None)
  }

  /** The fetch-preview button is disabled while a preview is running or when the value is empty. */
  function PreviewDisabled(previewing: bool, value: string): (r: bool)
    ensures !r ==> !previewing && |value| > 0
  {
    previewing || value == ""
  }

  /** An enabled preview of a URL-mode value that fits the mode passes that value as `iconUrl`. */
  lemma EnabledPreviewPassesValue(previewing: bool, value: string)
    requires !PreviewDisabled(previewing, value) && FitsMode(Url, value)
    ensures PreviewArgsOf(value) == PreviewArgs(Some(value))
  {
  }

  /** What the preview square shows: an image or a fallback initial. */
  datatype PreviewDisplay = ShowImage(src: string) | ShowInitial(initial: string)

  /**
   * The preview square. `previewValue` is "" when there is none (both are falsy). The shown
   * string is `previewValue || value`; it is drawn as an image only when it is a `data:` URL,
   * otherwise the initial of `titleForFallback || "?"` is drawn.
   */
  function PreviewDisplayOf(previewValue: string, value: string, titleForFallback: string,
                            isAlnum: TileCard.LetterOrNumber, upper: TileCard.UpperCase)
    : (r: PreviewDisplay)
    ensures r.ShowImage? <==> IsDataUrl(if previewValue != "" then previewValue else value)
    ensures r.ShowImage? ==> r.src == (if previewValue != "" then previewValue else value)
    ensures r.ShowInitial? ==>
      r.initial == TileCard.FallbackInitial(
        if titleForFallback != "" then titleForFallback else "?", isAlnum, upper)
  {
    var shown := if previewValue != "" then previewValue else value;
    if shown != "" && IsDataUrl(shown) then ShowImage(shown)
    else ShowInitial(TileCard.FallbackInitial(
      if titleForFallback != "" then titleForFallback else "?", isAlnum, upper))
  }

  /** With no title, the initial is the upper-cased question mark. */
  lemma InitialOfEmptyTitle(previewValue: string, value: string,
                            isAlnum: TileCard.LetterOrNumber, upper: TileCard.UpperCase)
    requires !IsDataUrl(if previewValue != "" then previewValue else value)
    ensures PreviewDisplayOf(previewValue, value, "", isAlnum, upper) == ShowInitial(upper("?"))
  {
    var q := "?";
    assert q[0] == '?' && !IsJsWhiteSpace(q[0]);
    assert TrimStart(q) == q;
    assert q[..0] == [] && TrimEnd(q[..0]) == [];
    assert TrimEnd(q) == q;
    assert Trim(q) == q;
    assert [q[0]] == q;
  }

  /** The state the picker works on. */
  class IconPickerState {
    /** The mode prop, which the parent updates through `onModeChange`. */
    var mode: IconMode
    /** The value prop, which the parent updates through `onChange`. */
    var value: string
    var uploadError: Option<UploadError>
    var dragActive: bool
    /** The `maxKB` prop. */
    const maxKB: int

    constructor (mode: IconMode, value: string, maxKB: int)
      ensures this.mode == mode && this.value == value && this.maxKB == maxKB
      ensures uploadError.None? && !dragActive
    {
      this.mode := mode;
      this.value := value;
      this.maxKB := maxKB;
      uploadError := None;
      dragActive := false;
    }

    /**
     * `processFile`: a refused file sets its error and leaves the value; an accepted one
     * becomes the value, as the data URL `FileReader.readAsDataURL` produces for it.
     */
    method ProcessFile(file: FileInfo)
      modifies this
      ensures FileCheck(file, maxKB).Some? ==>
        uploadError == FileCheck(file, maxKB) && value == old(value)
      ensures FileCheck(file, maxKB).None? ==>
        uploadError == old(uploadError) && value == Image.DataUrl(file.mimeType, file.bytes)
      ensures mode == old(mode) && dragActive == old(dragActive)
    {
      if !IsImageType(file.mimeType) {
        uploadError := Some(NotAnImage);
        return;
      }
      if |file.bytes| > maxKB * 1024 {
        uploadError := Some(TooLarge(maxKB));
        return;
      }
      value := Image.DataUrl(file.mimeType, file.bytes);
    }

    /** `handleFileSelect`: with a file, clear the error and process it; without, do nothing. */
    method HandleFileSelect(file: Option<FileInfo>)
      modifies this
      ensures file.None? ==>
        value == old(value) && uploadError == old(uploadError)
      ensures file.Some? ==> uploadError == FileCheck(file.value, maxKB)
      ensures file.Some? && FileCheck(file.value, maxKB).None? ==>
        value == Image.DataUrl(file.value.mimeType, file.value.bytes)
      ensures file.Some? && FileCheck(file.value, maxKB).Some? ==> value == old(value)
      ensures mode == old(mode) && dragActive == old(dragActive)
    {
      if file.None? {
        return;
      }
      uploadError := None;
      ProcessFile(file.value);
    }

    /** `handleDragOver`. */
    method HandleDragOver()
      modifies this
      ensures dragActive
      ensures mode == old(mode) && value == old(value) && uploadError == old(uploadError)
    {
      dragActive := true;
    }

    /** `handleDragLeave`. */
    method HandleDragLeave()
      modifies this
      ensures !dragActive
      ensures mode == old(mode) && value == old(value) && uploadError == old(uploadError)
    {
      dragActive := false;
    }

    /** `handleDrop`: end the drag, then handle the dropped file as a selected one. */
    method HandleDrop(file: Option<FileInfo>)
      modifies this
      ensures !dragActive
      ensures file.None? ==> value == old(value) && uploadError == old(uploadError)
      ensures file.Some? ==> uploadError == FileCheck(file.value, maxKB)
      ensures file.Some? && FileCheck(file.value, maxKB).None? ==>
        value == Image.DataUrl(file.value.mimeType, file.value.bytes)
      ensures file.Some? && FileCheck(file.value, maxKB).Some? ==> value == old(value)
      ensures mode == old(mode)
    {
      dragActive := false;
      HandleFileSelect(file);
    }

    /** The mode select's `onChange`: change mode and clear a value that does not fit it. */
    method SelectMode(next: IconMode)
      modifies this
      ensures mode == next && value == ValueAfterModeSwitch(next, old(value))
      ensures FitsMode(mode, value)
      ensures uploadError == old(uploadError) && dragActive == old(dragActive)
    {
      var current := value;
      mode := next;
      if next == Upload && current != "" && !IsDataUrl(current) {
        value := "";
      }
      if next == Url && current != "" && IsDataUrl(current) {
        value := "";
      }
    }

    /** `handleClearIcon`: empty the value and drop the upload error. */
    method ClearIcon()
      modifies this
      ensures value == "" && uploadError.None?
      ensures mode == old(mode) && dragActive == old(dragActive)
    {
      value := "";
      uploadError := None;
    }
  }

  /** After an accepted upload and with no preview loaded, the square shows the upload. */
  lemma AcceptedUploadShown(file: FileInfo, maxKB: int, title: string,
                            isAlnum: TileCard.LetterOrNumber, upper: TileCard.UpperCase)
    requires FileCheck(file, maxKB).None?
    ensures var v := Image.DataUrl(file.mimeType, file.bytes);
      PreviewDisplayOf("", v, title, isAlnum, upper) == ShowImage(v)
  {
    Image.DataUrlIsData(file.mimeType, file.bytes);
  }

  /**
   * The default limit on the client is the server's limit: a non-empty upload the picker
   * accepts, of one of the server's allowed types (in any letter case, without parameters),
   * is accepted by the server's `parseDataUrl` with exactly its bytes.
   */
  lemma AcceptedUploadParses(file: FileInfo)
    requires FileCheck(file, DEFAULT_MAX_KB).None? && |file.bytes| >= 1
    requires ';' !in file.mimeType && ToLower(file.mimeType) in Image.ALLOWED_MIME
    ensures Image.ParseDataUrl(Image.DataUrl(file.mimeType, file.bytes)) ==
      Some(Image.ParsedDataUrl(ToLower(file.mimeType), file.bytes))
  {
    Image.ParseDataUrlOfDataUrl(file.mimeType, file.bytes);
  }

  /**
   * The one gap between the two: an empty file of an allowed type passes the picker's checks
   * but not the server's.
   */
  lemma EmptyUploadRefusedByServer(mimeType: string)
    requires ';' !in mimeType && ToLower(mimeType) in Image.ALLOWED_MIME
    ensures IsImageType(mimeType) ==> FileCheck(FileInfo(mimeType, []), DEFAULT_MAX_KB).None?
    ensures Image.ParseDataUrl(Image.DataUrl(mimeType, [])).None?
  {
    Image.ParseDataUrlOfDataUrl(mimeType, []);
  }
}
