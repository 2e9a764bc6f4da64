/** customApp/components/Uploads/UploadList.js: the pure decisions the list view
    takes per item (extension of a url, whether a thumbnail is an image, the label,
    the error tooltip, whether the edit icon is offered). The markup itself is not
    modelled. */
module UploadList {
  import opened Strings
  import opened Entities
  import opened FunctionHelper

  // ---------------------------------------------------------------------------
  // extname
  // ---------------------------------------------------------------------------

  /** The regular expression `/\.[^./\\]*$/` matches `s` from index `i` to its end. */
  predicate ExtensionAt(s: string, i: int)
  {
    0 <= i < |s| && s[i] == '.' &&
    forall k :: i < k < |s| ==> s[k] != '.' && s[k] != '/' && s[k] != '\\'
  }

  /** At most one index can start such a match. */
  lemma ExtensionAtUnique(s: string, i: int, j: int)
    requires ExtensionAt(s, i) && ExtensionAt(s, j)
    ensures i == j
  {
  }

  predicate CleanAfter(s: string, i: int)
    requires -1 <= i < |s|
  {
    forall k :: i < k < |s| ==> s[k] != '/' && s[k] != '\\'
  }

  /** `(/\.[^./\\]*$/.exec(s) || [''])[0]`: the match, or "" when there is none. */
  function ExtensionMatch(s: string): (r: string)
    ensures r == "" <==> forall i :: !ExtensionAt(s, i)
    ensures r != "" ==> ExtensionAt(s, |s| - |r|) && r == s[|s| - |r|..]
  {
    var i := LastIndexOf(s, '.');
    if i >= 0 && CleanAfter(s, i) then
      assert ExtensionAt(s, i);
      s[i..]
    else
      ""
  }

  /** The characters that end the file part of a url: fragment and query. */
  const QueryStops: set<char> := {'#', '?'}

  /** `extname(url)`: "" for an empty or absent url; otherwise the extension
      (with its dot) of the last `/`-segment, cut at the first `#` or `?`. */
  function Extname(url: string): (r: string)
    ensures url == "" ==> r == ""
    ensures r == "" || (r[0] == '.' && forall k :: 1 <= k < |r| ==> r[k] != '.' && r[k] != '/' && r[k] != '\\')
    ensures '#' !in r && '?' !in r
  {
    if url == "" then ""
    else
      var filename := LastSegment(url, '/');
      var stem := BeforeAny(filename, QueryStops);
      var r := ExtensionMatch(stem);
      assert r != "" ==> forall k :: 0 <= k < |r| ==> r[k] == stem[|stem| - |r| + k];
      r
  }

  /** Only the text after the last `/` matters. */
  lemma ExtnameAfterLastSlash(dir: string, t: string)
    requires '/' !in t
    ensures Extname(dir + "/" + t) == Extname(t)
  {
    LastSegmentAfter(dir, t, '/');
    assert dir + "/" + t == dir + ['/'] + t;
    if t != "" {
      SegmentsWithoutSeparator(t, '/');
    }
  }

  lemma {:induction false} BeforeAnyStops(t: string, q: string, stops: set<char>)
    requires forall k :: 0 <= k < |t| ==> t[k] !in stops
    requires q == "" || q[0] in stops
    ensures BeforeAny(t + q, stops) == t
    decreases |t|
  {
    if t == [] {
      assert t + q == q;
    } else {
      assert (t + q)[0] == t[0];
      assert (t + q)[1..] == t[1..] + q;
      BeforeAnyStops(t[1..], q, stops);
    }
  }

  /** Everything from the first `#` or `?` on is ignored. */
  lemma ExtnameDropsQuery(t: string, q: string)
    requires '/' !in t && '/' !in q
    requires '#' !in t && '?' !in t
    requires q == "" || q[0] in QueryStops
    ensures Extname(t + q) == ExtensionMatch(t)
  {
    if t + q != "" {
      SegmentsWithoutSeparator(t + q, '/');
      BeforeAnyStops(t, q, QueryStops);
    } else {
      assert t == "";
    }
  }

  /** A file part `stem.ext` has the extension `.ext`. */
  lemma ExtensionMatchOf(stem: string, ext: string)
    requires '.' !in ext && '/' !in ext && '\\' !in ext
    ensures ExtensionMatch(stem + "." + ext) == "." + ext
  {
    var s := stem + "." + ext;
    assert ExtensionAt(s, |stem|);
    var r := ExtensionMatch(s);
    ExtensionAtUnique(s, |stem|, |s| - |r|);
  }

  /** The extension of `dir/stem.ext` followed by a query or fragment is `.ext`. */
  lemma ExtnameOfFileUrl(dir: string, stem: string, ext: string, q: string)
    requires '/' !in stem && '/' !in ext && '/' !in q
    requires '#' !in stem + ext && '?' !in stem + ext
    requires '.' !in ext && '\\' !in ext
    requires q == "" || q[0] in QueryStops
    ensures Extname(dir + "/" + stem + "." + ext + q) == "." + ext
  {
    var file := stem + "." + ext;
    assert dir + "/" + stem + "." + ext + q == dir + "/" + (file + q);
    assert '/' !in file + q;
    ExtnameAfterLastSlash(dir, file + q);
    assert forall k :: 0 <= k < |file| ==> file[k] != '#' && file[k] != '?' by {
      forall k | 0 <= k < |file| ensures file[k] != '#' && file[k] != '?' {
        if k < |stem| { assert file[k] == (stem + ext)[k]; }
        else if k > |stem| { assert file[k] == (stem + ext)[k - 1]; }
      }
    }
    ExtnameDropsQuery(file, q);
    ExtensionMatchOf(stem, ext);
  }

  // ---------------------------------------------------------------------------
  // isImageFileType / isImageUrl
  // ---------------------------------------------------------------------------

  /** `isImageFileType(type)`: a non-empty mime type starting with `image/`. */
  function IsImageFileType(mimeType: string): (r: bool)
    ensures r <==> mimeType != "" && StartsWith(mimeType, "image/")
  {
    IndexOfStringZero(mimeType, "image/");
    mimeType != "" && IndexOfString(mimeType, "image/") == 0
  }

  /** The endings `/(webp|svg|png|gif|jpg|jpeg|bmp|dpg)$/i` accepts. */
  const ImageUrlEndings: seq<string> := ["webp", "svg", "png", "gif", "jpg", "jpeg", "bmp", "dpg"]

  /** The case-insensitive test of an extension against those endings. */
  predicate HasImageEnding(extension: string)
  {
    exists e :: e in ImageUrlEndings && EndsWith(Lower(extension), e)
  }

  /** `file.thumbUrl || file.url` */
  function DisplayUrl(thumbUrl: string, url: string): string
  {
    if thumbUrl != "" then thumbUrl else url
  }

  /** `isImageUrl(file)` for a file with the given mime type and urls. */
  function IsImageUrl(mimeType: string, thumbUrl: string, url: string): bool
  {
    if IsImageFileType(mimeType) then true
    else
      var u := DisplayUrl(thumbUrl, url);
      var extension := Extname(u);
      if StartsWith(u, "data:image/") || HasImageEnding(extension) then true
      else if StartsWith(u, "data:") then false
      else if extension != "" then false
      else true
  }

  /** An image mime type decides on its own, whatever the urls say. */
  lemma ImageMimeTypeIsImage(mimeType: string, thumbUrl: string, url: string)
    requires StartsWith(mimeType, "image/")
    ensures IsImageUrl(mimeType, thumbUrl, url)
  {
  }

  /** For a plain (non-`data:`) url `dir/stem.ext?query` of a file whose mime type
      is not an image type, the thumbnail counts as an image exactly when `ext`
      ends, ignoring case, in one of the image endings. */
  lemma IsImageUrlOfFileUrl(mimeType: string, dir: string, stem: string, ext: string, q: string)
    requires !StartsWith(mimeType, "image/")
    requires !StartsWith(dir + "/" + stem + "." + ext + q, "data:")
    requires '/' !in stem && '/' !in ext && '/' !in q
    requires '#' !in stem + ext && '?' !in stem + ext
    requires '.' !in ext && '\\' !in ext
    requires q == "" || q[0] in QueryStops
    ensures IsImageUrl(mimeType, "", dir + "/" + stem + "." + ext + q) <==> HasImageEnding("." + ext)
  {
    var u := dir + "/" + stem + "." + ext + q;
    ExtnameOfFileUrl(dir, stem, ext, q);
    DataImageIsData(u);
  }

  lemma DataImageIsData(u: string)
    ensures StartsWith(u, "data:image/") ==> StartsWith(u, "data:")
  {
    if StartsWith(u, "data:image/") {
      assert u[..5] == u[..11][..5];
    }
  }

  /** A `data:` url is an image exactly when it is a `data:image/` url or its
      extension has an image ending. */
  lemma IsImageUrlOfDataUrl(mimeType: string, thumbUrl: string, url: string)
    requires !StartsWith(mimeType, "image/")
    requires StartsWith(DisplayUrl(thumbUrl, url), "data:")
    ensures IsImageUrl(mimeType, thumbUrl, url) <==>
              StartsWith(DisplayUrl(thumbUrl, url), "data:image/") || HasImageEnding(Extname(DisplayUrl(thumbUrl, url)))
  {
  }

  /** A plain url without an extension is shown as an image. */
  lemma IsImageUrlWithoutExtension(mimeType: string, thumbUrl: string, url: string)
    requires !StartsWith(DisplayUrl(thumbUrl, url), "data:")
    requires Extname(DisplayUrl(thumbUrl, url)) == ""
    ensures IsImageUrl(mimeType, thumbUrl, url)
  {
  }

  // ---------------------------------------------------------------------------
  // per-item decisions of renderUploadList
  // ---------------------------------------------------------------------------

  /** The title and text of an item: the renamed display name when the wrapper
      carries a non-empty `fileName`, else the file's own name. */
  function ItemLabel(e: Entry): (title: string)
    ensures e.Bare? ==> title == e.file.name
    ensures e.Renamed? && e.fileName != "" ==> title == SetFileName(e.fileName, e.file.name) && '.' in title
    ensures e.Renamed? && e.fileName == "" ==> title == e.file.name
  {
    match e
    case Bare(f) => f.name
    case Renamed(f, fileName) =>
      if fileName != "" then
        SetFileNameHasDot(fileName, f.name);
        SetFileName(fileName, f.name)
      else f.name
  }

  /** The tooltip of a failed item: a non-empty text response, else the error's
      non-empty `statusText`, else the locale's upload-error text. */
  function ErrorMessage(f: UploadFile, uploadErrorText: string): (message: string)
    ensures f.response.TextResponse? && f.response.text != "" ==> message == f.response.text
    ensures (!(f.response.TextResponse? && f.response.text != "") && f.error.Some? && f.error.value.statusText != "")
              ==> message == f.error.value.statusText
    ensures (!(f.response.TextResponse? && f.response.text != "") && !(f.error.Some? && f.error.value.statusText != ""))
              ==> message == uploadErrorText
    ensures uploadErrorText != "" ==> message != ""
  {
    if f.response.TextResponse? && f.response.text != "" then f.response.text
    else if f.error.Some? && f.error.value.statusText != "" then f.error.value.statusText
    else uploadErrorText
  }

  datatype ListType = Text | Picture | PictureCard

  /** `imageTypes` of the list view. */
  const EditableExtensions: seq<string> := ["jpg", "jpeg", "png"]

  /** Whether an item offers the edit icon: the icon exists only for a file whose
      own name (not the chosen display name) ends in exactly jpg, jpeg or png, and
      it is shown among the actions of a picture card that is not uploading. */
  function ShowsEditIcon(listType: ListType, showEditIcon: bool, f: UploadFile): (shown: bool)
    ensures shown <==> listType == PictureCard && f.status != Uploading && showEditIcon &&
                       LastSegment(f.name, '.') in {"jpg", "jpeg", "png"}
  {
    var extension := LastSegment(f.name, '.');
    var editIcon := showEditIcon && IndexOf(EditableExtensions, extension) > -1;
    listType == PictureCard && f.status != Uploading && editIcon
  }
}
