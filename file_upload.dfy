/** customApp/components/Upload/index.js: the staging controller around the
    upload widget. It validates a selected file, stages it (directly, or after
    the crop dialog), lets the user rename and re-crop staged images, and hands
    every new list of staged entries to the parent through `props.onChange`.

    The list `props.files` is owned by the parent; the controller reads it and,
    in `saveImage`, also splices it in place. `ImageTypes`, the locale lookup
    and the cropper are outside this model: their results enter as parameters. */
module FileUploadComponent {
  import opened Strings
  import opened Entities
  import opened UploadList

  // ---------------------------------------------------------------------------
  // validation and messages
  // ---------------------------------------------------------------------------

  datatype ErrorKind = MimeError | SizeError

  /** The default messages of `errorReporting()`. */
  datatype Messages = Messages(mime: string, size: string)

  const MimePrefix: string := "File must be a file of type: "
  const SizePrefix: string := "File size may not be greater than "

  /** `errorReporting()`: the mime message lists every accepted type, the size
      message names the limit in megabytes. `sizeText` is the limit as
      JavaScript prints it into the template (`${size}`). */
  function ErrorReporting(accept: seq<string>, sizeText: string): (m: Messages)
    ensures StartsWith(m.mime, MimePrefix)
    ensures forall k :: 0 <= k < |accept| ==> Contains(m.mime, accept[k])
    ensures StartsWith(m.size, SizePrefix) && EndsWith(m.size, "mb")
    ensures Contains(m.size, sizeText)
  {
    var mime := MimePrefix + Join(accept, ", ");
    var sz := SizePrefix + sizeText + "mb";
    forall k | 0 <= k < |accept| ensures Contains(mime, accept[k]) {
      JoinContainsParts(accept, ", ", k);
      ContainsInContext(MimePrefix, Join(accept, ", "), "", accept[k]);
      assert MimePrefix + Join(accept, ", ") + "" == mime;
    }
    assert OccursAt(sizeText, sizeText, 0);
    ContainsInContext(SizePrefix, sizeText, "mb", sizeText);
    assert sz[..|SizePrefix|] == SizePrefix;
    Messages(mime, sz)
  }

  function DefaultFor(kind: ErrorKind, defaults: Messages): string
  {
    match kind
    case MimeError => defaults.mime
    case SizeError => defaults.size
  }

  /** `errors[type] || defaults[type]`: a non-empty caller override wins. */
  function MessageFor(kind: ErrorKind, overrides: map<ErrorKind, string>, defaults: Messages): (message: string)
    ensures kind in overrides && overrides[kind] != "" ==> message == overrides[kind]
    ensures !(kind in overrides && overrides[kind] != "") ==> message == DefaultFor(kind, defaults)
  {
    if kind in overrides && overrides[kind] != "" then overrides[kind] else DefaultFor(kind, defaults)
  }

  /** Without an override the message is never empty. */
  lemma MessageForNeverEmpty(kind: ErrorKind, overrides: map<ErrorKind, string>, accept: seq<string>, sizeText: string)
    ensures MessageFor(kind, overrides, ErrorReporting(accept, sizeText)) != ""
  {
  }

  const MiB: nat := 1048576

  /** `(bytes / (1024 * 1024)).toFixed(2) <= size`. `toFixed(2)` rounds the
      exact quotient to the nearest hundredth, halves upwards, so the test
      compares `floor(100 * bytes / MiB + 1/2)` with `100 * size`. The limit is
      any number, fractions included. */
  predicate SizeOk(bytes: nat, size: real)
  {
    ((200 * bytes + MiB) / (2 * MiB)) as real <= 100.0 * size
  }

  /** The size test accepts exactly the files below `h + 0.5` hundredths of a
      MiB, where `h` is the limit in whole hundredths rounded down. */
  lemma SizeOkBound(bytes: nat, size: real)
    ensures SizeOk(bytes, size) <==> 200 * bytes < (2 * (100.0 * size).Floor + 1) * MiB
  {
    var n := 200 * bytes + MiB;
    var q := n / (2 * MiB);
    var h := (100.0 * size).Floor;
    assert h as real <= 100.0 * size < h as real + 1.0;
    assert SizeOk(bytes, size) <==> q <= h;
    assert q * (2 * MiB) <= n < (q + 1) * (2 * MiB);
    if q <= h {
      assert (q + 1) * (2 * MiB) <= (h + 1) * (2 * MiB);
    } else {
      assert (h + 1) * (2 * MiB) <= q * (2 * MiB);
    }
  }

  /** For a whole number of megabytes the bound is `size + 0.005` MiB. */
  lemma SizeOkWholeBound(bytes: nat, size: nat)
    ensures SizeOk(bytes, size as real) <==> 200 * bytes < (200 * size + 1) * MiB
  {
    SizeOkBound(bytes, size as real);
    assert (100.0 * (size as real)).Floor == 100 * size;
  }

  const DefaultSize: real := 5.0

  /** With the default limit of 5 MB, files up to 5 248 122 bytes pass. */
  lemma DefaultSizeLimit(bytes: nat)
    ensures SizeOk(bytes, DefaultSize) <==> bytes <= 5248122
  {
    SizeOkWholeBound(bytes, 5);
  }

  /** A fractional limit: with 0.5 MB, files up to 529 530 bytes pass. */
  lemma HalfMegabyteLimit(bytes: nat)
    ensures SizeOk(bytes, 0.5) <==> bytes <= 529530
  {
    SizeOkBound(bytes, 0.5);
    assert (100.0 * 0.5).Floor == 50;
  }

  const DefaultAccept: seq<string> := ["application/pdf", "image/jpg", "image/jpeg", "image/png"]

  /** `accept.indexOf(file.type) !== -1`: exact membership. */
  function TypeOk(mimeType: string, accept: seq<string>): (ok: bool)
    ensures ok <==> mimeType in accept
  {
    IndexOf(accept, mimeType) != -1
  }

  /** The message `validateFile` leaves behind: the mime test runs after the
      size test, so its message wins when both fail. */
  function ValidationError(bytes: nat, mimeType: string, size: real, accept: seq<string>): (e: Option<ErrorKind>)
    ensures e.None? <==> SizeOk(bytes, size) && mimeType in accept
    ensures e == Some(MimeError) <==> mimeType !in accept
    ensures e == Some(SizeError) <==> !SizeOk(bytes, size) && mimeType in accept
  {
    if !TypeOk(mimeType, accept) then Some(MimeError)
    else if !SizeOk(bytes, size) then Some(SizeError)
    else None
  }

  // ---------------------------------------------------------------------------
  // cropper geometry
  // ---------------------------------------------------------------------------

  /** `rotate(position = 'left')`: an omitted argument counts as `'left'`. */
  function RotateAngle(position: Option<string>): (degrees: int)
    ensures degrees == -90 <==> position.None? || position.value == "left"
    ensures degrees == 90 <==> position.Some? && position.value != "left"
  {
    var p := if position.Some? then position.value else "left";
    if p == "left" then -90 else 90
  }

  const MaxSize: real := 1200.0

  /** The object `maintainDimensions()` returns: only one side is set. */
  datatype Dimensions = HeightCap(height: real) | WidthCap(width: real)

  function Min(a: real, b: real): real { if a <= b then a else b }
  function Max(a: real, b: real): real { if a >= b then a else b }

  /** The longer side of the crop box is capped at `maxSize`; on a tie the
      width is the one set. */
  function MaintainDimensions(height: real, width: real, maxSize: real): (d: Dimensions)
    ensures d.HeightCap? <==> height > width
    ensures d.HeightCap? ==> d.height == Min(Max(height, width), maxSize)
    ensures d.WidthCap? ==> d.width == Min(Max(height, width), maxSize)
    ensures d.HeightCap? ==> d.height <= maxSize && d.height <= height
    ensures d.WidthCap? ==> d.width <= maxSize && d.width <= width
  {
    if height > width then HeightCap(if height > maxSize then maxSize else height)
    else WidthCap(if width > maxSize then maxSize else width)
  }

  // ---------------------------------------------------------------------------
  // list operations
  // ---------------------------------------------------------------------------

  /** `files.slice()` followed by `splice(index, 1)`: the element at `index`
      is dropped and the others keep their order; an index past the end drops
      nothing. */
  function RemoveAt(s: seq<Entry>, index: nat): (r: seq<Entry>)
    ensures index < |s| ==> |r| == |s| - 1
    ensures index >= |s| ==> r == s
    ensures forall k :: 0 <= k < |r| ==> r[k] == if k < index then s[k] else s[k + 1]
  {
    if index < |s| then s[..index] + s[index + 1..] else s
  }

  /** The entries whose file does not have uid `u`, in order. */
  function WithoutEntryUid(s: seq<Entry>, u: Uid): (r: seq<Entry>)
    ensures forall k :: 0 <= k < |r| ==> EntryUid(r[k]) != u && r[k] in s
    ensures forall e :: e in s && EntryUid(e) != u ==> e in r
  {
    if s == [] then []
    else
      var rest := WithoutEntryUid(s[1..], u);
      assert forall e :: e in s[1..] ==> e in s;
      if EntryUid(s[0]) == u then rest else [s[0]] + rest
  }

  /** Filtering by uid keeps the order of what stays: the result on a
      concatenation is the concatenation of the results. */
  lemma {:induction false} WithoutEntryUidConcat(a: seq<Entry>, b: seq<Entry>, u: Uid)
    ensures WithoutEntryUid(a + b, u) == WithoutEntryUid(a, u) + WithoutEntryUid(b, u)
    ensures forall e: Entry :: WithoutEntryUid([e], u) == if EntryUid(e) == u then [] else [e]
  {
    if a != [] {
      assert (a + b)[1..] == a[1..] + b;
      WithoutEntryUidConcat(a[1..], b, u);
    } else {
      assert a + b == b;
    }
    forall e: Entry
      ensures WithoutEntryUid([e], u) == if EntryUid(e) == u then [] else [e]
    {
      assert [e][1..] == [];
    }
  }

  /** Every entry of another uid stays as often as it occurred. */
  lemma {:induction false} WithoutEntryUidCounts(s: seq<Entry>, u: Uid, e: Entry)
    requires EntryUid(e) != u
    ensures multiset(WithoutEntryUid(s, u))[e] == multiset(s)[e]
  {
    if s != [] {
      WithoutEntryUidCounts(s[1..], u, e);
      assert s == [s[0]] + s[1..];
    }
  }

  /** What `files.map((file, index) => { if (uid matches) files.splice(index, 1) })`
      leaves in `files`: `map` moves to the next index after a splice, so the
      entry that slid into the freed place is never looked at. */
  function SkipSplice(s: seq<Entry>, u: Uid): seq<Entry>
    decreases |s|
  {
    if s == [] then []
    else if EntryUid(s[0]) == u then
      if |s| >= 2 then [s[1]] + SkipSplice(s[2..], u) else []
    else [s[0]] + SkipSplice(s[1..], u)
  }

  /** One step of the splicing loop on a matching entry at original position `j`. */
  lemma SkipSpliceMatchStep(orig: seq<Entry>, j: nat, done: seq<Entry>, u: Uid)
    requires j < |orig| && EntryUid(orig[j]) == u
    requires done + SkipSplice(orig[j..], u) == SkipSplice(orig, u)
    ensures j + 1 < |orig| ==> (done + [orig[j + 1]]) + SkipSplice(orig[j + 2..], u) == SkipSplice(orig, u)
    ensures j + 1 >= |orig| ==> done == SkipSplice(orig, u)
  {
    var rest := orig[j..];
    if j + 1 < |orig| {
      assert rest[1] == orig[j + 1] && rest[2..] == orig[j + 2..];
    }
  }

  /** One step of the splicing loop on an entry of another uid. */
  lemma SkipSpliceKeepStep(orig: seq<Entry>, j: nat, done: seq<Entry>, u: Uid)
    requires j < |orig| && EntryUid(orig[j]) != u
    requires done + SkipSplice(orig[j..], u) == SkipSplice(orig, u)
    ensures (done + [orig[j]]) + SkipSplice(orig[j + 1..], u) == SkipSplice(orig, u)
  {
    var rest := orig[j..];
    assert rest[1..] == orig[j + 1..];
  }

  /** With pairwise distinct uids the skipped entry never matches, so the
      splicing loop removes exactly the entries of uid `u`. */
  lemma {:induction false} SkipSpliceIsFilter(s: seq<Entry>, u: Uid)
    requires UniqueUids(s)
    ensures SkipSplice(s, u) == WithoutEntryUid(s, u)
    decreases |s|
  {
    if s != [] {
      assert UniqueUids(s[1..]) by {
        forall i, j | 0 <= i < j < |s[1..]| ensures EntryUid(s[1..][i]) != EntryUid(s[1..][j]) {
          assert s[1..][i] == s[i + 1] && s[1..][j] == s[j + 1];
        }
      }
      if EntryUid(s[0]) == u {
        if |s| >= 2 {
          assert EntryUid(s[1]) != u;
          assert s[2..] == s[1..][1..];
          assert UniqueUids(s[2..]) by {
            forall i, j | 0 <= i < j < |s[2..]| ensures EntryUid(s[2..][i]) != EntryUid(s[2..][j]) {
              assert s[2..][i] == s[i + 2] && s[2..][j] == s[j + 2];
            }
          }
          SkipSpliceIsFilter(s[2..], u);
          assert WithoutEntryUid(s[1..], u) == [s[1]] + WithoutEntryUid(s[2..], u);
        } else {
          assert s[1..] == [];
        }
      } else {
        SkipSpliceIsFilter(s[1..], u);
      }
    }
  }

  /** Without distinct uids the loop can leave an entry of the uid behind: of two
      adjacent entries of the same file, the second survives. */
  lemma SkipSpliceKeepsAdjacentDuplicate(a: UploadFile, b: UploadFile)
    requires a.uid == b.uid
    ensures SkipSplice([Bare(a), Bare(b)], a.uid) == [Bare(b)]
  {
    assert [Bare(a), Bare(b)][2..] == [];
  }

  /** `index = files.indexOf(fileInfo); if (index > -1) files.splice(index, 1)`.
      The object identity `indexOf` tests is modelled by equality of the bare
      entry; a renamed wrapper never equals the file itself. */
  function RemoveFirst(s: seq<Entry>, e: Entry): (r: seq<Entry>)
    ensures e !in s ==> r == s
    ensures e in s ==> |r| == |s| - 1 && multiset(r) == multiset(s) - multiset{e}
    ensures e in s ==> exists i :: 0 <= i < |s| && s[i] == e && e !in s[..i] && r == s[..i] + s[i + 1..]
  {
    var i := IndexOf(s, e);
    if i == -1 then s
    else
      assert s == s[..i] + [s[i]] + s[i + 1..];
      s[..i] + s[i + 1..]
  }

  /** The list `saveImage` emits: the spliced list plus the renamed entry at the
      end, or the renamed entry alone for a single-file field. */
  function CommittedList(spliced: seq<Entry>, newEntry: Entry, isSingle: bool): (r: seq<Entry>)
    ensures |r| >= 1 && r[|r| - 1] == newEntry
    ensures isSingle ==> r == [newEntry]
    ensures !isSingle ==> r[..|r| - 1] == spliced
  {
    if isSingle then [newEntry] else spliced + [newEntry]
  }

  /** The list left in `files` by `saveImage`: the splicing loop, then the
      `indexOf` removal. */
  function SplicedFiles(files: seq<Entry>, fileInfo: UploadFile): seq<Entry>
  {
    RemoveFirst(SkipSplice(files, fileInfo.uid), Bare(fileInfo))
  }

  /** Given distinct uids, committing an image drops every entry of its file and
      appends the renamed entry last; the result again has distinct uids. */
  lemma CommitReplacesEntry(files: seq<Entry>, fileInfo: UploadFile, newFileName: string, isSingle: bool)
    requires UniqueUids(files)
    ensures var r := CommittedList(SplicedFiles(files, fileInfo), Renamed(fileInfo, newFileName), isSingle);
            && (!isSingle ==> r == WithoutEntryUid(files, fileInfo.uid) + [Renamed(fileInfo, newFileName)])
            && UniqueUids(r)
            && (forall k :: 0 <= k < |r| - 1 ==> EntryUid(r[k]) != fileInfo.uid)
  {
    var u := fileInfo.uid;
    SkipSpliceIsFilter(files, u);
    var w := WithoutEntryUid(files, u);
    assert Bare(fileInfo) !in w;
    WithoutEntryUidUnique(files, u);
  }

  lemma {:induction false} WithoutEntryUidUnique(s: seq<Entry>, u: Uid)
    requires UniqueUids(s)
    ensures UniqueUids(WithoutEntryUid(s, u))
    decreases |s|
  {
    if s != [] {
      assert UniqueUids(s[1..]) by {
        forall i, j | 0 <= i < j < |s[1..]| ensures EntryUid(s[1..][i]) != EntryUid(s[1..][j]) {
          assert s[1..][i] == s[i + 1] && s[1..][j] == s[j + 1];
        }
      }
      WithoutEntryUidUnique(s[1..], u);
      var rest := WithoutEntryUid(s[1..], u);
      if EntryUid(s[0]) != u {
        forall k | 0 <= k < |rest| ensures EntryUid(rest[k]) != EntryUid(s[0]) {
          var j :| 0 <= j < |s[1..]| && s[1..][j] == rest[k];
          assert s[j + 1] == rest[k];
        }
        var r := [s[0]] + rest;
        assert forall k :: 1 <= k < |r| ==> r[k] == rest[k - 1];
      }
    }
  }

  // ---------------------------------------------------------------------------
  // the name prefill of the crop dialog
  // ---------------------------------------------------------------------------

  /** The initial value of `newFileName` when re-editing an entry, or the
      `TypeError` the expression throws. */
  datatype Prefill = PrefillName(name: Option<string>) | PrefillThrows

  /** `originalFileData.fileName ? originalFileData.fileName
        : originalFileData.name.substring(0, originalFileData.name.lastIndexOf('.')) || null`.
      A wrapper without a display name has no `name` property, so the second
      branch throws for it. */
  function EditPrefill(e: Entry): (p: Prefill)
    ensures e.Renamed? && e.fileName != "" ==> p == PrefillName(Some(e.fileName))
    ensures e.Renamed? && e.fileName == "" ==> p == PrefillThrows
    ensures e.Bare? ==> p.PrefillName?
    ensures e.Bare? && p.name.Some? ==> p.name.value != "" && p.name.value + "." + LastSegment(e.file.name, '.') == e.file.name
    ensures e.Bare? && p.name.None? ==> !exists i :: 0 < i < |e.file.name| && e.file.name[i] == '.'
  {
    match e
    case Renamed(_, fileName) =>
      if fileName != "" then PrefillName(Some(fileName)) else PrefillThrows
    case Bare(f) =>
      var stem := BeforeLast(f.name, '.');
      LastIndexIsStem(f.name);
      if stem != "" then PrefillName(Some(stem)) else PrefillName(None)
  }

  /** The stem before the last dot is empty exactly when no dot follows the
      first character. */
  lemma LastIndexIsStem(s: string)
    ensures BeforeLast(s, '.') == "" ==> !exists i :: 0 < i < |s| && s[i] == '.'
  {
    if '.' in s && BeforeLast(s, '.') == "" {
      var t := LastSegment(s, '.');
      assert s == "." + t;
      SegmentsNoDot(s);
      assert forall i :: 0 < i < |s| ==> s[i] == t[i - 1];
    }
  }

  lemma SegmentsNoDot(s: string)
    ensures '.' !in LastSegment(s, '.')
  {
  }

  // ---------------------------------------------------------------------------
  // the name check of saveImage
  // ---------------------------------------------------------------------------

  datatype NameCheck = NameRequired | NameGiven(name: string) | NameCrash

  /** `newFileName.length === 0` as written: a `null` name is not caught and
      reading its length throws. */
  function NameCheckAsWritten(newFileName: Option<string>): (c: NameCheck)
    ensures newFileName.None? <==> c == NameCrash
  {
    match newFileName
    case None => NameCrash
    case Some(n) => if |n| == 0 then NameRequired else NameGiven(n)
  }

  /** The name test as intended: a missing or empty name asks for a name. */
  function NameCheckIntended(newFileName: Option<string>): (c: NameCheck)
    ensures c != NameCrash
    ensures c == NameRequired <==> newFileName.None? || newFileName.value == ""
    ensures c.NameGiven? ==> newFileName == Some(c.name) && c.name != ""
  {
    match newFileName
    case None => NameRequired
    case Some(n) => if |n| == 0 then NameRequired else NameGiven(n)
  }

  /** The two checks agree on every name the user has typed. */
  lemma NameChecksAgreeOnTypedNames(n: string)
    ensures NameCheckAsWritten(Some(n)) == NameCheckIntended(Some(n))
  {
  }

  /** A staged image named `.png` offers the edit icon; editing it prefills no
      name, and saving then crashes in the written name test instead of asking for
      a name. */
  lemma DotPngEditCrashes(f: UploadFile)
    requires f.name == ".png" && f.status != Uploading
    ensures ShowsEditIcon(PictureCard, true, f)
    ensures EditPrefill(Bare(f)) == PrefillName(None)
    ensures NameCheckAsWritten(EditPrefill(Bare(f)).name) == NameCrash
    ensures NameCheckIntended(EditPrefill(Bare(f)).name) == NameRequired
  {
    assert ".png" == "" + ['.'] + "png";
    LastSegmentAfter("", "png", '.');
    assert BeforeLast(f.name, '.') + "." + LastSegment(f.name, '.') == f.name;
  }

  // ---------------------------------------------------------------------------
  // the component
  // ---------------------------------------------------------------------------

  /** `this.state`. `errors` only ever holds `fileName`, kept here as
      `fileNameError`; `{}` for `fileInfo` is `None`. */
  datatype ViewState = ViewState(
    showCropper: bool,
    fileToCrop: Option<string>,
    crop: bool,
    fileInfo: Option<UploadFile>,
    showPreview: bool,
    previewString: Option<string>,
    previewName: Option<string>,
    errorMessage: Option<string>,
    loading: bool,
    hideSpinner: bool,
    newFileName: Option<string>,
    fileNameError: Option<string>)

  const InitialState: ViewState :=
    ViewState(false, None, false, None, false, None, None, None, false, false, None, None)

  /** A call made on the cropper instance. */
  datatype CropperCall = RotateBy(degrees: int) | Reset | CroppedCanvas(dimensions: Dimensions)

  class FileUpload {
    const size: real
    /** `${size}`: the limit as JavaScript prints it. */
    const sizeText: string
    const accept: seq<string>
    /** `props.errors` */
    const overrides: map<ErrorKind, string>
    const isSingle: bool
    /** `ImageTypes`: the mime types that open the crop dialog. */
    const imageTypes: seq<string>
    /** The locale's `global.fileNameRequired` text. */
    const fileNameRequired: string

    /** `props.files` */
    var files: seq<Entry>
    var state: ViewState
    /** `this.width`, `this.height`: the last crop box the cropper reported. */
    var width: real
    var height: real
    /** Every list handed to `props.onChange`, in order. */
    var emitted: seq<seq<Entry>>
    var cropperCalls: seq<CropperCall>

    constructor (size: real, sizeText: string, accept: seq<string>, overrides: map<ErrorKind, string>, isSingle: bool,
                 imageTypes: seq<string>, fileNameRequired: string, files: seq<Entry>)
      ensures this.size == size && this.sizeText == sizeText && this.accept == accept && this.overrides == overrides
      ensures this.isSingle == isSingle && this.imageTypes == imageTypes && this.fileNameRequired == fileNameRequired
      ensures this.files == files && state == InitialState
      ensures width == 0.0 && height == 0.0 && emitted == [] && cropperCalls == []
    {
      this.size := size;
      this.sizeText := sizeText;
      this.accept := accept;
      this.overrides := overrides;
      this.isSingle := isSingle;
      this.imageTypes := imageTypes;
      this.fileNameRequired := fileNameRequired;
      this.files := files;
      state := InitialState;
      width := 0.0;
      height := 0.0;
      emitted := [];
      cropperCalls := [];
    }

    /** The parent re-renders with a new `files` prop. */
    method ReceiveFiles(newFiles: seq<Entry>)
      modifies this`files
      ensures files == newFiles
    {
      files := newFiles;
    }

    method ToggleModal()
      modifies this`state
      ensures state == old(state).(showCropper := !old(state).showCropper)
    {
      state := state.(showCropper := !state.showCropper);
    }

    /** Closing the preview also forgets the previewed url. */
    method TogglePreview()
      modifies this`state
      ensures state == old(state).(showPreview := !old(state).showPreview,
                                   previewString := if old(state).showPreview then None else old(state).previewString)
    {
      var previewString := state.previewString;
      if state.showPreview {
        previewString := None;
      }
      state := state.(showPreview := !state.showPreview, previewString := previewString);
    }

    method ToggleCrop()
      modifies this`state
      ensures state == old(state).(crop := !old(state).crop)
    {
      state := state.(crop := !state.crop);
    }

    /** `setMessage(type)` */
    method SetMessage(kind: ErrorKind)
      modifies this`state
      ensures state == old(state).(errorMessage := Some(MessageFor(kind, overrides, ErrorReporting(accept, sizeText))))
    {
      state := state.(errorMessage := Some(MessageFor(kind, overrides, ErrorReporting(accept, sizeText))));
    }

    /** `validateFile(file)`: accepts exactly a file within the size limit whose
        type is listed; each failing test sets its message, the type test last. */
    method ValidateFile(file: UploadFile) returns (ok: bool)
      modifies this`state
      ensures ok <==> SizeOk(file.size, size) && file.mimeType in accept
      ensures var e := ValidationError(file.size, file.mimeType, size, accept);
              state == if e.None? then old(state)
                       else old(state).(errorMessage := Some(MessageFor(e.value, overrides, ErrorReporting(accept, sizeText))))
    {
      var fileSize := SizeOk(file.size, size);
      if !fileSize {
        SetMessage(SizeError);
      }
      var fileType := TypeOk(file.mimeType, accept);
      if !fileType {
        SetMessage(MimeError);
      }
      ok := fileSize && fileType;
    }

    /** `cropperNeeded(file)`: the crop dialog opens on the file's object url
        with the name up to its last dot prefilled. */
    method CropperNeeded(file: UploadFile, objectUrl: string)
      modifies this`state
      ensures state == old(state).(fileToCrop := Some(objectUrl),
                                   newFileName := Some(BeforeLast(file.name, '.')),
                                   showCropper := !old(state).showCropper)
    {
      state := state.(fileToCrop := Some(objectUrl), newFileName := Some(BeforeLast(file.name, '.')));
      ToggleModal();
    }

    /** `beforeUpload(file)`: never lets the widget upload. An accepted image
        goes to the crop dialog; any other accepted file is staged at once, as
        the only entry of a single-file field or after the others. */
    method BeforeUpload(file: UploadFile, objectUrl: string) returns (proceed: bool)
      modifies this`state, this`emitted
      ensures !proceed
      ensures var e := ValidationError(file.size, file.mimeType, size, accept);
              var staged := file.(originFileObj := RawFile(file.uid));
              && (e.Some? ==>
                    && emitted == old(emitted)
                    && state == old(state).(errorMessage := Some(MessageFor(e.value, overrides, ErrorReporting(accept, sizeText))),
                                            fileInfo := None, fileNameError := None, newFileName := None))
              && (e.None? && file.mimeType in imageTypes ==>
                    && emitted == old(emitted)
                    && state == old(state).(fileInfo := Some(file), errorMessage := None, crop := true,
                                            fileNameError := None, fileToCrop := Some(objectUrl),
                                            newFileName := Some(BeforeLast(file.name, '.')),
                                            showCropper := !old(state).showCropper))
              && (e.None? && file.mimeType !in imageTypes ==>
                    && emitted == old(emitted) + [if isSingle then [Bare(staged)] else old(files) + [Bare(staged)]]
                    && state == old(state).(fileInfo := Some(staged), errorMessage := None, crop := true,
                                            fileNameError := None, newFileName := None))
    {
      var allowed := ValidateFile(file);
      state := state.(fileInfo := None, fileNameError := None, newFileName := None);
      if allowed {
        state := state.(fileInfo := Some(file), errorMessage := None, crop := true);
        if IndexOf(imageTypes, file.mimeType) != -1 {
          CropperNeeded(file, objectUrl);
        } else {
          // the selected object is the one in `fileInfo`, so both see the update
          var staged := file.(originFileObj := RawFile(file.uid));
          state := state.(fileInfo := Some(staged));
          if isSingle {
            emitted := emitted + [[Bare(staged)]];
          } else {
            emitted := emitted + [files + [Bare(staged)]];
          }
        }
      }
      proceed := false;
    }

    /** `onPreview(file)` */
    method OnPreview(file: UploadFile)
      modifies this`state
      ensures state == old(state).(previewString := if old(state).showPreview then None else Some(file.mainUrl),
                                   previewName := Some(file.name),
                                   showPreview := !old(state).showPreview)
    {
      state := state.(previewString := Some(file.mainUrl), previewName := Some(file.name));
      TogglePreview();
    }

    /** `onRemove(file, index)`: a copy of `files` without the entry at `index`
        is emitted; `files` itself is left alone. */
    method OnRemove(index: nat)
      modifies this`emitted
      ensures emitted == old(emitted) + [RemoveAt(files, index)]
    {
      emitted := emitted + [RemoveAt(files, index)];
    }

    /** `onEdit(file, originalFileData)` for the entry at `index`: the file is
        marked edited in place and the crop dialog reopens on its stored image,
        with the display name (or the stem of the file name) prefilled. For a
        wrapper without a display name the prefill throws after the marking. */
    method OnEdit(index: nat) returns (threw: bool)
      requires index < |files|
      modifies this`files, this`state
      ensures var edited := old(files)[index].file.(isEdited := true);
              && files == old(files)[index := old(files)[index].(file := edited)]
              && (threw <==> EditPrefill(old(files)[index]) == PrefillThrows)
              && (threw ==> state == old(state))
              && (!threw ==>
                    state == old(state).(fileInfo := Some(edited), errorMessage := None, hideSpinner := true,
                                         fileNameError := None, newFileName := EditPrefill(old(files)[index]).name,
                                         fileToCrop := Some(edited.mainUrl), crop := true,
                                         showCropper := !old(state).showCropper))
    {
      var entry := files[index];
      var edited := entry.file.(isEdited := true);
      files := files[index := entry.(file := edited)];
      var prefill := EditPrefill(entry);
      if prefill == PrefillThrows {
        return true;
      }
      state := state.(fileInfo := Some(edited), errorMessage := None, hideSpinner := true,
                      fileNameError := None, newFileName := prefill.name);
      // reCrop(file)
      state := state.(fileToCrop := Some(edited.mainUrl), crop := true);
      ToggleModal();
      threw := false;
    }

    /** `rotate(position)` */
    method Rotate(position: Option<string>)
      modifies this`cropperCalls
      ensures cropperCalls == old(cropperCalls) + [RotateBy(RotateAngle(position))]
    {
      cropperCalls := cropperCalls + [RotateBy(RotateAngle(position))];
    }

    /** `resetCropper()` */
    method ResetCropper()
      modifies this`cropperCalls
      ensures cropperCalls == old(cropperCalls) + [Reset]
    {
      cropperCalls := cropperCalls + [Reset];
    }

    /** `onMovment(e)`: the cropper reports its crop box. */
    method OnMovement(newWidth: real, newHeight: real)
      modifies this`width, this`height
      ensures width == newWidth && height == newHeight
    {
      width := newWidth;
      height := newHeight;
    }

    /** `onRecordChange(event)`: the typed name replaces `newFileName`, and a
        pending name error is cleared. */
    method OnRecordChange(value: string)
      modifies this`state
      ensures state == old(state).(newFileName := Some(value),
                                   fileNameError := if old(state).fileNameError.Some? && old(state).fileNameError.value != ""
                                                    then None else old(state).fileNameError)
    {
      var fileNameError := state.fileNameError;
      if fileNameError.Some? && fileNameError.value != "" {
        fileNameError := None;
      }
      state := state.(newFileName := Some(value), fileNameError := fileNameError);
    }

    /** The `files.map(...)` loop of `saveImage`, splicing `files` in place. */
    method SpliceUid(u: Uid)
      modifies this`files
      ensures files == SkipSplice(old(files), u)
    {
      var list := files;
      ghost var orig := list;
      var len := |list|;
      var k := 0;
      // `j` is the position in the original list of the entry now at `list[k]`
      ghost var j := 0;
      // `m` is how much of `list` the loop has looked at
      ghost var m := 0;
      while k < len
        invariant 0 <= k <= len == |orig|
        invariant 0 <= j <= |orig|
        invariant |list| <= len
        invariant m == if k <= |list| then k else |list|
        invariant list[m..] == orig[j..]
        invariant list[..m] + SkipSplice(orig[j..], u) == SkipSplice(orig, u)
        decreases len - k
      {
        if k < |list| {
          assert list[k] == orig[j];
          if EntryUid(list[k]) == u {
            ghost var before := list;
            list := list[..k] + list[k + 1..];
            SkipSpliceMatchStep(orig, j, before[..k], u);
            if j + 1 < |orig| {
              assert list[..k + 1] == before[..k] + [orig[j + 1]];
              assert list[k + 1..] == orig[j + 2..];
              j := j + 2;
              m := k + 1;
            } else {
              assert list == before[..k];
              j := j + 1;
              m := k;
            }
          } else {
            SkipSpliceKeepStep(orig, j, list[..k], u);
            assert list[..k + 1] == list[..k] + [orig[j]];
            j := j + 1;
            m := k + 1;
          }
        }
        k := k + 1;
      }
      assert list[|list|..] == [];
      files := list;
    }

    /** `saveImage()`. A missing or empty name (see `NameCheckIntended`) only
        sets the name error. Otherwise every entry of the edited file is
        spliced out of `files`, the renamed entry is emitted last (or alone in
        a single-file field), and the dialog closes. `cropperMounted` says
        whether the cropper is there; then the committed file refers to the
        cropped blob `blobToken`, else to itself. `thumbUrl` and `mainUrl` are
        the object urls created for it. */
    method SaveImage(cropperMounted: bool, blobToken: nat, thumbUrl: string, mainUrl: string)
      requires state.fileInfo.Some?
      modifies this`files, this`state, this`emitted, this`cropperCalls
      ensures var check := NameCheckIntended(old(state).newFileName);
              var info := old(state).fileInfo.value;
              var committed := info.(originFileObj := if cropperMounted then CroppedBlob(blobToken) else RawFile(info.uid),
                                     thumbUrl := thumbUrl, mainUrl := mainUrl);
              && (check == NameRequired ==>
                    files == old(files) && emitted == old(emitted) && cropperCalls == old(cropperCalls)
                    && state == old(state).(fileNameError := Some(fileNameRequired)))
              && (check.NameGiven? ==>
                    files == SplicedFiles(old(files), info)
                    && emitted == old(emitted) + [CommittedList(files, Renamed(committed, check.name), isSingle)]
                    && cropperCalls == old(cropperCalls) +
                         (if cropperMounted then [CroppedCanvas(MaintainDimensions(height, width, MaxSize))] else [])
                    && state == old(state).(fileInfo := None, newFileName := None, loading := false,
                                            showCropper := !old(state).showCropper))
    {
      var info := state.fileInfo.value;
      var check := NameCheckIntended(state.newFileName);
      if check == NameRequired {
        state := state.(fileNameError := Some(fileNameRequired));
        return;
      }
      var name := check.name;
      SpliceUid(info.uid);
      state := state.(loading := true);
      // `files.indexOf(fileInfo)` and its splice
      files := RemoveFirst(files, Bare(info));
      var blob := RawFile(info.uid);
      if cropperMounted {
        cropperCalls := cropperCalls + [CroppedCanvas(MaintainDimensions(height, width, MaxSize))];
        blob := CroppedBlob(blobToken);
      }
      var committed := info.(originFileObj := blob, thumbUrl := thumbUrl, mainUrl := mainUrl);
      // `newFileName ? newFileName : fileInfo.name` with a non-empty name
      var newFile := Renamed(committed, name);
      emitted := emitted + [CommittedList(files, newFile, isSingle)];
      state := state.(fileInfo := None, newFileName := None, loading := false);
      ToggleModal();
    }
  }
}
