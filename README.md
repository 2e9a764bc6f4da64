# Uploader core, modelled in Dafny

This project models the file-upload core of an admin web application. It
covers four parts:

- the **staging controller** (`customApp/components/Upload/index.js`). It
  validates a selected file against a size limit and a list of accepted mime
  types, and stages it either directly or after a crop dialog. It lets the user
  rename and re-crop staged images, and hands every new list of staged entries
  to the parent form.
- the **upload store** (`customApp/components/Uploads/Upload.js`). It owns the
  list of files keyed by uid and reacts to the transfer callbacks: start,
  progress, success and error. It also removes files in two phases, with a
  veto hook. It keeps one progress-timer slot.
- the **list view's decisions** (`customApp/components/Uploads/UploadList.js`):
  the extension of a url, whether a thumbnail is an image, each item's label,
  its error tooltip, and whether it offers the edit icon.
- the **storage orchestrator** (`helpers/firebase/index.js`). It turns a list of
  staged entries into stored records. An entry that already lives under the
  target namespace is recorded as it is. Any other entry is uploaded under a
  generated name `<stem>-<timestamp>-<index>.<ext>`, and its progress entry is
  registered first. The call returns one record per entry, in input order,
  or fails as a whole.

It also models two naming helpers: `customApp/helpers/fileHelper.js` and
`customApp/helpers/functionHelper.js`.

A staged entry is a tagged union `Entry = Bare(file) | Renamed(file, fileName)`
(`entities.dfy`). It stands for the JavaScript shape "a file, or a wrapper
`{file, fileName}`". The JavaScript built-ins the code relies on are written
out in `strings.dfy`:

- `split`, `join`, `pop` and `[0]`;
- `indexOf` on arrays and strings, `lastIndexOf` and `substring`;
- lowercasing, as ASCII only;
- number-to-decimal-string conversion.

Objects whose fields the source updates in place are classes:

| class | fields |
|---|---|
| `UploadComponent.Upload` | the list, the timer slot, logs of the calls it makes |
| `FileUploadComponent.FileUpload` | `props.files`, the React state as a `ViewState` record, the crop box, logs |
| `Firebase.ProgressMsg` | the shared progress dictionary |

Each method's `ensures` clauses give its whole new state. The pure functions
carry the properties. Lemmas relate the functions to each other.

Where the code and the design description differ, the model follows the code:
- **Thumbnail test.** The test uses the extension of the *generated* name, which
  is the extension of the normalised name. It does not use the override name
  `useFileName`.
- **Progress key.** The progress dictionary is keyed by the final storage name,
  which is the override when one is given. With an override, several uploads
  share one key and one path (`Firebase.OverrideSharesPath`).
- **Percent not monotonic.** `onProgress` stores whatever percent it is given.
  The model does not promise that the percent is non-decreasing.

## Model

| member | source | states |
|---|---|---|
| FileHelper.GetFileName | customApp/helpers/fileHelper.js:16-19 | the generated name `<part before the first dot>-<clock>-<index>.<part after the last dot>`; its properties are the `GetFileName…` lemmas below |
| FileHelper.GetFileNameSegments | customApp/helpers/fileHelper.js:16-19 | the generated name starts with the part before the first dot plus `-`, ends with `-<index>.<ext>`, and keeps the extension after the last dot |
| FileHelper.StemHasNoDot | customApp/helpers/fileHelper.js:16-19 | the generated name is a dot-free stem, one dot, and the original's last segment |
| FileHelper.GetFileNameHasOneDot | customApp/helpers/fileHelper.js:16-19 | the generated name contains exactly one dot |
| FileHelper.GetFileNameWithoutDot | customApp/helpers/fileHelper.js:16-19 | a name without a dot becomes `name-ts-i.name` (split and pop both give the whole name) |
| FileHelper.GetFileNameDropsMiddle | customApp/helpers/fileHelper.js:16-19 | for `a.m.z` only `a` and `z` survive: the middle segments are lost |
| FileHelper.GetFileNameDistinct | customApp/helpers/fileHelper.js:16-19 | names generated for different indices differ, whatever the names and clock readings |
| FileHelper.IsImageExtension | customApp/helpers/fileHelper.js:21-23 | true exactly for `jpg`, `png` and `jpeg`, case-sensitively |
| FunctionHelper.SetFileName | customApp/helpers/functionHelper.js:3-12 | the display name of a renamed entry; its properties are the `SetFileName…` lemmas below |
| FunctionHelper.SetFileNameCases | customApp/helpers/functionHelper.js:3-12 | the chosen name is kept exactly when it has a dot and ends in jpeg/jpg/png; otherwise the file's own last extension is appended after a dot |
| FunctionHelper.SetFileNameHasDot | customApp/helpers/functionHelper.js:3-12 | the resulting display name always contains a dot |
| FunctionHelper.SetFileNameKeepsOtherExtension | customApp/helpers/functionHelper.js:3-12 | a chosen `stem.pdf` keeps `.pdf` and gets the file's extension appended |
| FunctionHelper.SetFileNameIsCaseSensitive | customApp/helpers/functionHelper.js:6 | `x.JPG` is not recognised as kept and gets an extension appended |
| FunctionHelper.SetFileNameIdempotent | customApp/helpers/functionHelper.js:3-12 | for an image source, applying the rule twice gives the same name as once |
| UploadList.ExtensionMatch | customApp/components/Uploads/UploadList.js:19 | the result is "" exactly when the regular expression has no match, and otherwise is the suffix from the matched dot |
| UploadList.ExtensionAtUnique | customApp/components/Uploads/UploadList.js:19 | the anchored regular expression can match from at most one position |
| UploadList.Extname | customApp/components/Uploads/UploadList.js:12-20 | "" for an empty url; otherwise "" or a dot followed by no dot, slash or backslash; never a `#` or `?` |
| UploadList.ExtnameAfterLastSlash | customApp/components/Uploads/UploadList.js:16-17 | only the text after the last `/` decides the extension |
| UploadList.ExtnameDropsQuery | customApp/components/Uploads/UploadList.js:18 | a query or fragment after the file part is ignored |
| UploadList.ExtnameOfFileUrl | customApp/components/Uploads/UploadList.js:12-20 | `dir/stem.ext?query` has extension `.ext` |
| UploadList.IsImageFileType | customApp/components/Uploads/UploadList.js:21-22 | true exactly for a non-empty mime type starting with `image/` |
| UploadList.IsImageUrl | customApp/components/Uploads/UploadList.js:23-42 | whether a list item shows as an image; its properties are the `IsImageUrl…` lemmas and `ImageMimeTypeIsImage` |
| UploadList.ImageMimeTypeIsImage | customApp/components/Uploads/UploadList.js:24-26 | an image mime type makes the item an image whatever its urls |
| UploadList.IsImageUrlOfFileUrl | customApp/components/Uploads/UploadList.js:23-42 | a plain url `dir/stem.ext?q` is an image exactly when `.ext` ends, ignoring case, in one of the eight image endings |
| UploadList.IsImageUrlOfDataUrl | customApp/components/Uploads/UploadList.js:29-36 | a `data:` url is an image exactly when it is `data:image/…` or its extension has an image ending |
| UploadList.IsImageUrlWithoutExtension | customApp/components/Uploads/UploadList.js:37-41 | a plain url without an extension counts as an image |
| UploadList.ItemLabel | customApp/components/Uploads/UploadList.js:217-242 | a wrapper with a non-empty display name shows `setFileName` of it, which contains a dot; any other item shows the file's own name |
| UploadList.ErrorMessage | customApp/components/Uploads/UploadList.js:311-316 | the tooltip is a non-empty string response, else the error's non-empty status text, else the locale text, so it is never empty when that text is not |
| UploadList.ShowsEditIcon | customApp/components/Uploads/UploadList.js:285-302 | the edit icon shows exactly on a picture card that is not uploading, with the icon enabled, for a file whose own last extension is exactly jpg, jpeg or png |
| UploadComponent.FindIndex | customApp/components/Uploads/Upload.js:83-86 | -1 exactly when no entry has the uid; otherwise the first position holding it |
| UploadComponent.FindIndexAppend | customApp/components/Uploads/Upload.js:87-91 | pushing an entry keeps the first occurrence of every uid already present, and a new uid is found at the old length |
| UploadComponent.GetFileItem | customApp/components/Uploads/Upload.js:128 | none exactly when no entry has the uid; otherwise the first listed entry with that uid |
| UploadComponent.WithoutUid | customApp/components/Uploads/Upload.js:188 | the result holds every listed entry of another uid and no entry of this one, and is no longer than the list; an absent uid leaves the list as it is |
| UploadComponent.WithoutUidConcat | customApp/components/Uploads/Upload.js:188 | dropping a uid works piece by piece: the result on `a + b` is the result on `a` followed by the result on `b`, and a single entry stays exactly when its uid differs, so the order of what stays is kept |
| UploadComponent.WithoutUidCounts | customApp/components/Uploads/Upload.js:188 | every entry of another uid stays as many times as it occurred |
| UploadComponent.RemoveFileItem | customApp/components/Uploads/Upload.js:188-189 | none exactly when nothing has the uid; otherwise the list without it, strictly shorter |
| UploadComponent.RemovedIsNotFound | customApp/components/Uploads/Upload.js:143-146 | after a removal the file's uid is never found again, so later callbacks for it do nothing |
| UploadComponent.FileToObject | customApp/components/Uploads/Upload.js:78 | a selected file enters with its uid, name, size and type, percent 0, and itself as the original |
| UploadComponent.FilesToObjects | customApp/components/Uploads/Upload.js:237 | every file of the batch is converted, in order |
| UploadComponent.Upserted | customApp/components/Uploads/Upload.js:81-91 | the new item replaces the first entry with its uid, or is pushed last; all other entries are unchanged |
| UploadComponent.UniqBy | customApp/components/Uploads/Upload.js:236-239 | the merge of the old list and the new selection, one entry per uid; its properties are `UniqByFirstOccurrences` and `UniqByDistinct` |
| UploadComponent.UniqByFirstOccurrences | customApp/components/Uploads/Upload.js:236-239 | the merged list is exactly the first entry of each uid of the input, in input order, and covers every uid |
| UploadComponent.UniqByDistinct | customApp/components/Uploads/Upload.js:236-239 | the merged list has pairwise distinct uids |
| UploadComponent.DerivedFileList | customApp/components/Uploads/Upload.js:49-56 | a controlled store mirrors `props.fileList`, or `[]` when it is absent; an uncontrolled one keeps its state |
| UploadComponent.WithoutUidOfMarked | customApp/components/Uploads/Upload.js:177-188 | marking the entry `removed` does not change which entries the uid removal drops |
| UploadComponent.RemovalLeavesNoEntry | customApp/components/Uploads/Upload.js:188-194 | removing a listed entry always removes something, and afterwards its uid is absent |
| UploadComponent.Upload.constructor | customApp/components/Uploads/Upload.js:64-71 | the list is `props.fileList`, else `defaultFileList`, else empty; no timer runs |
| UploadComponent.Upload.ReceiveProps | customApp/components/Uploads/Upload.js:49-56 | the state takes the derived list in controlled mode and is otherwise unchanged |
| UploadComponent.Upload.OnChange | customApp/components/Uploads/Upload.js:205-214 | an uncontrolled store takes the new list; the parent is told whenever it listens |
| UploadComponent.Upload.ClearProgressTimer | customApp/components/Uploads/Upload.js:249-251 | the interval in the slot is stopped, after which none runs |
| UploadComponent.Upload.ComponentWillUnmount | customApp/components/Uploads/Upload.js:73-75 | unmounting leaves no interval running |
| UploadComponent.Upload.AutoUpdateProgress | customApp/components/Uploads/Upload.js:103-116 | the old interval is stopped before the new handle is stored, so exactly one runs |
| UploadComponent.Upload.OnStart | customApp/components/Uploads/Upload.js:77-101 | the uploading item is upserted and emitted; a synthetic-progress timer starts only without FormData |
| UploadComponent.Upload.OnProgress | customApp/components/Uploads/Upload.js:141-154 | a listed file gets only its percent changed, to the reported number (fractions included), and the change is emitted; an unlisted one changes nothing |
| UploadComponent.Upload.OnSuccess | customApp/components/Uploads/Upload.js:118-139 | the timer is cleared even for a removed file; a listed file becomes done with the response |
| UploadComponent.Upload.OnError | customApp/components/Uploads/Upload.js:156-171 | the timer is cleared even for a removed file; a listed file records error and response and becomes error |
| UploadComponent.Upload.HandleRemove | customApp/components/Uploads/Upload.js:173-196 | the hook sees the item marked removed; a veto restores the list and emits nothing; otherwise the list without the uid is emitted |
| UploadComponent.Upload.HandleManualRemove | customApp/components/Uploads/Upload.js:198-203 | the transfer is aborted first when the uploader is mounted, then the removal proceeds |
| UploadComponent.Upload.BeforeUpload | customApp/components/Uploads/Upload.js:228-247 | no hook or a non-false, non-promise result lets the upload proceed; a promise is handed back; `false` emits the uid-merged list and stops |
| FileUploadComponent.ErrorReporting | customApp/components/Upload/index.js:65-71 | the mime message starts with its fixed text and names every accepted type; the size message starts with its fixed text, contains the limit as printed and ends in `mb` |
| FileUploadComponent.MessageFor | customApp/components/Upload/index.js:116-122 | a non-empty override wins, otherwise the default message of that kind |
| FileUploadComponent.MessageForNeverEmpty | customApp/components/Upload/index.js:116-122 | the message set is never empty |
| FileUploadComponent.SizeOk | customApp/components/Upload/index.js:100 | the size test, on the size rounded to hundredths of a MiB; its meaning is `SizeOkBound` |
| FileUploadComponent.SizeOkBound | customApp/components/Upload/index.js:100 | for any limit, fractional ones included, the rounded size test accepts exactly the files smaller than `h + 0.5` hundredths of a MiB, `h` being the limit in whole hundredths rounded down |
| FileUploadComponent.SizeOkWholeBound | customApp/components/Upload/index.js:100 | a whole-megabyte limit `n` accepts exactly the files smaller than `n + 0.005` MiB |
| FileUploadComponent.HalfMegabyteLimit | customApp/components/Upload/index.js:100 | with a limit of 0.5, exactly the files of at most 529 530 bytes pass |
| FileUploadComponent.DefaultSizeLimit | customApp/components/Upload/index.js:559 | with the default limit of 5 MB, exactly the files of at most 5 248 122 bytes pass |
| FileUploadComponent.TypeOk | customApp/components/Upload/index.js:104 | the type test is exact membership in `accept` |
| FileUploadComponent.ValidationError | customApp/components/Upload/index.js:98-109 | no error exactly when both tests pass; a wrong type always shows the mime message, even when the size fails too |
| FileUploadComponent.RotateAngle | customApp/components/Upload/index.js:236-239 | -90 exactly for `left` or no argument, +90 otherwise |
| FileUploadComponent.MaintainDimensions | customApp/components/Upload/index.js:246-255 | for any crop box, fractional sides included, only the height is set when the height is larger, else only the width; that side is the larger side capped at the maximum, and never exceeds either |
| FileUploadComponent.RemoveAt | customApp/components/Upload/index.js:85-91 | the entry at the index is dropped and the others keep their order |
| FileUploadComponent.WithoutEntryUid | customApp/components/Upload/index.js:271-276 | the entries of other uids, and only those |
| FileUploadComponent.WithoutEntryUidConcat | customApp/components/Upload/index.js:271-276 | the uid filter on `a + b` is the filter on `a` followed by the filter on `b`, and a single entry stays exactly when its uid differs, so the order of what stays is kept |
| FileUploadComponent.WithoutEntryUidCounts | customApp/components/Upload/index.js:271-276 | every entry of another uid stays as many times as it occurred |
| FileUploadComponent.SkipSplice | customApp/components/Upload/index.js:271-276 | what splicing inside `map` leaves; its properties are `SkipSpliceIsFilter` and `SkipSpliceKeepsAdjacentDuplicate` |
| FileUploadComponent.SkipSpliceIsFilter | customApp/components/Upload/index.js:271-276 | with distinct uids, splicing inside `map` removes exactly the entries of the edited file |
| FileUploadComponent.SkipSpliceKeepsAdjacentDuplicate | customApp/components/Upload/index.js:271-276 | without distinct uids, the entry that slides into a spliced place is skipped and survives |
| FileUploadComponent.RemoveFirst | customApp/components/Upload/index.js:278-281 | an absent entry leaves the list as it is; otherwise exactly its first occurrence is cut out, the rest keeping its order |
| FileUploadComponent.CommittedList | customApp/components/Upload/index.js:290-298 | the renamed entry is last; a single-file field holds only it, otherwise the spliced list precedes it |
| FileUploadComponent.CommitReplacesEntry | customApp/components/Upload/index.js:271-298 | with distinct uids, committing drops every entry of the edited file, appends the renamed entry, and keeps uids distinct |
| FileUploadComponent.WithoutEntryUidUnique | customApp/components/Upload/index.js:271-276 | dropping a uid keeps the remaining uids distinct |
| FileUploadComponent.EditPrefill | customApp/components/Upload/index.js:215-220 | a wrapper's non-empty name is prefilled; a bare file gets its stem before the last dot, or null when no dot follows the first character; a wrapper with an empty name throws |
| FileUploadComponent.LastIndexIsStem | customApp/components/Upload/index.js:217-220 | the stem is empty only when no dot follows the first character |
| FileUploadComponent.NameCheckAsWritten | customApp/components/Upload/index.js:264 | the written check crashes exactly on a null name |
| FileUploadComponent.NameCheckIntended | customApp/components/Upload/index.js:264-270 | a missing or empty name asks for a name; any other name is used as typed, never crashing |
| FileUploadComponent.NameChecksAgreeOnTypedNames | customApp/components/Upload/index.js:264 | on a typed name the written and intended checks agree |
| FileUploadComponent.DotPngEditCrashes | customApp/components/Upload/index.js:207-221 | a bare `.png` offers the edit icon, is prefilled with null, and then crashes the written name test where the intended one asks for a name |
| FileUploadComponent.FileUpload.constructor | customApp/components/Upload/index.js:10-29 | the initial state, crop box 0 by 0, nothing emitted |
| FileUploadComponent.FileUpload.ToggleModal | customApp/components/Upload/index.js:34-38 | only `showCropper` flips |
| FileUploadComponent.FileUpload.TogglePreview | customApp/components/Upload/index.js:43-52 | `showPreview` flips and closing forgets the previewed url |
| FileUploadComponent.FileUpload.ToggleCrop | customApp/components/Upload/index.js:54-58 | only `crop` flips |
| FileUploadComponent.FileUpload.SetMessage | customApp/components/Upload/index.js:116-122 | only the displayed message changes, to the override or default of that kind |
| FileUploadComponent.FileUpload.ReceiveFiles | customApp/components/Upload/index.js:546 | a new `files` prop replaces the staged list and nothing else |
| FileUploadComponent.FileUpload.ValidateFile | customApp/components/Upload/index.js:98-109 | accepts exactly a listed type within the size limit; the state shows the winning message |
| FileUploadComponent.FileUpload.CropperNeeded | customApp/components/Upload/index.js:129-140 | the dialog opens on the object url with the name before the last dot prefilled |
| FileUploadComponent.FileUpload.BeforeUpload | customApp/components/Upload/index.js:164-183 | always false; a rejected file emits nothing and leaves only the winning message and the cleared selection, name and name error; an accepted image opens the crop dialog on its object url with the stem prefilled; any other accepted file is staged alone or last, with a pointer to itself as blob; every other field of the state is unchanged |
| FileUploadComponent.FileUpload.OnPreview | customApp/components/Upload/index.js:190-200 | the preview shows the file's main url and name |
| FileUploadComponent.FileUpload.OnRemove | customApp/components/Upload/index.js:85-91 | emits the list without the entry at the index; `files` is untouched |
| FileUploadComponent.FileUpload.OnEdit | customApp/components/Upload/index.js:207-229 | the entry is marked edited in place, then the dialog reopens with the prefill; a wrapper with an empty name throws after the marking |
| FileUploadComponent.FileUpload.Rotate | customApp/components/Upload/index.js:236-239 | the cropper is rotated by the angle of the argument |
| FileUploadComponent.FileUpload.ResetCropper | customApp/components/Upload/index.js:76-78 | the cropper is reset |
| FileUploadComponent.FileUpload.OnMovement | customApp/components/Upload/index.js:241-244 | the crop box takes the reported width and height, which may be fractional |
| FileUploadComponent.FileUpload.OnRecordChange | customApp/components/Upload/index.js:332-338 | the typed name replaces the prefill and a pending name error is cleared |
| FileUploadComponent.FileUpload.SpliceUid | customApp/components/Upload/index.js:271-276 | the loop leaves exactly what splicing inside `map` leaves |
| FileUploadComponent.FileUpload.SaveImage | customApp/components/Upload/index.js:261-330 | a missing or empty name only sets the name error; otherwise the edited file's entries are spliced out, the renamed entry with the new blob and urls is emitted last (or alone), and the dialog closes |
| Firebase.Normalize | helpers/firebase/index.js:73-77 | the normalised name; its properties are `NormalizeProperties` |
| Firebase.NormalizeProperties | helpers/firebase/index.js:73-77 | normalising replaces spaces by `_` and lowercases; the result has no space or upper-case letter, and normalising is idempotent |
| Firebase.NewFileName | helpers/firebase/index.js:68-72 | a display name is derived exactly for wrapped entries |
| Firebase.PlanEntry | helpers/firebase/index.js:67-121 | what the per-entry callback does with one entry; its properties are `SkipRule`, `SkippedRecord`, `UploadedRecord`, `ThumbRule` and `StorageNamesDistinct` |
| Firebase.SkipRule | helpers/firebase/index.js:83-85 | an entry is recorded without upload exactly when it is bare and its storage path contains `base/`; a renamed entry always uploads |
| Firebase.SkippedRecord | helpers/firebase/index.js:85-95 | a skipped entry keeps its name and path, copies `id` and `created_at` when present, and its thumb is under `base_thumb/` after the last `/` of its path |
| Firebase.UploadedRecord | helpers/firebase/index.js:96-120 | a renamed entry, or one not stored under `base/`, goes to `base/<name>`, the name generated from the normalised name unless overridden; it is recorded under the display name; `id` is the uid only with `addUid`; `created_at` is copied exactly when present |
| Firebase.ThumbRule | helpers/firebase/index.js:79-95 | a thumb is recorded exactly when the normalised name's lowercased last extension is jpg, png or jpeg |
| Firebase.RenamedRecordMatchesLabel | helpers/firebase/index.js:108-111 | a renamed entry is recorded under the same name the list view shows for it |
| Firebase.StorageNamesDistinct | helpers/firebase/index.js:78 | without an override, uploads from different positions never share a storage name |
| Firebase.TransfersOf | helpers/firebase/index.js:39 | the transfers a batch starts, never more than its plans; its properties are `TransfersOfConcat` and `TransfersOfShape` |
| Firebase.TransfersOfConcat | helpers/firebase/index.js:67-107 | the transfers of a batch split in two are those of the first part followed by those of the second |
| Firebase.TransfersOfShape | helpers/firebase/index.js:80-107 | a batch of skips transfers nothing; a batch of uploads puts each blob at `base/<storage name>`, in order; every transfer comes from an upload plan |
| Firebase.Plans | helpers/firebase/index.js:67-121 | one plan per entry, each made by the per-entry callback with the entry's position as index |
| Firebase.Touch | helpers/firebase/index.js:32-38 | the key's entry exists with the given name and keeps its old progress; other keys are untouched |
| Firebase.ProgressAfter | helpers/firebase/index.js:32-38 | registering the uploads of a batch never drops a progress entry, and every upload of the batch has one |
| Firebase.ProgressAfterFrame | helpers/firebase/index.js:32-38 | keys no upload of the call uses keep their progress entries |
| Firebase.ProgressAfterNames | helpers/firebase/index.js:32-38 | with distinct storage names, each upload's progress entry carries its own display name |
| Firebase.PlansProgressNames | helpers/firebase/index.js:100-107 | without an override, every upload of a call gets a progress entry holding its display name |
| Firebase.OverrideSharesPath | helpers/firebase/index.js:97-99 | with an override, every upload of the call goes to the same path |
| Firebase.UploadFilePromise | helpers/firebase/index.js:22-57 | the progress entry holds the display name before the blob is put at `base/fileName`; the outcome is the transfer's |
| Firebase.EntryRecord | helpers/firebase/index.js:67-121 | the record built field by field is the planned one; a skip neither transfers nor touches the progress map |
| Firebase.OnFileUpload | helpers/firebase/index.js:59-123 | every upload is started and registered in order; success exactly when every started transfer succeeds, then one record per entry in input order |

## Left out

- **Rendering.** The JSX of the three components, `Renderer.js` and the styles in `style/` are left out. They are view code with no decisions beyond those modelled in `UploadList`.
- **Browser services.** They are not modelled, and their results enter as parameters:
  - `window.URL.createObjectURL` gives `objectUrl`, `thumbUrl` and `mainUrl`;
  - the cropper's `getCroppedCanvas().toBlob` gives `blobToken`, and `cropperMounted` says whether a cropper is there;
  - `intl.formatMessage` gives `fileNameRequired`;
  - `ImageTypes` gives `imageTypes`.
- **FileReader thumbnails.** The thumbnail generation in `componentDidUpdate` of the list view is not modelled; it is browser I/O.
- **JSON responses.** `JSON.parse` of a string response is not modelled. Responses enter already decoded.
- **Helpers from a module that is not shown.** `fileToObject`, `getFileItem`, `removeFileItem` and `genPercentAdd` come from `./utils`, which is not part of this model. They are given the meaning of the antd utilities of the same name, as described in `upload_store.dfy`.
- **Synthetic progress.** The ticks of the synthetic-progress interval and the percentages they compute are not modelled. Only the single timer slot and the set of running intervals are. Percentages reported by real progress events are real numbers in the model.
- **Spinner reset.** The two-second `setTimeout` that resets `hideSpinner` after `onEdit` is not modelled; it is a timer. `hideSpinner` stays true in the model.
- **Floating point in general.** Crop box sides, percentages and the size limit are modelled as exact real numbers, not as binary doubles. The size test needs no such allowance: dividing a byte count by 2^20 is exact in binary, and `toFixed(2)` rounds that exact value with ties going up, which is what `SizeOk` computes.
- **Float rounding of progress.** The `toFixed(1)` progress percentage is not modelled.
- **Firebase services.** Initialisation, the storage `put`, its progress events and `Reporting.Error` are not modelled. A transfer is its path and blob, and its outcome is the parameter `transferOk`.
- **`imgToBlob`.** This XMLHttpRequest I/O helper is not modelled.
- **Clock.** `new Date().getTime()` is not read. `OnFileUpload` receives one clock reading per entry.
- **Async interleaving.** The callbacks are run one after another. Each callback runs its synchronous part, so every upload of a call is started and registered before any result is known. The model gives the same records, in order, and the same all-or-nothing outcome.
- **Object identity.** It is approximated by equality. `files.indexOf(fileInfo)` compares the bare entry by value, and the store finds items by uid.
- UploadComponent.Upload: the store's list holds files only. Wrapper entries in the store, and uid matching through wrappers in `removeFileItem`, are not modelled.
- UploadComponent.Upload: `'fileList' in props` is a constant of the instance (`controlled`); a component switching between modes is not modelled.
- UploadComponent.Upload.HandleRemove: requires a valid index, because the list view only calls it for the item it shows at that index. A file object not in the list is not modelled.
- FileUploadComponent.FileUpload.OnEdit: requires a valid index for the same reason.
- FileUploadComponent.FileUpload.SaveImage: requires a selected file. The dialog's save button only exists after `beforeUpload` or `onEdit` has set `fileInfo`. It uses the intended name check, not the crashing one described under Findings.
- **Missing `useFileName`.** `null` (the default) and `""` for `useFileName` are both modelled as `""`, since the code only tests its truthiness.
- Firebase.PlanEntry: a wrapper whose `fileName` is `undefined` or `null` is modelled with `""`. `onEdit` and the list view only test its truthiness, but `onFileUpload` calls `setFileName` on it (helpers/firebase/index.js:69-70), whose `split` (customApp/helpers/functionHelper.js:5) throws a `TypeError` there; the model gives `"." + <extension>` instead. Wrappers made by `saveImage` (customApp/components/Upload/index.js:290-293, 314-317) always carry a non-empty name.
- **Lowercasing.** `toLowerCase` (helpers/firebase/index.js:73-77 and 79-82) and the case-insensitive `/…/i` test of the list view (customApp/components/Uploads/UploadList.js:31) are modelled on ASCII letters only; other upper-case letters are left as they are.
- FileUploadComponent.ErrorReporting: `${size}` is JavaScript's number-to-text conversion, which is not modelled; the printed limit `sizeText` is a constant of the component next to the number `size`.
- **Re-crop.** `reCrop` is folded into `OnEdit`, its only caller. `onFileDrop` and `onDragDrop` only record a drag style for rendering, so they are not modelled.

## Findings

| source | as written | input that shows it | evidently intended | confidence | as-written member | corrected member |
|---|---|---|---|---|---|---|
| customApp/components/Upload/index.js:264 | `newFileName.length === 0` is evaluated on a prefill that `onEdit` (lines 215-220) sets to `null` when the name has no stem, so `saveImage` throws a `TypeError` | a staged bare file named `.png`: its edit icon shows, `onEdit` prefills `null`, and saving without typing a name crashes | the "file name required" error, as for an empty name | not executed | FileUploadComponent.NameCheckAsWritten, FileUploadComponent.DotPngEditCrashes | FileUploadComponent.NameCheckIntended |
