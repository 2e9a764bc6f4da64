/** The values the uploader passes around.

    JavaScript leaves a property undefined where this model uses the empty
    string: the url, thumbnail url, object url, storage path (`fullName`),
    record id and creation date of a file are all strings, and "" stands for
    "absent", which is also the value the source's truthiness tests treat as
    absent. */
module Entities {

  datatype Option<T> = None | Some(value: T)

  datatype Result<T> = Success(value: T) | Failure

  type Uid = string

  /** `file.status`. `Unset` is the undefined status a freshly selected file has
      before the list store starts uploading it. */
  datatype Status = Unset | Uploading | Done | Error | Removed

  /** What `originFileObj` refers to: the selected file itself, a blob exported
      by the cropper (known only by an opaque token), or nothing yet. */
  datatype Blob = NoBlob | RawFile(owner: Uid) | CroppedBlob(token: nat)

  /** `file.response`, after the list store's attempt to decode it. */
  datatype Response = NoResponse | TextResponse(text: string) | ObjectResponse

  /** The error object attached by a failed transfer. */
  datatype TransferError = TransferError(statusText: string)

  /** One file as the components see it: the browser's file object with the
      fields the components add to it (status, progress, urls, storage data). */
  datatype UploadFile = UploadFile(
    uid: Uid,
    name: string,
    mimeType: string,
    size: nat,
    status: Status,
    percent: real,
    response: Response,
    error: Option<TransferError>,
    thumbUrl: string,
    url: string,
    mainUrl: string,
    isEdited: bool,
    originFileObj: Blob,
    fullName: string,
    id: string,
    createdAt: string)

  /** An element of the staged list: a bare file, or the `{file, fileName}`
      wrapper carrying a display name the user chose. */
  datatype Entry = Bare(file: UploadFile) | Renamed(file: UploadFile, fileName: string)

  /** The uid of the file an entry holds. */
  function EntryUid(e: Entry): Uid
  {
    e.file.uid
  }

  /** At most one entry per uid. */
  ghost predicate UniqueUids(entries: seq<Entry>)
  {
    forall i, j :: 0 <= i < j < |entries| ==> EntryUid(entries[i]) != EntryUid(entries[j])
  }
}
