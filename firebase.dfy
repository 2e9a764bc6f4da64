/** helpers/firebase/index.js: storing a staged list of entries. Each entry is
    either recognised as already stored under `base/` and recorded as it is, or
    uploaded under a generated storage name; the caller receives one record per
    entry, in order, or a failure when any transfer fails.

    The clock, the storage service and its progress events are outside this
    model: the clock readings and the outcome of each transfer are parameters,
    and a transfer is reported as the path and blob it would put. */
module Firebase {
  import opened Strings
  import opened Entities
  import opened FileHelper
  import opened FunctionHelper
  import UploadList

  /** The object built for each entry: `{name, path, thumb?, id?, created_at?}`. */
  datatype Record = Record(name: string, path: string, thumb: Option<string>, id: Option<string>, createdAt: Option<string>)

  /** `progressMsg[fileName]`: the display name and the last progress text. */
  datatype Progress = Progress(name: Option<string>, progress: Option<string>)

  /** A `put` of a blob at a storage path. */
  datatype Transfer = Transfer(path: string, blob: Blob)

  /** What the per-entry callback does: record a stored file as it is, or upload
      the blob under `storageName` and record that. */
  datatype Plan =
    | SkipUpload(record: Record)
    | DoUpload(storageName: string, blob: Blob, displayName: string, record: Record)

  // ---------------------------------------------------------------------------
  // naming
  // ---------------------------------------------------------------------------

  /** `s.split(' ').join('_').toLowerCase()` */
  function Normalize(s: string): string
  {
    Lower(Join(Split(s, ' '), "_"))
  }

  /** Normalising replaces every space by `_` and lowercases; the result has no
      space and no upper-case letter, and normalising again changes nothing. */
  lemma NormalizeProperties(s: string)
    ensures Normalize(s) == Lower(Replace(s, ' ', '_'))
    ensures ' ' !in Normalize(s)
    ensures forall k :: 0 <= k < |Normalize(s)| ==> !IsUpper(Normalize(s)[k])
    ensures Normalize(Normalize(s)) == Normalize(s)
  {
    SplitJoinIsReplace(s, ' ', '_');
    var t := Normalize(s);
    assert "_" == ['_'];
    LowerIsLower(Replace(s, ' ', '_'));
    assert ' ' !in t by {
      forall k | 0 <= k < |t| ensures t[k] != ' ' {
        assert Replace(s, ' ', '_')[k] != ' ';
      }
    }
    SplitWithoutSeparator(t, ' ');
  }

  /** `newFileName`: `setFileName(file, file.file)` for a renamed entry. */
  function NewFileName(e: Entry): (r: Option<string>)
    ensures r.Some? <==> e.Renamed?
  {
    if e.Renamed? then Some(SetFileName(e.fileName, e.file.name)) else None
  }

  /** The storage path prefix test `file.fullName && file.fullName.indexOf(`${base}/`) !== -1`. */
  predicate StoredUnder(f: UploadFile, base: string)
  {
    f.fullName != "" && IndexOfString(f.fullName, base + "/") != -1
  }

  /** The per-entry callback of `onFileUpload`, for the entry at `index` with
      clock reading `timestamp`. `useFileName` of "" stands for no override. */
  function PlanEntry(base: string, e: Entry, index: nat, timestamp: nat, addUid: bool, useFileName: string): Plan
  {
    var newFileName := NewFileName(e);
    var f := e.file;
    var originFile := Normalize(if newFileName.Some? then newFileName.value else f.name);
    var generated := GetFileName(originFile, timestamp, index);
    var thumbWanted := IsImageExtension(Lower(LastSegment(generated, '.')));
    var createdAt := if f.createdAt != "" then Some(f.createdAt) else None;
    if StoredUnder(f, base) && newFileName.None? then
      SkipUpload(Record(
        f.name, f.fullName,
        if thumbWanted then Some(base + "_thumb/thumb_" + LastSegment(f.fullName, '/')) else None,
        if f.id != "" then Some(f.id) else None,
        createdAt))
    else
      var fileName := if useFileName != "" then useFileName else generated;
      var display := if newFileName.Some? then newFileName.value else originFile;
      DoUpload(fileName, f.originFileObj, display, Record(
        display, base + "/" + fileName,
        if thumbWanted then Some(base + "_thumb/thumb_" + fileName) else None,
        if addUid then Some(f.uid) else None,
        createdAt))
  }

  /** The skip rule: an entry is recorded without upload exactly when it is a
      bare file whose storage path contains `base/`. A renamed entry is always
      uploaded. */
  lemma SkipRule(base: string, e: Entry, index: nat, timestamp: nat, addUid: bool, useFileName: string)
    ensures PlanEntry(base, e, index, timestamp, addUid, useFileName).SkipUpload? <==>
              e.Bare? && e.file.fullName != "" && Contains(e.file.fullName, base + "/")
    ensures e.Renamed? ==> PlanEntry(base, e, index, timestamp, addUid, useFileName).DoUpload?
  {
    IndexOfStringFound(e.file.fullName, base + "/");
  }

  /** A skipped entry keeps its name and storage path, and copies `id` and
      `created_at` when present. */
  lemma SkippedRecord(base: string, e: Entry, index: nat, timestamp: nat, addUid: bool, useFileName: string)
    requires PlanEntry(base, e, index, timestamp, addUid, useFileName).SkipUpload?
    ensures var r := PlanEntry(base, e, index, timestamp, addUid, useFileName).record;
            && r.name == e.file.name && r.path == e.file.fullName
            && (r.id.Some? <==> e.file.id != "") && (r.id.Some? ==> r.id.value == e.file.id)
            && (r.createdAt.Some? <==> e.file.createdAt != "") && (r.createdAt.Some? ==> r.createdAt.value == e.file.createdAt)
            && (r.thumb.Some? ==> r.thumb.value == base + "_thumb/thumb_" + LastSegment(e.file.fullName, '/'))
  {
  }

  /** An uploaded entry is stored at `base/<name>`, where the name is generated
      from the normalised (renamed or original) name unless overridden; it is
      recorded under the unnormalised display name of a renamed entry, or the
      normalised original name; `id` is the uid only with `addUid`. */
  lemma UploadedRecord(base: string, e: Entry, index: nat, timestamp: nat, addUid: bool, useFileName: string)
    requires e.Renamed? || !StoredUnder(e.file, base)
    ensures var p := PlanEntry(base, e, index, timestamp, addUid, useFileName);
            var named := if e.Renamed? then SetFileName(e.fileName, e.file.name) else e.file.name;
            && p.storageName == (if useFileName != "" then useFileName else GetFileName(Normalize(named), timestamp, index))
            && p.record.path == base + "/" + p.storageName
            && p.record.name == p.displayName
            && p.displayName == (if e.Renamed? then named else Normalize(named))
            && p.blob == e.file.originFileObj
            && (p.record.id.Some? <==> addUid) && (addUid ==> p.record.id.value == e.file.uid)
            && (p.record.createdAt.Some? <==> e.file.createdAt != "")
            && (p.record.createdAt.Some? ==> p.record.createdAt.value == e.file.createdAt)
            && (p.record.thumb.Some? ==> p.record.thumb.value == base + "_thumb/thumb_" + p.storageName)
  {
  }

  /** A thumbnail is recorded exactly when the extension of the (normalised)
      name is jpg, png or jpeg; the generated name keeps that extension. */
  lemma ThumbRule(base: string, e: Entry, index: nat, timestamp: nat, addUid: bool, useFileName: string)
    ensures var named := if e.Renamed? then SetFileName(e.fileName, e.file.name) else e.file.name;
            PlanEntry(base, e, index, timestamp, addUid, useFileName).record.thumb.Some? <==>
              IsImageExtension(Lower(LastSegment(Normalize(named), '.')))
  {
    var named := if e.Renamed? then SetFileName(e.fileName, e.file.name) else e.file.name;
    GetFileNameSegments(Normalize(named), timestamp, index);
  }

  /** The recorded display name of a renamed entry is the label the list view
      shows for it. */
  lemma RenamedRecordMatchesLabel(base: string, f: UploadFile, fileName: string, index: nat, timestamp: nat,
                                  addUid: bool, useFileName: string)
    requires fileName != ""
    ensures PlanEntry(base, Renamed(f, fileName), index, timestamp, addUid, useFileName).record.name
            == UploadList.ItemLabel(Renamed(f, fileName))
  {
  }

  /** Without an override, two uploads from different positions never share a
      storage name (and so never share a path or a progress entry). */
  lemma StorageNamesDistinct(base: string, e1: Entry, i1: nat, t1: nat, e2: Entry, i2: nat, t2: nat, addUid: bool)
    requires i1 != i2
    requires e1.Renamed? || !StoredUnder(e1.file, base)
    requires e2.Renamed? || !StoredUnder(e2.file, base)
    ensures PlanEntry(base, e1, i1, t1, addUid, "").storageName != PlanEntry(base, e2, i2, t2, addUid, "").storageName
  {
    var n1 := Normalize(if e1.Renamed? then SetFileName(e1.fileName, e1.file.name) else e1.file.name);
    var n2 := Normalize(if e2.Renamed? then SetFileName(e2.fileName, e2.file.name) else e2.file.name);
    GetFileNameDistinct(n1, t1, i1, n2, t2, i2);
  }

  // ---------------------------------------------------------------------------
  // the whole list
  // ---------------------------------------------------------------------------

  /** The plan for every entry, with its position as index. */
  function Plans(base: string, files: seq<Entry>, timestamps: seq<nat>, addUid: bool, useFileName: string): (ps: seq<Plan>)
    requires |timestamps| == |files|
    ensures |ps| == |files|
    ensures forall i :: 0 <= i < |files| ==> ps[i] == PlanEntry(base, files[i], i, timestamps[i], addUid, useFileName)
  {
    seq(|files|, i requires 0 <= i < |files| => PlanEntry(base, files[i], i, timestamps[i], addUid, useFileName))
  }

  /** The transfers a run of plans starts, in order. */
  function TransfersOf(ps: seq<Plan>, base: string): (ts: seq<Transfer>)
    ensures |ts| <= |ps|
  {
    if ps == [] then []
    else
      var last := ps[|ps| - 1];
      TransfersOf(ps[..|ps| - 1], base) +
        if last.DoUpload? then [Transfer(base + "/" + last.storageName, last.blob)] else []
  }

  /** Transfers are collected plan by plan, so a batch split in two starts the
      transfers of its first part before those of its second. */
  lemma {:induction false} TransfersOfConcat(a: seq<Plan>, b: seq<Plan>, base: string)
    ensures TransfersOf(a + b, base) == TransfersOf(a, base) + TransfersOf(b, base)
    decreases |b|
  {
    if b == [] {
      assert a + b == a;
    } else {
      var c := b[..|b| - 1];
      assert (a + b)[..|a + b| - 1] == a + c;
      assert (a + b)[|a + b| - 1] == b[|b| - 1];
      TransfersOfConcat(a, c, base);
    }
  }

  /** A batch of skips transfers nothing; a batch of uploads transfers each
      blob to `base/<storage name>`, in order; every transfer comes from an
      upload plan. */
  lemma {:induction false} TransfersOfShape(ps: seq<Plan>, base: string)
    ensures (forall k :: 0 <= k < |ps| ==> ps[k].SkipUpload?) ==> TransfersOf(ps, base) == []
    ensures (forall k :: 0 <= k < |ps| ==> ps[k].DoUpload?) ==>
              |TransfersOf(ps, base)| == |ps| &&
              forall k :: 0 <= k < |ps| ==> TransfersOf(ps, base)[k] == Transfer(base + "/" + ps[k].storageName, ps[k].blob)
    ensures forall t :: t in TransfersOf(ps, base) ==>
              exists k :: 0 <= k < |ps| && ps[k].DoUpload? && t == Transfer(base + "/" + ps[k].storageName, ps[k].blob)
  {
    if ps != [] {
      var init := ps[..|ps| - 1];
      TransfersOfShape(init, base);
      assert forall k :: 0 <= k < |init| ==> init[k] == ps[k];
    }
  }

  /** `progressMsg[fileName] ||= {}` followed by `progressMsg[fileName].name = name`. */
  function Touch(m: map<string, Progress>, key: string, name: string): (r: map<string, Progress>)
    ensures key in r && r[key].name == Some(name)
    ensures key in m ==> r[key].progress == m[key].progress
    ensures forall k :: k != key ==> (k in r <==> k in m) && (k in m ==> r[k] == m[k])
  {
    m[key := Progress(Some(name), if key in m then m[key].progress else None)]
  }

  /** The progress map after the uploads among `ps` have started, in order:
      no entry is ever dropped, and every upload has one. */
  function ProgressAfter(m: map<string, Progress>, ps: seq<Plan>): (r: map<string, Progress>)
    ensures forall k :: k in m ==> k in r
    ensures forall i :: 0 <= i < |ps| && ps[i].DoUpload? ==> ps[i].storageName in r
  {
    if ps == [] then m
    else
      var init := ps[..|ps| - 1];
      var before := ProgressAfter(m, init);
      assert forall i :: 0 <= i < |init| ==> init[i] == ps[i];
      var last := ps[|ps| - 1];
      if last.DoUpload? then Touch(before, last.storageName, last.displayName) else before
  }

  /** One more plan adds its transfer, if any, at the end. */
  lemma TransfersOfStep(ps: seq<Plan>, i: nat, base: string)
    requires i < |ps|
    ensures TransfersOf(ps[..i + 1], base) ==
              TransfersOf(ps[..i], base) + if ps[i].DoUpload? then [Transfer(base + "/" + ps[i].storageName, ps[i].blob)] else []
  {
    assert ps[..i + 1][..i] == ps[..i];
  }

  /** One more plan touches its storage name, if it uploads. */
  lemma ProgressAfterStep(m: map<string, Progress>, ps: seq<Plan>, i: nat)
    requires i < |ps|
    ensures ProgressAfter(m, ps[..i + 1]) ==
              if ps[i].DoUpload? then Touch(ProgressAfter(m, ps[..i]), ps[i].storageName, ps[i].displayName)
              else ProgressAfter(m, ps[..i])
  {
    assert ps[..i + 1][..i] == ps[..i];
  }

  /** Keys that no upload uses keep their progress entry. */
  lemma {:induction false} ProgressAfterFrame(m: map<string, Progress>, ps: seq<Plan>, key: string)
    requires forall i :: 0 <= i < |ps| && ps[i].DoUpload? ==> ps[i].storageName != key
    ensures key in ProgressAfter(m, ps) <==> key in m
    ensures key in m ==> ProgressAfter(m, ps)[key] == m[key]
    decreases |ps|
  {
    if ps != [] {
      var init := ps[..|ps| - 1];
      assert forall i :: 0 <= i < |init| ==> init[i] == ps[i];
      ProgressAfterFrame(m, init, key);
    }
  }

  /** When the storage names of the uploads are pairwise distinct, each upload's
      progress entry carries its own display name. */
  lemma {:induction false} ProgressAfterNames(m: map<string, Progress>, ps: seq<Plan>, i: nat)
    requires i < |ps| && ps[i].DoUpload?
    requires forall a, b :: 0 <= a < b < |ps| && ps[a].DoUpload? && ps[b].DoUpload? ==> ps[a].storageName != ps[b].storageName
    ensures ps[i].storageName in ProgressAfter(m, ps)
    ensures ProgressAfter(m, ps)[ps[i].storageName].name == Some(ps[i].displayName)
    decreases |ps|
  {
    var init := ps[..|ps| - 1];
    assert forall k :: 0 <= k < |init| ==> init[k] == ps[k];
    if i < |ps| - 1 {
      ProgressAfterNames(m, init, i);
    }
  }

  /** The uploads of one call of `onFileUpload` without an override each get a
      progress entry holding their display name. */
  lemma PlansProgressNames(base: string, files: seq<Entry>, timestamps: seq<nat>, addUid: bool,
                           m: map<string, Progress>, i: nat)
    requires |timestamps| == |files|
    requires i < |files| && Plans(base, files, timestamps, addUid, "")[i].DoUpload?
    ensures var ps := Plans(base, files, timestamps, addUid, "");
            && ps[i].storageName in ProgressAfter(m, ps)
            && ProgressAfter(m, ps)[ps[i].storageName].name == Some(ps[i].displayName)
  {
    var ps := Plans(base, files, timestamps, addUid, "");
    forall a, b | 0 <= a < b < |ps| && ps[a].DoUpload? && ps[b].DoUpload?
      ensures ps[a].storageName != ps[b].storageName
    {
      StorageNamesDistinct(base, files[a], a, timestamps[a], files[b], b, timestamps[b], addUid);
    }
    ProgressAfterNames(m, ps, i);
  }

  /** With an override every upload of the call goes to the same path. */
  lemma OverrideSharesPath(base: string, files: seq<Entry>, timestamps: seq<nat>, addUid: bool, useFileName: string)
    requires |timestamps| == |files| && useFileName != ""
    ensures forall i :: 0 <= i < |files| && Plans(base, files, timestamps, addUid, useFileName)[i].DoUpload? ==>
              Plans(base, files, timestamps, addUid, useFileName)[i].record.path == base + "/" + useFileName
  {
  }

  // ---------------------------------------------------------------------------
  // the helper object
  // ---------------------------------------------------------------------------

  /** The caller's `progressMsg` object, shared with every upload of a call. */
  class ProgressMsg {
    var entries: map<string, Progress>

    constructor (entries: map<string, Progress>)
      ensures this.entries == entries
    {
      this.entries := entries;
    }
  }

  /** `uploadFilePromise(base, fileName, file, origionalName, ref, progressMsg)`
      up to the start of the transfer: the progress entry of `fileName` exists
      and holds the display name before the blob is put at `base/fileName`.
      `transferOk` is the outcome the storage service reports. */
  method UploadFilePromise(progressMsg: ProgressMsg, base: string, fileName: string, blob: Blob,
                           originalName: string, transferOk: bool)
    returns (ok: bool, transfer: Transfer)
    modifies progressMsg
    ensures progressMsg.entries == Touch(old(progressMsg.entries), fileName, originalName)
    ensures transfer == Transfer(base + "/" + fileName, blob)
    ensures ok == transferOk
  {
    var progress: Option<string> := None;
    if fileName in progressMsg.entries {
      progress := progressMsg.entries[fileName].progress;
    }
    progressMsg.entries := progressMsg.entries[fileName := Progress(Some(originalName), progress)];
    transfer := Transfer(base + "/" + fileName, blob);
    ok := transferOk;
  }

  /** The asynchronous callback for one entry: resolve the names, then either
      record the stored file or upload it and record the upload. */
  method EntryRecord(progressMsg: ProgressMsg, base: string, entry: Entry, index: nat, timestamp: nat,
                     addUid: bool, useFileName: string, transferOk: bool)
    returns (ok: bool, fileObj: Record, transfer: Option<Transfer>)
    modifies progressMsg
    ensures var p := PlanEntry(base, entry, index, timestamp, addUid, useFileName);
            && fileObj == p.record
            && (p.SkipUpload? ==> ok && transfer.None? && progressMsg.entries == old(progressMsg.entries))
            && (p.DoUpload? ==>
                  ok == transferOk && transfer == Some(Transfer(base + "/" + p.storageName, p.blob))
                  && progressMsg.entries == Touch(old(progressMsg.entries), p.storageName, p.displayName))
  {
    var newFileName: Option<string> := None;
    var file := entry.file;
    if entry.Renamed? {
      newFileName := Some(SetFileName(entry.fileName, entry.file.name));
    }
    var originFile := if newFileName.Some? then newFileName.value else file.name;
    originFile := Normalize(originFile);
    var fileName := GetFileName(originFile, timestamp, index);
    var extension := Lower(LastSegment(fileName, '.'));
    var stored := StoredUnder(file, base);
    if stored && newFileName.None? {
      var thumb := LastSegment(file.fullName, '/');
      fileObj := Record(file.name, file.fullName, None, None, None);
      if file.id != "" {
        fileObj := fileObj.(id := Some(file.id));
      }
      if file.createdAt != "" {
        fileObj := fileObj.(createdAt := Some(file.createdAt));
      }
      if IsImageExtension(extension) {
        fileObj := fileObj.(thumb := Some(base + "_thumb/thumb_" + thumb));
      }
      ok, transfer := true, None;
    } else {
      if useFileName != "" {
        fileName := useFileName;
      }
      var display := if newFileName.Some? then newFileName.value else originFile;
      var t;
      ok, t := UploadFilePromise(progressMsg, base, fileName, file.originFileObj, display, transferOk);
      transfer := Some(t);
      fileObj := Record(display, base + "/" + fileName, None, None, None);
      if IsImageExtension(extension) {
        fileObj := fileObj.(thumb := Some(base + "_thumb/thumb_" + fileName));
      }
      if addUid {
        fileObj := fileObj.(id := Some(file.uid));
      }
    }
    if file.createdAt != "" {
      fileObj := fileObj.(createdAt := Some(file.createdAt));
    }
  }

  /** The records of a run of plans, in order. */
  ghost predicate RecordsOf(records: seq<Record>, ps: seq<Plan>)
  {
    |records| == |ps| && forall k :: 0 <= k < |ps| ==> records[k] == ps[k].record
  }

  /** Every upload among `ps` reports success. */
  ghost predicate UploadsSucceed(ps: seq<Plan>, oks: seq<bool>)
    requires |oks| >= |ps|
  {
    forall k :: 0 <= k < |ps| && ps[k].DoUpload? ==> oks[k]
  }

  lemma RecordsOfStep(records: seq<Record>, ps: seq<Plan>, i: nat, r: Record)
    requires i < |ps| && RecordsOf(records, ps[..i]) && r == ps[i].record
    ensures RecordsOf(records + [r], ps[..i + 1])
  {
  }

  lemma UploadsSucceedStep(ps: seq<Plan>, oks: seq<bool>, i: nat)
    requires i < |ps| <= |oks|
    ensures UploadsSucceed(ps[..i + 1], oks) <==> UploadsSucceed(ps[..i], oks) && (ps[i].DoUpload? ==> oks[i])
  {
    assert forall k :: 0 <= k < i ==> ps[..i + 1][k] == ps[..i][k];
  }

  /** `onFileUpload(base, files, ref, progressMsg, addUid, useFileName)`. Every
      entry's callback runs, so every upload is started and its progress entry
      set; the result is the records in input order when every transfer
      succeeds, and a failure otherwise. `timestamps[i]` is the clock reading
      of entry `i` and `transferOk[i]` the outcome of its transfer, if any. */
  method OnFileUpload(progressMsg: ProgressMsg, base: string, files: seq<Entry>, addUid: bool, useFileName: string,
                      timestamps: seq<nat>, transferOk: seq<bool>)
    returns (result: Result<seq<Record>>, transfers: seq<Transfer>)
    requires |timestamps| == |files| && |transferOk| == |files|
    modifies progressMsg
    ensures var ps := Plans(base, files, timestamps, addUid, useFileName);
            && transfers == TransfersOf(ps, base)
            && progressMsg.entries == ProgressAfter(old(progressMsg.entries), ps)
            && (result.Success? <==> forall i :: 0 <= i < |files| && ps[i].DoUpload? ==> transferOk[i])
            && (result.Success? ==> |result.value| == |files| && forall i :: 0 <= i < |files| ==> result.value[i] == ps[i].record)
  {
    ghost var ps := Plans(base, files, timestamps, addUid, useFileName);
    ghost var m0 := progressMsg.entries;
    var records: seq<Record> := [];
    var allOk := true;
    transfers := [];
    for i := 0 to |files|
      invariant RecordsOf(records, ps[..i])
      invariant transfers == TransfersOf(ps[..i], base)
      invariant progressMsg.entries == ProgressAfter(m0, ps[..i])
      invariant allOk == UploadsSucceed(ps[..i], transferOk)
    {
      ghost var p := ps[i];
      assert p == PlanEntry(base, files[i], i, timestamps[i], addUid, useFileName);
      var ok, fileObj, transfer := EntryRecord(progressMsg, base, files[i], i, timestamps[i], addUid, useFileName, transferOk[i]);
      RecordsOfStep(records, ps, i, fileObj);
      TransfersOfStep(ps, i, base);
      ProgressAfterStep(m0, ps, i);
      UploadsSucceedStep(ps, transferOk, i);
      records := records + [fileObj];
      if transfer.Some? {
        transfers := transfers + [transfer.value];
      }
      allOk := allOk && ok;
    }
    assert ps[..|files|] == ps;
    if allOk {
      result := Success(records);
    } else {
      result := Failure;
    }
  }
}
