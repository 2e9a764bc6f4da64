/** customApp/components/Uploads/Upload.js: the list store behind the upload
    widget. It owns the list of files keyed by uid, reacts to the transfer
    callbacks (start, progress, success, error), removes files in two phases
    and forwards every change to the parent.

    The helpers it imports from `./utils` are not part of this model; they are
    given the meaning of the antd utilities of the same name:
    `getFileItem` is the first entry with the file's uid, `removeFileItem` is the
    list without the entries of that uid (or nothing when none was removed), and
    `fileToObject` copies a selected file with `percent` 0 and `originFileObj`
    pointing at the file itself. */
module UploadComponent {
  import opened Entities

  // ---------------------------------------------------------------------------
  // pure list helpers
  // ---------------------------------------------------------------------------

  /** `findIndex(list, ({uid}) => uid === u)`: the first position holding `u`, or -1. */
  function FindIndex(list: seq<UploadFile>, u: Uid): (r: int)
    ensures -1 <= r < |list|
    ensures r == -1 <==> forall k :: 0 <= k < |list| ==> list[k].uid != u
    ensures r >= 0 ==> list[r].uid == u && forall k :: 0 <= k < r ==> list[k].uid != u
  {
    if list == [] then -1
    else if list[0].uid == u then 0
    else
      var r := FindIndex(list[1..], u);
      assert forall k :: 1 <= k < |list| ==> list[k] == list[1..][k - 1];
      if r == -1 then -1 else r + 1
  }

  /** Appending an element does not move the first occurrence of a uid already present. */
  lemma FindIndexAppend(list: seq<UploadFile>, x: UploadFile, u: Uid)
    ensures FindIndex(list, u) >= 0 ==> FindIndex(list + [x], u) == FindIndex(list, u)
    ensures FindIndex(list, u) == -1 && x.uid == u ==> FindIndex(list + [x], u) == |list|
    ensures FindIndex(list, u) == -1 && x.uid != u ==> FindIndex(list + [x], u) == -1
  {
    var s := list + [x];
    assert forall k :: 0 <= k < |list| ==> s[k] == list[k];
    assert s[|list|] == x;
  }

  /** `getFileItem(file, list)`: the first entry with the file's uid. */
  function GetFileItem(list: seq<UploadFile>, u: Uid): (r: Option<UploadFile>)
    ensures r.None? <==> forall k :: 0 <= k < |list| ==> list[k].uid != u
    ensures r.Some? ==> r.value.uid == u && r.value in list
    ensures r.Some? ==> exists i :: 0 <= i < |list| && list[i] == r.value && forall k :: 0 <= k < i ==> list[k].uid != u
  {
    var i := FindIndex(list, u);
    if i == -1 then None else Some(list[i])
  }

  /** The list without any entry of uid `u`, in order. */
  function WithoutUid(list: seq<UploadFile>, u: Uid): (r: seq<UploadFile>)
    ensures |r| <= |list|
    ensures forall k :: 0 <= k < |r| ==> r[k].uid != u && r[k] in list
    ensures forall x :: x in list && x.uid != u ==> x in r
    ensures (forall k :: 0 <= k < |list| ==> list[k].uid != u) ==> r == list
  {
    if list == [] then []
    else
      var rest := WithoutUid(list[1..], u);
      assert forall x :: x in list[1..] ==> x in list;
      if list[0].uid == u then rest else [list[0]] + rest
  }

  /** Dropping a uid works piece by piece, so it keeps the order of what stays:
      the result on a concatenation is the concatenation of the results. */
  lemma {:induction false} WithoutUidConcat(a: seq<UploadFile>, b: seq<UploadFile>, u: Uid)
    ensures WithoutUid(a + b, u) == WithoutUid(a, u) + WithoutUid(b, u)
    ensures forall x: UploadFile :: WithoutUid([x], u) == if x.uid == u then [] else [x]
  {
    if a != [] {
      assert (a + b)[1..] == a[1..] + b;
      WithoutUidConcat(a[1..], b, u);
    } else {
      assert a + b == b;
    }
    forall x: UploadFile
      ensures WithoutUid([x], u) == if x.uid == u then [] else [x]
    {
      assert [x][1..] == [];
    }
  }

  /** Every entry of another uid stays as often as it occurred. */
  lemma {:induction false} WithoutUidCounts(list: seq<UploadFile>, u: Uid, x: UploadFile)
    requires x.uid != u
    ensures multiset(WithoutUid(list, u))[x] == multiset(list)[x]
  {
    if list != [] {
      var t := WithoutUid(list[1..], u);
      WithoutUidCounts(list[1..], u, x);
      assert list == [list[0]] + list[1..];
      assert multiset(list) == multiset{list[0]} + multiset(list[1..]);
      if list[0].uid != u {
        assert WithoutUid(list, u) == [list[0]] + t;
        assert multiset(WithoutUid(list, u)) == multiset{list[0]} + multiset(t);
      }
    }
  }

  /** `removeFileItem(file, list)`: the list without the file's uid, or `None`
      when that would remove nothing. */
  function RemoveFileItem(list: seq<UploadFile>, u: Uid): (r: Option<seq<UploadFile>>)
    ensures r.None? <==> forall k :: 0 <= k < |list| ==> list[k].uid != u
    ensures r.Some? ==> r.value == WithoutUid(list, u) && |r.value| < |list|
  {
    if FindIndex(list, u) == -1 then None
    else
      WithoutUidShrinks(list, u);
      Some(WithoutUid(list, u))
  }

  lemma {:induction false} WithoutUidShrinks(list: seq<UploadFile>, u: Uid)
    requires exists k :: 0 <= k < |list| && list[k].uid == u
    ensures |WithoutUid(list, u)| < |list|
    decreases |list|
  {
    if list[0].uid != u {
      var k :| 0 <= k < |list| && list[k].uid == u;
      assert list[1..][k - 1].uid == u;
      WithoutUidShrinks(list[1..], u);
    }
  }

  /** Once removed, a file is never found again: later progress, success and
      error callbacks for it fall into their "removed" branch. */
  lemma RemovedIsNotFound(list: seq<UploadFile>, u: Uid)
    ensures FindIndex(WithoutUid(list, u), u) == -1
    ensures GetFileItem(WithoutUid(list, u), u).None?
  {
  }

  /** `fileToObject(file)`: the list entry of a freshly selected file. */
  function FileToObject(f: UploadFile): (r: UploadFile)
    ensures r.uid == f.uid && r.name == f.name && r.size == f.size && r.mimeType == f.mimeType
    ensures r.percent == 0.0 && r.originFileObj == RawFile(f.uid)
  {
    f.(percent := 0.0, originFileObj := RawFile(f.uid))
  }

  /** `fileList.map(fileToObject)` */
  function FilesToObjects(batch: seq<UploadFile>): (r: seq<UploadFile>)
    ensures |r| == |batch|
    ensures forall k :: 0 <= k < |batch| ==> r[k] == FileToObject(batch[k])
  {
    seq(|batch|, k requires 0 <= k < |batch| => FileToObject(batch[k]))
  }

  /** The list `onStart` emits: `item` replaces the first entry with its uid, or
      is pushed at the end when there is none. */
  function Upserted(list: seq<UploadFile>, item: UploadFile): (r: seq<UploadFile>)
    ensures FindIndex(list, item.uid) == -1 ==> |r| == |list| + 1 && FindIndex(r, item.uid) == |list|
    ensures FindIndex(list, item.uid) >= 0 ==> |r| == |list| && FindIndex(r, item.uid) == FindIndex(list, item.uid)
    ensures r[FindIndex(r, item.uid)] == item
    ensures forall k :: 0 <= k < |list| && k != FindIndex(list, item.uid) ==> r[k] == list[k]
  {
    var i := FindIndex(list, item.uid);
    if i == -1 then
      FindIndexAppend(list, item, item.uid);
      list + [item]
    else
      FindIndexIs(list[i := item], item.uid, i);
      list[i := item]
  }

  /** The first position holding `u` is characterised by the entries before it. */
  lemma FindIndexIs(list: seq<UploadFile>, u: Uid, i: nat)
    requires i < |list| && list[i].uid == u
    requires forall k :: 0 <= k < i ==> list[k].uid != u
    ensures FindIndex(list, u) == i
  {
  }

  /** `uniqBy(list, item => item.uid)`: keeps the first entry of each uid.
      Written here from the back: the last entry survives only when its uid is
      not already in the result for the entries before it. */
  function UniqBy(list: seq<UploadFile>): seq<UploadFile>
    decreases |list|
  {
    if list == [] then []
    else
      var p := UniqBy(list[..|list| - 1]);
      var x := list[|list| - 1];
      if FindIndex(p, x.uid) >= 0 then p else p + [x]
  }

  /** Every entry of `r` is the first occurrence of its uid in `list`. */
  ghost predicate PicksFirst(list: seq<UploadFile>, r: seq<UploadFile>)
  {
    forall k :: 0 <= k < |r| ==> 0 <= FindIndex(list, r[k].uid) && r[k] == list[FindIndex(list, r[k].uid)]
  }

  /** The entries of `r` come in the order of their first occurrences in `list`. */
  ghost predicate InInputOrder(list: seq<UploadFile>, r: seq<UploadFile>)
  {
    forall i, j :: 0 <= i < j < |r| ==> FindIndex(list, r[i].uid) < FindIndex(list, r[j].uid)
  }

  /** Every uid of `list` occurs in `r`. */
  ghost predicate CoversUids(list: seq<UploadFile>, r: seq<UploadFile>)
  {
    forall k :: 0 <= k < |list| ==> FindIndex(r, list[k].uid) >= 0
  }

  /** The result of `uniqBy` is exactly the first occurrence of each uid of the
      input, in input order. */
  lemma {:induction false} UniqByFirstOccurrences(list: seq<UploadFile>)
    ensures PicksFirst(list, UniqBy(list))
    ensures InInputOrder(list, UniqBy(list))
    ensures CoversUids(list, UniqBy(list))
    decreases |list|
  {
    if list != [] {
      var init := list[..|list| - 1];
      var x := list[|list| - 1];
      UniqByFirstOccurrences(init);
      assert list == init + [x];
      if FindIndex(UniqBy(init), x.uid) >= 0 {
        UniqByStepKnown(init, x, UniqBy(init));
      } else {
        UniqByStepNew(init, x, UniqBy(init));
      }
    }
  }

  /** An appended entry whose uid is already in the result leaves it as it is. */
  lemma UniqByStepKnown(init: seq<UploadFile>, x: UploadFile, p: seq<UploadFile>)
    requires PicksFirst(init, p) && InInputOrder(init, p) && CoversUids(init, p)
    requires FindIndex(p, x.uid) >= 0
    ensures PicksFirst(init + [x], p) && InInputOrder(init + [x], p) && CoversUids(init + [x], p)
  {
    var list := init + [x];
    assert forall m :: 0 <= m < |init| ==> list[m] == init[m];
    forall u | FindIndex(init, u) >= 0 ensures FindIndex(list, u) == FindIndex(init, u) {
      FindIndexAppend(init, x, u);
    }
    assert list[|init|] == x;
  }

  /** An appended entry with a new uid is appended to the result. */
  lemma UniqByStepNew(init: seq<UploadFile>, x: UploadFile, p: seq<UploadFile>)
    requires PicksFirst(init, p) && InInputOrder(init, p) && CoversUids(init, p)
    requires FindIndex(p, x.uid) == -1
    ensures PicksFirst(init + [x], p + [x]) && InInputOrder(init + [x], p + [x]) && CoversUids(init + [x], p + [x])
  {
    assert FindIndex(init, x.uid) == -1;
    UniqByStepNewPicks(init, x, p);
    UniqByStepNewOrder(init, x, p);
    UniqByStepNewCovers(init, x, p);
  }

  lemma UniqByStepNewPicks(init: seq<UploadFile>, x: UploadFile, p: seq<UploadFile>)
    requires PicksFirst(init, p)
    requires FindIndex(init, x.uid) == -1
    ensures PicksFirst(init + [x], p + [x])
  {
    var list := init + [x];
    var r := p + [x];
    FindIndexAppend(init, x, x.uid);
    forall k | 0 <= k < |r|
      ensures 0 <= FindIndex(list, r[k].uid) && r[k] == list[FindIndex(list, r[k].uid)]
    {
      if k < |p| {
        assert r[k] == p[k];
        FindIndexAppend(init, x, p[k].uid);
        assert list[FindIndex(init, p[k].uid)] == init[FindIndex(init, p[k].uid)];
      }
    }
  }

  lemma UniqByStepNewOrder(init: seq<UploadFile>, x: UploadFile, p: seq<UploadFile>)
    requires PicksFirst(init, p) && InInputOrder(init, p)
    requires FindIndex(init, x.uid) == -1
    ensures InInputOrder(init + [x], p + [x])
  {
    var list := init + [x];
    var r := p + [x];
    FindIndexAppend(init, x, x.uid);
    forall i, j | 0 <= i < j < |r| ensures FindIndex(list, r[i].uid) < FindIndex(list, r[j].uid) {
      assert r[i] == p[i];
      FindIndexAppend(init, x, p[i].uid);
      if j < |p| {
        assert r[j] == p[j];
        FindIndexAppend(init, x, p[j].uid);
      }
    }
  }

  lemma UniqByStepNewCovers(init: seq<UploadFile>, x: UploadFile, p: seq<UploadFile>)
    requires CoversUids(init, p)
    ensures CoversUids(init + [x], p + [x])
  {
    var list := init + [x];
    var r := p + [x];
    forall k | 0 <= k < |list| ensures FindIndex(r, list[k].uid) >= 0 {
      if k < |init| {
        assert list[k] == init[k];
        FindIndexAppend(p, x, init[k].uid);
      } else {
        FindIndexAppend(p, x, x.uid);
      }
    }
  }

  /** Consequence: the merged list has pairwise distinct uids. */
  lemma UniqByDistinct(list: seq<UploadFile>)
    ensures forall i, j :: 0 <= i < j < |UniqBy(list)| ==> UniqBy(list)[i].uid != UniqBy(list)[j].uid
  {
    UniqByFirstOccurrences(list);
    var r := UniqBy(list);
    forall i, j | 0 <= i < j < |r| ensures r[i].uid != r[j].uid {
      assert FindIndex(list, r[i].uid) < FindIndex(list, r[j].uid);
    }
  }

  /** `getDerivedStateFromProps`: a controlled component mirrors
      `props.fileList || []`; otherwise the state is left alone (`null`). */
  function DerivedFileList(controlled: bool, propsFileList: Option<seq<UploadFile>>): (r: Option<seq<UploadFile>>)
    ensures r.Some? <==> controlled
    ensures controlled && propsFileList.Some? ==> r == propsFileList
    ensures controlled && propsFileList.None? ==> r == Some([])
  {
    if controlled then
      Some(if propsFileList.Some? then propsFileList.value else [])
    else None
  }

  // ---------------------------------------------------------------------------
  // the component
  // ---------------------------------------------------------------------------

  /** The argument of `onChange`: the file concerned and the whole new list. */
  datatype ChangeInfo = ChangeInfo(file: UploadFile, fileList: seq<UploadFile>)

  /** What the wrapped `props.beforeUpload` hook produced. */
  datatype HookResult = NoHook | ReturnedFalse | ReturnedPromise | ReturnedOther

  /** What the `beforeUpload` wrapper hands back to the transfer library:
      `true`, `false`, or the hook's promise. */
  datatype BeforeUploadOutcome = Proceed | Stop | AwaitHook

  /** The only interval handle the slot can be responsible for. */
  function SlotTimers(slot: Option<nat>): set<nat>
  {
    if slot.Some? then {slot.value} else {}
  }

  class Upload {
    /** `'fileList' in props`: the parent owns the list. */
    const controlled: bool
    /** `props.onChange` is given. */
    const hasOnChange: bool
    /** `props.onRemove` is a function (otherwise its value is the verdict). */
    const removeHookIsFunction: bool
    /** The transfer library instance is mounted (`this.upload`). */
    const hasUploader: bool
    /** `window.FormData` exists; without it progress is simulated by a timer. */
    const formDataSupported: bool

    /** `state.fileList` */
    var fileList: seq<UploadFile>
    /** `this.progressTimer`: the last interval handle stored, if any. */
    var progressTimer: Option<nat>
    /** The interval handles still running. */
    var liveTimers: set<nat>
    /** The handle the next `setInterval` returns. */
    var nextTimer: nat
    /** Every call of `props.onChange`, in order. */
    var changes: seq<ChangeInfo>
    /** Every call of `props.onRemove(file, index)`, in order. */
    var removeHookCalls: seq<(UploadFile, nat)>
    /** Every `this.upload.abort(file)`, by uid. */
    var aborted: seq<Uid>

    /** At most one synthetic-progress interval runs, and it is the one the
        slot holds, so clearing the slot stops every interval. */
    predicate Valid()
      reads this
    {
      liveTimers <= SlotTimers(progressTimer)
    }

    /** `fileList: props.fileList || props.defaultFileList || []` */
    constructor (controlled: bool, propsFileList: Option<seq<UploadFile>>, defaultFileList: Option<seq<UploadFile>>,
                 hasOnChange: bool, removeHookIsFunction: bool, hasUploader: bool, formDataSupported: bool)
      ensures Valid()
      ensures this.controlled == controlled && this.hasOnChange == hasOnChange
      ensures this.removeHookIsFunction == removeHookIsFunction
      ensures this.hasUploader == hasUploader && this.formDataSupported == formDataSupported
      ensures fileList == if propsFileList.Some? then propsFileList.value
                          else if defaultFileList.Some? then defaultFileList.value else []
      ensures progressTimer == None && liveTimers == {}
      ensures changes == [] && removeHookCalls == [] && aborted == []
    {
      this.controlled := controlled;
      this.hasOnChange := hasOnChange;
      this.removeHookIsFunction := removeHookIsFunction;
      this.hasUploader := hasUploader;
      this.formDataSupported := formDataSupported;
      fileList := if propsFileList.Some? then propsFileList.value
                  else if defaultFileList.Some? then defaultFileList.value else [];
      progressTimer := None;
      liveTimers := {};
      nextTimer := 0;
      changes := [];
      removeHookCalls := [];
      aborted := [];
    }

    /** New props arrive: `getDerivedStateFromProps` replaces the state's list
        in controlled mode only. */
    method ReceiveProps(propsFileList: Option<seq<UploadFile>>)
      requires Valid()
      modifies this
      ensures Valid()
      ensures DerivedFileList(controlled, propsFileList).Some? ==> fileList == DerivedFileList(controlled, propsFileList).value
      ensures DerivedFileList(controlled, propsFileList).None? ==> fileList == old(fileList)
      ensures progressTimer == old(progressTimer) && liveTimers == old(liveTimers) && nextTimer == old(nextTimer)
      ensures changes == old(changes) && removeHookCalls == old(removeHookCalls) && aborted == old(aborted)
    {
      var derived := DerivedFileList(controlled, propsFileList);
      if derived.Some? {
        fileList := derived.value;
      }
    }

    /** `onChange(info)`: a self-owned list takes the new list; the parent is
        told in every mode when it listens. */
    method OnChange(info: ChangeInfo)
      requires Valid()
      modifies this
      ensures Valid()
      ensures fileList == if controlled then old(fileList) else info.fileList
      ensures changes == old(changes) + if hasOnChange then [info] else []
      ensures progressTimer == old(progressTimer) && liveTimers == old(liveTimers) && nextTimer == old(nextTimer)
      ensures removeHookCalls == old(removeHookCalls) && aborted == old(aborted)
    {
      if !controlled {
        fileList := info.fileList;
      }
      if hasOnChange {
        changes := changes + [info];
      }
    }

    /** `clearProgressTimer()`: stops the interval in the slot. The slot keeps
        the stale handle, as `clearInterval` leaves the field alone. */
    method ClearProgressTimer()
      requires Valid()
      modifies this
      ensures Valid()
      ensures liveTimers == old(liveTimers) - SlotTimers(progressTimer)
      ensures liveTimers == {}
      ensures progressTimer == old(progressTimer) && nextTimer == old(nextTimer) && fileList == old(fileList)
      ensures changes == old(changes) && removeHookCalls == old(removeHookCalls) && aborted == old(aborted)
    {
      liveTimers := liveTimers - SlotTimers(progressTimer);
    }

    /** `componentWillUnmount()` */
    method ComponentWillUnmount()
      requires Valid()
      modifies this
      ensures Valid()
      ensures liveTimers == {}
      ensures progressTimer == old(progressTimer) && nextTimer == old(nextTimer) && fileList == old(fileList)
      ensures changes == old(changes) && removeHookCalls == old(removeHookCalls) && aborted == old(aborted)
    {
      ClearProgressTimer();
    }

    /** `autoUpdateProgress`: the old interval is stopped before a new one is
        stored in the slot. The ticks themselves are not modelled. */
    method AutoUpdateProgress()
      requires Valid()
      modifies this
      ensures Valid()
      ensures progressTimer == Some(old(nextTimer)) && liveTimers == {old(nextTimer)}
      ensures nextTimer == old(nextTimer) + 1
      ensures fileList == old(fileList)
      ensures changes == old(changes) && removeHookCalls == old(removeHookCalls) && aborted == old(aborted)
    {
      ClearProgressTimer();
      progressTimer := Some(nextTimer);
      liveTimers := liveTimers + {nextTimer};
      nextTimer := nextTimer + 1;
    }

    /** `onStart(file)`: the file enters the list as `uploading`, in place of an
        entry with the same uid or at the end. */
    method OnStart(file: UploadFile)
      requires Valid()
      modifies this
      ensures Valid()
      ensures var target := FileToObject(file).(status := Uploading);
              && fileList == (if controlled then old(fileList) else Upserted(old(fileList), target))
              && changes == old(changes) + if hasOnChange then [ChangeInfo(target, Upserted(old(fileList), target))] else []
      ensures formDataSupported ==>
                progressTimer == old(progressTimer) && liveTimers == old(liveTimers) && nextTimer == old(nextTimer)
      ensures !formDataSupported ==>
                progressTimer == Some(old(nextTimer)) && liveTimers == {old(nextTimer)} && nextTimer == old(nextTimer) + 1
      ensures removeHookCalls == old(removeHookCalls) && aborted == old(aborted)
    {
      var target := FileToObject(file).(status := Uploading);
      var next := Upserted(fileList, target);
      OnChange(ChangeInfo(target, next));
      if !formDataSupported {
        AutoUpdateProgress();
      }
    }

    /** `onProgress(e, file)`: only `percent` of a file still listed changes. */
    method OnProgress(percent: real, file: UploadFile)
      requires Valid()
      modifies this
      ensures Valid()
      ensures var i := FindIndex(old(fileList), file.uid);
              && (i == -1 ==> fileList == old(fileList) && changes == old(changes))
              && (i >= 0 ==>
                    var item := old(fileList)[i].(percent := percent);
                    && fileList == old(fileList)[i := item]
                    && changes == old(changes) + if hasOnChange then [ChangeInfo(item, fileList)] else [])
      ensures progressTimer == old(progressTimer) && liveTimers == old(liveTimers) && nextTimer == old(nextTimer)
      ensures removeHookCalls == old(removeHookCalls) && aborted == old(aborted)
    {
      var i := FindIndex(fileList, file.uid);
      if i == -1 {
        return;
      }
      // the entry object is shared with the list, so the update shows in both modes
      fileList := fileList[i := fileList[i].(percent := percent)];
      OnChange(ChangeInfo(fileList[i], fileList));
    }

    /** `onSuccess(response, file)`: the timer is cleared first, whether or not
        the file is still listed; a listed file becomes `done` with the response. */
    method OnSuccess(response: Response, file: UploadFile)
      requires Valid()
      modifies this
      ensures Valid()
      ensures liveTimers == {}
      ensures var i := FindIndex(old(fileList), file.uid);
              && (i == -1 ==> fileList == old(fileList) && changes == old(changes))
              && (i >= 0 ==>
                    var item := old(fileList)[i].(status := Done, response := response);
                    && fileList == old(fileList)[i := item]
                    && changes == old(changes) + if hasOnChange then [ChangeInfo(item, fileList)] else [])
      ensures progressTimer == old(progressTimer) && nextTimer == old(nextTimer)
      ensures removeHookCalls == old(removeHookCalls) && aborted == old(aborted)
    {
      ClearProgressTimer();
      var i := FindIndex(fileList, file.uid);
      if i == -1 {
        return;
      }
      fileList := fileList[i := fileList[i].(status := Done, response := response)];
      OnChange(ChangeInfo(fileList[i], fileList));
    }

    /** `onError(error, response, file)`: the timer is cleared first; a listed
        file records the error and the response and becomes `error`. */
    method OnError(error: TransferError, response: Response, file: UploadFile)
      requires Valid()
      modifies this
      ensures Valid()
      ensures liveTimers == {}
      ensures var i := FindIndex(old(fileList), file.uid);
              && (i == -1 ==> fileList == old(fileList) && changes == old(changes))
              && (i >= 0 ==>
                    var item := old(fileList)[i].(error := Some(error), response := response, status := Error);
                    && fileList == old(fileList)[i := item]
                    && changes == old(changes) + if hasOnChange then [ChangeInfo(item, fileList)] else [])
      ensures progressTimer == old(progressTimer) && nextTimer == old(nextTimer)
      ensures removeHookCalls == old(removeHookCalls) && aborted == old(aborted)
    {
      ClearProgressTimer();
      var i := FindIndex(fileList, file.uid);
      if i == -1 {
        return;
      }
      fileList := fileList[i := fileList[i].(error := Some(error), response := response, status := Error)];
      OnChange(ChangeInfo(fileList[i], fileList));
    }

    /** `handleRemove(file, index)` for the item the list view shows at `index`.
        The item is marked `removed` before the hook sees it. `vetoed` is the
        hook's verdict `=== false`: then the prior status comes back and nothing
        is emitted; otherwise the list without the file's uid is emitted (and,
        for a self-owned list, kept). */
    method HandleRemove(index: nat, vetoed: bool)
      requires Valid()
      requires index < |fileList|
      modifies this
      ensures Valid()
      ensures var marked := old(fileList)[index].(status := Removed);
              && removeHookCalls == old(removeHookCalls) + (if removeHookIsFunction then [(marked, index)] else [])
              && (vetoed ==> fileList == old(fileList) && changes == old(changes))
              && (!vetoed ==>
                    var rest := WithoutUid(old(fileList), marked.uid);
                    && fileList == (if controlled then old(fileList)[index := marked] else rest)
                    && changes == old(changes) + if hasOnChange then [ChangeInfo(marked, rest)] else [])
      ensures progressTimer == old(progressTimer) && liveTimers == old(liveTimers) && nextTimer == old(nextTimer)
      ensures aborted == old(aborted)
    {
      var status := fileList[index].status;
      fileList := fileList[index := fileList[index].(status := Removed)];
      var file := fileList[index];
      if removeHookIsFunction {
        removeHookCalls := removeHookCalls + [(file, index)];
      }
      if vetoed {
        fileList := fileList[index := fileList[index].(status := status)];
        assert fileList == old(fileList);
        return;
      }
      var removed := RemoveFileItem(fileList, file.uid);
      if removed.Some? {
        WithoutUidOfMarked(old(fileList), index);
        OnChange(ChangeInfo(file, removed.value));
      }
    }

    /** `handleManualRemove(file, index)`: the transfer is aborted first, when
        the transfer library is mounted. */
    method HandleManualRemove(index: nat, vetoed: bool)
      requires Valid()
      requires index < |fileList|
      modifies this
      ensures Valid()
      ensures aborted == old(aborted) + if hasUploader then [old(fileList)[index].uid] else []
      ensures var marked := old(fileList)[index].(status := Removed);
              && removeHookCalls == old(removeHookCalls) + (if removeHookIsFunction then [(marked, index)] else [])
              && (vetoed ==> fileList == old(fileList) && changes == old(changes))
              && (!vetoed ==>
                    var rest := WithoutUid(old(fileList), marked.uid);
                    && fileList == (if controlled then old(fileList)[index := marked] else rest)
                    && changes == old(changes) + if hasOnChange then [ChangeInfo(marked, rest)] else [])
      ensures progressTimer == old(progressTimer) && liveTimers == old(liveTimers) && nextTimer == old(nextTimer)
    {
      if hasUploader {
        aborted := aborted + [fileList[index].uid];
      }
      HandleRemove(index, vetoed);
    }

    /** The `beforeUpload` wrapper around `props.beforeUpload(file, batch)`. When
        the hook says `false`, the batch is merged into the list (first entry per
        uid wins) and emitted, and the transfer is stopped. */
    method BeforeUpload(file: UploadFile, batch: seq<UploadFile>, hook: HookResult)
      returns (outcome: BeforeUploadOutcome)
      requires Valid()
      modifies this
      ensures Valid()
      ensures outcome == match hook
                         case NoHook => Proceed
                         case ReturnedFalse => Stop
                         case ReturnedPromise => AwaitHook
                         case ReturnedOther => Proceed
      ensures hook != ReturnedFalse ==> fileList == old(fileList) && changes == old(changes)
      ensures hook == ReturnedFalse ==>
                var merged := UniqBy(old(fileList) + FilesToObjects(batch));
                && fileList == (if controlled then old(fileList) else merged)
                && changes == old(changes) + if hasOnChange then [ChangeInfo(file, merged)] else []
      ensures progressTimer == old(progressTimer) && liveTimers == old(liveTimers) && nextTimer == old(nextTimer)
      ensures removeHookCalls == old(removeHookCalls) && aborted == old(aborted)
    {
      if hook == NoHook {
        return Proceed;
      }
      if hook == ReturnedFalse {
        OnChange(ChangeInfo(file, UniqBy(fileList + FilesToObjects(batch))));
        return Stop;
      }
      if hook == ReturnedPromise {
        return AwaitHook;
      }
      return Proceed;
    }
  }

  /** Marking an entry `removed` does not change which entries share its uid. */
  lemma {:induction false} WithoutUidOfMarked(list: seq<UploadFile>, index: nat)
    requires index < |list|
    ensures WithoutUid(list[index := list[index].(status := Removed)], list[index].uid) == WithoutUid(list, list[index].uid)
    decreases |list|
  {
    var u := list[index].uid;
    var m := list[index := list[index].(status := Removed)];
    if index == 0 {
      assert m[1..] == list[1..];
    } else {
      assert m[1..] == list[1..][index - 1 := list[index].(status := Removed)];
      WithoutUidOfMarked(list[1..], index - 1);
      assert m[0] == list[0];
    }
  }

  /** Removing the uid of a listed entry always removes something, and
      afterwards no entry of that uid is left. */
  lemma RemovalLeavesNoEntry(list: seq<UploadFile>, index: nat)
    requires index < |list|
    ensures RemoveFileItem(list, list[index].uid).Some?
    ensures FindIndex(RemoveFileItem(list, list[index].uid).value, list[index].uid) == -1
  {
  }
}
