/** The upload queue (src/components/photo-uploader.tsx): a list of locally chosen
    files, each with a preview handle, an editable caption and a flag that is set
    while the caption service is working on it, plus the simulated upload that
    reports progress in ten steps and then clears the list.

    Browser services are abstracted: a preview handle (`URL.createObjectURL`) is a
    number handed out by a counter, and the ghost state records which handles are
    live and which were revoked. Reading a file and calling the caption service are
    not modelled: a reply arrives as the event CaptionSucceeded, a synchronous read
    error as CaptionFailed, and a failure of the service produces no event at all. The 200 ms timer is modelled by its ticks, with exact integer
    arithmetic. */
module PhotoUploader {
  import opened Records

  /** An object URL made for a preview, modelled as an opaque number. */
  type PreviewId = nat

  /** The part of a browser `File` the component uses. */
  datatype LocalFile = LocalFile(name: string, size: nat)

  /** `UploadedFile`: one queued file. */
  datatype Entry = Entry(file: LocalFile, preview: PreviewId, caption: string, isGeneratingCaption: bool)

  /** The timer adds a tenth of the total size per tick, so ten ticks reach 100%. */
  const TicksToComplete: nat := 10

  /** The sum of the queued file sizes, accumulated from the left as the source does. */
  function TotalSize(files: seq<Entry>): (r: nat)
    ensures forall i :: 0 <= i < |files| ==> files[i].file.size <= r
  {
    if |files| == 0 then 0 else TotalSize(files[..|files| - 1]) + files[|files| - 1].file.size
  }

  /** The total of a concatenation is the sum of the totals. */
  lemma {:induction false} TotalSizeConcat(a: seq<Entry>, b: seq<Entry>)
    ensures TotalSize(a + b) == TotalSize(a) + TotalSize(b)
  {
    if |b| == 0 {
      assert a + b == a;
    } else {
      assert (a + b)[..|a + b| - 1] == a + b[..|b| - 1];
      TotalSizeConcat(a, b[..|b| - 1]);
    }
  }

  /** The total is positive exactly when some queued file is not empty. */
  lemma {:induction false} TotalSizePositive(files: seq<Entry>)
    ensures TotalSize(files) > 0 <==> exists i :: 0 <= i < |files| && files[i].file.size > 0
  {
    if |files| > 0 {
      var init := files[..|files| - 1];
      TotalSizePositive(init);
      assert forall i :: 0 <= i < |init| ==> init[i] == files[i];
      if TotalSize(init) > 0 {
        var i :| 0 <= i < |init| && init[i].file.size > 0;
        assert files[i].file.size > 0;
      }
    }
  }

  /** The entries built for a dropped batch: one per file, in order, with an empty
      caption, no caption in progress and previews numbered from `first`. */
  function NewEntries(batch: seq<LocalFile>, first: PreviewId): (r: seq<Entry>)
    ensures |r| == |batch|
    ensures forall i :: 0 <= i < |batch| ==> r[i] == Entry(batch[i], first + i, "", false)
  {
    if |batch| == 0 then []
    else [Entry(batch[0], first, "", false)] + NewEntries(batch[1..], first + 1)
  }

  /** The preview handles held by a list of entries. */
  ghost function Previews(entries: seq<Entry>): set<PreviewId> {
    set i | 0 <= i < |entries| :: entries[i].preview
  }

  /** The uploaded share of the total, in percent, with the uploaded amount counted in
      tenths of a byte so that adding a tenth of the total stays an integer step. */
  function Progress(uploadedTenths: nat, totalSize: nat): (r: nat)
    requires totalSize > 0
    ensures r >= 100 <==> uploadedTenths >= 10 * totalSize
  {
    ProgressThreshold(uploadedTenths * 10, totalSize);
    uploadedTenths * 10 / totalSize
  }

  /** A quotient reaches 100 exactly when the dividend reaches 100 times the divisor. */
  lemma ProgressThreshold(x: nat, t: nat)
    requires t > 0
    ensures x / t >= 100 <==> x >= 100 * t
  {
    var q, m := x / t, x % t;
    assert x == q * t + m && 0 <= m < t;
    if q >= 100 {
      assert q * t == (q - 100) * t + 100 * t;
    } else {
      assert q * t + t == (q + 1) * t;
      assert (100 - (q + 1)) * t + (q + 1) * t == 100 * t;
    }
  }

  /** Multiplying by a positive factor and dividing by it again is the identity. */
  lemma DivMulCancel(q: nat, t: nat)
    requires t > 0
    ensures (q * t) / t == q
  {
    var d, m := (q * t) / t, (q * t) % t;
    assert q * t == d * t + m && 0 <= m < t;
    assert (q - d) * t == m by {
      assert q * t - d * t == (q - d) * t;
    }
    if q > d {
      MulAtLeast(q - d, t);
    } else if q < d {
      MulAtLeast(d - q, t);
    }
  }

  lemma MulAtLeast(a: int, t: nat)
    requires a >= 1
    ensures a * t >= t
  {
    assert a * t == (a - 1) * t + t;
  }

  /** After k ticks the progress is exactly 10 k percent. */
  lemma ProgressAfterTicks(k: nat, totalSize: nat)
    requires totalSize > 0
    ensures Progress(k * totalSize, totalSize) == 10 * k
  {
    assert k * totalSize * 10 == (10 * k) * totalSize;
    DivMulCancel(10 * k, totalSize);
  }

  /** The bookkeeping of preview handles: every queued entry holds its own live
      handle, live handles were handed out before `next`, and a revoked handle was
      handed out, is no longer live and was revoked only once. */
  ghost predicate PreviewsOk(files: seq<Entry>, live: set<PreviewId>, revoked: seq<PreviewId>, next: PreviewId) {
    (forall i :: 0 <= i < |files| ==> files[i].preview in live) &&
    (forall i, j :: 0 <= i < j < |files| ==> files[i].preview != files[j].preview) &&
    (forall p :: p in live ==> p < next) &&
    (forall i :: 0 <= i < |revoked| ==> revoked[i] !in live && revoked[i] < next) &&
    (forall i, j :: 0 <= i < j < |revoked| ==> revoked[i] != revoked[j])
  }

  /** Handing out the next handles to a dropped batch keeps the bookkeeping sound. */
  lemma DropKeepsPreviewsOk(files: seq<Entry>, live: set<PreviewId>, revoked: seq<PreviewId>, next: PreviewId,
                            accepted: seq<LocalFile>)
    requires PreviewsOk(files, live, revoked, next)
    ensures PreviewsOk(files + NewEntries(accepted, next), live + Previews(NewEntries(accepted, next)),
                       revoked, next + |accepted|)
  {
    var added := NewEntries(accepted, next);
    var files', live' := files + added, live + Previews(added);
    assert forall p :: p in Previews(added) ==> next <= p < next + |accepted|;
    forall i | 0 <= i < |files'|
      ensures files'[i].preview in live'
      ensures files'[i].preview == if i < |files| then files[i].preview else next + (i - |files|)
    {
      if i >= |files| {
        assert files'[i] == added[i - |files|];
      }
    }
  }

  class UploadQueue {
    var files: seq<Entry>
    var isUploading: bool
    var uploadProgress: nat

    // What the running upload's timer captured when the upload started.
    var totalSize: nat
    var uploadedTenths: nat
    var startCount: nat

    /** The next object URL the browser will hand out. */
    var nextPreview: PreviewId

    /** Object URLs created and not yet revoked. */
    ghost var live: set<PreviewId>
    /** Every `URL.revokeObjectURL` call, in order. */
    ghost var revoked: seq<PreviewId>
    /** Timer ticks of the running upload. */
    ghost var ticks: nat

    ghost predicate Valid()
      reads this
    {
      PreviewsOk(files, live, revoked, nextPreview) &&
      uploadProgress <= 100 &&
      (isUploading ==>
        totalSize > 0 && ticks < TicksToComplete &&
        uploadedTenths == ticks * totalSize && uploadProgress == 10 * ticks)
    }

    constructor ()
      ensures Valid()
      ensures files == [] && !isUploading && uploadProgress == 0
      ensures live == {} && revoked == []
    {
      files, isUploading, uploadProgress := [], false, 0;
      totalSize, uploadedTenths, startCount := 0, 0, 0;
      nextPreview := 0;
      live, revoked, ticks := {}, [], 0;
    }

    /** `onDrop`: the accepted files go after the queued ones, each with a new preview,
        an empty caption and no caption in progress. */
    method OnDrop(accepted: seq<LocalFile>)
      requires Valid()
      modifies this`files, this`nextPreview, this`live
      ensures Valid()
      ensures files == old(files) + NewEntries(accepted, old(nextPreview))
      ensures nextPreview == old(nextPreview) + |accepted|
      ensures live == old(live) + Previews(NewEntries(accepted, old(nextPreview)))
      ensures TotalSize(files) == TotalSize(old(files)) + TotalSize(NewEntries(accepted, old(nextPreview)))
    {
      var added := NewEntries(accepted, nextPreview);
      TotalSizeConcat(files, added);
      DropKeepsPreviewsOk(files, live, revoked, nextPreview, accepted);
      files, live, nextPreview := files + added, live + Previews(added), nextPreview + |accepted|;
      assert PreviewsOk(files, live, revoked, nextPreview);
    }

    /** The synchronous start of `handleGenerateCaption`: nothing happens for an index
        outside the queue; otherwise only that entry's flag is set. */
    method BeginCaption(index: int) returns (started: bool)
      requires Valid()
      modifies this`files
      ensures Valid()
      ensures started <==> 0 <= index < |old(files)|
      ensures started ==> files == old(files)[index := old(files)[index].(isGeneratingCaption := true)]
      ensures !started ==> files == old(files)
    {
      started := 0 <= index < |files|;
      if started {
        files := files[index := files[index].(isGeneratingCaption := true)];
      }
    }

    /** The caption service's reply for the entry at `index`: its caption becomes the
        reply verbatim and its flag is cleared. The update matches positions against
        `index`, so an index that is no longer in the queue changes nothing. */
    method CaptionSucceeded(index: int, caption: string)
      requires Valid()
      modifies this`files
      ensures Valid()
      ensures files == if 0 <= index < |old(files)|
                       then old(files)[index := old(files)[index].(caption := caption, isGeneratingCaption := false)]
                       else old(files)
    {
      if 0 <= index < |files| {
        files := files[index := files[index].(caption := caption, isGeneratingCaption := false)];
      }
    }

    /** The `catch` branch of `handleGenerateCaption`: the flag at `index` is cleared and
        the caption kept. */
    method CaptionFailed(index: int)
      requires Valid()
      modifies this`files
      ensures Valid()
      ensures files == if 0 <= index < |old(files)|
                       then old(files)[index := old(files)[index].(isGeneratingCaption := false)]
                       else old(files)
    {
      if 0 <= index < |files| {
        files := files[index := files[index].(isGeneratingCaption := false)];
      }
    }

    /** `handleCaptionChange`: only the caption of the entry at `index` is replaced. */
    method ChangeCaption(index: int, caption: string)
      requires Valid()
      modifies this`files
      ensures Valid()
      ensures files == if 0 <= index < |old(files)|
                       then old(files)[index := old(files)[index].(caption := caption)]
                       else old(files)
    {
      if 0 <= index < |files| {
        files := files[index := files[index].(caption := caption)];
      }
    }

    /** `handleRemoveFile`: the entry's preview is revoked, for the first and only time,
        and the entry leaves the queue; the entries before it stay, those after it move
        down by one. */
    method RemoveFile(index: int)
      requires Valid()
      requires 0 <= index < |files|
      modifies this`files, this`live, this`revoked
      ensures Valid()
      ensures |files| == |old(files)| - 1
      ensures files[..index] == old(files)[..index]
      ensures forall j :: index <= j < |files| ==> files[j] == old(files)[j + 1]
      ensures old(files)[index].preview !in old(revoked)
      ensures revoked == old(revoked) + [old(files)[index].preview]
      ensures live == old(live) - {old(files)[index].preview}
    {
      var p := files[index].preview;
      assert forall i :: 0 <= i < |revoked| ==> revoked[i] != p;
      revoked := revoked + [p];
      live := live - {p};
      files := files[..index] + files[index + 1..];
      assert forall j :: 0 <= j < |files| ==> files[j] == old(files)[if j < index then j else j + 1];
    }

    /** The upload button is enabled when no upload runs and the queue is not empty. */
    predicate UploadEnabled()
      reads this
    {
      !isUploading && |files| > 0
    }

    /** `handleUpload` up to the start of the timer: progress starts at 0 and the timer
        captures the total size and the number of queued files. */
    method StartUpload()
      requires Valid() && UploadEnabled()
      requires TotalSize(files) > 0
      modifies this`isUploading, this`uploadProgress, this`totalSize, this`uploadedTenths, this`startCount, this`ticks
      ensures Valid()
      ensures isUploading && uploadProgress == 0 && uploadedTenths == 0
      ensures totalSize == TotalSize(files) && startCount == |files|
      ensures ticks == 0
    {
      isUploading, uploadProgress := true, 0;
      totalSize, uploadedTenths, startCount := TotalSize(files), 0, |files|;
      ticks := 0;
    }

    /** One run of the timer callback. Progress grows by exactly ten points; when it
        reaches 100 the upload stops, the queue is emptied (its previews are not revoked)
        and the summary reports the count captured at the start. */
    method Tick() returns (summary: Option<nat>)
      requires Valid() && isUploading
      modifies this`uploadedTenths, this`uploadProgress, this`isUploading, this`files, this`ticks
      ensures Valid()
      ensures uploadProgress == old(uploadProgress) + 10
      ensures ticks == old(ticks) + 1
      ensures summary.Some? <==> uploadProgress >= 100
      ensures uploadProgress >= 100 ==>
        uploadProgress == 100 && !isUploading && files == [] && summary == Some(startCount)
      ensures uploadProgress < 100 ==> isUploading && files == old(files)
      ensures live == old(live) && revoked == old(revoked)
    {
      ghost var k := ticks + 1;
      assert uploadedTenths + totalSize == k * totalSize by {
        assert k * totalSize == ticks * totalSize + totalSize;
      }
      ProgressAfterTicks(k, totalSize);
      uploadedTenths, ticks := uploadedTenths + totalSize, k;
      uploadProgress := Progress(uploadedTenths, totalSize);
      assert uploadProgress == 10 * k;
      if uploadProgress >= 100 {
        isUploading := false;
        files := [];
        summary := Some(startCount);
      } else {
        summary := None;
      }
    }

    /** `handleUpload` with its timer run to the end and no other event in between: the
        reported progress is 10, 20, ..., 100, reaching 100 once, at the last tick; the
        queue ends empty and the summary counts the files queued at the start. */
    method RunUpload() returns (count: nat, ghost reported: seq<nat>)
      requires Valid() && UploadEnabled()
      requires TotalSize(files) > 0
      modifies this`isUploading, this`uploadProgress, this`totalSize, this`uploadedTenths, this`startCount,
               this`ticks, this`files
      ensures Valid()
      ensures !isUploading && files == [] && uploadProgress == 100
      ensures count == |old(files)|
      ensures |reported| == TicksToComplete
      ensures forall i :: 0 <= i < |reported| ==> reported[i] == 10 * (i + 1)
      ensures forall i :: 0 <= i < |old(files)| ==> old(files)[i].preview in live && old(files)[i].preview !in revoked
    {
      StartUpload();
      reported := [];
      var summary: Option<nat> := None;
      while isUploading
        invariant Valid()
        invariant startCount == |old(files)|
        invariant summary.Some? <==> !isUploading
        invariant isUploading ==> |reported| == ticks
        invariant !isUploading ==> files == [] && uploadProgress == 100 && |reported| == TicksToComplete
        invariant summary.Some? ==> summary.value == |old(files)|
        invariant forall i :: 0 <= i < |reported| ==> reported[i] == 10 * (i + 1)
        decreases TicksToComplete - |reported|
      {
        summary := Tick();
        reported := reported + [uploadProgress];
      }
      count := summary.value;
    }
  }
}
