/** The batch importer (components/importar/file-importer.tsx): files are picked as
    "pending", the upload button starts them, and each one's interval brings it to
    "success" or "error". */
module FileImporter {
  import opened Wrappers
  import ListOps
  import Progress
  import opened UploadList

  const ImportError := "Error al importar el archivo"

  /** Some entry with that id has that status. */
  predicate HasStatusId(entries: seq<Entry>, id: string, status: Status) {
    exists i :: 0 <= i < |entries| && entries[i].id == id && entries[i].status == status
  }

  /** The ids of the entries with a given status, in list order. */
  function IdsWithStatus(entries: seq<Entry>, status: Status): (ids: seq<string>)
    ensures forall x :: x in ids <==> HasStatusId(entries, x, status)
  {
    if entries == [] then []
    else
      var rest := IdsWithStatus(entries[1..], status);
      assert forall x :: HasStatusId(entries[1..], x, status) ==> HasStatusId(entries, x, status) by {
        forall x | HasStatusId(entries[1..], x, status) ensures HasStatusId(entries, x, status) {
          var i :| 0 <= i < |entries[1..]| && entries[1..][i].id == x && entries[1..][i].status == status;
          assert entries[i + 1] == entries[1..][i];
        }
      }
      assert forall x :: HasStatusId(entries, x, status) && (entries[0].id != x || entries[0].status != status) ==>
                           HasStatusId(entries[1..], x, status) by {
        forall x | HasStatusId(entries, x, status) && (entries[0].id != x || entries[0].status != status)
          ensures HasStatusId(entries[1..], x, status)
        {
          var i :| 0 <= i < |entries| && entries[i].id == x && entries[i].status == status;
          assert i > 0 && entries[1..][i - 1] == entries[i];
        }
      }
      (if entries[0].status == status then [entries[0].id] else []) + rest
  }

  /** The upload button refuses an empty list or one where every file already succeeded. */
  predicate UploadRefused(entries: seq<Entry>) {
    |entries| == 0 || forall i :: 0 <= i < |entries| ==> entries[i].status == Success
  }

  /** `prev.map((file) => (file.status === "pending" ? { ...file, status: "uploading" } : file))`. */
  function MarkUploading(entries: seq<Entry>): (r: seq<Entry>)
    ensures |r| == |entries|
    ensures forall i :: 0 <= i < |entries| && entries[i].status == Pending ==> r[i] == entries[i].(status := Uploading)
    ensures forall i :: 0 <= i < |entries| && entries[i].status != Pending ==> r[i] == entries[i]
    ensures forall i :: 0 <= i < |r| ==> r[i].status != Pending
  {
    ListOps.UpdateWhere(entries, (e: Entry) => e.status == Pending, (e: Entry) => e.(status := Uploading))
  }

  /** The files `handleUpload` starts, as written: `selectedFiles` still holds the list from
      before the status update, so it picks the files that were already "uploading" and
      none of the pending ones it has just marked. */
  function StartedAsWritten(before: seq<Entry>): seq<string> {
    IdsWithStatus(before, Uploading)
  }

  /** The files `handleUpload` is meant to start: the pending ones it marks as uploading. */
  function StartedIntended(before: seq<Entry>): (ids: seq<string>)
    ensures forall i :: 0 <= i < |before| && MarkUploading(before)[i].status != before[i].status ==> before[i].id in ids
    ensures forall i :: 0 <= i < |before| && MarkUploading(before)[i].status == Uploading && before[i].status == Pending ==>
                          before[i].id in ids
    ensures forall x :: x in ids ==> HasStatusId(before, x, Pending)
  {
    var ids := IdsWithStatus(before, Pending);
    forall i | 0 <= i < |before| && before[i].status == Pending ensures before[i].id in ids {
      assert HasStatusId(before, before[i].id, Pending);
    }
    ids
  }

  /** A freshly picked file is marked "uploading" by the button but never started: its
      entry stays at progress 0, and since it never finishes, `isUploading` is never reset. */
  lemma PendingFileNeverStarts()
    ensures var before := [Entry("a1b2c3d", "datos.xlsx", 0, Pending, None)];
            && !UploadRefused(before)
            && MarkUploading(before)[0].status == Uploading
            && StartedAsWritten(before) == []
            && !AllDone(MarkUploading(before))
  {
    var before := [Entry("a1b2c3d", "datos.xlsx", 0, Pending, None)];
    assert !UploadRefused(before) by { assert before[0].status != Success; }
    assert MarkUploading(before)[0] == before[0].(status := Uploading);
    var ids := StartedAsWritten(before);
    if ids != [] {
      assert false;
    }
  }

  /** The intended start list covers exactly the files the button moves to "uploading";
      the written one misses every one of them that was not already uploading. */
  lemma {:induction false} IntendedStartsMarkedFiles(before: seq<Entry>, i: nat)
    requires i < |before| && before[i].status == Pending
    requires forall j :: 0 <= j < |before| && j != i ==> before[j].id != before[i].id
    ensures MarkUploading(before)[i].status == Uploading
    ensures before[i].id in StartedIntended(before)
    ensures before[i].id !in StartedAsWritten(before)
  {
    assert HasStatusId(before, before[i].id, Pending);
    if HasStatusId(before, before[i].id, Uploading) {
      assert false;
    }
  }

  /** The importer's state. */
  class Importer {
    var selectedFiles: seq<Entry>
    var isUploading: bool

    constructor ()
      ensures selectedFiles == [] && !isUploading
    {
      selectedFiles := [];
      isUploading := false;
    }

    /** `handleFileChange`: the picked files are appended as pending, at progress 0. */
    method HandleFileChange(names: seq<string>, ids: seq<string>)
      requires |ids| == |names|
      modifies this
      ensures selectedFiles == old(selectedFiles) + NewEntries(names, ids, Pending)
      ensures isUploading == old(isUploading)
    {
      if names != [] {
        selectedFiles := selectedFiles + NewEntries(names, ids, Pending);
      } else {
        assert NewEntries(names, ids, Pending) == [];
        assert selectedFiles + [] == selectedFiles;
      }
    }

    /** `handleUpload`, with the intended start list: returns the ids whose intervals it
        starts. A refused click changes nothing. */
    method HandleUpload() returns (started: seq<string>)
      modifies this
      ensures UploadRefused(old(selectedFiles)) ==>
                started == [] && selectedFiles == old(selectedFiles) && isUploading == old(isUploading)
      ensures !UploadRefused(old(selectedFiles)) ==>
                isUploading && selectedFiles == MarkUploading(old(selectedFiles)) && started == StartedIntended(old(selectedFiles))
    {
      if UploadRefused(selectedFiles) {
        return [];
      }
      isUploading := true;
      started := StartedIntended(selectedFiles);
      selectedFiles := MarkUploading(selectedFiles);
    }

    /** `simulateFileUpload(fileId)` run through the ticks that fired (each step is
        ⌊random·15⌋ + 5, so 5..19) and the final success roll; `doneReport` is the success
        count of the completion toast check, present exactly when this file's interval
        reached 100 and every file has then finished. */
    method SimulateFileUpload(fileId: string, steps: seq<nat>, success: bool) returns (doneReport: Option<nat>)
      requires forall k :: 0 <= k < |steps| ==> 5 <= steps[k] <= 19
      modifies this
      ensures |selectedFiles| == |old(selectedFiles)|
      ensures forall i :: 0 <= i < |selectedFiles| && old(selectedFiles)[i].id != fileId ==> selectedFiles[i] == old(selectedFiles)[i]
      ensures Progress.Sum(steps) >= 100 ==> forall i :: 0 <= i < |selectedFiles| && old(selectedFiles)[i].id == fileId ==>
                selectedFiles[i] == Complete(old(selectedFiles)[i], success, ImportError)
      ensures steps != [] && Progress.Sum(steps) < 100 ==> forall i :: 0 <= i < |selectedFiles| && old(selectedFiles)[i].id == fileId ==>
                selectedFiles[i] == old(selectedFiles)[i].(progress := Progress.Sum(steps))
      ensures steps == [] ==> selectedFiles == old(selectedFiles)
      ensures |steps| >= 20 ==> forall i :: 0 <= i < |selectedFiles| && old(selectedFiles)[i].id == fileId ==>
                selectedFiles[i] == Complete(old(selectedFiles)[i], success, ImportError)
      ensures doneReport.Some? ==> AllDone(selectedFiles) && !isUploading && doneReport.value == SuccessCount(selectedFiles)
      ensures doneReport.None? ==> isUploading == old(isUploading)
      ensures doneReport.Some? <==> Progress.Sum(steps) >= 100 && AllDone(selectedFiles)
    {
      var r, ticks, finished := RunInterval(selectedFiles, fileId, steps, success, ImportError);
      if finished {
        Progress.SumOfPrefix(steps, ticks);
      }
      if |steps| >= 20 && !finished {
        SumAtLeast(steps, 5);
        assert false;
      }
      if !finished && steps != [] {
        assert Progress.Sum(steps) < 100;
      }
      selectedFiles := r;
      doneReport := None;
      if finished && AllDone(selectedFiles) {
        isUploading := false;
        doneReport := Some(SuccessCount(selectedFiles));
      }
    }

    /** `removeFile(fileId)`. */
    method RemoveFile(fileId: string)
      modifies this
      ensures selectedFiles == ListOps.RemoveById(old(selectedFiles), (e: Entry) => e.id, fileId)
      ensures forall i :: 0 <= i < |selectedFiles| ==> selectedFiles[i].id != fileId
      ensures isUploading == old(isUploading)
    {
      selectedFiles := ListOps.RemoveById(selectedFiles, (e: Entry) => e.id, fileId);
    }
  }
}
