/** The drop-zone uploader (components/importar/file-uploader.tsx): dropped files start
    uploading at once, each driven to "success" or "error" by its own interval. */
module FileUploader {
  import ListOps
  import Progress
  import opened UploadList

  const UploadError := "Error al subir el archivo"

  class Uploader {
    var files: seq<Entry>

    constructor ()
      ensures files == []
    {
      files := [];
    }

    /** `onDrop(acceptedFiles)`: the dropped files are appended as "uploading" at progress
        0, and an interval is started for each of them, in drop order. */
    method OnDrop(names: seq<string>, ids: seq<string>) returns (started: seq<string>)
      requires |ids| == |names|
      modifies this
      ensures files == old(files) + NewEntries(names, ids, Uploading)
      ensures started == ids
    {
      files := files + NewEntries(names, ids, Uploading);
      started := ids;
    }

    /** `simulateUpload(fileId)` run through the ticks that fired (each step is
        ⌊random·10⌋ + 5, so 5..14) and the final success roll. */
    method SimulateUpload(fileId: string, steps: seq<nat>, success: bool)
      requires forall k :: 0 <= k < |steps| ==> 5 <= steps[k] <= 14
      modifies this
      ensures |files| == |old(files)|
      ensures forall i :: 0 <= i < |files| && old(files)[i].id != fileId ==> files[i] == old(files)[i]
      ensures Progress.Sum(steps) >= 100 ==> forall i :: 0 <= i < |files| && old(files)[i].id == fileId ==>
                files[i] == Complete(old(files)[i], success, UploadError)
      ensures steps != [] && Progress.Sum(steps) < 100 ==> forall i :: 0 <= i < |files| && old(files)[i].id == fileId ==>
                files[i] == old(files)[i].(progress := Progress.Sum(steps))
      ensures steps == [] ==> files == old(files)
      ensures |steps| >= 20 ==> forall i :: 0 <= i < |files| && old(files)[i].id == fileId ==>
                files[i] == Complete(old(files)[i], success, UploadError)
    {
      var r, ticks, finished := RunInterval(files, fileId, steps, success, UploadError);
      if finished {
        Progress.SumOfPrefix(steps, ticks);
      }
      if |steps| >= 20 && !finished {
        SumAtLeast(steps, 5);
        assert false;
      }
      if !finished && steps != [] {
        assert Progress.Sum(steps) < 100;
      }
      files := r;
    }

    /** `removeFile(fileId)`. */
    method RemoveFile(fileId: string)
      modifies this
      ensures files == ListOps.RemoveById(old(files), (e: Entry) => e.id, fileId)
      ensures forall i :: 0 <= i < |files| ==> files[i].id != fileId
    {
      files := ListOps.RemoveById(files, (e: Entry) => e.id, fileId);
    }
  }
}
