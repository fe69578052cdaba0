/** The entry lists of the importer and the uploader: each file has an id, a progress
    percentage and a status, and a per-file interval drives it to completion. */
module UploadList {
  import opened Wrappers
  import ListOps
  import Progress

  datatype Status = Pending | Uploading | Success | Failed
  datatype Entry = Entry(id: string, name: string, progress: nat, status: Status, error: Option<string>)

  predicate Finished(e: Entry) {
    e.status == Success || e.status == Failed
  }

  /** The final state of a file: progress 100, success or error, an error text exactly on error. */
  function Complete(e: Entry, success: bool, message: string): (r: Entry)
    ensures r.id == e.id && r.name == e.name && r.progress == 100 && Finished(r)
    ensures r.status == Success <==> success
    ensures r.error.Some? <==> r.status == Failed
    ensures r.error.Some? ==> r.error.value == message
  {
    e.(progress := 100, status := if success then Success else Failed, error := if success then None else Some(message))
  }

  /** `prev.map((f) => (f.id === fileId ? { ...f, progress } : f))`. */
  function WithProgress(entries: seq<Entry>, fileId: string, progress: nat): (r: seq<Entry>)
    ensures |r| == |entries|
    ensures forall i :: 0 <= i < |entries| && entries[i].id != fileId ==> r[i] == entries[i]
    ensures forall i :: 0 <= i < |entries| && entries[i].id == fileId ==> r[i] == entries[i].(progress := progress)
  {
    ListOps.UpdateWhere(entries, (e: Entry) => e.id == fileId, (e: Entry) => e.(progress := progress))
  }

  /** The completion update: only the entries with `fileId` take their final state. */
  function Completed(entries: seq<Entry>, fileId: string, success: bool, message: string): (r: seq<Entry>)
    ensures |r| == |entries|
    ensures forall i :: 0 <= i < |entries| && entries[i].id != fileId ==> r[i] == entries[i]
    ensures forall i :: 0 <= i < |entries| && entries[i].id == fileId ==> r[i] == Complete(entries[i], success, message)
  {
    ListOps.UpdateWhere(entries, (e: Entry) => e.id == fileId, (e: Entry) => Complete(e, success, message))
  }

  /** One file's interval: a local `progress` grows by the random step of each tick; the
      tick that reaches 100 clamps it, stops the interval and completes the entry, the
      others publish the new progress. `steps` are the ticks that fired, `success` the
      final roll. */
  method RunInterval(entries: seq<Entry>, fileId: string, steps: seq<nat>, success: bool, message: string)
    returns (r: seq<Entry>, ticks: nat, finished: bool)
    ensures |r| == |entries| && ticks <= |steps|
    ensures forall i :: 0 <= i < |entries| && entries[i].id != fileId ==> r[i] == entries[i]
    ensures finished ==> Progress.Sum(steps[..ticks]) >= 100 && (ticks > 0 ==> Progress.Sum(steps[..ticks - 1]) < 100)
    ensures finished ==> forall i :: 0 <= i < |entries| && entries[i].id == fileId ==> r[i] == Complete(entries[i], success, message)
    ensures !finished ==> ticks == |steps| && Progress.Sum(steps) < 100
    ensures !finished && steps != [] ==>
              forall i :: 0 <= i < |entries| && entries[i].id == fileId ==> r[i] == entries[i].(progress := Progress.Sum(steps))
    ensures steps == [] ==> r == entries && !finished
  {
    var progress: nat := 0;
    r, ticks, finished := entries, 0, false;
    while ticks < |steps| && !finished
      invariant ticks <= |steps| && |r| == |entries|
      invariant forall i :: 0 <= i < |entries| && entries[i].id != fileId ==> r[i] == entries[i]
      invariant !finished ==> progress == Progress.Sum(steps[..ticks]) < 100
      invariant !finished && ticks == 0 ==> r == entries
      invariant !finished && ticks > 0 ==>
                  forall i :: 0 <= i < |entries| && entries[i].id == fileId ==> r[i] == entries[i].(progress := progress)
      invariant finished ==> ticks > 0 && Progress.Sum(steps[..ticks]) >= 100 && Progress.Sum(steps[..ticks - 1]) < 100
      invariant finished ==> forall i :: 0 <= i < |entries| && entries[i].id == fileId ==> r[i] == Complete(entries[i], success, message)
    {
      assert steps[..ticks + 1][..ticks] == steps[..ticks];
      progress := progress + steps[ticks];
      ticks := ticks + 1;
      if progress >= 100 {
        progress := 100;
        r := Completed(r, fileId, success, message);
        finished := true;
      } else {
        r := WithProgress(r, fileId, progress);
      }
    }
    assert !finished ==> steps[..ticks] == steps;
  }

  /** With every step at least `least` > 0 points, ⌈100 / least⌉ ticks always finish. */
  lemma {:induction false} SumAtLeast(steps: seq<nat>, least: nat)
    requires forall k :: 0 <= k < |steps| ==> steps[k] >= least
    ensures Progress.Sum(steps) >= least * |steps|
  {
    if steps != [] {
      SumAtLeast(steps[..|steps| - 1], least);
    }
  }

  /** Every entry of the list has finished. */
  predicate AllDone(entries: seq<Entry>) {
    forall i :: 0 <= i < |entries| ==> Finished(entries[i])
  }

  /** `prev.filter((f) => f.status === "success").length`. */
  function SuccessCount(entries: seq<Entry>): (n: nat)
    ensures n <= |entries|
    ensures n == |entries| <==> forall i :: 0 <= i < |entries| ==> entries[i].status == Success
  {
    if entries == [] then 0
    else
      var rest := SuccessCount(entries[1..]);
      assert forall i :: 1 <= i < |entries| ==> entries[i] == entries[1..][i - 1];
      (if entries[0].status == Success then 1 else 0) + rest
  }

  /** New entries for the picked files, with the ids drawn for them. */
  function NewEntries(names: seq<string>, ids: seq<string>, status: Status): (r: seq<Entry>)
    requires |ids| == |names|
    ensures |r| == |names|
    ensures forall k :: 0 <= k < |r| ==> r[k] == Entry(ids[k], names[k], 0, status, None)
  {
    seq(|names|, k requires 0 <= k < |names| => Entry(ids[k], names[k], 0, status, None))
  }
}
