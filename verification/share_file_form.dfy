/** The share form (components/compartir/share-file-form.tsx): the file pick, the
    validation schema, and the submit that logs one share record per recipient found in
    the user list, each expiring the chosen number of days later. */
module ShareFileForm {
  import opened Wrappers
  import Directory

  /** Milliseconds in a day, `24 * 60 * 60 * 1000`. */
  const DayMs: int := 24 * 60 * 60 * 1000
  const CurrentUser := "Usuario Actual"

  datatype FileInfo = FileInfo(name: string, fileType: string, size: nat)

  /** The form's values; `None` is a field left undefined. `expirationDays` is the number
      the coercion produced. */
  datatype FormValues = FormValues(file: Option<FileInfo>, recipients: seq<string>, message: Option<string>,
                                   expirationDays: Option<int>)

  function Defaults(): FormValues {
    FormValues(None, [], Some(""), Some(7))
  }

  /** `shareFormSchema`: a file, at least one recipient, and a whole number of days from 1
      to 30 when one is given. */
  predicate SchemaValid(v: FormValues) {
    v.file.Some? && |v.recipients| >= 1 && (v.expirationDays.None? || 1 <= v.expirationDays.value <= 30)
  }

  /** The defaults alone are refused; a file and one recipient complete them. */
  lemma DefaultsNeedFileAndRecipient(f: FileInfo, id: string)
    ensures !SchemaValid(Defaults())
    ensures SchemaValid(Defaults().(file := Some(f), recipients := [id]))
  {
  }

  /** `expirationDays ? Date.now() + days * 24 * 60 * 60 * 1000 : null`, in milliseconds. */
  function ExpiresAt(days: Option<int>, nowMs: int): Option<int> {
    if days.Some? && days.value != 0 then Some(nowMs + days.value * DayMs) else None
  }

  /** On values the schema accepts, a share expires exactly when a number of days was
      given, between one and thirty days after the submit; the default is one week. */
  lemma ExpiryWithinAMonth(v: FormValues, nowMs: int)
    requires SchemaValid(v)
    ensures ExpiresAt(v.expirationDays, nowMs).Some? <==> v.expirationDays.Some?
    ensures ExpiresAt(v.expirationDays, nowMs).Some? ==>
              nowMs + DayMs <= ExpiresAt(v.expirationDays, nowMs).value <= nowMs + 30 * DayMs
    ensures ExpiresAt(Defaults().expirationDays, nowMs) == Some(nowMs + 604800000)
  {
  }

  /** `data.message || ""`. */
  function MessageText(message: Option<string>): string {
    if message.Some? then message.value else ""
  }

  datatype ShareRecord = ShareRecord(fileId: string, fileName: string, fileType: string, fileSize: nat,
                                     sharedBy: string, sharedTo: string, sharedAt: string,
                                     expiresAt: Option<int>, message: string)

  /** The names of the recipients found in the user list, in the order chosen; an unknown
      id contributes nothing. */
  function RecipientNames(users: seq<Directory.Person>, ids: seq<string>): seq<string> {
    if ids == [] then []
    else
      var init := RecipientNames(users, ids[..|ids| - 1]);
      match Directory.Find(users, ids[|ids| - 1])
      case Some(p) => init + [p.name]
      case None => init
  }

  /** There is at most one name per chosen id, exactly one per id when every id is known,
      and none when no id is. */
  lemma RecipientNamesCount(users: seq<Directory.Person>, ids: seq<string>)
    ensures |RecipientNames(users, ids)| <= |ids|
    ensures |RecipientNames(users, ids)| == |ids| <==> forall k :: 0 <= k < |ids| ==> Directory.Find(users, ids[k]).Some?
    ensures (forall k :: 0 <= k < |ids| ==> Directory.Find(users, ids[k]).None?) ==> RecipientNames(users, ids) == []
  {
    RecipientNamesLength(users, ids);
    if forall k :: 0 <= k < |ids| ==> Directory.Find(users, ids[k]).None? {
      RecipientNamesNoneKnown(users, ids);
    }
  }

  lemma {:induction false} RecipientNamesLength(users: seq<Directory.Person>, ids: seq<string>)
    ensures |RecipientNames(users, ids)| <= |ids|
    ensures |RecipientNames(users, ids)| == |ids| <==> forall k :: 0 <= k < |ids| ==> Directory.Find(users, ids[k]).Some?
  {
    if ids != [] {
      var init, last := ids[..|ids| - 1], ids[|ids| - 1];
      RecipientNamesLength(users, init);
      assert forall k :: 0 <= k < |init| ==> init[k] == ids[k];
      if Directory.Find(users, last).None? {
        assert RecipientNames(users, ids) == RecipientNames(users, init);
      } else {
        assert |RecipientNames(users, ids)| == |RecipientNames(users, init)| + 1;
      }
    }
  }

  lemma {:induction false} RecipientNamesNoneKnown(users: seq<Directory.Person>, ids: seq<string>)
    requires forall k :: 0 <= k < |ids| ==> Directory.Find(users, ids[k]).None?
    ensures RecipientNames(users, ids) == []
  {
    if ids != [] {
      var init := ids[..|ids| - 1];
      assert forall k :: 0 <= k < |init| ==> init[k] == ids[k];
      RecipientNamesNoneKnown(users, init);
    }
  }

  /** The record the share of `file` with `name` gets. */
  function Record(v: FormValues, file: FileInfo, fileId: string, name: string, nowIso: string, nowMs: int): ShareRecord {
    ShareRecord(fileId, file.name, file.fileType, file.size, CurrentUser, name, nowIso,
                ExpiresAt(v.expirationDays, nowMs), MessageText(v.message))
  }

  /** One record per name; the k-th record gets the k-th random id. */
  function Records(v: FormValues, file: FileInfo, fileId: nat -> string, names: seq<string>, nowIso: string,
                   nowMs: int): seq<ShareRecord>
  {
    seq(|names|, k requires 0 <= k < |names| => Record(v, file, fileId(k), names[k], nowIso, nowMs))
  }

  /** Each share record names the file, one recipient and the expiry, recipient by
      recipient in the order chosen. */
  lemma RecordsNameRecipients(v: FormValues, file: FileInfo, fileId: nat -> string, names: seq<string>,
                              nowIso: string, nowMs: int)
    ensures |Records(v, file, fileId, names, nowIso, nowMs)| == |names|
    ensures forall k :: 0 <= k < |names| ==>
              (var r := Records(v, file, fileId, names, nowIso, nowMs)[k];
               r.sharedTo == names[k] && r.fileName == file.name && r.sharedBy == CurrentUser
               && r.expiresAt == ExpiresAt(v.expirationDays, nowMs) && r.message == MessageText(v.message))
  {
    forall k | 0 <= k < |names|
      ensures Records(v, file, fileId, names, nowIso, nowMs)[k] == Record(v, file, fileId(k), names[k], nowIso, nowMs)
    {
    }
  }

  lemma RecordsSnoc(v: FormValues, file: FileInfo, fileId: nat -> string, names: seq<string>, name: string,
                    nowIso: string, nowMs: int)
    ensures Records(v, file, fileId, names + [name], nowIso, nowMs)
            == Records(v, file, fileId, names, nowIso, nowMs) + [Record(v, file, fileId(|names|), name, nowIso, nowMs)]
  {
    var a := Records(v, file, fileId, names + [name], nowIso, nowMs);
    var b := Records(v, file, fileId, names, nowIso, nowMs) + [Record(v, file, fileId(|names|), name, nowIso, nowMs)];
    assert |a| == |b|;
    forall k | 0 <= k < |a| ensures a[k] == b[k] {
      if k < |names| {
        assert (names + [name])[k] == names[k];
      }
    }
  }

  lemma RecipientNamesSnoc(users: seq<Directory.Person>, ids: seq<string>, i: nat)
    requires i < |ids|
    ensures RecipientNames(users, ids[..i + 1])
            == RecipientNames(users, ids[..i])
               + (match Directory.Find(users, ids[i]) case Some(p) => [p.name] case None => [])
  {
    assert ids[..i + 1][..i] == ids[..i];
  }

  /** The `forEach` over the chosen recipients: a record for each id found in the user
      list, none for an unknown one; the k-th record takes the k-th random id. */
  method ShareRecords(users: seq<Directory.Person>, v: FormValues, file: FileInfo, fileId: nat -> string,
                      nowIso: string, nowMs: int)
    returns (records: seq<ShareRecord>)
    ensures records == Records(v, file, fileId, RecipientNames(users, v.recipients), nowIso, nowMs)
  {
    var ids := v.recipients;
    var names: seq<string> := [];
    records := [];
    var i := 0;
    while i < |ids|
      invariant 0 <= i <= |ids|
      invariant names == RecipientNames(users, ids[..i])
      invariant records == Records(v, file, fileId, names, nowIso, nowMs)
    {
      RecipientNamesSnoc(users, ids, i);
      var found := Directory.Find(users, ids[i]);
      if found.Some? {
        RecordsSnoc(v, file, fileId, names, found.value.name, nowIso, nowMs);
        records := records + [Record(v, file, fileId(|names|), found.value.name, nowIso, nowMs)];
        names := names + [found.value.name];
      }
      i := i + 1;
    }
    assert ids[..|ids|] == ids;
  }

  class ShareForm {
    var selectedFile: Option<FileInfo>
    var isLoading: bool
    var values: FormValues
    /** What the share log has received. */
    var logged: seq<ShareRecord>
    /** How many times the parent's `onFileShared` was called. */
    var shared: nat

    constructor ()
      ensures selectedFile.None? && !isLoading && values == Defaults() && logged == [] && shared == 0
    {
      selectedFile := None;
      isLoading := false;
      values := Defaults();
      logged := [];
      shared := 0;
    }

    /** `handleFileChange`: the first picked file is shown and becomes the form's file; an
        empty pick changes nothing. */
    method HandleFileChange(files: seq<FileInfo>)
      modifies this
      ensures files == [] ==> unchanged(this)
      ensures files != [] ==> selectedFile == Some(files[0]) && values == old(values).(file := Some(files[0]))
      ensures isLoading == old(isLoading) && logged == old(logged) && shared == old(shared)
    {
      if files != [] {
        selectedFile := Some(files[0]);
        values := values.(file := Some(files[0]));
      }
    }

    /** `handleRecipientsChange`. */
    method HandleRecipientsChange(ids: seq<string>)
      modifies this
      ensures values == old(values).(recipients := ids)
      ensures selectedFile == old(selectedFile) && isLoading == old(isLoading)
      ensures logged == old(logged) && shared == old(shared)
    {
      values := values.(recipients := ids);
    }

    /** A submit: values the schema refuses never reach `onSubmit`. Accepted values log one
        record per recipient found, with the k-th record taking the k-th random id. Then
        the form returns to its defaults, the file is cleared and the parent is told. */
    method Submit(fileId: nat -> string, nowIso: string, nowMs: int) returns (submitted: bool)
      modifies this
      ensures submitted <==> SchemaValid(old(values))
      ensures !submitted ==> unchanged(this)
      ensures submitted ==>
                logged == old(logged) + Records(old(values), old(values).file.value, fileId,
                                                RecipientNames(Directory.FormUsers(), old(values).recipients),
                                                nowIso, nowMs)
      ensures submitted ==> values == Defaults() && selectedFile.None? && !isLoading && shared == old(shared) + 1
    {
      if !SchemaValid(values) {
        return false;
      }
      isLoading := true;
      var records := ShareRecords(Directory.FormUsers(), values, values.file.value, fileId, nowIso, nowMs);
      logged := logged + records;
      values := Defaults();
      selectedFile := None;
      shared := shared + 1;
      isLoading := false;
      submitted := true;
    }
  }
}
