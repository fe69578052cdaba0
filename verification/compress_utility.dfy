/** The compression utility (components/utilidades/compress-utility.tsx): the file
    selection and its total size, the format and level enums, and the submit that names
    the archive after the clock, offers it for download and logs the operation. */
module CompressUtility {
  import opened Wrappers
  import Text
  import FileKinds
  import Progress

  const NamePrefix := "archivos_comprimidos_"
  const CurrentUser := "Usuario Actual"

  datatype Format = Zip | Rar | SevenZ
  datatype Level = Fast | Normal | Maximum

  function FormatText(f: Format): string {
    match f
    case Zip => "zip"
    case Rar => "rar"
    case SevenZ => "7z"
  }

  /** `z.enum(["zip", "rar", "7z"])`. */
  function ParseFormat(s: string): Option<Format> {
    if s == "zip" then Some(Zip) else if s == "rar" then Some(Rar) else if s == "7z" then Some(SevenZ) else None
  }

  function LevelText(l: Level): string {
    match l
    case Fast => "fast"
    case Normal => "normal"
    case Maximum => "maximum"
  }

  /** `z.enum(["fast", "normal", "maximum"])`. */
  function ParseLevel(s: string): Option<Level> {
    if s == "fast" then Some(Fast) else if s == "normal" then Some(Normal) else if s == "maximum" then Some(Maximum)
    else None
  }

  /** The enums accept exactly the texts of their members, and read each back as itself. */
  lemma EnumsRoundTrip(f: Format, l: Level, s: string)
    ensures ParseFormat(FormatText(f)) == Some(f)
    ensures ParseFormat(s).Some? ==> FormatText(ParseFormat(s).value) == s
    ensures ParseLevel(LevelText(l)) == Some(l)
    ensures ParseLevel(s).Some? ==> LevelText(ParseLevel(s).value) == s
  {
    assert "zip"[0] != "rar"[0] && "zip"[0] != "7z"[0] && "rar"[0] != "7z"[0];
    assert "fast"[0] != "normal"[0] && "fast"[0] != "maximum"[0] && "normal"[0] != "maximum"[0];
  }

  datatype FileInfo = FileInfo(name: string, size: nat)

  /** `selectedFiles.reduce((total, file) => total + file.size, 0)`. */
  function TotalSize(files: seq<FileInfo>): nat {
    if files == [] then 0 else TotalSize(files[..|files| - 1]) + files[|files| - 1].size
  }

  /** The total of two selections joined is the sum of their totals. */
  lemma {:induction false} TotalSizeAppend(a: seq<FileInfo>, b: seq<FileInfo>)
    ensures TotalSize(a + b) == TotalSize(a) + TotalSize(b)
    decreases |b|
  {
    if b == [] {
      assert a + b == a;
    } else {
      var init := b[..|b| - 1];
      assert (a + b)[..|a + b| - 1] == a + init;
      TotalSizeAppend(a, init);
    }
  }

  /** No file is bigger than the total, and the total is 0 exactly when every file is
      empty. */
  lemma {:induction false} TotalSizeBounds(files: seq<FileInfo>)
    ensures forall k :: 0 <= k < |files| ==> files[k].size <= TotalSize(files)
    ensures TotalSize(files) == 0 <==> forall k :: 0 <= k < |files| ==> files[k].size == 0
  {
    if files != [] {
      var init := files[..|files| - 1];
      TotalSizeBounds(init);
      assert forall k :: 0 <= k < |init| ==> init[k] == files[k];
    }
  }

  /** `!!data.password`. */
  predicate HasPassword(password: Option<string>) {
    password.Some? && password.value != ""
  }

  /** The archive name: the prefix, the ISO timestamp with every ':' and '.' turned into
      '-', a dot and the format. */
  function ArchiveName(iso: string, format: Format): string {
    NamePrefix + Text.DashColonsAndDots(iso) + "." + FormatText(format)
  }

  /** The archive name has the chosen format as its extension, and everything before its
      only dot is the prefix and the timestamp. */
  lemma ArchiveNameReadsBack(iso: string, format: Format)
    ensures FileKinds.Extension(ArchiveName(iso, format)) == FormatText(format)
    ensures Text.BeforeFirst(ArchiveName(iso, format), '.') == NamePrefix + Text.DashColonsAndDots(iso)
  {
    var stem := NamePrefix + Text.DashColonsAndDots(iso);
    var ext := FormatText(format);
    PrefixWithoutDot();
    assert '.' !in stem;
    FormatTextIsLowerCase(format);
    FileKinds.ExtensionOfLowerCase(stem, ext);
    assert stem + "." + ext == stem + ['.'] + ext;
    Text.BeforeFirstOfStem(stem, '.', ext);
  }

  lemma PrefixWithoutDot()
    ensures '.' !in NamePrefix
  {
    assert forall i :: 0 <= i < |NamePrefix| ==> NamePrefix[i] != '.';
  }

  lemma FormatTextIsLowerCase(format: Format)
    ensures '.' !in FormatText(format)
    ensures forall i :: 0 <= i < |FormatText(format)| ==> !Text.IsUpper(FormatText(format)[i])
  {
  }

  /** The form's values; the enum fields hold the selects' text. `files` is the form's own
      file list, which is not the component's `selectedFiles`: it is what the registered
      input held when it registered (no files), and only a write to the form changes it. */
  datatype FormValues = FormValues(files: seq<FileInfo>, format: string, compressionLevel: string,
                                   password: Option<string>)

  /** `defaultValues`, with the empty list the file input registers with. */
  function Defaults(): FormValues {
    FormValues([], "zip", "normal", Some(""))
  }

  /** `compressFormSchema`: at least one file, and both enums parse. */
  predicate SchemaValid(v: FormValues) {
    |v.files| > 0 && ParseFormat(v.format).Some? && ParseLevel(v.compressionLevel).Some?
  }

  /** The defaults alone are refused for want of files; with a file list written into the
      form they pass exactly when the list is not empty, and record no password. */
  lemma DefaultsNeedOnlyFiles(files: seq<FileInfo>)
    ensures !SchemaValid(Defaults())
    ensures SchemaValid(Defaults().(files := files)) <==> |files| > 0
    ensures !HasPassword(Defaults().password)
  {
    assert ParseFormat("zip") == Some(Zip);
    assert "normal" != "fast" by { assert "normal"[0] != "fast"[0]; }
    assert ParseLevel("normal") == Some(Normal);
  }

  /** The operation `onSubmit` logs. */
  datatype CompressionRecord = CompressionRecord(id: string, operationType: string, inputFiles: string,
                                                 outputFile: string, format: Format, compressionLevel: Level,
                                                 hasPassword: bool, createdBy: string, createdAt: string)

  function Names(files: seq<FileInfo>): (r: seq<string>)
    ensures |r| == |files| && forall k :: 0 <= k < |files| ==> r[k] == files[k].name
  {
    seq(|files|, k requires 0 <= k < |files| => files[k].name)
  }

  class Compressor {
    var selectedFiles: seq<FileInfo>
    var isCompressing: bool
    var progress: nat
    var downloadUrl: Option<string>
    var downloadFilename: string
    var values: FormValues
    /** What the operation log has received. */
    var logged: seq<CompressionRecord>
    /** The names of the downloads started by the generated link's click. */
    var downloads: seq<string>
    /** How many times the parent's `onOperationComplete` was called. */
    var completions: nat

    constructor ()
      ensures selectedFiles == [] && !isCompressing && progress == 0 && downloadUrl.None?
      ensures downloadFilename == "" && values == Defaults() && logged == [] && downloads == []
      ensures completions == 0
    {
      selectedFiles := [];
      isCompressing := false;
      progress := 0;
      downloadUrl := None;
      downloadFilename := "";
      values := Defaults();
      logged := [];
      downloads := [];
      completions := 0;
    }

    /** `handleFileChange`, as written: a non-empty pick replaces the selection shown; an
        empty one leaves it as it was. The input's `onChange` replaces the one `register`
        supplies, so the form's `files` is never written. */
    method HandleFileChange(files: seq<FileInfo>)
      modifies this
      ensures files != [] ==> selectedFiles == files
      ensures files == [] ==> unchanged(this)
      ensures isCompressing == old(isCompressing) && progress == old(progress) && values == old(values)
      ensures logged == old(logged) && downloads == old(downloads) && completions == old(completions)
      ensures downloadUrl == old(downloadUrl) && downloadFilename == old(downloadFilename)
    {
      if files != [] {
        selectedFiles := files;
      }
    }

    /** `handleFileChange` as the share form writes it: the pick also goes into the form's
        `files`, so the schema sees it. */
    method HandleFileChangeIntended(files: seq<FileInfo>)
      modifies this
      ensures files != [] ==> selectedFiles == files && values == old(values).(files := files)
      ensures files == [] ==> unchanged(this)
      ensures isCompressing == old(isCompressing) && progress == old(progress)
      ensures logged == old(logged) && downloads == old(downloads) && completions == old(completions)
      ensures downloadUrl == old(downloadUrl) && downloadFilename == old(downloadFilename)
    {
      if files != [] {
        selectedFiles := files;
        values := values.(files := files);
      }
    }

    /** The format select's `setValue("format", value)`. */
    method ChooseFormat(format: string)
      modifies this
      ensures values == old(values).(format := format)
      ensures selectedFiles == old(selectedFiles) && isCompressing == old(isCompressing)
      ensures progress == old(progress) && logged == old(logged) && downloads == old(downloads)
      ensures completions == old(completions) && downloadUrl == old(downloadUrl)
      ensures downloadFilename == old(downloadFilename)
    {
      values := values.(format := format);
    }

    /** The level select's `setValue("compressionLevel", value)`. */
    method ChooseLevel(level: string)
      modifies this
      ensures values == old(values).(compressionLevel := level)
      ensures selectedFiles == old(selectedFiles) && isCompressing == old(isCompressing)
      ensures progress == old(progress) && logged == old(logged) && downloads == old(downloads)
      ensures completions == old(completions) && downloadUrl == old(downloadUrl)
      ensures downloadFilename == old(downloadFilename)
    {
      values := values.(compressionLevel := level);
    }

    /** Typing into the registered password input. */
    method TypePassword(password: string)
      modifies this
      ensures values == old(values).(password := Some(password))
      ensures selectedFiles == old(selectedFiles) && isCompressing == old(isCompressing)
      ensures progress == old(progress) && logged == old(logged) && downloads == old(downloads)
      ensures completions == old(completions) && downloadUrl == old(downloadUrl)
      ensures downloadFilename == old(downloadFilename)
    {
      values := values.(password := Some(password));
    }

    /** Line 260: the submit button is disabled while compressing or with nothing picked. */
    predicate SubmitEnabled()
      reads this
    {
      !isCompressing && |selectedFiles| > 0
    }

    /** A submit run to its end. Values the schema refuses never reach `onSubmit`.
        Otherwise the progress interval is fed the random steps of the ticks that fired,
        the archive is named after `stampIso` and offered at `url`, the operation is
        logged under `recordId` at `nowIso`, and the flag drops in `finally`. */
    method Submit(steps: seq<nat>, url: string, stampIso: string, recordId: string, nowIso: string)
      returns (submitted: bool)
      modifies this
      ensures submitted <==> SchemaValid(old(values))
      ensures !submitted ==> unchanged(this)
      ensures submitted ==>
                var format := ParseFormat(old(values).format).value;
                var name := ArchiveName(stampIso, format);
                && downloadUrl == Some(url) && downloadFilename == name && downloads == old(downloads) + [name]
                && logged == old(logged) + [CompressionRecord(recordId, "compression",
                                                              Text.Join(Names(old(selectedFiles)), ", "), name,
                                                              format, ParseLevel(old(values).compressionLevel).value,
                                                              HasPassword(old(values).password), CurrentUser, nowIso)]
                && completions == old(completions) + 1
                && !isCompressing && progress <= 100
      ensures submitted && (forall k :: 0 <= k < |steps| ==> 1 <= steps[k] <= 5) && |steps| >= 100 ==> progress == 100
      ensures submitted ==> progress == (if Progress.Sum(steps) >= 100 then 100 else Progress.Sum(steps))
      ensures selectedFiles == old(selectedFiles) && values == old(values)
    {
      if !SchemaValid(values) {
        return false;
      }
      isCompressing := true;
      progress := 0;
      var ticks;
      progress, ticks := Progress.Run(0, steps);
      var format := ParseFormat(values.format).value;
      var name := ArchiveName(stampIso, format);
      Finish(url, name, CompressionRecord(recordId, "compression", Text.Join(Names(selectedFiles), ", "), name,
                                          format, ParseLevel(values.compressionLevel).value,
                                          HasPassword(values.password), CurrentUser, nowIso));
      submitted := true;
    }

    /** The end of a submit: the archive is offered and downloaded, the operation logged,
        the parent told, and the flag dropped. */
    method Finish(url: string, name: string, record: CompressionRecord)
      modifies this
      ensures downloadUrl == Some(url) && downloadFilename == name && downloads == old(downloads) + [name]
      ensures logged == old(logged) + [record] && completions == old(completions) + 1 && !isCompressing
      ensures progress == old(progress) && selectedFiles == old(selectedFiles) && values == old(values)
    {
      downloadUrl := Some(url);
      downloadFilename := name;
      logged := logged + [record];
      downloads := downloads + [name];
      completions := completions + 1;
      isCompressing := false;
    }
  }

  /** The page as written: pick files, set the selects and the password, press the button.
      A non-empty pick enables the button, yet the submit is always refused, since nothing
      the page does writes the form's `files`. */
  method PickThenSubmit(files: seq<FileInfo>, format: string, level: string, password: string,
                        steps: seq<nat>, url: string, stampIso: string, recordId: string, nowIso: string)
    returns (enabled: bool, submitted: bool)
    ensures enabled <==> |files| > 0
    ensures !submitted
  {
    var page := new Compressor();
    page.HandleFileChange(files);
    page.ChooseFormat(format);
    page.ChooseLevel(level);
    page.TypePassword(password);
    enabled := page.SubmitEnabled();
    submitted := page.Submit(steps, url, stampIso, recordId, nowIso);
  }

  /** The same page with the pick written into the form: a submit goes through exactly when
      files were picked and both selects hold one of their items. */
  method PickThenSubmitIntended(files: seq<FileInfo>, format: Format, level: Level, password: string,
                                steps: seq<nat>, url: string, stampIso: string, recordId: string, nowIso: string)
    returns (enabled: bool, submitted: bool)
    ensures enabled <==> |files| > 0
    ensures submitted <==> |files| > 0
  {
    var page := new Compressor();
    page.HandleFileChangeIntended(files);
    page.ChooseFormat(FormatText(format));
    page.ChooseLevel(LevelText(level));
    page.TypePassword(password);
    EnumsRoundTrip(format, level, "");
    enabled := page.SubmitEnabled();
    submitted := page.Submit(steps, url, stampIso, recordId, nowIso);
  }
}
