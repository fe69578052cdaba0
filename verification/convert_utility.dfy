/** The format converter (components/utilidades/convert-utility.tsx): it detects the
    source format from the file extension, offers the other formats of the same category,
    and names the converted file. */
module ConvertUtility {
  import opened Wrappers
  import Text
  import ListOps
  import Progress
  import FileKinds

  datatype Category = Category(name: string, formats: seq<string>)

  /** `formatExtensions`, in its key order. "pdf" belongs to two categories. */
  const Categories: seq<Category> := [
    Category("document", ["docx", "pdf", "txt", "rtf", "odt"]),
    Category("spreadsheet", ["xlsx", "csv", "ods"]),
    Category("presentation", ["pptx", "pdf"]),
    Category("image", ["jpg", "png", "gif", "webp", "tiff"])
  ]

  datatype Quality = Low | Medium | High

  predicate Known(format: string) {
    exists k :: 0 <= k < |Categories| && format in Categories[k].formats
  }

  /** The detection loop of `handleFileChange`: the extension itself when some category
      lists it, "" otherwise. */
  method DetectFormat(extension: string) returns (detected: string)
    ensures Known(extension) ==> detected == extension
    ensures !Known(extension) ==> detected == ""
  {
    detected := "";
    var k := 0;
    while k < |Categories|
      invariant 0 <= k <= |Categories|
      invariant detected == ""
      invariant forall j :: 0 <= j < k ==> extension !in Categories[j].formats
    {
      if extension in Categories[k].formats {
        detected := extension;
        break;
      }
      k := k + 1;
    }
  }

  /** The index of the first category that lists `format`, searching from `from`. */
  function FirstCategory(format: string, from: nat): (r: Option<nat>)
    requires from <= |Categories|
    ensures r.Some? ==> from <= r.value < |Categories| && format in Categories[r.value].formats &&
                        forall j :: from <= j < r.value ==> format !in Categories[j].formats
    ensures r.None? ==> forall j :: from <= j < |Categories| ==> format !in Categories[j].formats
    decreases |Categories| - from
  {
    if from == |Categories| then None
    else if format in Categories[from].formats then Some(from)
    else FirstCategory(format, from + 1)
  }

  /** `getCompatibleFormats()`: the first category holding `fromFormat`, without it. */
  function CompatibleFormats(fromFormat: string): (r: seq<string>)
    ensures fromFormat !in r
    ensures fromFormat == "" || !Known(fromFormat) ==> r == []
    ensures fromFormat != "" && Known(fromFormat) ==>
              FirstCategory(fromFormat, 0).Some? &&
              var formats := Categories[FirstCategory(fromFormat, 0).value].formats;
              && (forall f :: f in r <==> f in formats && f != fromFormat)
              && ListOps.IsSubsequence(r, formats)
  {
    if fromFormat == "" then []
    else match FirstCategory(fromFormat, 0)
      case None => []
      case Some(k) =>
        var r := ListOps.RemoveAll(Categories[k].formats, fromFormat);
        ListOps.RemoveAllIsSubsequence(Categories[k].formats, fromFormat);
        r
  }

  /** The first category wins, so "pdf" converts to the other document formats and never
      to "pptx". */
  lemma PdfIsADocument()
    ensures CompatibleFormats("pdf") == ["docx", "txt", "rtf", "odt"]
  {
    PdfInDocuments();
    DocumentFormats();
    RemovePdf();
  }

  lemma PdfInDocuments()
    ensures FirstCategory("pdf", 0) == Some(0)
  {
    assert Categories[0].formats[1] == "pdf";
  }

  lemma RemovePdf()
    ensures ListOps.RemoveAll(["docx", "pdf", "txt", "rtf", "odt"], "pdf") == ["docx", "txt", "rtf", "odt"]
  {
    var rest: seq<string> := ["txt", "rtf", "odt"];
    PdfNotInRest();
    RemovePdfAfterDocx(rest);
    assert ["docx", "pdf", "txt", "rtf", "odt"] == ["docx", "pdf"] + rest;
    assert ["docx", "txt", "rtf", "odt"] == ["docx"] + rest;
  }

  lemma DocumentFormats()
    ensures Categories[0].formats == ["docx", "pdf", "txt", "rtf", "odt"]
  {
  }

  lemma PdfNotInRest()
    ensures "pdf" !in ["txt", "rtf", "odt"]
  {
    var rest: seq<string> := ["txt", "rtf", "odt"];
    assert rest[0] != "pdf" && rest[1] != "pdf" && rest[2] != "pdf";
  }

  lemma RemovePdfAfterDocx(rest: seq<string>)
    requires "pdf" !in rest
    ensures ListOps.RemoveAll(["docx", "pdf"] + rest, "pdf") == ["docx"] + rest
  {
    assert (["docx", "pdf"] + rest)[1..] == ["pdf"] + rest;
    assert (["pdf"] + rest)[1..] == rest;
    assert "docx" != "pdf";
  }

  /** Every detectable format has somewhere to go: its category lists at least one other. */
  lemma DetectedFormatHasTargets(format: string)
    requires Known(format)
    ensures CompatibleFormats(format) != []
  {
    var k := FirstCategory(format, 0).value;
    var formats := Categories[k].formats;
    var other := if formats[0] != format then formats[0] else formats[1];
    assert other in formats && other != format;
    var i :| 0 <= i < |formats| && formats[i] == other;
  }

  /** `(selectedFile?.name.split(".")[0] || "archivo") + "_convertido." + toFormat`. */
  function OutputFilename(fileName: Option<string>, toFormat: string): (r: string)
    ensures var stem := if fileName.Some? then Text.BeforeFirst(fileName.value, '.') else "";
            r == (if stem == "" then "archivo" else stem) + "_convertido." + toFormat
    ensures fileName.Some? && Text.BeforeFirst(fileName.value, '.') != "" ==>
              Text.IsPrefix(Text.BeforeFirst(fileName.value, '.'), r) && '.' !in Text.BeforeFirst(fileName.value, '.')
  {
    var stem := if fileName.Some? then Text.BeforeFirst(fileName.value, '.') else "";
    (if stem == "" then "archivo" else stem) + "_convertido." + toFormat
  }

  /** The name keeps the stem up to the first dot, whatever follows it ("informe.final.docx"
      becomes "informe_convertido.<to>"); a name starting with a dot falls back to "archivo". */
  lemma OutputFilenameOfStem(stem: string, rest: string, toFormat: string)
    requires '.' !in stem
    ensures stem != "" ==> OutputFilename(Some(stem + "." + rest), toFormat) == stem + "_convertido." + toFormat
    ensures stem == "" ==> OutputFilename(Some(stem + "." + rest), toFormat) == "archivo_convertido." + toFormat
  {
    Text.BeforeFirstOfStem(stem, '.', rest);
  }

  const CurrentUser := "Usuario Actual"

  /** `convertFormSchema`: a file, and a source and a target format that are not empty. */
  predicate SchemaValid(file: Option<string>, fromFormat: string, toFormat: string) {
    file.Some? && fromFormat != "" && toFormat != ""
  }

  /** The operation `onSubmit` logs. */
  datatype ConversionRecord = ConversionRecord(id: string, operationType: string, inputFile: string,
                                               outputFile: string, fromFormat: string, toFormat: string,
                                               quality: Quality, createdBy: string, createdAt: string)

  /** The converter form's state. */
  class ConvertForm {
    var selectedFile: Option<string>
    var fromFormat: string
    var toFormat: string
    var quality: Quality
    var isConverting: bool
    var progress: nat
    var downloadUrl: Option<string>
    var downloadFilename: string
    /** What the operation log has received. */
    var logged: seq<ConversionRecord>
    /** The names of the downloads started by the generated link's click. */
    var downloads: seq<string>
    /** How many times the parent's `onOperationComplete` was called. */
    var completions: nat

    constructor ()
      ensures selectedFile.None? && fromFormat == "" && toFormat == "" && quality == High
      ensures !isConverting && progress == 0 && downloadUrl.None? && downloadFilename == ""
      ensures logged == [] && downloads == [] && completions == 0
    {
      selectedFile := None;
      fromFormat := "";
      toFormat := "";
      quality := High;
      isConverting := false;
      progress := 0;
      downloadUrl := None;
      downloadFilename := "";
      logged := [];
      downloads := [];
      completions := 0;
    }

    /** `handleFileChange`: the first picked file becomes the selection; the source format
        changes only when its extension is detected, and the target format is kept. */
    method HandleFileChange(files: seq<string>)
      modifies this
      ensures files == [] ==> unchanged(this)
      ensures files != [] ==> selectedFile == Some(files[0])
      ensures files != [] && Known(FileKinds.Extension(files[0])) ==> fromFormat == FileKinds.Extension(files[0])
      ensures files != [] && !Known(FileKinds.Extension(files[0])) ==> fromFormat == old(fromFormat)
      ensures toFormat == old(toFormat) && quality == old(quality) && isConverting == old(isConverting)
      ensures progress == old(progress) && downloadUrl == old(downloadUrl) && downloadFilename == old(downloadFilename)
      ensures logged == old(logged) && downloads == old(downloads) && completions == old(completions)
    {
      if files != [] {
        selectedFile := Some(files[0]);
        var detected := DetectFormat(FileKinds.Extension(files[0]));
        if detected != "" {
          fromFormat := detected;
        }
      }
    }

    /** The target-format select is disabled while converting or without a source format. */
    predicate TargetSelectEnabled()
      reads this
    {
      !isConverting && fromFormat != ""
    }

    /** The source-format select: disabled while converting; it sets the source format and
        leaves the chosen target as it was. */
    method ChooseFromFormat(format: string)
      modifies this
      ensures isConverting ==> unchanged(this)
      ensures !isConverting ==> fromFormat == format
      ensures selectedFile == old(selectedFile) && toFormat == old(toFormat) && quality == old(quality)
      ensures isConverting == old(isConverting) && progress == old(progress)
      ensures downloadUrl == old(downloadUrl) && downloadFilename == old(downloadFilename)
      ensures logged == old(logged) && downloads == old(downloads) && completions == old(completions)
    {
      if !isConverting {
        fromFormat := format;
      }
    }

    /** The target-format select, which offers the compatible formats only. */
    method ChooseToFormat(format: string)
      modifies this
      ensures TargetSelectEnabled() && format in CompatibleFormats(fromFormat) ==> toFormat == format
      ensures !(old(TargetSelectEnabled()) && format in CompatibleFormats(old(fromFormat))) ==> unchanged(this)
      ensures selectedFile == old(selectedFile) && fromFormat == old(fromFormat) && quality == old(quality)
      ensures isConverting == old(isConverting) && progress == old(progress)
      ensures downloadUrl == old(downloadUrl) && downloadFilename == old(downloadFilename)
      ensures logged == old(logged) && downloads == old(downloads) && completions == old(completions)
    {
      if TargetSelectEnabled() && format in CompatibleFormats(fromFormat) {
        toFormat := format;
      }
    }

    /** Line 308: submit needs a file, a source and a target format, and no conversion running. */
    predicate SubmitEnabled()
      reads this
    {
      !isConverting && SchemaValid(selectedFile, fromFormat, toFormat)
    }

    /** A submit run to its end. Values the schema refuses never reach `onSubmit`.
        Otherwise the progress interval is fed the random steps of the ticks that fired,
        the converted file is named and offered at `url`, the operation is logged under
        `recordId` at `nowIso`, and the flag drops in `finally`. */
    method Convert(steps: seq<nat>, url: string, recordId: string, nowIso: string) returns (submitted: bool)
      modifies this
      ensures submitted <==> SchemaValid(old(selectedFile), old(fromFormat), old(toFormat))
      ensures !submitted ==> unchanged(this)
      ensures submitted ==>
                var name := OutputFilename(old(selectedFile), old(toFormat));
                && downloadUrl == Some(url) && downloadFilename == name && downloads == old(downloads) + [name]
                && logged == old(logged) + [ConversionRecord(recordId, "conversion", old(selectedFile).value, name,
                                                             old(fromFormat), old(toFormat), old(quality),
                                                             CurrentUser, nowIso)]
                && completions == old(completions) + 1
                && !isConverting && progress <= 100
      ensures submitted && (forall k :: 0 <= k < |steps| ==> 1 <= steps[k] <= 5) && |steps| >= 100 ==> progress == 100
      ensures submitted ==> progress == (if Progress.Sum(steps) >= 100 then 100 else Progress.Sum(steps))
      ensures selectedFile == old(selectedFile) && fromFormat == old(fromFormat) && toFormat == old(toFormat)
      ensures quality == old(quality)
    {
      if !SchemaValid(selectedFile, fromFormat, toFormat) {
        return false;
      }
      isConverting := true;
      progress := 0;
      var ticks;
      progress, ticks := Progress.Run(0, steps);
      var name := OutputFilename(selectedFile, toFormat);
      Finish(url, name, ConversionRecord(recordId, "conversion", selectedFile.value, name,
                                         fromFormat, toFormat, quality, CurrentUser, nowIso));
      submitted := true;
    }

    /** The end of a submit: the converted file is offered and downloaded, the operation
        logged, the parent told, and the flag dropped. */
    method Finish(url: string, name: string, record: ConversionRecord)
      modifies this
      ensures downloadUrl == Some(url) && downloadFilename == name && downloads == old(downloads) + [name]
      ensures logged == old(logged) + [record] && completions == old(completions) + 1 && !isConverting
      ensures progress == old(progress) && selectedFile == old(selectedFile) && fromFormat == old(fromFormat)
      ensures toFormat == old(toFormat) && quality == old(quality)
    {
      downloadUrl := Some(url);
      downloadFilename := name;
      logged := logged + [record];
      downloads := downloads + [name];
      completions := completions + 1;
      isConverting := false;
    }
  }

  /** Picking a file of another format keeps the earlier target, so the form can reach a
      submittable state whose target is its own source format: "informe.docx" to "pdf",
      then "datos.pdf", converts a PDF to PDF. */
  method SameFormatReachable() returns (form: ConvertForm)
    ensures form.SubmitEnabled() && form.fromFormat == form.toFormat == "pdf"
  {
    form := new ConvertForm();
    DocxDetected();
    form.HandleFileChange(["informe" + "." + "docx"]);
    PdfOfferedForDocx();
    form.ChooseToFormat("pdf");
    PdfDetected();
    form.HandleFileChange(["datos" + "." + "pdf"]);
  }

  lemma DocxDetected()
    ensures FileKinds.Extension("informe" + "." + "docx") == "docx" && Known("docx")
  {
    var ext := "docx";
    assert ext == ['d', 'o', 'c', 'x'];
    FileKinds.ExtensionOfLowerCase("informe", ext);
    assert ext == Categories[0].formats[0];
  }

  lemma PdfDetected()
    ensures FileKinds.Extension("datos" + "." + "pdf") == "pdf" && Known("pdf")
  {
    var ext := "pdf";
    assert ext == ['p', 'd', 'f'];
    FileKinds.ExtensionOfLowerCase("datos", ext);
    assert ext == Categories[0].formats[1];
  }

  lemma PdfOfferedForDocx()
    ensures "pdf" in CompatibleFormats("docx")
  {
    assert Categories[0].formats[0] == "docx" && Categories[0].formats[1] == "pdf";
    assert FirstCategory("docx", 0) == Some(0);
    assert "pdf" != "docx";
  }
}
