/** The document scanner (components/utilidades/scan-document-utility.tsx): the camera
    switch, the capture that names the document after the clock, the reset, and the
    "process and share" step that refuses incomplete input and logs a PDF operation. */
module ScanDocument {
  import opened Wrappers
  import Text
  import Directory
  import Progress
  import FileKinds

  const NamePrefix := "documento_escaneado_"
  const CurrentUser := "Usuario Actual"

  /** The default document name built from the capture's ISO 8601 timestamp: its first 19
      characters with every ':' and '.' turned into '-'. */
  function DefaultName(iso: string): (r: string)
    ensures Text.IsPrefix(NamePrefix, r)
    ensures |r| == |NamePrefix| + (if |iso| < 19 then |iso| else 19)
    ensures ':' !in r && '.' !in r
    ensures forall i :: 0 <= i < |iso| && i < 19 && iso[i] != ':' && iso[i] != '.' ==> r[|NamePrefix| + i] == iso[i]
  {
    var stamp := Text.Take(Text.DashColonsAndDots(iso), 19);
    assert forall i :: 0 <= i < |stamp| ==> stamp[i] == Text.DashColonsAndDots(iso)[i];
    assert ':' !in NamePrefix && '.' !in NamePrefix;
    NamePrefix + stamp
  }

  /** The recorded file is the document name with the PDF extension. */
  function OutputFile(documentName: string): string {
    documentName + ".pdf"
  }

  /** The recorded output file always reads as a PDF, and for a default name the part
      before the first dot gives the name back. */
  lemma OutputFileIsPdf(documentName: string)
    ensures FileKinds.Extension(OutputFile(documentName)) == "pdf"
    ensures '.' !in documentName ==> Text.BeforeFirst(OutputFile(documentName), '.') == documentName
  {
    var ext := "pdf";
    assert ext == ['p', 'd', 'f'];
    assert OutputFile(documentName) == documentName + "." + ext;
    FileKinds.ExtensionOfLowerCase(documentName, ext);
    if '.' !in documentName {
      assert OutputFile(documentName) == documentName + ['.'] + ext;
      Text.BeforeFirstOfStem(documentName, '.', ext);
    }
  }

  /** A default name has no dot, so its output file splits back to it. */
  lemma DefaultNameReadsBack(iso: string)
    ensures Text.BeforeFirst(OutputFile(DefaultName(iso)), '.') == DefaultName(iso)
  {
    OutputFileIsPdf(DefaultName(iso));
  }

  datatype CameraPermission = Granted | Denied | Prompt

  /** The operation `processAndShare` logs. */
  datatype ScanRecord = ScanRecord(id: string, operationType: string, outputFile: string, quality: string,
                                   recipients: string, createdBy: string, createdAt: string)

  /** `!capturedImage || !documentName || selectedRecipients.length === 0` reversed. */
  predicate ReadyToShare(capturedImage: Option<string>, documentName: string, recipients: seq<string>) {
    capturedImage.Some? && capturedImage.value != "" && documentName != "" && |recipients| > 0
  }

  class Scanner {
    var cameraPermission: CameraPermission
    var isCameraActive: bool
    var capturedImage: Option<string>
    var isProcessing: bool
    var progress: nat
    var documentName: string
    var selectedRecipients: seq<string>
    var documentQuality: string
    /** What the operation log has received. */
    var logged: seq<ScanRecord>
    /** How many times the parent's `onOperationComplete` was called. */
    var completions: nat

    constructor ()
      ensures cameraPermission == Prompt && !isCameraActive && capturedImage.None? && !isProcessing
      ensures progress == 0 && documentName == "" && selectedRecipients == [] && documentQuality == "high"
      ensures logged == [] && completions == 0
    {
      cameraPermission := Prompt;
      isCameraActive := false;
      capturedImage := None;
      isProcessing := false;
      progress := 0;
      documentName := "";
      selectedRecipients := [];
      documentQuality := "high";
      logged := [];
      completions := 0;
    }

    /** `requestCameraPermission`: `granted` is whether `getUserMedia` resolved. */
    method RequestCameraPermission(granted: bool)
      modifies this
      ensures granted ==> cameraPermission == Granted && isCameraActive
      ensures !granted ==> cameraPermission == Denied && isCameraActive == old(isCameraActive)
      ensures capturedImage == old(capturedImage) && documentName == old(documentName)
      ensures selectedRecipients == old(selectedRecipients) && progress == old(progress)
      ensures isProcessing == old(isProcessing) && logged == old(logged) && completions == old(completions)
      ensures documentQuality == old(documentQuality)
    {
      if granted {
        cameraPermission := Granted;
        isCameraActive := true;
      } else {
        cameraPermission := Denied;
      }
    }

    /** `stopCamera`. */
    method StopCamera()
      modifies this
      ensures !isCameraActive
      ensures cameraPermission == old(cameraPermission) && capturedImage == old(capturedImage)
      ensures documentName == old(documentName) && selectedRecipients == old(selectedRecipients)
      ensures progress == old(progress) && isProcessing == old(isProcessing)
      ensures logged == old(logged) && completions == old(completions) && documentQuality == old(documentQuality)
    {
      isCameraActive := false;
    }

    /** `captureImage`: `drawable` is whether the video, the canvas and its 2D context are
        all there; `image` is the canvas's data URL and `iso` the clock's ISO text. */
    method CaptureImage(drawable: bool, image: string, iso: string)
      modifies this
      ensures drawable ==> capturedImage == Some(image) && !isCameraActive && documentName == DefaultName(iso)
      ensures !drawable ==> capturedImage == old(capturedImage) && isCameraActive == old(isCameraActive)
                            && documentName == old(documentName)
      ensures cameraPermission == old(cameraPermission) && selectedRecipients == old(selectedRecipients)
      ensures progress == old(progress) && isProcessing == old(isProcessing)
      ensures logged == old(logged) && completions == old(completions) && documentQuality == old(documentQuality)
    {
      if drawable {
        capturedImage := Some(image);
        StopCamera();
        documentName := DefaultName(iso);
      }
    }

    /** `resetScan`. */
    method ResetScan()
      modifies this
      ensures capturedImage.None? && documentName == "" && selectedRecipients == []
      ensures progress == 0 && !isProcessing
      ensures !ReadyToShare(capturedImage, documentName, selectedRecipients)
      ensures cameraPermission == old(cameraPermission) && isCameraActive == old(isCameraActive)
      ensures logged == old(logged) && completions == old(completions) && documentQuality == old(documentQuality)
    {
      capturedImage := None;
      documentName := "";
      selectedRecipients := [];
      progress := 0;
      isProcessing := false;
    }

    /** `processAndShare` run to its end. Incomplete input is refused before anything
        changes. Otherwise the progress interval is fed the random steps of the ticks
        that fired, the PDF operation is logged under `recordId` at `now`, and the parent
        is told. */
    method ProcessAndShare(steps: seq<nat>, recordId: string, now: string) returns (started: bool)
      modifies this
      ensures started <==> ReadyToShare(old(capturedImage), old(documentName), old(selectedRecipients))
      ensures !started ==> unchanged(this)
      ensures started ==> logged == old(logged) + [ScanRecord(recordId, "scan", OutputFile(old(documentName)),
                                                              old(documentQuality),
                                                              Directory.JoinedNames(Directory.FormUsers(), old(selectedRecipients)),
                                                              CurrentUser, now)]
      ensures started ==> completions == old(completions) + 1 && !isProcessing && progress <= 100
      ensures started && (forall k :: 0 <= k < |steps| ==> 1 <= steps[k] <= 5) && |steps| >= 100 ==> progress == 100
      ensures started ==> progress == (if Progress.Sum(steps) >= 100 then 100 else Progress.Sum(steps))
      ensures capturedImage == old(capturedImage) && documentName == old(documentName)
      ensures selectedRecipients == old(selectedRecipients) && documentQuality == old(documentQuality)
      ensures cameraPermission == old(cameraPermission) && isCameraActive == old(isCameraActive)
    {
      if !ReadyToShare(capturedImage, documentName, selectedRecipients) {
        return false;
      }
      isProcessing := true;
      progress := 0;
      var ticks;
      progress, ticks := Progress.Run(0, steps);
      var recipients := Directory.JoinedNames(Directory.FormUsers(), selectedRecipients);
      Finish(ScanRecord(recordId, "scan", OutputFile(documentName), documentQuality, recipients, CurrentUser, now));
      started := true;
    }

    /** The end of a share: the operation is logged, the parent told, the flag dropped. */
    method Finish(record: ScanRecord)
      modifies this
      ensures logged == old(logged) + [record] && completions == old(completions) + 1 && !isProcessing
      ensures progress == old(progress) && capturedImage == old(capturedImage) && documentName == old(documentName)
      ensures selectedRecipients == old(selectedRecipients) && documentQuality == old(documentQuality)
      ensures cameraPermission == old(cameraPermission) && isCameraActive == old(isCameraActive)
    {
      logged := logged + [record];
      completions := completions + 1;
      isProcessing := false;
    }
  }
}
