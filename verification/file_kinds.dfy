/** File-name classification shared by the converter, the importer, the uploader and the
    share form: the lowercased extension and the icon colour picked from it. */
module FileKinds {
  import Text

  /** `name.split(".").pop()?.toLowerCase()`: the lowercased text after the last dot,
      the whole name when there is none. */
  function Extension(fileName: string): (ext: string)
    ensures '.' !in ext && |ext| <= |fileName|
    ensures ext == Text.Lower(fileName[|fileName| - |ext|..])
    ensures '.' !in fileName ==> ext == Text.Lower(fileName)
  {
    var last := Text.AfterLast(fileName, '.');
    LoweredHasNoDot(last);
    Text.Lower(last)
  }

  /** Lowercasing never produces a dot. */
  lemma LoweredHasNoDot(s: string)
    requires '.' !in s
    ensures '.' !in Text.Lower(s)
  {
    var r := Text.Lower(s);
    forall i | 0 <= i < |r| ensures r[i] != '.' {
      assert s[i] != '.';
    }
  }

  /** The extension of `stem.ext` is the lowercased ext, whatever the stem holds. */
  lemma ExtensionOf(stem: string, ext: string)
    requires '.' !in ext
    ensures Extension(stem + "." + ext) == Text.Lower(ext)
  {
    Text.AfterLastOfTail(stem, '.', ext);
  }

  /** A lowercase extension is read back as it is. */
  lemma ExtensionOfLowerCase(stem: string, ext: string)
    requires '.' !in ext && forall i :: 0 <= i < |ext| ==> !Text.IsUpper(ext[i])
    ensures Extension(stem + "." + ext) == ext
  {
    ExtensionOf(stem, ext);
    Text.LowerOfLowerCase(ext);
  }

  datatype Colour = Blue500 | Red500 | Blue700 | Green600 | Orange500 | Gray500

  /** `getFileIcon` of the importer and of the share form: images, PDF, Word, Excel,
      anything else grey. */
  function ImporterIcon(fileName: string): (c: Colour)
    ensures c != Orange500
    ensures c == Red500 <==> Extension(fileName) == "pdf"
    ensures c == Gray500 <==> Extension(fileName) !in ["jpg", "jpeg", "png", "gif", "pdf", "doc", "docx", "xls", "xlsx"]
  {
    var ext := Extension(fileName);
    if ext in ["jpg", "jpeg", "png", "gif"] then Blue500
    else if ext == "pdf" then Red500
    else if ext in ["doc", "docx"] then Blue700
    else if ext in ["xls", "xlsx"] then Green600
    else Gray500
  }

  /** `getFileIcon` of the uploader: also svg and webp images, and PowerPoint in orange. */
  function UploaderIcon(fileName: string): (c: Colour)
    ensures c == Orange500 <==> Extension(fileName) in ["ppt", "pptx"]
    ensures c == Red500 <==> Extension(fileName) == "pdf"
    ensures c == Gray500 <==>
              Extension(fileName) !in ["jpg", "jpeg", "png", "gif", "svg", "webp", "pdf", "doc", "docx", "xls", "xlsx", "ppt", "pptx"]
  {
    var ext := Extension(fileName);
    if ext in ["jpg", "jpeg", "png", "gif", "svg", "webp"] then Blue500
    else if ext == "pdf" then Red500
    else if ext in ["doc", "docx"] then Blue700
    else if ext in ["xls", "xlsx"] then Green600
    else if ext in ["ppt", "pptx"] then Orange500
    else Gray500
  }

  /** The two icon tables agree except on the four extensions only the uploader knows. */
  lemma IconTablesAgree(fileName: string)
    requires Extension(fileName) !in ["svg", "webp", "ppt", "pptx"]
    ensures UploaderIcon(fileName) == ImporterIcon(fileName)
  {
  }

  /** Upper-case extensions are classified like lower-case ones. */
  lemma IconIgnoresCase(stem: string, ext: string)
    requires '.' !in ext
    ensures ImporterIcon(stem + "." + ext) == ImporterIcon(stem + "." + Text.Lower(ext))
    ensures UploaderIcon(stem + "." + ext) == UploaderIcon(stem + "." + Text.Lower(ext))
  {
    ExtensionOf(stem, ext);
    LoweredHasNoDot(ext);
    ExtensionOf(stem, Text.Lower(ext));
    Text.LowerIdempotent(ext);
  }
}
