/** The local checks an upload must pass before any backend call: a file is
    selected, and its extension is one of the allowed ones. */
module UploadPolicy {
  import opened Types
  import opened Text

  /** The allowed extensions, in lower case. */
  const AllowedExtensions: seq<string> := ["txt", "pdf"]

  /** Why an upload was refused before reaching the backend. */
  datatype Rejection = NoFileSelected | DisallowedExtension
  {
    /** The text of the notification shown for the refusal. */
    function Message(): (r: string)
      ensures this.NoFileSelected? <==> r == "Please select a file first."
      ensures this.DisallowedExtension? <==> r == "Only TXT or PDF files are allowed."
    {
      match this
      case NoFileSelected => "Please select a file first."
      case DisallowedExtension => "Only TXT or PDF files are allowed."
    }

    /** How long the refusal's notification stays on screen, in milliseconds. */
    function DurationMs(): (r: nat)
      ensures this.NoFileSelected? ==> r == 3000
      ensures this.DisallowedExtension? ==> r == 4000
    {
      match this
      case NoFileSelected => 3000
      case DisallowedExtension => 4000
    }
  }

  /** The extension as the source computes it: the last `.`-separated
      segment of the name, lower-cased. */
  function Extension(name: string): string
  {
    ToLower(LastSegment(name))
  }

  /** The extension test: an empty extension is refused, and so is any
      extension that is not in the allowed list. */
  predicate ExtensionAllowed(ext: string)
  {
    ext != "" && ext in AllowedExtensions
  }

  /** Checks the currently selected file, if any. */
  function ValidateUpload(selected: Option<File>): (r: Result<File, Rejection>)
    ensures selected.None? <==> r == Err(NoFileSelected)
    ensures r.Ok? ==> selected == Some(r.value)
    ensures r.Ok? <==> selected.Some? && Extension(selected.value.name) in {"txt", "pdf"}
  {
    match selected
    case None => Err(NoFileSelected)
    case Some(f) =>
      if ExtensionAllowed(Extension(f.name)) then Ok(f) else Err(DisallowedExtension)
  }

  /** For a name with a `.`, acceptance depends only on what follows the
      last `.`, and ignores its letter case. */
  lemma AcceptsDottedName(base: string, ext: string)
    requires '.' !in ext
    ensures ValidateUpload(Some(File(base + "." + ext))).Ok?
        <==> ToLower(ext) == "txt" || ToLower(ext) == "pdf"
  {
    LastSegmentAfterDot(base, ext);
  }

  /** An accepted name ends with a three-letter segment that contains no `.`:
      either the whole name is that segment or a `.` precedes it. */
  lemma AcceptedNameShape(f: File)
    requires ValidateUpload(Some(f)).Ok?
    ensures |f.name| >= 3
    ensures '.' !in f.name[|f.name| - 3..]
    ensures |f.name| == 3 || f.name[|f.name| - 4] == '.'
  {
  }

  /** An upper-case allowed extension passes: `report.PDF` is accepted. */
  lemma UpperCaseExtensionAccepted()
    ensures ValidateUpload(Some(File("report.PDF"))).Ok?
  {
    AcceptsDottedName("report", "PDF");
    assert "report" + "." + "PDF" == "report.PDF";
    assert ToLower("PDF") == "pdf";
  }

  /** An extension outside the allowed list fails: `image.png` is refused. */
  lemma OtherExtensionRefused()
    ensures ValidateUpload(Some(File("image.png"))) == Err(DisallowedExtension)
  {
  }

  /** A name ending in `.` has an empty extension and is refused. */
  lemma TrailingDotRefused()
    ensures ValidateUpload(Some(File("name."))) == Err(DisallowedExtension)
  {
  }

  /** Only the last segment counts: `archive.txt.zip` is refused. */
  lemma InnerExtensionIgnored()
    ensures ValidateUpload(Some(File("archive.txt.zip"))) == Err(DisallowedExtension)
  {
  }

  /** A name without any `.` is its own extension, so a file named exactly
      `txt` or `PDF` passes the check. */
  lemma UndottedNameIsItsOwnExtension(name: string)
    requires '.' !in name
    ensures ValidateUpload(Some(File(name))).Ok? <==> ToLower(name) in {"txt", "pdf"}
  {
  }
}
