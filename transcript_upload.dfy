/** The transcript upload panel of the browser client: a dropped or chosen file is checked
    for type and size before it is posted; typed text is posted as it is unless it is
    blank. The drop zone highlights while something is dragged over it. */
module TranscriptUpload {
  import opened Wrappers
  import opened Text
  import opened Schema
  import Routes

  /** A file as the browser describes it. */
  datatype BrowserFile = BrowserFile(name: string, fileType: string, size: nat)

  /** What the panel does with a list of files. */
  datatype FileDecision = NoFile | WrongType | TooLarge | Post(file: BrowserFile)

  const WrongTypeMessage := "Only plain text files are currently supported."
  const TooLargeMessage := "File must be smaller than 10MB."
  const EmptyTextMessage := "Please enter some transcript text."
  /** The panel's own size limit, 10 MiB, the same as the server's. */
  const MaxFileSize := 10 * 1024 * 1024

  /** Only the first file is considered; its type must mention "text/plain" (checked first)
      and its size must be at most 10 MiB. */
  function CheckFiles(files: seq<BrowserFile>): (d: FileDecision)
    ensures d.NoFile? <==> files == []
    ensures d.WrongType? <==> files != [] && !Contains(files[0].fileType, Routes.PlainText)
    ensures d.TooLarge? <==>
      files != [] && Contains(files[0].fileType, Routes.PlainText) && files[0].size > MaxFileSize
    ensures d.Post? <==>
      files != [] && Contains(files[0].fileType, Routes.PlainText) && files[0].size <= MaxFileSize
    ensures d.Post? ==> d.file == files[0]
  {
    if files == [] then NoFile
    else if !Contains(files[0].fileType, Routes.PlainText) then WrongType
    else if files[0].size > MaxFileSize then TooLarge
    else Post(files[0])
  }

  /** The text form: blank text is refused with a message, anything else is posted
      untrimmed. */
  function TextUpload(text: string): (r: Result<string, string>)
    ensures r.Ok? <==> !IsBlank(text)
    ensures r.Ok? ==> r.value == text
    ensures r.Err? ==> r.error == EmptyTextMessage
  {
    if Trim(text) == "" then Err(EmptyTextMessage) else Ok(text)
  }

  /** Text the panel posts is always accepted by the server, which stores it trimmed. */
  lemma PostedTextIsStored(text: string)
    requires TextUpload(text).Ok?
    ensures Routes.Upload(None, Some(TextUpload(text).value)) == Ok(InsertTranscript(Trim(text), None))
  {
  }

  /** The media type the server's multipart parser reports for a part whose header gives
      the type `t`: the part before any ';' parameter, without surrounding whitespace, in
      lower case. A bare lower-case media type is reported unchanged. */
  function MediaType(t: string): (m: string)
    ensures ';' !in t && IsTight(t) && ToLower(t) == t ==> m == t
  {
    var head := Split(t, ';')[0];
    if ';' !in t && IsTight(t) then SplitWithoutSeparator(t, ';'); TrimTight(t); ToLower(Trim(head))
    else ToLower(Trim(head))
  }

  /** The file as the server's upload middleware hands it over, with `text` its contents. A
      bare lower-case browser type reaches the server unchanged. */
  function ServerFile(f: BrowserFile, text: string): (u: Routes.UploadedFile)
    ensures ';' !in f.fileType && IsTight(f.fileType) && ToLower(f.fileType) == f.fileType ==> u.mimetype == f.fileType
  {
    Routes.UploadedFile(f.name, MediaType(f.fileType), f.size, text)
  }

  /** The parser drops a charset parameter: "text/plain;charset=utf-8" is plain text. */
  lemma CharsetParameterIsDropped()
    ensures MediaType("text/plain;charset=utf-8") == Routes.PlainText
  {
    var a, b := Routes.PlainText, "charset=utf-8";
    assert "text/plain;charset=utf-8" == a + [';'] + b;
    SplitAround(a, ';', b);
    BareType("text/plain");
    SplitWithoutSeparator(a, ';');
    TrimTight(a);
  }

  /** A lower-case type with no parameter and no surrounding whitespace, spelled out. */
  lemma BareType(t: string)
    requires t == "text/plain" || t == "text/plainx"
    ensures ';' !in t && IsTight(t) && ToLower(t) == t
  {
    if t == "text/plain" {
      assert t[0] == 't' && t[9] == 'n';
      assert ToLower("text/plain") == "text/plain";
    } else {
      assert t[0] == 't' && t[10] == 'x';
      assert ToLower("text/plainx") == "text/plainx";
    }
  }

  /** A file the panel posts whose media type is plain text and whose text is not blank is
      stored trimmed, under its name, whatever else the body holds. */
  lemma {:induction false} PostedPlainFileIsStored(f: BrowserFile, text: string, content: Option<string>)
    requires CheckFiles([f]).Post? && MediaType(f.fileType) == Routes.PlainText && !IsBlank(text)
    ensures Routes.Upload(Some(ServerFile(f, text)), content) == Ok(InsertTranscript(Trim(text), Some(f.name)))
  {
    assert [f][0] == f;
  }

  /** "text/plainx" is not an allowed type. */
  lemma ExtendedTypeRefused()
    ensures "text/plainx" !in Routes.AllowedTypes
  {
    assert "text/plainx"[0] == 't';
    assert Routes.Pdf[0] == 'a';
    assert |Routes.Docx| != 11;
  }

  /** The panel's type check is looser than the server's: a type that merely mentions
      "text/plain" is posted, and then refused by the upload middleware with status 500. */
  lemma LooseTypeCheck()
    ensures var f := BrowserFile("notes.txt", "text/plainx", 100);
      && CheckFiles([f]).Post?
      && Routes.Upload(Some(ServerFile(f, "notes")), None) == Err(Routes.Failure(500, Routes.InvalidTypeMessage))
  {
    var t := "text/plainx";
    assert Contains(t, Routes.PlainText) by {
      assert t[0..|Routes.PlainText|] == Routes.PlainText;
      assert OccursAt(t, Routes.PlainText, 0);
    }
    BareType(t);
    ExtendedTypeRefused();
  }

  /** The drop zone's highlight. */
  class DropZone {
    var dragActive: bool

    constructor ()
      ensures !dragActive
    {
      dragActive := false;
    }

    /** Entering or moving over the zone turns the highlight on, leaving turns it off, any
        other drag event leaves it as it is. */
    method HandleDrag(eventType: string)
      modifies this
      ensures eventType == "dragenter" || eventType == "dragover" ==> dragActive
      ensures eventType == "dragleave" ==> !dragActive
      ensures eventType !in {"dragenter", "dragover", "dragleave"} ==> dragActive == old(dragActive)
    {
      if eventType == "dragenter" || eventType == "dragover" {
        dragActive := true;
      } else if eventType == "dragleave" {
        dragActive := false;
      }
    }

    /** A drop turns the highlight off and hands the files to the check. */
    method HandleDrop(files: seq<BrowserFile>) returns (d: FileDecision)
      modifies this
      ensures !dragActive
      ensures d == CheckFiles(files)
    {
      dragActive := false;
      d := CheckFiles(files);
    }
  }
}
