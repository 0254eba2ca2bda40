/** The record shapes shared by server and client: the three stored tables, the insert
    shapes (what a caller supplies; the store assigns the rest) and the update shape. */
module Schema {
  import opened Wrappers

  /** A clock reading: the value `new Date()` (or a column default of "now") would give. */
  type Timestamp = nat

  /** A string with at least one character: zod's `z.string().min(1)`. */
  type NonEmptyString = s: string | |s| >= 1 witness "x"

  /** A stored transcript. `content` is required, `fileName` optional. */
  datatype Transcript = Transcript(
    id: string,
    content: string,
    fileName: Option<string>,
    uploadedAt: Timestamp)

  /** A stored summary. `customPrompt` and `generatedSummary` are required, `editedSummary` optional. */
  datatype Summary = Summary(
    id: string,
    transcriptId: string,
    customPrompt: string,
    generatedSummary: string,
    editedSummary: Option<string>,
    createdAt: Timestamp,
    updatedAt: Timestamp)

  /** A stored email log. `subject` is required, `message` optional. */
  datatype EmailLog = EmailLog(
    id: string,
    summaryId: string,
    recipients: seq<string>,
    subject: string,
    message: Option<string>,
    includeOriginal: bool,
    sentAt: Timestamp,
    status: string)

  /** Insert shape of a transcript: no `id`, no `uploadedAt`. */
  datatype InsertTranscript = InsertTranscript(content: string, fileName: Option<string>)

  /** Insert shape of a summary: no `id`, `createdAt` or `updatedAt`. */
  datatype InsertSummary = InsertSummary(
    transcriptId: string,
    customPrompt: string,
    generatedSummary: string,
    editedSummary: Option<string>)

  /** Insert shape of an email log: no `id`, `sentAt` or `status`. */
  datatype InsertEmailLog = InsertEmailLog(
    summaryId: string,
    recipients: seq<string>,
    subject: string,
    message: Option<string>,
    includeOriginal: bool)

  /** The only update a summary accepts: a non-empty edited text. */
  datatype UpdateSummary = UpdateSummary(editedSummary: NonEmptyString)

  /** The status every email log is created with. */
  const SentStatus := "sent"

  /** `updateSummarySchema.parse` of a body whose `editedSummary` field is `body`
      (None when missing): accepted exactly when the field is a string of length at least 1. */
  function ParseUpdate(body: Option<string>): (r: Option<UpdateSummary>)
    ensures r.Some? <==> body.Some? && |body.value| >= 1
    ensures r.Some? ==> r.value.editedSummary == body.value
  {
    if body.Some? && |body.value| >= 1 then Some(UpdateSummary(body.value)) else None
  }

  /** The column default of `includeOriginal`: a missing flag reads as false. */
  function IncludeOriginalOrDefault(flag: Option<bool>): (r: bool)
    ensures r <==> flag == Some(true)
  {
    match flag
    case Some(b) => b
    case None => false
  }
}
