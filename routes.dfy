/** The HTTP endpoints of the server, each a method over the one in-memory store. Request
    bodies arrive already decoded; the summarization service's key and the completion
    outcome, the address check of the request validator and the mail sender are parameters,
    as are the fresh ids and the clock. */
module Routes {
  import opened Wrappers
  import opened Text
  import opened Schema
  import opened Storage
  import Groq

  /** An error status with its message. */
  datatype Failure = Failure(status: nat, message: string)

  /** A response: a JSON body with status 200, or an error status with its message. */
  datatype Reply<T> = Json(body: T) | Error(failure: Failure)

  const PlainText := "text/plain"
  const Pdf := "application/pdf"
  const Docx := "application/vnd.openxmlformats-officedocument.wordprocessingml.document"
  const AllowedTypes := [PlainText, Pdf, Docx]
  /** 10 MiB: the upload middleware's file size limit. */
  const MaxFileSize := 10 * 1024 * 1024

  const InvalidTypeMessage := "Invalid file type. Only TXT, PDF, and DOCX files are allowed."
  const FileTooLargeMessage := "File too large"
  const OnlyPlainTextMessage := "Only plain text files are currently supported"
  const ContentRequiredMessage := "Either file or content is required"
  const EmptyContentMessage := "Transcript content cannot be empty"
  const TranscriptNotFoundMessage := "Transcript not found"
  const SummaryNotFoundMessage := "Summary not found"
  const InvalidSummaryDataMessage := "Invalid summary data"
  const InvalidUpdateDataMessage := "Invalid update data"
  const InvalidEmailDataMessage := "Invalid email data"
  const SendFailedMessage := "Failed to send email"
  const EmailSentMessage := "Email sent successfully"

  /** The application's standing invariant: the store is valid, every summary refers to a
      stored transcript and every log list belongs to a stored summary. */
  ghost predicate Linked(store: InMemoryStorage)
    reads store
  {
    && store.Valid()
    && (forall k | k in store.summaries :: store.summaries[k].transcriptId in store.transcripts)
    && (forall k | k in store.emailLogs :: k in store.summaries)
  }

  // POST /api/transcripts

  /** The uploaded file as the middleware hands it over; `text` is its bytes decoded as UTF-8. */
  datatype UploadedFile = UploadedFile(originalName: string, mimetype: string, size: nat, text: string)

  /** The upload middleware's refusal, if any: the type filter runs before the size limit. */
  function MiddlewareError(file: UploadedFile): (r: Option<string>)
    ensures r.None? <==> file.mimetype in AllowedTypes && file.size <= MaxFileSize
    ensures r == Some(InvalidTypeMessage) <==> file.mimetype !in AllowedTypes
    ensures r == Some(FileTooLargeMessage) <==> file.mimetype in AllowedTypes && file.size > MaxFileSize
  {
    assert InvalidTypeMessage != FileTooLargeMessage by { assert |InvalidTypeMessage| != |FileTooLargeMessage|; }
    if file.mimetype !in AllowedTypes then Some(InvalidTypeMessage)
    else if file.size > MaxFileSize then Some(FileTooLargeMessage)
    else None
  }

  /** The handler's choice of text: the file first (plain text only), then a non-empty body
      field; the file's original name goes along with file text. */
  function SelectContent(file: Option<UploadedFile>, content: Option<string>)
    : (r: Result<(string, Option<string>), Failure>)
    ensures r.Ok? <==> if file.Some? then file.value.mimetype == PlainText else content.Some? && content.value != ""
    ensures r.Ok? && file.Some? ==> r.value == (file.value.text, Some(file.value.originalName))
    ensures r.Ok? && file.None? ==> r.value == (content.value, None)
    ensures r.Err? && file.Some? ==> r.error == Failure(400, OnlyPlainTextMessage)
    ensures r.Err? && file.None? ==> r.error == Failure(400, ContentRequiredMessage)
  {
    if file.Some? then
      if file.value.mimetype == PlainText then Ok((file.value.text, Some(file.value.originalName)))
      else Err(Failure(400, OnlyPlainTextMessage))
    else if content.Some? && content.value != "" then Ok((content.value, None))
    else Err(Failure(400, ContentRequiredMessage))
  }

  /** What an upload request turns into: the transcript to store, or the error answered. A
      middleware refusal never reaches the handler and is answered 500 by the framework's
      default error handler. */
  function Upload(file: Option<UploadedFile>, content: Option<string>): (r: Result<InsertTranscript, Failure>)
    ensures r.Ok? <==>
      if file.Some? then file.value.mimetype == PlainText && file.value.size <= MaxFileSize && !IsBlank(file.value.text)
      else content.Some? && !IsBlank(content.value)
    ensures r.Ok? ==> r.value.content != "" && IsTight(r.value.content)
    ensures r.Ok? && file.Some? ==> r.value == InsertTranscript(Trim(file.value.text), Some(file.value.originalName))
    ensures r.Ok? && file.None? ==> r.value == InsertTranscript(Trim(content.value), None)
    ensures file.Some? && file.value.mimetype !in AllowedTypes ==> r == Err(Failure(500, InvalidTypeMessage))
    ensures file.Some? && file.value.mimetype in AllowedTypes && file.value.size > MaxFileSize ==>
      r == Err(Failure(500, FileTooLargeMessage))
    ensures file.Some? && file.value.mimetype in [Pdf, Docx] && file.value.size <= MaxFileSize ==>
      r == Err(Failure(400, OnlyPlainTextMessage))
    ensures file.None? && (content.None? || content.value == "") ==> r == Err(Failure(400, ContentRequiredMessage))
    ensures
      && (file.Some? ==> file.value.mimetype == PlainText && file.value.size <= MaxFileSize && IsBlank(file.value.text))
      && (file.None? ==> content.Some? && content.value != "" && IsBlank(content.value))
      ==> r == Err(Failure(400, EmptyContentMessage))
    ensures r.Err? && r.error.status == 500 ==> file.Some? && MiddlewareError(file.value) == Some(r.error.message)
  {
    if file.Some? && MiddlewareError(file.value).Some? then Err(Failure(500, MiddlewareError(file.value).value))
    else
      match SelectContent(file, content)
      case Err(f) => Err(f)
      case Ok((text, fileName)) =>
        if Trim(text) == "" then Err(Failure(400, EmptyContentMessage))
        else Ok(InsertTranscript(Trim(text), fileName))
  }

  /** Uploading the stored text of a transcript again stores the very same text. */
  lemma {:induction false} ReuploadStoresSameText(content: string)
    requires Upload(None, Some(content)).Ok?
    ensures Upload(None, Some(Upload(None, Some(content)).value.content)) == Upload(None, Some(content))
  {
    TrimIdempotent(content);
    TrimTight(Trim(content));
  }

  method PostTranscript(store: InMemoryStorage, file: Option<UploadedFile>, content: Option<string>,
                        id: string, now: Timestamp) returns (reply: Reply<Transcript>)
    requires Linked(store) && id !in store.transcripts
    modifies store
    ensures Linked(store)
    ensures Upload(file, content).Err? ==>
      && reply == Error(Upload(file, content).error)
      && unchanged(store)
    ensures Upload(file, content).Ok? ==>
      var ins := Upload(file, content).value;
      && reply == Json(Transcript(id, ins.content, ins.fileName, now))
      && store.transcripts == old(store.transcripts)[id := reply.body]
      && store.summaries == old(store.summaries) && store.emailLogs == old(store.emailLogs)
  {
    var r := Upload(file, content);
    if r.Err? {
      return Error(r.error);
    }
    var t := store.CreateTranscript(r.value, id, now);
    reply := Json(t);
  }

  // GET /api/transcripts/:id

  method GetTranscript(store: InMemoryStorage, id: string) returns (reply: Reply<Transcript>)
    ensures id in store.transcripts ==> reply == Json(store.transcripts[id])
    ensures id !in store.transcripts ==> reply == Error(Failure(404, TranscriptNotFoundMessage))
  {
    var t := store.GetTranscript(id);
    if t.None? {
      return Error(Failure(404, TranscriptNotFoundMessage));
    }
    reply := Json(t.value);
  }

  // POST /api/summaries

  /** The request body's two fields, absent when missing or not strings. */
  datatype SummaryRequest = SummaryRequest(transcriptId: Option<string>, customPrompt: Option<string>)

  /** The request schema: both fields present, the prompt at least one character long. */
  predicate ValidSummaryRequest(body: SummaryRequest) {
    body.transcriptId.Some? && body.customPrompt.Some? && |body.customPrompt.value| >= 1
  }

  /** Checks the body, then that the transcript exists, and only then asks the
      summarization service; a summary is stored only when one was generated, with the
      request's transcript id and prompt and no edited text. The service's failure message
      is answered with status 500. The service's key is the one configured from the two
      environment variables `GROQ_API_KEY` and `GROQ_KEY`. */
  method PostSummary(store: InMemoryStorage, body: SummaryRequest,
                     groqApiKey: Option<string>, groqKey: Option<string>, outcome: Groq.ApiOutcome,
                     id: string, createdAt: Timestamp, updatedAt: Timestamp) returns (reply: Reply<Summary>)
    requires Linked(store) && id !in store.summaries
    modifies store
    ensures Linked(store)
    ensures !ValidSummaryRequest(body) ==> reply == Error(Failure(400, InvalidSummaryDataMessage)) && unchanged(store)
    ensures ValidSummaryRequest(body) && body.transcriptId.value !in old(store.transcripts) ==>
      reply == Error(Failure(404, TranscriptNotFoundMessage)) && unchanged(store)
    ensures ValidSummaryRequest(body) && body.transcriptId.value in old(store.transcripts) ==>
      var tid, prompt := body.transcriptId.value, body.customPrompt.value;
      var g := Groq.GenerateSummary(Groq.ConfiguredKey(groqApiKey, groqKey), old(store.transcripts)[tid].content, prompt, outcome);
      && (g.Failed? ==> reply == Error(Failure(500, g.message)) && unchanged(store))
      && (g.Generated? ==>
            && reply == Json(Summary(id, tid, prompt, g.text, None, createdAt, updatedAt))
            && store.summaries == old(store.summaries)[id := reply.body]
            && store.transcripts == old(store.transcripts) && store.emailLogs == old(store.emailLogs))
  {
    if !ValidSummaryRequest(body) {
      return Error(Failure(400, InvalidSummaryDataMessage));
    }
    var tid, prompt := body.transcriptId.value, body.customPrompt.value;
    var transcript := store.GetTranscript(tid);
    if transcript.None? {
      return Error(Failure(404, TranscriptNotFoundMessage));
    }
    var apiKey := Groq.ConfiguredKey(groqApiKey, groqKey);
    var g := Groq.GenerateSummary(apiKey, transcript.value.content, prompt, outcome);
    if g.Failed? {
      return Error(Failure(500, g.message));
    }
    var s := store.CreateSummary(InsertSummary(tid, prompt, g.text, None), id, createdAt, updatedAt);
    reply := Json(s);
  }

  // GET /api/summaries/:id

  /** The summary joined with its transcript; while the store is linked, found exactly when
      the summary id is known. */
  method GetSummary(store: InMemoryStorage, id: string) returns (reply: Reply<SummaryWithTranscript>)
    ensures Joined(store.transcripts, store.summaries, id).Some? ==>
      reply == Json(Joined(store.transcripts, store.summaries, id).value)
    ensures Joined(store.transcripts, store.summaries, id).None? ==> reply == Error(Failure(404, SummaryNotFoundMessage))
    ensures Linked(store) ==> (reply.Json? <==> id in store.summaries)
  {
    var j := store.GetSummaryWithTranscript(id);
    if j.None? {
      return Error(Failure(404, SummaryNotFoundMessage));
    }
    reply := Json(j.value);
  }

  // PATCH /api/summaries/:id

  /** The body is checked before the id: an invalid body is answered 400 even for an
      unknown summary. Only the edited text and the update time of that summary change. */
  method PatchSummary(store: InMemoryStorage, id: string, editedSummary: Option<string>, now: Timestamp)
    returns (reply: Reply<Summary>)
    requires Linked(store)
    modifies store
    ensures Linked(store)
    ensures ParseUpdate(editedSummary).None? ==> reply == Error(Failure(400, InvalidUpdateDataMessage)) && unchanged(store)
    ensures ParseUpdate(editedSummary).Some? && id !in old(store.summaries) ==>
      reply == Error(Failure(404, SummaryNotFoundMessage)) && unchanged(store)
    ensures ParseUpdate(editedSummary).Some? && id in old(store.summaries) ==>
      && reply == Json(Updated(old(store.summaries)[id], ParseUpdate(editedSummary).value, now))
      && store.summaries == old(store.summaries)[id := reply.body]
      && store.transcripts == old(store.transcripts) && store.emailLogs == old(store.emailLogs)
  {
    var u := ParseUpdate(editedSummary);
    if u.None? {
      return Error(Failure(400, InvalidUpdateDataMessage));
    }
    var s := store.UpdateSummary(id, u.value, now);
    if s.None? {
      return Error(Failure(404, SummaryNotFoundMessage));
    }
    reply := Json(s.value);
  }

  // POST /api/summaries/:id/email

  /** An optional field of a request body: missing, given with the expected type, or given
      with any other value (null included). */
  datatype Field<T> = Absent | Given(value: T) | Mistyped

  /** The request body's fields. The two required ones are None when missing or of the
      wrong type, which the schema refuses alike; the two optional ones tell a missing
      field from a mistyped one. */
  datatype EmailBody = EmailBody(
    recipients: Option<seq<string>>,
    subject: Option<string>,
    message: Field<string>,
    includeOriginal: Field<bool>)

  /** The body after validation, with `includeOriginal` defaulted. */
  datatype EmailData = EmailData(recipients: seq<string>, subject: string, message: Option<string>, includeOriginal: bool)

  /** What the mail sender is given. */
  datatype EmailRequest = EmailRequest(
    recipients: seq<string>,
    subject: string,
    message: Option<string>,
    summary: SummaryWithTranscript,
    transcript: Option<Transcript>,
    includeOriginal: bool)

  /** How the mail sender's call ends; a failure carries the thrown error's message, if it
      has one. */
  datatype SendOutcome = Delivered | SendFailed(error: Option<string>)

  /** The success body. */
  datatype EmailSent = EmailSent(message: string, recipientCount: nat)

  /** The request schema: at least one recipient, every one accepted by the address check
      `emailOk`; a non-empty subject; a message that is missing or a string; a flag that is
      missing (and then false) or a boolean. */
  function ParseEmail(body: EmailBody, emailOk: string -> bool): (r: Option<EmailData>)
    ensures r.Some? <==>
      && body.recipients.Some? && |body.recipients.value| >= 1
      && (forall e | e in body.recipients.value :: emailOk(e))
      && body.subject.Some? && |body.subject.value| >= 1
      && !body.message.Mistyped? && !body.includeOriginal.Mistyped?
    ensures r.Some? ==>
      && r.value.recipients == body.recipients.value && r.value.subject == body.subject.value
      && (r.value.message.Some? <==> body.message.Given?)
      && (r.value.message.Some? ==> r.value.message.value == body.message.value)
      && (r.value.includeOriginal <==> body.includeOriginal == Given(true))
  {
    if && body.recipients.Some? && |body.recipients.value| >= 1
       && (forall e | e in body.recipients.value :: emailOk(e))
       && body.subject.Some? && |body.subject.value| >= 1
       && !body.message.Mistyped? && !body.includeOriginal.Mistyped?
    then
      var message := if body.message.Given? then Some(body.message.value) else None;
      var flag := if body.includeOriginal.Given? then Some(body.includeOriginal.value) else None;
      Some(EmailData(body.recipients.value, body.subject.value, message, IncludeOriginalOrDefault(flag)))
    else None
  }

  /** The mail request: the original transcript goes along only when it was asked for. */
  function MailFor(data: EmailData, j: SummaryWithTranscript): (m: EmailRequest)
    ensures m.transcript.Some? <==> data.includeOriginal
    ensures m.transcript.Some? ==> m.transcript.value == j.transcript
    ensures m.summary == j && m.includeOriginal == data.includeOriginal
    ensures m.recipients == data.recipients && m.subject == data.subject && m.message == data.message
  {
    EmailRequest(data.recipients, data.subject, data.message, j,
                 if data.includeOriginal then Some(j.transcript) else None, data.includeOriginal)
  }

  /** The body is checked first, then that the summary (and its transcript) exists, and only
      then is the mail sent; `mailed` is what the sender was given, if it was called. A log
      entry is appended only after the sender reports delivery; a failed send is answered
      500 with its message and leaves the store as it was. */
  method PostEmail(store: InMemoryStorage, id: string, body: EmailBody, emailOk: string -> bool,
                   send: EmailRequest -> SendOutcome, logId: string, now: Timestamp)
    returns (reply: Reply<EmailSent>, mailed: Option<EmailRequest>)
    requires Linked(store)
    modifies store
    ensures Linked(store)
    ensures ParseEmail(body, emailOk).None? ==>
      reply == Error(Failure(400, InvalidEmailDataMessage)) && mailed.None? && unchanged(store)
    ensures ParseEmail(body, emailOk).Some? && old(Joined(store.transcripts, store.summaries, id)).None? ==>
      reply == Error(Failure(404, SummaryNotFoundMessage)) && mailed.None? && unchanged(store)
    ensures ParseEmail(body, emailOk).Some? && old(Joined(store.transcripts, store.summaries, id)).Some? ==>
      var data := ParseEmail(body, emailOk).value;
      var m := MailFor(data, old(Joined(store.transcripts, store.summaries, id)).value);
      && mailed == Some(m)
      && (send(m).SendFailed? ==>
            && reply == Error(Failure(500, if send(m).error.Some? then send(m).error.value else SendFailedMessage))
            && unchanged(store))
      && (send(m).Delivered? ==>
            && reply == Json(EmailSent(EmailSentMessage, |data.recipients|))
            && LogsFor(store.emailLogs, id) == LogsFor(old(store.emailLogs), id) +
                 [EmailLog(logId, id, data.recipients, data.subject, data.message, data.includeOriginal, now, SentStatus)]
            && (forall k | k != id :: LogsFor(store.emailLogs, k) == LogsFor(old(store.emailLogs), k))
            && store.transcripts == old(store.transcripts) && store.summaries == old(store.summaries))
    ensures reply.Json? ==> reply.body.recipientCount >= 1
  {
    var data := ParseEmail(body, emailOk);
    if data.None? {
      return Error(Failure(400, InvalidEmailDataMessage)), None;
    }
    var j := store.GetSummaryWithTranscript(id);
    if j.None? {
      return Error(Failure(404, SummaryNotFoundMessage)), None;
    }
    var m := MailFor(data.value, j.value);
    mailed := Some(m);
    var outcome := send(m);
    if outcome.SendFailed? {
      reply := Error(Failure(500, if outcome.error.Some? then outcome.error.value else SendFailedMessage));
      return;
    }
    var d := data.value;
    var log := store.CreateEmailLog(InsertEmailLog(id, d.recipients, d.subject, d.message, d.includeOriginal), logId, now);
    reply := Json(EmailSent(EmailSentMessage, |d.recipients|));
  }
}
