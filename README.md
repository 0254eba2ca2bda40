# Meeting-notes summarizer: a Dafny model

The application stores meeting transcripts, has an AI service summarize them under a custom
prompt, lets the user edit the summary, and e-mails it. This project models its core in Dafny
and proves properties of it:

- the record shapes and the update constraint (`schema.dfy`);
- the in-memory store, a class over three maps (`storage.dfy`);
- the summarization service's decision logic around the completion call, and its
  demonstration fallback (`groq.dfy`);
- the HTTP handlers as methods over the store (`routes.dfy`);
- three browser components:
  - the upload panel (`transcript_upload.dfy`);
  - the summary editor (`summary_display.dfy`);
  - the e-mail form (`email_sharing.dfy`).

`text.dfy` models the JavaScript string primitives these rely on:

- the whitespace class shared by `trim` and `\s`;
- `trim`, `includes` and `toLowerCase`;
- `split` on one character, and `join`.

Nondeterminism is passed in as parameters:

- Fresh ids come from a supply and are parameters. Creating a transcript or a summary
  requires an id not yet in use (`requires id !in …`). The email-log id is a parameter without
  such a requirement: log lists are filed by summary id, so nothing looks a log up by its own
  id.
- Timestamps are parameters, one per reading of the clock. Creating a summary reads the
  clock twice, once for the creation time and once for the update time.
- The completion call is an abstract outcome: an answer with optional content, or a thrown
  error with an optional message.
- The mail sender is a function from the mail request to delivered/failed.
- The server's address check is a function parameter `emailOk`.
- The environment variables `GROQ_API_KEY` and `GROQ_KEY` are optional string parameters of
  the summary handler, from which the service key is configured.

Two behaviours of the code are worth stating up front; the model follows the code on both:

- **Upload file types.** A file whose type is not plain text, PDF or DOCX is refused by the
  upload middleware before the handler runs. The framework's default error handler then
  answers status 500, not 400. Only PDF and DOCX files reach the handler's 400 "Only plain
  text files are currently supported".
- **Demonstration summary.** It has exactly three canned templates:
  - action items;
  - executive, for "bullet" or "executive";
  - default.

  None of them reads the transcript.

## Model

| member | source | states |
|---|---|---|
| Schema.ParseUpdate | shared/schema.ts:52-54 | an update is accepted exactly when the edited text is present and at least one character long, and it carries that text unchanged |
| Schema.IncludeOriginalOrDefault | server/routes.ts:165 | the include-original flag is true only when the request says true; when absent it is false |
| Storage.LogsFor | server/storage.ts:282-284 | a summary without a log list has the empty list |
| Storage.Joined | server/storage.ts:244-252 | the join exists exactly when the summary exists and its transcript id names a stored transcript; it is that summary with that transcript |
| Storage.Updated | server/storage.ts:254-265 | the updated record differs from the stored one only in its edited text, which is the update's, and its update time, which is now |
| Storage.UpdateIdempotent | server/storage.ts:254-265 | applying the same update twice leaves the same record, and the same edited text, as applying it once at the later time |
| Storage.InMemoryStorage.constructor | server/storage.ts:210-213 | the store starts with three empty maps and is valid |
| Storage.InMemoryStorage.CreateTranscript | server/storage.ts:215-223 | the new transcript has the fresh id, the insert's content and file name and the current time; it is added under its id and nothing else changes; validity is kept |
| Storage.InMemoryStorage.GetTranscript | server/storage.ts:225-227 | nothing for an unknown id, otherwise the stored transcript, which in a valid store carries the id it was looked up by |
| Storage.InMemoryStorage.CreateSummary | server/storage.ts:229-238 | the new summary carries the insert's fields, the fresh id, and a creation time and an update time that are two separate clock readings; it is added under its id and nothing else changes |
| Storage.InMemoryStorage.GetSummary | server/storage.ts:240-242 | nothing for an unknown id, otherwise the stored summary, which in a valid store carries the id it was looked up by |
| Storage.InMemoryStorage.GetSummaryWithTranscript | server/storage.ts:244-252 | the result is the join of the summary with its transcript, and nothing when either is missing |
| Storage.InMemoryStorage.UpdateSummary | server/storage.ts:254-265 | an unknown id returns nothing and leaves the store unchanged; otherwise only the edited text and update time of that summary change, and id, transcript id, prompt, generated text and creation time are kept |
| Storage.InMemoryStorage.CreateEmailLog | server/storage.ts:267-280 | the log has status "sent" and is appended to the end of its summary's list; earlier entries and every other summary's list are kept |
| Storage.InMemoryStorage.GetEmailLogsBySummary | server/storage.ts:282-284 | the summary's logs in creation order; empty for a summary with none |
| Groq.ConfiguredKey | server/services/groq.ts:3-5 | the first variable when it is non-empty, else the second; empty only when both are missing or empty |
| Groq.TryAsWritten | server/services/groq.ts:41-46 | as written: returns exactly when the call answered with present, non-empty content, and then returns that content trimmed; an answer without content throws "No summary generated from Groq API"; a thrown error propagates with its own message |
| Groq.Try | server/services/groq.ts:41-46 | corrected: returns exactly when the call answered with present content that is not blank, and then returns that content trimmed, which is never empty; any other answer throws "No summary generated from Groq API"; a thrown error propagates with its own message |
| Groq.Catch | server/services/groq.ts:47-56 | the demonstration summary exactly when the error message mentions "Invalid API Key", the generic retry failure otherwise |
| Groq.GenerateSummaryAsWritten | server/services/groq.ts:7-58 | as written: no key fails with the key-missing message; an answer succeeds exactly when its content is present and non-empty, with that content trimmed, and otherwise gives the retry failure; an invalid-key error gives the demonstration summary and any other error the retry failure |
| Groq.GenerateSummary | server/services/groq.ts:7-58 | no key fails with "Groq API key is not configured" whatever the service does; non-blank content gives that content trimmed; missing or blank content, and any error not about an invalid key, give the retry failure; an invalid-key error gives the demonstration summary; a generated text is never empty |
| Groq.NoContentIsNotKeyError | server/services/groq.ts:41-53 | the missing-content error never triggers the fallback, because its message does not mention "Invalid API Key" |
| Groq.BlankCompletionAsWritten | server/services/groq.ts:41-46 | as written, a completion of a single space gives an empty generated summary |
| Groq.CorrectionIsLocal | server/services/groq.ts:41-46 | the corrected and the written generation agree on every input except non-empty blank content |
| Groq.NoKeyNeverFallsBack | server/services/groq.ts:11-13 | without a key both versions fail with the key-missing message, even if the service would have reported an invalid key |
| Groq.SelectTemplate | server/services/groq.ts:62-105 | the action-items template exactly when the lower-cased prompt mentions "action"; the executive template exactly when it does not but mentions "bullet" or "executive"; the default template exactly when it mentions none of the three |
| Groq.MockSummary | server/services/groq.ts:61-106 | the demonstration summary is non-empty and is the text of the template the prompt selects |
| Groq.MockTemplateChoice | server/services/groq.ts:62-105 | action-items text exactly when the lower-cased prompt mentions "action"; otherwise executive text exactly when it mentions "bullet" or "executive"; the default text otherwise |
| Groq.ActionTakesPrecedence | server/services/groq.ts:62-77 | "action" selects the action-items template even when "bullet" or "executive" are also present |
| Groq.ActionIsCaseInsensitive | server/services/groq.ts:62 | "Action" and "ACTION" select the action-items template |
| Groq.MockIgnoresTranscript | server/services/groq.ts:61-106 | the demonstration summary is the same for any two transcripts |
| Groq.QuickPromptActionItems | server/services/groq.ts:62-77 | the quick prompt "Highlight only action items and deadlines" selects the action-items template |
| Text.Contains | client/src/components/transcript-upload.tsx:51 | the empty string occurs in every string, and a string that occurs is no longer than the one it occurs in |
| Text.ToLower | server/services/groq.ts:62-64 | same length, and each character is folded to lower case (ASCII letters) |
| Text.Split | client/src/components/email-sharing.tsx:26-27 | at least one piece, and at most one more piece than the string has characters |
| Text.SplitWithoutSeparator | client/src/components/email-sharing.tsx:26-27 | a string without the separator splits into itself as the single piece |
| Text.Join | client/src/components/email-sharing.tsx:39 | the joined string starts with the first piece |
| Text.Trim | server/routes.ts:54-59 | the result has no whitespace at either end, is the input minus a blank prefix and a blank suffix, and is empty exactly when the input is blank |
| Text.TrimPadded | server/routes.ts:54-59 | trimming blank padding around a tight text gives back that text |
| Text.TrimIdempotent | server/routes.ts:54-59 | trimming twice is trimming once |
| Text.SplitPiecesFree | client/src/components/email-sharing.tsx:26-27 | no piece of a split contains the separator |
| Text.ContainsToLower | server/services/groq.ts:62-64 | folding case keeps an occurrence: if a string contains a piece, its lower-cased form contains the lower-cased piece |
| Text.JoinSplit | client/src/components/email-sharing.tsx:26-27 | joining the comma-split pieces with "," restores the input |
| Text.SplitAround | client/src/components/email-sharing.tsx:26-27 | splitting `a + "," + b` gives the pieces of `a` followed by those of `b` |
| Routes.MiddlewareError | server/routes.ts:15-28 | the upload middleware lets a file through exactly when its type is plain text, PDF or DOCX and it is at most 10 MiB; the type refusal comes exactly when the type is not one of the three, the size refusal exactly when the type is allowed but the file is too large |
| Routes.SelectContent | server/routes.ts:37-52 | a file is used exactly when it is plain text, with its name; without a file, a non-empty body text is used, with no name; a non-plain-text file gets 400 "Only plain text files are currently supported", and no file and no text 400 "Either file or content is required" |
| Routes.Upload | server/routes.ts:15-64 | an upload succeeds exactly when a file is plain text, at most 10 MiB and not blank, or, with no file, the body text is not blank; the stored content is the trimmed text; the file name is kept only for files; other file types get 500 from the middleware, oversize files 500, PDF/DOCX 400, no file and no text 400, and an accepted file or a non-empty body text that is blank 400 "Transcript content cannot be empty" |
| Routes.ReuploadStoresSameText | server/routes.ts:54-64 | uploading a stored transcript's text again stores the very same text |
| Routes.PostTranscript | server/routes.ts:32-72 | a refused upload answers its error status and leaves the store unchanged; an accepted one stores exactly the validated insert under the fresh id and returns it; the store stays linked |
| Routes.GetTranscript | server/routes.ts:75-86 | the stored transcript, or 404 "Transcript not found" |
| Routes.PostSummary | server/routes.ts:89-124 | an invalid body (missing id or empty prompt) gets 400; an unknown transcript gets 404 before any generation, with nothing stored; the service key is the one configured from the two environment variables; a generation failure answers 500 with its message and stores nothing; otherwise the stored summary has the request's transcript id and prompt, the generated text, and two clock readings as creation and update time |
| Routes.GetSummary | server/routes.ts:127-138 | the summary joined with its transcript or 404; in a linked store, found exactly when the id is known |
| Routes.PatchSummary | server/routes.ts:141-156 | an invalid body gets 400 before the id is looked up; an unknown id gets 404 with the store unchanged; otherwise the answer is the updated record and only that summary changes |
| Routes.ParseEmail | server/routes.ts:161-168 | accepted exactly when there is at least one recipient, every recipient passes the address check, the subject is non-empty, the message is missing or a string and the include-original flag is missing or a boolean; the message is carried over exactly when given; the flag is true only when given as true |
| Routes.MailFor | server/routes.ts:177-184 | the original transcript goes to the sender exactly when include-original is set |
| Routes.PostEmail | server/routes.ts:159-205 | an invalid body gets 400 and an unknown summary gets 404, neither sending nor logging; a failed send answers 500 with its message and logs nothing; after a delivered send exactly one log is appended for that summary and the reply counts the recipients, at least one |
| EmailSharing.ParseRecipients | client/src/components/email-sharing.tsx:26-29 | every recipient is non-empty and has no whitespace at either end |
| EmailSharing.ParseRecipientsAround | client/src/components/email-sharing.tsx:26-29 | recipients keep their order across a comma: the list for `a + "," + b` is the list for `a` followed by the list for `b` |
| EmailSharing.ParseRecipientsPiece | client/src/components/email-sharing.tsx:26-29 | a comma-free piece contributes its trimmed text, or nothing when it is blank |
| EmailSharing.BlankGivesNoRecipients | client/src/components/email-sharing.tsx:26-33 | a blank recipient field yields no recipients |
| EmailSharing.EmailCheckIsPattern | client/src/components/email-sharing.tsx:36 | the pattern matches exactly the strings with no whitespace, exactly one '@' with text before it, and after it a '.' with text on both sides |
| EmailSharing.IsValidEmail | client/src/components/email-sharing.tsx:36-37 | the form's address check accepts exactly the strings the pattern matches |
| EmailSharing.InvalidAddresses | client/src/components/email-sharing.tsx:37 | exactly the recipients that fail the check |
| EmailSharing.InvalidAddressesSingle | client/src/components/email-sharing.tsx:37 | a single recipient is reported exactly when it fails the check |
| EmailSharing.InvalidAddressesConcat | client/src/components/email-sharing.tsx:37 | the invalid addresses of two lists joined are those of the first followed by those of the second, so they come in input order, with repeats |
| EmailSharing.CheckRecipients | client/src/components/email-sharing.tsx:31-40 | an empty list is refused with "At least one email address is required"; any invalid address refuses the send with all invalid addresses joined by ", "; otherwise the list is passed on whole |
| EmailSharing.ValidateRecipients | client/src/components/email-sharing.tsx:26-40 | the field is accepted exactly when its parsed recipient list is non-empty and every address is valid, and then the list is passed on, each address without surrounding whitespace; a blank field, or one with no recipients in it such as ",", is refused with "At least one email address is required"; otherwise the refusal lists every invalid address joined by ", " |
| EmailSharing.MakeRequestBody | client/src/components/email-sharing.tsx:42-47 | subject trimmed; message trimmed and left out exactly when blank |
| EmailSharing.CanSend | client/src/components/email-sharing.tsx:68 | the button is enabled exactly when the trimmed recipients and the trimmed subject are non-empty and no send is pending |
| EmailSharing.ValidListEnablesButton | client/src/components/email-sharing.tsx:68 | a recipient list that passes validation, with a non-blank subject, never finds the button disabled when no send is pending |
| EmailSharing.EnabledButtonIsNotValidation | client/src/components/email-sharing.tsx:68 | the button can be enabled for a field with no recipients in it (",") |
| EmailSharing.EmailForm.constructor | client/src/components/email-sharing.tsx:18-21 | empty recipients and message, subject "Meeting Summary", include-original off |
| EmailSharing.EmailForm.Send | client/src/components/email-sharing.tsx:25-48 | a validation error is reported and no request is made; otherwise the request body is built from the current fields |
| EmailSharing.EmailForm.SendSucceeded | client/src/components/email-sharing.tsx:55-57 | recipients and message are cleared; subject and include-original are kept |
| SummaryDisplay.EffectiveText | client/src/components/summary-display.tsx:15 | the edited text when it is present and non-empty, the generated text otherwise |
| SummaryDisplay.SaveRoundTrip | client/src/components/summary-display.tsx:52-56 | the saved trimmed text passes the update schema and becomes the summary's shown text; the panel still shows changes exactly when the edit had whitespace at either end |
| SummaryDisplay.SplitOnSpace | client/src/components/summary-display.tsx:91 | at least one piece; text without whitespace is a single piece; text that starts with whitespace has an empty first piece |
| SummaryDisplay.WordCount | client/src/components/summary-display.tsx:91 | at least one; exactly one for blank text |
| SummaryDisplay.WordCountCountsWords | client/src/components/summary-display.tsx:91 | for non-blank text, the pieces are non-empty and whitespace-free, and there is one more of them than runs of whitespace |
| SummaryDisplay.SummaryEditor.constructor | client/src/components/summary-display.tsx:15-16 | the editor starts with the effective text and no changes |
| SummaryDisplay.SummaryEditor.Edit | client/src/components/summary-display.tsx:19-26 | after typing, the change flag holds exactly when the text differs from the effective text |
| SummaryDisplay.SummaryEditor.Save | client/src/components/summary-display.tsx:52-56 | nothing is sent for blank text; otherwise the trimmed text is sent, which the update schema accepts |
| SummaryDisplay.SummaryEditor.SaveSucceeded | client/src/components/summary-display.tsx:35-37 | the server's summary becomes the panel's, the editor text is kept, and the change flag compares the two |
| TranscriptUpload.CheckFiles | client/src/components/transcript-upload.tsx:47-72 | no file does nothing; the wrong-type message exactly when the first file's type does not mention "text/plain"; the too-large message exactly when it does but the file exceeds 10 MiB; the first file is posted exactly when its type mentions "text/plain" and it is at most 10 MiB |
| TranscriptUpload.TextUpload | client/src/components/transcript-upload.tsx:94-105 | blank text is refused with a message; other text is posted untrimmed |
| TranscriptUpload.PostedTextIsStored | client/src/components/transcript-upload.tsx:94-105 | text the panel posts is accepted by the server and stored trimmed |
| TranscriptUpload.MediaType | server/routes.ts:20-22 | a bare lower-case media type with no parameter and no surrounding whitespace is what the server sees unchanged |
| TranscriptUpload.ServerFile | server/routes.ts:37-41 | a bare lower-case browser type (no parameter, no surrounding whitespace) reaches the server unchanged as the file's media type |
| TranscriptUpload.CharsetParameterIsDropped | server/routes.ts:40 | a part typed "text/plain;charset=utf-8" is seen by the server as "text/plain" |
| TranscriptUpload.PostedPlainFileIsStored | client/src/components/transcript-upload.tsx:47-72 | a posted file whose media type is plain text and whose text is not blank is stored trimmed, under its name |
| TranscriptUpload.LooseTypeCheck | client/src/components/transcript-upload.tsx:51-58 | a type that merely mentions "text/plain" ("text/plainx") passes the panel but is refused by the server's middleware with 500 |
| TranscriptUpload.DropZone.constructor | client/src/components/transcript-upload.tsx:18 | the drop zone starts without the highlight |
| TranscriptUpload.DropZone.HandleDrag | client/src/components/transcript-upload.tsx:74-82 | enter and over turn the highlight on, leave turns it off, other events keep it |
| TranscriptUpload.DropZone.HandleDrop | client/src/components/transcript-upload.tsx:84-92 | a drop turns the highlight off and hands the files to the file check |

## Left out

- The MongoDB-backed store and its connection: database I/O that adds nothing beyond what the
  in-memory store shows.
- The completion request itself: the client construction, the system and user prompts, the
  model name, temperature and token limit. They are represented only by the abstract outcome.
- The mail sender (`server/services/email` is not part of this model). It is a parameter that
  either delivers or fails.
- The library e-mail check of the server's request schema. It is the parameter `emailOk`,
  because the library's pattern is not part of this model.
- HTTP, framework and middleware wiring other than the type filter and size limit; UTF-8
  decoding of the uploaded bytes, which arrive as decoded text; error logging to the console.
- The 500 answers for storage errors. The in-memory store never throws.
- The upload handler's 400 for an invalid insert. The insert always has string content, so
  that branch cannot be taken.
- A non-string `content` field in the upload body. Body fields are modelled as optional
  strings.
- Real uuid generation and wall-clock time. Ids and time are parameters.
- Text.ToLower: folds ASCII letters only; JavaScript's `toLowerCase` also folds other
  letters. Keyword matching is still exact for "action", "bullet" and "executive". The
  non-ASCII characters that lower to ASCII letters are 'İ' (U+0130) and the Kelvin sign
  (U+212A). The Kelvin sign gives "k", which no keyword holds. 'İ' gives "i" followed by the
  combining dot U+0307. In every keyword an "i" is followed by a letter, so such an "i" never
  takes part in a match.
- Routes.PostSummary: built on the corrected `Groq.GenerateSummary`. A completion that is
  non-empty but blank is answered 500 with the retry message and nothing is stored. As
  written, the handler stores a summary with an empty generated text (see Findings).
- TranscriptUpload.MediaType: approximates the multipart parser (the parser library is not
  part of this model) as the part of the header type before the first ';', trimmed and
  folded to ASCII lower case. Quoted parameters and other header syntax are not modelled.
- Object and array aliasing. The store's methods return records and log lists that are
  values here, while JavaScript returns the stored objects themselves. In particular, a log
  list returned earlier grows when a later log is appended to it.
- React rendering, toasts, the clipboard copy and the file download; the query library's
  mutation life cycle (pending flags, retries). `CanSend` takes the pending flag as a
  parameter.
- SummaryDisplay.SummaryEditor.SaveSucceeded: assumes the parent passes the server's answer
  back in as the new summary, as the home page does. The brief moment between clearing the
  flag and the effect re-running is not modelled.
- The home page, the summary generator and the custom-instructions components: these are UI
  composition. One of the quick-prompt strings is used as a concrete input in
  `Groq.QuickPromptActionItems`.

## Findings

| source | as written | input that shows it | evidently intended | confidence | as-written member | corrected member |
|---|---|---|---|---|---|---|
| server/services/groq.ts:41-46 | the emptiness check `!summary` runs before trimming, so whitespace-only content passes it and `summary.trim()` returns an empty string | a completion whose content is `" "` yields an empty generated summary, which the summary handler then stores | content that is blank after trimming is treated as missing, and a generated summary is never empty | not executed | Groq.BlankCompletionAsWritten | Groq.GenerateSummary |
