/** Summary generation. The chat-completion request itself is outside the model: what it did
    is an input, `ApiOutcome`. What remains is the decision made around that call: the key
    check before it, the trimming of the answer, and the catch handler that turns an
    "Invalid API Key" failure into a canned demonstration summary. */
module Groq {
  import opened Wrappers
  import opened Text

  /** How the chat-completion call ended: it answered, and `content` is
      `completion.choices[0]?.message?.content` (None when that path is missing); or it threw,
      and `message` is the error's `message` (None when the error has none). */
  datatype ApiOutcome = Responded(content: Option<string>) | Threw(message: Option<string>)

  /** How `generateSummary` settles: it resolves with a text or rejects with an error message. */
  datatype Generation = Generated(text: string) | Failed(message: string)

  /** How the `try` block ends: it returns a text, or throws an error with an optional message. */
  datatype Attempt = Returns(text: string) | Raises(message: Option<string>)

  const KeyMissingMessage := "Groq API key is not configured"
  const NoContentMessage := "No summary generated from Groq API"
  const RetryMessage := "Failed to generate summary. Please try again."
  const InvalidKeyMarker := "Invalid API Key"

  /** The key the client is built with: `GROQ_API_KEY`, else `GROQ_KEY`, else empty
      (an unset or empty variable falls through to the next). */
  function ConfiguredKey(groqApiKey: Option<string>, groqKey: Option<string>): (key: string)
    ensures key == "" <==> (groqApiKey.None? || groqApiKey.value == "") && (groqKey.None? || groqKey.value == "")
    ensures groqApiKey.Some? && groqApiKey.value != "" ==> key == groqApiKey.value
    ensures key != "" ==> Some(key) == groqApiKey || Some(key) == groqKey
  {
    if groqApiKey.Some? && groqApiKey.value != "" then groqApiKey.value
    else if groqKey.Some? && groqKey.value != "" then groqKey.value
    else ""
  }

  /** The `try` block as written: a missing or empty `content` throws, anything else is
      returned trimmed (and may then be empty); an error from the call propagates with its
      own message. */
  function TryAsWritten(outcome: ApiOutcome): (a: Attempt)
    ensures a.Returns? <==> outcome.Responded? && outcome.content.Some? && outcome.content.value != ""
    ensures a.Returns? ==> a.text == Trim(outcome.content.value)
    ensures outcome.Threw? ==> a == Raises(outcome.message)
    ensures outcome.Responded? && a.Raises? ==> a.message == Some(NoContentMessage)
  {
    match outcome
    case Threw(m) => Raises(m)
    case Responded(content) =>
      if content.None? || content.value == "" then Raises(Some(NoContentMessage))
      else Returns(Trim(content.value))
  }

  /** The `try` block with the emptiness check applied after trimming, so that whitespace-only
      content is treated like missing content. */
  function Try(outcome: ApiOutcome): (a: Attempt)
    ensures a.Returns? <==> outcome.Responded? && outcome.content.Some? && !IsBlank(outcome.content.value)
    ensures a.Returns? ==> a.text == Trim(outcome.content.value) && a.text != ""
    ensures outcome.Threw? ==> a == Raises(outcome.message)
    ensures outcome.Responded? && a.Raises? ==> a.message == Some(NoContentMessage)
  {
    match outcome
    case Threw(m) => Raises(m)
    case Responded(content) =>
      if content.None? || Trim(content.value) == "" then Raises(Some(NoContentMessage))
      else Returns(Trim(content.value))
  }

  /** The `catch` handler: an error whose message mentions "Invalid API Key" is answered
      with the demonstration summary; any other error becomes the generic failure. */
  function Catch(error: Option<string>, transcript: string, prompt: string): (g: Generation)
    ensures g.Generated? <==> error.Some? && Contains(error.value, InvalidKeyMarker)
    ensures g.Generated? ==> g.text == MockSummary(transcript, prompt)
    ensures g.Failed? ==> g.message == RetryMessage
  {
    if error.Some? && Contains(error.value, InvalidKeyMarker) then Generated(MockSummary(transcript, prompt))
    else Failed(RetryMessage)
  }

  /** `generateSummary` as written: as the corrected version below, except that an answer
      succeeds whenever its content is present and non-empty, even if trimming then leaves
      nothing. */
  function GenerateSummaryAsWritten(apiKey: string, transcript: string, prompt: string, outcome: ApiOutcome)
    : (g: Generation)
    ensures apiKey == "" ==> g == Failed(KeyMissingMessage)
    ensures apiKey != "" && outcome.Responded? ==>
      var c := outcome.content;
      && (g.Generated? <==> c.Some? && c.value != "")
      && (g.Generated? ==> g.text == Trim(c.value))
      && (g.Failed? ==> g.message == RetryMessage)
    ensures apiKey != "" && outcome.Threw? ==>
      var m := outcome.message;
      g == if m.Some? && Contains(m.value, InvalidKeyMarker) then Generated(MockSummary(transcript, prompt))
           else Failed(RetryMessage)
  {
    NoContentIsNotKeyError();
    if apiKey == "" then Failed(KeyMissingMessage)
    else match TryAsWritten(outcome)
      case Returns(text) => Generated(text)
      case Raises(e) => Catch(e, transcript, prompt)
  }

  /** `generateSummary` with the corrected emptiness check. Without a key it fails before
      any request, whatever the service would have done. With a key: an answer with
      non-blank content gives that content trimmed, and any other answer the generic
      failure; a thrown error mentioning "Invalid API Key" gives the demonstration summary
      and any other thrown error the generic failure. A generated text is never empty. */
  function GenerateSummary(apiKey: string, transcript: string, prompt: string, outcome: ApiOutcome)
    : (g: Generation)
    ensures apiKey == "" ==> g == Failed(KeyMissingMessage)
    ensures apiKey != "" && outcome.Responded? ==>
      var c := outcome.content;
      && (g.Generated? <==> c.Some? && !IsBlank(c.value))
      && (g.Generated? ==> g.text == Trim(c.value))
      && (g.Failed? ==> g.message == RetryMessage)
    ensures apiKey != "" && outcome.Threw? ==>
      var m := outcome.message;
      g == if m.Some? && Contains(m.value, InvalidKeyMarker) then Generated(MockSummary(transcript, prompt))
           else Failed(RetryMessage)
    ensures g.Generated? ==> g.text != ""
    ensures g.Failed? ==> g.message == KeyMissingMessage || g.message == RetryMessage
  {
    NoContentIsNotKeyError();
    if apiKey == "" then Failed(KeyMissingMessage)
    else match Try(outcome)
      case Returns(text) => Generated(text)
      case Raises(e) => Catch(e, transcript, prompt)
  }

  /** The error thrown for missing content does not mention an invalid key, so it is never
      answered with the demonstration summary. */
  lemma NoContentIsNotKeyError()
    ensures !Contains(NoContentMessage, InvalidKeyMarker)
  {
    assert 'v' !in NoContentMessage;
    assert InvalidKeyMarker[2] == 'v';
    MissingCharNotContained(NoContentMessage, InvalidKeyMarker, 2);
  }

  /** The generation as written can succeed with an empty text: a completion whose content
      is a single space passes the emptiness check and is then trimmed to nothing. */
  lemma BlankCompletionAsWritten(transcript: string, prompt: string)
    ensures GenerateSummaryAsWritten("key", transcript, prompt, Responded(Some(" "))) == Generated("")
  {
    assert IsBlank(" ");
  }

  /** The correction changes nothing except for content that is non-empty but blank. */
  lemma {:induction false} CorrectionIsLocal(apiKey: string, transcript: string, prompt: string, outcome: ApiOutcome)
    requires !(outcome.Responded? && outcome.content.Some? && outcome.content.value != "" && IsBlank(outcome.content.value))
    ensures GenerateSummary(apiKey, transcript, prompt, outcome) == GenerateSummaryAsWritten(apiKey, transcript, prompt, outcome)
  {
    if outcome.Responded? && outcome.content.Some? && outcome.content.value != "" {
      assert Trim(outcome.content.value) != "";
    }
  }

  /** The three canned summaries. */
  datatype Template = ActionItems | Executive | Default

  /** Template choice from the prompt, case-insensitively: "action" first, then "bullet" or
      "executive", then the default. */
  function SelectTemplate(prompt: string): (t: Template)
    ensures t == ActionItems <==> Contains(ToLower(prompt), "action")
    ensures t == Executive <==>
      !Contains(ToLower(prompt), "action") && (Contains(ToLower(prompt), "bullet") || Contains(ToLower(prompt), "executive"))
    ensures t == Default <==>
      !Contains(ToLower(prompt), "action") && !Contains(ToLower(prompt), "bullet") && !Contains(ToLower(prompt), "executive")
  {
    var p := ToLower(prompt);
    if Contains(p, "action") then ActionItems
    else if Contains(p, "bullet") || Contains(p, "executive") then Executive
    else Default
  }

  function TemplateText(t: Template): string {
    match t
    case ActionItems => ActionItemsText
    case Executive => ExecutiveText
    case Default => DefaultText
  }

  /** `generateMockSummary`: the canned text of the template the prompt selects. The
      transcript is not consulted. */
  function MockSummary(transcript: string, prompt: string): (r: string)
    ensures r != ""
    ensures r == TemplateText(SelectTemplate(prompt))
  {
    TemplateText(SelectTemplate(prompt))
  }

  /** The three templates are different texts, so the text reveals the branch taken. */
  lemma TemplateTextInjective(a: Template, b: Template)
    ensures TemplateText(a) == TemplateText(b) ==> a == b
  {
  }

  /** A prompt mentioning "action" in any ASCII case selects the action-items template,
      even if it also mentions "bullet" or "executive". */
  lemma {:induction false} ActionTakesPrecedence(transcript: string, prompt: string)
    requires Contains(ToLower(prompt), "action")
    ensures MockSummary(transcript, prompt) == ActionItemsText
  {
  }

  /** Which canned text the demonstration summary is, for every prompt: the action-items
      text exactly when the folded prompt mentions "action"; otherwise the executive text
      exactly when it mentions "bullet" or "executive"; the default text for all others. */
  lemma {:induction false} MockTemplateChoice(transcript: string, prompt: string)
    ensures var p := ToLower(prompt);
      && (MockSummary(transcript, prompt) == ActionItemsText <==> Contains(p, "action"))
      && (MockSummary(transcript, prompt) == ExecutiveText <==>
            !Contains(p, "action") && (Contains(p, "bullet") || Contains(p, "executive")))
      && (MockSummary(transcript, prompt) == DefaultText <==>
            !Contains(p, "action") && !Contains(p, "bullet") && !Contains(p, "executive"))
  {
    var t := SelectTemplate(prompt);
    TemplateTextInjective(t, ActionItems);
    TemplateTextInjective(t, Executive);
    TemplateTextInjective(t, Default);
  }

  /** The demonstration summary depends on the prompt only. */
  lemma MockIgnoresTranscript(t1: string, t2: string, prompt: string)
    ensures MockSummary(t1, prompt) == MockSummary(t2, prompt)
  {
  }

  /** Upper- and mixed-case keywords count: a prompt containing "Action" or "ACTION"
      selects the action-items template. */
  lemma {:induction false} ActionIsCaseInsensitive(transcript: string, prompt: string)
    requires Contains(prompt, "Action") || Contains(prompt, "ACTION")
    ensures MockSummary(transcript, prompt) == ActionItemsText
  {
    assert ToLower("Action") == "action";
    assert ToLower("ACTION") == "action";
    if Contains(prompt, "Action") {
      ContainsToLower(prompt, "Action");
    } else {
      ContainsToLower(prompt, "ACTION");
    }
  }

  /** Without a key no request is made and the demonstration summary is never produced,
      even when the service would have reported an invalid key. */
  lemma NoKeyNeverFallsBack(transcript: string, prompt: string, outcome: ApiOutcome)
    ensures GenerateSummary("", transcript, prompt, outcome) == Failed(KeyMissingMessage)
    ensures GenerateSummaryAsWritten("", transcript, prompt, outcome) == Failed(KeyMissingMessage)
  {
  }

  /** The quick prompt "Highlight only action items and deadlines" selects the action-items template. */
  lemma QuickPromptActionItems(transcript: string)
    ensures MockSummary(transcript, "Highlight only action items and deadlines") == ActionItemsText
  {
    QuickPromptMentionsAction("Highlight only action items and deadlines");
    ActionTakesPrecedence(transcript, "Highlight only action items and deadlines");
  }

  lemma {:induction false} QuickPromptMentionsAction(p: string)
    requires p == "Highlight only action items and deadlines"
    ensures Contains(ToLower(p), "action")
  {
    var before, after := "Highlight only ", " items and deadlines";
    assert p == before + "action" + after;
    LowercaseKeyword(before, after);
  }

  /** A prompt with the lower-case keyword "action" in it still has it after case folding. */
  lemma {:induction false} LowercaseKeyword(before: string, after: string)
    ensures Contains(ToLower(before + "action" + after), "action")
  {
    var p := before + "action" + after;
    assert p[|before|..|before| + 6] == "action";
    assert OccursAt(p, "action", |before|);
    ContainsToLower(p, "action");
    assert ToLower("action") == "action";
  }

  const ActionItemsText := @"**Action Items Summary:**

• John to prepare detailed financial report by Friday
• Sarah to finalize campaign budget by Wednesday
• Review quarterly results presentation materials
• Schedule follow-up meeting for campaign launch planning

**Key Decisions:**
• Quarterly growth of 15% was presented and approved
• New marketing campaign launch approved for next month"

  const ExecutiveText := @"**Executive Summary:**

• **Meeting Duration:** 9:00 AM - 10:00 AM
• **Key Performance:** 15% quarterly growth achieved
• **Strategic Initiative:** New marketing campaign launching next month
• **Action Items:** Financial report (Friday), Campaign budget (Wednesday)
• **Participants:** John (Financial Results), Sarah (Marketing Campaign)

**Key Outcomes:**
• Strong quarterly performance demonstrated
• Marketing expansion strategy approved
• Clear deliverables assigned with deadlines"

  const DefaultText := @"**Meeting Summary:**

This one-hour meeting covered two main topics: quarterly financial performance and upcoming marketing initiatives.

**Financial Performance:**
John presented the quarterly results, highlighting a strong 15% growth rate that exceeded expectations.

**Marketing Campaign:**
Sarah outlined plans for a new marketing campaign scheduled to launch next month, demonstrating the company's commitment to continued growth.

**Next Steps:**
The team established clear action items with specific deadlines to maintain momentum on both financial reporting and marketing execution."
}
