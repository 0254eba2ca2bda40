/** The summary panel of the browser client: the text shown and edited is the edited
    summary when there is a non-empty one and the generated summary otherwise; the panel
    tracks whether the text differs from that, saves the trimmed text, and shows a word
    count. */
module SummaryDisplay {
  import opened Wrappers
  import opened Text
  import opened Schema
  import opened Storage

  /** `summary.editedSummary || summary.generatedSummary`: an absent or empty edited text
      falls back to the generated one. */
  function EffectiveText(s: Summary): (r: string)
    ensures s.editedSummary.Some? && s.editedSummary.value != "" ==> r == s.editedSummary.value
    ensures s.editedSummary.None? || s.editedSummary.value == "" ==> r == s.generatedSummary
  {
    if s.editedSummary.Some? && s.editedSummary.value != "" then s.editedSummary.value else s.generatedSummary
  }

  /** Saving the trimmed text of a non-blank edit: the request passes the server's update
      schema, the stored summary then shows exactly the trimmed text, and the panel still
      reports changes afterwards exactly when the edit had whitespace at either end. */
  lemma {:induction false} SaveRoundTrip(s: Summary, edited: string, now: Timestamp)
    requires !IsBlank(edited)
    ensures ParseUpdate(Some(Trim(edited))).Some?
    ensures var saved := Updated(s, ParseUpdate(Some(Trim(edited))).value, now);
      && EffectiveText(saved) == Trim(edited)
      && saved.generatedSummary == s.generatedSummary
      && (edited != EffectiveText(saved) <==> !IsTight(edited))
  {
    if IsTight(edited) {
      TrimTight(edited);
    }
  }

  /** `s.split(/\s+/)`: the pieces between maximal runs of whitespace; a leading or a
      trailing run gives an empty piece at that end. */
  function SplitOnSpace(s: string): (parts: seq<string>)
    ensures |parts| >= 1
    ensures NoSpace(s) ==> parts == [s]
    ensures s != [] && IsSpace(s[0]) ==> parts[0] == []
  {
    if s == [] then [[]]
    else
      var rest := SplitOnSpace(s[1..]);
      assert s == [s[0]] + s[1..];
      assert NoSpace(s) ==> NoSpace(s[1..]) by {
        if NoSpace(s) {
          forall i | 0 <= i < |s[1..]| ensures !IsSpace(s[1..][i]) { assert s[1..][i] == s[i + 1]; }
        }
      }
      if !IsSpace(s[0]) then [[s[0]] + rest[0]] + rest[1..]
      else if |s| > 1 && IsSpace(s[1]) then rest
      else [[]] + rest
  }

  /** The number of maximal runs of whitespace in `s`. */
  function SpaceRuns(s: string): nat {
    if s == [] then 0
    else if IsSpace(s[0]) && (|s| == 1 || !IsSpace(s[1])) then 1 + SpaceRuns(s[1..])
    else SpaceRuns(s[1..])
  }

  /** Each run of whitespace separates two pieces. */
  lemma {:induction false} SplitCountsRuns(s: string)
    ensures |SplitOnSpace(s)| == SpaceRuns(s) + 1
  {
    if s != [] {
      SplitCountsRuns(s[1..]);
    }
  }

  /** No piece holds whitespace. */
  lemma {:induction false} SplitPiecesHaveNoSpace(s: string)
    ensures forall k | 0 <= k < |SplitOnSpace(s)| :: NoSpace(SplitOnSpace(s)[k])
  {
    if s != [] {
      SplitPiecesHaveNoSpace(s[1..]);
      var rest := SplitOnSpace(s[1..]);
      if !IsSpace(s[0]) {
        var first := [s[0]] + rest[0];
        assert NoSpace(first) by {
          forall j | 1 <= j < |first| ensures !IsSpace(first[j]) {
            assert first[j] == rest[0][j - 1];
          }
        }
      }
    }
  }

  /** When `s` does not end in whitespace, every piece after the first is non-empty. */
  lemma {:induction false} SplitLaterPiecesNonEmpty(s: string)
    requires s == [] || !IsSpace(s[|s| - 1])
    ensures forall k | 1 <= k < |SplitOnSpace(s)| :: SplitOnSpace(s)[k] != []
  {
    if |s| > 1 {
      var t := s[1..];
      assert t[|t| - 1] == s[|s| - 1];
      SplitLaterPiecesNonEmpty(t);
      if IsSpace(s[0]) && !IsSpace(s[1]) {
        assert SplitOnSpace(t)[0] != [];
      }
    }
  }

  /** `text.trim().split(/\s+/).length`: one for blank text. */
  function WordCount(text: string): (n: nat)
    ensures n >= 1
    ensures IsBlank(text) ==> n == 1
  {
    |SplitOnSpace(Trim(text))|
  }

  /** A non-empty text with no whitespace at either end splits into non-empty
      whitespace-free pieces. */
  lemma {:induction false} TightTextSplitsIntoWords(t: string)
    requires t != [] && IsTight(t)
    ensures forall k | 0 <= k < |SplitOnSpace(t)| :: SplitOnSpace(t)[k] != [] && NoSpace(SplitOnSpace(t)[k])
  {
    SplitPiecesHaveNoSpace(t);
    SplitLaterPiecesNonEmpty(t);
    assert SplitOnSpace(t)[0] != [];
  }

  /** For text that is not blank the count is the number of words: the trimmed text splits
      into non-empty whitespace-free pieces, one more than its runs of whitespace. */
  lemma {:induction false} WordCountCountsWords(text: string)
    requires !IsBlank(text)
    ensures var words := SplitOnSpace(Trim(text));
      && WordCount(text) == |words|
      && forall k | 0 <= k < |words| :: words[k] != [] && NoSpace(words[k])
    ensures WordCount(text) == SpaceRuns(Trim(text)) + 1
  {
    var t := Trim(text);
    assert t != [] && IsTight(t);
    SplitCountsRuns(t);
    TightTextSplitsIntoWords(t);
  }

  /** The panel's state: the summary it was given, the text in the editor, and whether the
      "Save Changes" button is shown. */
  class SummaryEditor {
    var summary: Summary
    var editedContent: string
    var hasChanges: bool

    /** The effect on the editor text and the summary keeps the flag in step with them. */
    ghost predicate Synced()
      reads this
    {
      hasChanges <==> editedContent != EffectiveText(summary)
    }

    constructor (s: Summary)
      ensures summary == s && editedContent == EffectiveText(s) && !hasChanges
      ensures Synced()
    {
      summary, editedContent, hasChanges := s, EffectiveText(s), false;
    }

    /** Typing in the editor. */
    method Edit(text: string)
      modifies this
      ensures editedContent == text && summary == old(summary)
      ensures Synced()
    {
      editedContent := text;
      hasChanges := text != EffectiveText(summary);
    }

    /** Pressing "Save Changes": nothing is sent for blank text; otherwise the trimmed text,
        which the server's update schema accepts. The panel itself does not change. */
    method Save() returns (request: Option<string>)
      ensures request.None? <==> IsBlank(editedContent)
      ensures request.Some? ==> request.value == Trim(editedContent) && IsTight(request.value)
      ensures ParseUpdate(request).Some? <==> request.Some?
    {
      var t := Trim(editedContent);
      request := if t != "" then Some(t) else None;
    }

    /** The server answered the update with `data`: the parent passes it back in as the new
        summary and the effect re-runs, so the flag ends up comparing the unchanged editor
        text with the new summary's text. */
    method SaveSucceeded(data: Summary)
      modifies this
      ensures summary == data && editedContent == old(editedContent)
      ensures Synced()
    {
      summary := data;
      hasChanges := editedContent != EffectiveText(summary);
    }
  }
}
