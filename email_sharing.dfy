/** The e-mail sharing form of the browser client: the recipient field is split on commas,
    each piece trimmed and empty pieces dropped; every address must pass the form's address
    pattern; the request body carries the trimmed subject and the trimmed message (left out
    when blank). After a successful send the recipient and message fields are cleared. */
module EmailSharing {
  import opened Wrappers
  import opened Text

  const NoRecipientsMessage := "At least one email address is required"
  const InvalidAddressesPrefix := "Invalid email addresses: "
  const DefaultSubject := "Meeting Summary"

  /** `.map(email => email.trim())` */
  function TrimAll(parts: seq<string>): (r: seq<string>)
    ensures |r| == |parts|
    ensures forall k | 0 <= k < |r| :: r[k] == Trim(parts[k])
  {
    if parts == [] then [] else [Trim(parts[0])] + TrimAll(parts[1..])
  }

  /** `.filter(email => email.length > 0)` */
  function DropEmpty(parts: seq<string>): (r: seq<string>)
    ensures forall e | e in r :: e != [] && e in parts
  {
    if parts == [] then [] else (if parts[0] == [] then [] else [parts[0]]) + DropEmpty(parts[1..])
  }

  lemma {:induction false} TrimAllConcat(a: seq<string>, b: seq<string>)
    ensures TrimAll(a + b) == TrimAll(a) + TrimAll(b)
  {
    if a != [] {
      assert (a + b)[1..] == a[1..] + b;
      TrimAllConcat(a[1..], b);
    } else {
      assert a + b == b;
    }
  }

  lemma {:induction false} DropEmptyConcat(a: seq<string>, b: seq<string>)
    ensures DropEmpty(a + b) == DropEmpty(a) + DropEmpty(b)
  {
    if a != [] {
      assert (a + b)[1..] == a[1..] + b;
      DropEmptyConcat(a[1..], b);
    } else {
      assert a + b == b;
    }
  }

  /** The recipient list typed into the form (`emailRecipients.split(",").map(trim).filter(nonEmpty)`).
      Every recipient is non-empty and has no whitespace at either end. */
  function ParseRecipients(input: string): (r: seq<string>)
    ensures forall e | e in r :: e != "" && IsTight(e)
  {
    DropEmpty(TrimAll(Split(input, ',')))
  }

  /** Recipients keep their order across a comma: the list for `a + "," + b` is the list for
      `a` followed by the list for `b`. */
  lemma {:induction false} ParseRecipientsAround(a: string, b: string)
    ensures ParseRecipients(a + [','] + b) == ParseRecipients(a) + ParseRecipients(b)
  {
    SplitAround(a, ',', b);
    TrimAllConcat(Split(a, ','), Split(b, ','));
    DropEmptyConcat(TrimAll(Split(a, ',')), TrimAll(Split(b, ',')));
  }

  /** A comma-free piece contributes its trimmed text, or nothing when it is blank. Together
      with ParseRecipientsAround this determines the whole list. */
  lemma {:induction false} ParseRecipientsPiece(p: string)
    requires ',' !in p
    ensures ParseRecipients(p) == if IsBlank(p) then [] else [Trim(p)]
  {
    SplitWithoutSeparator(p, ',');
    var t := Trim(p);
    assert TrimAll([p]) == [t] by {
      assert TrimAll([p]) == [Trim(p)] + TrimAll([]);
    }
    assert DropEmpty([t]) == (if t == [] then [] else [t]) + DropEmpty([]);
  }

  lemma {:induction false} SplitBlankPieces(s: string, sep: char)
    requires IsBlank(s)
    ensures forall k | 0 <= k < |Split(s, sep)| :: IsBlank(Split(s, sep)[k])
  {
    if s != [] {
      SplitBlankPieces(s[1..], sep);
      var rest := Split(s[1..], sep);
      if s[0] != sep {
        assert IsBlank([s[0]] + rest[0]) by {
          assert forall k | 1 <= k < |[s[0]] + rest[0]| :: ([s[0]] + rest[0])[k] == rest[0][k - 1];
        }
      }
    }
  }

  lemma {:induction false} DropEmptyOfBlanks(parts: seq<string>)
    requires forall k | 0 <= k < |parts| :: parts[k] == []
    ensures DropEmpty(parts) == []
  {
    if parts != [] {
      DropEmptyOfBlanks(parts[1..]);
    }
  }

  /** A blank recipient field yields no recipients. */
  lemma {:induction false} BlankGivesNoRecipients(input: string)
    requires IsBlank(input)
    ensures ParseRecipients(input) == []
  {
    SplitBlankPieces(input, ',');
    DropEmptyOfBlanks(TrimAll(Split(input, ',')));
  }

  /** One character of an address: not whitespace and not '@' (`[^\s@]`). */
  predicate IsAddressChar(c: char) {
    !IsSpace(c) && c != '@'
  }

  /** `[^\s@]+` */
  predicate AddressRun(s: string) {
    s != [] && forall k | 0 <= k < |s| :: IsAddressChar(s[k])
  }

  /** The pattern `^[^\s@]+@[^\s@]+\.[^\s@]+$` matches `s` with the '@' at `at` and the
      literal '.' at `dot`. */
  predicate MatchesAt(s: string, at: int, dot: int) {
    && 0 < at < dot < |s|
    && s[at] == '@' && s[dot] == '.'
    && AddressRun(s[..at]) && AddressRun(s[at + 1..dot]) && AddressRun(s[dot + 1..])
  }

  /** The address pattern, read as a regular expression. */
  ghost predicate MatchesAddressPattern(s: string) {
    exists at, dot :: MatchesAt(s, at, dot)
  }

  /** A '.' with at least one character on each side of it. */
  predicate HasInnerDot(d: string) {
    exists k | 0 < k < |d| - 1 :: d[k] == '.'
  }

  /** The address check stated directly: no whitespace; exactly one '@', with something
      before it; after it, a '.' with something on both sides. */
  predicate HasAddressShape(s: string) {
    && NoSpace(s)
    && '@' in s
    && var at := IndexOf(s, '@');
    && at > 0
    && '@' !in s[at + 1..]
    && HasInnerDot(s[at + 1..])
  }

  /** The direct check and the pattern agree on every string. */
  lemma EmailCheckIsPattern(s: string)
    ensures HasAddressShape(s) <==> MatchesAddressPattern(s)
  {
    if HasAddressShape(s) {
      CheckGivesMatch(s);
    }
    if MatchesAddressPattern(s) {
      var at, dot :| MatchesAt(s, at, dot);
      MatchGivesCheck(s, at, dot);
    }
  }

  lemma {:induction false} CheckGivesMatch(s: string)
    requires HasAddressShape(s)
    ensures MatchesAddressPattern(s)
  {
    var at := IndexOf(s, '@');
    var d := s[at + 1..];
    var k :| 0 < k < |d| - 1 && d[k] == '.';
    var dot := at + 1 + k;
    assert s[dot] == '.';
    assert AddressRun(s[..at]) by {
      forall j | 0 <= j < at ensures IsAddressChar(s[..at][j]) {
        assert s[..at][j] == s[j];
        assert s[j] in s[..at];
      }
    }
    assert AddressRun(d[..k]) by {
      forall j | 0 <= j < k ensures IsAddressChar(d[..k][j]) {
        assert d[..k][j] == d[j];
        assert d[j] in d;
      }
    }
    assert s[at + 1..dot] == d[..k];
    var tail := d[k + 1..];
    assert AddressRun(tail) by {
      forall j | 0 <= j < |tail| ensures IsAddressChar(tail[j]) {
        assert tail[j] == d[k + 1 + j];
        assert d[k + 1 + j] in d;
      }
    }
    assert s[dot + 1..] == d[k + 1..];
    assert MatchesAt(s, at, dot);
  }

  lemma {:induction false} MatchGivesCheck(s: string, at: int, dot: int)
    requires MatchesAt(s, at, dot)
    ensures HasAddressShape(s)
  {
    var pre, mid, post := s[..at], s[at + 1..dot], s[dot + 1..];
    assert s == pre + ['@'] + mid + ['.'] + post;
    assert NoSpace(s) by {
      forall j | 0 <= j < |s| ensures !IsSpace(s[j]) {
        if j < at { assert s[j] == pre[j]; }
        else if at < j < dot { assert s[j] == mid[j - at - 1]; }
        else if dot < j { assert s[j] == post[j - dot - 1]; }
      }
    }
    assert '@' !in pre by {
      forall j | 0 <= j < |pre| ensures pre[j] != '@' { assert IsAddressChar(pre[j]); }
    }
    IndexOfUnique(s, '@', at);
    var d := s[at + 1..];
    assert d == mid + ['.'] + post;
    assert '@' !in d by {
      forall j | 0 <= j < |d| ensures d[j] != '@' {
        if j < |mid| { assert d[j] == mid[j]; assert IsAddressChar(mid[j]); }
        else if j > |mid| { assert d[j] == post[j - |mid| - 1]; assert IsAddressChar(post[j - |mid| - 1]); }
      }
    }
    assert d[|mid|] == '.';
    assert HasInnerDot(d);
  }

  /** `emailRegex.test(email)`: the form's address check accepts exactly the strings the
      address pattern matches. */
  predicate IsValidEmail(s: string)
    ensures IsValidEmail(s) <==> MatchesAddressPattern(s)
  {
    EmailCheckIsPattern(s);
    HasAddressShape(s)
  }

  /** `recipients.filter(email => !emailRegex.test(email))`: the failing addresses, in order. */
  function InvalidAddresses(rs: seq<string>): (bad: seq<string>)
    ensures forall e | e in bad :: e in rs && !IsValidEmail(e)
    ensures forall e | e in rs && !IsValidEmail(e) :: e in bad
  {
    if rs == [] then []
    else (if IsValidEmail(rs[0]) then [] else [rs[0]]) + InvalidAddresses(rs[1..])
  }

  /** A single recipient is reported exactly when it fails the check. */
  lemma InvalidAddressesSingle(e: string)
    ensures InvalidAddresses([e]) == if IsValidEmail(e) then [] else [e]
  {
    assert [e][1..] == [];
  }

  /** The invalid addresses of `a + b` are those of `a` followed by those of `b`: the filter
      keeps the input's order and its repeats. */
  lemma {:induction false} InvalidAddressesConcat(a: seq<string>, b: seq<string>)
    ensures InvalidAddresses(a + b) == InvalidAddresses(a) + InvalidAddresses(b)
  {
    if a == [] {
      assert a + b == b;
    } else {
      InvalidAddressesConcat(a[1..], b);
      InvalidAddressesHead(a, b);
    }
  }

  lemma InvalidAddressesHead(a: seq<string>, b: seq<string>)
    requires a != []
    ensures InvalidAddresses(a + b) ==
      (if IsValidEmail(a[0]) then [] else [a[0]]) + InvalidAddresses(a[1..] + b)
  {
    assert (a + b)[0] == a[0] && (a + b)[1..] == a[1..] + b;
  }

  /** The checks made on the parsed list before any request: an empty list is an error, and
      so is any invalid address, reported with every invalid address joined by ", "; otherwise
      the whole list is sent. */
  function CheckRecipients(recipients: seq<string>): (r: Result<seq<string>, string>)
    ensures r.Ok? <==> recipients != [] && forall e | e in recipients :: IsValidEmail(e)
    ensures r.Ok? ==> r.value == recipients
    ensures recipients == [] ==> r == Err(NoRecipientsMessage)
    ensures recipients != [] && r.Err? ==>
      r.error == InvalidAddressesPrefix + Join(InvalidAddresses(recipients), ", ")
  {
    if recipients == [] then Err(NoRecipientsMessage)
    else
      var invalid := InvalidAddresses(recipients);
      if invalid != [] then
        assert invalid[0] in invalid;
        Err(InvalidAddressesPrefix + Join(invalid, ", "))
      else Ok(recipients)
  }

  /** What pressing "Send Email" checks, from the text typed into the recipient field: an
      accepted list is the parsed list, non-empty, of valid addresses with no surrounding
      whitespace; a blank field is refused with the no-recipients message. */
  function ValidateRecipients(input: string): (r: Result<seq<string>, string>)
    ensures r.Ok? ==> r.value == ParseRecipients(input) && r.value != []
    ensures r.Ok? ==> forall e | e in r.value :: IsValidEmail(e) && IsTight(e)
    ensures r.Ok? <==> ParseRecipients(input) != [] && forall e | e in ParseRecipients(input) :: IsValidEmail(e)
    ensures IsBlank(input) || ParseRecipients(input) == [] ==> r == Err(NoRecipientsMessage)
    ensures ParseRecipients(input) != [] && r.Err? ==>
      r.error == InvalidAddressesPrefix + Join(InvalidAddresses(ParseRecipients(input)), ", ")
  {
    // Both branches give the same value; the first only brings in BlankGivesNoRecipients.
    if IsBlank(input) then BlankGivesNoRecipients(input); CheckRecipients(ParseRecipients(input))
    else CheckRecipients(ParseRecipients(input))
  }

  /** The JSON body posted to the server. */
  datatype RequestBody = RequestBody(
    recipients: seq<string>,
    subject: string,
    message: Option<string>,
    includeOriginal: bool)

  /** The body built from the form: the subject trimmed; the message trimmed, and left out
      when nothing but whitespace was typed. */
  function MakeRequestBody(recipients: seq<string>, subject: string, message: string, includeOriginal: bool)
    : (b: RequestBody)
    ensures b.recipients == recipients && b.includeOriginal == includeOriginal
    ensures b.subject == Trim(subject)
    ensures b.message.None? <==> IsBlank(message)
    ensures b.message.Some? ==> b.message.value == Trim(message) && b.message.value != ""
  {
    var m := Trim(message);
    RequestBody(recipients, Trim(subject), if m == "" then None else Some(m), includeOriginal)
  }

  /** Whether the send button is enabled: both fields hold something besides whitespace and
      no request is pending. */
  predicate CanSend(recipients: string, subject: string, pending: bool)
    ensures CanSend(recipients, subject, pending) <==> Trim(recipients) != "" && Trim(subject) != "" && !pending
  {
    !IsBlank(recipients) && !IsBlank(subject) && !pending
  }

  /** The button's recipient check never blocks a list that would pass validation. */
  lemma ValidListEnablesButton(recipients: string, subject: string)
    requires ValidateRecipients(recipients).Ok? && !IsBlank(subject)
    ensures CanSend(recipients, subject, false)
  {
    if IsBlank(recipients) {
      BlankGivesNoRecipients(recipients);
    }
  }

  /** But an enabled button does not mean the list is valid: "," is not blank and has no
      recipients in it. */
  lemma EnabledButtonIsNotValidation()
    ensures CanSend(",", DefaultSubject, false)
    ensures ValidateRecipients(",") == Err(NoRecipientsMessage)
  {
    assert !IsBlank(",") by { assert ","[0] == ','; }
    assert !IsBlank(DefaultSubject) by { assert DefaultSubject[0] == 'M'; }
    LoneCommaHasNoRecipients();
  }

  lemma LoneCommaHasNoRecipients()
    ensures ParseRecipients(",") == []
  {
    var e: string := [];
    ParseRecipientsPiece(e);
    assert ParseRecipients(e) == [];
    ParseRecipientsAround(e, e);
    assert e + [','] + e == ",";
  }

  /** The form's state. */
  class EmailForm {
    var recipients: string
    var subject: string
    var message: string
    var includeOriginal: bool

    constructor ()
      ensures recipients == "" && subject == DefaultSubject && message == "" && !includeOriginal
    {
      recipients, subject, message, includeOriginal := "", DefaultSubject, "", false;
    }

    /** Pressing "Send Email": a validation error is shown without any request; otherwise
        the request body is built from the current fields. The form itself is not changed. */
    method Send() returns (request: Option<RequestBody>, error: Option<string>)
      ensures ValidateRecipients(recipients).Err? ==>
        request.None? && error == Some(ValidateRecipients(recipients).error)
      ensures ValidateRecipients(recipients).Ok? ==>
        error.None? && request == Some(MakeRequestBody(ValidateRecipients(recipients).value, subject, message, includeOriginal))
    {
      var v := ValidateRecipients(recipients);
      if v.Err? {
        return None, Some(v.error);
      }
      return Some(MakeRequestBody(v.value, subject, message, includeOriginal)), None;
    }

    /** The server accepted the request: the recipient and message fields are cleared, the
        subject and the include-original flag are kept. A failed request changes nothing. */
    method SendSucceeded()
      modifies this
      ensures recipients == "" && message == ""
      ensures subject == old(subject) && includeOriginal == old(includeOriginal)
    {
      recipients, message := "", "";
    }
  }
}
