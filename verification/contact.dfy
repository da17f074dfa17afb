/**
 * The contact form: the validation rules declared on its fields, the email
 * pattern read as a regular expression, and the submission phases
 * (editing, sending, success panel, back to an empty form). The email
 * control is an `<input type="email">` in a form without `novalidate`, so
 * the browser sanitizes its value and checks it before the form library
 * sees the submission. The form library's own machinery and the timers are
 * not modelled; each timer firing and the end of the simulated request are
 * explicit events.
 */
module Contact {
  import opened Wrappers
  import opened EmailInput

  datatype FormData = FormData(name: string, email: string, company: string, service: string, message: string)

  /** The values every field holds on mount and after a reset. */
  const EmptyForm: FormData := FormData("", "", "", "", "")

  // ---------------------------------------------------------------------------
  // The email pattern /^\S+@\S+$/i
  // ---------------------------------------------------------------------------

  /** The class `\s` of ECMAScript regular expressions: its WhiteSpace and LineTerminator code points. */
  predicate IsSpace(c: char) {
    || c == '\t' || c == '\n' || c == '\U{000B}' || c == '\U{000C}' || c == '\r' || c == ' '
    || c == '\U{00A0}' || c == '\U{1680}' || ('\U{2000}' <= c <= '\U{200A}')
    || c == '\U{2028}' || c == '\U{2029}' || c == '\U{202F}' || c == '\U{205F}'
    || c == '\U{3000}' || c == '\U{FEFF}'
  }

  predicate NoSpace(s: string) {
    forall i :: 0 <= i < |s| ==> !IsSpace(s[i])
  }

  /**
   * The pattern as a regular expression, anchored at both ends: the text is
   * one or more non-space characters, an '@', and one or more non-space
   * characters. `\S` also matches '@', so the split point may be any '@'.
   */
  ghost function PatternMatches(s: string): (m: bool)
    ensures m ==> |s| >= 3 && '@' in s[1..|s| - 1]
  {
    exists k :: 0 < k < |s| - 1 && s[k] == '@' && NoSpace(s[..k]) && NoSpace(s[k + 1..])
  }

  /** The executable reading: no whitespace anywhere, and an '@' that is neither first nor last. */
  predicate EmailPatternOk(s: string) {
    NoSpace(s) && exists k | 1 <= k < |s| - 1 :: s[k] == '@'
  }

  lemma EmailPatternCharacterization(s: string)
    ensures EmailPatternOk(s) <==> PatternMatches(s)
  {
    if EmailPatternOk(s) {
      var k :| 1 <= k < |s| - 1 && s[k] == '@';
      assert NoSpace(s[..k]) by {
        forall i | 0 <= i < k ensures !IsSpace(s[..k][i]) {
          assert s[..k][i] == s[i];
        }
      }
      var tail := s[k + 1..];
      assert NoSpace(tail) by {
        forall i | 0 <= i < |tail| ensures !IsSpace(tail[i]) {
          assert tail[i] == s[k + 1 + i];
        }
      }
    }
    if PatternMatches(s) {
      var k :| 0 < k < |s| - 1 && s[k] == '@' && NoSpace(s[..k]) && NoSpace(s[k + 1..]);
      forall i | 0 <= i < |s| ensures !IsSpace(s[i]) {
        if i < k {
          assert s[i] == s[..k][i];
        } else if i > k {
          assert s[i] == s[k + 1..][i - k - 1];
        }
      }
    }
  }

  /** `\S` matches '@' too, so a doubled '@' is accepted. */
  lemma DoubleAtAccepted()
    ensures PatternMatches("a@@b")
  {
    var s := "a@@b";
    assert s[..1] == "a" && s[2..] == "@b";
    assert NoSpace(s[..1]) && NoSpace(s[2..]);
  }

  /** Visible ASCII characters are never `\s`. */
  lemma VisibleAsciiNoSpace(s: string)
    requires forall i :: 0 <= i < |s| ==> '!' <= s[i] <= '~'
    ensures NoSpace(s)
  {
  }

  lemma AddressAccepted()
    ensures PatternMatches("your.email@company.com")
  {
    var s := "your.email@company.com";
    var local, domain := "your.email", "company.com";
    assert s == local + "@" + domain;
    assert s[..10] == local && s[11..] == domain;
    VisibleAsciiNoSpace(local);
    VisibleAsciiNoSpace(domain);
    assert s[10] == '@';
  }

  /** Text without an '@' is rejected. */
  lemma NoAtRejected(s: string)
    requires '@' !in s
    ensures !PatternMatches(s)
  {
    EmailPatternCharacterization(s);
    forall k | 0 <= k < |s| ensures s[k] != '@' {
      assert s[k] in s;
    }
  }

  /** A space on either side of the '@' is rejected, and so is an empty local part. */
  lemma SpaceOrEmptyPartRejected()
    ensures !PatternMatches("a @b")
    ensures !PatternMatches("@b")
  {
    EmailPatternCharacterization("a @b");
    assert IsSpace("a @b"[1]);
    EmailPatternCharacterization("@b");
  }

  // ---------------------------------------------------------------------------
  // Field rules
  // ---------------------------------------------------------------------------

  /** The message shown under each field that fails its rule. */
  datatype FieldErrors = FieldErrors(name: Option<string>, email: Option<string>, service: Option<string>, message: Option<string>)

  const NoErrors: FieldErrors := FieldErrors(None, None, None, None)

  const NameRequired := "Name is required"
  const EmailRequired := "Email is required"
  const EmailInvalid := "Invalid email address"
  const ServiceRequired := "Please select a service"
  const MessageRequired := "Message is required"

  /** The required rule: the empty string fails with the rule's message, and any other value passes. */
  function Required(v: string, msg: string): (e: Option<string>)
    ensures e.Some? <==> v == ""
    ensures e == None || e == Some(msg)
  {
    if v == "" then Some(msg) else None
  }

  /** The rules declared on the fields; the pattern is only tried on a non-empty email. */
  function Validate(d: FormData): (errs: FieldErrors)
    ensures errs.name.Some? <==> d.name == ""
    ensures errs.service.Some? <==> d.service == ""
    ensures errs.message.Some? <==> d.message == ""
    ensures errs.email == Some(EmailRequired) <==> d.email == ""
    ensures errs.email == Some(EmailInvalid) <==> d.email != "" && !PatternMatches(d.email)
    ensures d.email != "" && PatternMatches(d.email) ==> errs.email == None
    ensures d.name == "" ==> errs.name == Some(NameRequired)
    ensures d.service == "" ==> errs.service == Some(ServiceRequired)
    ensures d.message == "" ==> errs.message == Some(MessageRequired)
    ensures errs == NoErrors <==> d.name != "" && PatternMatches(d.email) && d.service != "" && d.message != ""
  {
    EmailPatternCharacterization(d.email);
    FieldErrors(
      Required(d.name, NameRequired),
      if d.email == "" then Some(EmailRequired)
      else if !EmailPatternOk(d.email) then Some(EmailInvalid)
      else None,
      Required(d.service, ServiceRequired),
      Required(d.message, MessageRequired))
  }

  /** The company field carries no rule: its value never affects validation. */
  lemma CompanyIsOptional(d: FormData, c: string)
    ensures Validate(d.(company := c)) == Validate(d)
  {
  }

  /** The values of the service dropdown: a placeholder, then the four services. */
  const ServiceOptions: seq<string> := ["", "social-media", "website", "both", "consultation"]

  /** Among the dropdown's values, exactly the four services satisfy the rule; the placeholder does not. */
  lemma ServiceChoice(d: FormData, v: string)
    requires v in ServiceOptions
    ensures Validate(d.(service := v)).service.None? <==> v in ServiceOptions[1..]
    ensures v == ServiceOptions[0] ==> Validate(d.(service := v)).service == Some(ServiceRequired)
  {
  }

  // ---------------------------------------------------------------------------
  // Submission phases
  // ---------------------------------------------------------------------------

  /** The form values, the errors on display, and the loading and submitted state hooks. */
  datatype ContactState = ContactState(form: FormData, errors: FieldErrors, loading: bool, submitted: bool)

  const Fresh: ContactState := ContactState(EmptyForm, NoErrors, false, false)

  datatype Field = NameField | EmailField | CompanyField | ServiceField | MessageField

  /** The form with one field replaced and the other four kept. */
  function SetField(d: FormData, f: Field, v: string): (d': FormData)
    ensures d'.name == (if f == NameField then v else d.name)
    ensures d'.email == (if f == EmailField then v else d.email)
    ensures d'.company == (if f == CompanyField then v else d.company)
    ensures d'.service == (if f == ServiceField then v else d.service)
    ensures d'.message == (if f == MessageField then v else d.message)
  {
    match f
    case NameField => d.(name := v)
    case EmailField => d.(email := v)
    case CompanyField => d.(company := v)
    case ServiceField => d.(service := v)
    case MessageField => d.(message := v)
  }

  /**
   * The value a control reports for what the user typed. The email control
   * sanitizes it, the two text inputs drop line breaks, and the select and
   * the textarea report it as given.
   */
  function Reported(f: Field, typed: string): (v: string)
    ensures f == EmailField ==> v == Sanitize(typed)
    ensures f == NameField || f == CompanyField ==> v == StripNewlines(typed)
    ensures f == ServiceField || f == MessageField ==> v == typed
    // no single-line input ever holds a line break
    ensures f != ServiceField && f != MessageField ==> forall i :: 0 <= i < |v| ==> !IsNewline(v[i])
    // typed text without line breaks reaches the text inputs unchanged
    ensures f != EmailField && (forall i :: 0 <= i < |typed| ==> !IsNewline(typed[i])) ==> v == typed
  {
    match f
    case EmailField => Sanitize(typed)
    case NameField => StripNewlines(typed)
    case CompanyField => StripNewlines(typed)
    case ServiceField => typed
    case MessageField => typed
  }

  /** The browser lets the submit event through only when the email control has no type mismatch. */
  function BrowserAllowsSubmit(d: FormData): (ok: bool)
    ensures ok <==> d.email == "" || ValidEmailAddress(d.email)
    // what gets through is empty or already matches the pattern
    ensures ok ==> d.email == "" || PatternMatches(d.email)
  {
    if ValidEmailAddress(d.email) then
      BrowserValidMatchesPattern(d.email);
      true
    else !TypeMismatch(d.email)
  }

  datatype ContactEvent =
    | Edit(field: Field, value: string)  // typing into a field or choosing a service
    | Submit                             // the submit button, or Enter in a field
    | RequestDone                        // the simulated request resolves
    | SuccessTimerFired                  // the success panel's timeout fires

  /** The form is on screen exactly while no success is being shown. */
  predicate FormShown(s: ContactState) {
    !s.submitted
  }

  predicate SuccessShown(s: ContactState) {
    s.submitted
  }

  /** The submit button is disabled exactly while a request is in flight. */
  predicate SubmitDisabled(s: ContactState) {
    s.loading
  }

  function ButtonText(s: ContactState): (text: string)
    ensures text == "Sending..." <==> SubmitDisabled(s)
  {
    if s.loading then "Sending..." else "Get Started Today"
  }

  /** The two flags are never both set. */
  predicate PhaseOk(s: ContactState) {
    !(s.loading && s.submitted)
  }

  function ContactStep(s: ContactState, e: ContactEvent): (r: ContactState)
    ensures PhaseOk(s) ==> PhaseOk(r)
    // the browser refuses a submission whose email is a type mismatch: nothing happens on the page
    ensures e.Submit? && TypeMismatch(s.form.email) ==> r == s
    // past the browser, a submission is accepted exactly when the form is usable and valid
    ensures e.Submit? && FormShown(s) && !SubmitDisabled(s) && BrowserAllowsSubmit(s.form) ==>
      (r.loading <==> Validate(s.form) == NoErrors) && r.form == s.form && !r.submitted
    ensures e.Submit? && FormShown(s) && !SubmitDisabled(s) && BrowserAllowsSubmit(s.form) ==>
      r.errors == Validate(s.form)
    ensures e.Submit? && FormShown(s) && !SubmitDisabled(s) && BrowserAllowsSubmit(s.form) && Validate(s.form) != NoErrors ==>
      r == s.(errors := Validate(s.form))
    ensures e.Submit? && (s.loading || s.submitted) ==> r == s
    // the end of the request shows the success panel and empties the form
    ensures e.RequestDone? && s.loading ==> r == ContactState(EmptyForm, NoErrors, false, true)
    ensures e.RequestDone? && !s.loading ==> r == s
    ensures e.SuccessTimerFired? ==> r == s.(submitted := false)
    // edits reach the form only while it is on screen, as the control reports them
    ensures e.Edit? && !FormShown(s) ==> r == s
    ensures e.Edit? && FormShown(s) ==> r == s.(form := SetField(s.form, e.field, Reported(e.field, e.value)))
    ensures e.Edit? ==> r.loading == s.loading && r.submitted == s.submitted && r.errors == s.errors
  {
    match e
    case Edit(f, v) => if FormShown(s) then s.(form := SetField(s.form, f, Reported(f, v))) else s
    case Submit =>
      if s.loading || s.submitted || !BrowserAllowsSubmit(s.form) then s
      else
        var errs := Validate(s.form);
        if errs == NoErrors then s.(errors := NoErrors, loading := true) else s.(errors := errs)
    case RequestDone => if s.loading then ContactState(EmptyForm, NoErrors, false, true) else s
    case SuccessTimerFired => s.(submitted := false)
  }

  function ContactRun(s: ContactState, es: seq<ContactEvent>): ContactState
    decreases |es|
  {
    if es == [] then s else ContactRun(ContactStep(s, es[0]), es[1..])
  }

  /** No event sequence from mount shows the success panel while a request is in flight. */
  lemma {:induction false} PhasesExclusive(s: ContactState, es: seq<ContactEvent>)
    requires PhaseOk(s)
    ensures PhaseOk(ContactRun(s, es))
    decreases |es|
  {
    if es != [] {
      PhasesExclusive(ContactStep(s, es[0]), es[1..]);
    }
  }

  /** Every address the browser accepts also matches the pattern: the browser's grammar is the stricter one. */
  lemma BrowserValidMatchesPattern(s: string)
    requires ValidEmailAddress(s)
    ensures PatternMatches(s)
  {
    ValidAddressShape(s);
    forall i | 0 <= i < |s| ensures !IsSpace(s[i]) {
      AddressCharPrintable(s[i]);
    }
    EmailPatternCharacterization(s);
  }

  /** No step brings up the pattern's message: here the errors change only on submission. */
  lemma StepNeverShowsPatternMessage(s: ContactState, e: ContactEvent)
    requires s.errors.email != Some(EmailInvalid)
    ensures ContactStep(s, e).errors.email != Some(EmailInvalid)
  {
    if e.Submit? && ValidEmailAddress(s.form.email) {
      BrowserValidMatchesPattern(s.form.email);
    }
  }

  /**
   * No submission displays "Invalid email address": the browser blocks every
   * non-empty email outside its grammar before the pattern is tried, and
   * every email inside it matches the pattern.
   */
  lemma {:induction false} SubmissionsNeverShowPatternMessage(s: ContactState, es: seq<ContactEvent>)
    requires s.errors.email != Some(EmailInvalid)
    ensures ContactRun(s, es).errors.email != Some(EmailInvalid)
    decreases |es|
  {
    if es != [] {
      StepNeverShowsPatternMessage(s, es[0]);
      SubmissionsNeverShowPatternMessage(ContactStep(s, es[0]), es[1..]);
    }
  }

  /** A filled form with an address the browser accepts goes idle, loading, success, and back to an empty idle form. */
  lemma HappyPath(d: FormData)
    requires d.name != "" && ValidEmailAddress(d.email) && d.service != "" && d.message != ""
    ensures Validate(d) == NoErrors
    ensures ContactStep(Fresh.(form := d), Submit).loading
    ensures ContactRun(Fresh.(form := d), [Submit, RequestDone]) == ContactState(EmptyForm, NoErrors, false, true)
    ensures SuccessShown(ContactRun(Fresh.(form := d), [Submit, RequestDone]))
    ensures ContactRun(Fresh.(form := d), [Submit, RequestDone, SuccessTimerFired]) == Fresh
  {
    BrowserValidMatchesPattern(d.email);
    var start := Fresh.(form := d);
    var sending := ContactStep(start, Submit);
    var done := ContactStep(sending, RequestDone);
    assert [Submit, RequestDone][1..] == [RequestDone];
    assert ContactRun(sending, [RequestDone]) == ContactRun(done, []);
    assert [Submit, RequestDone, SuccessTimerFired][1..] == [RequestDone, SuccessTimerFired];
    assert [RequestDone, SuccessTimerFired][1..] == [SuccessTimerFired];
    assert ContactRun(done, [SuccessTimerFired]) == ContactRun(ContactStep(done, SuccessTimerFired), []);
  }

  /** An email without '@' fails the pattern too, but the browser stops the submission first: nothing changes on the page. */
  lemma BadEmailBlocks(d: FormData)
    requires d.email == "not-an-email"
    ensures !PatternMatches(d.email)
    ensures ContactStep(Fresh.(form := d), Submit) == Fresh.(form := d)
  {
    NoAtRejected(d.email);
  }

  /** `a@@b` satisfies the pattern, yet the browser refuses it, so it never starts a request. */
  lemma DoubleAtBlocked(d: FormData)
    requires d.email == "a@@b"
    ensures PatternMatches(d.email)
    ensures ContactStep(Fresh.(form := d), Submit) == Fresh.(form := d)
  {
    DoubleAtAccepted();
    DoubleAtMismatch();
  }

  /** Whitespace typed before a valid address is dropped by the control, and the address then matches the pattern. */
  lemma LeadingSpaceAccepted(s: ContactState, c: char, addr: string)
    requires FormShown(s) && IsAsciiWhitespace(c) && ValidEmailAddress(addr)
    ensures ContactStep(s, Edit(EmailField, [c] + addr)).form.email == addr
    ensures PatternMatches(addr)
  {
    SanitizeDropsLeadingWhitespace(c, addr);
    ValidAddressClean(addr);
    BrowserValidMatchesPattern(addr);
  }
}
