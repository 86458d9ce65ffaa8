/**
 * The contact page's form (src/components/Contact.js): the error for each
 * field, when an error is shown, the submit guard with its honeypot and
 * minimum fill-in time, and the page state around one submission.
 */
module ContactForm {
  import opened Wrappers
  import JsText
  import ServerUtils

  /** The five inputs as typed. */
  datatype Form = Form(name: string, email: string, phone: string, subject: string, message: string)

  /** The form as it starts. */
  function EmptyForm(): Form { Form("", "", "", "", "") }

  const NameMissing := "Please enter your name"
  const EmailInvalid := "Enter a valid email"
  const SubjectMissing := "Please add a subject"
  const MessageShort := "Tell us a bit more (10+ chars)"
  const MinMessage := 10

  /** The `errors` object: one entry per failing field; the phone is never checked. */
  datatype Errors = Errors(name: Option<string>, email: Option<string>, subject: Option<string>, message: Option<string>)

  /** The four rules, each on its own field; the address is matched as typed, without trimming. */
  function ErrorsOf(f: Form): (e: Errors)
    ensures e.name.Some? ==> e.name.value == NameMissing
    ensures e.email.Some? ==> e.email.value == EmailInvalid
    ensures e.subject.Some? ==> e.subject.value == SubjectMissing
    ensures e.message.Some? ==> e.message.value == MessageShort
  {
    Errors(if JsText.Trim(f.name) == "" then Some(NameMissing) else None,
           if !ServerUtils.EmailShape(f.email) then Some(EmailInvalid) else None,
           if JsText.Trim(f.subject) == "" then Some(SubjectMissing) else None,
           if JsText.Length(JsText.Trim(f.message)) < MinMessage then Some(MessageShort) else None)
  }

  /** `Object.keys(errors).length` */
  function ErrorCount(e: Errors): (n: nat)
    ensures n <= 4
    ensures n == 0 <==> e == Errors(None, None, None, None)
  {
    (if e.name.Some? then 1 else 0) + (if e.email.Some? then 1 else 0)
      + (if e.subject.Some? then 1 else 0) + (if e.message.Some? then 1 else 0)
  }

  /** A form without errors, stated field by field on the rules' own terms. */
  ghost predicate Valid(f: Form) {
    && !JsText.AllSpace(f.name)
    && ServerUtils.MatchesEmailRegex(f.email)
    && !JsText.AllSpace(f.subject)
    && JsText.Length(JsText.Trim(f.message)) >= MinMessage
  }

  /** The form has no errors exactly when every rule holds: a name and a subject that are not all white space, an address the regular expression matches, ten characters of message. */
  lemma NoErrorsIff(f: Form)
    ensures ErrorCount(ErrorsOf(f)) == 0 <==> Valid(f)
  {
    JsText.TrimEmptyIffAllSpace(f.name);
    JsText.TrimEmptyIffAllSpace(f.subject);
    ServerUtils.EmailShapeIsRegex(f.email);
  }

  /** The rules read the form only: changing the phone never changes the errors. */
  lemma PhoneIgnored(f: Form, phone: string)
    ensures ErrorsOf(f.(phone := phone)) == ErrorsOf(f)
  {
  }

  /** An address typed with a space in front is an error here, whatever follows. */
  lemma SpacedAddressIsError(f: Form)
    requires f.email != [] && JsText.IsSpace(f.email[0])
    ensures ErrorsOf(f).email == Some(EmailInvalid)
  {
    ServerUtils.EmailShapeIsRegex(f.email);
  }

  // ---------------------------------------------------------------------------
  // FieldError

  /** The names of the five fields, the keys of `touched`. */
  const Fields: set<string> := {"name", "email", "phone", "subject", "message"}

  /** `errors[field]`, "" when the field has none. */
  function ErrorFor(e: Errors, field: string): string
  {
    var o := if field == "name" then e.name else if field == "email" then e.email
             else if field == "subject" then e.subject else if field == "message" then e.message else None;
    o.GetOr("")
  }

  /** `FieldError({ touched, error })`: the alert text, or nothing. */
  function FieldError(touched: bool, error: string): (r: Option<string>)
    ensures r.Some? <==> touched && error != ""
    ensures r.Some? ==> r.value == error
  {
    if !touched || error == "" then None else Some(error)
  }

  /** Every field with an error shows it once the field is touched, and a field without one never shows anything. */
  lemma ErrorShownIff(e: Errors, field: string, touched: set<string>)
    ensures FieldError(field in touched, ErrorFor(e, field)).Some? <==> field in touched && ErrorFor(e, field) != ""
  {
  }

  // ---------------------------------------------------------------------------
  // submit

  const SpamBlocked := "Submission blocked (spam detected)."
  const TooFast := "Please take a moment to complete the form."
  const MinMillis := 3000

  /** What one press of the submit button does. */
  datatype Outcome =
    | Alerted(message: string)          // `alert(...)`, nothing else changes
    | ShowAllErrors(touched: set<string>)  // every field marked touched
    | Submitted(form: Form)             // `onSubmit(form)`

  /**
   * `submit(e)`: the honeypot (the hidden input's text), then the time since
   * the form appeared (`elapsedMillis`, from `Date.now()`; fewer than three
   * seconds is `tookSeconds < 3`), then the errors.
   */
  function Submit(f: Form, honey: string, elapsedMillis: int): (r: Outcome)
    ensures honey != "" ==> r == Alerted(SpamBlocked)
    ensures honey == "" && elapsedMillis < MinMillis ==> r == Alerted(TooFast)
    ensures r.Submitted? <==> honey == "" && elapsedMillis >= MinMillis && Valid(f)
    ensures r.Submitted? ==> r.form == f
    ensures r.ShowAllErrors? ==> r.touched == Fields
  {
    NoErrorsIff(f);
    if honey != "" then Alerted(SpamBlocked)
    else if elapsedMillis < MinMillis then Alerted(TooFast)
    else if ErrorCount(ErrorsOf(f)) != 0 then ShowAllErrors(Fields)
    else Submitted(f)
  }

  /** After a refused submit, each field's error is on screen: the blocking errors are all visible at once. */
  lemma RefusedShowsEveryError(f: Form, elapsedMillis: int, field: string)
    requires elapsedMillis >= MinMillis && !Valid(f) && field in Fields
    ensures var r := Submit(f, "", elapsedMillis);
      r.ShowAllErrors? && FieldError(field in r.touched, ErrorFor(ErrorsOf(f), field)) ==
        (if ErrorFor(ErrorsOf(f), field) == "" then None else Some(ErrorFor(ErrorsOf(f), field)))
  {
  }

  // ---------------------------------------------------------------------------
  // ContactPage.handleSubmit

  const SendFailed := "Could not send message. Please try again or email us directly."

  /** The page's state: a send in progress, the thank-you shown, the error text. */
  datatype PageState = PageState(submitting: bool, submitted: bool, error: string)

  /** The start of `handleSubmit`: the error is cleared and the send begins. */
  function BeginSubmit(s: PageState): (r: PageState)
    ensures r.submitting && r.error == "" && r.submitted == s.submitted
  {
    PageState(true, s.submitted, "")
  }

  /**
   * The end of `handleSubmit` once the send settled (`succeeded` is whether the
   * awaited call resolved): the thank-you on success, the fixed error on
   * failure, and never still submitting.
   */
  function FinishSubmit(s: PageState, succeeded: bool): (r: PageState)
    ensures !r.submitting
    ensures succeeded ==> r.submitted && r.error == s.error
    ensures !succeeded ==> r.submitted == s.submitted && r.error == SendFailed
  {
    if succeeded then PageState(false, true, s.error) else PageState(false, s.submitted, SendFailed)
  }

  /** The timer six seconds later hides the thank-you again. */
  function HideThanks(s: PageState): (r: PageState)
    ensures !r.submitted && r.submitting == s.submitting && r.error == s.error
  {
    s.(submitted := false)
  }

  /** One whole submission: the error shown afterwards is empty exactly when the send succeeded. */
  lemma SubmissionSettles(s: PageState, succeeded: bool)
    ensures var r := FinishSubmit(BeginSubmit(s), succeeded);
      && !r.submitting
      && (r.error == "" <==> succeeded)
      && (succeeded ==> r.submitted)
  {
  }
}
