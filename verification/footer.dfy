/**
 * The footer's newsletter form (src/components/Footer.js): the notice it
 * shows, the address check before any request, and the state after the
 * request settles. The request itself is a parameter; see `SubmitAsWritten`
 * for the function the component actually imports.
 */
module FooterForm {
  import JsText
  import opened JsValue
  import ServerUtils

  /** The notice's `type`: "", "ok" or "err". */
  datatype Kind = Blank | Good | Error

  datatype Notice = Notice(kind: Kind, msg: string)

  /** The form's state: the address typed, a request in progress, the notice. */
  datatype State = State(email: string, submitting: bool, notice: Notice)

  const Invalid := "Please enter a valid email."
  const Subscribed := "Thanks! You’re subscribed."
  const Fallback := "Subscribe failed. Please try again."

  /** How the awaited call settled: resolved, or threw an error with this `message` ("" when it has none). */
  datatype Call = Resolves | Throws(message: string)

  /** `!value || !regex.test(value)` fails on the trimmed address. */
  predicate Accepts(email: string) {
    var value := JsText.Trim(email);
    value != "" && ServerUtils.EmailShape(value)
  }

  /** The footer accepts exactly the addresses the subscribe endpoint accepts: both trim, then match the same expression. */
  lemma AcceptsAsEndpoint(email: string)
    ensures Accepts(email) <==> ServerUtils.IsEmail(Str(email))
  {
    ServerUtils.IsEmailOfString(email);
  }

  /**
   * `handleEmailSubmit`, with the awaited request `subscribe(value)` as a
   * parameter: it receives the trimmed address, and the state after the call
   * settles is returned.
   */
  function Submit(s: State, subscribe: string -> Call): (r: State)
    ensures !Accepts(s.email) ==> r == State(s.email, s.submitting, Notice(Error, Invalid))
    ensures Accepts(s.email) ==> r == Settle(s, subscribe(JsText.Trim(s.email)))
  {
    if !Accepts(s.email) then s.(notice := Notice(Error, Invalid))
    else Settle(s, subscribe(JsText.Trim(s.email)))
  }

  /** The `try`/`catch`/`finally` after the request: the field cleared on success, the thrown message or the fallback otherwise. */
  function Settle(s: State, call: Call): (r: State)
    ensures !r.submitting
    ensures call.Resolves? ==> r == State("", false, Notice(Good, Subscribed))
    ensures call.Throws? ==> r.email == s.email && r.notice.kind == Error
    ensures call.Throws? ==> r.notice.msg == (if call.message != "" then call.message else Fallback)
  {
    match call
    case Resolves => State("", false, Notice(Good, Subscribed))
    case Throws(m) => State(s.email, false, Notice(Error, ToStr(Or(Str(m), Str(Fallback)))))
  }

  /**
   * Every submission starts from a blank notice, so the notice shown after it
   * depends on this submission alone, never on the one before.
   */
  lemma NoticeForgetsPrevious(s: State, n: Notice, subscribe: string -> Call)
    ensures Submit(s.(notice := n), subscribe).notice == Submit(s, subscribe).notice
  {
    var t := s.(notice := n);
    assert t.email == s.email;
    if Accepts(s.email) {
      var c := subscribe(JsText.Trim(s.email));
      assert Submit(t, subscribe) == Settle(t, c) && Submit(s, subscribe) == Settle(s, c);
    }
  }

  /** A refused address never reaches the request: the outcome is the same whatever the request would do. */
  lemma RefusedMakesNoCall(s: State, f: string -> Call, g: string -> Call)
    requires !Accepts(s.email)
    ensures Submit(s, f) == Submit(s, g)
  {
  }

  // ---------------------------------------------------------------------------
  // The request as the component is written

  /**
   * The component imports `subscribeNewsletter` from the API helpers, which
   * export no such function. Where the bundler lets that through, the binding
   * is `undefined` and calling it throws a TypeError whose message is
   * `typeErrorMessage` (the engine's text, never empty).
   */
  function SubmitAsWritten(s: State, typeErrorMessage: string): (r: State)
    requires typeErrorMessage != ""
  {
    Submit(s, _ => Throws(typeErrorMessage))
  }

  /** As written, no submission ever subscribes: a valid address ends in an error notice carrying the TypeError's text. */
  lemma AsWrittenNeverSubscribes(s: State, typeErrorMessage: string)
    requires typeErrorMessage != ""
    ensures SubmitAsWritten(s, typeErrorMessage).notice.kind == Error
    ensures Accepts(s.email) ==> SubmitAsWritten(s, typeErrorMessage).notice == Notice(Error, typeErrorMessage)
  {
  }

  /** With a request that resolves, the same valid address is subscribed and the field cleared. */
  lemma WorkingRequestSubscribes(s: State, subscribe: string -> Call)
    requires Accepts(s.email) && subscribe(JsText.Trim(s.email)).Resolves?
    ensures Submit(s, subscribe) == State("", false, Notice(Good, Subscribed))
  {
  }
}
