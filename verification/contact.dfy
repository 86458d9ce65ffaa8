/**
 * The serverless contact endpoint (api/contact.js): method dispatch, defaults
 * and trimming, the ordered checks, the plain-text and HTML notification and
 * the mapping of a failed send to a fixed 500 reply.
 */
module ContactHandler {
  import opened Wrappers
  import JsText
  import opened JsValue
  import opened Http
  import opened ServerUtils
  import opened Mailer
  import opened Validation

  /** The body after defaults and trimming (`clean` in the handler). */
  datatype Fields = Fields(name: string, email: string, phone: string, subject: string, message: string)

  const DefaultSubject := "New contact message"
  const MethodNotAllowed := "Method not allowed"
  const NameMissing := "Please enter your name."
  const EmailInvalid := "Please enter a valid email."
  const MessageMissing := "Please add a message."
  const SendFailed := "Could not send message. Please try again later."

  /** Destructuring with "" defaults, then `trim`, and the default subject for an empty one. */
  function Clean(body: Value): Fields
    requires !Nullish(body)
  {
    var subject := Field(body, "subject");
    Fields(Field(body, "name"), Field(body, "email"), Field(body, "phone"),
           if subject == "" then DefaultSubject else subject, Field(body, "message"))
  }

  /** The cleaned fields as a JSON object, the shape the client posts. */
  function AsBody(c: Fields): (r: Value)
    ensures r.Obj? && r.props.Keys == {"name", "email", "phone", "subject", "message"}
  {
    Obj(map["name" := Str(c.name), "email" := Str(c.email), "phone" := Str(c.phone),
            "subject" := Str(c.subject), "message" := Str(c.message)])
  }

  /** What cleaning guarantees: every field trimmed and a subject present. */
  predicate IsClean(c: Fields) {
    && JsText.IsTrimmed(c.name) && JsText.IsTrimmed(c.email) && JsText.IsTrimmed(c.phone)
    && JsText.IsTrimmed(c.subject) && JsText.IsTrimmed(c.message) && c.subject != ""
  }

  /** Every cleaned field is trimmed and the subject is never empty. */
  lemma CleanShape(body: Value)
    requires !Nullish(body)
    ensures IsClean(Clean(body))
  {
    assert JsText.IsTrimmed(DefaultSubject) && DefaultSubject != "";
  }

  /** Missing fields take their defaults: an empty body cleans to empty fields and the default subject. */
  lemma CleanEmptyBody()
    ensures Clean(EmptyObject()) == Fields("", "", "", DefaultSubject, "")
  {
    var b := EmptyObject();
    MissingFieldIsEmpty(b, "name");
    MissingFieldIsEmpty(b, "email");
    MissingFieldIsEmpty(b, "phone");
    MissingFieldIsEmpty(b, "subject");
    MissingFieldIsEmpty(b, "message");
  }

  /** A key the body does not have reads as its default "". */
  lemma MissingFieldIsEmpty(body: Value, k: string)
    requires body.Obj? && k !in body.props
    ensures Field(body, k) == ""
  {
    var e := GetOr(body, k, Str(""));
    assert e == Str("");
    assert |e.s| == 0;
  }

  /** A record that is already clean comes back unchanged when sent again. */
  lemma CleanOfClean(c: Fields)
    requires IsClean(c)
    ensures Clean(AsBody(c)) == c
  {
    FieldsOfClean(c);
  }

  /** The JSON form holds each field under its own key. */
  lemma BodyLookups(c: Fields)
    ensures var p := AsBody(c).props;
      && p["name"] == Str(c.name) && p["email"] == Str(c.email) && p["phone"] == Str(c.phone)
      && p["subject"] == Str(c.subject) && p["message"] == Str(c.message)
  {
  }

  /** Each field of a clean record reads back unchanged from its JSON form. */
  lemma FieldsOfClean(c: Fields)
    requires IsClean(c)
    ensures var b := AsBody(c);
      && Field(b, "name") == c.name && Field(b, "email") == c.email && Field(b, "phone") == c.phone
      && Field(b, "subject") == c.subject && Field(b, "message") == c.message
  {
    var props := AsBody(c).props;
    BodyLookups(c);
    FieldOfTrimmed(props, "name");
    FieldOfTrimmed(props, "email");
    FieldOfTrimmed(props, "phone");
    FieldOfTrimmed(props, "subject");
    FieldOfTrimmed(props, "message");
  }

  /**
   * Cleaning is idempotent: the records it produces are exactly the records that
   * clean to themselves when sent again.
   */
  lemma CleanFixedPoints(c: Fields)
    ensures Clean(AsBody(c)) == c <==> IsClean(c)
  {
    CleanShape(AsBody(c));
    if IsClean(c) { CleanOfClean(c); }
  }

  /** The checks, in the handler's order: name, then e-mail, then message length. */
  function Validate(c: Fields): Option<string>
  {
    if c.name == "" then Some(NameMissing)
    else if !IsEmail(Str(c.email)) then Some(EmailInvalid)
    else if JsText.Length(c.message) < 3 then Some(MessageMissing)
    else None
  }

  /** The handler's checks are the rule list name, e-mail, message, and the first failing rule decides. */
  lemma ValidateIsFirstFailure(c: Fields)
    ensures Validate(c) == FirstFailure([
      Rule(c.name != "", NameMissing),
      Rule(IsEmail(Str(c.email)), EmailInvalid),
      Rule(JsText.Length(c.message) >= 3, MessageMissing)])
  {
    FirstFailureOfThree(Rule(c.name != "", NameMissing), Rule(IsEmail(Str(c.email)), EmailInvalid),
                        Rule(JsText.Length(c.message) >= 3, MessageMissing));
  }

  /** With a name and a valid address, the message is accepted exactly when its trimmed length is at least 3. */
  lemma MessageAcceptedIff(c: Fields)
    requires c.name != "" && IsEmail(Str(c.email))
    ensures Validate(c) == None <==> JsText.Length(c.message) >= 3
  {
  }

  /** The plain-text notification; the Phone line only when a phone was given. */
  function TextBody(c: Fields): string
  {
    "Name: " + c.name + "\nEmail: " + c.email
    + (if c.phone != "" then "\nPhone: " + c.phone else "")
    + "\nSubject: " + c.subject + "\n\n" + c.message
  }

  /** The Phone paragraph of the HTML notification. */
  function PhoneParagraph(phone: string): string
  {
    PhoneOpen + EscapeHtml(phone) + ParagraphClose
  }

  const PhoneOpen := "<p><strong>Phone:</strong> "
  const ParagraphClose := "</p>"

  // The fixed markup between the fields of the HTML notification.
  const HtmlHead := "<div style=\"font-family:system-ui,Segoe UI,Roboto,Arial,sans-serif\">\n  <p><strong>Name:</strong> "
  const HtmlAfterName := "</p>\n  <p><strong>Email:</strong> "
  const HtmlAfterEmail := "</p>\n  "
  const HtmlBeforeSubject := "\n  <p><strong>Subject:</strong> "
  const HtmlAfterSubject := "</p>\n  <hr>\n  <pre style=\"white-space:pre-wrap\">"
  const HtmlTail := "</pre>\n</div>"

  /** Piece `i` of the HTML notification: fixed markup at even places, the escaped fields and the Phone paragraph at odd ones. */
  function Piece(c: Fields, i: int): string
  {
    match i
    case 0 => HtmlHead
    case 1 => EscapeHtml(c.name)
    case 2 => HtmlAfterName
    case 3 => EscapeHtml(c.email)
    case 4 => HtmlAfterEmail
    case 5 => if c.phone != "" then PhoneParagraph(c.phone) else ""
    case 6 => HtmlBeforeSubject
    case 7 => EscapeHtml(c.subject)
    case 8 => HtmlAfterSubject
    case 9 => EscapeHtml(c.message)
    case _ => HtmlTail
  }

  /** The eleven pieces of the HTML notification, in order. */
  function HtmlPieces(c: Fields): (p: seq<string>)
    ensures |p| == 11 && forall i :: 0 <= i < 11 ==> p[i] == Piece(c, i)
  {
    seq(11, i => Piece(c, i))
  }

  function HtmlBody(c: Fields): string
  {
    JsText.Concat(HtmlPieces(c))
  }

  /**
   * User input adds no markup: every HTML notification with a phone has as many
   * '<' and '>' as every other one, and likewise without a phone.
   */
  lemma HtmlMarkupFixed(c: Fields, d: Fields)
    requires (c.phone == "") == (d.phone == "")
    ensures JsText.Count(HtmlBody(c), '<') == JsText.Count(HtmlBody(d), '<')
    ensures JsText.Count(HtmlBody(c), '>') == JsText.Count(HtmlBody(d), '>')
  {
    BracketsFixed(c, d, '<');
    BracketsFixed(c, d, '>');
  }

  lemma BracketsFixed(c: Fields, d: Fields, ch: char)
    requires (c.phone == "") == (d.phone == "") && (ch == '<' || ch == '>')
    ensures JsText.Count(HtmlBody(c), ch) == JsText.Count(HtmlBody(d), ch)
  {
    var p := HtmlPieces(c);
    var q := HtmlPieces(d);
    forall i | 0 <= i < |p|
      ensures JsText.Count(p[i], ch) == JsText.Count(q[i], ch)
    {
      PieceMarkup(c, d, i, ch);
    }
    JsText.ConcatCountAgree(p, q, ch);
  }

  /** Piece `i` of two HTML notifications, with a phone in both or in neither, holds the same brackets. */
  lemma PieceMarkup(c: Fields, d: Fields, i: int, ch: char)
    requires (c.phone == "") == (d.phone == "") && 0 <= i < 11 && (ch == '<' || ch == '>')
    ensures JsText.Count(HtmlPieces(c)[i], ch) == JsText.Count(HtmlPieces(d)[i], ch)
  {
    FieldPieces(c);
    FieldPieces(d);
    if i == 1 { EscapedBracketCount(c.name, ch); EscapedBracketCount(d.name, ch); }
    else if i == 3 { EscapedBracketCount(c.email, ch); EscapedBracketCount(d.email, ch); }
    else if i == 5 { PhoneParagraphMarkup(c, d, ch); }
    else if i == 7 { EscapedBracketCount(c.subject, ch); EscapedBracketCount(d.subject, ch); }
    else if i == 9 { EscapedBracketCount(c.message, ch); EscapedBracketCount(d.message, ch); }
    else { FixedPiece(c, d, i); }
  }

  /** The odd pieces of the template are the escaped fields and the Phone paragraph. */
  lemma FieldPieces(c: Fields)
    ensures var p := HtmlPieces(c);
      && p[1] == EscapeHtml(c.name) && p[3] == EscapeHtml(c.email)
      && p[5] == (if c.phone != "" then PhoneParagraph(c.phone) else "")
      && p[7] == EscapeHtml(c.subject) && p[9] == EscapeHtml(c.message)
  {
  }

  /** The even pieces of the template are fixed markup. */
  lemma FixedPiece(c: Fields, d: Fields, i: int)
    requires i == 0 || i == 2 || i == 4 || i == 6 || i == 8 || i == 10
    ensures HtmlPieces(c)[i] == HtmlPieces(d)[i]
  {
  }

  /** The Phone paragraphs of two submissions, present in both or in neither, hold the same brackets. */
  lemma PhoneParagraphMarkup(c: Fields, d: Fields, ch: char)
    requires (c.phone == "") == (d.phone == "") && (ch == '<' || ch == '>')
    ensures JsText.Count(Piece(c, 5), ch) == JsText.Count(Piece(d, 5), ch)
  {
    if c.phone != "" {
      PhoneParagraphBrackets(c.phone, d.phone, ch);
    }
  }

  /** Two Phone paragraphs hold the same brackets, whatever the numbers. */
  lemma PhoneParagraphBrackets(p1: string, p2: string, ch: char)
    requires ch == '<' || ch == '>'
    ensures JsText.Count(PhoneParagraph(p1), ch) == JsText.Count(PhoneParagraph(p2), ch)
  {
    EscapedHasNoBrackets(p1);
    EscapedHasNoBrackets(p2);
    JsText.CountConcat(PhoneOpen + EscapeHtml(p1), ParagraphClose, ch);
    JsText.CountConcat(PhoneOpen, EscapeHtml(p1), ch);
    JsText.CountConcat(PhoneOpen + EscapeHtml(p2), ParagraphClose, ch);
    JsText.CountConcat(PhoneOpen, EscapeHtml(p2), ch);
  }

  /** Giving a phone inserts exactly the Phone line into the text, and nothing else changes. */
  lemma PhoneLineInText(c: Fields)
    requires c.phone != ""
    ensures var t0 := TextBody(c.(phone := ""));
      var k := |"Name: " + c.name + "\nEmail: " + c.email|;
      k <= |t0| && TextBody(c) == t0[..k] + "\nPhone: " + c.phone + t0[k..]
  {
    var a := "Name: " + c.name + "\nEmail: " + c.email;
    var b := "\nSubject: " + c.subject + "\n\n" + c.message;
    assert TextBody(c.(phone := "")) == a + b;
    assert TextBody(c) == a + ("\nPhone: " + c.phone) + b;
    assert (a + b)[..|a|] == a && (a + b)[|a|..] == b;
  }

  /** Giving a phone inserts exactly the Phone paragraph into the HTML, and nothing else changes. */
  lemma PhoneParagraphInHtml(c: Fields)
    requires c.phone != ""
    ensures var h0 := HtmlBody(c.(phone := ""));
      exists k :: 0 <= k <= |h0| && HtmlBody(c) == h0[..k] + PhoneParagraph(c.phone) + h0[k..]
  {
    var q := HtmlPieces(c.(phone := ""));
    PiecesWithoutPhone(c);
    JsText.ConcatInsert(HtmlPieces(c), q, 5);
    var k := |JsText.Concat(q[..5])|;
    assert k <= |HtmlBody(c.(phone := ""))|;
  }

  /** Dropping the phone empties piece 5 of the HTML template and leaves every other piece alone. */
  lemma PiecesWithoutPhone(c: Fields)
    requires c.phone != ""
    ensures var p, q := HtmlPieces(c), HtmlPieces(c.(phone := ""));
      && |p| == |q| == 11 && q[5] == "" && p[5] == PhoneParagraph(c.phone)
      && forall i :: 0 <= i < |p| && i != 5 ==> p[i] == q[i]
  {
  }

  /** The message handed to `sendMail` for a valid submission. */
  function Notification(c: Fields): Message
  {
    Message("Contact • " + c.subject, TextBody(c), Some(HtmlBody(c)), Some(c.email))
  }

  /** `handler(req, res)` */
  function Handle(req: Request, json: JsonParser, env: Env, provider: Provider): (x: Exchange)
    ensures req.verb == "OPTIONS" ==> x == Exchange(Responded(Response(200, map[], NoBody)), [])
    ensures req.verb != "OPTIONS" && req.verb != "POST" ==>
              x == Exchange(Responded(Bad(MethodNotAllowed, 405)), [])
    ensures req.verb == "POST" && Nullish(ParseJson(req.body, json)) ==> x == Exchange(Crashed, [])
    ensures req.verb == "POST" && !Nullish(ParseJson(req.body, json)) ==>
              x == Submit(Clean(ParseJson(req.body, json)), env, provider)
    ensures |x.handedOver| <= 1
    ensures x.handedOver != [] ==>
      var body := ParseJson(req.body, json);
      && req.verb == "POST" && !Nullish(body) && Validate(Clean(body)) == None
      && x.handedOver[0].replyTo == Some(Clean(body).email)
      && x.handedOver[0].subject == "Contact • " + Clean(body).subject
  {
    if req.verb == "OPTIONS" then Exchange(Responded(Response(200, map[], NoBody)), [])
    else if req.verb != "POST" then Exchange(Responded(Bad(MethodNotAllowed, 405)), [])
    else
      var body := ParseJson(req.body, json);
      // destructuring `null` throws a TypeError outside the try block
      if Nullish(body) then Exchange(Crashed, [])
      else Submit(Clean(body), env, provider)
  }

  /**
   * The POST branch once the body is cleaned: the checks, then one call of
   * `sendMail`, whose failure of any kind becomes the same 500.
   */
  function Submit(c: Fields, env: Env, provider: Provider): (x: Exchange)
    ensures x.reply.Responded?
    ensures |x.handedOver| <= 1
    ensures x.handedOver != [] ==>
      && Validate(c) == None
      && x.handedOver[0].replyTo == Some(c.email)
      && x.handedOver[0].subject == "Contact • " + c.subject
    ensures x.reply.response.status == 200 ==> |x.handedOver| == 1
  {
    match Validate(c)
    case Some(msg) => Exchange(Responded(BadRequest(msg)), [])
    case None =>
      var sent := SendMail(env, Notification(c), provider);
      var reply := if sent.outcome.Success? then Ok(map[]) else Bad(SendFailed, 500);
      Exchange(Responded(reply), sent.handedOver)
  }

  /** A failed check answers 400 with its message and sends nothing. */
  lemma RejectedSendsNothing(c: Fields, env: Env, provider: Provider)
    requires Validate(c).Some?
    ensures Submit(c, env, provider) == Exchange(Responded(BadRequest(Validate(c).value)), [])
  {
  }

  /** A valid submission hands over exactly the notification, and answers `{ ok: true }` once the provider accepts it. */
  lemma AcceptedSendsOnce(c: Fields, env: Env, provider: Provider)
    requires Validate(c).None? && HasSmtpConfig(env)
    ensures var x := Submit(c, env, provider);
      && |x.handedOver| == 1
      && x.handedOver[0].text == TextBody(c) && x.handedOver[0].html == Some(HtmlBody(c))
      && x.handedOver[0].replyTo == Some(c.email)
      && (x.reply == Responded(Ok(map[])) <==> provider(GetTransport(env).value, x.handedOver[0]).Accepted?)
  {
    assert Ok(map[]) != Bad(SendFailed, 500);
  }

  /** A failed send answers the same fixed 500 whatever the provider said: the error detail is not echoed. */
  lemma SendFailureHidesDetail(c: Fields, env: Env, p1: Provider, p2: Provider)
    requires Validate(c).None? && HasSmtpConfig(env)
    requires var m := SendMail(env, Notification(c), p1).handedOver[0];
      var t := GetTransport(env).value;
      p1(t, m).Rejected? && p2(t, m).Rejected?
    ensures Submit(c, env, p1).reply == Submit(c, env, p2).reply == Responded(Bad(SendFailed, 500))
  {
  }

  /** A configuration error is reported like any other send failure, with nothing handed over. */
  lemma MissingConfigAnswers500(c: Fields, env: Env, provider: Provider)
    requires Validate(c).None? && !HasSmtpConfig(env)
    ensures Submit(c, env, provider) == Exchange(Responded(Bad(SendFailed, 500)), [])
  {
  }
}
