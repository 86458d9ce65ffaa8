/**
 * The serverless testimonial endpoint (api/testimonials.js): method dispatch,
 * defaults, trimming and the clamped rating, the two checks, the plain-text and
 * HTML notification with its optional Role and Avatar lines, and the fixed 500
 * reply for a failed send.
 */
module TestimonialHandler {
  import opened Wrappers
  import JsText
  import opened JsNumber
  import opened JsValue
  import opened Http
  import opened ServerUtils
  import opened Mailer
  import opened Validation

  /** The body after defaults, trimming and clamping (`clean` in the handler). */
  datatype Entry = Entry(name: string, role: string, quote: string, rating: Number, avatar: string)

  const DefaultRating := 5
  const MethodNotAllowed := "Method not allowed"
  const NameMissing := "Please enter your name."
  const QuoteMissing := "Please add a short quote."
  const Subject := "Testimonial • New submission"
  const SubmitFailed := "Could not submit. Please try again later."

  /** The rating: destructured with the default 5, then clamped to 1..5. */
  function Rating(body: Value): Number
    requires !Nullish(body)
  {
    Clamp(GetOr(body, "rating", Num(FromInt(DefaultRating))), 1, 5)
  }

  /** Destructuring with "" defaults (5 for the rating), then `trim` and `clamp`. */
  function Clean(body: Value): Entry
    requires !Nullish(body)
  {
    Entry(Field(body, "name"), Field(body, "role"), Field(body, "quote"), Rating(body), Field(body, "avatar"))
  }

  /**
   * The stored rating is always a finite number from 1 to 5; a rating in range
   * is kept as given, a missing one reads as 5, one that is not a number reads
   * as 1, and one above 5 as 5.
   */
  lemma RatingBounds(body: Value)
    requires !Nullish(body)
    ensures var r := Clean(body).rating; r.Finite? && 1.0 <= Magnitude(r) <= 5.0
    ensures var x := ToNumber(Get(body, "rating"));
      x.Finite? && 1.0 <= Magnitude(x) <= 5.0 ==> StrictEquals(Clean(body).rating, x)
    ensures Get(body, "rating").Undefined? ==> StrictEquals(Clean(body).rating, FromInt(5))
    ensures ToNumber(Get(body, "rating")).NaN? && !Get(body, "rating").Undefined? ==> Clean(body).rating == FromInt(1)
    ensures Less(FromInt(5), ToNumber(Get(body, "rating"))) ==> Clean(body).rating == FromInt(5)
  {
    if Get(body, "rating").Undefined? {
      MagnitudeOfInt(DefaultRating);
      assert StrictEquals(ToNumber(Num(FromInt(DefaultRating))), FromInt(5));
    }
  }

  /** The checks, in the handler's order: name, then quote. */
  function Validate(e: Entry): Option<string>
  {
    if e.name == "" then Some(NameMissing)
    else if e.quote == "" then Some(QuoteMissing)
    else None
  }

  /** The handler's checks are the rule list name, quote, and the first failing rule decides. */
  lemma ValidateIsFirstFailure(e: Entry)
    ensures Validate(e) == FirstFailure([Rule(e.name != "", NameMissing), Rule(e.quote != "", QuoteMissing)])
  {
    FirstFailureOfTwo(Rule(e.name != "", NameMissing), Rule(e.quote != "", QuoteMissing));
  }

  /** An entry is accepted exactly when both the name and the quote are non-empty after trimming. */
  lemma AcceptedIff(e: Entry)
    ensures Validate(e) == None <==> e.name != "" && e.quote != ""
  {
  }

  /** `value || "-"` for a trimmed string. */
  function OrDash(s: string): (r: string)
    ensures r != ""
  {
    if s == "" then "-" else s
  }

  /** The plain-text notification. */
  function TextBody(e: Entry): string
  {
    "New testimonial:\nName: " + e.name + "\nRole: " + OrDash(e.role) + TextAfterRole(e)
  }

  /** The text after the Role line's value: rating, avatar and the quoted quote. */
  function TextAfterRole(e: Entry): string
  {
    "\nRating: " + NumberToString(e.rating) + "\nAvatar: " + OrDash(e.avatar) + "\n\n\"" + e.quote + "\""
  }

  /**
   * In the text a missing role reads exactly like the literal "-", and only
   * then: any other role changes the text. A missing avatar reads like "-" too.
   */
  lemma MissingReadsAsDash(e: Entry)
    ensures TextBody(e.(role := "")) == TextBody(e) <==> e.role == "" || e.role == "-"
    ensures TextBody(e.(avatar := "")) == TextBody(e.(avatar := "-"))
  {
    var a := "New testimonial:\nName: " + e.name + "\nRole: ";
    var b := TextAfterRole(e);
    assert TextAfterRole(e.(role := "")) == b;
    if TextBody(e.(role := "")) == TextBody(e) {
      JsText.FrameInjective(a, OrDash(""), OrDash(e.role), b);
    }
    assert e.(avatar := "").(avatar := "-") == e.(avatar := "-");
    assert OrDash("") == OrDash("-");
  }

  /** The optional paragraphs of the HTML notification. */
  function LabelledParagraph(caption: string, value: string): string
  {
    "<p><strong>" + caption + ":</strong> " + EscapeHtml(value) + "</p>"
  }

  // The fixed markup between the fields of the HTML notification.
  const HtmlHead := "<div style=\"font-family:system-ui,Segoe UI,Roboto,Arial,sans-serif\">\n  <p><strong>Name:</strong> "
  const HtmlAfterName := "</p>\n  "
  const HtmlBeforeRating := "\n  <p><strong>Rating:</strong> "
  const HtmlAfterRating := "</p>\n  "
  const HtmlBeforeQuote := "\n  <hr>\n  <blockquote style=\"margin:0;padding:0.5rem 0\">"
  const HtmlTail := "</blockquote>\n</div>"

  /**
   * Piece `i` of the HTML notification: fixed markup at even places; the
   * escaped name, the Role paragraph, the rating as printed, the Avatar
   * paragraph and the escaped quote at odd ones.
   */
  function Piece(e: Entry, i: int): string
  {
    match i
    case 0 => HtmlHead
    case 1 => EscapeHtml(e.name)
    case 2 => HtmlAfterName
    case 3 => if e.role != "" then LabelledParagraph("Role", e.role) else ""
    case 4 => HtmlBeforeRating
    case 5 => NumberToString(e.rating)
    case 6 => HtmlAfterRating
    case 7 => if e.avatar != "" then LabelledParagraph("Avatar", e.avatar) else ""
    case 8 => HtmlBeforeQuote
    case 9 => EscapeHtml(e.quote)
    case _ => HtmlTail
  }

  /** The eleven pieces of the HTML notification, in order. */
  function HtmlPieces(e: Entry): (p: seq<string>)
    ensures |p| == 11 && forall i :: 0 <= i < 11 ==> p[i] == Piece(e, i)
  {
    seq(11, i => Piece(e, i))
  }

  function HtmlBody(e: Entry): string
  {
    JsText.Concat(HtmlPieces(e))
  }

  /**
   * User input adds no markup: two notifications whose Role and Avatar
   * paragraphs are present alike hold as many '<' and '>', whatever the text
   * and the rating. The rating is placed unescaped, and needs no escaping.
   */
  lemma HtmlMarkupFixed(e: Entry, f: Entry)
    requires (e.role == "") == (f.role == "") && (e.avatar == "") == (f.avatar == "")
    ensures JsText.Count(HtmlBody(e), '<') == JsText.Count(HtmlBody(f), '<')
    ensures JsText.Count(HtmlBody(e), '>') == JsText.Count(HtmlBody(f), '>')
    ensures EscapeHtml(NumberToString(e.rating)) == NumberToString(e.rating)
  {
    BracketsFixed(e, f, '<');
    BracketsFixed(e, f, '>');
    PrintedNumberNeedsNoEscape(e.rating);
  }

  lemma BracketsFixed(e: Entry, f: Entry, ch: char)
    requires (e.role == "") == (f.role == "") && (e.avatar == "") == (f.avatar == "")
    requires ch == '<' || ch == '>'
    ensures JsText.Count(HtmlBody(e), ch) == JsText.Count(HtmlBody(f), ch)
  {
    var p := HtmlPieces(e);
    var q := HtmlPieces(f);
    forall i | 0 <= i < |p|
      ensures JsText.Count(p[i], ch) == JsText.Count(q[i], ch)
    {
      PieceMarkup(e, f, i, ch);
    }
    JsText.ConcatCountAgree(p, q, ch);
  }

  /** Piece `i` of two such notifications holds the same brackets. */
  lemma PieceMarkup(e: Entry, f: Entry, i: int, ch: char)
    requires (e.role == "") == (f.role == "") && (e.avatar == "") == (f.avatar == "")
    requires 0 <= i < 11 && (ch == '<' || ch == '>')
    ensures JsText.Count(HtmlPieces(e)[i], ch) == JsText.Count(HtmlPieces(f)[i], ch)
  {
    VariablePieces(e);
    VariablePieces(f);
    if i == 1 { EscapedBracketCount(e.name, ch); EscapedBracketCount(f.name, ch); }
    else if i == 3 { OptionalMarkup("Role", e.role, f.role, ch); }
    else if i == 5 { RatingMarkup(e.rating, f.rating, ch); }
    else if i == 7 { OptionalMarkup("Avatar", e.avatar, f.avatar, ch); }
    else if i == 9 { EscapedBracketCount(e.quote, ch); EscapedBracketCount(f.quote, ch); }
    else { FixedPiece(e, f, i); }
  }

  /** The odd pieces of the template. */
  lemma VariablePieces(e: Entry)
    ensures var p := HtmlPieces(e);
      && p[1] == EscapeHtml(e.name)
      && p[3] == (if e.role != "" then LabelledParagraph("Role", e.role) else "")
      && p[5] == NumberToString(e.rating)
      && p[7] == (if e.avatar != "" then LabelledParagraph("Avatar", e.avatar) else "")
      && p[9] == EscapeHtml(e.quote)
  {
  }

  /** Two printed ratings hold the same brackets: none. */
  lemma RatingMarkup(x: Number, y: Number, ch: char)
    requires ch == '<' || ch == '>'
    ensures JsText.Count(NumberToString(x), ch) == JsText.Count(NumberToString(y), ch) == 0
  {
    PrintedNumberNeedsNoEscape(x);
    PrintedNumberNeedsNoEscape(y);
  }

  /** Two optional paragraphs, present in both or in neither, hold the same brackets. */
  lemma OptionalMarkup(caption: string, a: string, b: string, ch: char)
    requires (a == "") == (b == "") && (ch == '<' || ch == '>')
    ensures JsText.Count(if a != "" then LabelledParagraph(caption, a) else "", ch)
         == JsText.Count(if b != "" then LabelledParagraph(caption, b) else "", ch)
  {
    if a != "" { ParagraphBrackets(caption, a, b, ch); }
  }

  /** Two paragraphs with the same caption hold the same brackets, whatever the values. */
  lemma ParagraphBrackets(caption: string, a: string, b: string, ch: char)
    requires ch == '<' || ch == '>'
    ensures JsText.Count(LabelledParagraph(caption, a), ch) == JsText.Count(LabelledParagraph(caption, b), ch)
  {
    var head := "<p><strong>" + caption + ":</strong> ";
    EscapedHasNoBrackets(a);
    EscapedHasNoBrackets(b);
    JsText.CountConcat(head + EscapeHtml(a), "</p>", ch);
    JsText.CountConcat(head, EscapeHtml(a), ch);
    JsText.CountConcat(head + EscapeHtml(b), "</p>", ch);
    JsText.CountConcat(head, EscapeHtml(b), ch);
  }

  /** The even pieces of the template are fixed markup. */
  lemma FixedPiece(e: Entry, f: Entry, i: int)
    requires i == 0 || i == 2 || i == 4 || i == 6 || i == 8 || i == 10
    ensures HtmlPieces(e)[i] == HtmlPieces(f)[i]
  {
  }

  /** Giving a role inserts exactly the Role paragraph into the HTML, and nothing else changes. */
  lemma RoleParagraphInHtml(e: Entry)
    requires e.role != ""
    ensures var h0 := HtmlBody(e.(role := ""));
      exists k :: 0 <= k <= |h0| && HtmlBody(e) == h0[..k] + LabelledParagraph("Role", e.role) + h0[k..]
  {
    var q := HtmlPieces(e.(role := ""));
    PiecesWithoutRole(e);
    JsText.ConcatInsert(HtmlPieces(e), q, 3);
    var k := |JsText.Concat(q[..3])|;
    assert k <= |HtmlBody(e.(role := ""))|;
  }

  /** Dropping the role empties piece 3 of the HTML template and leaves every other piece alone. */
  lemma PiecesWithoutRole(e: Entry)
    requires e.role != ""
    ensures var p, q := HtmlPieces(e), HtmlPieces(e.(role := ""));
      && |p| == |q| == 11 && q[3] == "" && p[3] == LabelledParagraph("Role", e.role)
      && forall i :: 0 <= i < |p| && i != 3 ==> p[i] == q[i]
  {
  }

  /** Giving an avatar inserts exactly the Avatar paragraph into the HTML, and nothing else changes. */
  lemma AvatarParagraphInHtml(e: Entry)
    requires e.avatar != ""
    ensures var h0 := HtmlBody(e.(avatar := ""));
      exists k :: 0 <= k <= |h0| && HtmlBody(e) == h0[..k] + LabelledParagraph("Avatar", e.avatar) + h0[k..]
  {
    var q := HtmlPieces(e.(avatar := ""));
    PiecesWithoutAvatar(e);
    JsText.ConcatInsert(HtmlPieces(e), q, 7);
    var k := |JsText.Concat(q[..7])|;
    assert k <= |HtmlBody(e.(avatar := ""))|;
  }

  /** Dropping the avatar empties piece 7 of the HTML template and leaves every other piece alone. */
  lemma PiecesWithoutAvatar(e: Entry)
    requires e.avatar != ""
    ensures var p, q := HtmlPieces(e), HtmlPieces(e.(avatar := ""));
      && |p| == |q| == 11 && q[7] == "" && p[7] == LabelledParagraph("Avatar", e.avatar)
      && forall i :: 0 <= i < |p| && i != 7 ==> p[i] == q[i]
  {
  }

  /** The message handed to `sendMail`: no reply-to address. */
  function Notification(e: Entry): Message
  {
    Message(Subject, TextBody(e), Some(HtmlBody(e)), None)
  }

  /** `handler(req, res)` */
  function Handle(req: Request, json: JsonParser, env: Env, provider: Provider): (x: Exchange)
    ensures req.verb == "OPTIONS" ==> x == Exchange(Responded(Response(200, map[], NoBody)), [])
    ensures req.verb != "OPTIONS" && req.verb != "POST" ==>
              x == Exchange(Responded(Bad(MethodNotAllowed, 405)), [])
    ensures req.verb == "POST" && Nullish(ParseJson(req.body, json)) ==> x == Exchange(Crashed, [])
    ensures req.verb == "POST" && !Nullish(ParseJson(req.body, json)) ==>
              x == Submit(Clean(ParseJson(req.body, json)), env, provider)
    ensures |x.handedOver| <= 1
    ensures x.handedOver != [] ==>
      var body := ParseJson(req.body, json);
      && req.verb == "POST" && !Nullish(body) && Validate(Clean(body)) == None
      && x.handedOver[0].subject == Subject && x.handedOver[0].replyTo == None
  {
    if req.verb == "OPTIONS" then Exchange(Responded(Response(200, map[], NoBody)), [])
    else if req.verb != "POST" then Exchange(Responded(Bad(MethodNotAllowed, 405)), [])
    else
      var body := ParseJson(req.body, json);
      // destructuring `null` throws a TypeError outside the try block
      if Nullish(body) then Exchange(Crashed, [])
      else Submit(Clean(body), env, provider)
  }

  /**
   * The POST branch once the body is cleaned: the checks, then one call of
   * `sendMail`, whose failure of any kind becomes the same 500.
   */
  function Submit(e: Entry, env: Env, provider: Provider): (x: Exchange)
    ensures x.reply.Responded?
    ensures |x.handedOver| <= 1
    ensures x.handedOver != [] ==>
      Validate(e) == None && x.handedOver[0].subject == Subject && x.handedOver[0].replyTo == None
    ensures x.reply.response.status == 200 ==> |x.handedOver| == 1
  {
    match Validate(e)
    case Some(msg) => Exchange(Responded(BadRequest(msg)), [])
    case None =>
      var sent := SendMail(env, Notification(e), provider);
      var reply := if sent.outcome.Success? then Ok(map[]) else Bad(SubmitFailed, 500);
      Exchange(Responded(reply), sent.handedOver)
  }

  /** A failed check answers 400 with its message and sends nothing. */
  lemma RejectedSendsNothing(e: Entry, env: Env, provider: Provider)
    requires Validate(e).Some?
    ensures Submit(e, env, provider) == Exchange(Responded(BadRequest(Validate(e).value)), [])
  {
  }

  /** A valid entry hands over exactly the notification, and answers `{ ok: true }` once the provider accepts it. */
  lemma AcceptedSendsOnce(e: Entry, env: Env, provider: Provider)
    requires Validate(e).None? && HasSmtpConfig(env)
    ensures var x := Submit(e, env, provider);
      && |x.handedOver| == 1
      && x.handedOver[0].text == TextBody(e) && x.handedOver[0].html == Some(HtmlBody(e))
      && (x.reply == Responded(Ok(map[])) <==> provider(GetTransport(env).value, x.handedOver[0]).Accepted?)
  {
    assert Ok(map[]) != Bad(SubmitFailed, 500);
  }

  /** A failed send, or a missing configuration, answers the same fixed 500. */
  lemma SendFailureAnswers500(e: Entry, env: Env, provider: Provider)
    requires Validate(e).None?
    requires !HasSmtpConfig(env) ||
      provider(GetTransport(env).value, SendMail(env, Notification(e), provider).handedOver[0]).Rejected?
    ensures Submit(e, env, provider).reply == Responded(Bad(SubmitFailed, 500))
  {
  }
}
