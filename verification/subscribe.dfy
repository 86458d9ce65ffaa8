/**
 * The serverless newsletter endpoint (api/subscribe.js): the three accepted
 * methods with their `Allow` headers, reading and trimming the address, the
 * e-mail check, and the notification to the site's operator.
 */
module SubscribeHandler {
  import opened Wrappers
  import JsText
  import opened JsValue
  import opened Http
  import opened ServerUtils
  import opened Mailer

  const AllowedMethods := "GET,POST,OPTIONS"
  const MethodNotAllowed := "Method not allowed"
  const AddressInvalid := "Please enter a valid email."
  const Subject := "Newsletter — New subscriber"
  const SubscribeFailed := "Could not subscribe. Please try again later."

  /** The pre-flight answer: 204, no body, the allowed methods and the allowed request header. */
  function Preflight(): (r: Response)
    ensures r.status == 204 && r.body == NoBody
    ensures r.headers.Keys == {"Allow", "Access-Control-Allow-Methods", "Access-Control-Allow-Headers"}
  {
    Response(204, map["Allow" := AllowedMethods, "Access-Control-Allow-Methods" := AllowedMethods,
                      "Access-Control-Allow-Headers" := "Content-Type"], NoBody)
  }

  /** A response with the `Allow` header set before it was written. */
  function WithAllow(r: Response): (w: Response)
    ensures w.status == r.status && w.body == r.body
    ensures w.headers.Keys == r.headers.Keys + {"Allow"} && w.headers["Allow"] == AllowedMethods
    ensures forall k :: k in r.headers && k != "Allow" ==> w.headers[k] == r.headers[k]
  {
    Response(r.status, r.headers["Allow" := AllowedMethods], r.body)
  }

  /** `trim(body.email || "")` with `body = parseJson(req) || {}`. */
  function Address(req: Request, json: JsonParser): (r: string)
    ensures JsText.IsTrimmed(r)
  {
    AddressIn(ParseJson(req.body, json))
  }

  /** The address read from a parsed body. */
  function AddressIn(parsed: Value): (r: string)
    ensures JsText.IsTrimmed(r)
  {
    var body := Or(parsed, EmptyObject());
    Trim(Or(Get(body, "email"), Str("")))
  }

  /** An object body with a string `email` gives that address trimmed. */
  lemma AddressOfText(props: map<string, Value>)
    requires "email" in props && props["email"].Str?
    ensures AddressIn(Obj(props)) == JsText.Trim(props["email"].s)
  {
    assert Or(Obj(props), EmptyObject()) == Obj(props);
    assert Get(Obj(props), "email") == props["email"];
    TrimOrEmpty(props["email"].s);
  }

  /** `trim(s || "")` on a string is its trimmed text. */
  lemma TrimOrEmpty(s: string)
    ensures Trim(Or(Str(s), Str(""))) == JsText.Trim(s)
  {
    if s == [] { TrimOfEmpty(s); }
  }

  lemma TrimOfEmpty(s: string)
    requires s == []
    ensures Trim(Or(Str(s), Str(""))) == JsText.Trim(s)
  {
    assert Or(Str(s), Str("")) == Str(s);
  }

  /** An object body whose `email` is missing or not a string gives "". */
  lemma AddressOfOther(props: map<string, Value>)
    requires "email" !in props || !props["email"].Str?
    ensures AddressIn(Obj(props)) == ""
  {
    assert Or(Obj(props), EmptyObject()) == Obj(props);
  }

  /** The text notification: a fixed lead line, then the address. */
  function TextBody(address: string): string
  {
    TextLead + address
  }

  const TextLead := "New newsletter subscriber:\n\n"

  /** The address can be read back from the text notification. */
  lemma AddressFromText(address: string)
    ensures |TextLead| <= |TextBody(address)| && TextBody(address)[|TextLead|..] == address
  {
  }

  const HtmlOpen := "<p>New newsletter subscriber:</p><p><strong>"
  const HtmlClose := "</strong></p>"

  /** The HTML notification as the handler writes it: the address is placed without escaping. */
  function HtmlAsWritten(address: string): string
  {
    HtmlOpen + address + HtmlClose
  }

  /** The HTML notification with the address escaped, as the other two handlers do. */
  function HtmlBody(address: string): string
  {
    HtmlOpen + EscapeHtml(address) + HtmlClose
  }

  /**
   * As written, every '<' of the address becomes markup of the operator's
   * mail: the HTML holds as many more '<' than the escaped rendering as the
   * address has.
   */
  lemma AsWrittenMarkup(address: string)
    ensures JsText.Count(HtmlAsWritten(address), '<') == JsText.Count(HtmlBody(address), '<') + JsText.Count(address, '<')
  {
    EscapedHasNoBrackets(address);
    FramedCount(HtmlOpen, address, HtmlClose, '<');
    FramedCount(HtmlOpen, EscapeHtml(address), HtmlClose, '<');
  }

  /** The characters of a framed text are those of the frame and those of the text. */
  lemma FramedCount(head: string, middle: string, tail: string, ch: char)
    ensures JsText.Count(head + middle + tail, ch) == JsText.Count(head, ch) + JsText.Count(middle, ch) + JsText.Count(tail, ch)
  {
    JsText.CountConcat(head + middle, tail, ch);
    JsText.CountConcat(head, middle, ch);
  }

  /**
   * The e-mail check lets angle brackets through: an address that starts with
   * '<' and is otherwise well formed passes it, and the HTML as written holds
   * more markup than the escaped rendering of the same address.
   */
  lemma AcceptedAddressAddsMarkup(local: string, domain: string)
    requires local != [] && local[0] == '<' && AllPlain(local) && AllPlain(domain) && HasInnerDot(domain)
    ensures var address := local + "@" + domain;
      IsEmail(Str(address)) && JsText.Count(HtmlAsWritten(address), '<') > JsText.Count(HtmlBody(address), '<')
  {
    var address := local + "@" + domain;
    WellFormedAccepted(local, domain);
    AsWrittenMarkup(address);
    LeadingBracket(address);
  }

  lemma LeadingBracket(s: string)
    requires s != [] && s[0] == '<'
    ensures JsText.Count(s, '<') > 0
  {
  }

  /** An address built from a plain local part and a dotted plain domain passes `isEmail`. */
  lemma WellFormedAccepted(local: string, domain: string)
    requires local != [] && AllPlain(local) && AllPlain(domain) && HasInnerDot(domain)
    ensures IsEmail(Str(local + "@" + domain))
  {
    var address := local + "@" + domain;
    EmailShapeOfParts(local, domain);
    WellFormedIsTrimmed(local, domain);
    JsText.TrimOfTrimmed(address);
    IsEmailOfString(address);
  }

  /** A well-formed address begins and ends with characters that are not white space. */
  lemma WellFormedIsTrimmed(local: string, domain: string)
    requires local != [] && AllPlain(local) && AllPlain(domain) && HasInnerDot(domain)
    ensures JsText.IsTrimmed(local + "@" + domain)
  {
    var address := local + "@" + domain;
    assert address[0] == local[0];
    assert address[|address| - 1] == domain[|domain| - 1];
  }

  /** One such address: "<b>@x.io". */
  lemma MarkupExample()
    ensures IsEmail(Str("<b>@x.io"))
    ensures JsText.Count(HtmlAsWritten("<b>@x.io"), '<') > JsText.Count(HtmlBody("<b>@x.io"), '<')
  {
    var local, domain := "<b>", "x.io";
    assert domain[1] == '.';
    assert local + "@" + domain == "<b>@x.io";
    AcceptedAddressAddsMarkup(local, domain);
  }

  /** With the address escaped, every notification holds the same brackets, whatever the address. */
  lemma HtmlMarkupFixed(a: string, b: string, ch: char)
    requires ch == '<' || ch == '>'
    ensures JsText.Count(HtmlBody(a), ch) == JsText.Count(HtmlBody(b), ch)
  {
    EscapedBracketCount(a, ch);
    EscapedBracketCount(b, ch);
    FramedCount(HtmlOpen, EscapeHtml(a), HtmlClose, ch);
    FramedCount(HtmlOpen, EscapeHtml(b), HtmlClose, ch);
  }

  /** The escaped address reads back from the HTML. */
  lemma AddressFromHtml(address: string)
    ensures var h := HtmlBody(address);
      |HtmlOpen| + |HtmlClose| <= |h| && UnescapeHtml(h[|HtmlOpen|..|h| - |HtmlClose|]) == address
  {
    var h := HtmlBody(address);
    assert h[|HtmlOpen|..|h| - |HtmlClose|] == EscapeHtml(address);
    EscapeHtmlRoundTrip(address);
  }

  /** The message handed to `sendMail` as the handler writes it: the raw address in the HTML, no reply-to address. */
  function Notification(address: string): Message
  {
    Message(Subject, TextBody(address), Some(HtmlAsWritten(address)), None)
  }

  /** The same message with the address escaped in the HTML. */
  function EscapedNotification(address: string): Message
  {
    Message(Subject, TextBody(address), Some(HtmlBody(address)), None)
  }

  /** `handler(req, res)`: everything after the method checks runs inside one `try`. */
  function Handle(req: Request, json: JsonParser, env: Env, provider: Provider): (x: Exchange)
    ensures x.reply.Responded?
    ensures req.verb == "OPTIONS" ==> x == Exchange(Responded(Preflight()), [])
    ensures req.verb == "GET" ==> x == Exchange(Responded(WithAllow(Ok(map[]))), [])
    ensures req.verb !in {"OPTIONS", "GET", "POST"} ==>
              x == Exchange(Responded(WithAllow(Bad(MethodNotAllowed, 405))), [])
    ensures req.verb == "POST" ==> x == Submit(Address(req, json), env, provider)
  {
    if req.verb == "OPTIONS" then Exchange(Responded(Preflight()), [])
    else if req.verb == "GET" then Exchange(Responded(WithAllow(Ok(map[]))), [])
    else if req.verb != "POST" then Exchange(Responded(WithAllow(Bad(MethodNotAllowed, 405))), [])
    else Submit(Address(req, json), env, provider)
  }

  /** A POST with the address read from its body: the check, then one notification carrying the raw address. */
  function Submit(address: string, env: Env, provider: Provider): (x: Exchange)
    ensures x.reply.Responded?
    ensures |x.handedOver| <= 1
    ensures x.handedOver != [] ==>
      && IsEmail(Str(address))
      && x.handedOver[0].subject == Subject && x.handedOver[0].text == TextBody(address)
      && x.handedOver[0].html == Some(HtmlAsWritten(address))
      && x.handedOver[0].replyTo == None
  {
    Deliver(address, Notification(address), env, provider)
  }

  /** The endpoint with the address escaped in the HTML, as the other two handlers treat their fields. */
  function SubmitEscaped(address: string, env: Env, provider: Provider): (x: Exchange)
    ensures x.reply.Responded?
    ensures |x.handedOver| <= 1
    ensures x.handedOver != [] ==>
      && IsEmail(Str(address))
      && x.handedOver[0].subject == Subject && x.handedOver[0].text == TextBody(address)
      && x.handedOver[0].html == Some(HtmlBody(address))
      && x.handedOver[0].replyTo == None
  {
    Deliver(address, EscapedNotification(address), env, provider)
  }

  /** The body of the `try`: refuse an address `isEmail` rejects, else send `m` and answer by its outcome. */
  function Deliver(address: string, m: Message, env: Env, provider: Provider): (x: Exchange)
    ensures x.reply.Responded?
    ensures |x.handedOver| <= 1
    ensures x.handedOver != [] ==>
      && IsEmail(Str(address))
      && x.handedOver[0].subject == m.subject && x.handedOver[0].text == m.text
      && x.handedOver[0].html == m.html && x.handedOver[0].replyTo == m.replyTo
  {
    if !IsEmail(Str(address)) then Exchange(Responded(Bad(AddressInvalid, 400)), [])
    else
      var sent := SendMail(env, m, provider);
      var reply := if sent.outcome.Success? then Ok(map[]) else Bad(SubscribeFailed, 500);
      Exchange(Responded(reply), sent.handedOver)
  }

  /**
   * The escaped endpoint differs from the handler in the HTML only: the same
   * mail goes to the same recipient, with the escaped address in place of the
   * raw one.
   */
  lemma EscapingChangesOnlyHtml(address: string, env: Env, provider: Provider)
    requires IsEmail(Str(address)) && HasSmtpConfig(env)
    ensures var a, b := Submit(address, env, provider), SubmitEscaped(address, env, provider);
      |a.handedOver| == 1 && |b.handedOver| == 1 &&
      b.handedOver[0] == a.handedOver[0].(html := Some(HtmlBody(address)))
  {
  }

  /** The handler as written: "<b>@x.io" is accepted and its mail holds more '<' than the escaped endpoint's. */
  lemma MarkupReachesMail(env: Env, provider: Provider)
    requires HasSmtpConfig(env)
    ensures var a, b := Submit("<b>@x.io", env, provider), SubmitEscaped("<b>@x.io", env, provider);
      |a.handedOver| == 1 && |b.handedOver| == 1 && a.handedOver[0].html.Some? && b.handedOver[0].html.Some? &&
      JsText.Count(a.handedOver[0].html.value, '<') > JsText.Count(b.handedOver[0].html.value, '<')
  {
    MarkupExample();
  }

  /** With the escaped endpoint, every mail holds the same brackets, whatever the accepted address. */
  lemma EscapedMailMarkupFixed(a: string, b: string, env: Env, provider: Provider, ch: char)
    requires IsEmail(Str(a)) && IsEmail(Str(b)) && HasSmtpConfig(env)
    requires ch == '<' || ch == '>'
    ensures var x, y := SubmitEscaped(a, env, provider), SubmitEscaped(b, env, provider);
      |x.handedOver| == 1 && |y.handedOver| == 1 && x.handedOver[0].html.Some? && y.handedOver[0].html.Some? &&
      JsText.Count(x.handedOver[0].html.value, ch) == JsText.Count(y.handedOver[0].html.value, ch)
  {
    HtmlMarkupFixed(a, b, ch);
  }

  /** An address `isEmail` rejects answers 400 and sends nothing. */
  lemma InvalidSendsNothing(address: string, env: Env, provider: Provider)
    requires !IsEmail(Str(address))
    ensures Submit(address, env, provider) == Exchange(Responded(Bad(AddressInvalid, 400)), [])
  {
  }

  /** An accepted address hands over one notification with the raw address in its HTML, and `{ ok: true }` follows its acceptance. */
  lemma ValidSendsOnce(address: string, env: Env, provider: Provider)
    requires IsEmail(Str(address)) && HasSmtpConfig(env)
    ensures var x := Submit(address, env, provider);
      && |x.handedOver| == 1
      && x.handedOver[0].text == TextBody(address)
      && x.handedOver[0].html == Some(HtmlAsWritten(address))
      && (x.reply == Responded(Ok(map[])) <==> provider(GetTransport(env).value, x.handedOver[0]).Accepted?)
  {
    assert Ok(map[]) != Bad(SubscribeFailed, 500);
  }

  /** An accepted address with the configuration missing answers the fixed 500 and sends nothing. */
  lemma MissingConfigAnswers500(address: string, env: Env, provider: Provider)
    requires IsEmail(Str(address)) && !HasSmtpConfig(env)
    ensures Submit(address, env, provider) == Exchange(Responded(Bad(SubscribeFailed, 500)), [])
  {
  }
}
