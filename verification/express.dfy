/**
 * The long-running Express server (server/index.js): the SMTP settings it
 * derives once at start-up, the `/api/contact` and `/api/testimonials`
 * routes with their own checks, the JSON 404 for other `/api` paths and the
 * single-page fallback. Its rules differ from the serverless handlers': the
 * subject is required, a long message is refused with 413, the rating is not
 * clamped, and the provider's error text reaches the client.
 */
module ExpressServer {
  import opened Wrappers
  import JsText
  import opened JsNumber
  import opened JsValue
  import opened Http
  import opened Lists
  import ServerUtils
  import Mailer
  import TestimonialHandler
  import opened Validation

  // ---------------------------------------------------------------------------
  // SMTP settings

  /** The variables the server warns about when they are missing, in this order. */
  const Required: seq<string> := ["SMTP_HOST", "SMTP_PORT", "SMTP_USER", "SMTP_PASS", "SMTP_FROM", "SMTP_TO"]

  /** `required.filter((k) => !process.env[k])`: the start-up warning lists these, and nothing else happens. */
  function Missing(env: Env): (r: seq<string>)
    ensures forall k :: k in r <==> k in Required && !IsSet(env, k)
    ensures IsSubsequence(r, Required)
  {
    FilterIsSubsequence(Required, k => !IsSet(env, k));
    Filter(Required, k => !IsSet(env, k))
  }

  /** The warning is silent exactly when all six variables are set. */
  lemma NothingMissingIff(env: Env)
    ensures Missing(env) == [] <==> forall k :: k in Required ==> IsSet(env, k)
  {
    if Missing(env) != [] {
      assert Missing(env)[0] in Missing(env);
    }
  }

  const DefaultHost := "smtp.gmail.com"

  /** `Number(process.env.SMTP_PORT || 465)` */
  function SmtpPort(env: Env): (r: Number)
    ensures !IsSet(env, "SMTP_PORT") ==> r == FromInt(465)
    ensures IsSet(env, "SMTP_PORT") ==> r == StringToNumber(env["SMTP_PORT"])
  {
    ToNumber(Or(EnvValue(env, "SMTP_PORT"), Num(FromInt(465))))
  }

  /**
   * The options of the one transporter the server creates: the host falls back
   * to Gmail, and the connection is secure exactly when the port is 465;
   * SMTP_SECURE is not read.
   */
  function ServerTransport(env: Env): (t: Transport)
    ensures t.secure <==> StrictEquals(t.port, FromInt(465))
    ensures t.port == SmtpPort(env)
    ensures t.host == Some(if IsSet(env, "SMTP_HOST") then env["SMTP_HOST"] else DefaultHost)
    ensures t.user == (if "SMTP_USER" in env then Some(env["SMTP_USER"]) else None)
    ensures t.pass == (if "SMTP_PASS" in env then Some(env["SMTP_PASS"]) else None)
  {
    var port := SmtpPort(env);
    Transport(Some(ToStr(Or(EnvValue(env, "SMTP_HOST"), Str(DefaultHost)))), port,
              StrictEquals(port, FromInt(465)),
              Mailer.TextOf(EnvValue(env, "SMTP_USER")), Mailer.TextOf(EnvValue(env, "SMTP_PASS")))
  }

  /** Without SMTP_PORT the server connects securely on 465, where the serverless transport refuses to start. */
  lemma DefaultPortIsSecure(env: Env)
    requires !IsSet(env, "SMTP_PORT")
    ensures ServerTransport(env).port == FromInt(465) && ServerTransport(env).secure
    ensures Mailer.GetTransport(env).Failure?
  {
  }

  /** The port "587" gives a plain connection. */
  lemma Port587IsPlain(env: Env)
    requires "SMTP_PORT" in env && env["SMTP_PORT"] == "587"
    ensures !ServerTransport(env).secure
  {
    Mailer.PortReads587();
  }

  /** SMTP_SECURE has no effect here: the serverless sender honours it, the server ignores it. */
  lemma SecureVariableIgnored(env: Env, v: string)
    ensures ServerTransport(env["SMTP_SECURE" := v]) == ServerTransport(env)
  {
    var e := env["SMTP_SECURE" := v];
    assert EnvValue(e, "SMTP_PORT") == EnvValue(env, "SMTP_PORT");
    assert EnvValue(e, "SMTP_HOST") == EnvValue(env, "SMTP_HOST");
    assert EnvValue(e, "SMTP_USER") == EnvValue(env, "SMTP_USER");
    assert EnvValue(e, "SMTP_PASS") == EnvValue(env, "SMTP_PASS");
  }

  // ---------------------------------------------------------------------------
  // Responses

  /** `res.json({ ok: true })` */
  function Done(): Response
  {
    Response(200, ServerUtils.JsonHeaders, Json(Obj(map["ok" := Bool(true)])))
  }

  /** `res.status(code).json({ ok: false, message })` */
  function Fail(code: int, message: string): (r: Response)
    ensures r.status == code && r.body.Json? && r.body.payload.Obj?
    ensures r.body.payload.props == map["ok" := Bool(false), "message" := Str(message)]
  {
    Response(code, ServerUtils.JsonHeaders, Json(Obj(map["ok" := Bool(false), "message" := Str(message)])))
  }

  /** A refusal: the status and the message of the reply. */
  datatype Refusal = Refusal(code: int, message: string)

  /** What the server knows about a request besides its body; these only appear in the notification text. */
  datatype Meta = Meta(ip: string, userAgent: Value, time: string)

  /** The closing lines of both notifications: `IP`, `UA` (or "-") and `Time`. */
  function Trailer(meta: Meta): string
  {
    "\n\n--\nIP: " + meta.ip + "\nUA: " + ToStr(Or(meta.userAgent, Str("-"))) + "\nTime: " + meta.time
  }

  const SendFallback := "Mail send failed"

  /** `err?.response?.toString?.() || err?.message || "Mail send failed"` */
  function ErrorText(response: string, message: string): (r: string)
    ensures r != ""
    ensures response != "" ==> r == response
    ensures response == "" && message != "" ==> r == message
    ensures response == "" && message == "" ==> r == SendFallback
  {
    ToStr(Or(Str(response), Or(Str(message), Str(SendFallback))))
  }

  /**
   * `transporter.sendMail(mail)` inside the route's `try`: `{ ok: true }` when
   * the provider accepts the message, otherwise 500 with its error text.
   */
  function Deliver(mail: Mail, env: Env, provider: Provider): (x: Exchange)
    ensures x.handedOver == [mail]
    ensures x.reply.Responded? && x.reply.response.body.Json?
    ensures var d := provider(ServerTransport(env), mail);
      && (d.Accepted? ==> x.reply == Responded(Done()))
      && (d.Rejected? ==> x.reply == Responded(Fail(500, ErrorText(d.response, d.message))))
  {
    match provider(ServerTransport(env), mail)
    case Accepted(_) => Exchange(Responded(Done()), [mail])
    case Rejected(response, message) => Exchange(Responded(Fail(500, ErrorText(response, message))), [mail])
  }

  /** The provider's own words reach the client, where the serverless handlers answer a fixed text. */
  lemma ProviderDetailEchoed(mail: Mail, env: Env, provider: Provider, response: string, message: string)
    requires provider(ServerTransport(env), mail) == Rejected(response, message)
    requires response != "" || message != ""
    ensures var x := Deliver(mail, env, provider);
      x.reply.Responded? && x.reply.response.status == 500 &&
      x.reply.response.body.payload.props["message"] == Str(if response != "" then response else message)
  {
  }

  // ---------------------------------------------------------------------------
  // POST /api/contact

  /** `const { name, email, phone, subject, message } = req.body || {}`: the values as sent, untrimmed. */
  datatype ContactBody = ContactBody(name: Value, email: Value, phone: Value, subject: Value, message: Value)

  function ContactOf(body: Value): ContactBody
  {
    var b := Or(body, EmptyObject());
    ContactBody(Get(b, "name"), Get(b, "email"), Get(b, "phone"), Get(b, "subject"), Get(b, "message"))
  }

  const MissingFields := "Missing required fields"
  const InvalidEmail := "Invalid email"
  const TooLarge := "Message too large"
  const MaxMessage := 5000

  /** The four fields the route requires: a missing subject is refused here, not defaulted. */
  predicate HasRequired(c: ContactBody) {
    Truthy(c.name) && Truthy(c.email) && Truthy(c.subject) && Truthy(c.message)
  }

  /** The e-mail regular expression applied to `String(email)` as sent, without trimming. */
  predicate EmailMatches(c: ContactBody) {
    ServerUtils.EmailShape(ToStr(c.email))
  }

  /** `String(message).length <= 5000`, in UTF-16 code units. */
  predicate WithinCap(c: ContactBody) {
    JsText.Length(ToStr(c.message)) <= MaxMessage
  }

  /** The route's checks in order: required fields, then the address, then the size. */
  function ContactCheck(c: ContactBody): (r: Option<Refusal>)
    ensures r.None? <==> HasRequired(c) && EmailMatches(c) && WithinCap(c)
    ensures r.Some? ==> r.value.code == (if r.value.message == TooLarge then 413 else 400)
  {
    if !HasRequired(c) then Some(Refusal(400, MissingFields))
    else if !EmailMatches(c) then Some(Refusal(400, InvalidEmail))
    else if !WithinCap(c) then Some(Refusal(413, TooLarge))
    else None
  }

  /** The message of a refusal is the first failing rule of required fields, address, size. */
  lemma ContactCheckIsFirstFailure(c: ContactBody)
    ensures var f := FirstFailure([Rule(HasRequired(c), MissingFields), Rule(EmailMatches(c), InvalidEmail),
                                  Rule(WithinCap(c), TooLarge)]);
      && (ContactCheck(c).None? <==> f.None?)
      && (ContactCheck(c).Some? ==> f == Some(ContactCheck(c).value.message))
  {
    FirstFailureOfThree(Rule(HasRequired(c), MissingFields), Rule(EmailMatches(c), InvalidEmail),
                        Rule(WithinCap(c), TooLarge));
  }

  /** With the fields present and the address matching, a message passes exactly when it has at most 5000 code units. */
  lemma MessageCapIff(c: ContactBody, message: string)
    requires HasRequired(c) && EmailMatches(c) && c.message == Str(message)
    ensures ContactCheck(c).None? <==> JsText.Length(message) <= 5000
    ensures ContactCheck(c).Some? ==> ContactCheck(c).value == Refusal(413, TooLarge)
  {
  }

  /** An address with a space in front is refused here, although the serverless handler trims it and accepts it. */
  lemma LeadingSpaceRefused(c: ContactBody, address: string)
    requires HasRequired(c) && c.email == Str(" " + address)
    ensures ContactCheck(c) == Some(Refusal(400, InvalidEmail))
  {
    var s := " " + address;
    assert !ServerUtils.Plain(s[0]);
  }

  /** The notification text, with the phone shown as "-" when it is missing or empty. */
  function ContactText(c: ContactBody, meta: Meta): string
  {
    "New contact submission:\n\nName: " + ToStr(c.name) + "\nEmail: " + ToStr(c.email)
      + "\nPhone: " + ToStr(Or(c.phone, Str("-"))) + "\n\nSubject: " + ToStr(c.subject)
      + "\n\nMessage:\n" + ToStr(c.message) + Trailer(meta)
  }

  /** The message handed to the transporter: SMTP_FROM to SMTP_TO, replies to the sender. */
  function ContactMail(env: Env, c: ContactBody, meta: Meta): (m: Mail)
    ensures m.subject == "Contact: " + ToStr(c.subject) + " — " + ToStr(c.name)
    ensures m.replyTo == Some(ToStr(c.email)) && m.html == None
    ensures m.from == (if "SMTP_FROM" in env then Some(env["SMTP_FROM"]) else None)
    ensures m.to == (if "SMTP_TO" in env then Some(env["SMTP_TO"]) else None)
  {
    Mail(Mailer.TextOf(EnvValue(env, "SMTP_FROM")), Mailer.TextOf(EnvValue(env, "SMTP_TO")),
         "Contact: " + ToStr(c.subject) + " — " + ToStr(c.name), ContactText(c, meta), None, Some(ToStr(c.email)))
  }

  /** The `/api/contact` route. */
  function Contact(body: Value, meta: Meta, env: Env, provider: Provider): (x: Exchange)
    ensures x.reply.Responded? && x.reply.response.body.Json?
    ensures var c := ContactOf(body);
      && (ContactCheck(c).Some? ==>
            x == Exchange(Responded(Fail(ContactCheck(c).value.code, ContactCheck(c).value.message)), []))
      && (ContactCheck(c).None? ==> x == Deliver(ContactMail(env, c, meta), env, provider))
  {
    var c := ContactOf(body);
    match ContactCheck(c)
    case Some(r) => Exchange(Responded(Fail(r.code, r.message)), [])
    case None => Deliver(ContactMail(env, c, meta), env, provider)
  }

  // ---------------------------------------------------------------------------
  // POST /api/testimonials

  /** `const { name, role, quote, rating = 5, avatar } = req.body || {}` */
  datatype TestimonialBody = TestimonialBody(name: Value, role: Value, quote: Value, rating: Value, avatar: Value)

  function TestimonialOf(body: Value): TestimonialBody
  {
    var b := Or(body, EmptyObject());
    TestimonialBody(Get(b, "name"), Get(b, "role"), Get(b, "quote"), GetOr(b, "rating", Num(FromInt(5))), Get(b, "avatar"))
  }

  const NameQuoteMissing := "Name and quote are required"
  const TestimonialSubjectHead := "🗣️ New Testimonial — "

  /** The one check: a name and a quote, each truthy as sent. */
  function TestimonialCheck(t: TestimonialBody): (r: Option<Refusal>)
    ensures r.None? <==> Truthy(t.name) && Truthy(t.quote)
    ensures r.Some? ==> r.value == Refusal(400, NameQuoteMissing)
  {
    if !Truthy(t.name) || !Truthy(t.quote) then Some(Refusal(400, NameQuoteMissing)) else None
  }

  /**
   * The rating is passed on as sent: a rating above 5 stays, where the
   * serverless handler stores 5; only a missing one becomes 5.
   */
  lemma RatingNotClamped(props: map<string, Value>, x: Number)
    requires "rating" in props && props["rating"] == Num(x) && Less(FromInt(5), x)
    ensures TestimonialOf(Obj(props)).rating == Num(x)
    ensures TestimonialHandler.Clean(Obj(props)).rating == FromInt(5)
  {
    TestimonialHandler.RatingBounds(Obj(props));
  }

  /** A missing rating becomes 5; a `null` one stays `null`, because the default replaces only `undefined`. */
  lemma RatingDefault(props: map<string, Value>)
    ensures "rating" !in props ==> TestimonialOf(Obj(props)).rating == Num(FromInt(5))
    ensures "rating" in props && props["rating"].Null? ==> TestimonialOf(Obj(props)).rating == Null
  {
  }

  /** The notification text: "-" for a missing role or avatar, the rating printed as sent. */
  function TestimonialText(t: TestimonialBody, meta: Meta): string
  {
    "New testimonial:\n\nName: " + ToStr(t.name) + "\nRole: " + ToStr(Or(t.role, Str("-")))
      + "\nRating: " + ToStr(t.rating) + "\nAvatar: " + ToStr(Or(t.avatar, Str("-")))
      + "\n\nQuote:\n" + ToStr(t.quote) + Trailer(meta)
  }

  /** The message handed to the transporter: replies go to SMTP_TO itself, not to the author. */
  function TestimonialMail(env: Env, t: TestimonialBody, meta: Meta): (m: Mail)
    ensures m.subject == TestimonialSubjectHead + ToStr(t.name)
    ensures m.replyTo == m.to && m.html == None
    ensures m.to == (if "SMTP_TO" in env then Some(env["SMTP_TO"]) else None)
  {
    var to := Mailer.TextOf(EnvValue(env, "SMTP_TO"));
    Mail(Mailer.TextOf(EnvValue(env, "SMTP_FROM")), to, TestimonialSubjectHead + ToStr(t.name),
         TestimonialText(t, meta), None, to)
  }

  /** The `/api/testimonials` route. */
  function Testimonial(body: Value, meta: Meta, env: Env, provider: Provider): (x: Exchange)
    ensures x.reply.Responded? && x.reply.response.body.Json?
    ensures var t := TestimonialOf(body);
      && (TestimonialCheck(t).Some? ==> x == Exchange(Responded(Fail(400, NameQuoteMissing)), []))
      && (TestimonialCheck(t).None? ==> x == Deliver(TestimonialMail(env, t, meta), env, provider))
  {
    var t := TestimonialOf(body);
    match TestimonialCheck(t)
    case Some(r) => Exchange(Responded(Fail(r.code, r.message)), [])
    case None => Deliver(TestimonialMail(env, t, meta), env, provider)
  }

  // ---------------------------------------------------------------------------
  // Routing

  /** `app.get` routes also answer HEAD. */
  predicate IsGet(verb: string) { verb == "GET" || verb == "HEAD" }

  /** Express's default matching: letter case ignored and one trailing '/' allowed. */
  predicate Matches(path: string, route: string) {
    var p := JsText.LowerAscii(path);
    p == route || p == route + "/"
  }

  /** `app.use("/api", …)` catches "/api" and every path below it, in any letter case. */
  predicate UnderApi(path: string) {
    var p := JsText.LowerAscii(path);
    p == "/api" || (|p| >= 5 && p[..5] == "/api/")
  }

  /** The single-page fallback `/^\/(?!api\/).*\/`: a path starting with '/' and not with "/api/" (case kept). */
  predicate SpaPath(path: string) {
    |path| >= 1 && path[0] == '/' && !(|path| >= 5 && path[..5] == "/api/")
  }

  const DevtoolsProbe := "/.well-known/appspecific/" + "com.chrome.devtools.json"
  const NotFound := "Not found"

  /** The methods the router lists for OPTIONS when only `app.get` routes match: GET, with HEAD added for it. */
  const GetAndHead := "GET,HEAD"

  /** The router's own answer to an OPTIONS request that no route handled: 200, the `Allow` header and the same list as the body. */
  function AutomaticOptions(): (r: Response)
    ensures r.status == 200 && r.headers.Keys == {"Allow"} && r.body == Text(r.headers["Allow"])
  {
    Response(200, map["Allow" := GetAndHead], Text(GetAndHead))
  }

  /** The final handler's 404 for a request no route answered: its HTML page reading "Cannot VERB path". */
  function Unhandled(verb: string, path: string): (r: Response)
    ensures r.status == 404 && r.body.ErrorPage?
    ensures |r.body.message| > |path| && r.body.message[|r.body.message| - |path|..] == path
  {
    var m := "Cannot " + verb + " " + path;
    assert m[|m| - |path|..] == path;
    Response(404, map[], ErrorPage(m))
  }

  /**
   * One request through the routes in the order the server registers them;
   * `now` is the time the health check reports. Paths served from the build
   * directory as files are not part of this model. An OPTIONS request that
   * reaches the end having matched a GET route gets the router's automatic
   * answer; anything else left gets the final handler's 404 page.
   */
  function Dispatch(verb: string, path: string, body: Value, meta: Meta, now: string, env: Env, provider: Provider): (x: Exchange)
    ensures x.reply.Responded?
    ensures |x.handedOver| <= 1
  {
    if IsGet(verb) && Matches(path, DevtoolsProbe) then Exchange(Responded(Response(204, map[], NoBody)), [])
    else if IsGet(verb) && Matches(path, "/api/health") then
      Exchange(Responded(Response(200, ServerUtils.JsonHeaders, Json(Obj(map["ok" := Bool(true), "time" := Str(now)])))), [])
    else if verb == "POST" && Matches(path, "/api/contact") then Contact(body, meta, env, provider)
    else if verb == "POST" && Matches(path, "/api/testimonials") then Testimonial(body, meta, env, provider)
    else if UnderApi(path) then Exchange(Responded(Fail(404, NotFound)), [])
    else if IsGet(verb) && SpaPath(path) then Exchange(Responded(Response(200, map[], SpaEntry)), [])
    else if verb == "OPTIONS" && (SpaPath(path) || Matches(path, DevtoolsProbe)) then
      Exchange(Responded(AutomaticOptions()), [])
    else Exchange(Responded(Unhandled(verb, path)), [])
  }

  /** The devtools probe is itself a path the page route takes. */
  lemma ProbeIsPagePath(path: string)
    requires Matches(path, DevtoolsProbe)
    ensures SpaPath(path)
  {
    var p := JsText.LowerAscii(path);
    assert DevtoolsProbe[0] == '/' && DevtoolsProbe[1] == '.';
    assert p[0] == '/' && p[1] == '.' by {
      if p != DevtoolsProbe { assert p == DevtoolsProbe + "/"; assert p[1] == (DevtoolsProbe + "/")[1]; }
    }
    assert path[0] == '/' && path[1] == '.';
  }

  /**
   * Outside "/api" an OPTIONS request for a path the page route would serve
   * gets the router's automatic answer, 200 with `Allow: GET,HEAD`, and sends
   * nothing.
   */
  lemma OptionsOutsideApi(path: string, body: Value, meta: Meta, now: string, env: Env, provider: Provider)
    requires !UnderApi(path) && SpaPath(path)
    ensures Dispatch("OPTIONS", path, body, meta, now, env, provider) == Exchange(Responded(AutomaticOptions()), [])
  {
  }

  /**
   * Outside "/api", a method other than GET and HEAD gets the final
   * handler's 404 page, unless it is an OPTIONS request for a page path.
   */
  lemma UnmatchedOutsideApi(verb: string, path: string, body: Value, meta: Meta, now: string, env: Env, provider: Provider)
    requires !UnderApi(path) && !IsGet(verb)
    requires verb != "OPTIONS" || !SpaPath(path)
    ensures Dispatch(verb, path, body, meta, now, env, provider) == Exchange(Responded(Unhandled(verb, path)), [])
  {
    OutsideApiRoutes(path);
    if Matches(path, DevtoolsProbe) { ProbeIsPagePath(path); }
  }

  /** Every path under "/api" is answered with JSON, and never with the page. */
  lemma ApiAnswersJson(verb: string, path: string, body: Value, meta: Meta, now: string, env: Env, provider: Provider)
    requires UnderApi(path)
    ensures var x := Dispatch(verb, path, body, meta, now, env, provider);
      x.reply.Responded? && x.reply.response.body.Json?
  {
    var x := Dispatch(verb, path, body, meta, now, env, provider);
    if IsGet(verb) && Matches(path, DevtoolsProbe) {
      ProbeOutsideApi(path);
    } else if verb == "POST" && Matches(path, "/api/contact") {
      assert x == Contact(body, meta, env, provider);
    } else if verb == "POST" && Matches(path, "/api/testimonials") {
      assert x == Testimonial(body, meta, env, provider);
    }
  }

  /** Only the two POST routes hand anything to the transporter. */
  lemma OnlyPostsSend(verb: string, path: string, body: Value, meta: Meta, now: string, env: Env, provider: Provider)
    ensures Dispatch(verb, path, body, meta, now, env, provider).handedOver != [] ==>
      verb == "POST" && (Matches(path, "/api/contact") || Matches(path, "/api/testimonials"))
  {
  }

  /** The devtools probe lies outside "/api". */
  lemma ProbeOutsideApi(path: string)
    requires Matches(path, DevtoolsProbe)
    ensures !UnderApi(path)
  {
    var p := JsText.LowerAscii(path);
    assert DevtoolsProbe[1] == '.';
    assert p[1] == '.' by {
      if p != DevtoolsProbe { assert p == DevtoolsProbe + "/"; assert p[1] == (DevtoolsProbe + "/")[1]; }
    }
  }

  /** Matching a route name lies under "/api" when the name does. */
  lemma MatchedApiRoute(path: string, route: string)
    requires Matches(path, route) && |route| >= 5 && route[..5] == "/api/"
    ensures UnderApi(path)
  {
    var p := JsText.LowerAscii(path);
    if p == route + "/" { assert p[..5] == route[..5]; }
  }

  /** Any other path under "/api" gets the JSON 404, whatever the method, and never the page. */
  lemma UnknownApiPath(verb: string, path: string, body: Value, meta: Meta, now: string, env: Env, provider: Provider)
    requires UnderApi(path)
    requires !Matches(path, "/api/health") && !Matches(path, "/api/contact") && !Matches(path, "/api/testimonials")
    requires !Matches(path, DevtoolsProbe)
    ensures Dispatch(verb, path, body, meta, now, env, provider) == Exchange(Responded(Fail(404, NotFound)), [])
  {
  }

  /** A GET of a path outside "/api" that no earlier route takes is answered with the page. */
  lemma PagePath(path: string, body: Value, meta: Meta, now: string, env: Env, provider: Provider)
    requires !UnderApi(path) && path != [] && path[0] == '/' && !Matches(path, DevtoolsProbe)
    ensures Dispatch("GET", path, body, meta, now, env, provider) == Exchange(Responded(Response(200, map[], SpaEntry)), [])
  {
    OutsideApiRoutes(path);
    OutsideApiIsPagePath(path);
  }

  /** A path starting with '/' that is not under "/api" in any letter case is one the page route takes. */
  lemma OutsideApiIsPagePath(path: string)
    requires !UnderApi(path) && path != [] && path[0] == '/'
    ensures SpaPath(path)
  {
  }

  /** No route registered under "/api" matches a path outside it. */
  lemma OutsideApiRoutes(path: string)
    requires !UnderApi(path)
    ensures !Matches(path, "/api/health") && !Matches(path, "/api/contact") && !Matches(path, "/api/testimonials")
  {
    if Matches(path, "/api/health") { MatchedApiRoute(path, "/api/health"); }
    if Matches(path, "/api/contact") { MatchedApiRoute(path, "/api/contact"); }
    if Matches(path, "/api/testimonials") { MatchedApiRoute(path, "/api/testimonials"); }
  }
}
