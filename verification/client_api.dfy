/**
 * The browser-side API helpers (src/utils/api.js): resolving the API base,
 * joining it with a path, turning a fetch outcome into a value or an error
 * message, and the two form helpers with their own checks. `fetch` and
 * `JSON.parse` are parameters.
 */
module ClientApi {
  import opened Wrappers
  import JsText
  import opened JsNumber
  import opened JsValue
  import opened Http
  import ServerUtils
  import opened Validation

  // ---------------------------------------------------------------------------
  // join

  /** `s.replace(/\/+$/, "")`: drops every trailing '/'. */
  function DropTrailingSlashes(s: string): (r: string)
    ensures |r| <= |s| && r == s[..|r|]
    ensures r == [] || r[|r| - 1] != '/'
    ensures forall i :: |r| <= i < |s| ==> s[i] == '/'
  {
    if s != [] && s[|s| - 1] == '/' then DropTrailingSlashes(s[..|s| - 1]) else s
  }

  /** `s.replace(/^\/+/, "")`: drops every leading '/'. */
  function DropLeadingSlashes(s: string): (r: string)
    ensures |r| <= |s| && r == s[|s| - |r|..]
    ensures r == [] || r[0] != '/'
    ensures forall i :: 0 <= i < |s| - |r| ==> s[i] == '/'
  {
    if s != [] && s[0] == '/' then DropLeadingSlashes(s[1..]) else s
  }

  /** `join(base, path)`: exactly one '/' between the base and the path. */
  function Join(base: string, path: string): string
  {
    DropTrailingSlashes(base) + "/" + DropLeadingSlashes(path)
  }

  /**
   * The seam of a join is one slash: the part before it is the base without
   * its trailing slashes and does not end in '/', the part after it is the
   * path without its leading slashes and does not start with '/'.
   */
  lemma JoinSeam(base: string, path: string)
    ensures var b, p := DropTrailingSlashes(base), DropLeadingSlashes(path);
      && Join(base, path) == b + "/" + p
      && (b == [] || b[|b| - 1] != '/') && (p == [] || p[0] != '/')
      && base == b + base[|b|..] && path == path[..|path| - |p|] + p
  {
    TrailingSplit(base);
    LeadingSplit(path);
  }

  lemma TrailingSplit(s: string)
    ensures var b := DropTrailingSlashes(s); s == b + s[|b|..]
  {
    var b := DropTrailingSlashes(s);
    assert s == s[..|b|] + s[|b|..];
  }

  lemma LeadingSplit(s: string)
    ensures var p := DropLeadingSlashes(s); s == s[..|s| - |p|] + p
  {
    var p := DropLeadingSlashes(s);
    assert s == s[..|s| - |p|] + s[|s| - |p|..];
  }

  /** Extra slashes at the end of the base or the start of the path change nothing. */
  lemma JoinIgnoresExtraSlashes(base: string, path: string)
    ensures Join(base + "/", path) == Join(base, path)
    ensures Join(base, "/" + path) == Join(base, path)
  {
    assert (base + "/")[..|base + "/"| - 1] == base;
    assert ("/" + path)[1..] == path;
  }

  /** A base without a trailing '/' and a path without a leading '/' are joined by one '/'. */
  lemma JoinPlain(base: string, path: string)
    requires base == [] || base[|base| - 1] != '/'
    requires path == [] || path[0] != '/'
    ensures Join(base, path) == base + "/" + path
  {
  }

  // ---------------------------------------------------------------------------
  // The API base

  const MissingBase := "Missing API base. Set REACT_APP_API_BASE at build time (or window.__API_BASE__ at runtime)."

  /**
   * `BASE`: the trimmed REACT_APP_API_BASE when it is not blank, else the
   * trimmed `window.__API_BASE__` when there is a window and the value is
   * truthy, else "". `window` is `None` outside a browser.
   */
  function ResolveBase(env: Env, window: Option<Value>): (r: string)
    ensures JsText.IsTrimmed(r)
  {
    var envBase := EnvBase(env);
    var runtimeBase := if window.Some? && Truthy(window.value) then JsText.Trim(ToStr(window.value)) else "";
    if envBase != "" then envBase else runtimeBase
  }

  /** The trimmed build-time base; a missing variable reads as "". */
  function EnvBase(env: Env): string
  {
    if "REACT_APP_API_BASE" in env then JsText.Trim(env["REACT_APP_API_BASE"]) else ""
  }

  /** `(process.env.REACT_APP_API_BASE || "").trim()`: the `|| ""` only replaces the empty text by itself. */
  lemma EnvBaseIsOrTrim(env: Env)
    ensures EnvBase(env) == JsText.Trim(ToStr(Or(EnvValue(env, "REACT_APP_API_BASE"), Str(""))))
  {
    if "REACT_APP_API_BASE" in env {
      EnvBaseText(env["REACT_APP_API_BASE"]);
    }
  }

  lemma EnvBaseText(s: string)
    ensures JsText.Trim(ToStr(Or(Str(s), Str("")))) == JsText.Trim(s)
  {
    if s == [] { assert Or(Str(s), Str("")) == Str(""); }
  }

  /** The build-time variable wins whenever it holds more than white space; the runtime value is the fallback. */
  lemma BaseResolution(env: Env, window: Option<Value>)
    ensures EnvBase(env) != "" ==> ResolveBase(env, window) == EnvBase(env)
    ensures EnvBase(env) == "" ==>
              ResolveBase(env, window) ==
                (if window.Some? && Truthy(window.value) then JsText.Trim(ToStr(window.value)) else "")
  {
  }

  /** `ensureBase()` and `getApiBase()`: the base, or the error thrown when it is empty. */
  function GetApiBase(base: string): (r: Result<string, string>)
    ensures r.Failure? <==> base == ""
    ensures r.Success? ==> r.value == base
    ensures r.Failure? ==> r.error == MissingBase
  {
    if base == "" then Failure(MissingBase) else Success(base)
  }

  // ---------------------------------------------------------------------------
  // request

  /** What `fetch` does: aborted by the timeout, failed on the network, or a response. */
  datatype FetchOutcome =
    | Aborted
    | NetworkFailure
    | Received(status: int, contentType: string, text: string)

  /** `fetch(url, { body })`, with the JSON-encoded body left as the value it encodes. */
  type Fetch = (string, Value) -> FetchOutcome

  /** How a call settled: with a value, with an `Error` carrying a message, or with a TypeError. */
  datatype Settled = Resolved(value: Value) | Thrown(message: string) | TypeError

  const TimedOut := "Request timed out. Please try again."
  const NetworkError := "Network error. Please check your connection and try again."

  /** `res.ok` */
  predicate IsOk(status: int) { 200 <= status <= 299 }

  /** `isJson && (data?.error || data?.message)`, split into its two candidates. */
  function JsonField(isJson: bool, data: Value, k: string): Value
  {
    if isJson then OptGet(data, k) else Bool(false)
  }

  /** `typeof data === "string" && data` */
  function TextCandidate(data: Value): Value
  {
    if data.Str? then data else Bool(false)
  }

  function StatusFallback(status: int): string
  {
    "Request failed with status " + NumberToString(FromInt(status))
  }

  /** The message of the `Error` thrown for a failed response. */
  function ErrorMessage(isJson: bool, data: Value, status: int): (msg: string)
  {
    var jsonPart := if isJson then Or(OptGet(data, "error"), OptGet(data, "message")) else Bool(false);
    ToStr(Or(Or(jsonPart, TextCandidate(data)), Str(StatusFallback(status))))
  }

  /**
   * The message is the first truthy of: the JSON `error`, the JSON `message`,
   * a non-empty text body, and "Request failed with status N".
   */
  lemma ErrorMessageOrder(isJson: bool, data: Value, status: int)
    ensures ErrorMessage(isJson, data, status) == ToStr(FirstTruthy([
      JsonField(isJson, data, "error"), JsonField(isJson, data, "message"),
      TextCandidate(data), Str(StatusFallback(status))]))
  {
    var a, b := JsonField(isJson, data, "error"), JsonField(isJson, data, "message");
    FallbackIsTruthy(status);
    JsonPart(isJson, data);
    OrChain(a, b, TextCandidate(data), Str(StatusFallback(status)));
  }

  lemma JsonPart(isJson: bool, data: Value)
    ensures (if isJson then Or(OptGet(data, "error"), OptGet(data, "message")) else Bool(false))
         == Or(JsonField(isJson, data, "error"), JsonField(isJson, data, "message"))
  {
  }

  lemma FallbackIsTruthy(status: int)
    ensures Truthy(Str(StatusFallback(status)))
  {
  }

  /** The message in each case: the JSON error, else the JSON message, else the text, else the status. */
  lemma ErrorMessageCases(isJson: bool, data: Value, status: int)
    ensures isJson && Truthy(OptGet(data, "error")) ==>
              ErrorMessage(isJson, data, status) == ToStr(OptGet(data, "error"))
    ensures isJson && !Truthy(OptGet(data, "error")) && Truthy(OptGet(data, "message")) ==>
              ErrorMessage(isJson, data, status) == ToStr(OptGet(data, "message"))
    ensures !isJson && data.Str? && data.s != "" ==> ErrorMessage(isJson, data, status) == data.s
    ensures !isJson && data == Str("") ==> ErrorMessage(isJson, data, status) == StatusFallback(status)
  {
  }

  /** The response: parse JSON when the content type says so (`{}` when that fails), else keep the text. */
  function ReadResponse(status: int, contentType: string, text: string, json: JsonParser): (r: Settled)
    ensures r.Resolved? <==> IsOk(status)
    ensures IsOk(status) && !JsText.Includes(contentType, "application/json") ==>
              r == Resolved(Obj(map["ok" := Bool(true), "data" := Str(text)]))
    ensures IsOk(status) && JsText.Includes(contentType, "application/json") ==>
              r == Resolved(json(text).GetOr(EmptyObject()))
  {
    var isJson := JsText.Includes(contentType, "application/json");
    var data := if isJson then json(text).GetOr(EmptyObject()) else Str(text);
    if !IsOk(status) then Thrown(ErrorMessage(isJson, data, status))
    else if isJson then Resolved(data)
    else Resolved(Obj(map["ok" := Bool(true), "data" := data]))
  }

  /** A failed response that is not JSON reports its text, or the status when the text is empty. */
  lemma TextErrorReported(status: int, contentType: string, text: string, json: JsonParser)
    requires !IsOk(status) && !JsText.Includes(contentType, "application/json")
    ensures ReadResponse(status, contentType, text, json) ==
              Thrown(if text != "" then text else StatusFallback(status))
  {
    ErrorMessageCases(false, Str(text), status);
  }

  /** `request(path, { body })`: the base check, then one fetch of the joined URL. */
  function Request(base: string, path: string, body: Value, fetch: Fetch, json: JsonParser): (r: Settled)
    ensures base == "" ==> r == Thrown(MissingBase)
    ensures base != "" ==> match fetch(Join(base, path), body)
      case Aborted => r == Thrown(TimedOut)
      case NetworkFailure => r == Thrown(NetworkError)
      case Received(status, ct, text) => r == ReadResponse(status, ct, text, json)
  {
    if base == "" then Thrown(MissingBase)
    else
      match fetch(Join(base, path), body)
      case Aborted => Thrown(TimedOut)
      case NetworkFailure => Thrown(NetworkError)
      case Received(status, ct, text) => ReadResponse(status, ct, text, json)
  }

  // ---------------------------------------------------------------------------
  // trimIfString / clamp

  /** `trimIfString(v)`: strings are trimmed, other values pass through unchanged. */
  function TrimIfString(v: Value): (r: Value)
    ensures v.Str? ==> r == Str(JsText.Trim(v.s))
    ensures !v.Str? ==> r == v
  {
    if v.Str? then Str(JsText.Trim(v.s)) else v
  }

  /** Trimming twice is trimming once. */
  lemma TrimIfStringIdempotent(v: Value)
    ensures TrimIfString(TrimIfString(v)) == TrimIfString(v)
  {
    if v.Str? { JsText.TrimIdempotent(v.s); }
  }

  /** The client's `clamp`, written out as it is in the browser helper; it agrees with the server's on every input. */
  function Clamp(n: Value, lo: int, hi: int): (r: Number)
    ensures ToNumber(n).NaN? ==> r == FromInt(lo)
    ensures lo <= hi ==> r.Finite? && lo as real <= Magnitude(r) <= hi as real
    ensures ToNumber(n).Finite? && lo as real <= Magnitude(ToNumber(n)) <= hi as real ==> StrictEquals(r, ToNumber(n))
    ensures r == ServerUtils.Clamp(n, lo, hi)
  {
    var x := ToNumber(n);
    if x.NaN? then FromInt(lo) else Max(FromInt(lo), Min(FromInt(hi), x))
  }

  // ---------------------------------------------------------------------------
  // sendContact

  const NameMissing := "Please enter your name."
  const EmailMissing := "Please enter your email."
  const MessageMissing := "Please add a message."
  const QuoteMissing := "Please add a short quote."

  /** `payload = {}`: the default replaces only `undefined`. */
  function Payload(payload: Value): Value
  {
    if payload.Undefined? then EmptyObject() else payload
  }

  /** The `clean` object `sendContact` builds, field by field. */
  datatype ContactFields = ContactFields(name: Value, email: Value, phone: Value, subject: Value, message: Value)

  function ContactClean(p: Value): (c: ContactFields)
    requires !Nullish(p)
    ensures c.phone != Undefined && c.subject != Undefined
  {
    ContactFields(TrimIfString(Get(p, "name")), TrimIfString(Get(p, "email")),
                  TrimIfString(Or(Get(p, "phone"), Str(""))), TrimIfString(Or(Get(p, "subject"), Str(""))),
                  TrimIfString(Get(p, "message")))
  }

  /** The clean object as the JSON body of the request. */
  function ContactJson(c: ContactFields): Value
  {
    Obj(map["name" := c.name, "email" := c.email, "phone" := c.phone, "subject" := c.subject, "message" := c.message])
  }

  /** A missing phone or subject is sent as "": `payload.x || ""` before trimming. */
  lemma ContactDefaults(props: map<string, Value>)
    requires "phone" !in props && "subject" !in props
    ensures ContactClean(Obj(props)).phone == Str("") && ContactClean(Obj(props)).subject == Str("")
  {
  }

  /** `!clean.message || clean.message.length < 3` */
  predicate MessageTooShort(message: Value) {
    !Truthy(message) || LessThanNumber(Get(message, "length"), FromInt(3))
  }

  /** The three checks of `sendContact`, in order: name, e-mail present, message length. */
  function ContactCheck(c: ContactFields): Option<string>
  {
    if !Truthy(c.name) then Some(NameMissing)
    else if !Truthy(c.email) then Some(EmailMissing)
    else if MessageTooShort(c.message) then Some(MessageMissing)
    else None
  }

  /** The checks are the rule list name, e-mail, message, and the first failing rule decides. */
  lemma ContactCheckIsFirstFailure(c: ContactFields)
    ensures ContactCheck(c) == FirstFailure([
      Rule(Truthy(c.name), NameMissing), Rule(Truthy(c.email), EmailMissing),
      Rule(!MessageTooShort(c.message), MessageMissing)])
  {
    FirstFailureOfThree(Rule(Truthy(c.name), NameMissing), Rule(Truthy(c.email), EmailMissing),
                        Rule(!MessageTooShort(c.message), MessageMissing));
  }

  /** On a string, the message check is "at least three UTF-16 code units". */
  lemma MessageLengthRule(s: string)
    ensures MessageTooShort(Str(s)) <==> JsText.Length(s) < 3
  {
    MagnitudeOfInt(JsText.Length(s));
    MagnitudeOfInt(3);
  }

  /** The address is only required to be present: any non-empty text passes, well formed or not. */
  lemma NoEmailFormatCheck(c: ContactFields, name: string, email: string, message: string)
    requires c.name == Str(name) && c.email == Str(email) && c.message == Str(message)
    requires name != "" && email != "" && JsText.Length(message) >= 3
    ensures ContactCheck(c) == None
  {
    MessageLengthRule(message);
  }

  /** `sendContact(payload)`: checks first, then one POST of the clean object. */
  function SendContact(payload: Value, base: string, fetch: Fetch, json: JsonParser): (r: Settled)
    ensures payload.Null? ==> r == TypeError
    ensures !payload.Null? ==> r == PostContact(ContactClean(Payload(payload)), base, fetch, json)
  {
    if payload.Null? then TypeError   // reading `payload.name` of null
    else PostContact(ContactClean(Payload(payload)), base, fetch, json)
  }

  /** The clean object checked, then posted to `/api/contact`. */
  function PostContact(c: ContactFields, base: string, fetch: Fetch, json: JsonParser): (r: Settled)
    ensures ContactCheck(c).Some? ==> r == Thrown(ContactCheck(c).value)
  {
    match ContactCheck(c)
    case Some(msg) => Thrown(msg)
    case None => Request(base, "/api/contact", ContactJson(c), fetch, json)
  }

  /** A failed check throws before any request: the base and `fetch` play no part. */
  lemma ContactRejectedBeforeRequest(c: ContactFields, b1: string, b2: string, f1: Fetch, f2: Fetch, json: JsonParser)
    requires ContactCheck(c).Some?
    ensures PostContact(c, b1, f1, json) == PostContact(c, b2, f2, json)
  {
  }

  /** A submission that passes is one request to `<base>/api/contact` carrying the clean object. */
  lemma ContactPosted(c: ContactFields, base: string, fetch: Fetch, json: JsonParser)
    requires ContactCheck(c).None?
    ensures PostContact(c, base, fetch, json) == Request(base, "/api/contact", ContactJson(c), fetch, json)
  {
  }

  // ---------------------------------------------------------------------------
  // submitTestimonial

  /** The `clean` object `submitTestimonial` builds, field by field. */
  datatype TestimonialFields = TestimonialFields(name: Value, role: Value, quote: Value, rating: Number, avatar: Value)

  /** The rating sent: `clamp(payload.rating ?? 5, 1, 5)`. */
  function ClientRating(p: Value): (r: Number)
    requires !Nullish(p)
    ensures r.Finite? && 1.0 <= Magnitude(r) <= 5.0
  {
    Clamp(Coalesce(Get(p, "rating"), Num(FromInt(5))), 1, 5)
  }

  function TestimonialClean(p: Value): TestimonialFields
    requires !Nullish(p)
  {
    TestimonialFields(TrimIfString(Get(p, "name")), TrimIfString(Or(Get(p, "role"), Str(""))),
                      TrimIfString(Get(p, "quote")), ClientRating(p), TrimIfString(Or(Get(p, "avatar"), Str(""))))
  }

  function TestimonialJson(c: TestimonialFields): Value
  {
    Obj(map["name" := c.name, "role" := c.role, "quote" := c.quote, "rating" := Num(c.rating), "avatar" := c.avatar])
  }

  /** The two checks of `submitTestimonial`, in order: name, then quote. */
  function TestimonialCheck(c: TestimonialFields): (r: Option<string>)
    ensures r == FirstFailure([Rule(Truthy(c.name), NameMissing), Rule(Truthy(c.quote), QuoteMissing)])
  {
    FirstFailureOfTwo(Rule(Truthy(c.name), NameMissing), Rule(Truthy(c.quote), QuoteMissing));
    if !Truthy(c.name) then Some(NameMissing)
    else if !Truthy(c.quote) then Some(QuoteMissing)
    else None
  }

  /** `submitTestimonial(payload)`: checks first, then one POST of the clean object. */
  function SubmitTestimonial(payload: Value, base: string, fetch: Fetch, json: JsonParser): (r: Settled)
    ensures payload.Null? ==> r == TypeError
    ensures !payload.Null? ==> r == PostTestimonial(TestimonialClean(Payload(payload)), base, fetch, json)
  {
    if payload.Null? then TypeError
    else PostTestimonial(TestimonialClean(Payload(payload)), base, fetch, json)
  }

  /** The clean object checked, then posted to `/api/testimonials`. */
  function PostTestimonial(c: TestimonialFields, base: string, fetch: Fetch, json: JsonParser): (r: Settled)
    ensures TestimonialCheck(c).Some? ==> r == Thrown(TestimonialCheck(c).value)
    ensures TestimonialCheck(c).None? ==> r == Request(base, "/api/testimonials", TestimonialJson(c), fetch, json)
  {
    match TestimonialCheck(c)
    case Some(msg) => Thrown(msg)
    case None => Request(base, "/api/testimonials", TestimonialJson(c), fetch, json)
  }

  /**
   * A missing or null rating is sent as 5; this is the `??` of the browser
   * helper, where the server's destructuring default covers `undefined` only.
   */
  lemma NullRatingSentAsFive(p: Value)
    requires !Nullish(p) && Nullish(Get(p, "rating"))
    ensures StrictEquals(ClientRating(p), FromInt(5))
  {
    FiveInRange();
  }

  lemma FiveInRange()
    ensures var x := ToNumber(Num(FromInt(5))); x.Finite? && 1.0 <= Magnitude(x) <= 5.0 && StrictEquals(x, FromInt(5))
  {
    MagnitudeOfInt(5);
  }
}
