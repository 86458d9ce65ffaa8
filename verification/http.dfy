/**
 * The boundary between the site's handlers and the outside world: requests and
 * responses as values, and the outbound mail a handler hands to the SMTP library.
 * The library itself (nodemailer) is a parameter of type `Provider`.
 */
module Http {
  import opened Wrappers
  import opened JsNumber
  import opened JsValue

  /** An incoming request: the method (`req.method`) and the body as the platform delivers it (`req.body`). */
  datatype Request = Request(verb: string, body: Value)

  datatype Body =
    | NoBody                 // res.end() with nothing
    | Json(payload: Value)   // a JSON document
    | SpaEntry               // the single-page application's index.html
    | Text(text: string)     // a plain text or HTML document
    | ErrorPage(message: string)  // the framework's default HTML error page showing `message`

  datatype Response = Response(status: int, headers: map<string, string>, body: Body)

  /** One outbound message, with the fields the handlers pass to the SMTP library. */
  datatype Mail = Mail(
    from: Option<string>,
    to: Option<string>,
    subject: string,
    text: string,
    html: Option<string>,
    replyTo: Option<string>)

  /** The SMTP connection options given to `nodemailer.createTransport`. */
  datatype Transport = Transport(
    host: Option<string>,
    port: Number,
    secure: bool,
    user: Option<string>,
    pass: Option<string>)

  /**
   * What the SMTP provider does with one message: accept it (possibly with a
   * message id, "" when it gives none) or reject it with an error whose
   * `response` and `message` texts may be empty.
   */
  datatype Delivery = Accepted(messageId: string) | Rejected(response: string, message: string)

  type Provider = (Transport, Mail) -> Delivery

  /** How a handler invocation ended: with a response, or with an exception nobody caught. */
  datatype Reply = Responded(response: Response) | Crashed

  /** One handler invocation: its reply and the messages it handed to the SMTP provider, in order. */
  datatype Exchange = Exchange(reply: Reply, handedOver: seq<Mail>)

  /** `process.env`: each defined variable with its text. */
  type Env = map<string, string>

  /** `process.env[k]`: the variable's text, or `undefined` when it is not defined. */
  function EnvValue(env: Env, k: string): Value
  {
    if k in env then Str(env[k]) else Undefined
  }

  /** The variable is defined and not empty. */
  predicate IsSet(env: Env, k: string) { k in env && env[k] != "" }

  /** An environment variable is truthy exactly when it is set. */
  lemma TruthyEnv(env: Env, k: string)
    ensures Truthy(EnvValue(env, k)) <==> IsSet(env, k)
  {
  }

  /** The exchange ended with a response of this status. */
  predicate HasStatus(x: Exchange, status: int) {
    x.reply.Responded? && x.reply.response.status == status
  }
}
