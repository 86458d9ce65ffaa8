/**
 * The serverless functions' mail sender (api/_lib/mailer.js): the boolean
 * reading of environment variables, the SMTP transport built from the
 * environment on every call, and the sender and recipient it derives.
 */
module Mailer {
  import opened Wrappers
  import JsText
  import opened JsNumber
  import opened JsValue
  import opened Http

  // ---------------------------------------------------------------------------
  // resolveBool

  /** `resolveBool(v, def)`: the default for a missing or empty value, else whether it spells 1, true or yes. */
  function ResolveBool(v: Value, def: bool): (r: bool)
    ensures v.Undefined? || v.Null? || v == Str("") ==> r == def
  {
    if v.Undefined? || v.Null? || v == Str("") then def
    else
      var s := JsText.LowerAscii(ToStr(v));
      s == "1" || s == "true" || s == "yes"
  }

  /** `s` spells the lower-case word `w`, each letter in either ASCII case. */
  predicate SpellsIgnoringCase(s: string, w: string) {
    |s| == |w| &&
    forall i :: 0 <= i < |s| ==> s[i] == w[i] || (JsText.IsUpperAscii(s[i]) && s[i] as int + 32 == w[i] as int)
  }

  predicate HasNoUpper(w: string) { forall i :: 0 <= i < |w| ==> !JsText.IsUpperAscii(w[i]) }

  /** Lower-casing gives a word without capitals exactly when the text spells it in any case. */
  lemma LowerAsciiSpells(s: string, w: string)
    requires HasNoUpper(w)
    ensures JsText.LowerAscii(s) == w <==> SpellsIgnoringCase(s, w)
  {
    var l := JsText.LowerAscii(s);
    if SpellsIgnoringCase(s, w) {
      assert forall i :: 0 <= i < |s| ==> l[i] == w[i];
    }
    if l == w {
      assert forall i :: 0 <= i < |s| ==> l[i] == w[i];
    }
  }

  /** A non-empty text reads as true exactly when it spells "1", "true" or "yes" in any letter case. */
  lemma ResolveBoolOfText(s: string, def: bool)
    requires s != ""
    ensures ResolveBool(Str(s), def) <==>
              SpellsIgnoringCase(s, "1") || SpellsIgnoringCase(s, "true") || SpellsIgnoringCase(s, "yes")
  {
    LowerAsciiSpells(s, "1");
    LowerAsciiSpells(s, "true");
    LowerAsciiSpells(s, "yes");
  }

  /** An explicit value overrides the default: whatever it spells, the default plays no part. */
  lemma ResolveBoolExplicit(s: string)
    requires s != ""
    ensures ResolveBool(Str(s), true) == ResolveBool(Str(s), false)
  {
  }

  /** "false", "0" and "on" read as false even with a true default; "TRUE" and "Yes" read as true. */
  lemma ResolveBoolExamples()
    ensures !ResolveBool(Str("false"), true) && !ResolveBool(Str("0"), true) && !ResolveBool(Str("on"), true)
    ensures ResolveBool(Str("TRUE"), false) && ResolveBool(Str("Yes"), false)
  {
    ReadsFalse();
    ReadsZero();
    ReadsOn();
    ReadsTrue();
    ReadsYes();
  }

  lemma ReadsFalse() ensures !ResolveBool(Str("false"), true) { LowerFalse(); }
  lemma ReadsZero() ensures !ResolveBool(Str("0"), true) { LowerZero(); }
  lemma ReadsOn() ensures !ResolveBool(Str("on"), true) { LowerOn(); }
  lemma ReadsTrue() ensures ResolveBool(Str("TRUE"), false) { LowerTrue(); }
  lemma ReadsYes() ensures ResolveBool(Str("Yes"), false) { LowerYes(); }

  lemma LowerFalse() ensures |JsText.LowerAscii("false")| == 5 {}
  lemma LowerOn() ensures |JsText.LowerAscii("on")| == 2 {}
  lemma LowerZero() ensures JsText.LowerAscii("0") == "0" { assert JsText.LowerAscii("0")[0] == '0'; }

  lemma LowerTrue()
    ensures JsText.LowerAscii("TRUE") == "true"
  {
    var t := JsText.LowerAscii("TRUE");
    assert t[0] == 't' && t[1] == 'r' && t[2] == 'u' && t[3] == 'e';
  }

  lemma LowerYes()
    ensures JsText.LowerAscii("Yes") == "yes"
  {
    var y := JsText.LowerAscii("Yes");
    assert y[0] == 'y' && y[1] == 'e' && y[2] == 's';
  }

  // ---------------------------------------------------------------------------
  // getTransport

  const MissingSmtpEnvs := "Missing SMTP envs (SMTP_HOST/PORT/SECURE/USER/PASS)"

  /** The four variables the transport cannot be built without; SMTP_SECURE is not among them. */
  predicate HasSmtpConfig(env: Env) {
    IsSet(env, "SMTP_HOST") && IsSet(env, "SMTP_PORT") && IsSet(env, "SMTP_USER") && IsSet(env, "SMTP_PASS")
  }

  /** `getTransport()`: the connection options, or the error it throws. */
  function GetTransport(env: Env): (r: Result<Transport, string>)
    ensures r.Failure? <==> !HasSmtpConfig(env)
    ensures r.Failure? ==> r.error == MissingSmtpEnvs
    ensures r.Success? ==>
      && r.value.host == Some(env["SMTP_HOST"])
      && r.value.user == Some(env["SMTP_USER"])
      && r.value.pass == Some(env["SMTP_PASS"])
      && r.value.port == StringToNumber(env["SMTP_PORT"])
    ensures r.Success? && !IsSet(env, "SMTP_SECURE") ==>
      (r.value.secure <==> StrictEquals(StringToNumber(env["SMTP_PORT"]), FromInt(465)))
    ensures r.Success? && IsSet(env, "SMTP_SECURE") ==>
      r.value.secure == ResolveBool(Str(env["SMTP_SECURE"]), false)
  {
    var host := EnvValue(env, "SMTP_HOST");
    var port := EnvValue(env, "SMTP_PORT");
    var user := EnvValue(env, "SMTP_USER");
    var pass := EnvValue(env, "SMTP_PASS");
    if !Truthy(host) || !Truthy(port) || !Truthy(user) || !Truthy(pass) then
      Failure(MissingSmtpEnvs)
    else
      var p := ToNumber(port);
      var secure := ResolveBool(EnvValue(env, "SMTP_SECURE"), StrictEquals(p, FromInt(465)));
      Success(Transport(Some(host.s), p, secure, Some(user.s), Some(pass.s)))
  }

  /** With SMTP_SECURE unset, the connection is secure exactly when the port reads as the number 465. */
  lemma SecureFollowsPort(env: Env, port: string)
    requires HasSmtpConfig(env) && "SMTP_SECURE" !in env && port != ""
    ensures var t := GetTransport(env["SMTP_PORT" := port]);
      t.Success? && (t.value.secure <==> StrictEquals(StringToNumber(port), FromInt(465)))
  {
    var e := env["SMTP_PORT" := port];
    assert HasSmtpConfig(e) && !IsSet(e, "SMTP_SECURE");
  }

  /** The port text "465" reads as the number 465, so with SMTP_SECURE unset it gives a secure connection. */
  lemma PortReads465()
    ensures StringToNumber("465") == FromInt(465)
  {
    Printed465();
    ParsePrintedNatural(465);
  }

  /** The port text "587" reads as the number 587, so with SMTP_SECURE unset it gives a plain connection. */
  lemma PortReads587()
    ensures StringToNumber("587") == FromInt(587) && !StrictEquals(FromInt(587), FromInt(465))
  {
    Printed587();
    ParsePrintedNatural(587);
  }

  lemma Printed465() ensures NatToDecimal(465) == "465" {}
  lemma Printed587() ensures NatToDecimal(587) == "587" {}

  /** An explicit SMTP_SECURE of "false" gives a plain connection whatever the port, 465 included. */
  lemma ExplicitSecureWins(env: Env)
    requires HasSmtpConfig(env) && "SMTP_SECURE" in env && env["SMTP_SECURE"] == "false"
    ensures !GetTransport(env).value.secure
  {
    LowerFalse();
  }

  // ---------------------------------------------------------------------------
  // sendMail

  /** The fields a handler passes to `sendMail`; `None` stands for a field left undefined. */
  datatype Message = Message(subject: string, text: string, html: Option<string>, replyTo: Option<string>)

  /** Why `sendMail` threw: the transport could not be built, or the provider refused the message. */
  datatype SendError = ConfigError(message: string) | ProviderError(response: string, message: string)

  /** One call of `sendMail`: the id it resolved to, or the error it threw; and the messages handed to the provider. */
  datatype Sent = Sent(outcome: Result<string, SendError>, handedOver: seq<Mail>)

  /** An environment-derived value as the optional text the SMTP library receives. */
  function TextOf(v: Value): Option<string>
  {
    if v.Str? then Some(v.s) else None
  }

  /** `FROM_NAME ? \`${FROM_NAME} <${SMTP_USER}>\` : SMTP_USER` */
  function FromAddress(env: Env): Value
  {
    if Truthy(EnvValue(env, "FROM_NAME")) then
      Str(env["FROM_NAME"] + " <" + ToStr(EnvValue(env, "SMTP_USER")) + ">")
    else EnvValue(env, "SMTP_USER")
  }

  /** `CONTACT_TO || SMTP_USER` */
  function ToAddress(env: Env): Value
  {
    Or(EnvValue(env, "CONTACT_TO"), EnvValue(env, "SMTP_USER"))
  }

  /**
   * `sendMail(msg)`: builds the transport (throwing on a missing variable, before
   * anything is sent), hands one message to the provider, and resolves to its
   * message id or "ok" when the provider gives none.
   */
  function SendMail(env: Env, m: Message, provider: Provider): (r: Sent)
    ensures !HasSmtpConfig(env) ==> r == Sent(Failure(ConfigError(MissingSmtpEnvs)), [])
    ensures HasSmtpConfig(env) ==> |r.handedOver| == 1
    ensures HasSmtpConfig(env) ==>
      var mail := r.handedOver[0];
      && mail.subject == m.subject && mail.text == m.text && mail.html == m.html && mail.replyTo == m.replyTo
      && mail.to == Some(if IsSet(env, "CONTACT_TO") then env["CONTACT_TO"] else env["SMTP_USER"])
      && mail.from == Some(if IsSet(env, "FROM_NAME") then env["FROM_NAME"] + " <" + env["SMTP_USER"] + ">"
                           else env["SMTP_USER"])
    ensures HasSmtpConfig(env) ==>
      var d := provider(GetTransport(env).value, r.handedOver[0]);
      && (r.outcome.Success? <==> d.Accepted?)
      && (d.Accepted? ==> r.outcome.value == (if d.messageId == "" then "ok" else d.messageId))
      && (d.Rejected? ==> r.outcome.error == ProviderError(d.response, d.message))
    ensures r.outcome.Success? ==> r.outcome.value != ""
  {
    var from := FromAddress(env);
    var to := ToAddress(env);
    match GetTransport(env)
    case Failure(e) => Sent(Failure(ConfigError(e)), [])
    case Success(transport) =>
      var mail := Mail(TextOf(from), TextOf(to), m.subject, m.text, m.html, m.replyTo);
      match provider(transport, mail)
      case Accepted(id) => Sent(Success(if id == "" then "ok" else id), [mail])
      case Rejected(response, message) => Sent(Failure(ProviderError(response, message)), [mail])
  }
}
