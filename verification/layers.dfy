/**
 * The contact and testimonial rules side by side: the browser form
 * (Contact.js), the client helpers (api.js), the serverless handlers (api/)
 * and the Express routes (server/index.js) each check their input on their
 * own, and the lemmas here state where they disagree.
 */
module Layers {
  import opened Wrappers
  import JsText
  import opened JsNumber
  import opened JsValue
  import ServerUtils
  import ContactForm
  import ClientApi
  import ContactHandler
  import TestimonialHandler
  import ExpressServer

  // ---------------------------------------------------------------------------
  // Message length

  /**
   * A trimmed message of three to nine characters is refused by the form,
   * but the client helper and the serverless handler both let it through.
   */
  lemma ShortMessageLayers(f: ContactForm.Form, name: string, email: string)
    requires var t := JsText.Trim(f.message); 3 <= JsText.Length(t) < 10
    requires name != "" && ServerUtils.IsEmail(Str(email))
    ensures ContactForm.ErrorsOf(f).message == Some(ContactForm.MessageShort)
    ensures !ClientApi.MessageTooShort(Str(JsText.Trim(f.message)))
    ensures ContactHandler.Validate(ContactHandler.Fields(name, email, f.phone, f.subject, JsText.Trim(f.message))) == None
  {
    ClientApi.MessageLengthRule(JsText.Trim(f.message));
  }

  /**
   * A message above 5000 characters passes the form and the serverless
   * handler, which has no upper bound, but the Express route answers 413.
   */
  lemma OversizeMessageLayers(f: ContactForm.Form, name: string, email: string, c: ExpressServer.ContactBody)
    requires JsText.Length(JsText.Trim(f.message)) > ExpressServer.MaxMessage
    requires name != "" && ServerUtils.IsEmail(Str(email))
    requires ExpressServer.HasRequired(c) && ExpressServer.EmailMatches(c) && c.message == Str(JsText.Trim(f.message))
    ensures ContactForm.ErrorsOf(f).message == None
    ensures ContactHandler.Validate(ContactHandler.Fields(name, email, f.phone, f.subject, JsText.Trim(f.message))) == None
    ensures ExpressServer.ContactCheck(c) == Some(ExpressServer.Refusal(413, ExpressServer.TooLarge))
  {
    ExpressServer.MessageCapIff(c, JsText.Trim(f.message));
  }

  // ---------------------------------------------------------------------------
  // Subject

  /**
   * An empty subject: the form refuses it, the client helper does not look at
   * it, the serverless handler replaces it with its default, and the Express
   * route refuses the request as missing a field.
   */
  lemma EmptySubjectLayers(f: ContactForm.Form, c: ClientApi.ContactFields, s: string, body: Value, e: ExpressServer.ContactBody)
    requires f.subject == "" && body.Obj? && "subject" !in body.props && e.subject == Str("")
    ensures ContactForm.ErrorsOf(f).subject == Some(ContactForm.SubjectMissing)
    ensures ClientApi.ContactCheck(c) == ClientApi.ContactCheck(c.(subject := Str(s)))
    ensures ContactHandler.Clean(body).subject == ContactHandler.DefaultSubject
    ensures ExpressServer.ContactCheck(e) == Some(ExpressServer.Refusal(400, ExpressServer.MissingFields))
  {
    FormNeedsSubject(f);
    ClientIgnoresSubject(c, s);
    MissingSubjectDefaults(body);
    ExpressNeedsSubject(e);
  }

  lemma FormNeedsSubject(f: ContactForm.Form)
    requires f.subject == ""
    ensures ContactForm.ErrorsOf(f).subject == Some(ContactForm.SubjectMissing)
  {
    EmptyTrims(f.subject);
  }

  lemma ClientIgnoresSubject(c: ClientApi.ContactFields, s: string)
    ensures ClientApi.ContactCheck(c) == ClientApi.ContactCheck(c.(subject := Str(s)))
  {
  }

  lemma ExpressNeedsSubject(e: ExpressServer.ContactBody)
    requires e.subject == Str("")
    ensures ExpressServer.ContactCheck(e) == Some(ExpressServer.Refusal(400, ExpressServer.MissingFields))
  {
  }

  lemma EmptyTrims(s: string)
    requires s == []
    ensures JsText.Trim(s) == []
  {
  }

  /** A body without a subject gets the handler's default subject. */
  lemma MissingSubjectDefaults(body: Value)
    requires body.Obj? && "subject" !in body.props
    ensures ContactHandler.Clean(body).subject == ContactHandler.DefaultSubject
  {
    assert GetOr(body, "subject", Str("")) == Str("");
    EmptyTrims("");
  }

  // ---------------------------------------------------------------------------
  // Address

  /** An address of the expected shape has no white space, in particular none at its ends. */
  lemma ShapedIsTrimmed(a: string)
    requires ServerUtils.EmailShape(a)
    ensures a != [] && JsText.IsTrimmed(a)
  {
    var at := ServerUtils.IndexOf(a, '@');
    assert a[0] == a[..at][0];
    var d := a[at + 1..];
    assert a[|a| - 1] == d[|d| - 1];
  }

  /** One space in front of trimmed text is all that `trim` removes. */
  lemma TrimLeadingSpace(a: string)
    requires a != [] && JsText.IsTrimmed(a)
    ensures JsText.Trim(" " + a) == a
  {
    var s := " " + a;
    assert s[1..] == a;
    assert JsText.TrimStart(a) == a;
    assert JsText.TrimStart(s) == a;
    JsText.TrimOfTrimmed(a);
  }

  /**
   * A well-formed address typed with a space in front: the form marks it
   * invalid, the client helper sends it trimmed, the serverless handler
   * accepts it either way, and the Express route refuses it unless trimmed.
   */
  lemma SpacedAddressLayers(f: ContactForm.Form, address: string, e: ExpressServer.ContactBody)
    requires ServerUtils.EmailShape(address) && f.email == " " + address
    requires ExpressServer.HasRequired(e) && e.email == Str(" " + address)
    ensures ContactForm.ErrorsOf(f).email == Some(ContactForm.EmailInvalid)
    ensures ClientApi.TrimIfString(Str(f.email)) == Str(address)
    ensures ServerUtils.IsEmail(Str(f.email)) && ServerUtils.IsEmail(Str(address))
    ensures ExpressServer.ContactCheck(e) == Some(ExpressServer.Refusal(400, ExpressServer.InvalidEmail))
    ensures ExpressServer.EmailMatches(e.(email := Str(address)))
  {
    ShapedIsTrimmed(address);
    TrimLeadingSpace(address);
    ContactForm.SpacedAddressIsError(f);
    ServerUtils.IsEmailOfString(f.email);
    ServerUtils.IsEmailOfString(address);
    JsText.TrimOfTrimmed(address);
    ExpressServer.LeadingSpaceRefused(e, address);
  }

  /** The client helper only asks for a non-empty address, where the form and the handlers match it against the expression: text without an '@' passes it. */
  lemma ClientAcceptsAnyAddress(c: ClientApi.ContactFields, name: string, address: string, message: string)
    requires c.name == Str(name) && c.email == Str(address) && c.message == Str(message)
    requires name != "" && address != "" && '@' !in address && JsText.Length(message) >= 3
    ensures ClientApi.ContactCheck(c) == None
    ensures !ServerUtils.EmailShape(address)
  {
    ClientApi.NoEmailFormatCheck(c, name, address, message);
  }

  // ---------------------------------------------------------------------------
  // Rating

  lemma NullClampsToOne()
    ensures ServerUtils.Clamp(Null, 1, 5) == FromInt(1)
  {
    MagnitudeOfInt(0);
    MagnitudeOfInt(1);
    assert Less(ToNumber(Null), FromInt(1));
  }

  /**
   * A `null` rating: the client helper sends 5, the serverless handler
   * stores 1 (`Number(null)` is 0, clamped up), and the Express route keeps
   * `null` and prints it.
   */
  lemma NullRatingLayers(props: map<string, Value>)
    requires "rating" in props && props["rating"] == Null
    ensures StrictEquals(ClientApi.ClientRating(Obj(props)), FromInt(5))
    ensures TestimonialHandler.Clean(Obj(props)).rating == FromInt(1)
    ensures ExpressServer.TestimonialOf(Obj(props)).rating == Null
  {
    ClientApi.NullRatingSentAsFive(Obj(props));
    NullClampsToOne();
    ExpressServer.RatingDefault(props);
  }
}
