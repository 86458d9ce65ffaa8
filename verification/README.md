# Kreative Sparkles site: a Dafny model of its logic

The site is a React front end with three small mail-sending back ends. There are
three serverless handlers, for contact, testimonials and newsletter subscribe.
There is also an Express server that offers the same routes with rules of its own.
Most of the code is presentation. This project models the part that decides
something:

- **Server utilities** (`ServerUtils`, `utils.dfy`): `trim`, the e-mail regular
  expression `^[^\s@]+@[^\s@]+\.[^\s@]+$` after trimming, `clamp`, `escapeHtml`,
  the `ok`/`bad` response shapes and `parseJson`.
- **Serverless handlers** (`ContactHandler`, `TestimonialHandler`, `SubscribeHandler`).
  Each handler is a pure function from the request, a JSON parser, the environment
  and the SMTP provider to an `Exchange`. An `Exchange` holds the response and
  the mails handed to the provider.
- **Mail configuration** (`Mailer`): `resolveBool`, the four required SMTP
  variables, the `secure` fallback to port 465, the `from`/`to` addresses and the
  message id `sendMail` returns.
- **Client helpers** (`ClientApi`):
  - path `join` and API base resolution;
  - `trimIfString` and `clamp`;
  - the checks in `sendContact` and `submitTestimonial`;
  - how `request` reads a response and picks its error message.
- **Express variant** (`ExpressServer`):
  - the SMTP settings and the list of missing variables;
  - the contact and testimonial routes;
  - the order in which routes are matched, including the JSON 404 under `/api`,
    the router's automatic OPTIONS answer and the 404 page for everything else.
- **Forms on the page**:
  - the contact form's error map, submit guard and page state (`ContactForm`);
  - the footer newsletter form (`FooterForm`);
  - the testimonial page's avatars, stars, fallbacks and submit form (`TestimonialPage`).
- **Blog data** (`Blog`): the int32 string hash, the cover picker, author
  initials, post normalisation and the typing-animation counter.
- **Small UI state**: the service tab filter (`Services`) and the hero header's
  slides, icons and labels (`Hero`).
- **The validation layers side by side** (`Layers`). Lemmas name inputs on which
  the browser form, the client helper, the serverless handler and the Express
  route answer differently.

Some modules carry the JavaScript semantics the site relies on:

- `JsValue`: values, truthiness, `||`, `??` and property access.
- `JsNumber`: `Number(...)` on strings, the way numbers print, and `<`.
- `JsText`: `trim`, `split`/`join`, `toLowerCase` on ASCII, and UTF-16 length.
- `Validation`: first-failing-rule chains.
- `Lists`: filter and subsequence.
- `Http`: requests, responses and the environment.

Whitespace for `trim` and `\s` is the ECMAScript set, which includes U+FEFF and
the Unicode space separators.

Some effects are parameters of the model:

- the SMTP provider is a function `(Transport, Mail) -> Delivery`;
- `fetch` is a function returning `Aborted`, `NetworkFailure` or a received response;
- `JSON.parse` is a function `string -> Option<Value>`;
- `encodeURIComponent` is a function `string -> string`;
- the elapsed time, the current time and the outcome of a handler the page
  calls are plain arguments.

Two behaviours of the code are easy to miss:

- The subscribe endpoint answers `GET` with 200 `{ok:true}` and sends no mail.
  It does not answer 405.
- The serverless mail transport is built again inside every `sendMail` call, so
  a missing variable surfaces as a 500 on each request. It is not built once at
  start-up.

## Model

| member | source | states |
|---|---|---|
| ServerUtils.ParseJson | api/_lib/utils.js:1-4 | an object or array body is returned as is; a missing or falsy body gives `{}`; any other body is parsed from its string form, and an unparsable one gives `{}`; no case throws |
| ServerUtils.Trim | api/_lib/utils.js:6 | a non-string gives ""; a string gives its ECMAScript trim; the result never starts or ends with white space |
| ServerUtils.TrimIdempotent | api/_lib/utils.js:6 | trimming the result of `trim` again changes nothing |
| ServerUtils.Field | api/contact.js:8-15 | a field read with default "" and then trimmed is always trimmed text |
| ServerUtils.FieldOfTrimmed | api/contact.js:8-15 | a field that is already trimmed text comes back unchanged |
| ServerUtils.EmailShapeIsRegex | api/_lib/utils.js:5 | the executable shape check accepts exactly the strings the regular expression matches: one '@', plain text before it, and a '.' inside the domain |
| ServerUtils.EmailShapeOfParts | api/_lib/utils.js:5 | `L@D` has the shape iff L is non-empty, neither part has white space or '@', and D has a '.' that is neither its first nor its last character |
| ServerUtils.FalsyIsNotEmail | api/_lib/utils.js:5 | undefined, null, "", 0, NaN and false are never addresses |
| ServerUtils.IsEmailIsRegex | api/_lib/utils.js:5 | `isEmail(v)` holds iff the regular expression matches the trimmed `String(v \|\| "")` |
| ServerUtils.IsEmailIgnoresTrim | api/_lib/utils.js:5 | `isEmail(s) == isEmail(trim(s))` |
| ServerUtils.IsEmailOfString | api/_lib/utils.js:5 | on text, `isEmail` is the shape check of the trimmed text |
| ServerUtils.Clamp | api/_lib/utils.js:7 | NaN gives `min`; with min ≤ max the result lies in [min, max]; a value already in range is kept; a value above or below is moved to the nearer bound |
| ServerUtils.EscapeHtmlSafe | api/_lib/utils.js:8-10 | escaped text has no '<', '>', '"' or "'", and every '&' in it begins one of the five entities |
| ServerUtils.EscapeHtmlConcat | api/_lib/utils.js:8-10 | escaping distributes over concatenation |
| ServerUtils.EscapeHtmlIdentity | api/_lib/utils.js:8-10 | text without the five special characters is unchanged |
| ServerUtils.EscapeHtmlLength | api/_lib/utils.js:8-10 | escaping never shortens its input |
| ServerUtils.EscapeHtmlRoundTrip | api/_lib/utils.js:8-10 | decoding the five entities gives back the original text |
| ServerUtils.EscapeHtmlInjective | api/_lib/utils.js:8-10 | distinct inputs give distinct outputs |
| ServerUtils.EscapedHasNoBrackets | api/_lib/utils.js:8-10 | escaped text contains no '<' and no '>' at all |
| ServerUtils.PrintedNumberNeedsNoEscape | api/testimonials.js:32 | a printed number, which the handler interpolates without escaping, has no character `escapeHtml` would change |
| ServerUtils.Ok | api/_lib/utils.js:11 | status 200 and a JSON object whose keys are "ok" plus the data's keys; the data's values are kept, and "ok" is true unless the data sets it |
| ServerUtils.OkDefault | api/_lib/utils.js:11 | `ok(res)` with no data answers 200 with exactly `{ok:true}` |
| ServerUtils.Bad | api/_lib/utils.js:12 | status `code` and the body `{error: msg}` only |
| ServerUtils.BadRequest | api/_lib/utils.js:12 | the default code is 400 |
| Mailer.ResolveBool | api/_lib/mailer.js:4-8 | undefined, null and "" give the default |
| Mailer.ResolveBoolOfText | api/_lib/mailer.js:4-8 | non-empty text reads true iff it spells "1", "true" or "yes" in any letter case |
| Mailer.ResolveBoolExplicit | api/_lib/mailer.js:4-8 | for non-empty text the default plays no part, so an explicit other value is false even when the default is true |
| Mailer.ResolveBoolExamples | api/_lib/mailer.js:4-8 | "false", "0" and "on" read false over a true default; "TRUE" and "Yes" read true over a false default |
| Mailer.GetTransport | api/_lib/mailer.js:10-21 | fails, with the fixed message, iff one of SMTP_HOST, SMTP_PORT, SMTP_USER or SMTP_PASS is missing or empty, while SMTP_SECURE is optional; otherwise host, user and password are passed through, and the port is `Number(SMTP_PORT)`; `secure` is `port === 465` when SMTP_SECURE is unset or empty, else `resolveBool(SMTP_SECURE)` |
| Mailer.SecureFollowsPort | api/_lib/mailer.js:18 | without SMTP_SECURE, the connection is secure iff the port reads as 465 |
| Mailer.ExplicitSecureWins | api/_lib/mailer.js:18 | SMTP_SECURE="false" gives a plain connection whatever the port |
| Mailer.SendMail | api/_lib/mailer.js:23-31 | a missing variable fails before anything is handed over; otherwise exactly one mail goes to the provider with the caller's subject, text, html and reply-to; it goes to CONTACT_TO, falling back to SMTP_USER, from "FROM_NAME <SMTP_USER>" or SMTP_USER; the result is the provider's message id, "ok" when it has none, or the provider's error |
| ContactHandler.CleanShape | api/contact.js:8-15 | every cleaned field is trimmed and the subject is never empty |
| ContactHandler.CleanEmptyBody | api/contact.js:8-15 | an empty body cleans to empty fields with the default subject |
| ContactHandler.CleanOfClean | api/contact.js:8-15 | a clean record sent as a body comes back unchanged |
| ContactHandler.CleanFixedPoints | api/contact.js:8-15 | a record is a fixed point of cleaning iff every field is trimmed and the subject is non-empty |
| ContactHandler.ValidateIsFirstFailure | api/contact.js:17-19 | the error is that of the first failing rule among name, address and message length |
| ContactHandler.MessageAcceptedIff | api/contact.js:19 | with a valid name and address, the record is accepted iff the message is at least 3 UTF-16 code units long |
| ContactHandler.FieldPieces | api/contact.js:28-36 | name, address, phone, subject and message all reach the HTML body only through `escapeHtml` |
| ContactHandler.HtmlMarkupFixed | api/contact.js:28-36 | the number of '<' and '>' in the HTML body depends only on whether a phone is given, so user text cannot add markup |
| ContactHandler.PhoneLineInText | api/contact.js:23 | a phone adds exactly the line "Phone: …" after the address line of the text body, and changes nothing else |
| ContactHandler.PhoneParagraphInHtml | api/contact.js:32 | a phone adds exactly its paragraph to the HTML body, and changes nothing else |
| ContactHandler.Handle | api/contact.js:4-49 | OPTIONS gives an empty 200; any other method except POST gives 405 without reading the body; a body that parses to null crashes the handler; any other POST goes on with the cleaned fields; at most one mail is sent, only for a valid record, with reply-to the trimmed address and subject "Contact • " plus the subject |
| ContactHandler.Submit | api/contact.js:17-47 | at most one mail, only when every check passes, with reply-to the address and subject "Contact • " plus the subject; a 200 answer means a mail was handed over |
| ContactHandler.RejectedSendsNothing | api/contact.js:17-19 | a failing rule answers 400 with that rule's message and sends nothing |
| ContactHandler.AcceptedSendsOnce | api/contact.js:38-44 | a valid record hands over exactly one mail with the text and HTML bodies and reply-to set; the answer is `{ok:true}` iff the provider accepts it |
| ContactHandler.SendFailureHidesDetail | api/contact.js:45-47 | whatever the provider's error says, the answer is the same fixed 500 |
| ContactHandler.MissingConfigAnswers500 | api/contact.js:38-47 | missing SMTP settings answer the fixed 500 and hand nothing over |
| TestimonialHandler.RatingBounds | api/testimonials.js:8-13 | the stored rating always lies in [1, 5]; an in-range rating is kept; a missing one gives 5; a non-numeric one gives 1; one above 5 gives 5 |
| TestimonialHandler.ValidateIsFirstFailure | api/testimonials.js:16-17 | the error is that of the first failing rule, name before quote |
| TestimonialHandler.AcceptedIff | api/testimonials.js:16-17 | an entry is accepted iff its trimmed name and quote are both non-empty |
| TestimonialHandler.OrDash | api/testimonials.js:22 | what the text body shows for a field is never empty |
| TestimonialHandler.MissingReadsAsDash | api/testimonials.js:22-24 | in the text body an empty role reads like a role of "-", and the same holds for the avatar |
| TestimonialHandler.VariablePieces | api/testimonials.js:30-35 | name, role, avatar and quote are escaped; the rating is printed as a number; role and avatar paragraphs appear only when non-empty |
| TestimonialHandler.HtmlMarkupFixed | api/testimonials.js:28-36 | the number of '<' and '>' depends only on whether role and avatar are given, and the printed rating needs no escaping |
| TestimonialHandler.RoleParagraphInHtml | api/testimonials.js:31 | a role adds exactly its paragraph to the HTML body |
| TestimonialHandler.AvatarParagraphInHtml | api/testimonials.js:33 | an avatar adds exactly its paragraph to the HTML body |
| TestimonialHandler.Handle | api/testimonials.js:4-45 | OPTIONS gives an empty 200; any other method except POST gives 405; a body that parses to null crashes the handler; any other POST goes on with the cleaned entry; at most one mail, only for a valid entry, with the fixed subject "Testimonial • New submission" and no reply-to |
| TestimonialHandler.Submit | api/testimonials.js:16-44 | at most one mail, only when both checks pass, with the fixed subject and no reply-to; a 200 answer means a mail was handed over |
| TestimonialHandler.RejectedSendsNothing | api/testimonials.js:16-17 | a failing rule answers 400 with its message and sends nothing |
| TestimonialHandler.AcceptedSendsOnce | api/testimonials.js:38-40 | a valid entry hands over exactly one mail with both bodies; the answer is `{ok:true}` iff the provider accepts it |
| TestimonialHandler.SendFailureAnswers500 | api/testimonials.js:41-43 | missing settings or a provider error give the fixed 500 |
| SubscribeHandler.Preflight | api/subscribe.js:8-13 | 204 with no body and exactly the Allow, Access-Control-Allow-Methods and Access-Control-Allow-Headers headers |
| SubscribeHandler.WithAllow | api/subscribe.js:15-23 | adds the Allow header and keeps status, body and the other headers |
| SubscribeHandler.AddressIn | api/subscribe.js:26-27 | the address read from the body is always trimmed |
| SubscribeHandler.AddressOfText | api/subscribe.js:27 | a text `email` is trimmed |
| SubscribeHandler.AddressOfOther | api/subscribe.js:27 | a missing or non-text `email` reads as "" |
| SubscribeHandler.Handle | api/subscribe.js:5-41 | OPTIONS gives the preflight; GET gives 200 `{ok:true}` with Allow and sends nothing; other methods except POST give 405 with Allow; POST goes on with the trimmed address |
| SubscribeHandler.Submit | api/subscribe.js:25-40 | at most one mail, only for an accepted address, with the fixed subject, the address in its text, the raw unescaped address in its HTML, and no reply-to |
| SubscribeHandler.SubmitEscaped | api/subscribe.js:25-40 | the same endpoint with the address escaped in the HTML: at most one mail, only for an accepted address, whose HTML is the escaped rendering |
| SubscribeHandler.Deliver | api/subscribe.js:28-39 | a refused address sends nothing; otherwise the one mail handed over carries the given message's subject, text, HTML and reply-to |
| SubscribeHandler.EscapingChangesOnlyHtml | api/subscribe.js:30-34 | for an accepted address, the escaped endpoint hands over the same mail as the handler except for its HTML |
| SubscribeHandler.MarkupReachesMail | api/subscribe.js:33 | with "<b>@x.io" the mail the handler hands over holds more '<' than the escaped endpoint's |
| SubscribeHandler.EscapedMailMarkupFixed | api/subscribe.js:33 | with the escaped endpoint, the HTML of every accepted address's mail holds the same number of '<' and of '>' |
| SubscribeHandler.InvalidSendsNothing | api/subscribe.js:28 | an address `isEmail` refuses gives 400 and sends nothing |
| SubscribeHandler.ValidSendsOnce | api/subscribe.js:30-36 | an accepted address hands over exactly one mail, with the address in its text and unescaped in its HTML; the answer is `{ok:true}` iff the provider accepts it |
| SubscribeHandler.MissingConfigAnswers500 | api/subscribe.js:37-39 | missing settings give the fixed 500 and hand nothing over |
| SubscribeHandler.AddressFromText | api/subscribe.js:32 | the text body is the fixed lead followed by the address, so the address can be read back |
| SubscribeHandler.AsWrittenMarkup | api/subscribe.js:33 | the unescaped HTML body has as many '<' as the escaped one plus those of the address |
| SubscribeHandler.AcceptedAddressAddsMarkup | api/subscribe.js:33 | an address that starts with '<' passes `isEmail` and adds markup to the unescaped HTML body |
| SubscribeHandler.MarkupExample | api/subscribe.js:33 | "<b>@x.io" is accepted and adds a tag to the unescaped body |
| SubscribeHandler.HtmlMarkupFixed | api/subscribe.js:33 | once the address is escaped, the number of '<' and '>' in the body is the same for every address |
| SubscribeHandler.AddressFromHtml | api/subscribe.js:33 | the escaped body still carries the address: decoding its middle gives it back |
| ClientApi.DropTrailingSlashes | src/utils/api.js:23 | removes exactly the run of '/' at the end |
| ClientApi.DropLeadingSlashes | src/utils/api.js:23 | removes exactly the run of '/' at the start |
| ClientApi.JoinSeam | src/utils/api.js:22-24 | the joined URL is base without its trailing '/'s, one '/', and path without its leading '/'s; the removed parts are slashes only |
| ClientApi.JoinIgnoresExtraSlashes | src/utils/api.js:22-24 | an extra '/' at the end of the base or the start of the path does not change the result |
| ClientApi.JoinPlain | src/utils/api.js:22-24 | with no slashes at the seam, join puts exactly one '/' between base and path |
| ClientApi.ResolveBase | src/utils/api.js:11-17 | the resolved base is always trimmed |
| ClientApi.BaseResolution | src/utils/api.js:11-17 | the trimmed build-time value if non-empty, else the trimmed runtime value if truthy, else "" |
| ClientApi.GetApiBase | src/utils/api.js:141-144 | throws the missing-base error iff the base is empty, else returns it |
| ClientApi.ErrorMessageOrder | src/utils/api.js:68-73 | the error message is the first truthy of JSON `error`, JSON `message`, text body, "Request failed with status N" |
| ClientApi.ErrorMessageCases | src/utils/api.js:68-73 | the message in each case: JSON error, JSON message, non-empty text, or the status fallback for empty text |
| ClientApi.ReadResponse | src/utils/api.js:63-76 | resolves iff the status is 2xx; a non-JSON success is wrapped as `{ok:true, data}`; a JSON success is the parsed body, `{}` when unparsable |
| ClientApi.TextErrorReported | src/utils/api.js:71-72 | a failed non-JSON response reports its text, or the status fallback when the text is empty |
| ClientApi.Request | src/utils/api.js:36-77 | an empty base throws before any fetch; an abort throws the time-out message; a network failure throws the network message; a received response is read as above, at `join(BASE, path)` |
| ClientApi.TrimIfString | src/utils/api.js:90-92 | trims strings and returns every other value unchanged |
| ClientApi.TrimIfStringIdempotent | src/utils/api.js:90-92 | applying it twice is applying it once |
| ClientApi.Clamp | src/utils/api.js:95-99 | NaN gives `min`; with min ≤ max the result lies in [min, max]; a value already in range is kept; and the client `clamp` agrees with the server one on every input |
| ClientApi.ContactClean | src/utils/api.js:106-112 | phone and subject are never undefined |
| ClientApi.ContactDefaults | src/utils/api.js:109-110 | missing phone and subject become "" |
| ClientApi.ContactCheckIsFirstFailure | src/utils/api.js:114-116 | checks run in the order name present, address present, message at least 3 long, and the first failure is reported |
| ClientApi.MessageLengthRule | src/utils/api.js:116 | a text message is too short iff it has fewer than 3 UTF-16 code units |
| ClientApi.NoEmailFormatCheck | src/utils/api.js:114-116 | any non-empty address passes, with no format check |
| ClientApi.SendContact | src/utils/api.js:105-119 | a null payload throws a type error; otherwise the payload is cleaned and posted |
| ClientApi.PostContact | src/utils/api.js:114-118 | a failed check throws its message |
| ClientApi.ContactRejectedBeforeRequest | src/utils/api.js:114-118 | a failed check gives the same result whatever the base and network, so no request is made |
| ClientApi.ContactPosted | src/utils/api.js:118 | a passing record is posted to "/api/contact" as its JSON |
| ClientApi.ClientRating | src/utils/api.js:130 | the rating sent always lies in [1, 5] |
| ClientApi.NullRatingSentAsFive | src/utils/api.js:130 | a null or missing rating is sent as 5 |
| ClientApi.TestimonialCheck | src/utils/api.js:134-135 | the first failure of name present, then quote present |
| ClientApi.SubmitTestimonial | src/utils/api.js:125-138 | a null payload throws a type error; otherwise the payload is cleaned and posted |
| ClientApi.PostTestimonial | src/utils/api.js:134-137 | a failed check throws its message; otherwise the entry is posted to "/api/testimonials" |
| ExpressServer.Missing | server/index.js:94-102 | the required variables that are unset or empty, in list order, and no others |
| ExpressServer.NothingMissingIff | server/index.js:102-103 | nothing is missing iff every required variable is set |
| ExpressServer.SmtpPort | server/index.js:111 | `Number(SMTP_PORT)`, with 465 when unset |
| ExpressServer.ServerTransport | server/index.js:111-120 | `secure` iff the port is 465; the host defaults to smtp.gmail.com; user and password are passed through |
| ExpressServer.DefaultPortIsSecure | server/index.js:111-115 | without a port the server uses 465 over TLS, while the serverless transport refuses to start |
| ExpressServer.Port587IsPlain | server/index.js:115 | port 587 gives a plain connection |
| ExpressServer.SecureVariableIgnored | server/index.js:111-120 | SMTP_SECURE has no effect on the server's transport |
| ExpressServer.Fail | server/index.js:151 | a refusal is `{ok:false, message}` with its code |
| ExpressServer.ErrorText | server/index.js:188 | the provider's response text, else the error message, else "Mail send failed"; never empty |
| ExpressServer.Deliver | server/index.js:176-190 | exactly the one mail is handed over; acceptance gives `{ok:true}`, rejection gives 500 with the error text |
| ExpressServer.ProviderDetailEchoed | server/index.js:186-189 | the provider's own error text reaches the client |
| ExpressServer.ContactCheck | server/index.js:148-158 | accepted iff all four fields are truthy, the untrimmed address matches, and the message is at most 5000 code units; 413 for a long message, 400 otherwise |
| ExpressServer.ContactCheckIsFirstFailure | server/index.js:148-158 | required fields are checked first, then the address, then the size |
| ExpressServer.MessageCapIff | server/index.js:156-158 | with the other checks passed, accepted iff the message has at most 5000 code units, so exactly 5000 passes; else 413 |
| ExpressServer.LeadingSpaceRefused | server/index.js:153-155 | an address with a space in front is refused as invalid |
| ExpressServer.ContactMail | server/index.js:177-183 | subject "Contact: subject — name", reply-to the address as sent, from SMTP_FROM, to SMTP_TO, no HTML |
| ExpressServer.Contact | server/index.js:143-192 | a refused body is answered with its code and sends nothing; an accepted one is delivered |
| ExpressServer.TestimonialCheck | server/index.js:199-203 | accepted iff name and quote are truthy, else 400 "Name and quote are required" |
| ExpressServer.RatingNotClamped | server/index.js:198 | a rating above 5 is kept as sent, where the serverless handler stores 5 |
| ExpressServer.RatingDefault | server/index.js:198 | a missing rating is 5, while a null one stays null |
| ExpressServer.TestimonialMail | server/index.js:221-227 | the subject carries the name; reply-to is SMTP_TO; no HTML |
| ExpressServer.Testimonial | server/index.js:195-236 | a refused body gets 400 and sends nothing; an accepted one is delivered |
| ExpressServer.ApiAnswersJson | server/index.js:238-242 | every path under /api gets a JSON answer, never the page |
| ExpressServer.OnlyPostsSend | server/index.js:143-236 | mail is sent only for POST to the contact or testimonial route |
| ExpressServer.ProbeOutsideApi | server/index.js:76 | the devtools probe path is not under /api |
| ExpressServer.MatchedApiRoute | server/index.js:239 | every /api/ route the server registers lies under the /api catch-all |
| ExpressServer.UnknownApiPath | server/index.js:239-242 | an unknown /api path gets 404 `{ok:false, message:"Not found"}` |
| ExpressServer.PagePath | server/index.js:252-254 | a GET for any other path gets the single-page entry |
| ExpressServer.Dispatch | server/index.js:76-254 | every request is answered, and at most one mail is handed over |
| ExpressServer.AutomaticOptions | server/index.js:252 | the router's own OPTIONS answer: 200, only the `Allow` header, and the same method list as its body |
| ExpressServer.Unhandled | server/index.js:76-254 | a request no route takes gets 404 and the error page, whose message ends with the path |
| ExpressServer.ProbeIsPagePath | server/index.js:76-78 | the devtools probe path is also a path the page route takes |
| ExpressServer.OptionsOutsideApi | server/index.js:252-254 | OPTIONS for a page path outside /api gets 200 with `Allow: GET,HEAD` and sends nothing |
| ExpressServer.UnmatchedOutsideApi | server/index.js:143-254 | outside /api, any method other than GET and HEAD gets the 404 page, except OPTIONS for a page path; nothing is sent |
| ContactForm.ErrorsOf | src/components/Contact.js:157-164 | each error, when present, is its field's fixed message |
| ContactForm.ErrorCount | src/components/Contact.js:175 | at most four errors, none iff the map is empty |
| ContactForm.NoErrorsIff | src/components/Contact.js:157-164 | no errors iff name and subject are not all white space, the untrimmed address matches, and the trimmed message has at least 10 code units |
| ContactForm.PhoneIgnored | src/components/Contact.js:157-164 | the phone never affects the errors |
| ContactForm.SpacedAddressIsError | src/components/Contact.js:160 | an address typed with leading white space is an error |
| ContactForm.FieldError | src/components/Contact.js:141-144 | shown iff the field is touched and the error is non-empty, and then it shows that error |
| ContactForm.ErrorShownIff | src/components/Contact.js:141-144 | the same for each field of the error map |
| ContactForm.Submit | src/components/Contact.js:169-178 | a honeypot blocks first, then under 3 seconds blocks; the form is submitted iff neither applies and it is valid, and it is submitted as typed; otherwise all five fields are marked touched |
| ContactForm.RefusedShowsEveryError | src/components/Contact.js:175-176 | after a refused submit every field's error is visible |
| ContactForm.BeginSubmit | src/components/Contact.js:477-479 | the error is cleared and submitting is set |
| ContactForm.FinishSubmit | src/components/Contact.js:486-491 | submitting is always reset; success sets submitted; failure sets the fixed message |
| ContactForm.HideThanks | src/components/Contact.js:492 | the thank-you flag is cleared and nothing else changes |
| ContactForm.SubmissionSettles | src/components/Contact.js:476-495 | a whole submission ends not submitting, with an error iff it failed, and submitted after a success |
| FooterForm.AcceptsAsEndpoint | src/components/Footer.js:45-46 | the footer accepts exactly the addresses the subscribe endpoint accepts |
| FooterForm.Submit | src/components/Footer.js:41-61 | a refused address gives the fixed "err" notice and makes no call; an accepted one is sent trimmed |
| FooterForm.Settle | src/components/Footer.js:51-60 | submitting is always reset; success clears the field and shows the "ok" notice; failure keeps the field and shows the thrown message or the fallback |
| FooterForm.NoticeForgetsPrevious | src/components/Footer.js:43 | the notice after a submit does not depend on the notice before it |
| FooterForm.RefusedMakesNoCall | src/components/Footer.js:45-49 | a refused address gives the same state whatever the subscribe function would do |
| FooterForm.AsWrittenNeverSubscribes | src/components/Footer.js:10 | where the bundler leaves the missing import undefined, every submit ends in an "err" notice, and an accepted address shows the type error's message (a build that checks named exports fails instead) |
| FooterForm.WorkingRequestSubscribes | src/components/Footer.js:51-55 | with a working request, an accepted address that the endpoint takes ends with the field cleared and the "ok" notice |
| TestimonialPage.Headshots | src/components/T.js:27-35 | the seven head-shot URLs, in order |
| TestimonialPage.DefaultAvatar | src/components/T.js:36 | always one of the head shots |
| TestimonialPage.DefaultAvatarPeriodic | src/components/T.js:36 | cards seven apart get the same head shot |
| TestimonialPage.DefaultAvatarDistinct | src/components/T.js:27-36 | the first seven cards get seven different head shots |
| TestimonialPage.ModalAvatarDiffers | src/components/T.js:115 | without its own picture, an item shows the same face in the modal as on its card iff its position is a multiple of 7 |
| TestimonialPage.ShownRating | src/components/T.js:203 | the shown rating is never null or undefined |
| TestimonialPage.Stars | src/components/T.js:50-61 | exactly five stars, star i filled iff i < n, with n = 5 when not given |
| TestimonialPage.StarsOfWhole | src/components/T.js:56 | for a whole rating k, the filled stars are exactly the first k |
| TestimonialPage.StarsOfNaN | src/components/T.js:56 | a rating that is not a number fills no star |
| TestimonialPage.MissingRatingShowsFive | src/components/T.js:124 | a missing or null rating shows five filled stars |
| TestimonialPage.DemoItems | src/components/T.js:525-562 | six demo items |
| TestimonialPage.DemoRatingsPresent | src/components/T.js:525-562 | every demo item has its own rating |
| TestimonialPage.Items | src/components/T.js:521-564 | given items are shown as given; none gives the six demo items; the grid is never empty |
| TestimonialPage.Logos | src/components/T.js:177-180 | given logos are kept; none gives six generated ones, one per fallback name |
| TestimonialPage.Marquee | src/components/T.js:187 | the row is the logos twice over |
| TestimonialPage.Submit | src/components/T.js:345-363 | an incomplete draft only sets the fill-in message; success resets the form to the blank draft and sets sent; failure keeps the draft and sets the fixed error; loading is off once the call settled |
| TestimonialPage.HideSent | src/components/T.js:357 | the sent flag is cleared and nothing else changes |
| TestimonialPage.IncompleteNeverCalls | src/components/T.js:348-351 | an incomplete draft gives the same result however the handler would settle |
| TestimonialPage.ResetIsIncomplete | src/components/T.js:356 | the reset form is incomplete, so submitting it again only shows the fill-in message |
| TestimonialPage.NoHandlerStillThanks | src/components/T.js:354 | without a handler the form still resets and thanks the author |
| Blog.ToInt32 | src/components/Blog.js:32 | the value lies in the int32 range, is congruent to the input modulo 2^32, and equals the input when that is already in range |
| Blog.Hash | src/components/Blog.js:29-33 | an integer in [0, 2^31] |
| Blog.HashInt | src/components/Blog.js:29-33 | the loop computes the hash of the string's UTF-16 code units |
| Blog.HashOfEmpty | src/components/Blog.js:29-33 | the hash of "" is 0 |
| Blog.HashOfOneCharacter | src/components/Blog.js:31 | a one-character string hashes to its code unit |
| Blog.HashMagnitude | src/components/Blog.js:31 | before the final `\| 0` the running value stays within n·2^32 after n code units |
| Blog.PoolIds | src/components/Blog.js:11-28 | every pool has two pictures, and General is one of them |
| Blog.IdsFor | src/components/Blog.js:35 | a category's own pool, else the General pool |
| Blog.PickCover | src/components/Blog.js:34-37 | a cover from the category's pool, from General for an unknown category, always non-empty trimmed text |
| Blog.PickCoverPosition | src/components/Blog.js:36 | the picture at position `hash(seed) mod 2`, so the choice depends only on category and seed |
| Blog.LookupPool | src/components/Blog.js:35 | `POOL[cat]` finds an own pool, an inherited member of every object, or nothing |
| Blog.PickCoverAsWritten | src/components/Blog.js:34-37 | undefined exactly for the inherited keys; equal to the corrected picker otherwise |
| Blog.InheritedCategoryHasNoCover | src/components/Blog.js:35 | the categories "constructor" and "toString" get no cover |
| Blog.AsWrittenAgreesElsewhere | src/components/Blog.js:35 | for any other category the code as written and the corrected picker agree |
| Blog.FirstOf | src/components/Blog.js:40 | a word's first character, or nothing for an empty word |
| Blog.Initials | src/components/Blog.js:40 | at most two characters and never a space |
| Blog.InitialsOfOneWord | src/components/Blog.js:40 | a one-word name gives its first letter |
| Blog.InitialsOfTwoWords | src/components/Blog.js:40 | the first letters of the first two words, whatever follows |
| Blog.LeadingSpaceDropsInitial | src/components/Blog.js:40 | a leading space makes an empty first word, so only one initial is left |
| Blog.TagsText | src/components/Blog.js:47 | missing tags read as ""; truthy tags that are not an array throw |
| Blog.Seed | src/components/Blog.js:47 | the seed exists iff the tags can be joined |
| Blog.CoverOf | src/components/Blog.js:34-47 | a non-blank own cover is used trimmed; it fails iff a truthy cover is not text, or there is no own cover and the tags throw; otherwise the picked cover is undefined exactly when the category names an inherited member, and else a non-empty trimmed cover from the category's pool |
| Blog.CoverFixed | src/components/Blog.js:45-47 | with the General pool as the fallback for every category the pool table does not own: a non-blank own cover trimmed, otherwise a cover from the category's pool; always non-empty trimmed text when it succeeds |
| Blog.CoverOfAgreesWithFixed | src/components/Blog.js:35-47 | the cover as written and the corrected one fail together, and differ only where the first is undefined, which needs no own cover and an inherited-member category |
| Blog.ConstructorPostHasNoCover | src/components/Blog.js:35-47 | a post with no cover under the category "constructor" gets cover undefined, and a General cover once corrected |
| Blog.AvatarOf | src/components/Blog.js:50 | fails iff a truthy author is not text; no author gives the "CS" avatar |
| Blog.NormalizePost | src/components/Blog.js:43-51 | succeeds iff cover and avatar do; the keys are the post's plus cover, author, readingTime and _avatar; every other field is kept |
| Blog.NormalizedFields | src/components/Blog.js:45-50 | the cover as written: non-empty text, or undefined only for an inherited-member category; the author defaulting to "Creative Sparkles", the reading time to "5 min", and the avatar URL |
| Blog.Normalize | src/components/Blog.js:42-51 | succeeds iff every post does; same length and order, each post normalised |
| Blog.NormalizeSettles | src/components/Blog.js:45-47 | normalising a normalised post succeeds again and keeps its cover, an undefined one included |
| Blog.UndefinedCoverSettles | src/components/Blog.js:45-47 | a post left with an undefined cover gets an undefined cover again when normalised again |
| Blog.TickKeepsRange | src/components/Blog.js:200-206 | a step keeps the counter in [0, length], and it reaches the length iff it was one short or already there |
| Blog.TicksReach | src/components/Blog.js:199-207 | after n steps from v the counter is min(v + n, length) |
| Blog.Shown | src/components/Blog.js:215 | the shown text is the first i code units of the word |
| Blog.TypingShowsPrefix | src/components/Blog.js:195-216 | the counter stays within the word; after at least length steps the whole word is shown; before that the counter equals the number of steps |
| Services.Shown | src/components/Home2.js:71-74 | "All" shows the catalogue as is; every service is shown exactly as often as the catalogue lists it if the tab lists it, and not at all otherwise; the result is in catalogue order |
| Services.ShownIsUnique | src/components/Home2.js:71-74 | exactly one list meets that description: any sub-sequence of the catalogue with those counts is the one shown |
| Services.Filtered | src/components/Home2.js:71-74 | the same on the page's own six services: the tab's services with their counts, in catalogue order, never more than six |
| Services.UnknownTagShowsNothing | src/components/Home2.js:72 | a tag no service carries shows nothing |
| Services.DefaultTabsNonEmpty | src/components/Home2.js:13-62 | Brand, Design, Digital and Content each show at least one service |
| Services.ShownMember | src/components/Home2.js:71-74 | a service the active tab lists is shown |
| Hero.TickInRange | src/components/Header.js:41 | a tick lands on a valid slide, wrapping from the last to the first |
| Hero.TicksAdvance | src/components/Header.js:39-44 | n ticks from slide p give slide (p + n) mod 3 |
| Hero.FullCycle | src/components/Header.js:41 | three ticks bring any slide back to itself |
| Hero.Indicators | src/components/Header.js:160-163 | one indicator per slide, each setting its own valid index |
| Hero.OneIndicatorActive | src/components/Header.js:160-165 | exactly one indicator matches the current slide |
| Hero.IconAt | src/components/Header.js:141-142 | the Star fallback appears iff the index is 3 or more |
| Hero.NoFallbackIcon | src/components/Header.js:140-142 | every slide's statistics get their own icons |
| Hero.Spaced | src/components/Header.js:149 | an uppercase ASCII letter gets a space in front; any other character is kept |
| Hero.Label | src/components/Header.js:149 | one character longer per uppercase letter, and never starting with one |
| Hero.UnlabelLabel | src/components/Header.js:149 | removing the inserted spaces gives the key back, so nothing else changes |
| Hero.LabelUnchangedIff | src/components/Header.js:149 | a key is its own label iff it has no uppercase ASCII letter |
| Hero.SiteLabelsUnchanged | src/components/Header.js:18-34 | the site's own statistic keys are their own labels |
| Layers.ShortMessageLayers | src/components/Contact.js:162 | a message of 3 to 9 code units is refused by the form but passes the client helper and the serverless handler |
| Layers.OversizeMessageLayers | server/index.js:156-158 | a message over 5000 code units passes the form and the serverless handler but gets 413 from the Express route |
| Layers.EmptySubjectLayers | src/components/Contact.js:161 | an empty subject is refused by the form, ignored by the client helper, defaulted by the serverless handler and refused by the Express route |
| Layers.MissingSubjectDefaults | api/contact.js:13 | a body without a subject gets "New contact message" |
| Layers.SpacedAddressLayers | src/components/Contact.js:160 | a valid address typed with a space in front is refused by the form, sent trimmed by the client helper, accepted by the serverless handler, and refused by the Express route unless trimmed |
| Layers.ClientAcceptsAnyAddress | src/utils/api.js:114-116 | text without an '@' passes the client helper but has no address shape |
| Layers.NullRatingLayers | server/index.js:198 | a null rating is sent as 5 by the client helper, stored as 1 by the serverless handler and kept as null by the Express route |

## Left out

- SMTP delivery, `fetch`, `AbortController` and the 15-second timeout: they are parameters whose outcome is given.
- Express middleware (helmet, the rate limiter, request logging, `express.json`, static files, `listen`, `asyncH`, the global error handler): this is library configuration and time-dependent.
- `JSON.parse`, `JSON.stringify` and `encodeURIComponent`: they are parameters. `JSON.parse("{}")` is taken to be the empty object.
- `Date`, `toISOString`, the request IP and the user agent in the Express mail text: they are a `Meta` argument, and the text built from them is not examined.
- `setTimeout`/`setInterval` scheduling: only the step functions are modelled (slide tick, typing counter, hiding the thank-you notes).
- ExpressServer.AutomaticOptions: the `Content-Type` the router sets on its automatic OPTIONS answer is not modelled.
- ExpressServer.Unhandled: the final handler's HTML page is the body `ErrorPage(message)`. Its exact markup, and the escaping and URL-encoding of the message, are not modelled.
- The serverless handlers' `console.log` (api/subscribe.js:6) and `console.error` calls in their catch blocks: logging effects, not part of the response.
- The 100 kB body limit of `express.json`: the Express routes receive the parsed body.
- Presentational components (Pricing, Portfolio, About, Navbar, the pages and the legal pages): they make no decisions.
- JsNumber: numbers are exact decimals. Rounding to IEEE doubles is not modelled, so literals past 2^53 or with more than 17 significant digits may differ.
- Blog.Hash: the hash uses exact integers between steps. This equals the double arithmetic of the code only while the running value stays below 2^53. Blog.HashMagnitude shows this holds for seeds of fewer than 2^21 code units.
- Blog.FirstOf: `w[0]` is modelled as the first code point. For a word starting outside the Basic Multilingual Plane, the code takes a lone surrogate.
- Blog.Initials: works on code points. For a word starting with a character outside the Basic Multilingual Plane, the code takes the first UTF-16 code unit, a lone surrogate.
- Blog.Normalize: posts are maps of own properties. Posts that are not objects, getters, and the order `Object.entries` lists keys in are not modelled.
- Blog.TypingShowsPrefix: the counter `i` is not reset when `word` changes. The model starts from 0 for one word.
- Hero.Label: only the text of the label is modelled. The `capitalize` CSS class is presentation.
- ContactForm.Submit: the `alert` calls are outcomes, and the time since mount is an argument in milliseconds.
- TestimonialPage.Submit: only the settled state is modelled, not the intermediate `loading = true` render.
- Mailer.ResolveBool: `toLowerCase` is modelled on ASCII letters only. No non-ASCII character lowercases to "1", "true" or "yes", so the result is the same.
- TestimonialPage.Logos: the SVG data URL is the `logoData` argument, because it is built with `encodeURIComponent`.

## Findings

| source | as written | input that shows it | evidently intended | confidence | as-written member | corrected member |
|---|---|---|---|---|---|---|
| api/subscribe.js:33 | the accepted address is put into the HTML mail without `escapeHtml`, unlike every field in the other two handlers | `{"email": "<b>@x.io"}` passes `isEmail` and puts a `<b>` tag into the operator's mail | the address escaped like the other handlers' fields | high, not executed | SubscribeHandler.MarkupReachesMail | SubscribeHandler.EscapedMailMarkupFixed |
| src/components/Footer.js:10 | imports `subscribeNewsletter` from src/utils/api.js, which exports no such function. A build that checks named exports, or native module linking, refuses the import, so the site fails to build or load. Where the bundler leaves the binding undefined instead, the call at line 53 throws a TypeError | any valid address, e.g. "a@b.co": either the page never loads, or, with the binding left undefined, the footer shows the TypeError's message as an "err" notice and nothing is posted | a client helper posting the address to /api/subscribe | high, not executed | FooterForm.AsWrittenNeverSubscribes | FooterForm.WorkingRequestSubscribes |
| src/components/Blog.js:35 | `POOL[cat] \|\| POOL.General` also finds members every object inherits, such as `constructor` or `toString`, and then `list[...]` is undefined | a post with no cover and `category: "constructor"` is normalised with `cover` undefined | unknown categories, inherited names included, fall back to the General pool | medium, not executed | Blog.ConstructorPostHasNoCover | Blog.CoverFixed |

The handlers and pages are modelled as written, with each corrected definition beside them:

- `SubscribeHandler.Submit` puts the raw address in the HTML. `SubscribeHandler.SubmitEscaped` escapes it.
- `FooterForm.SubmitAsWritten` calls the missing import. `FooterForm.Submit` takes a working subscribe call as an argument.
- `Blog.CoverOf` picks with `Blog.PickCoverAsWritten`. `Blog.CoverFixed` picks with `Blog.PickCover`.
