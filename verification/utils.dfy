/**
 * The serverless functions' shared helpers (api/_lib/utils.js): request body
 * parsing, e-mail shape validation, trimming, clamping, HTML escaping and the
 * two JSON response shapes.
 */
module ServerUtils {
  import opened Wrappers
  import JsText
  import opened JsNumber
  import opened JsValue
  import opened Http

  // ---------------------------------------------------------------------------
  // parseJson

  /**
   * `parseJson(req)`: an object body (or array) is used as it is; anything else
   * goes through `JSON.parse`, with a missing body read as "{}" and a parse
   * failure giving `{}`. It never throws.
   */
  function ParseJson(body: Value, json: JsonParser): (r: Value)
    ensures Truthy(body) && (body.Obj? || body.Arr?) ==> r == body
    ensures !Truthy(body) ==> r == EmptyObject()
    ensures Truthy(body) && !(body.Obj? || body.Arr?) ==>
              r == json(ToStr(body)).GetOr(EmptyObject())
  {
    if Truthy(body) && (body.Obj? || body.Arr?) then body
    else if !Truthy(body) then EmptyObject()   // JSON.parse("{}")
    else
      match json(ToStr(body))
      case Some(v) => v
      case None => EmptyObject()
  }

  // ---------------------------------------------------------------------------
  // trim

  /** `trim(s)`: strings are trimmed, every other value becomes "". */
  function Trim(v: Value): (r: string)
    ensures !v.Str? ==> r == ""
    ensures v.Str? ==> r == JsText.Trim(v.s)
    ensures JsText.IsTrimmed(r)
  {
    if v.Str? then JsText.Trim(v.s) else ""
  }

  lemma TrimIdempotent(v: Value)
    ensures Trim(Str(Trim(v))) == Trim(v)
  {
    if v.Str? { JsText.TrimIdempotent(v.s); }
  }

  /** One field: destructured with the default "", then passed through `trim`. */
  function Field(body: Value, k: string): (r: string)
    requires !Nullish(body)
    ensures JsText.IsTrimmed(r)
  {
    Trim(GetOr(body, k, Str("")))
  }

  /** A trimmed string field is read back unchanged. */
  lemma FieldOfTrimmed(props: map<string, Value>, k: string)
    requires k in props && props[k].Str? && JsText.IsTrimmed(props[k].s)
    ensures Field(Obj(props), k) == props[k].s
  {
    JsText.TrimOfTrimmed(props[k].s);
  }

  // ---------------------------------------------------------------------------
  // isEmail

  /** A character of the class `[^\s@]`. */
  predicate Plain(c: char) { !JsText.IsSpace(c) && c != '@' }

  predicate AllPlain(s: string) { forall i :: 0 <= i < |s| ==> Plain(s[i]) }

  /** `d` has a '.' that is neither its first nor its last character. */
  predicate HasInnerDot(d: string) { exists i :: 0 < i < |d| - 1 && d[i] == '.' }

  /** The regular expression `^[^\s@]+@[^\s@]+\.[^\s@]+$` matches `s` with its '@' at `at` and its '.' at `dot`. */
  predicate EmailSplit(s: string, at: int, dot: int) {
    && 0 < at && at + 1 < dot && dot + 1 < |s|
    && s[at] == '@' && s[dot] == '.'
    && forall k :: 0 <= k < |s| && k != at ==> Plain(s[k])
  }

  /** The language of the e-mail regular expression. */
  ghost predicate MatchesEmailRegex(s: string) {
    exists at, dot :: EmailSplit(s, at, dot)
  }

  /** The index of the first `c` in `s`, or |s| when there is none. */
  function IndexOf(s: string, c: char): (r: nat)
    ensures r <= |s|
    ensures forall k :: 0 <= k < r ==> s[k] != c
    ensures r < |s| ==> s[r] == c
  {
    if s == [] then 0 else if s[0] == c then 0 else 1 + IndexOf(s[1..], c)
  }

  /** The matcher: split at the first '@' and check both sides. */
  function EmailShape(s: string): bool
  {
    var at := IndexOf(s, '@');
    0 < at < |s| && AllPlain(s[..at]) && AllPlain(s[at + 1..]) && HasInnerDot(s[at + 1..])
  }

  /** The matcher accepts exactly the language of the regular expression. */
  lemma EmailShapeIsRegex(s: string)
    ensures EmailShape(s) <==> MatchesEmailRegex(s)
  {
    var at := IndexOf(s, '@');
    if EmailShape(s) {
      var d := s[at + 1..];
      var i :| 0 < i < |d| - 1 && d[i] == '.';
      assert d[i] == s[at + 1 + i];
      forall k | 0 <= k < |s| && k != at ensures Plain(s[k]) {
        if k < at { assert s[k] == s[..at][k]; } else { assert s[k] == d[k - at - 1]; }
      }
      assert EmailSplit(s, at, at + 1 + i);
    }
    if MatchesEmailRegex(s) {
      var a, dot :| EmailSplit(s, a, dot);
      assert s[a] == '@';
      assert at == a;
      var d := s[at + 1..];
      assert d[dot - at - 1] == '.';
      assert HasInnerDot(d);
      assert AllPlain(s[..at]) by {
        forall k | 0 <= k < at ensures Plain(s[..at][k]) { assert s[..at][k] == s[k]; }
      }
      assert AllPlain(d) by {
        forall k | 0 <= k < |d| ensures Plain(d[k]) { assert d[k] == s[at + 1 + k]; }
      }
    }
  }

  /** The shape stated on its parts: a non-empty local part, '@', and a domain with an inner dot. */
  lemma EmailShapeOfParts(local: string, domain: string)
    ensures EmailShape(local + "@" + domain) <==>
              local != [] && AllPlain(local) && AllPlain(domain) && HasInnerDot(domain)
  {
    var s := local + "@" + domain;
    if AllPlain(local) {
      assert forall k :: 0 <= k < |local| ==> s[k] == local[k];
      assert s[|local|] == '@';
      assert IndexOf(s, '@') == |local|;
      assert s[..|local|] == local;
      assert s[|local| + 1..] == domain;
    } else {
      var k :| 0 <= k < |local| && !Plain(local[k]);
      assert s[k] == local[k];
      var at := IndexOf(s, '@');
      assert at <= |local| by { assert s[|local|] == '@'; }
      if at < |local| {
        // the '@' after the local part then lies in the domain part
        assert s[at + 1..][|local| - at - 1] == s[|local|];
      } else {
        assert s[..at][k] == s[k];
      }
    }
  }

  /** `isEmail(v)`: the trimmed string form of `v || ""` has the e-mail shape. */
  function IsEmail(v: Value): bool
  {
    EmailShape(JsText.Trim(ToStr(Or(v, Str("")))))
  }

  /** A falsy value (missing, null, empty, 0, false) is never an address. */
  lemma FalsyIsNotEmail(v: Value)
    requires !Truthy(v)
    ensures !IsEmail(v)
  {
    assert Or(v, Str("")) == Str("");
    EmptyHasNoShape(JsText.Trim(ToStr(Or(v, Str("")))));
  }

  lemma EmptyHasNoShape(s: string)
    requires |s| == 0
    ensures !EmailShape(s)
  {
  }

  /** `isEmail` accepts exactly the values whose trimmed string form the regular expression matches. */
  lemma IsEmailIsRegex(v: Value)
    ensures IsEmail(v) <==> MatchesEmailRegex(JsText.Trim(ToStr(Or(v, Str("")))))
  {
    EmailShapeIsRegex(JsText.Trim(ToStr(Or(v, Str("")))));
  }

  /** `isEmail` sees only the trimmed text: trimming first changes nothing. */
  lemma IsEmailIgnoresTrim(s: string)
    ensures IsEmail(Str(s)) == IsEmail(Str(Trim(Str(s))))
  {
    var t := JsText.Trim(s);
    JsText.TrimIdempotent(s);
    IsEmailOfString(s);
    IsEmailOfString(t);
  }

  /** On a string, `isEmail` is the shape check of its trimmed text. */
  lemma IsEmailOfString(s: string)
    ensures IsEmail(Str(s)) == EmailShape(JsText.Trim(s))
  {
    if s == [] { IsEmailOfEmpty(s); } else { IsEmailOfText(s); }
  }

  lemma IsEmailOfEmpty(s: string)
    requires s == []
    ensures IsEmail(Str(s)) == EmailShape(JsText.Trim(s))
  {
    assert Or(Str(s), Str("")) == Str("");
  }

  lemma IsEmailOfText(s: string)
    requires s != []
    ensures IsEmail(Str(s)) == EmailShape(JsText.Trim(s))
  {
    assert Or(Str(s), Str("")) == Str(s);
  }

  // ---------------------------------------------------------------------------
  // clamp

  /** `Math.max(lo, Math.min(hi, x))` for a number that is not NaN, stated on values. */
  lemma MaxMinBounds(x: Number, lo: int, hi: int)
    requires !x.NaN?
    ensures var r := Max(FromInt(lo), Min(FromInt(hi), x));
      && (lo <= hi ==> r.Finite? && lo as real <= Magnitude(r) <= hi as real)
      && (x.Finite? && lo as real <= Magnitude(x) <= hi as real ==> StrictEquals(r, x))
      && (lo <= hi && Less(FromInt(hi), x) ==> r == FromInt(hi))
      && (Less(x, FromInt(lo)) ==> r == FromInt(lo))
  {
    MagnitudeOfInt(lo);
    MagnitudeOfInt(hi);
  }

  /** `clamp(n, min, max)`: NaN gives `min`; otherwise `Math.max(min, Math.min(max, Number(n)))`. */
  function Clamp(n: Value, lo: int, hi: int): (r: Number)
    ensures ToNumber(n).NaN? ==> r == FromInt(lo)
    ensures lo <= hi ==> r.Finite? && lo as real <= Magnitude(r) <= hi as real
    ensures ToNumber(n).Finite? && lo as real <= Magnitude(ToNumber(n)) <= hi as real ==> StrictEquals(r, ToNumber(n))
    ensures lo <= hi && Less(FromInt(hi), ToNumber(n)) ==> r == FromInt(hi)
    ensures Less(ToNumber(n), FromInt(lo)) ==> r == FromInt(lo)
  {
    var x := ToNumber(n);
    if x.NaN? then
      MagnitudeOfInt(lo);
      FromInt(lo)
    else
      MaxMinBounds(x, lo, hi);
      Max(FromInt(lo), Min(FromInt(hi), x))
  }

  // ---------------------------------------------------------------------------
  // escapeHtml

  /** The replacement `escapeHtml` makes for one character. */
  function EscapeChar(c: char): string
  {
    match c
    case '&' => "&amp;"
    case '<' => "&lt;"
    case '>' => "&gt;"
    case '"' => "&quot;"
    case '\'' => "&#39;"
    case _ => [c]
  }

  predicate IsHtmlSpecial(c: char) { c == '&' || c == '<' || c == '>' || c == '"' || c == '\'' }

  /** `escapeHtml(s)`: each of `& < > " '` replaced by its entity, one character at a time. */
  function EscapeHtml(s: string): string
  {
    if s == [] then "" else EscapeChar(s[0]) + EscapeHtml(s[1..])
  }

  predicate StartsWith(s: string, p: string) { |p| <= |s| && s[..|p|] == p }

  /** One of the five entities `escapeHtml` writes begins at index `i` of `r`. */
  predicate EntityAt(r: string, i: nat)
    requires i <= |r|
  {
    var t := r[i..];
    StartsWith(t, "&amp;") || StartsWith(t, "&lt;") || StartsWith(t, "&gt;")
    || StartsWith(t, "&quot;") || StartsWith(t, "&#39;")
  }

  /** Text that cannot open a tag or close an attribute, and whose every '&' starts an entity. */
  predicate HtmlSafe(r: string) {
    forall i :: 0 <= i < |r| ==>
      r[i] != '<' && r[i] != '>' && r[i] != '"' && r[i] != '\'' && (r[i] == '&' ==> EntityAt(r, i))
  }

  /** Escaped text is safe to place inside an HTML element or a quoted attribute. */
  lemma {:induction false} EscapeHtmlSafe(s: string)
    ensures HtmlSafe(EscapeHtml(s))
  {
    if s != [] {
      EscapeHtmlSafe(s[1..]);
      var e := EscapeChar(s[0]);
      var rest := EscapeHtml(s[1..]);
      var r := e + rest;
      forall i | 0 <= i < |r|
        ensures r[i] != '<' && r[i] != '>' && r[i] != '"' && r[i] != '\'' && (r[i] == '&' ==> EntityAt(r, i))
      {
        if i < |e| {
          assert r[i] == e[i];
          if i == 0 && IsHtmlSpecial(s[0]) { assert r[i..][..|e|] == e; }
        } else {
          assert r[i] == rest[i - |e|];
          assert r[i..] == rest[i - |e|..];
        }
      }
    }
  }

  /** Escaping distributes over concatenation. */
  lemma {:induction false} EscapeHtmlConcat(a: string, b: string)
    ensures EscapeHtml(a + b) == EscapeHtml(a) + EscapeHtml(b)
  {
    if a != [] {
      calc {
        EscapeHtml(a + b);
        EscapeChar((a + b)[0]) + EscapeHtml((a + b)[1..]);
        { assert (a + b)[0] == a[0]; assert (a + b)[1..] == a[1..] + b; }
        EscapeChar(a[0]) + EscapeHtml(a[1..] + b);
        { EscapeHtmlConcat(a[1..], b); }
        EscapeChar(a[0]) + (EscapeHtml(a[1..]) + EscapeHtml(b));
      }
    } else {
      assert a + b == b;
    }
  }

  /** Text without any of the five special characters is left unchanged. */
  lemma {:induction false} EscapeHtmlIdentity(s: string)
    requires forall i :: 0 <= i < |s| ==> !IsHtmlSpecial(s[i])
    ensures EscapeHtml(s) == s
  {
    if s != [] { EscapeHtmlIdentity(s[1..]); }
  }

  /** Escaping never shortens its input. */
  lemma {:induction false} EscapeHtmlLength(s: string)
    ensures |EscapeHtml(s)| >= |s|
  {
    if s != [] { EscapeHtmlLength(s[1..]); }
  }

  /** A text whose character at `i` differs from the prefix's does not start with that prefix. */
  lemma NotStartsWith(t: string, p: string, i: nat)
    requires i < |p| && i < |t| && t[i] != p[i]
    ensures !StartsWith(t, p)
  {
    if |p| <= |t| { assert t[..|p|][i] == t[i]; }
  }

  /** Decodes the five entities `escapeHtml` writes; every other character stands for itself. */
  function UnescapeHtml(t: string): string
  {
    if t == [] then ""
    else if StartsWith(t, "&amp;") then "&" + UnescapeHtml(t[5..])
    else if StartsWith(t, "&lt;") then "<" + UnescapeHtml(t[4..])
    else if StartsWith(t, "&gt;") then ">" + UnescapeHtml(t[4..])
    else if StartsWith(t, "&quot;") then "\"" + UnescapeHtml(t[6..])
    else if StartsWith(t, "&#39;") then "'" + UnescapeHtml(t[5..])
    else [t[0]] + UnescapeHtml(t[1..])
  }

  /** Decoding undoes escaping, so the original text is recoverable from the escaped one. */
  lemma {:induction false} EscapeHtmlRoundTrip(s: string)
    ensures UnescapeHtml(EscapeHtml(s)) == s
  {
    if s != [] {
      EscapeHtmlRoundTrip(s[1..]);
      var e := EscapeChar(s[0]);
      var rest := EscapeHtml(s[1..]);
      var t := EscapeHtml(s);
      assert t == e + rest;
      assert t[..|e|] == e;
      assert t[|e|..] == rest;
      match s[0]
      case '&' =>
      case '<' =>
        assert t[1] == e[1];
        NotStartsWith(t, "&amp;", 1);
      case '>' =>
        assert t[1] == e[1];
        NotStartsWith(t, "&amp;", 1); NotStartsWith(t, "&lt;", 1);
      case '"' =>
        assert t[1] == e[1];
        NotStartsWith(t, "&amp;", 1); NotStartsWith(t, "&lt;", 1); NotStartsWith(t, "&gt;", 1);
      case '\'' =>
        assert t[1] == e[1];
        NotStartsWith(t, "&amp;", 1); NotStartsWith(t, "&lt;", 1); NotStartsWith(t, "&gt;", 1);
        NotStartsWith(t, "&quot;", 1);
      case _ =>
        assert t[0] == s[0];
        NotStartsWith(t, "&amp;", 0); NotStartsWith(t, "&lt;", 0); NotStartsWith(t, "&gt;", 0);
        NotStartsWith(t, "&quot;", 0); NotStartsWith(t, "&#39;", 0);
    }
  }

  /** Escaped text contributes no angle bracket to the document it is placed in. */
  lemma EscapedHasNoBrackets(s: string)
    ensures JsText.Count(EscapeHtml(s), '<') == 0 && JsText.Count(EscapeHtml(s), '>') == 0
  {
    EscapeHtmlSafe(s);
    JsText.CountAbsent(EscapeHtml(s), '<');
    JsText.CountAbsent(EscapeHtml(s), '>');
  }

  /** The same, one bracket at a time. */
  lemma EscapedBracketCount(s: string, ch: char)
    requires ch == '<' || ch == '>'
    ensures JsText.Count(EscapeHtml(s), ch) == 0
  {
    EscapedHasNoBrackets(s);
  }

  /** Distinct texts escape to distinct texts. */
  lemma EscapeHtmlInjective(a: string, b: string)
    requires EscapeHtml(a) == EscapeHtml(b)
    ensures a == b
  {
    EscapeHtmlRoundTrip(a);
    EscapeHtmlRoundTrip(b);
  }

  /** Digits, signs, points and the letters of NaN and Infinity need no escaping and add no markup. */
  lemma NumeralNeedsNoEscape(s: string)
    requires Numeral(s)
    ensures EscapeHtml(s) == s
    ensures JsText.Count(s, '<') == 0 && JsText.Count(s, '>') == 0
  {
    EscapeHtmlIdentity(s);
    JsText.CountAbsent(s, '<');
    JsText.CountAbsent(s, '>');
  }

  /** A printed number can be placed in HTML unescaped: escaping would not change it. */
  lemma PrintedNumberNeedsNoEscape(x: Number)
    ensures EscapeHtml(NumberToString(x)) == NumberToString(x)
    ensures JsText.Count(NumberToString(x), '<') == 0 && JsText.Count(NumberToString(x), '>') == 0
  {
    NumberToStringNumeral(x);
    NumeralNeedsNoEscape(NumberToString(x));
  }

  // ---------------------------------------------------------------------------
  // ok / bad

  const JsonHeaders: map<string, string> := map["Content-Type" := "application/json"]

  /** `ok(res, data)`: status 200 and the JSON object `{ ok: true, ...data }`. */
  function Ok(data: map<string, Value>): (r: Response)
    ensures r.status == 200 && r.body.Json? && r.body.payload.Obj?
    ensures r.body.payload.props.Keys == {"ok"} + data.Keys
    ensures forall k :: k in data ==> r.body.payload.props[k] == data[k]
    ensures "ok" !in data ==> r.body.payload.props["ok"] == Bool(true)
  {
    Response(200, JsonHeaders, Json(Obj(map["ok" := Bool(true)] + data)))
  }

  /** `bad(res, msg, code)`: the given status and the JSON object `{ error: msg }`. */
  function Bad(msg: string, code: int): (r: Response)
    ensures r.status == code && r.body == Json(Obj(map["error" := Str(msg)]))
  {
    Response(code, JsonHeaders, Json(Obj(map["error" := Str(msg)])))
  }

  /** `bad(res, msg)` with its default code. */
  function BadRequest(msg: string): (r: Response)
    ensures r.status == 400 && r.body == Json(Obj(map["error" := Str(msg)]))
  {
    Bad(msg, 400)
  }

  /** `ok(res)` with the default data is exactly status 200 and `{ ok: true }`. */
  lemma OkDefault()
    ensures Ok(map[]) == Response(200, JsonHeaders, Json(Obj(map["ok" := Bool(true)])))
  {
    assert map["ok" := Bool(true)] + map[] == map["ok" := Bool(true)];
  }
}
