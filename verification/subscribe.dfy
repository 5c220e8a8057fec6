/**
 * app/api/newsletter/subscribe/route.ts: the newsletter sign-up endpoint.
 * The request headers, the parsed body, the email validator
 * (lib/validators is not part of this model), the clock and whether the
 * webhook answered OK are inputs; the payload it would forward is an output.
 */
module Subscribe {
  import opened Wrappers
  import opened Strings
  import opened RateLimit

  const DefaultSource: string := "AI Club Website"

  /** The `email` field of the body: absent, some non-string value, or a string. */
  datatype EmailField = NoEmail | NotAString | EmailText(text: string)

  /**
   * The request body: not JSON, the JSON value `null` (destructuring it
   * throws, which the outer handler turns into a 500), or its `email`,
   * `timestamp` and `source` fields.
   */
  datatype SubscribeBody =
    | MalformedJson
    | NullBody
    | SubscribeBody(email: EmailField, timestamp: Option<string>, source: Option<string>)

  datatype SubscribeResponse =
    | TooManyRequests   // 429
    | InvalidFormat     // 400
    | EmailRequired     // 400
    | InvalidEmail      // 400
    | Subscribed        // 200
    | SubscribeFailed   // 500: a null body, or the webhook answered with a non-OK status or could not be reached

  /** The JSON forwarded to the webhook. */
  datatype Payload = Payload(email: string, timestamp: string, source: string, ip: string)

  datatype SubscribeOutcome = SubscribeOutcome(response: SubscribeResponse, limits: Limits, forwarded: Option<Payload>)

  /** The rate-limit key: the raw `x-forwarded-for` header, else `x-real-ip`, else "unknown". */
  function ClientKey(forwardedFor: Option<string>, realIp: Option<string>): (r: string)
    ensures Truthy(forwardedFor) ==> r == forwardedFor.value
    ensures !Truthy(forwardedFor) && Truthy(realIp) ==> r == realIp.value
    ensures !Truthy(forwardedFor) && !Truthy(realIp) ==> r == "unknown"
  {
    OrElse(forwardedFor, OrElse(realIp, "unknown"))
  }

  /** The forwarded form of an address: trimmed and lower-cased. */
  function NormaliseEmail(email: string): (r: string)
    ensures r == [] || (!IsSpace(r[0]) && !IsSpace(r[|r| - 1]))
    ensures forall i :: 0 <= i < |r| ==> !IsUpperAscii(r[i])
    ensures exists a: nat, b: nat :: WhitespaceAround(email, a, b) && r == Lower(email[a..b])
  {
    LowerTrimEnds(email);
    LowerTrimWindow(email);
    Lower(Trim(email))
  }

  /** Lower-casing keeps the trimmed ends free of whitespace and leaves no upper-case letter. */
  lemma LowerTrimEnds(email: string)
    ensures var r := Lower(Trim(email));
      (r == [] || (!IsSpace(r[0]) && !IsSpace(r[|r| - 1]))) && forall i :: 0 <= i < |r| ==> !IsUpperAscii(r[i])
  {
  }

  /** The normalised address is the lower-cased window that `trim()` keeps. */
  lemma LowerTrimWindow(email: string)
    ensures exists a: nat, b: nat :: WhitespaceAround(email, a, b) && Lower(Trim(email)) == Lower(email[a..b])
  {
    var a := TrimWindow(email);
    var b := a + |Trim(email)|;
    assert WhitespaceAround(email, a, b) && Trim(email) == email[a..b];
  }

  /** Normalising an already normalised address changes nothing. */
  lemma NormaliseEmailIdempotent(email: string)
    ensures NormaliseEmail(NormaliseEmail(email)) == NormaliseEmail(email)
  {
    var n := Lower(Trim(email));
    LowerTrimEnds(email);
    TrimNoop(n);
    LowerNoUpper(n);
  }

  /** Lower-casing a string with no upper-case letter changes nothing. */
  lemma LowerNoUpper(s: string)
    requires forall i :: 0 <= i < |s| ==> !IsUpperAscii(s[i])
    ensures Lower(s) == s
  {
  }

  /** Whether the body passes the two email checks. */
  predicate EmailAccepted(body: SubscribeBody, isValidEmail: string -> bool)
  {
    body.SubscribeBody? && body.email.EmailText? && body.email.text != "" && isValidEmail(body.email.text)
  }

  /** The `POST` handler. */
  function HandleSubscribe(limits: Limits, now: int, nowIso: string, forwardedFor: Option<string>, realIp: Option<string>,
                           body: SubscribeBody, isValidEmail: string -> bool, webhookOk: bool): (r: SubscribeOutcome)
    ensures var d := CheckRateLimit(limits, ClientKey(forwardedFor, realIp), now);
      r.limits == d.limits && (r.response == TooManyRequests <==> !d.allowed)
    ensures r.forwarded.Some? <==>
      CheckRateLimit(limits, ClientKey(forwardedFor, realIp), now).allowed && EmailAccepted(body, isValidEmail)
    ensures r.forwarded.Some? ==> r.forwarded.value == Payload(
      NormaliseEmail(body.email.text), OrElse(body.timestamp, nowIso), OrElse(body.source, DefaultSource),
      ClientKey(forwardedFor, realIp))
    ensures r.response == Subscribed <==> r.forwarded.Some? && webhookOk
    ensures r.response == SubscribeFailed <==>
      (r.forwarded.Some? && !webhookOk) || (r.response != TooManyRequests && body.NullBody?)
    ensures r.response == InvalidFormat <==> r.response != TooManyRequests && body.MalformedJson?
    ensures r.response == EmailRequired <==>
      r.response != TooManyRequests && body.SubscribeBody? && !(body.email.EmailText? && body.email.text != "")
  {
    var ip := ClientKey(forwardedFor, realIp);
    var d := CheckRateLimit(limits, ip, now);
    if !d.allowed then SubscribeOutcome(TooManyRequests, d.limits, None)
    else match body
      case MalformedJson => SubscribeOutcome(InvalidFormat, d.limits, None)
      case NullBody => SubscribeOutcome(SubscribeFailed, d.limits, None)
      case SubscribeBody(email, timestamp, source) =>
        if !(email.EmailText? && email.text != "") then SubscribeOutcome(EmailRequired, d.limits, None)
        else if !isValidEmail(email.text) then SubscribeOutcome(InvalidEmail, d.limits, None)
        else
          var payload := Payload(NormaliseEmail(email.text), OrElse(timestamp, nowIso), OrElse(source, DefaultSource), ip);
          SubscribeOutcome(if webhookOk then Subscribed else SubscribeFailed, d.limits, Some(payload))
  }

  /** A refused request, for whatever reason, forwards nothing. */
  lemma RejectedNotForwarded(limits: Limits, now: int, nowIso: string, forwardedFor: Option<string>, realIp: Option<string>,
                             body: SubscribeBody, isValidEmail: string -> bool, webhookOk: bool)
    ensures var r := HandleSubscribe(limits, now, nowIso, forwardedFor, realIp, body, isValidEmail, webhookOk);
      r.response in {TooManyRequests, InvalidFormat, EmailRequired, InvalidEmail} ==> r.forwarded.None?
  {
  }
}
