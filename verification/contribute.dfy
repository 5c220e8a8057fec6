/**
 * app/api/contribute/route.ts: the resource-suggestion endpoint, which
 * appends a submission to a JSON queue file. The headers, the parsed body,
 * the validators (lib/validators is not part of this model), the fresh id,
 * the clock and the queue file's contents are inputs; the file written is
 * an output.
 */
module Contribute {
  import opened Wrappers
  import opened Strings
  import opened RateLimit

  datatype ContributeItem = ContributeItem(id: string, title: string, url: string, note: Option<string>,
                                           email: Option<string>, submittedAt: string)

  /**
   * The request body: not JSON, or its fields. A body that parses to `null`
   * makes the destructuring throw, which ends in the same 500 as a parse
   * failure, so `MalformedJson` stands for it too.
   */
  datatype ContributeBody =
    | MalformedJson
    | ContributeBody(title: Option<string>, url: Option<string>, note: Option<string>, email: Option<string>, website: Option<string>)

  /**
   * The queue file as read: absent or unparseable, valid JSON that is not an
   * array (so `push` throws), or the stored submissions.
   */
  datatype QueueFile = QueueUnreadable | QueueNotArray | Queue(items: seq<ContributeItem>)

  datatype ContributeResponse =
    | RateLimited      // 429
    | HoneypotFilled   // 400 "Invalid submission."
    | MissingFields    // 400 "Title and URL are required."
    | InvalidUrl       // 400
    | Queued           // 200
    | InternalError    // 500

  datatype ContributeOutcome = ContributeOutcome(response: ContributeResponse, limits: Limits, written: Option<seq<ContributeItem>>)

  const KeyPrefix: string := "rate_limit_"

  /** The first comma-separated entry of an `x-forwarded-for` header, trimmed. */
  function FirstForwarded(h: string): string
  {
    Trim(Split(h, ",")[0])
  }

  /** The client address: the first `x-forwarded-for` entry, trimmed, if non-empty; else `x-real-ip`; else "unknown". */
  function ClientIp(forwardedFor: Option<string>, realIp: Option<string>): (r: string)
    ensures forwardedFor.Some? && FirstForwarded(forwardedFor.value) != "" ==> r == FirstForwarded(forwardedFor.value)
    ensures (forwardedFor.None? || FirstForwarded(forwardedFor.value) == "") ==> r == OrElse(realIp, "unknown")
  {
    var first := match forwardedFor
      case None => None
      case Some(h) => Some(FirstForwarded(h));
    OrElse(first, OrElse(realIp, "unknown"))
  }

  /**
   * Behind a chain of proxies the header lists the client first: the client
   * address is that first entry, when it carries no surrounding whitespace.
   */
  lemma SingleForwardedAddress(parts: seq<string>, realIp: Option<string>)
    requires |parts| >= 1 && forall k :: 0 <= k < |parts| ==> ',' !in parts[k]
    requires parts[0] != "" && !IsSpace(parts[0][0]) && !IsSpace(parts[0][|parts[0]| - 1])
    ensures ClientIp(Some(Join(parts, ",")), realIp) == parts[0]
  {
    JoinedHead(parts);
    TrimmedFirst(Join(parts, ","), parts[0]);
  }

  /** A first entry without surrounding whitespace is the client address as it stands. */
  lemma TrimmedFirst(h: string, ip: string)
    requires Split(h, ",")[0] == ip
    requires ip == [] || (!IsSpace(ip[0]) && !IsSpace(ip[|ip| - 1]))
    ensures FirstForwarded(h) == ip
  {
    TrimNoop(ip);
  }

  /** Splitting a comma-joined list of comma-free entries at commas gives back its first entry. */
  lemma JoinedHead(parts: seq<string>)
    requires |parts| >= 1 && forall k :: 0 <= k < |parts| ==> ',' !in parts[k]
    ensures Split(Join(parts, ","), ",")[0] == parts[0]
  {
    forall k | 0 <= k < |parts|
      ensures !Contains(parts[k], ",")
    {
      ContainsChar(parts[k], ',');
    }
    SplitJoin(parts, ",");
  }

  /** `str?.trim()`. */
  function TrimOpt(s: Option<string>): (r: Option<string>)
    ensures r.Some? <==> s.Some?
    ensures r.Some? ==> r.value == Trim(s.value)
  {
    match s
    case None => None
    case Some(v) => Some(Trim(v))
  }

  /** The stored list an append starts from: an unreadable file counts as an empty queue. */
  function StoredItems(file: QueueFile): (r: seq<ContributeItem>)
    requires !file.QueueNotArray?
    ensures file.QueueUnreadable? ==> r == []
    ensures file.Queue? ==> r == file.items
  {
    match file
    case QueueUnreadable => []
    case Queue(items) => items
  }

  /** The body passes the honeypot, the required-field and the URL checks. */
  predicate SubmissionValid(body: ContributeBody, isNonEmpty: string -> bool, isHttpUrl: string -> bool)
  {
    body.ContributeBody? && !Truthy(body.website) &&
    Passes(isNonEmpty, body.title) && Passes(isNonEmpty, body.url) && Passes(isHttpUrl, body.url)
  }

  /** A validator applied to a body field; a missing field fails it. */
  predicate Passes(valid: string -> bool, field: Option<string>)
  {
    field.Some? && valid(field.value)
  }

  /**
   * The `POST` handler. `writeOk` is whether writing the queue file back
   * succeeds; a failed write throws into the same 500 as the other failures,
   * and `written` then holds nothing.
   */
  function HandleContribute(limits: Limits, now: int, nowIso: string, freshId: string,
                            forwardedFor: Option<string>, realIp: Option<string>, body: ContributeBody,
                            isNonEmpty: string -> bool, isHttpUrl: string -> bool,
                            file: QueueFile, writeOk: bool): (r: ContributeOutcome)
    ensures var d := CheckRateLimit(limits, KeyPrefix + ClientIp(forwardedFor, realIp), now);
      r.limits == d.limits && (r.response == RateLimited <==> !d.allowed)
    ensures r.response == InternalError <==>
      r.response != RateLimited && (body.MalformedJson? || (SubmissionValid(body, isNonEmpty, isHttpUrl) && (file.QueueNotArray? || !writeOk)))
    ensures r.response == HoneypotFilled <==> r.response != RateLimited && body.ContributeBody? && Truthy(body.website)
    ensures r.response == MissingFields <==>
      (r.response !in {RateLimited, InternalError, HoneypotFilled} && !(Passes(isNonEmpty, body.title) && Passes(isNonEmpty, body.url)))
    ensures r.written.Some? <==> r.response == Queued
    ensures r.response == Queued <==>
      r.response !in {RateLimited, InternalError, HoneypotFilled, MissingFields} && Passes(isHttpUrl, body.url)
    ensures r.response == Queued <==>
      r.response != RateLimited && SubmissionValid(body, isNonEmpty, isHttpUrl) && !file.QueueNotArray? && writeOk
    ensures r.response == Queued ==> body.title.Some? && body.url.Some? && !file.QueueNotArray?
    ensures r.response == Queued ==>
      r.written.value == StoredItems(file) + [ContributeItem(freshId, Trim(body.title.value), Trim(body.url.value),
                                                           TrimOpt(body.note), TrimOpt(body.email), nowIso)]
  {
    var d := CheckRateLimit(limits, KeyPrefix + ClientIp(forwardedFor, realIp), now);
    if !d.allowed then ContributeOutcome(RateLimited, d.limits, None)
    else match body
      case MalformedJson => ContributeOutcome(InternalError, d.limits, None)
      case ContributeBody(title, url, note, email, website) =>
        if Truthy(website) then ContributeOutcome(HoneypotFilled, d.limits, None)
        else if !Passes(isNonEmpty, title) || !Passes(isNonEmpty, url) then ContributeOutcome(MissingFields, d.limits, None)
        else if !Passes(isHttpUrl, url) then ContributeOutcome(InvalidUrl, d.limits, None)
        else
          var item := ContributeItem(freshId, Trim(title.value), Trim(url.value), TrimOpt(note), TrimOpt(email), nowIso);
          if file.QueueNotArray? || !writeOk then ContributeOutcome(InternalError, d.limits, None)
          else ContributeOutcome(Queued, d.limits, Some(StoredItems(file) + [item]))
  }
}
