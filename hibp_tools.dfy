/**
 * The request/response logic of the two HIBP v3 tools, "HIBP-Breaches" and
 * "HIBP-Pastes": the API-key check, the single `throttle()` before the request,
 * the request URL with its required arguments and ordered optional query
 * parameters, and the classification of the HTTP status.
 *
 * `encodeURIComponent` and the form encoding `URLSearchParams` applies to its
 * keys and values are library string functions; they are parameters here
 * (`encode`, `formEncode`). The HTTP response is an input.
 */
module HibpTools {
  import opened Wrappers
  import opened Text
  import opened RateLimiting

  const ApiBaseUrl: string := "https://haveibeenpwned.com/api/v3"

  /** JavaScript truthiness of an optional string: present and non-empty. */
  predicate Provided(s: Option<string>) {
    s.Some? && s.value != ""
  }

  datatype Operation =
    | GetAllBreachesForAccount
    | GetAllBreachedSites
    | GetBreachByName
    | GetDataClasses

  datatype BreachArgs = BreachArgs(
    account: Option<string>,
    domain: Option<string>,
    name: Option<string>,
    includeUnverified: Option<bool>,
    truncateResponse: Option<bool>)

  /** The errors the handlers throw (and report as `Error: <message>` with `isError: true`). */
  datatype ToolError =
    | MissingApiKey
    | AccountRequired
    | NameRequired
    | NotFound(url: string)
    | RateLimited(retryAfter: string)
    | ApiError(status: int, body: string)

  /**
   * The text of each error: the not-found text ends with the URL, the
   * rate-limit text carries the `retry-after` value, the API-error text ends
   * with the response body.
   */
  function Message(e: ToolError): (m: string)
    ensures e.NotFound? ==> |m| >= 20 && m[20..] == e.url
    ensures e.RateLimited? ==> |m| >= 34 + |e.retryAfter| && m[34..34 + |e.retryAfter|] == e.retryAfter
    ensures e.ApiError? ==> |m| >= |e.body| && m[|m| - |e.body|..] == e.body
  {
    match e
    case MissingApiKey => "Missing required environment variable: HIBP_API_KEY"
    case AccountRequired => "Account parameter is required for getAllBreachesForAccount operation"
    case NameRequired => "Name parameter is required for getBreachByName operation"
    case NotFound(url) => "Resource not found: " + url
    case RateLimited(retryAfter) => "Rate limit exceeded. Try again in " + retryAfter + " seconds."
    case ApiError(status, body) => "HIBP API error (" + IntToString(status) + "): " + body
  }

  /** The status in an API-error text reads back with `parseInt` from just after the opening parenthesis. */
  lemma ApiErrorStatusReadsBack(status: nat, body: string)
    ensures var m := Message(ApiError(status, body));
      |m| >= 16 && ParseInt(m[16..]) == Some(status)
  {
    var m := Message(ApiError(status, body));
    var rest := "): " + body;
    assert m == "HIBP API error (" + (DecimalString(status) + rest);
    assert m[16..] == DecimalString(status) + rest;
    ParseIntDecimal(status, rest);
  }

  // ---------------------------------------------------------------------------
  // Request URLs

  function BoolString(b: bool): string {
    if b then "true" else "false"
  }

  /**
   * The query parameters of `getAllBreachesForAccount`, in the order they are
   * appended; there are none exactly when no optional argument was given.
   */
  function QueryPairs(args: BreachArgs): (ps: seq<(string, string)>)
    ensures |ps| <= 3
    ensures ps == [] <==> !Provided(args.domain) && args.includeUnverified.None? && args.truncateResponse.None?
  {
    (if Provided(args.domain) then [("domain", args.domain.value)] else [])
    + (if args.includeUnverified.Some? then [("includeUnverified", BoolString(args.includeUnverified.value))] else [])
    + (if args.truncateResponse.Some? then [("truncateResponse", BoolString(args.truncateResponse.value))] else [])
  }

  function KeyRank(key: string): int {
    if key == "domain" then 0 else if key == "includeUnverified" then 1 else 2
  }

  /**
   * Each optional parameter is sent exactly when it was provided (a domain
   * only when non-empty; the flags whenever defined, `false` included), with
   * its value, and the parameters always come in the order domain,
   * includeUnverified, truncateResponse.
   */
  lemma QueryPairsOrderAndPresence(args: BreachArgs)
    ensures var ps := QueryPairs(args);
      && |ps| <= 3
      && (forall p :: p in ps ==> p.0 in {"domain", "includeUnverified", "truncateResponse"})
      && (forall i, j :: 0 <= i < j < |ps| ==> KeyRank(ps[i].0) < KeyRank(ps[j].0))
      && (forall d :: ("domain", d) in ps <==> args.domain == Some(d) && d != "")
      && (forall b :: ("includeUnverified", BoolString(b)) in ps <==> args.includeUnverified == Some(b))
      && (forall b :: ("truncateResponse", BoolString(b)) in ps <==> args.truncateResponse == Some(b))
  {
  }

  /** `URLSearchParams.toString()`: `key=value` pairs joined by `&`, each part form-encoded. */
  function FormSerialize(ps: seq<(string, string)>, formEncode: string -> string): (query: string)
    ensures query == "" <==> ps == []
  {
    if ps == [] then ""
    else
      var pair := formEncode(ps[0].0) + "=" + formEncode(ps[0].1);
      if |ps| == 1 then pair else pair + "&" + FormSerialize(ps[1..], formEncode)
  }

  /** The required argument of the operation is missing (`!account`, `!name`). */
  predicate MissingRequired(op: Operation, args: BreachArgs) {
    (op.GetAllBreachesForAccount? && !Provided(args.account)) || (op.GetBreachByName? && !Provided(args.name))
  }

  /** The URL of each breaches operation, or the error thrown before any URL is produced. */
  function RequestUrl(op: Operation, args: BreachArgs, encode: string -> string, formEncode: string -> string)
    : (r: Result<string, ToolError>)
    ensures r.Failure? <==> MissingRequired(op, args)
    ensures r.Failure? ==> r.error == if op.GetAllBreachesForAccount? then AccountRequired else NameRequired
  {
    match op
    case GetAllBreachesForAccount =>
      if !Provided(args.account) then Failure(AccountRequired)
      else
        var ps := QueryPairs(args);
        var path := ApiBaseUrl + "/breachedaccount/" + encode(args.account.value);
        Success(if ps == [] then path else path + "?" + FormSerialize(ps, formEncode))
    case GetAllBreachedSites =>
      Success(ApiBaseUrl + "/breaches"
        + if Provided(args.domain) then "?domain=" + encode(args.domain.value) else "")
    case GetBreachByName =>
      if !Provided(args.name) then Failure(NameRequired)
      else Success(ApiBaseUrl + "/breach/" + encode(args.name.value))
    case GetDataClasses =>
      Success(ApiBaseUrl + "/dataclasses")
  }

  /**
   * For an account lookup the URL carries a `?` exactly when at least one
   * optional parameter was appended; the account path never changes.
   */
  lemma AccountUrlQueryMark(args: BreachArgs, encode: string -> string, formEncode: string -> string)
    requires Provided(args.account)
    ensures var path := ApiBaseUrl + "/breachedaccount/" + encode(args.account.value);
      var r := RequestUrl(GetAllBreachesForAccount, args, encode, formEncode);
      && r.Success?
      && (QueryPairs(args) == [] <==> r.value == path)
      && (QueryPairs(args) != [] ==> r.value == path + "?" + FormSerialize(QueryPairs(args), formEncode))
  {
    var path := ApiBaseUrl + "/breachedaccount/" + encode(args.account.value);
    var r := RequestUrl(GetAllBreachesForAccount, args, encode, formEncode);
    if QueryPairs(args) != [] {
      assert |r.value| > |path|;
    }
  }

  /** The URL construction of the breaches handler, step by step as the source mutates `url` and `queryParams`. */
  method BuildRequestUrl(op: Operation, args: BreachArgs, encode: string -> string, formEncode: string -> string)
    returns (r: Result<string, ToolError>)
    ensures r == RequestUrl(op, args, encode, formEncode)
  {
    var url := "";
    match op {
      case GetAllBreachesForAccount =>
        if !Provided(args.account) {
          return Failure(AccountRequired);
        }
        url := ApiBaseUrl + "/breachedaccount/" + encode(args.account.value);
        var queryParams: seq<(string, string)> := [];
        if Provided(args.domain) {
          queryParams := queryParams + [("domain", args.domain.value)];
        }
        if args.includeUnverified.Some? {
          queryParams := queryParams + [("includeUnverified", BoolString(args.includeUnverified.value))];
        }
        if args.truncateResponse.Some? {
          queryParams := queryParams + [("truncateResponse", BoolString(args.truncateResponse.value))];
        }
        assert queryParams == QueryPairs(args);
        var query := FormSerialize(queryParams, formEncode);
        if query != "" {
          url := url + "?" + query;
        }
        assert Success(url) == RequestUrl(op, args, encode, formEncode);
      case GetAllBreachedSites =>
        url := ApiBaseUrl + "/breaches";
        if Provided(args.domain) {
          url := url + "?domain=" + encode(args.domain.value);
          assert url == ApiBaseUrl + "/breaches" + ("?domain=" + encode(args.domain.value));
        } else {
          assert url == ApiBaseUrl + "/breaches" + "";
        }
        assert Success(url) == RequestUrl(op, args, encode, formEncode);
      case GetBreachByName =>
        if !Provided(args.name) {
          return Failure(NameRequired);
        }
        url := ApiBaseUrl + "/breach/" + encode(args.name.value);
      case GetDataClasses =>
        url := ApiBaseUrl + "/dataclasses";
    }
    r := Success(url);
  }

  function PasteUrl(account: string, encode: string -> string): string {
    ApiBaseUrl + "/pasteaccount/" + encode(account)
  }

  // ---------------------------------------------------------------------------
  // Responses

  /** The part of a `fetch` response the handlers read. */
  datatype HttpResponse = HttpResponse(status: int, retryAfter: Option<string>, body: string)

  /** `response.ok`. */
  predicate IsOk(status: int) {
    200 <= status <= 299
  }

  /**
   * What a tool returns: a "no results" message, the response body (which the
   * handler then parses and pretty-prints as JSON), or an error.
   */
  datatype Reply = NoResults(text: string) | Payload(body: string) | Failed(error: ToolError)

  /**
   * The status checks, in source order: 404, then 429, then `!response.ok`.
   * `noResults` is the message a 404 means for this lookup, if it means "no
   * results" at all.
   */
  function Classify(noResults: Option<string>, url: string, response: HttpResponse): (reply: Reply)
    ensures reply.Failed? <==> !IsOk(response.status) && !(response.status == 404 && noResults.Some?)
    ensures reply.NoResults? <==> response.status == 404 && noResults.Some?
    ensures reply.Payload? ==> reply.body == response.body
    ensures response.status == 404 && noResults.None? ==> reply == Failed(NotFound(url))
    ensures response.status == 429 ==>
      reply == Failed(RateLimited(if Provided(response.retryAfter) then response.retryAfter.value else "Unknown"))
    ensures response.status != 404 && response.status != 429 && !IsOk(response.status) ==>
      reply == Failed(ApiError(response.status, response.body))
  {
    if response.status == 404 then
      if noResults.Some? then NoResults(noResults.value) else Failed(NotFound(url))
    else if response.status == 429 then
      Failed(RateLimited(if Provided(response.retryAfter) then response.retryAfter.value else "Unknown"))
    else if !IsOk(response.status) then
      Failed(ApiError(response.status, response.body))
    else
      Payload(response.body)
  }

  /** What a 404 means for a breaches operation: "no breaches" only for the account lookup. */
  function BreachesNoResults(op: Operation, args: BreachArgs): (r: Option<string>)
    ensures r.Some? ==> op.GetAllBreachesForAccount?
    ensures op.GetAllBreachesForAccount? && Provided(args.account) ==>
      r == Some("Good news! No breaches found for account: " + args.account.value)
  {
    if op.GetAllBreachesForAccount? && args.account.Some? then
      Some("Good news! No breaches found for account: " + args.account.value)
    else None
  }

  // ---------------------------------------------------------------------------
  // Handlers

  /**
   * The "HIBP-Breaches" handler: API key check, one `throttle()` (at clock
   * `now`, see `RateLimiter.Throttle`), URL construction, the request, and the
   * status classification. `request` is the URL fetched, if any; `response`
   * is what that fetch returns.
   */
  method BreachesTool(
    limiter: RateLimiter, apiKey: Option<string>, op: Operation, args: BreachArgs,
    encode: string -> string, formEncode: string -> string,
    now: int, resumeLag: nat, appendLag: nat, response: HttpResponse)
    returns (reply: Reply, request: Option<string>)
    modifies limiter`requestTimestamps, limiter.suspender
    ensures limiter.config == old(limiter.config) && limiter.suspender == old(limiter.suspender)
    ensures !Provided(apiKey) ==>
      && reply == Failed(MissingApiKey) && request == None
      && limiter.requestTimestamps == old(limiter.requestTimestamps)
      && limiter.suspender.requested == old(limiter.suspender.requested)
    ensures Provided(apiKey) ==>
      var a := Admit(old(limiter.requestTimestamps), limiter.config.requestsPerMinute, now, resumeLag, appendLag);
      && limiter.requestTimestamps == a.timestamps
      && limiter.suspender.requested == old(limiter.suspender.requested) +
           (if a.suspendedFor.Some? then [a.suspendedFor.value] else [])
    ensures Provided(apiKey) ==>
      var url := RequestUrl(op, args, encode, formEncode);
      && (url.Failure? ==> reply == Failed(url.error) && request == None)
      && (url.Success? ==> request == Some(url.value)
                           && reply == Classify(BreachesNoResults(op, args), url.value, response))
  {
    if !Provided(apiKey) {
      return Failed(MissingApiKey), None;
    }
    limiter.Throttle(now, resumeLag, appendLag);
    var url := BuildRequestUrl(op, args, encode, formEncode);
    if url.Failure? {
      return Failed(url.error), None;
    }
    request := Some(url.value);
    reply := Classify(BreachesNoResults(op, args), url.value, response);
  }

  /** The "HIBP-Pastes" handler: API key check, one `throttle()`, the request, the status classification. */
  method PastesTool(
    limiter: RateLimiter, apiKey: Option<string>, account: string, encode: string -> string,
    now: int, resumeLag: nat, appendLag: nat, response: HttpResponse)
    returns (reply: Reply, request: Option<string>)
    modifies limiter`requestTimestamps, limiter.suspender
    ensures limiter.config == old(limiter.config) && limiter.suspender == old(limiter.suspender)
    ensures !Provided(apiKey) ==>
      && reply == Failed(MissingApiKey) && request == None
      && limiter.requestTimestamps == old(limiter.requestTimestamps)
      && limiter.suspender.requested == old(limiter.suspender.requested)
    ensures Provided(apiKey) ==>
      var a := Admit(old(limiter.requestTimestamps), limiter.config.requestsPerMinute, now, resumeLag, appendLag);
      && limiter.requestTimestamps == a.timestamps
      && limiter.suspender.requested == old(limiter.suspender.requested) +
           (if a.suspendedFor.Some? then [a.suspendedFor.value] else [])
      && request == Some(PasteUrl(account, encode))
      && reply == Classify(Some("Good news! No pastes found for account: " + account), PasteUrl(account, encode), response)
  {
    if !Provided(apiKey) {
      return Failed(MissingApiKey), None;
    }
    limiter.Throttle(now, resumeLag, appendLag);
    var url := PasteUrl(account, encode);
    request := Some(url);
    reply := Classify(Some("Good news! No pastes found for account: " + account), url, response);
  }
}
