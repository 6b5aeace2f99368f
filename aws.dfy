/**
 * The generic client engine that every service client is built on: the
 * client object `genericAWSClient` completes, `sign`, the request that
 * `doRequest` prepares, and the `cycle` countdown that retries failed
 * attempts.
 *
 * The network is an oracle: each attempt is given the clock readings it
 * takes and the outcome of its exchange. HMAC-SHA256 with base64 and
 * `querystring.stringify` are parameters.
 */
module Aws {
  import opened Wrappers
  import opened UriEncoding
  import opened JsStrings
  import opened JsObjects
  import opened Timestamp
  import opened Signing

  /** The countdown `cycle` starts from: at most this many attempts per call. */
  const MaxTries: nat := 3

  const CredentialsMessage := "secretAccessKey and accessKeyId must be set"
  const FormContentType := "application/x-www-form-urlencoded; charset=utf-8"

  /** The keys query-mode signing sets. */
  const ProtocolKeys: set<string> := {"AWSAccessKeyId", "SignatureVersion", "SignatureMethod", "Timestamp", "Signature"}

  /** The Node module a client sends through. */
  datatype Transport = Https | Http

  /** A header value: a string, or a number such as `body.length`. */
  datatype HeaderValue = Text(text: string) | Number(number: int)

  /** The options handed to `connection.request` and the body written to the request. */
  datatype Request = Request(transport: Transport, host: string, path: string, verb: string,
                             headers: map<string, HeaderValue>, body: string)

  /** What one attempt reads from the clock: the UTC fields of a `new Date()` and `now.toUTCString()`. */
  datatype Clock = Clock(utc: UtcFields, utcString: string)

  /**
   * How one exchange ends: a response with its status code (and what xml2js
   * parses its body to), or an `'error'` event on the request.
   */
  datatype Outcome<R> = Responded(status: int, parsed: R) | RequestError

  /** The environment of one attempt. */
  datatype Attempt<R> = Attempt(clock: Clock, outcome: Outcome<R>)

  /** The foreign calls: `hmacSha256(key, toSign)` and `querystring.stringify`. */
  datatype Primitives = Primitives(hmacSha256: (string, string) -> string, stringify: JsObject -> string)

  /** What the caller's callback receives: `callback(result)` or `callback()`. */
  datatype CallbackArgs<R> = WithResult(result: R) | NoArgs

  /** How `call` ends: by throwing, or by invoking the callback. */
  datatype CallOutcome<R> = Threw(message: string) | CalledBack(args: CallbackArgs<R>)

  /** The client fields `call` and `sign` read; an absent field is `None`. */
  datatype ClientConfig = ClientConfig(host: string, path: string,
                                       accessKeyId: Option<string>, secretAccessKey: Option<string>,
                                       secure: Option<bool>, signHeader: bool, connection: Option<Transport>)
  {
    predicate HasCredentials()
    {
      accessKeyId.Some? && secretAccessKey.Some?
    }
  }

  /** The query after the four protocol parameters are set, in the order `doRequest` sets them. */
  function WithProtocolParams(query: JsObject, accessKeyId: string, timestamp: string): JsObject
  {
    query.Set("AWSAccessKeyId", accessKeyId).Set("SignatureVersion", "2").Set("SignatureMethod", "HmacSHA256").Set("Timestamp", timestamp)
  }

  /**
   * The protocol parameters are added with their values, and the caller's
   * other parameters keep their values and their places.
   */
  lemma WithProtocolParamsSets(query: JsObject, accessKeyId: string, timestamp: string)
    ensures var r := WithProtocolParams(query, accessKeyId, timestamp);
      && r.values.Keys == query.values.Keys + (ProtocolKeys - {"Signature"})
      && (forall k :: k in query.values && k !in ProtocolKeys - {"Signature"} ==> r.values[k] == query.values[k])
      && r.values["AWSAccessKeyId"] == accessKeyId && r.values["Timestamp"] == timestamp
      && r.values["SignatureVersion"] == "2" && r.values["SignatureMethod"] == "HmacSHA256"
      && |query.keys| <= |r.keys| && r.keys[..|query.keys|] == query.keys
  {
  }

  /**
   * The query after query-mode signing: the protocol parameters are added,
   * the caller's own parameters keep their values and their places, and
   * `Signature` is set last.
   */
  function QuerySigned(cfg: ClientConfig, query: JsObject, clock: Clock, prims: Primitives): JsObject
    requires cfg.HasCredentials()
  {
    var withParams := WithProtocolParams(query, cfg.accessKeyId.value, IsoDateString(clock.utc));
    withParams.Set("Signature", prims.hmacSha256(cfg.secretAccessKey.value, StringToSign(cfg.host, cfg.path, withParams)))
  }

  /**
   * After query-mode signing the query holds the caller's keys and the five
   * protocol keys; the caller's other parameters keep their values and their
   * places, and the protocol parameters hold the access key id, version "2",
   * method "HmacSHA256" and the timestamp of the attempt's clock.
   */
  lemma QuerySignedParams(cfg: ClientConfig, query: JsObject, clock: Clock, prims: Primitives)
    requires cfg.HasCredentials()
    ensures var r := QuerySigned(cfg, query, clock, prims);
      && r.values.Keys == query.values.Keys + ProtocolKeys
      && (forall k :: k in query.values && k !in ProtocolKeys ==> r.values[k] == query.values[k])
      && r.values["AWSAccessKeyId"] == cfg.accessKeyId.value
      && r.values["SignatureVersion"] == "2" && r.values["SignatureMethod"] == "HmacSHA256"
      && r.values["Timestamp"] == IsoDateString(clock.utc)
      && |query.keys| <= |r.keys| && r.keys[..|query.keys|] == query.keys
  {
    var withParams := WithProtocolParams(query, cfg.accessKeyId.value, IsoDateString(clock.utc));
    var signature := prims.hmacSha256(cfg.secretAccessKey.value, StringToSign(cfg.host, cfg.path, withParams));
    WithProtocolParamsSets(query, cfg.accessKeyId.value, IsoDateString(clock.utc));
    SetExtends(withParams, "Signature", signature);
    PrefixOfPrefix(query.keys, withParams.keys, withParams.Set("Signature", signature).keys);
  }

  /**
   * The parameters the signature of `signed` was computed over: `signed` with
   * `Signature` as the caller's query held it, or without one if it held none.
   */
  function SignedOver(query: map<string, string>, signed: map<string, string>): map<string, string>
  {
    if "Signature" in query then signed["Signature" := query["Signature"]] else signed - {"Signature"}
  }

  lemma SignedOverRestores(query: map<string, string>, signed: map<string, string>, signature: string)
    requires "Signature" in signed <==> "Signature" in query
    requires "Signature" in query ==> signed["Signature"] == query["Signature"]
    ensures SignedOver(query, signed["Signature" := signature]) == signed
  {
  }

  lemma WithProtocolParamsValid(query: JsObject, accessKeyId: string, timestamp: string)
    requires query.Valid()
    ensures WithProtocolParams(query, accessKeyId, timestamp).Valid()
  {
    var a := query.Set("AWSAccessKeyId", accessKeyId);
    var b := a.Set("SignatureVersion", "2");
    var c := b.Set("SignatureMethod", "HmacSHA256");
    SetKeepsOrder(query, "AWSAccessKeyId", accessKeyId);
    SetKeepsOrder(a, "SignatureVersion", "2");
    SetKeepsOrder(b, "SignatureMethod", "HmacSHA256");
    SetKeepsOrder(c, "Timestamp", timestamp);
  }

  /** Query-mode signing keeps the query well formed. */
  lemma QuerySignedValid(cfg: ClientConfig, query: JsObject, clock: Clock, prims: Primitives)
    requires cfg.HasCredentials() && query.Valid()
    ensures QuerySigned(cfg, query, clock, prims).Valid()
  {
    var withParams := WithProtocolParams(query, cfg.accessKeyId.value, IsoDateString(clock.utc));
    WithProtocolParamsValid(query, cfg.accessKeyId.value, IsoDateString(clock.utc));
    SetKeepsOrder(withParams, "Signature", prims.hmacSha256(cfg.secretAccessKey.value, StringToSign(cfg.host, cfg.path, withParams)));
  }

  /**
   * The `Signature` query-mode signing sets is the HMAC of the string to sign
   * for the parameters as they stood just before: the caller's parameters (a
   * `Signature` among them included) and the other four protocol parameters.
   */
  lemma QuerySignedSignature(cfg: ClientConfig, query: JsObject, clock: Clock, prims: Primitives)
    requires cfg.HasCredentials() && query.Valid()
    ensures var r := QuerySigned(cfg, query, clock, prims);
      r.values["Signature"] == prims.hmacSha256(cfg.secretAccessKey.value, SignedString(cfg.host, cfg.path, SignedOver(query.values, r.values)))
  {
    var withParams := WithProtocolParams(query, cfg.accessKeyId.value, IsoDateString(clock.utc));
    WithProtocolParamsValid(query, cfg.accessKeyId.value, IsoDateString(clock.utc));
    StringToSignIgnoresOrder(cfg.host, cfg.path, withParams);
    SignedOverProtocolParams(cfg, query, clock, prims);
  }

  /** Restoring the caller's `Signature` in the signed query gives back the parameters the signature covers. */
  lemma SignedOverProtocolParams(cfg: ClientConfig, query: JsObject, clock: Clock, prims: Primitives)
    requires cfg.HasCredentials()
    ensures SignedOver(query.values, QuerySigned(cfg, query, clock, prims).values)
         == WithProtocolParams(query, cfg.accessKeyId.value, IsoDateString(clock.utc)).values
  {
    var withParams := WithProtocolParams(query, cfg.accessKeyId.value, IsoDateString(clock.utc));
    var signature := prims.hmacSha256(cfg.secretAccessKey.value, StringToSign(cfg.host, cfg.path, withParams));
    WithProtocolParamsSets(query, cfg.accessKeyId.value, IsoDateString(clock.utc));
    SignedOverRestores(query.values, withParams.values, signature);
  }

  /** The query after one attempt's preparation: signed in query mode, untouched in header mode. */
  function PreparedQuery(cfg: ClientConfig, query: JsObject, clock: Clock, prims: Primitives): JsObject
    requires cfg.HasCredentials()
  {
    if cfg.signHeader then query else QuerySigned(cfg, query, clock, prims)
  }

  /** The `x-amzn-authorization` value of header mode. */
  function Authorization(accessKeyId: string, signature: string): string
  {
    "AWS3-HTTPS " + "AWSAccessKeyId=" + accessKeyId + ", " + "Algorithm=HmacSHA256, " + "Signature=" + signature
  }

  /**
   * The headers of a request with this body: `Host`, `Content-Type` and
   * `Content-Length` always, and in header mode `Date` and
   * `x-amzn-authorization` signed over the date string.
   */
  function RequestHeaders(cfg: ClientConfig, body: string, clock: Clock, prims: Primitives): map<string, HeaderValue>
    requires cfg.HasCredentials()
  {
    var base := map["Host" := Text(cfg.host), "Content-Type" := Text(FormContentType), "Content-Length" := Number(Utf16Length(body))];
    if cfg.signHeader then
      base["Date" := Text(clock.utcString)]
          ["x-amzn-authorization" := Text(Authorization(cfg.accessKeyId.value, prims.hmacSha256(cfg.secretAccessKey.value, clock.utcString)))]
    else
      base
  }

  /**
   * The request headers are `Host`, `Content-Type` and `Content-Length` (the
   * body's length in UTF-16 code units), and in header mode also `Date` and
   * `x-amzn-authorization`, whose signature covers the date string only.
   */
  lemma RequestHeadersLayout(cfg: ClientConfig, body: string, clock: Clock, prims: Primitives)
    requires cfg.HasCredentials()
    ensures var h := RequestHeaders(cfg, body, clock, prims);
      && h.Keys == {"Host", "Content-Type", "Content-Length"} + (if cfg.signHeader then {"Date", "x-amzn-authorization"} else {})
      && h["Host"] == Text(cfg.host) && h["Content-Type"] == Text(FormContentType)
      && h["Content-Length"] == Number(Utf16Length(body))
      && (cfg.signHeader ==> h["Date"] == Text(clock.utcString))
      && (cfg.signHeader ==>
            h["x-amzn-authorization"] == Text(Authorization(cfg.accessKeyId.value, prims.hmacSha256(cfg.secretAccessKey.value, clock.utcString))))
  {
  }

  /** The request an attempt sends once its query is prepared. */
  function RequestFor(cfg: ClientConfig, prepared: JsObject, clock: Clock, prims: Primitives): Request
    requires cfg.HasCredentials() && cfg.connection.Some?
  {
    var body := prims.stringify(prepared);
    Request(cfg.connection.value, cfg.host, cfg.path, "POST", RequestHeaders(cfg, body, clock, prims), body)
  }

  /** An attempt succeeds on status 200; any other status and any request error are failures. */
  predicate Succeeded<R>(o: Outcome<R>)
  {
    o.Responded? && o.status == 200
  }

  /** The first attempt, from `from` on and within the budget, that succeeds. */
  function FirstSuccess<R>(env: seq<Attempt<R>>, from: nat): (r: Option<nat>)
    requires |env| >= MaxTries && from <= MaxTries
    ensures r.Some? ==> from <= r.value < MaxTries && Succeeded(env[r.value].outcome)
    ensures r.Some? ==> forall j :: from <= j < r.value ==> !Succeeded(env[j].outcome)
    ensures r.None? <==> forall j :: from <= j < MaxTries ==> !Succeeded(env[j].outcome)
    decreases MaxTries - from
  {
    if from == MaxTries then None
    else if Succeeded(env[from].outcome) then Some(from)
    else FirstSuccess(env, from + 1)
  }

  /** Attempts known to fail do not change where the first success is. */
  lemma {:induction false} FailuresSkipped<R>(env: seq<Attempt<R>>, k: nat)
    requires |env| >= MaxTries && k <= MaxTries
    requires forall j :: 0 <= j < k ==> !Succeeded(env[j].outcome)
    ensures FirstSuccess(env, 0) == FirstSuccess(env, k)
  {
    if k > 0 {
      FailuresSkipped(env, k - 1);
    }
  }

  lemma AppendRegroups<T>(a: seq<T>, b: seq<T>, c: seq<T>)
    ensures a + (b + c) == (a + b) + c
  {
  }

  /** How many attempts a call with credentials makes: up to the first success, at most `MaxTries`. */
  function AttemptCount<R>(env: seq<Attempt<R>>): (n: nat)
    requires |env| >= MaxTries
    ensures 1 <= n <= MaxTries
    ensures forall j :: 0 <= j < n - 1 ==> !Succeeded(env[j].outcome)
    ensures n < MaxTries ==> Succeeded(env[n - 1].outcome)
  {
    match FirstSuccess(env, 0)
    case Some(i) => i + 1
    case None => MaxTries
  }

  /** What the callback receives: the parsed body of the first success, or nothing once every attempt failed. */
  function Delivered<R>(env: seq<Attempt<R>>): (args: CallbackArgs<R>)
    requires |env| >= MaxTries
    ensures args.NoArgs? <==> forall j :: 0 <= j < MaxTries ==> !Succeeded(env[j].outcome)
    ensures args.WithResult? ==> Succeeded(env[AttemptCount(env) - 1].outcome)
    ensures args.WithResult? ==> args.result == env[AttemptCount(env) - 1].outcome.parsed
  {
    match FirstSuccess(env, 0)
    case Some(i) => WithResult(env[i].outcome.parsed)
    case None => NoArgs
  }

  /** The caller's query after the first `n` attempts. */
  function QueryAfter<R>(cfg: ClientConfig, query: JsObject, env: seq<Attempt<R>>, prims: Primitives, n: nat): JsObject
    requires cfg.HasCredentials() && n <= |env|
  {
    if n == 0 then query else PreparedQuery(cfg, QueryAfter(cfg, query, env, prims, n - 1), env[n - 1].clock, prims)
  }

  /** The requests the first `n` attempts send, each carrying the query as that attempt prepared it. */
  function RequestsSent<R>(cfg: ClientConfig, query: JsObject, env: seq<Attempt<R>>, prims: Primitives, n: nat): seq<Request>
    requires cfg.HasCredentials() && cfg.connection.Some? && n <= |env|
  {
    if n == 0 then []
    else RequestsSent(cfg, query, env, prims, n - 1) + [RequestFor(cfg, QueryAfter(cfg, query, env, prims, n), env[n - 1].clock, prims)]
  }

  /** Everything a call produces: how it ends, the requests it sent, and the caller's query afterwards. */
  datatype CallResult<R> = CallResult(outcome: CallOutcome<R>, sent: seq<Request>, query: JsObject)

  /**
   * The whole of `call`: without credentials it throws before any attempt and
   * leaves the query alone; otherwise it makes `AttemptCount(env)` attempts,
   * each preparing the query (as left by the one before) and sending it, and
   * invokes the callback once with `Delivered(env)`.
   */
  function CallSpec<R>(cfg: ClientConfig, query: JsObject, prims: Primitives, env: seq<Attempt<R>>): CallResult<R>
    requires |env| >= MaxTries && cfg.connection.Some?
  {
    if !cfg.HasCredentials() then CallResult(Threw(CredentialsMessage), [], query)
    else
      var n := AttemptCount(env);
      CallResult(CalledBack(Delivered(env)), RequestsSent(cfg, query, env, prims, n), QueryAfter(cfg, query, env, prims, n))
  }

  /**
   * What `cycle` produces from attempt `done` on, given the query as the
   * earlier attempts left it: each attempt prepares the query and sends it;
   * a success ends the call with its parsed body, a failure moves on, and
   * once `MaxTries` attempts have failed the callback gets no arguments.
   */
  function Cycling<R>(cfg: ClientConfig, query: JsObject, prims: Primitives, env: seq<Attempt<R>>, done: nat): CallResult<R>
    requires cfg.HasCredentials() && cfg.connection.Some? && |env| >= MaxTries && done <= MaxTries
    decreases MaxTries - done
  {
    if done == MaxTries then CallResult(CalledBack(NoArgs), [], query)
    else
      var prepared := PreparedQuery(cfg, query, env[done].clock, prims);
      var req := RequestFor(cfg, prepared, env[done].clock, prims);
      if Succeeded(env[done].outcome) then CallResult(CalledBack(WithResult(env[done].outcome.parsed)), [req], prepared)
      else
        var rest := Cycling(cfg, prepared, prims, env, done + 1);
        CallResult(rest.outcome, [req] + rest.sent, rest.query)
  }

  /** What completing the call from attempt `done` means for cycling's result `r`. */
  ghost predicate CompletesCall<R>(cfg: ClientConfig, original: JsObject, prims: Primitives, env: seq<Attempt<R>>, done: nat, r: CallResult<R>)
    requires cfg.HasCredentials() && cfg.connection.Some? && |env| >= MaxTries && done <= MaxTries
  {
    && r.outcome == CalledBack(Delivered(env))
    && RequestsSent(cfg, original, env, prims, done) + r.sent == RequestsSent(cfg, original, env, prims, AttemptCount(env))
    && r.query == QueryAfter(cfg, original, env, prims, AttemptCount(env))
  }

  /**
   * Cycling from attempt `done`, after `done` failures, completes the call as
   * `CallSpec` describes it: the first success (or none) decides the
   * callback, and the requests and the query are those of `AttemptCount(env)`
   * attempts.
   */
  lemma CyclingCompletes<R>(cfg: ClientConfig, original: JsObject, prims: Primitives, env: seq<Attempt<R>>, done: nat)
    requires cfg.HasCredentials() && cfg.connection.Some? && |env| >= MaxTries && done <= MaxTries
    requires forall j :: 0 <= j < done ==> !Succeeded(env[j].outcome)
    ensures CompletesCall(cfg, original, prims, env, done, Cycling(cfg, QueryAfter(cfg, original, env, prims, done), prims, env, done))
    decreases MaxTries - done
  {
    FailuresSkipped(env, done);
    if done == MaxTries {
      CyclingExhausted(cfg, original, prims, env);
    } else if Succeeded(env[done].outcome) {
      CyclingSucceeds(cfg, original, prims, env, done);
    } else {
      CyclingCompletes(cfg, original, prims, env, done + 1);
      CyclingFails(cfg, original, prims, env, done);
    }
  }

  lemma CyclingExhausted<R>(cfg: ClientConfig, original: JsObject, prims: Primitives, env: seq<Attempt<R>>)
    requires cfg.HasCredentials() && cfg.connection.Some? && |env| >= MaxTries
    requires FirstSuccess(env, 0) == None
    ensures CompletesCall(cfg, original, prims, env, MaxTries, Cycling(cfg, QueryAfter(cfg, original, env, prims, MaxTries), prims, env, MaxTries))
  {
  }

  lemma CyclingSucceeds<R>(cfg: ClientConfig, original: JsObject, prims: Primitives, env: seq<Attempt<R>>, done: nat)
    requires cfg.HasCredentials() && cfg.connection.Some? && |env| >= MaxTries && done < MaxTries
    requires FirstSuccess(env, 0) == Some(done)
    ensures CompletesCall(cfg, original, prims, env, done, Cycling(cfg, QueryAfter(cfg, original, env, prims, done), prims, env, done))
  {
    var prepared := QueryAfter(cfg, original, env, prims, done + 1);
    var req := RequestFor(cfg, prepared, env[done].clock, prims);
    assert RequestsSent(cfg, original, env, prims, done + 1) == RequestsSent(cfg, original, env, prims, done) + [req];
  }

  lemma CyclingFails<R>(cfg: ClientConfig, original: JsObject, prims: Primitives, env: seq<Attempt<R>>, done: nat)
    requires cfg.HasCredentials() && cfg.connection.Some? && |env| >= MaxTries && done < MaxTries
    requires !Succeeded(env[done].outcome)
    requires CompletesCall(cfg, original, prims, env, done + 1, Cycling(cfg, QueryAfter(cfg, original, env, prims, done + 1), prims, env, done + 1))
    ensures CompletesCall(cfg, original, prims, env, done, Cycling(cfg, QueryAfter(cfg, original, env, prims, done), prims, env, done))
  {
    var prepared := QueryAfter(cfg, original, env, prims, done + 1);
    var req := RequestFor(cfg, prepared, env[done].clock, prims);
    var rest := Cycling(cfg, prepared, prims, env, done + 1);
    assert RequestsSent(cfg, original, env, prims, done + 1) == RequestsSent(cfg, original, env, prims, done) + [req];
    AppendRegroups(RequestsSent(cfg, original, env, prims, done), [req], rest.sent);
  }

  /** The first `n` attempts send `n` requests, the `i`-th carrying the query as attempt `i` prepared it. */
  lemma RequestsSentEach<R>(cfg: ClientConfig, query: JsObject, env: seq<Attempt<R>>, prims: Primitives, n: nat)
    requires cfg.HasCredentials() && cfg.connection.Some? && n <= |env|
    ensures |RequestsSent(cfg, query, env, prims, n)| == n
    ensures forall i :: 0 <= i < n ==>
      RequestsSent(cfg, query, env, prims, n)[i] == RequestFor(cfg, QueryAfter(cfg, query, env, prims, i + 1), env[i].clock, prims)
  {
    if n > 0 {
      RequestsSentEach(cfg, query, env, prims, n - 1);
      var earlier := RequestsSent(cfg, query, env, prims, n - 1);
      var last := RequestFor(cfg, QueryAfter(cfg, query, env, prims, n), env[n - 1].clock, prims);
      var sent := RequestsSent(cfg, query, env, prims, n);
      assert sent == earlier + [last];
      forall i | 0 <= i < n
        ensures sent[i] == RequestFor(cfg, QueryAfter(cfg, query, env, prims, i + 1), env[i].clock, prims)
      {
        if i < n - 1 {
          assert sent[i] == earlier[i];
        }
      }
    }
  }

  /** Without both credentials a call throws the credentials message before any request, leaving the query alone. */
  lemma MissingCredentialsThrow<R>(cfg: ClientConfig, query: JsObject, prims: Primitives, env: seq<Attempt<R>>)
    requires |env| >= MaxTries && cfg.connection.Some?
    requires cfg.accessKeyId.None? || cfg.secretAccessKey.None?
    ensures CallSpec(cfg, query, prims, env) == CallResult(Threw(CredentialsMessage), [], query)
  {
  }

  /**
   * With credentials a call makes one to `MaxTries` attempts and invokes the
   * callback once: every attempt but the last failed, and the callback gets
   * the last attempt's parsed body exactly when that attempt succeeded, and
   * nothing only after `MaxTries` failures.
   */
  lemma CallRetriesUpToMaxTries<R>(cfg: ClientConfig, query: JsObject, prims: Primitives, env: seq<Attempt<R>>)
    requires |env| >= MaxTries && cfg.connection.Some? && cfg.HasCredentials()
    ensures var r, n := CallSpec(cfg, query, prims, env), AttemptCount(env);
      && r.outcome.CalledBack?
      && |r.sent| == n && 1 <= n <= MaxTries
      && (forall j :: 0 <= j < n - 1 ==> !Succeeded(env[j].outcome))
      && (r.outcome.args.WithResult? <==> Succeeded(env[n - 1].outcome))
      && (r.outcome.args.WithResult? ==> r.outcome.args.result == env[n - 1].outcome.parsed)
      && (r.outcome.args.NoArgs? ==> n == MaxTries)
  {
    RequestsSentEach(cfg, query, env, prims, AttemptCount(env));
  }

  /** A response with a client-error status is retried like any other failure: a second attempt follows. */
  lemma ClientErrorIsRetried<R>(cfg: ClientConfig, query: JsObject, prims: Primitives, env: seq<Attempt<R>>)
    requires |env| >= MaxTries && cfg.connection.Some? && cfg.HasCredentials()
    requires env[0].outcome.Responded? && 400 <= env[0].outcome.status < 500
    ensures |CallSpec(cfg, query, prims, env).sent| >= 2
  {
    RequestsSentEach(cfg, query, env, prims, AttemptCount(env));
  }

  /**
   * Every request carries the prepared query as its body, with
   * `Content-Length` the body's UTF-16 length; in query mode the headers carry
   * no signature.
   */
  lemma RequestCarriesQuery(cfg: ClientConfig, prepared: JsObject, clock: Clock, prims: Primitives)
    requires cfg.HasCredentials() && cfg.connection.Some?
    ensures var req := RequestFor(cfg, prepared, clock, prims);
      && req.transport == cfg.connection.value && req.verb == "POST"
      && req.host == cfg.host && req.path == cfg.path
      && req.body == prims.stringify(prepared)
      && req.headers["Content-Length"] == Number(Utf16Length(req.body))
      && (!cfg.signHeader ==> req.headers.Keys == {"Host", "Content-Type", "Content-Length"})
  {
    RequestHeadersLayout(cfg, prims.stringify(prepared), clock, prims);
  }

  /** In header mode no attempt touches the query: each request's body is the caller's query as given. */
  lemma {:induction false} HeaderModeKeepsQuery<R>(cfg: ClientConfig, query: JsObject, env: seq<Attempt<R>>, prims: Primitives, n: nat)
    requires cfg.HasCredentials() && cfg.signHeader && n <= |env|
    ensures QueryAfter(cfg, query, env, prims, n) == query
  {
    if n > 0 {
      HeaderModeKeepsQuery(cfg, query, env, prims, n - 1);
    }
  }

  /** In query mode attempt `n` signs the query as attempt `n - 1` left it. */
  lemma QueryAfterStep<R>(cfg: ClientConfig, query: JsObject, env: seq<Attempt<R>>, prims: Primitives, n: nat)
    requires cfg.HasCredentials() && !cfg.signHeader && 1 <= n <= |env|
    ensures QueryAfter(cfg, query, env, prims, n) == QuerySigned(cfg, QueryAfter(cfg, query, env, prims, n - 1), env[n - 1].clock, prims)
  {
  }

  lemma ValidAfterStep<R>(cfg: ClientConfig, query: JsObject, env: seq<Attempt<R>>, prims: Primitives, n: nat)
    requires cfg.HasCredentials() && !cfg.signHeader && 1 <= n <= |env|
    requires QueryAfter(cfg, query, env, prims, n - 1).Valid()
    ensures QueryAfter(cfg, query, env, prims, n).Valid()
  {
    QueryAfterStep(cfg, query, env, prims, n);
    QuerySignedValid(cfg, QueryAfter(cfg, query, env, prims, n - 1), env[n - 1].clock, prims);
  }

  /** In query mode every attempt keeps the query well formed. */
  lemma QueryModeKeepsValid<R>(cfg: ClientConfig, query: JsObject, env: seq<Attempt<R>>, prims: Primitives, n: nat)
    requires cfg.HasCredentials() && !cfg.signHeader && query.Valid() && n <= |env|
    ensures QueryAfter(cfg, query, env, prims, n).Valid()
  {
    if n > 0 {
      QueryModeKeepsValid(cfg, query, env, prims, n - 1);
      ValidAfterStep(cfg, query, env, prims, n);
    }
  }

  /**
   * `q` holds the caller's keys in their places, plus the five protocol keys
   * once `signed`, and the caller's non-protocol parameters keep their values.
   */
  ghost predicate HoldsCallerParams(query: JsObject, q: JsObject, signed: bool)
  {
    && q.values.Keys == query.values.Keys + (if signed then ProtocolKeys else {})
    && (forall k :: k in query.values && k !in ProtocolKeys ==> q.values[k] == query.values[k])
    && |query.keys| <= |q.keys| && q.keys[..|query.keys|] == query.keys
  }

  /** Holding the caller's parameters survives a signing step that keeps what it found and adds the protocol keys. */
  lemma HoldsCallerParamsAfterSigning(query: JsObject, before: JsObject, after: JsObject, signed: bool)
    requires HoldsCallerParams(query, before, signed)
    requires after.values.Keys == before.values.Keys + ProtocolKeys
    requires forall k :: k in before.values && k !in ProtocolKeys ==> after.values[k] == before.values[k]
    requires |before.keys| <= |after.keys| && after.keys[..|before.keys|] == before.keys
    ensures HoldsCallerParams(query, after, true)
  {
    PrefixOfPrefix(query.keys, before.keys, after.keys);
  }

  lemma PrefixOfPrefix<T>(a: seq<T>, b: seq<T>, c: seq<T>)
    requires |a| <= |b| <= |c| && b[..|a|] == a && c[..|b|] == b
    ensures c[..|a|] == a
  {
    assert c[..|a|] == c[..|b|][..|a|];
  }

  lemma CallerParamsAfterStep<R>(cfg: ClientConfig, query: JsObject, env: seq<Attempt<R>>, prims: Primitives, n: nat)
    requires cfg.HasCredentials() && !cfg.signHeader && 1 <= n <= |env|
    requires HoldsCallerParams(query, QueryAfter(cfg, query, env, prims, n - 1), n > 1)
    ensures HoldsCallerParams(query, QueryAfter(cfg, query, env, prims, n), true)
  {
    QueryAfterStep(cfg, query, env, prims, n);
    QuerySignedParams(cfg, QueryAfter(cfg, query, env, prims, n - 1), env[n - 1].clock, prims);
    HoldsCallerParamsAfterSigning(query, QueryAfter(cfg, query, env, prims, n - 1), QueryAfter(cfg, query, env, prims, n), n > 1);
  }

  /**
   * In query mode, after `n` attempts the query holds the caller's keys, in
   * their places, plus the five protocol keys once an attempt was made, and
   * the caller's non-protocol parameters keep their values.
   */
  lemma QueryModeKeepsCallerParams<R>(cfg: ClientConfig, query: JsObject, env: seq<Attempt<R>>, prims: Primitives, n: nat)
    requires cfg.HasCredentials() && !cfg.signHeader && n <= |env|
    ensures HoldsCallerParams(query, QueryAfter(cfg, query, env, prims, n), n > 0)
  {
    if n > 0 {
      QueryModeKeepsCallerParams(cfg, query, env, prims, n - 1);
      CallerParamsAfterStep(cfg, query, env, prims, n);
    }
  }

  /** In query mode, after attempt `n` the query's `Timestamp` is that attempt's time. */
  lemma QueryModeTimestamp<R>(cfg: ClientConfig, query: JsObject, env: seq<Attempt<R>>, prims: Primitives, n: nat)
    requires cfg.HasCredentials() && !cfg.signHeader && 1 <= n <= |env|
    ensures QueryAfter(cfg, query, env, prims, n).values["Timestamp"] == IsoDateString(env[n - 1].clock.utc)
  {
    QueryAfterStep(cfg, query, env, prims, n);
    QuerySignedParams(cfg, QueryAfter(cfg, query, env, prims, n - 1), env[n - 1].clock, prims);
  }

  /**
   * A retry in query mode signs over the previous attempt's `Signature`,
   * which is still in the query: the signature of attempt `n + 1` is the
   * HMAC of the string to sign for its parameters with `Signature` as
   * attempt `n` left it.
   */
  lemma RetrySignsStaleSignature<R>(cfg: ClientConfig, query: JsObject, env: seq<Attempt<R>>, prims: Primitives, n: nat)
    requires cfg.HasCredentials() && !cfg.signHeader && query.Valid() && 1 <= n < |env|
    ensures var before, after := QueryAfter(cfg, query, env, prims, n), QueryAfter(cfg, query, env, prims, n + 1);
      && "Signature" in before.values
      && after.values["Signature"] ==
           prims.hmacSha256(cfg.secretAccessKey.value, SignedString(cfg.host, cfg.path, after.values["Signature" := before.values["Signature"]]))
  {
    QueryModeKeepsValid(cfg, query, env, prims, n);
    QueryAfterStep(cfg, query, env, prims, n);
    QuerySignedParams(cfg, QueryAfter(cfg, query, env, prims, n - 1), env[n - 1].clock, prims);
    QueryAfterStep(cfg, query, env, prims, n + 1);
    QuerySignedSignature(cfg, QueryAfter(cfg, query, env, prims, n), env[n].clock, prims);
  }

  /** The caller's mutable query object; `doRequest` writes into it. */
  class Query {
    var params: JsObject

    constructor (params: JsObject)
      ensures this.params == params
    {
      this.params := params;
    }
  }

  /** The client object a service module builds and `genericAWSClient` completes. */
  class AwsClient {
    var host: string
    var path: string
    var accessKeyId: Option<string>
    var secretAccessKey: Option<string>
    var secure: Option<bool>
    var signHeader: bool
    var connection: Option<Transport>

    /** The object literal a service module passes to `genericAWSClient`. */
    constructor (host: string, path: string, accessKeyId: Option<string>, secretAccessKey: Option<string>,
                 secure: Option<bool>, signHeader: bool)
      ensures Config() == ClientConfig(host, path, accessKeyId, secretAccessKey, secure, signHeader, None)
    {
      this.host, this.path := host, path;
      this.accessKeyId, this.secretAccessKey := accessKeyId, secretAccessKey;
      this.secure, this.signHeader := secure, signHeader;
      this.connection := None;
    }

    function Config(): ClientConfig
      reads this
    {
      ClientConfig(host, path, accessKeyId, secretAccessKey, secure, signHeader, connection)
    }

    /** The `for (var key in query)` loop of `obj.sign`: the keys in enumeration order. */
    static method EnumerateKeys(query: JsObject) returns (keys: seq<string>)
      ensures keys == query.keys
    {
      keys := [];
      var n := 0;
      while n < |query.keys|
        invariant 0 <= n <= |query.keys|
        invariant keys == query.keys[..n]
      {
        keys := keys + [query.keys[n]];
        n := n + 1;
      }
      assert query.keys[..n] == query.keys;
    }

    /** The `qsArray` loop of `obj.sign`: one encoded entry per key, in the order of `keys`. */
    static method EncodePairs(keys: seq<string>, values: map<string, string>) returns (qsArray: seq<string>)
      ensures |qsArray| == |keys|
      ensures forall i :: 0 <= i < |keys| ==> qsArray[i] == QueryPair(keys[i], PropertyString(values, keys[i]))
    {
      qsArray := [];
      var n := 0;
      while n < |keys|
        invariant 0 <= n <= |keys| && |qsArray| == n
        invariant forall i :: 0 <= i < n ==> qsArray[i] == QueryPair(keys[i], PropertyString(values, keys[i]))
      {
        var key := keys[n];
        qsArray := qsArray + [QueryPair(key, PropertyString(values, key))];
        n := n + 1;
      }
    }

    /** `obj.sign`: the HMAC of the string to sign for the query as it stands; the query is only read. */
    method Sign(query: Query, prims: Primitives) returns (signature: string)
      requires secretAccessKey.Some?
      ensures signature == prims.hmacSha256(secretAccessKey.value, StringToSign(host, path, query.params))
    {
      var keys := EnumerateKeys(query.params);
      keys := SortKeys(keys);
      var qsArray := EncodePairs(keys, query.params.values);
      QueryPairsEach(keys, query.params.values);
      assert qsArray == QueryPairs(keys, query.params.values);

      var stringToSign := Join("\n", ["POST", host, path, Join("&", qsArray)]);
      stringToSign := ReplaceAll(stringToSign, '!', "%21");
      stringToSign := ReplaceAll(stringToSign, '\'', "%27");
      stringToSign := ReplaceAll(stringToSign, '*', "%2A");
      stringToSign := ReplaceAll(stringToSign, '(', "%28");
      stringToSign := ReplaceAll(stringToSign, ')', "%29");
      signature := prims.hmacSha256(secretAccessKey.value, stringToSign);
    }

    /** The query-mode half of `doRequest`: the four protocol parameters, then `Signature` over them. */
    method SignQuery(query: Query, prims: Primitives, clock: Clock)
      requires Config().HasCredentials()
      modifies query
      ensures query.params == QuerySigned(Config(), old(query.params), clock, prims)
    {
      query.params := query.params.Set("AWSAccessKeyId", accessKeyId.value);
      query.params := query.params.Set("SignatureVersion", "2");
      query.params := query.params.Set("SignatureMethod", "HmacSHA256");
      query.params := query.params.Set("Timestamp", IsoDateString(clock.utc));
      assert query.params == WithProtocolParams(old(query.params), accessKeyId.value, IsoDateString(clock.utc));
      var signature := Sign(query, prims);
      query.params := query.params.Set("Signature", signature);
    }

    /** The headers `doRequest` builds for a body; header mode adds the date and its signature. */
    method Headers(body: string, prims: Primitives, clock: Clock) returns (headers: map<string, HeaderValue>)
      requires Config().HasCredentials()
      ensures headers == RequestHeaders(Config(), body, clock, prims)
    {
      headers := map["Host" := Text(host), "Content-Type" := Text(FormContentType),
                     "Content-Length" := Number(Utf16Length(body))];
      if signHeader {
        headers := headers["Date" := Text(clock.utcString)];
        headers := headers["x-amzn-authorization" :=
          Text("AWS3-HTTPS " + "AWSAccessKeyId=" + accessKeyId.value + ", " + "Algorithm=HmacSHA256, "
               + "Signature=" + prims.hmacSha256(secretAccessKey.value, clock.utcString))];
      }
    }

    /**
     * `doRequest`: prepares the query and headers for one attempt, sends the
     * request, and reports whether the attempt succeeded (`cb(true, result)`)
     * or failed (`cb(false)`).
     */
    method DoRequest<R>(query: Query, prims: Primitives, attempt: Attempt<R>) returns (req: Request, reply: Option<R>)
      requires Config().HasCredentials() && connection.Some?
      modifies query
      ensures query.params == PreparedQuery(Config(), old(query.params), attempt.clock, prims)
      ensures req == RequestFor(Config(), query.params, attempt.clock, prims)
      ensures reply == if Succeeded(attempt.outcome) then Some(attempt.outcome.parsed) else None
    {
      if !signHeader {
        SignQuery(query, prims, attempt.clock);
      }
      var body := prims.stringify(query.params);
      var headers := Headers(body, prims, attempt.clock);
      req := Request(connection.value, host, path, "POST", headers, body);

      match attempt.outcome {
        case RequestError =>
          reply := None;
        case Responded(status, parsed) =>
          if status != 200 {
            reply := None;
          } else {
            reply := Some(parsed);
          }
      }
    }

    /**
     * `cycle(remainingTries)`: while tries remain, runs one attempt with one
     * try fewer left; a success ends the call with the parsed result, a
     * failure cycles again, and with no try left the callback is invoked
     * without arguments. The `success` flag the source tests is never set,
     * so only the count decides.
     */
    method Cycle<R>(remainingTries: nat, query: Query, prims: Primitives, env: seq<Attempt<R>>)
      returns (outcome: CallOutcome<R>, sent: seq<Request>)
      requires Config().HasCredentials() && connection.Some? && |env| >= MaxTries && remainingTries <= MaxTries
      modifies query
      ensures CallResult(outcome, sent, query.params) == Cycling(Config(), old(query.params), prims, env, MaxTries - remainingTries)
      decreases remainingTries
    {
      var done := MaxTries - remainingTries;
      if remainingTries > 0 {
        var req, reply := DoRequest(query, prims, env[done]);
        if reply.Some? {
          outcome, sent := CalledBack(WithResult(reply.value)), [req];
        } else {
          var later;
          outcome, later := Cycle(remainingTries - 1, query, prims, env);
          sent := [req] + later;
        }
      } else {
        // the countdown reached zero: the callback is invoked without a result
        outcome, sent := CalledBack(NoArgs), [];
      }
    }

    /**
     * `obj.call`: throws when a credential is missing, otherwise starts the
     * countdown at `MaxTries`. The `action` argument is not read by the engine.
     */
    method Call<R>(action: string, query: Query, prims: Primitives, env: seq<Attempt<R>>)
      returns (outcome: CallOutcome<R>, sent: seq<Request>)
      requires |env| >= MaxTries && connection.Some?
      modifies query
      ensures CallResult(outcome, sent, query.params) == CallSpec(Config(), old(query.params), prims, env)
    {
      if secretAccessKey.None? || accessKeyId.None? {
        outcome, sent := Threw(CredentialsMessage), [];
        return;
      }
      ghost var original := query.params;
      outcome, sent := Cycle(MaxTries, query, prims, env);
      CyclingCompletes(Config(), original, prims, env, 0);
    }
  }

  /**
   * `genericAWSClient`: defaults `secure` to true when it is absent and picks
   * the transport from it; every other field stays as the service module set it.
   */
  method GenericAwsClient(obj: AwsClient) returns (client: AwsClient)
    modifies obj
    ensures client == obj
    ensures obj.secure == if old(obj.secure).None? then Some(true) else old(obj.secure)
    ensures obj.connection == Some(if obj.secure.value then Https else Http)
    ensures obj.host == old(obj.host) && obj.path == old(obj.path)
    ensures obj.accessKeyId == old(obj.accessKeyId) && obj.secretAccessKey == old(obj.secretAccessKey)
    ensures obj.signHeader == old(obj.signHeader)
  {
    if obj.secure.None? {
      obj.secure := Some(true);
    }
    obj.connection := Some(if obj.secure.value then Https else Http);
    client := obj;
  }
}
