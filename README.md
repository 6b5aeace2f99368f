# aws-lib request engine, modelled in Dafny

This project models the shared engine of the aws-lib Node.js client library, found in `lib/aws.js`, together with the Elastic MapReduce client built on it (`lib/emr.js`). The engine works in four stages:

- **Client setup.** `genericAWSClient` completes a client object. It defaults `secure` to true and picks HTTPS or HTTP from it.
- **The call.** `call` throws when a credential is missing. Otherwise it starts a countdown of three attempts.
- **One attempt.** `doRequest` runs each attempt. In query mode it writes four protocol parameters into the caller's query object, then writes a `Signature` over them. It builds the form body and the headers, and sends a `POST`. In header mode it adds `Date` and `x-amzn-authorization` headers instead.
- **The outcome.** On status 200 the body goes to xml2js, and its `'end'` event delivers the parse to the callback. Any other status, and any request error, counts as a failure, and the countdown tries again. After three failures the callback is called with no arguments.

`sign` sorts the query's keys with the default JavaScript sort and percent-encodes each `key=value` with `encodeURIComponent`. It joins the entries with `&`, after the lines `POST`, host and path. It then percent-escapes `!`, `'`, `*`, `(` and `)`. The result is signed with HMAC-SHA256.

Modules:

- `UriEncoding` (`uri_encoding.dfy`): `encodeURIComponent` over UTF-8, the RFC 3986 encoder (section 2.3 unreserved set), `replace(/c/g, …)` and the five escapes.
- `JsStrings` (`js_strings.dfy`): UTF-16 length, the default `Array.prototype.sort` order on strings, and the sort itself.
- `JsObjects` (`js_objects.dfy`): plain objects with insertion-ordered keys, and assignment to them.
- `Timestamp` (`timestamp.dfy`): `pad` and `ISODateString`, with a parser that reads the timestamp back.
- `Signing` (`signing.dfy`): the string to sign.
- `Aws` (`aws.dfy`):
  - the `Query` and `AwsClient` classes;
  - the methods `Sign`, `SignQuery`, `Headers`, `DoRequest`, `Cycle`, `Call` and `GenericAwsClient`;
  - the specification functions (`QuerySigned`, `RequestFor`, `Cycling`, `CallSpec`) they are proved against.
- `Emr` (`emr.dfy`): `createEMRClient`, `emrClient` and its `call`.

How the outside world appears in the model:

- The network and the clock form an oracle: `env[i]` gives attempt `i` its clock reading and how its exchange ended.
- HMAC-SHA256 with base64, and `querystring.stringify`, are function-valued parameters (`Primitives`).

Behaviours of the code that the model keeps as written:

- The host in the string to sign is not lower-cased.
- A retry does not remove the previous attempt's `Signature`. The next signature is computed over it (`RetrySignsStaleSignature`).
- A 4xx response is retried like any other failure. It is not delivered to the caller (`ClientErrorIsRetried`).
- `Content-Length` is the body's `length` in UTF-16 code units, not its byte length.
- Header mode still sends the stringified query as the body.
- The `success` flag that `cycle` tests is never set. Only the countdown decides.
- Keys sort by UTF-16 code units, not by bytes (`BelowIsCodeUnitOrder`).

## Model

| member | source | states |
|---|---|---|
| UriEncoding.EncodeUriComponent | lib/aws.js:163 | every output character is one `encodeURIComponent` leaves literal, or a `%` of a percent-escape |
| UriEncoding.Utf8 | lib/aws.js:163 | a character encodes to 1 to 4 bytes, and to one byte (itself) exactly when it is ASCII |
| UriEncoding.PercentEncoded | lib/aws.js:163 | three characters per byte, each `%` or an upper-case hex digit |
| UriEncoding.Rfc3986Encode | lib/aws.js:167-172 | only RFC 3986 unreserved characters and `%` remain |
| UriEncoding.ReplaceAllAppend | lib/aws.js:168-172 | a global one-character replace distributes over concatenation |
| UriEncoding.ReplaceAllAbsent | lib/aws.js:168-172 | a replace whose character is absent changes nothing |
| UriEncoding.EscapeMarksAppend | lib/aws.js:168-172 | the five escapes distribute over concatenation |
| UriEncoding.EscapeMarksIdentity | lib/aws.js:168-172 | a string without the five marks is left unchanged |
| UriEncoding.MarkIsPercentEncoded | lib/aws.js:168-172 | each mark's replacement is exactly the percent-encoding of its UTF-8 byte |
| UriEncoding.EscapeMarksIsOnePass | lib/aws.js:168-172 | the five sequential replaces equal one character-by-character pass |
| UriEncoding.EscapeMarksRemovesMarks | lib/aws.js:168-172 | no `!`, `'`, `*`, `(` or `)` survives the escapes |
| UriEncoding.EscapedComponentIsRfc3986 | lib/aws.js:163-172 | escaping the marks of `encodeURIComponent(s)` gives exactly the RFC 3986 encoding of `s` |
| JsStrings.Utf16Length | lib/aws.js:64 | `length` is between the character count and twice it |
| JsStrings.Utf16LengthCountsUnits | lib/aws.js:64 | `length` is exactly the number of the string's UTF-16 code units |
| JsStrings.BelowIsCodeUnitOrder | lib/aws.js:156 | a string sorts at or before another exactly when it equals it or its UTF-16 code units come first lexicographically |
| JsStrings.RankOrdersCodeUnits | lib/aws.js:156 | comparing ranks of distinct characters is comparing their UTF-16 code units, both directions |
| JsStrings.BelowReflexive | lib/aws.js:156 | the sort order is reflexive |
| JsStrings.BelowAntisymmetric | lib/aws.js:156 | the sort order is antisymmetric |
| JsStrings.BelowTransitive | lib/aws.js:156 | the sort order is transitive |
| JsStrings.BelowTotal | lib/aws.js:156 | the sort order is total |
| JsStrings.InsertSorts | lib/aws.js:156 | inserting into a sorted array keeps it sorted and adds exactly that key |
| JsStrings.SortKeysSorts | lib/aws.js:156 | `keys.sort()` is ascending and a permutation of the keys |
| JsStrings.SortedPermutationsAgree | lib/aws.js:156 | two sorted permutations of the same keys are equal |
| JsStrings.SortIgnoresEnumerationOrder | lib/aws.js:152-156 | the sorted keys do not depend on the enumeration order |
| JsStrings.SortedKeysExactlyOnce | lib/aws.js:152-156 | the sorted keys list each key of the object exactly once, strictly ascending |
| JsStrings.SortKeysOfEnumeration | lib/aws.js:152-156 | sorting any enumeration of a key set gives its sorted keys |
| JsObjects.SetKeepsOrder | lib/aws.js:53-57 | an assignment keeps the object well formed, sets the key, changes no other value, keeps the order, appends a new key last |
| JsObjects.SetExtends | lib/aws.js:53-57 | an assignment adds its key, changes no other value and keeps the listed keys as a prefix |
| Timestamp.NatToDecimalDigits | lib/aws.js:43 | a number renders as a non-empty string of digits |
| Timestamp.DecimalRoundTrip | lib/aws.js:43 | reading the decimal rendering back gives the number |
| Timestamp.DecimalLength | lib/aws.js:41 | the rendering has at most `k` digits exactly when the number is below 10^k |
| Timestamp.PadTwoDigits | lib/aws.js:40-42 | `pad` gives two characters exactly for 0..99, the tens and units digits |
| Timestamp.IsoDateStringRoundTrip | lib/aws.js:39-49 | for in-range fields the timestamp has the `YYYY-MM-DDTHH:MM:SSZ` shape and parses back to the same fields |
| Timestamp.IsoDateStringLength | lib/aws.js:39-49 | the timestamp is the year's full rendering followed by 16 more characters |
| Timestamp.ShapeNeedsFourDigitYear | lib/aws.js:39-49 | the timestamp has the `YYYY-MM-DDTHH:MM:SSZ` shape exactly when the year has four digits |
| Signing.QueryPairsEach | lib/aws.js:160-164 | one `encodeURIComponent(key)=encodeURIComponent(value)` entry per key, in key order |
| Signing.StringToSignIgnoresOrder | lib/aws.js:147-172 | the string to sign depends only on the parameters, not on the order they were set in |
| Signing.EscapeJoinedPairs | lib/aws.js:160-172 | escaping the joined entries gives the joined RFC 3986 entries |
| Signing.StringToSignLayout | lib/aws.js:165-172 | the string to sign is `POST`, host, path (escaped, not lower-cased) and the RFC 3986 canonical query, on four lines |
| Signing.HostAndPathVerbatim | lib/aws.js:165 | a host and path without marks appear verbatim |
| Signing.StringToSignHasNoMarks | lib/aws.js:168-172 | the string to sign contains none of the five marks |
| Aws.AwsClient.EnumerateKeys | lib/aws.js:152-154 | the loop collects the keys in enumeration order |
| Aws.AwsClient.EncodePairs | lib/aws.js:160-164 | the loop makes one entry per key, the `i`-th for key `i` |
| Aws.AwsClient.Sign | lib/aws.js:147-175 | the signature is the HMAC with the secret of the string to sign for the query as it stands; the query is only read |
| Aws.WithProtocolParamsSets | lib/aws.js:53-56 | the four protocol parameters get their values; other parameters keep their values and places |
| Aws.QuerySignedParams | lib/aws.js:51-58 | after query-mode signing the keys are the caller's plus the five protocol keys, caller values and order are kept, and the protocol values are the key id, "2", "HmacSHA256" and the attempt's timestamp |
| Aws.QuerySignedValid | lib/aws.js:51-58 | query-mode signing keeps the query well formed |
| Aws.QuerySignedSignature | lib/aws.js:57 | `Signature` is the HMAC of the canonical string for the parameters as they stood just before it was set |
| Aws.SignedOverProtocolParams | lib/aws.js:53-57 | restoring the caller's `Signature` in the signed query gives the parameters the signature covers |
| Aws.AwsClient.SignQuery | lib/aws.js:51-58 | the query becomes `QuerySigned` of the old query |
| Aws.RequestHeadersLayout | lib/aws.js:60-74 | headers are `Host`, `Content-Type`, `Content-Length` (UTF-16 length of the body), plus in header mode `Date` and `x-amzn-authorization` signed over the date string only |
| Aws.AwsClient.Headers | lib/aws.js:61-74 | the built headers equal `RequestHeaders` |
| Aws.RequestCarriesQuery | lib/aws.js:60-81 | each request is a `POST` to the configured transport, host and path, with the stringified prepared query as its body; in query mode the headers carry no signature |
| Aws.AwsClient.DoRequest | lib/aws.js:51-115 | the query is prepared, the request is `RequestFor` of it, and the reply is the parsed body exactly on status 200 |
| Aws.FirstSuccess | lib/aws.js:120-136 | the first successful attempt within the budget, all earlier ones failed; none exactly when all failed |
| Aws.FailuresSkipped | lib/aws.js:124-133 | failed attempts do not move the first success |
| Aws.AttemptCount | lib/aws.js:120-142 | between 1 and 3 attempts, every earlier one failed, and fewer than 3 only after a success |
| Aws.Delivered | lib/aws.js:124-140 | no callback arguments exactly when all 3 attempts failed; otherwise the parsed body of the successful last attempt |
| Aws.AwsClient.Cycle | lib/aws.js:118-142 | the countdown's outcome, requests and final query are `Cycling` from attempt `3 - remainingTries` |
| Aws.CyclingCompletes | lib/aws.js:118-142 | cycling after `done` failures completes the call as `CallSpec` describes |
| Aws.AwsClient.Call | lib/aws.js:30-143 | the outcome, the requests and the caller's query afterwards are `CallSpec` |
| Aws.MissingCredentialsThrow | lib/aws.js:31-33 | a missing key id or secret throws the credentials message before any request, leaving the query alone |
| Aws.CallRetriesUpToMaxTries | lib/aws.js:118-142 | with credentials the callback is called once after 1 to 3 requests, earlier ones failed, with the parsed body exactly when the last succeeded, with nothing only after 3 failures |
| Aws.ClientErrorIsRetried | lib/aws.js:94-97 | a 4xx first response is followed by a second attempt |
| Aws.RequestsSentEach | lib/aws.js:120-135 | `n` attempts send `n` requests, the `i`-th carrying the query as attempt `i` prepared it |
| Aws.HeaderModeKeepsQuery | lib/aws.js:51-58 | in header mode the query is never written |
| Aws.QueryModeKeepsValid | lib/aws.js:51-58 | repeated query-mode signing keeps the query well formed |
| Aws.QueryModeKeepsCallerParams | lib/aws.js:51-58 | after `n > 0` attempts the query holds the caller's keys in place plus the five protocol keys, with the caller's other values kept |
| Aws.QueryModeTimestamp | lib/aws.js:56 | after attempt `n` the `Timestamp` is that attempt's time |
| Aws.RetrySignsStaleSignature | lib/aws.js:57 | a retry's signature covers the previous attempt's `Signature`, still in the query |
| Aws.GenericAwsClient | lib/aws.js:24-29 | absent `secure` becomes true, the transport is HTTPS exactly when `secure`, and nothing else changes |
| Emr.EmrDefaultsFill | lib/emr.js:2-12 | a non-empty host or path is kept and a missing or empty one becomes the default; `secure` is true; credentials and `version` are copied |
| Emr.EmrDefaultsIdempotent | lib/emr.js:2-12 | defaulting the produced settings again changes nothing |
| Emr.EmrClient.constructor | lib/emr.js:13-21 | the client holds the settings and its engine is configured from them in query mode, `version` not passed on |
| Emr.CreateEmrClient | lib/emr.js:2-12 | the client's settings are the defaulted options and its engine matches them |
| Emr.EmrClient.Call | lib/emr.js:22-25 | the call is the call of the engine the client was built with, on the query with `Action` set; while the client's fields still match that engine, it is the call `EngineConfig` of the settings describes |
| Emr.EmrRequestsAreQuerySigned | lib/emr.js:13-25 | every EMR request goes over HTTPS to the configured host and path, with only `Host`, `Content-Type` and `Content-Length` headers |
| Emr.EmrCallSetsAction | lib/emr.js:22-25 | after a call the query names the operation in `Action`, keeps the caller's other parameters and holds the protocol keys |
| Emr.EmrCallNeedsCredentials | lib/emr.js:22-25 | without both credentials an EMR call throws before any request |

## Left out

- HMAC-SHA256, base64 and `crypto.createCredentials`: foreign code, so HMAC with base64 is a parameter. The unused credentials object is not modelled.
- `querystring.stringify`: a parameter, so the body's encoding is not modelled.
- xml2js parsing: the parse result is part of each attempt's oracle entry.
- The network, the response `data` and `end` events, and `console.log`: an attempt's exchange is an oracle entry, and logging has no effect on the model.
- `process.nextTick`: the retry is a direct recursive call. The asynchronous interleaving with other calls is not modelled.
- `new Date()` and `toUTCString`: the clock readings of an attempt are given as input. The two `new Date()` calls of one attempt are modelled as a single reading. Dates whose UTC fields are out of range are not modelled.
- The other service modules required by `lib/aws.js` (EC2, SimpleDB, SQS and the rest) are not part of this model.
- Query values other than strings are not modelled. Neither are the integer-like keys that JavaScript enumerates first.
- Lone UTF-16 surrogates, on which `encodeURIComponent` throws `URIError`, cannot be represented as Dafny characters.
- Aws.AwsClient.DoRequest: a status-200 reply is modelled as a success carrying xml2js's parse. The source listens only for the parser's `'end'` event, so a 200 body xml2js rejects calls back neither `cb(true, …)` nor `cb(false)`: no retry follows and the caller's callback is never invoked. `CallRetriesUpToMaxTries` (the callback is invoked exactly once) therefore holds only when every 200 body parses.
- Aws.AwsClient.Sign: requires the secret to be present. Its only caller runs after the credential check, so the model does not capture what `hmacSha256(undefined, …)` would do.
