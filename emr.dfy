/**
 * The Elastic MapReduce client: `createEMRClient` fills in the options a
 * caller leaves out, and the client it returns signs every call in query
 * mode over HTTPS, naming the operation in the `Action` parameter.
 */
module Emr {
  import opened Wrappers
  import opened JsObjects
  import opened Aws

  const DefaultHost := "elasticmapreduce.amazonaws.com"
  const DefaultPath := "/"

  /** The caller's `options` object; an absent property is `None`. */
  datatype EmrOptions = EmrOptions(host: Option<string>, path: Option<string>, version: Option<string>)

  /** The object `createEMRClient` hands to `emrClient`. */
  datatype EmrSettings = EmrSettings(host: string, path: string,
                                     accessKeyId: Option<string>, secretAccessKey: Option<string>,
                                     secure: bool, version: Option<string>)

  /** A string property read in a truth test: absent and empty are false. */
  predicate Truthy(v: Option<string>)
  {
    v.Some? && v.value != ""
  }

  /** `v || fallback` for a string property. */
  function OrElse(v: Option<string>, fallback: string): string
  {
    if Truthy(v) then v.value else fallback
  }

  /** `createEMRClient`'s object literal; a missing `options` behaves as `{}`. */
  function EmrDefaults(accessKeyId: Option<string>, secretAccessKey: Option<string>, options: Option<EmrOptions>): EmrSettings
  {
    var opts := if options.Some? then options.value else EmrOptions(None, None, None);
    EmrSettings(OrElse(opts.host, DefaultHost), OrElse(opts.path, DefaultPath),
                accessKeyId, secretAccessKey, true, opts.version)
  }

  /**
   * A host or path the caller gives (non-empty) is kept and an absent or empty
   * one becomes the default; `secure` is always true; the credentials and
   * `version` are copied as given.
   */
  lemma EmrDefaultsFill(accessKeyId: Option<string>, secretAccessKey: Option<string>, options: Option<EmrOptions>)
    ensures var s := EmrDefaults(accessKeyId, secretAccessKey, options);
      && (options.Some? && Truthy(options.value.host) ==> s.host == options.value.host.value)
      && (options.None? || !Truthy(options.value.host) ==> s.host == DefaultHost)
      && (options.Some? && Truthy(options.value.path) ==> s.path == options.value.path.value)
      && (options.None? || !Truthy(options.value.path) ==> s.path == DefaultPath)
      && s.secure
      && s.version == (if options.Some? then options.value.version else None)
      && s.accessKeyId == accessKeyId && s.secretAccessKey == secretAccessKey
  {
  }

  /** Defaulting again the options it produced changes nothing: the defaults are a fixed point. */
  lemma EmrDefaultsIdempotent(accessKeyId: Option<string>, secretAccessKey: Option<string>, options: Option<EmrOptions>)
    ensures var s := EmrDefaults(accessKeyId, secretAccessKey, options);
      EmrDefaults(accessKeyId, secretAccessKey, Some(EmrOptions(Some(s.host), Some(s.path), s.version))) == s
  {
  }

  /**
   * The engine `emrClient` builds, once `genericAWSClient` has completed it:
   * the settings' host, path and credentials, query-mode signing, and HTTPS
   * since `secure` is true. The `version` is not passed on.
   */
  function EngineConfig(s: EmrSettings): ClientConfig
  {
    ClientConfig(s.host, s.path, s.accessKeyId, s.secretAccessKey, Some(s.secure), false, Some(if s.secure then Https else Http))
  }

  /** The query an EMR call hands to the engine: the caller's, with `Action` set to the operation. */
  function ActionQuery(action: string, query: JsObject): JsObject
  {
    query.Set("Action", action)
  }

  /**
   * Every request an EMR call with credentials sends goes over HTTPS to the
   * configured host and path and carries only the `Host`, `Content-Type` and
   * `Content-Length` headers: the signature travels in the query.
   */
  lemma EmrRequestsAreQuerySigned<R>(s: EmrSettings, action: string, query: JsObject, prims: Primitives, env: seq<Attempt<R>>)
    requires s.secure && s.accessKeyId.Some? && s.secretAccessKey.Some? && |env| >= MaxTries
    ensures var sent := CallSpec(EngineConfig(s), ActionQuery(action, query), prims, env).sent;
      forall i :: 0 <= i < |sent| ==>
        && sent[i].transport == Https && sent[i].host == s.host && sent[i].path == s.path
        && sent[i].headers.Keys == {"Host", "Content-Type", "Content-Length"}
  {
    var cfg := EngineConfig(s);
    var q := ActionQuery(action, query);
    var n := AttemptCount(env);
    RequestsSentEach(cfg, q, env, prims, n);
    var sent := RequestsSent(cfg, q, env, prims, n);
    forall i | 0 <= i < |sent|
      ensures sent[i].transport == Https && sent[i].host == s.host && sent[i].path == s.path
      ensures sent[i].headers.Keys == {"Host", "Content-Type", "Content-Length"}
    {
      RequestCarriesQuery(cfg, QueryAfter(cfg, q, env, prims, i + 1), env[i].clock, prims);
    }
  }

  /**
   * After an EMR call with credentials the caller's query names the operation
   * in `Action` (replacing any earlier value), keeps the caller's other
   * non-protocol parameters, and holds the five protocol parameters.
   */
  lemma EmrCallSetsAction<R>(s: EmrSettings, action: string, query: JsObject, prims: Primitives, env: seq<Attempt<R>>)
    requires s.accessKeyId.Some? && s.secretAccessKey.Some? && |env| >= MaxTries
    ensures var after := CallSpec(EngineConfig(s), ActionQuery(action, query), prims, env).query;
      && after.values.Keys == query.values.Keys + {"Action"} + ProtocolKeys
      && after.values["Action"] == action
      && (forall k :: k in query.values && k !in ProtocolKeys && k != "Action" ==> after.values[k] == query.values[k])
  {
    var cfg := EngineConfig(s);
    var q := ActionQuery(action, query);
    var n := AttemptCount(env);
    QueryModeKeepsCallerParams(cfg, q, env, prims, n);
    SignedKeepsAction(action, query, QueryAfter(cfg, q, env, prims, n));
  }

  lemma SignedKeepsAction(action: string, query: JsObject, after: JsObject)
    requires HoldsCallerParams(ActionQuery(action, query), after, true)
    ensures after.values.Keys == query.values.Keys + {"Action"} + ProtocolKeys
    ensures after.values["Action"] == action
    ensures forall k :: k in query.values && k !in ProtocolKeys && k != "Action" ==> after.values[k] == query.values[k]
  {
    assert "Action" !in ProtocolKeys;
  }

  /** Without both credentials an EMR call throws before any request. */
  lemma EmrCallNeedsCredentials<R>(s: EmrSettings, action: string, query: JsObject, prims: Primitives, env: seq<Attempt<R>>)
    requires (s.accessKeyId.None? || s.secretAccessKey.None?) && |env| >= MaxTries
    ensures CallSpec(EngineConfig(s), ActionQuery(action, query), prims, env)
      == CallResult(Threw(CredentialsMessage), [], ActionQuery(action, query))
  {
  }

  /** The client `emrClient` returns: the settings, the `call` wrapper, and the engine behind it. */
  class EmrClient {
    var host: string
    var path: string
    var accessKeyId: Option<string>
    var secretAccessKey: Option<string>
    var secure: bool
    var version: Option<string>
    var aws: AwsClient

    function Settings(): EmrSettings
      reads this
    {
      EmrSettings(host, path, accessKeyId, secretAccessKey, secure, version)
    }

    /** The engine is configured from the settings as `emrClient` configures it. */
    ghost predicate Valid()
      reads this, aws
    {
      aws.Config() == EngineConfig(Settings())
    }

    /** `emrClient(obj)`: builds the engine through `genericAWSClient` with `signHeader: false`. */
    constructor (settings: EmrSettings)
      ensures Settings() == settings && Valid() && fresh(aws)
    {
      host, path := settings.host, settings.path;
      accessKeyId, secretAccessKey := settings.accessKeyId, settings.secretAccessKey;
      secure, version := settings.secure, settings.version;
      var engine := new AwsClient(settings.host, settings.path, settings.accessKeyId, settings.secretAccessKey,
                                  Some(settings.secure), false);
      var completed := GenericAwsClient(engine);
      aws := completed;
    }

    /**
     * `obj.call`: sets `Action` on the caller's query, then hands the call to
     * the engine the client was built with, whatever its own fields now hold.
     */
    method Call<R>(action: string, query: Query, prims: Primitives, env: seq<Attempt<R>>)
      returns (outcome: CallOutcome<R>, sent: seq<Request>)
      requires aws.connection.Some? && |env| >= MaxTries
      modifies query
      ensures CallResult(outcome, sent, query.params) == CallSpec(aws.Config(), ActionQuery(action, old(query.params)), prims, env)
      ensures Valid() ==> CallResult(outcome, sent, query.params) == CallSpec(EngineConfig(Settings()), ActionQuery(action, old(query.params)), prims, env)
    {
      query.params := query.params.Set("Action", action);
      outcome, sent := aws.Call(action, query, prims, env);
    }
  }

  /** `createEMRClient`: defaults the options and builds the client. */
  method CreateEmrClient(accessKeyId: Option<string>, secretAccessKey: Option<string>, options: Option<EmrOptions>)
    returns (client: EmrClient)
    ensures client.Settings() == EmrDefaults(accessKeyId, secretAccessKey, options) && client.Valid()
    ensures fresh(client) && fresh(client.aws)
  {
    var settings := EmrDefaults(accessKeyId, secretAccessKey, options);
    client := new EmrClient(settings);
  }
}
