/**
 * The string that a query-mode signature covers: the sorted, percent-encoded
 * query joined with `&`, placed after the verb, host and path, with the five
 * marks escaped afterwards.
 */
module Signing {
  import opened UriEncoding
  import opened JsStrings
  import opened JsObjects

  /** `Array.prototype.join`. */
  function Join(sep: string, parts: seq<string>): string
  {
    if |parts| == 0 then "" else if |parts| == 1 then parts[0] else parts[0] + sep + Join(sep, parts[1..])
  }

  /** One `encodeURIComponent(key) + '=' + encodeURIComponent(value)` entry. */
  function QueryPair(key: string, value: string): string
  {
    EncodeUriComponent(key) + "=" + EncodeUriComponent(value)
  }

  /** The entries for these keys, in their order: `query[key]` is read as `String(query[key])`. */
  function QueryPairs(keys: seq<string>, values: map<string, string>): seq<string>
  {
    if keys == [] then [] else [QueryPair(keys[0], PropertyString(values, keys[0]))] + QueryPairs(keys[1..], values)
  }

  /** There is one entry per key, the `i`-th for the `i`-th key. */
  lemma {:induction false} QueryPairsEach(keys: seq<string>, values: map<string, string>)
    ensures |QueryPairs(keys, values)| == |keys|
    ensures forall i :: 0 <= i < |keys| ==> QueryPairs(keys, values)[i] == QueryPair(keys[i], PropertyString(values, keys[i]))
  {
    if keys != [] {
      QueryPairsEach(keys[1..], values);
    }
  }

  /** The string to sign as `sign` builds it from the query object: its keys sorted, then joined and escaped. */
  function StringToSign(host: string, path: string, query: JsObject): string
  {
    EscapeMarks(Join("\n", ["POST", host, path, Join("&", QueryPairs(SortKeys(query.keys), query.values))]))
  }

  /** The canonical query of a map: every key once, in sorted order, as an encoded entry, joined by `&`. */
  ghost function CanonicalQuery(query: map<string, string>): string
  {
    Join("&", QueryPairs(SortedKeys(query.Keys), query))
  }

  /** The string to sign for a map of parameters, whatever order its keys were added in. */
  ghost function SignedString(host: string, path: string, query: map<string, string>): string
  {
    EscapeMarks(Join("\n", ["POST", host, path, CanonicalQuery(query)]))
  }

  /** The signed string depends only on the parameters, not on the order they were set in. */
  lemma StringToSignIgnoresOrder(host: string, path: string, query: JsObject)
    requires query.Valid()
    ensures StringToSign(host, path, query) == SignedString(host, path, query.values)
  {
    SortKeysOfEnumeration(query.keys, query.values.Keys);
  }

  /** One entry as RFC 3986 percent-encoding writes it. */
  function Rfc3986Pair(key: string, value: string): string
  {
    Rfc3986Encode(key) + "=" + Rfc3986Encode(value)
  }

  function Rfc3986Pairs(keys: seq<string>, query: map<string, string>): (r: seq<string>)
    ensures |r| == |keys|
    ensures forall i :: 0 <= i < |keys| ==> r[i] == Rfc3986Pair(keys[i], PropertyString(query, keys[i]))
  {
    if keys == [] then [] else [Rfc3986Pair(keys[0], PropertyString(query, keys[0]))] + Rfc3986Pairs(keys[1..], query)
  }

  lemma NoMarksIn(s: string)
    requires forall i :: 0 <= i < |s| ==> IsAlphaNumeric(s[i]) || s[i] == '\n' || s[i] == '&' || s[i] == '='
    ensures EscapeMarks(s) == s
  {
    EscapeMarksIdentity(s);
  }

  lemma EscapePair(key: string, value: string)
    ensures EscapeMarks(QueryPair(key, value)) == Rfc3986Pair(key, value)
  {
    EscapeMarksAppend(EncodeUriComponent(key) + "=", EncodeUriComponent(value));
    EscapeMarksAppend(EncodeUriComponent(key), "=");
    NoMarksIn("=");
    EscapedComponentIsRfc3986(key);
    EscapedComponentIsRfc3986(value);
  }

  /** Escaping the joined `encodeURIComponent` entries gives the RFC 3986 entries. */
  lemma {:induction false} EscapeJoinedPairs(keys: seq<string>, query: map<string, string>)
    ensures EscapeMarks(Join("&", QueryPairs(keys, query))) == Join("&", Rfc3986Pairs(keys, query))
  {
    if |keys| == 1 {
      EscapePair(keys[0], PropertyString(query, keys[0]));
    } else if |keys| > 1 {
      var head, tail := QueryPairs(keys, query)[0], QueryPairs(keys[1..], query);
      assert QueryPairs(keys, query)[1..] == tail;
      assert Rfc3986Pairs(keys, query)[1..] == Rfc3986Pairs(keys[1..], query);
      EscapeMarksAppend(head + "&", Join("&", tail));
      EscapeMarksAppend(head, "&");
      NoMarksIn("&");
      EscapePair(keys[0], PropertyString(query, keys[0]));
      EscapeJoinedPairs(keys[1..], query);
    } else {
      NoMarksIn("");
    }
  }

  lemma JoinLines(a: string, b: string, c: string, d: string)
    ensures Join("\n", [a, b, c, d]) == a + "\n" + b + "\n" + c + "\n" + d
  {
    var parts := [a, b, c, d];
    assert parts[1..] == [b, c, d] && parts[1..][1..] == [c, d] && parts[1..][1..][1..] == [d];
    assert Join("\n", [c, d]) == c + "\n" + d;
    assert Join("\n", [b, c, d]) == b + "\n" + (c + "\n" + d);
  }

  lemma EscapeLines(a: string, b: string, c: string, d: string)
    ensures EscapeMarks(a + "\n" + b + "\n" + c + "\n" + d)
         == EscapeMarks(a) + "\n" + EscapeMarks(b) + "\n" + EscapeMarks(c) + "\n" + EscapeMarks(d)
  {
    NoMarksIn("\n");
    EscapeMarksAppend(a + "\n" + b + "\n" + c + "\n", d);
    EscapeMarksAppend(a + "\n" + b + "\n" + c, "\n");
    EscapeMarksAppend(a + "\n" + b + "\n", c);
    EscapeMarksAppend(a + "\n" + b, "\n");
    EscapeMarksAppend(a + "\n", b);
    EscapeMarksAppend(a, "\n");
  }

  lemma EscapeVerb()
    ensures EscapeMarks("POST") == "POST"
  {
    NoMarksIn("POST");
  }

  /**
   * The string to sign is "POST", the host and the path (escaped but not
   * lower-cased) and the RFC 3986 canonical query, separated by newlines.
   */
  lemma StringToSignLayout(host: string, path: string, query: map<string, string>)
    ensures SignedString(host, path, query)
      == "POST" + "\n" + EscapeMarks(host) + "\n" + EscapeMarks(path) + "\n"
         + Join("&", Rfc3986Pairs(SortedKeys(query.Keys), query))
  {
    var cq := CanonicalQuery(query);
    var rq := Join("&", Rfc3986Pairs(SortedKeys(query.Keys), query));
    EscapeJoinedPairs(SortedKeys(query.Keys), query);
    assert EscapeMarks(cq) == rq;
    JoinLines("POST", host, path, cq);
    assert SignedString(host, path, query) == EscapeMarks("POST" + "\n" + host + "\n" + path + "\n" + cq);
    EscapeLines("POST", host, path, cq);
    EscapeVerb();
  }

  /** A host and a path without marks appear in the string to sign exactly as given. */
  lemma HostAndPathVerbatim(host: string, path: string, query: map<string, string>)
    requires forall i :: 0 <= i < |host| ==> !IsMark(host[i])
    requires forall i :: 0 <= i < |path| ==> !IsMark(path[i])
    ensures SignedString(host, path, query)
      == "POST" + "\n" + host + "\n" + path + "\n" + Join("&", Rfc3986Pairs(SortedKeys(query.Keys), query))
  {
    StringToSignLayout(host, path, query);
    EscapeMarksIdentity(host);
    EscapeMarksIdentity(path);
  }

  /** No `!`, `'`, `*`, `(` or `)` is left in the string to sign. */
  lemma StringToSignHasNoMarks(host: string, path: string, query: JsObject)
    ensures forall i :: 0 <= i < |StringToSign(host, path, query)| ==> !IsMark(StringToSign(host, path, query)[i])
  {
    EscapeMarksRemovesMarks(Join("\n", ["POST", host, path, Join("&", QueryPairs(SortKeys(query.keys), query.values))]));
  }
}
