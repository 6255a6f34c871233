/**
 * The viewer-request edge function: one store lookup keyed by the request
 * URI; a stored, non-empty destination answers a 301 redirect, and otherwise
 * a directory URI is rewritten in place to its index.html.
 */
module ViewerRequest {
  import opened Wrappers
  import opened Strings
  import opened EdgeStore

  /** A response the function generates itself; each header carries a value. */
  datatype Response = Response(statusCode: nat, statusDescription: string, headers: map<string, string>)

  /** The viewer request; the function may change its URI. */
  class Request {
    var uri: string

    constructor (uri0: string)
      ensures uri == uri0
    {
      uri := uri0;
    }
  }

  /** What the handler returns: its own response, or the (possibly rewritten) request to forward. */
  datatype Reply = Respond(response: Response) | Forward(request: Request)

  /** The function's decision for a URI, given what the lookup answered. */
  datatype Decision = RedirectTo(location: string) | RewriteTo(uri: string)

  /** A 301 Moved Permanently (section 15.4.2 of RFC 9110) whose location header is the destination. */
  function MovedPermanently(location: string): Response
  {
    Response(301, "Moved Permanently", map["location" := location])
  }

  /** The index rewrite: a URI ending in '/' gets index.html appended; any other URI stays as it is. */
  function IndexRewrite(uri: string): string
  {
    if EndsWith(uri, "/") then uri + "index.html" else uri
  }

  /** The decision: redirect when the lookup found a non-empty value, otherwise rewrite. */
  function Decide(lookup: Option<string>, uri: string): Decision
  {
    if IsHit(lookup) then RedirectTo(lookup.value) else RewriteTo(IndexRewrite(uri))
  }

  /**
   * handler: looks up the raw URI once; redirects when the store holds a
   * non-empty destination for it, leaving the request alone; otherwise
   * forwards the request with its URI rewritten.
   */
  method Handler(request: Request, kvs: KeyValueStore) returns (reply: Reply)
    modifies request, kvs
    ensures kvs.lookups == old(kvs.lookups) + [old(request.uri)]
    ensures match Decide(Lookup(kvs.entries, old(request.uri)), old(request.uri))
      case RedirectTo(location) => reply == Respond(MovedPermanently(location)) && request.uri == old(request.uri)
      case RewriteTo(uri) => reply == Forward(request) && request.uri == uri
  {
    var uri := request.uri;
    var dest := kvs.Get(uri);
    if dest.Some? && dest.value != "" {
      return Respond(Response(301, "Moved Permanently", map["location" := dest.value]));
    }
    if EndsWith(uri, "/") {
      request.uri := request.uri + "index.html";
    }
    return Forward(request);
  }

  /** The function redirects exactly when the store holds a non-empty value for the raw URI, to that value. */
  lemma RedirectIff(entries: map<string, string>, uri: string)
    ensures Decide(Lookup(entries, uri), uri).RedirectTo? <==> uri in entries && entries[uri] != ""
    ensures Decide(Lookup(entries, uri), uri).RedirectTo? ==> Decide(Lookup(entries, uri), uri).location == entries[uri]
  {
  }

  /** A missing key or an empty value falls through to the rewrite. */
  lemma MissOrEmptyRewrites(entries: map<string, string>, uri: string)
    requires uri !in entries || entries[uri] == ""
    ensures Decide(Lookup(entries, uri), uri) == RewriteTo(IndexRewrite(uri))
  {
  }

  /** A directory URI gains index.html; the result no longer ends in '/'. */
  lemma DirectoryGetsIndex(uri: string)
    requires EndsWith(uri, "/")
    ensures IndexRewrite(uri) == uri + "index.html"
    ensures StartsWith(IndexRewrite(uri), uri) && !EndsWith(IndexRewrite(uri), "/")
  {
    var r := uri + "index.html";
    assert r[|r| - 1..] == "l";
    assert r[..|uri|] == uri;
  }

  /** Any other URI, the empty one included, is forwarded unchanged. */
  lemma OtherUriUnchanged(uri: string)
    requires !EndsWith(uri, "/")
    ensures IndexRewrite(uri) == uri
  {
  }

  /** Rewriting twice is rewriting once. */
  lemma RewriteIdempotent(uri: string)
    ensures IndexRewrite(IndexRewrite(uri)) == IndexRewrite(uri)
  {
    if EndsWith(uri, "/") {
      DirectoryGetsIndex(uri);
    }
  }

  /** The redirect answer is a 301 whose only header is the location. */
  lemma RedirectShape(location: string)
    ensures MovedPermanently(location).statusCode == 301
    ensures MovedPermanently(location).statusDescription == "Moved Permanently"
    ensures MovedPermanently(location).headers.Keys == {"location"}
    ensures MovedPermanently(location).headers["location"] == location
  {
  }
}
