/**
 * Construction of the HTTP requests the client sends: the target URL, Basic
 * authentication from the client's credentials, and the Content-Type a
 * request body declares; and the JSON bodies the client sends.
 */
module Request {
  import opened Wrappers

  /** The credentials a client authenticates with; either may be empty. */
  datatype AuthInfo = AuthInfo(login: string, apiKey: string)

  /** The part of a client that request construction reads. */
  datatype Client = Client(host: string, authInfo: AuthInfo)

  /** A URL by its parts. */
  datatype Url = Url(scheme: string, host: string, path: string)

  /**
   * A header value: literal text, or the Basic credentials for a user and
   * password, which stand for "Basic " and the base64 encoding of
   * "<user>:<password>" (section 2 of RFC 7617).
   */
  datatype HeaderValue = Plain(text: string) | BasicCredentials(user: string, password: string)

  const AUTHORIZATION := "Authorization"
  const CONTENT_TYPE := "Content-Type"
  const JSON_MEDIA_TYPE := "application/json"

  /** A JSON value as request bodies use them: integers and objects whose members keep their order. */
  datatype Json = Number(n: int) | Object(members: seq<Member>)
  datatype Member = Member(name: string, value: Json)

  /** The member names of an object, in order; no names for anything else. */
  function Names(v: Json): (names: seq<string>)
    ensures v.Object? ==> |names| == |v.members|
    ensures v.Object? ==> forall i :: 0 <= i < |names| ==> names[i] == v.members[i].name
  {
    if v.Object? then seq(|v.members|, i requires 0 <= i < |v.members| => v.members[i].name) else []
  }

  /** The value of the member of `v` called `name` (the first, should there be several). */
  function Lookup(v: Json, name: string): Option<Json> {
    if v.Object? then Find(v.members, name) else None
  }

  function Find(members: seq<Member>, name: string): Option<Json> {
    if members == [] then None
    else if members[0].name == name then Some(members[0].value)
    else Find(members[1..], name)
  }

  /**
   * A request body: any reader, which declares a content type exactly when
   * it has a ContentType method, or a JSON body, which holds the value it
   * was marshalled from.
   */
  datatype Body =
    | Reader(data: seq<bv8>, declaredType: Option<string>)
    | JsonBody(value: Json)
  {
    /** The content type the body declares, None when it has no ContentType method. */
    function ContentType(): (t: Option<string>)
      ensures JsonBody? ==> t == Some(JSON_MEDIA_TYPE)
    {
      match this
      case Reader(_, declared) => declared
      case JsonBody(_) => Some(JSON_MEDIA_TYPE)
    }
  }

  /** The content type a request body declares; an absent body declares none. */
  function DeclaredType(body: Option<Body>): Option<string> {
    match body
    case None => None
    case Some(b) => b.ContentType()
  }

  /** A JSON body for `v`. */
  function NewJsonBody(v: Json): (b: Body)
    ensures b.ContentType() == Some(JSON_MEDIA_TYPE)
    ensures b.JsonBody? && b.value == v
  {
    JsonBody(v)
  }

  /** The body of a call about a post: the object {"post_id": id}. */
  function NewPostIdBody(id: int): (b: Body)
    ensures b.ContentType() == Some(JSON_MEDIA_TYPE)
    ensures b.JsonBody? && Names(b.value) == ["post_id"]
    ensures b.JsonBody? && Lookup(b.value, "post_id") == Some(Number(id))
  {
    NewJsonBody(Object([Member("post_id", Number(id))]))
  }

  /** Different posts get different bodies. */
  lemma PostIdBodyInjective(a: int, b: int)
    requires NewPostIdBody(a) == NewPostIdBody(b)
    ensures a == b
  {
    assert Lookup(NewPostIdBody(a).value, "post_id") == Some(Number(a));
  }

  /** A character that may appear in an HTTP token (section 5.6.2 of RFC 9110). */
  predicate IsTokenChar(c: char) {
    || 'a' <= c <= 'z' || 'A' <= c <= 'Z' || '0' <= c <= '9'
    || c in {'!', '#', '$', '%', '&', '\'', '*', '+', '-', '.', '^', '_', '`', '|', '~'}
  }

  /** A method name Go's http.NewRequest accepts: a non-empty token. */
  predicate ValidMethod(verb: string) {
    |verb| > 0 && forall i :: 0 <= i < |verb| ==> IsTokenChar(verb[i])
  }

  /**
   * The headers newRequest gives a request: Basic credentials when the
   * login and the API key are both set, and the body's declared content type.
   */
  function RequestHeaders(auth: AuthInfo, body: Option<Body>): (h: map<string, HeaderValue>)
    ensures AUTHORIZATION in h <==> auth.login != "" && auth.apiKey != ""
    ensures AUTHORIZATION in h ==> h[AUTHORIZATION] == BasicCredentials(auth.login, auth.apiKey)
    ensures CONTENT_TYPE in h <==> DeclaredType(body).Some?
    ensures CONTENT_TYPE in h ==> h[CONTENT_TYPE] == Plain(DeclaredType(body).value)
    ensures h.Keys <= {AUTHORIZATION, CONTENT_TYPE}
  {
    var authorized: map<string, HeaderValue> :=
      if auth.login != "" && auth.apiKey != "" then map[AUTHORIZATION := BasicCredentials(auth.login, auth.apiKey)]
      else map[];
    match DeclaredType(body)
    case None => authorized
    case Some(t) => authorized[CONTENT_TYPE := Plain(t)]
  }

  /** An outgoing HTTP request, whose header map is filled in after it is made. */
  class Request {
    var verb: string
    var url: Url
    var header: map<string, HeaderValue>
    var body: Option<Body>

    /** A request with no headers, as http.NewRequest makes it; the empty method means GET. */
    constructor (verb: string, url: Url, body: Option<Body>)
      requires verb == "" || ValidMethod(verb)
      ensures this.verb == (if verb == "" then "GET" else verb)
      ensures this.url == url && this.body == body && header == map[]
    {
      this.verb := if verb == "" then "GET" else verb;
      this.url := url;
      this.body := body;
      header := map[];
    }

    /** Sets the Authorization header to Basic credentials, replacing any it had. */
    method SetBasicAuth(user: string, password: string)
      modifies this`header
      ensures header == old(header)[AUTHORIZATION := BasicCredentials(user, password)]
    {
      header := header[AUTHORIZATION := BasicCredentials(user, password)];
    }

    /** Sets header `key` to the single value `value`, replacing any it had. */
    method SetHeader(key: string, value: string)
      modifies this`header
      ensures header == old(header)[key := Plain(value)]
    {
      header := header[key := Plain(value)];
    }
  }

  /**
   * The request for the HTTP method `verb` on `path` at the client's host over HTTPS,
   * authenticated when the client has both credentials, with the body's
   * declared content type.
   */
  method NewRequest(c: Client, verb: string, path: string, body: Option<Body>) returns (r: Request)
    requires verb == "" || ValidMethod(verb)
    ensures fresh(r)
    ensures r.verb == (if verb == "" then "GET" else verb)
    ensures r.url == Url("https", c.host, path)
    ensures r.body == body
    ensures r.header == RequestHeaders(c.authInfo, body)
  {
    r := new Request(verb, Url("https", c.host, path), body);
    if c.authInfo.login != "" && c.authInfo.apiKey != "" {
      r.SetBasicAuth(c.authInfo.login, c.authInfo.apiKey);
    }
    match DeclaredType(body)
    case Some(t) =>
      r.SetHeader(CONTENT_TYPE, t);
    case None =>
  }

  // ----- Properties of the headers -----

  /** Every request with a JSON body declares application/json, whatever the credentials. */
  lemma JsonBodyContentType(auth: AuthInfo, v: Json)
    ensures CONTENT_TYPE in RequestHeaders(auth, Some(NewJsonBody(v)))
    ensures RequestHeaders(auth, Some(NewJsonBody(v)))[CONTENT_TYPE] == Plain(JSON_MEDIA_TYPE)
  {
  }

  /** One missing credential is as good as none: the request goes out unauthenticated. */
  lemma PartialCredentialsIgnored(login: string, apiKey: string, body: Option<Body>)
    requires login == "" || apiKey == ""
    ensures RequestHeaders(AuthInfo(login, apiKey), body) == RequestHeaders(AuthInfo("", ""), body)
  {
  }

  /** A body without a ContentType method leaves the request without a Content-Type. */
  lemma UntypedBodyNoContentType(auth: AuthInfo, data: seq<bv8>)
    ensures CONTENT_TYPE !in RequestHeaders(auth, Some(Reader(data, None)))
    ensures RequestHeaders(auth, Some(Reader(data, None))) == RequestHeaders(auth, None)
  {
  }

  /** Adding a favorite as "username" with key "secret" sends both headers, and nothing else. */
  lemma FavoriteRequestHeaders(id: int)
    ensures RequestHeaders(AuthInfo("username", "secret"), Some(NewPostIdBody(id)))
            == map[AUTHORIZATION := BasicCredentials("username", "secret"), CONTENT_TYPE := Plain(JSON_MEDIA_TYPE)]
  {
    var h := RequestHeaders(AuthInfo("username", "secret"), Some(NewPostIdBody(id)));
    assert h.Keys == {AUTHORIZATION, CONTENT_TYPE};
  }
}
