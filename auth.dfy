/** Authorization resolution: the request URL and headers for a feed URL,
    according to the feed's authorization scheme and its secret. */
module Auth {
  import opened Wrappers
  import opened WebUrl
  import opened Runtime
  import opened Types

  /** `{param, value}` as `getFeedSecret` returns it; either may be `undefined`. */
  datatype FeedSecret = FeedSecret(param: Option<string>, value: Option<string>)

  /** A request descriptor: the URL to fetch and the headers to send. */
  datatype Request = Request(url: Url, headers: Headers)

  /** `getFeedSecret`: the parameter name of the feed's authorization and the
      secret of the first secret entry for the feed. */
  function GetFeedSecret(feed: Feed, secrets: seq<Secret>): (r: FeedSecret)
    ensures feed.authorization.None? ==> r.param.None?
    ensures feed.authorization.Some? ==> r.param == feed.authorization.value.paramName
    ensures r.value.None? <==> forall s | s in secrets :: s.feedId != feed.id
    ensures r.value.Some? ==> exists i | 0 <= i < |secrets| ::
              secrets[i].feedId == feed.id && secrets[i].feedSecret == r.value.value
              && forall j | 0 <= j < i :: secrets[j].feedId != feed.id
  {
    var param := if feed.authorization.Some? then feed.authorization.value.paramName else None;
    var found := FindIndex(secrets, (s: Secret) => s.feedId == feed.id);
    if found.Some? then
      assert secrets[found.value].feedId == feed.id;
      FeedSecret(param, Some(secrets[found.value].feedSecret))
    else
      FeedSecret(param, None)
  }

  /** The request when a handler leaves everything as it was. */
  function Unchanged(url: Url): Request {
    Request(url, map[])
  }

  /** `getHeaderAuth`: sets the header named by the parameter to the secret
      when both are non-empty. */
  function GetHeaderAuth(feed: Feed, url: Url, secrets: seq<Secret>, p: Platform): (r: Result<Request, Exception>)
    ensures r.Success? ==> r.value.url == url && |r.value.headers| <= 1
    ensures var s := GetFeedSecret(feed, secrets);
      !(Truthy(s.param) && Truthy(s.value)) ==> r == Success(Unchanged(url))
    ensures var s := GetFeedSecret(feed, secrets);
      Truthy(s.param) && Truthy(s.value) && p.setHeader(s.param.value, s.value.value).Success? ==>
        var h := p.setHeader(s.param.value, s.value.value).value;
        r == Success(Request(url, map[h.0 := h.1]))
    ensures r.Failure? ==> var s := GetFeedSecret(feed, secrets);
      Truthy(s.param) && Truthy(s.value) && p.setHeader(s.param.value, s.value.value) == Failure(r.error)
  {
    var s := GetFeedSecret(feed, secrets);
    if Truthy(s.param) && Truthy(s.value) then
      var h :- p.setHeader(s.param.value, s.value.value);
      Success(Request(url, map[h.0 := h.1]))
    else
      Success(Unchanged(url))
  }

  /** `getBasicAuth`: sets `Authorization` to `Basic ` followed by the secret
      exactly as stored (no base64 encoding) when the secret is non-empty. */
  function GetBasicAuth(feed: Feed, url: Url, secrets: seq<Secret>, p: Platform): (r: Result<Request, Exception>)
    ensures r.Success? ==> r.value.url == url && |r.value.headers| <= 1
    ensures var s := GetFeedSecret(feed, secrets);
      !Truthy(s.value) ==> r == Success(Unchanged(url))
    ensures var s := GetFeedSecret(feed, secrets);
      Truthy(s.value) && p.setHeader("Authorization", "Basic " + s.value.value).Success? ==>
        var h := p.setHeader("Authorization", "Basic " + s.value.value).value;
        r == Success(Request(url, map[h.0 := h.1]))
    ensures r.Failure? ==> var s := GetFeedSecret(feed, secrets);
      Truthy(s.value) && p.setHeader("Authorization", "Basic " + s.value.value) == Failure(r.error)
  {
    var s := GetFeedSecret(feed, secrets);
    if Truthy(s.value) then
      var h :- p.setHeader("Authorization", "Basic " + s.value.value);
      Success(Request(url, map[h.0 := h.1]))
    else
      Success(Unchanged(url))
  }

  /** Basic authentication does not look at the parameter name. */
  lemma BasicAuthIgnoresParam(feed: Feed, a: Authorization, paramName: Option<string>, url: Url, secrets: seq<Secret>, p: Platform)
    requires feed.authorization == Some(a)
    ensures GetBasicAuth(feed.(authorization := Some(a.(paramName := paramName))), url, secrets, p)
            == GetBasicAuth(feed, url, secrets, p)
  {
  }

  /** `getQueryParamAuth`: sets the query parameter named by the parameter to
      the secret when both are non-empty; nothing else changes. */
  function GetQueryParamAuth(feed: Feed, url: Url, secrets: seq<Secret>): (r: Request)
    ensures r.headers == map[]
    ensures r.url.prefix == url.prefix && r.url.pathname == url.pathname && r.url.fragment == url.fragment
    ensures var s := GetFeedSecret(feed, secrets);
      Truthy(s.param) && Truthy(s.value) ==>
        ValuesOf(r.url.query, s.param.value) == [s.value.value]
        && Others(r.url.query, s.param.value) == Others(url.query, s.param.value)
    ensures var s := GetFeedSecret(feed, secrets);
      !(Truthy(s.param) && Truthy(s.value)) ==> r == Unchanged(url)
  {
    var s := GetFeedSecret(feed, secrets);
    if Truthy(s.param) && Truthy(s.value) then
      Request(url.(query := SetSearchParam(url.query, s.param.value, s.value.value)), map[])
    else
      Unchanged(url)
  }

  /** `getPathSegmentAuth`: in the path, the first occurrence of the encoded
      parameter name is replaced by the encoded secret when both are non-empty.
      An encoding failure is thrown. */
  function GetPathSegmentAuth(feed: Feed, url: Url, secrets: seq<Secret>, p: Platform): (r: Result<Request, Exception>)
    ensures r.Success? ==> r.value.headers == map[]
    ensures r.Success? ==> r.value.url == url.(pathname := r.value.url.pathname)
    ensures var s := GetFeedSecret(feed, secrets);
      !(Truthy(s.param) && Truthy(s.value)) ==> r == Success(Unchanged(url))
    ensures var s := GetFeedSecret(feed, secrets);
      Truthy(s.param) && Truthy(s.value) ==>
        var ep, ev := p.encodeComponent(s.param.value), p.encodeComponent(s.value.value);
        (r.Success? <==> ep.Success? && ev.Success?)
        && (r.Success? ==> r.value.url.pathname == ReplaceFirst(url.pathname, ep.value, ev.value))
        && (ep.Failure? ==> r == Failure(ep.error))
        && (ep.Success? && ev.Failure? ==> r == Failure(ev.error))
  {
    var s := GetFeedSecret(feed, secrets);
    if Truthy(s.param) && Truthy(s.value) then
      var ep :- p.encodeComponent(s.param.value);
      var ev :- p.encodeComponent(s.value.value);
      Success(Request(url.(pathname := ReplaceFirst(url.pathname, ep, ev)), map[]))
    else
      Success(Unchanged(url))
  }

  /** When the encoded parameter name does not occur in the path, the path
      segment scheme leaves the URL as it was. */
  lemma PathSegmentWithoutOccurrence(feed: Feed, url: Url, secrets: seq<Secret>, p: Platform)
    requires var s := GetFeedSecret(feed, secrets);
      Truthy(s.param) && Truthy(s.value)
      && p.encodeComponent(s.param.value).Success? && p.encodeComponent(s.value.value).Success?
      && forall i :: !OccursAt(url.pathname, p.encodeComponent(s.param.value).value, i)
    ensures GetPathSegmentAuth(feed, url, secrets, p) == Success(Unchanged(url))
  {
    var s := GetFeedSecret(feed, secrets);
    ReplaceFirstWithoutOccurrence(url.pathname, p.encodeComponent(s.param.value).value, p.encodeComponent(s.value.value).value);
  }

  /** When the encoded parameter name occurs in the path, its first occurrence
      is replaced by the encoded secret and the rest of the path is kept. */
  lemma PathSegmentReplacesFirstOccurrence(feed: Feed, url: Url, secrets: seq<Secret>, p: Platform, i: nat)
    requires var s := GetFeedSecret(feed, secrets);
      Truthy(s.param) && Truthy(s.value)
      && p.encodeComponent(s.param.value).Success? && p.encodeComponent(s.value.value).Success?
      && OccursAt(url.pathname, p.encodeComponent(s.param.value).value, i)
      && forall j | 0 <= j < i :: !OccursAt(url.pathname, p.encodeComponent(s.param.value).value, j)
    ensures var s := GetFeedSecret(feed, secrets);
      var ep, ev := p.encodeComponent(s.param.value).value, p.encodeComponent(s.value.value).value;
      GetPathSegmentAuth(feed, url, secrets, p)
      == Success(Request(url.(pathname := url.pathname[..i] + ev + url.pathname[i + |ep|..]), map[]))
  {
    var s := GetFeedSecret(feed, secrets);
    ReplaceFirstAtFirstOccurrence(url.pathname, p.encodeComponent(s.param.value).value, p.encodeComponent(s.value.value).value, i);
  }

  /** `getReplaceUrlAuth`: the URL becomes the parse of the secret when the
      secret is non-empty; a parse failure is thrown. */
  function GetReplaceUrlAuth(feed: Feed, url: Url, secrets: seq<Secret>, p: Platform): (r: Result<Request, Exception>)
    ensures r.Success? ==> r.value.headers == map[]
    ensures var s := GetFeedSecret(feed, secrets);
      !Truthy(s.value) ==> r == Success(Unchanged(url))
    ensures var s := GetFeedSecret(feed, secrets);
      Truthy(s.value) ==>
        match p.parseUrl(s.value.value)
        case Success(u) => r == Success(Request(u, map[]))
        case Failure(e) => r == Failure(e)
  {
    var s := GetFeedSecret(feed, secrets);
    if Truthy(s.value) then
      var u :- p.parseUrl(s.value.value);
      Success(Request(u, map[]))
    else
      Success(Unchanged(url))
  }

  /** `getAuth`: dispatch on the authorization scheme; no authorization or an
      unrecognised scheme leaves the request as it was. */
  function GetAuth(feed: Feed, url: Url, secrets: seq<Secret>, p: Platform): (r: Result<Request, Exception>)
    ensures r.Success? ==> |r.value.headers| <= 1
    ensures r.Success? && r.value.headers != map[] ==>
              feed.authorization.Some? && feed.authorization.value.authType in {Header, BasicAuth}
    ensures feed.authorization.None? || feed.authorization.value.authType.Unrecognised? ==>
              r == Success(Unchanged(url))
    ensures feed.authorization.Some? && feed.authorization.value.authType == Header ==>
              r == GetHeaderAuth(feed, url, secrets, p)
    ensures feed.authorization.Some? && feed.authorization.value.authType == BasicAuth ==>
              r == GetBasicAuth(feed, url, secrets, p)
    ensures feed.authorization.Some? && feed.authorization.value.authType == QueryParam ==>
              r == Success(GetQueryParamAuth(feed, url, secrets))
    ensures feed.authorization.Some? && feed.authorization.value.authType == PathSegment ==>
              r == GetPathSegmentAuth(feed, url, secrets, p)
    ensures feed.authorization.Some? && feed.authorization.value.authType == ReplaceUrl ==>
              r == GetReplaceUrlAuth(feed, url, secrets, p)
  {
    if feed.authorization.None? then Success(Unchanged(url))
    else
      match feed.authorization.value.authType
      case Header => GetHeaderAuth(feed, url, secrets, p)
      case BasicAuth => GetBasicAuth(feed, url, secrets, p)
      case QueryParam => Success(GetQueryParamAuth(feed, url, secrets))
      case PathSegment => GetPathSegmentAuth(feed, url, secrets, p)
      case ReplaceUrl => GetReplaceUrlAuth(feed, url, secrets, p)
      case Unrecognised(_) => Success(Unchanged(url))
  }
}
