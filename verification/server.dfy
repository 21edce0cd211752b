/**
 * The add-on backend's per-session OAuth 2.0 authorization-code flow: the
 * session record {oauthState, frameioToken}, the three handlers that read and
 * write it (begin, callback with its alias, asset listing) and the request
 * each one sends upstream. The upstream answers, the random state and
 * `encodeURIComponent` are parameters.
 */
module Server {
  import opened Wrappers
  import opened Json
  import UrlQuery

  const AuthEndpoint := "https://applications.frame.io/oauth2/auth"
  const TokenEndpoint := "https://applications.frame.io/oauth2/token"
  const ProjectsBase := "https://api.frame.io/v2/projects/"
  /** The fixed scope of the authorization request. */
  const Scope := "asset.read asset.create asset.delete reviewlink.create offline"
  /** The message the callback page posts to its opener. */
  const AuthSuccessMessage := "frameio-auth-success"

  /** The process environment, and `encodeURIComponent` as an opaque function. */
  datatype Env = Env(
    clientId: string,
    clientSecret: string,
    redirectUri: string,
    projectId: string,
    encodeUriComponent: string -> string)

  /** The two fields the handlers keep in `req.session`. */
  datatype SessionRecord = SessionRecord(oauthState: Option<string>, frameioToken: Option<Json>)

  /** A session as `express-session` first creates it. */
  const FreshSession := SessionRecord(None, None)

  /** The `code` and `state` query parameters of a callback (absent = `undefined`). */
  datatype CallbackQuery = CallbackQuery(code: Option<string>, state: Option<string>)

  /** How an upstream call ended: `fetch` and `.json()` both resolved, giving the
      HTTP status and the parsed body, or one of them threw. */
  datatype Upstream = Answered(status: int, body: Json) | Threw

  /** What a handler sends back to the browser. */
  datatype Reply =
    | Redirect(location: string)
    | Text(status: int, text: string)
    | SuccessPage(message: string, targetOrigin: string)
    | JsonReply(body: Json)

  /** The HTTP status of a reply (`res.redirect` is 302, `res.send` and `res.json` 200). */
  function StatusOf(r: Reply): int {
    match r
    case Redirect(_) => 302
    case Text(status, _) => status
    case SuccessPage(_, _) => 200
    case JsonReply(_) => 200
  }

  const CsrfReply := Text(400, "CSRF detected.")
  const ExchangeFailedReply := Text(500, "OAuth failed.")
  const CallbackErrorReply := Text(500, "OAuth server error.")
  /** The page whose script runs `window.opener.postMessage('frameio-auth-success', '*')`. */
  const AuthSuccessReply := SuccessPage(AuthSuccessMessage, "*")
  const NotAuthenticatedReply := Text(401, "Not authenticated")
  const FetchAssetsFailedReply := Text(500, "Failed to fetch assets")

  /** The token request: a POST to the token endpoint, client credentials as the
      user and password of HTTP Basic authentication, and a form body. */
  datatype TokenRequest = TokenRequest(
    url: string,
    basicUser: string,
    basicPassword: string,
    form: seq<(string, string)>)

  /** The listing request, authorized by `Bearer <token>`. */
  datatype AssetsRequest = AssetsRequest(url: string, bearer: Json)

  // ---------------------------------------------------------------- begin

  /** The authorization request URL. */
  function AuthUrl(env: Env, state: string): string {
    AuthEndpoint
      + "?response_type=code&client_id=" + env.clientId
      + "&redirect_uri=" + env.encodeUriComponent(env.redirectUri)
      + "&scope=" + env.encodeUriComponent(Scope)
      + "&state=" + state
  }

  /** The parameters the authorization URL carries, in order. */
  function AuthParameters(env: Env, state: string): seq<(string, string)> {
    [("response_type", "code"),
     ("client_id", env.clientId),
     ("redirect_uri", env.encodeUriComponent(env.redirectUri)),
     ("scope", env.encodeUriComponent(Scope)),
     ("state", state)]
  }

  /** The five `key=value` pieces of the authorization query, in order. */
  function AuthPieces(env: Env, state: string): seq<string> {
    ["response_type" + "=" + "code",
     "client_id" + "=" + env.clientId,
     "redirect_uri" + "=" + env.encodeUriComponent(env.redirectUri),
     "scope" + "=" + env.encodeUriComponent(Scope),
     "state" + "=" + state]
  }

  lemma LeadingLiteral()
    ensures "?response_type=code&client_id=" == "?" + ("response_type" + "=" + "code" + "&" + ("client_id" + "="))
  {
  }

  lemma SeparatorLiterals()
    ensures "&redirect_uri=" == "&" + ("redirect_uri" + "=")
    ensures "&scope=" == "&" + ("scope" + "=")
    ensures "&state=" == "&" + ("state" + "=")
  {
  }

  lemma JoinFive(a: string, b: string, c: string, d: string, e: string, sep: char)
    ensures UrlQuery.JoinWith([a, b, c, d, e], sep) == a + [sep] + (b + [sep] + (c + [sep] + (d + [sep] + e)))
  {
    assert [d, e][1..] == [e];
    assert UrlQuery.JoinWith([d, e], sep) == d + [sep] + e;
    assert [c, d, e][1..] == [d, e];
    assert UrlQuery.JoinWith([c, d, e], sep) == c + [sep] + (d + [sep] + e);
    assert [b, c, d, e][1..] == [c, d, e];
    assert UrlQuery.JoinWith([b, c, d, e], sep) == b + [sep] + (c + [sep] + (d + [sep] + e));
    assert [a, b, c, d, e][1..] == [b, c, d, e];
  }

  /** The template's concatenation regrouped into `&`-joined pieces, for any
      literals that split as the template's do. */
  lemma Regroup(a: string, l1: string, x1: string, l2: string, x2: string, l3: string, x3: string,
                l4: string, x4: string, p0: string, k1: string, k2: string, k3: string, k4: string)
    requires l1 == "?" + (p0 + "&" + k1)
    requires l2 == "&" + k2 && l3 == "&" + k3 && l4 == "&" + k4
    ensures a + l1 + x1 + l2 + x2 + l3 + x3 + l4 + x4 ==
      a + "?" + UrlQuery.JoinWith([p0, k1 + x1, k2 + x2, k3 + x3, k4 + x4], '&')
  {
    JoinFive(p0, k1 + x1, k2 + x2, k3 + x3, k4 + x4, '&');
  }

  /** The authorization URL is the endpoint, `?`, and the pieces joined by `&`. */
  lemma QueryTextOfAuthUrl(env: Env, state: string)
    ensures AuthUrl(env, state) == AuthEndpoint + "?" + UrlQuery.JoinWith(AuthPieces(env, state), '&')
  {
    LeadingLiteral();
    SeparatorLiterals();
    Regroup(AuthEndpoint, "?response_type=code&client_id=", env.clientId,
      "&redirect_uri=", env.encodeUriComponent(env.redirectUri),
      "&scope=", env.encodeUriComponent(Scope), "&state=", state,
      "response_type" + "=" + "code", "client_id" + "=", "redirect_uri" + "=", "scope" + "=", "state" + "=");
  }

  /** The conditions under which no parameter value of the authorization URL
      contains `&` (`encodeURIComponent` escapes it; a base-36 state has none). */
  predicate AmpersandFree(env: Env, state: string) {
    && UrlQuery.Free(env.clientId, '&')
    && UrlQuery.Free(env.encodeUriComponent(env.redirectUri), '&')
    && UrlQuery.Free(env.encodeUriComponent(Scope), '&')
    && UrlQuery.Free(state, '&')
  }

  lemma AuthPiecesFree(env: Env, state: string)
    requires AmpersandFree(env, state)
    ensures forall i :: 0 <= i < 5 ==> UrlQuery.Free(AuthPieces(env, state)[i], '&')
  {
    var p := AuthPieces(env, state);
    UrlQuery.PieceFree("response_type", "code", '&');
    UrlQuery.PieceFree("client_id", env.clientId, '&');
    UrlQuery.PieceFree("redirect_uri", env.encodeUriComponent(env.redirectUri), '&');
    UrlQuery.PieceFree("scope", env.encodeUriComponent(Scope), '&');
    UrlQuery.PieceFree("state", state, '&');
  }

  lemma AuthPiecesRead(env: Env, state: string)
    ensures UrlQuery.PairsOf(AuthPieces(env, state)) == AuthParameters(env, state)
  {
    UrlQuery.SplitPairOf("response_type", "code");
    UrlQuery.SplitPairOf("client_id", env.clientId);
    UrlQuery.SplitPairOf("redirect_uri", env.encodeUriComponent(env.redirectUri));
    UrlQuery.SplitPairOf("scope", env.encodeUriComponent(Scope));
    UrlQuery.SplitPairOf("state", state);
  }

  /** Read back as a query string, the authorization URL is the endpoint with
      exactly the five parameters in order, provided no value contains `&`. */
  lemma AuthUrlParameters(env: Env, state: string)
    requires AmpersandFree(env, state)
    ensures UrlQuery.PathOf(AuthUrl(env, state)) == AuthEndpoint
    ensures UrlQuery.QueryPairs(AuthUrl(env, state)) == AuthParameters(env, state)
    ensures UrlQuery.Lookup(UrlQuery.QueryPairs(AuthUrl(env, state)), "state") == Some(state)
  {
    var q := UrlQuery.JoinWith(AuthPieces(env, state), '&');
    QueryTextOfAuthUrl(env, state);
    UrlQuery.PathAndQuery(AuthEndpoint, q);
    AuthPiecesFree(env, state);
    UrlQuery.SplitJoin(AuthPieces(env, state), '&');
    AuthPiecesRead(env, state);
    StateParameter(env, state);
  }

  lemma StateParameter(env: Env, state: string)
    ensures UrlQuery.Lookup(AuthParameters(env, state), "state") == Some(state)
  {
    var ps := AuthParameters(env, state);
    assert ps[0].0 != "state" && ps[1].0 != "state" && ps[2].0 != "state" && ps[3].0 != "state";
    assert UrlQuery.Lookup(ps, "state") == UrlQuery.Lookup(ps[1..], "state");
    assert UrlQuery.Lookup(ps[1..], "state") == UrlQuery.Lookup(ps[2..], "state");
    assert UrlQuery.Lookup(ps[2..], "state") == UrlQuery.Lookup(ps[3..], "state");
    assert UrlQuery.Lookup(ps[3..], "state") == UrlQuery.Lookup(ps[4..], "state");
    assert ps[4..][0] == ("state", state);
  }

  datatype BeginResult = BeginResult(session: SessionRecord, reply: Reply)

  /** `GET /auth/frameio`: the `code_challenge` query parameter is accepted and
      ignored; the fresh state overwrites `oauthState`. */
  function BeginStep(s: SessionRecord, env: Env, codeChallenge: Option<string>, freshState: string): (r: BeginResult)
    ensures r.session.oauthState == Some(freshState)
    ensures r.session.frameioToken == s.frameioToken
    ensures r.reply.Redirect? && UrlQuery.PathOf(r.reply.location) == AuthEndpoint
  {
    assert AuthUrl(env, freshState) == AuthEndpoint + ['?'] + (AuthUrl(env, freshState)[|AuthEndpoint| + 1..]);
    UrlQuery.IndexOfAfter(AuthEndpoint, '?', AuthUrl(env, freshState)[|AuthEndpoint| + 1..]);
    BeginResult(s.(oauthState := Some(freshState)), Redirect(AuthUrl(env, freshState)))
  }

  /** The `state` parameter of the redirect is the value Begin stored. */
  lemma BeginUrlCarriesState(s: SessionRecord, env: Env, codeChallenge: Option<string>, freshState: string)
    requires AmpersandFree(env, freshState)
    ensures var r := BeginStep(s, env, codeChallenge, freshState);
      r.reply.Redirect? &&
      UrlQuery.Lookup(UrlQuery.QueryPairs(r.reply.location), "state") == r.session.oauthState
  {
    AuthUrlParameters(env, freshState);
  }

  /** Begin does not depend on the client's `code_challenge`. */
  lemma BeginIgnoresCodeChallenge(s: SessionRecord, env: Env, c1: Option<string>, c2: Option<string>, freshState: string)
    ensures BeginStep(s, env, c1, freshState) == BeginStep(s, env, c2, freshState)
  {
  }

  // ---------------------------------------------------------------- callback

  /** The CSRF check `state !== req.session.oauthState`, negated: strict equality
      of two possibly-undefined values, so two absent values match. */
  predicate StatePasses(q: CallbackQuery, s: SessionRecord) {
    q.state == s.oauthState
  }

  /** `token.access_token` is truthy. */
  predicate HasAccessToken(token: Json) {
    ReadTruthy(GetProperty(token, "access_token"))
  }

  /** What `URLSearchParams.append` records for a possibly-undefined value. */
  function FormValue(v: Option<string>): string {
    match v
    case Some(x) => x
    case None => "undefined"
  }

  /** The token request the callback sends for `code`. */
  function TokenRequestFor(env: Env, code: Option<string>): TokenRequest {
    TokenRequest(
      TokenEndpoint, env.clientId, env.clientSecret,
      [("grant_type", "authorization_code"), ("code", FormValue(code)), ("redirect_uri", env.redirectUri)])
  }

  /** The token request carries no `code_verifier`: the challenge sent at begin
      is never matched. */
  lemma NoCodeVerifierSent(env: Env, code: Option<string>)
    ensures forall p :: p in TokenRequestFor(env, code).form ==> p.0 != "code_verifier"
    ensures |TokenRequestFor(env, code).form| == 3
  {
  }

  datatype CallbackResult = CallbackResult(session: SessionRecord, reply: Reply, request: Option<TokenRequest>)

  /** `GET /auth/callback`. */
  function CallbackStep(s: SessionRecord, env: Env, q: CallbackQuery, exchange: Upstream): (r: CallbackResult)
    ensures r.session.oauthState == s.oauthState
    ensures r.reply == CsrfReply <==> !StatePasses(q, s)
    ensures !StatePasses(q, s) ==> r.session == s && r.request == None
    ensures StatePasses(q, s) ==> r.request == Some(TokenRequestFor(env, q.code))
    ensures r.session.frameioToken ==
      if StatePasses(q, s) && exchange.Answered? && HasAccessToken(exchange.body)
      then Some(exchange.body) else s.frameioToken
    ensures r.reply == AuthSuccessReply <==>
      StatePasses(q, s) && exchange.Answered? && HasAccessToken(exchange.body)
    ensures StatusOf(r.reply) == 500 <==>
      StatePasses(q, s) && !(exchange.Answered? && HasAccessToken(exchange.body))
  {
    if q.state != s.oauthState then CallbackResult(s, CsrfReply, None)
    else
      var request := Some(TokenRequestFor(env, q.code));
      match exchange
      case Threw => CallbackResult(s, CallbackErrorReply, request)
      case Answered(_, token) =>
        var access := GetProperty(token, "access_token");
        if access.Throws? then CallbackResult(s, CallbackErrorReply, request)
        else if ReadTruthy(access) then CallbackResult(s.(frameioToken := Some(token)), AuthSuccessReply, request)
        else CallbackResult(s, ExchangeFailedReply, request)
  }

  /** A token body of `null` makes `token.access_token` throw: the generic error page. */
  lemma NullTokenBodyIsServerError(s: SessionRecord, env: Env, q: CallbackQuery, status: int)
    requires StatePasses(q, s)
    ensures CallbackStep(s, env, q, Answered(status, JNull)) ==
      CallbackResult(s, CallbackErrorReply, Some(TokenRequestFor(env, q.code)))
  {
  }

  /** The callback never reads the token endpoint's HTTP status. */
  lemma CallbackIgnoresExchangeStatus(s: SessionRecord, env: Env, q: CallbackQuery, st1: int, st2: int, body: Json)
    ensures CallbackStep(s, env, q, Answered(st1, body)) == CallbackStep(s, env, q, Answered(st2, body))
  {
  }

  /** A callback before any begin, without a `state` parameter, passes the check
      and sends a token request. */
  lemma MissingStatesMatch(env: Env, code: Option<string>, exchange: Upstream)
    ensures StatePasses(CallbackQuery(code, None), FreshSession)
    ensures CallbackStep(FreshSession, env, CallbackQuery(code, None), exchange).request ==
      Some(TokenRequestFor(env, code))
  {
  }

  /** A callback with a `state` and no begin before it is refused and sends nothing. */
  lemma CallbackWithoutBeginRefused(env: Env, code: Option<string>, state: string, exchange: Upstream)
    ensures CallbackStep(FreshSession, env, CallbackQuery(code, Some(state)), exchange) ==
      CallbackResult(FreshSession, CsrfReply, None)
  {
  }

  /** A callback that passed the check passes it again when replayed with the
      same query: nothing consumes `oauthState`. */
  lemma ReplayPassesAgain(s: SessionRecord, env: Env, q: CallbackQuery, first: Upstream, second: Upstream)
    requires StatePasses(q, s)
    ensures var s1 := CallbackStep(s, env, q, first).session;
      StatePasses(q, s1) && CallbackStep(s1, env, q, second).request == Some(TokenRequestFor(env, q.code))
  {
  }

  // ---------------------------------------------------------------- asset listing

  /** `req.session.frameioToken?.access_token`. */
  function SessionAccessToken(s: SessionRecord): (r: PropertyRead)
    ensures !r.Throws?
  {
    match s.frameioToken
    case None => Undefined
    case Some(JNull) => Undefined
    case Some(token) => GetProperty(token, "access_token")
  }

  /** The listing URL of the configured project. */
  function ItemsUrl(projectId: string): string {
    ProjectsBase + projectId + "/items"
  }

  datatype ListResult = ListResult(reply: Reply, request: Option<AssetsRequest>)

  /** `GET /api/assets`. */
  function ListAssetsStep(s: SessionRecord, env: Env, fetched: Upstream): (r: ListResult)
    ensures r.reply == NotAuthenticatedReply <==> !ReadTruthy(SessionAccessToken(s))
    ensures r.request.Some? <==> ReadTruthy(SessionAccessToken(s))
    ensures r.request.Some? ==>
      r.request.value == AssetsRequest(ItemsUrl(env.projectId), SessionAccessToken(s).v)
    ensures r.request.Some? && fetched.Answered? ==> r.reply == JsonReply(fetched.body)
    ensures r.request.Some? && fetched.Threw? ==> r.reply == FetchAssetsFailedReply
  {
    var token := SessionAccessToken(s);
    if !ReadTruthy(token) then ListResult(NotAuthenticatedReply, None)
    else
      var request := Some(AssetsRequest(ItemsUrl(env.projectId), token.v));
      match fetched
      case Threw => ListResult(FetchAssetsFailedReply, request)
      case Answered(_, body) => ListResult(JsonReply(body), request)
  }

  /** The listing relays the upstream body whatever the upstream HTTP status. */
  lemma ListIgnoresUpstreamStatus(s: SessionRecord, env: Env, st1: int, st2: int, body: Json)
    ensures ListAssetsStep(s, env, Answered(st1, body)) == ListAssetsStep(s, env, Answered(st2, body))
  {
  }

  /** Begin, then the callback it set up, then the listing: the token is stored
      whole, the opener is told, and the upstream listing is relayed. */
  lemma LoginThenList(env: Env, freshState: string, code: Option<string>, token: Json, body: Json, st1: int, st2: int)
    requires HasAccessToken(token)
    ensures var s1 := BeginStep(FreshSession, env, None, freshState).session;
      var r2 := CallbackStep(s1, env, CallbackQuery(code, Some(freshState)), Answered(st1, token));
      && r2.reply == AuthSuccessReply
      && r2.session == SessionRecord(Some(freshState), Some(token))
      && ListAssetsStep(r2.session, env, Answered(st2, body)).reply == JsonReply(body)
  {
  }

  // ---------------------------------------------------------------- request sequences

  /** One request reaching the session. */
  datatype Event =
    | BeginEvent(codeChallenge: Option<string>, freshState: string)
    | CallbackEvent(query: CallbackQuery, exchange: Upstream)
    | AliasCallbackEvent(query: CallbackQuery, exchange: Upstream)
    | ListAssetsEvent(fetched: Upstream)

  /** The session after one request; `/oauth/callback` re-dispatches to the callback. */
  function Apply(s: SessionRecord, env: Env, e: Event): SessionRecord {
    match e
    case BeginEvent(c, f) => BeginStep(s, env, c, f).session
    case CallbackEvent(q, x) => CallbackStep(s, env, q, x).session
    case AliasCallbackEvent(q, x) => CallbackStep(s, env, q, x).session
    case ListAssetsEvent(_) => s
  }

  /** The session after a sequence of requests, oldest first. */
  function Run(s: SessionRecord, env: Env, events: seq<Event>): SessionRecord
    decreases |events|
  {
    if events == [] then s else Apply(Run(s, env, events[..|events| - 1]), env, events[|events| - 1])
  }

  /** The state of the latest begin in `events`, or `initial` when there is none. */
  function LatestIssuedState(initial: Option<string>, events: seq<Event>): Option<string>
    decreases |events|
  {
    if events == [] then initial
    else match events[|events| - 1]
      case BeginEvent(_, f) => Some(f)
      case _ => LatestIssuedState(initial, events[..|events| - 1])
  }

  /** Only begin changes `oauthState`; nothing clears it. */
  lemma {:induction false} OauthStateIsLatestIssued(s: SessionRecord, env: Env, events: seq<Event>)
    ensures Run(s, env, events).oauthState == LatestIssuedState(s.oauthState, events)
    decreases |events|
  {
    if events != [] {
      OauthStateIsLatestIssued(s, env, events[..|events| - 1]);
    }
  }

  /** Without a new begin, a callback state accepted once is accepted after any
      further requests. */
  lemma ReplayAcceptedWithoutBegin(s: SessionRecord, env: Env, q: CallbackQuery, events: seq<Event>)
    requires StatePasses(q, s)
    requires forall i :: 0 <= i < |events| ==> !events[i].BeginEvent?
    ensures StatePasses(q, Run(s, env, events))
  {
    OauthStateIsLatestIssued(s, env, events);
    NoBeginKeepsInitial(s.oauthState, events);
  }

  lemma {:induction false} NoBeginKeepsInitial(initial: Option<string>, events: seq<Event>)
    requires forall i :: 0 <= i < |events| ==> !events[i].BeginEvent?
    ensures LatestIssuedState(initial, events) == initial
    decreases |events|
  {
    if events != [] {
      NoBeginKeepsInitial(initial, events[..|events| - 1]);
    }
  }

  /** A stored token always has a truthy `access_token`. */
  ghost predicate TokenWellFormed(s: SessionRecord) {
    s.frameioToken.Some? ==> HasAccessToken(s.frameioToken.value)
  }

  /** Every request keeps the stored token well formed. */
  lemma {:induction false} RunKeepsTokenWellFormed(s: SessionRecord, env: Env, events: seq<Event>)
    requires TokenWellFormed(s)
    ensures TokenWellFormed(Run(s, env, events))
    decreases |events|
  {
    if events != [] {
      RunKeepsTokenWellFormed(s, env, events[..|events| - 1]);
    }
  }

  /** Once logged in, a session stays logged in: no request removes the token
      and none expires it, so the listing is never refused afterwards. */
  lemma {:induction false} LoggedInStaysLoggedIn(s: SessionRecord, env: Env, events: seq<Event>, fetched: Upstream)
    requires s.frameioToken.Some? && TokenWellFormed(s)
    ensures Run(s, env, events).frameioToken.Some?
    ensures ListAssetsStep(Run(s, env, events), env, fetched).reply != NotAuthenticatedReply
    decreases |events|
  {
    RunKeepsTokenWellFormed(s, env, events);
    if events != [] {
      LoggedInStaysLoggedIn(s, env, events[..|events| - 1], fetched);
    }
    var t := Run(s, env, events).frameioToken.value;
    assert HasAccessToken(t);
    assert t != JNull;
  }

  /** Request `i` of `events` is a callback that passed the state check against
      the session as it then was and whose exchange returned `token`. */
  ghost predicate AcceptedAt(s: SessionRecord, env: Env, events: seq<Event>, i: nat, token: Json)
    requires i < |events|
  {
    && (events[i].CallbackEvent? || events[i].AliasCallbackEvent?)
    && StatePasses(events[i].query, Run(s, env, events[..i]))
    && events[i].exchange.Answered? && events[i].exchange.body == token
    && HasAccessToken(token)
  }

  /** A token reaches a session that had none only through a callback whose
      `state` matched the session's `oauthState` at that moment. */
  lemma {:induction false} TokenProvenance(s: SessionRecord, env: Env, events: seq<Event>)
    requires s.frameioToken == None
    ensures Run(s, env, events).frameioToken.Some? ==>
      exists i :: 0 <= i < |events| && AcceptedAt(s, env, events, i, Run(s, env, events).frameioToken.value)
    decreases |events|
  {
    if events != [] {
      var n := |events| - 1;
      var prefix := events[..n];
      var before, after := Run(s, env, prefix), Run(s, env, events);
      if after.frameioToken.Some? {
        if after.frameioToken == before.frameioToken {
          TokenProvenance(s, env, prefix);
          var i :| 0 <= i < |prefix| && AcceptedAt(s, env, prefix, i, before.frameioToken.value);
          assert prefix[..i] == events[..i];
          assert AcceptedAt(s, env, events, i, after.frameioToken.value);
        } else {
          assert events[..n] == prefix;
          assert AcceptedAt(s, env, events, n, after.frameioToken.value);
        }
      }
    }
  }

  // ---------------------------------------------------------------- the session object

  /** `req.session` with the two fields the handlers update in place. */
  class Session {
    var oauthState: Option<string>
    var frameioToken: Option<Json>

    constructor ()
      ensures Record() == FreshSession
    {
      oauthState := None;
      frameioToken := None;
    }

    function Record(): SessionRecord
      reads this
    {
      SessionRecord(oauthState, frameioToken)
    }

    /** `GET /auth/frameio`. */
    method Begin(env: Env, codeChallenge: Option<string>, freshState: string) returns (reply: Reply)
      modifies this
      ensures BeginResult(Record(), reply) == BeginStep(old(Record()), env, codeChallenge, freshState)
    {
      var state := freshState;
      oauthState := Some(state);
      reply := Redirect(AuthUrl(env, state));
    }

    /** `GET /auth/callback`; `request` is the token request sent, if any. */
    method Callback(env: Env, query: CallbackQuery, exchange: Upstream) returns (reply: Reply, request: Option<TokenRequest>)
      modifies this
      ensures CallbackResult(Record(), reply, request) == CallbackStep(old(Record()), env, query, exchange)
    {
      if query.state != oauthState {
        return CsrfReply, None;
      }
      request := Some(TokenRequestFor(env, query.code));
      match exchange {
        case Threw =>
          reply := CallbackErrorReply;
        case Answered(_, token) =>
          var access := GetProperty(token, "access_token");
          if access.Throws? {
            reply := CallbackErrorReply;
          } else if ReadTruthy(access) {
            frameioToken := Some(token);
            reply := AuthSuccessReply;
          } else {
            reply := ExchangeFailedReply;
          }
      }
    }

    /** `GET /oauth/callback`: rewrites the URL and re-dispatches to the callback. */
    method OAuthCallback(env: Env, query: CallbackQuery, exchange: Upstream) returns (reply: Reply, request: Option<TokenRequest>)
      modifies this
      ensures CallbackResult(Record(), reply, request) == CallbackStep(old(Record()), env, query, exchange)
    {
      reply, request := Callback(env, query, exchange);
    }

    /** `GET /api/assets`; `request` is the listing request sent, if any. */
    method ListAssets(env: Env, fetched: Upstream) returns (reply: Reply, request: Option<AssetsRequest>)
      ensures ListResult(reply, request) == ListAssetsStep(Record(), env, fetched)
    {
      var token := SessionAccessToken(Record());
      if !ReadTruthy(token) {
        return NotAuthenticatedReply, None;
      }
      request := Some(AssetsRequest(ItemsUrl(env.projectId), token.v));
      match fetched {
        case Threw =>
          reply := FetchAssetsFailedReply;
        case Answered(_, body) =>
          reply := JsonReply(body);
      }
    }
  }

  /** The flow a caller of the session object sees: the opener is told of the
      login, a replayed callback is accepted again and asks for another token,
      and the listing is relayed. */
  method LoginScenario(env: Env, freshState: string, code: string, token: Json, assets: Json)
    returns (second: Reply, listing: Reply)
    requires HasAccessToken(token)
    ensures second == AuthSuccessReply
    ensures listing == JsonReply(assets)
  {
    var session := new Session();
    var redirect := session.Begin(env, None, freshState);
    var query := CallbackQuery(Some(code), Some(freshState));
    var first, sent := session.Callback(env, query, Answered(200, token));
    assert first == AuthSuccessReply && sent.Some?;
    second, sent := session.OAuthCallback(env, query, Answered(200, token));
    assert sent.Some?;
    var request;
    listing, request := session.ListAssets(env, Answered(200, assets));
  }
}
