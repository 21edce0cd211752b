# Frame.io add-on backend: OAuth session state machine and PKCE values

This project models, in Dafny, the two pieces of logic in the Frame.io add-on
for Adobe Express that carry correctness constraints:

- **The backend's authorization flow** (`server.js`). Each browser session
  holds two fields, `oauthState` and `frameioToken`. Three handlers read and
  write them:
  - `GET /auth/frameio` stores a fresh random state and redirects to the
    Frame.io authorization endpoint (section 4.1.1 of RFC 6749).
  - `GET /auth/callback` and its alias `GET /oauth/callback` compare the
    query `state` with the stored one. This is the CSRF check of section 10.12
    of RFC 6749. On a match the handler asks the token endpoint for a token,
    authenticating with HTTP Basic (sections 4.1.3 and 2.3.1 of RFC 6749). It
    stores the token response when that response has an `access_token`.
  - `GET /api/assets` refuses with 401 unless a token is stored. Otherwise it
    relays the project's item listing.
- **The panel script** (`dist/ui/index.js`):
  - `generatePKCE` builds a code verifier from 32 random bytes rendered in
    base 36. Its code challenge is the S256 challenge of section 4.2 of
    RFC 7636: base64 (section 4 of RFC 4648) of the SHA-256 digest, made
    url-safe as in section 5 of RFC 4648.
  - The panel then renders one `📁 <name>` label per listed asset.

How the model is organised:

- `server.dfy` (module `Server`):
  - The handlers are pure step functions over a `SessionRecord`. They return
    the new record, the reply, and the upstream request they sent, if any.
  - `class Session` holds the two fields the handlers update in place. Its
    methods mirror the handlers' early returns, and each one is proved equal
    to its step function.
  - `Run` folds a sequence of requests over a session. Properties of whole
    request sequences are proved about it.
- `url_query.dfy` (module `UrlQuery`) reads URL query strings. It is the
  independent reading against which the authorization URL is checked.
- `pkce.dfy` (module `Pkce`) covers base 36, the verifier, base64 and its
  decoder, base64url, and `generatePKCE`.
- `assets_view.dfy` (module `AssetsView`) covers the panel's rendering of
  the listing.
- `json.dfy` (module `Json`) holds JSON values with JavaScript property reads
  and truthiness.
- `wrappers.dfy` (module `Wrappers`) holds `Option`.

Upstream answers, the random state, the random bytes, SHA-256 and
`encodeURIComponent` are parameters of the model.

The model follows the code, including where the code departs from the
standards it implements or from what a login flow is usually expected to do:

- The verifier has 32 to 64 characters. Section 4.1 of RFC 7636 requires 43
  to 128.
- The stored state is neither single-use nor expiring, so a replayed callback
  passes the check again.
- The server ignores the client's `code_challenge` and sends no
  `code_verifier`, so the PKCE binding of section 4 of RFC 7636 never takes
  effect.
- The listing relays the upstream body whatever its HTTP status.

## Model

| member | source | states |
|---|---|---|
| Server.AuthUrlParameters | server.js:51-55 | Read back as a query string, the authorization URL has the path `https://applications.frame.io/oauth2/auth` and exactly the pairs response_type=code, client_id, redirect_uri, scope (the fixed scope, encoded), state, in that order. Its `state` value is the given state. This holds whenever no value contains `&`. |
| Server.QueryTextOfAuthUrl | server.js:51-55 | The URL template equals the endpoint, `?`, and the five `key=value` pieces joined by `&`. |
| Server.StateParameter | server.js:55 | Looking up `state` among the URL's parameters yields the fresh state. |
| Server.BeginStep | server.js:45-58 | Begin sets `oauthState` to the fresh state, overwriting any earlier one. It leaves `frameioToken` alone and replies with a redirect to the authorization endpoint. |
| Server.BeginUrlCarriesState | server.js:48-55 | The redirect's `state` parameter equals the `oauthState` that Begin stored. |
| Server.BeginIgnoresCodeChallenge | server.js:45-58 | Begin's result does not depend on the `code_challenge` the client sends. |
| Server.NoCodeVerifierSent | server.js:70-73 | The token request form has exactly three fields, and none is `code_verifier`. |
| Server.CallbackStep | server.js:61-100 | The callback never changes `oauthState`. It replies 400 "CSRF detected." exactly when the query state differs from the stored one; then the session is unchanged and no request is sent. On a match it sends the token request. `frameioToken` becomes the whole token response exactly when the state matched and the response's `access_token` is truthy, and is unchanged otherwise. The success page is sent in exactly that case. A 500 is sent exactly when the state matched and the exchange threw or gave no truthy `access_token`. |
| Server.NullTokenBodyIsServerError | server.js:84-99 | A `null` token body makes the `access_token` read throw. The reply is 500 "OAuth server error." and the session is unchanged. |
| Server.CallbackIgnoresExchangeStatus | server.js:77-86 | The callback's outcome does not depend on the token endpoint's HTTP status. |
| Server.MissingStatesMatch | server.js:62-63 | With no begin and no `state` parameter, both sides are undefined. The check passes and the token request is sent. |
| Server.CallbackWithoutBeginRefused | server.js:62-63 | A callback carrying a `state` on a fresh session is refused with 400, and nothing is sent or stored. |
| Server.ReplayPassesAgain | server.js:61-100 | After a callback that passed the check, the same query passes again, whatever the first exchange gave, and a second token request is sent. |
| Server.SessionAccessToken | server.js:110 | `frameioToken?.access_token` never throws. |
| Server.ListAssetsStep | server.js:109-126 | The listing replies 401 "Not authenticated" exactly when the stored `access_token` is not truthy, and sends a request exactly when it is. That request is a bearer request to `/v2/projects/<id>/items` carrying the token. An answered fetch has its body relayed as JSON; a thrown one gives 500 "Failed to fetch assets". |
| Server.ListIgnoresUpstreamStatus | server.js:116-120 | The listing reply does not depend on the upstream HTTP status. |
| Server.LoginThenList | server.js:45-126 | Begin, then a matching callback with a token, then the listing: the success page is sent, the session holds the fresh state and the whole token, and the upstream listing is relayed. |
| Server.OauthStateIsLatestIssued | server.js:45-126 | After any sequence of requests, `oauthState` is the state of the latest begin, or the initial value if there was none. No callback or listing clears it, and nothing expires it. |
| Server.NoBeginKeepsInitial | server.js:49 | Without a begin, the latest issued state is the initial one. |
| Server.ReplayAcceptedWithoutBegin | server.js:61-63 | A state that passed the check passes it after any further requests that include no begin. |
| Server.RunKeepsTokenWellFormed | server.js:86-87 | A stored token always has a truthy `access_token`, after any sequence of requests. |
| Server.LoggedInStaysLoggedIn | server.js:86-113 | Once a token is stored, no sequence of requests removes it, and the listing is never refused with 401 afterwards. |
| Server.TokenProvenance | server.js:63-87 | If a session that started without a token holds one, some callback in its history passed the state check against the session of that moment and received exactly that token. |
| Server.Session.constructor | server.js:20-28 | A new session has neither field set. |
| Server.Session.Begin | server.js:45-58 | The new fields and the reply are those of `BeginStep` on the old fields. |
| Server.Session.Callback | server.js:61-100 | The new fields, the reply and the request sent are those of `CallbackStep` on the old fields. |
| Server.Session.OAuthCallback | server.js:103-106 | The alias has exactly the effect and reply of `/auth/callback` on the same session and query. |
| Server.Session.ListAssets | server.js:109-126 | The reply and the request sent are those of `ListAssetsStep`, and the session is not modified. |
| Server.LoginScenario | server.js:45-126 | On a session object: begin, then a callback with a token, then the same callback replayed through the alias, then the listing. The replay is accepted again with the success page, and the listing is relayed. |
| Json.LastMember | server.js:86 | A member read is `undefined` exactly when no member has the key. Otherwise it is the value of the last member with that key. |
| Json.GetProperty | server.js:86 | A property read throws exactly on `null`, and only objects yield values. |
| UrlQuery.IndexOf | server.js:51-55 | Gives the position of the first occurrence, or the length when there is none. |
| UrlQuery.Lookup | server.js:55 | The lookup yields a value exactly when some pair has the key. |
| UrlQuery.SplitJoin | server.js:51-55 | Splitting on a separator undoes joining pieces that do not contain it. |
| UrlQuery.PathAndQuery | server.js:51 | A URL whose path has no `?` reads back as that path and the pieces of its query. |
| UrlQuery.SplitPairOf | server.js:52-55 | A `key=value` piece whose key has no `=` reads back as that key and the whole value. |
| Pkce.ToBase36 | dist/ui/index.js:5 | `toString(36)` gives at least one character, all from `0-9a-z`, and no leading zero unless the number is 0. |
| Pkce.Base36RoundTrip | dist/ui/index.js:5 | Reading the base-36 digits back gives the number. |
| Pkce.ByteBase36Length | dist/ui/index.js:5 | Bytes 0-35 give one character and bytes 36-255 give two. |
| Pkce.JoinedLength | dist/ui/index.js:4-6 | The joined digits number one per byte plus one per byte of 36 or more. |
| Pkce.VerifierAlphabet | dist/ui/index.js:4-7 | Every verifier character is in `0-9a-z`. |
| Pkce.VerifierLength | dist/ui/index.js:4-7 | For 32 bytes, `slice(0, 128)` does not truncate. The verifier has 32 plus the number of bytes of 36 or more characters, so between 32 and 64. |
| Pkce.VerifierMeetsMinimumIff | dist/ui/index.js:4-7 | The verifier reaches the 43-character minimum of RFC 7636 exactly when at least 11 of the 32 bytes are 36 or more. |
| Pkce.ZeroBytesGiveShortVerifier | dist/ui/index.js:4-7 | Thirty-two zero bytes give a 32-character verifier, shorter than the RFC 7636 minimum. |
| Pkce.Base64Encode | dist/ui/index.js:12 | Base64 output has 4 characters for every 3 bytes, rounded up. |
| Pkce.Base64RoundTrip | dist/ui/index.js:12 | Decoding the base64 of any byte sequence gives the bytes back. |
| Pkce.Base64PadShape | dist/ui/index.js:12 | Base64 output has `=` exactly from position ceil(4n/3) on, up to a multiple of four. |
| Pkce.Base64Alphabet | dist/ui/index.js:12 | Every base64 character is from `A-Z a-z 0-9 + /` or is `=`. |
| Pkce.ReplaceAll | dist/ui/index.js:13-14 | A global single-character replace keeps the length, maps every `from` to `to`, and keeps every other character. |
| Pkce.StripTrailing | dist/ui/index.js:15 | `/=+$/` removal leaves a prefix, removes only `=`, and leaves no `=` at the end. |
| Pkce.ToBase64UrlShape | dist/ui/index.js:13-15 | On padded base64, the url-safe step keeps the digits with `+` and `/` translated, and drops exactly the padding. |
| Pkce.FromToBase64Url | dist/ui/index.js:13-15 | On padded base64, reversing the translation and re-padding gives back the base64 string. |
| Pkce.ChallengeLengthFormula | dist/ui/index.js:11-15 | The challenge of an n-byte digest has ceil(4n/3) characters. |
| Pkce.ChallengeAlphabet | dist/ui/index.js:11-15 | The challenge contains only `A-Z a-z 0-9 - _`, so no `+`, `/` or `=`. |
| Pkce.ChallengeLength | dist/ui/index.js:11-15 | A 32-byte SHA-256 digest gives a 43-character challenge. |
| Pkce.ChallengeRoundTrip | dist/ui/index.js:12-15 | Reversing `-` and `_` and re-padding gives the standard base64 of the digest, and decoding that gives the digest. |
| Pkce.Utf8OfBase36 | dist/ui/index.js:9-10 | `TextEncoder` turns base-36 text into one byte per character, its code. |
| Pkce.GeneratePkce | dist/ui/index.js:3-18 | For 32 random bytes, the verifier is exactly the joined base-36 renderings of the bytes. It has 32 to 64 characters, all from `0-9a-z`. The challenge has 43 characters, all base64url. Undoing the url-safe step and re-padding gives exactly the standard base64 of the SHA-256 digest of the verifier's UTF-8 bytes, and decoding that gives the digest. |
| AssetsView.DisplayName | dist/ui/index.js:64 | An item that is not an object, or an object without a `name` member, shows `(Unnamed asset)`. For an object, the `name` member that parsing keeps, the last one, decides: a truthy value is shown as `String(value)`, and a falsy one shows `(Unnamed asset)`. |
| AssetsView.DigitsRoundTrip | dist/ui/index.js:64 | The decimal rendering used for a numeric name reads back as the number. |
| Json.LastMemberAt | server.js:86 | A member with no later member of the same key is the one a property read yields. |
| AssetsView.Labels | dist/ui/index.js:62-66 | The items give one label each, in order. The result fails exactly when some item is `null`. |
| AssetsView.RenderAssets | dist/ui/index.js:56-66 | For a listed array, the panel shows "No assets found in your project." exactly when the array is empty. A non-empty array without `null` items shows one `📁 ` label per item, in order. Labels appear only for arrays. |
| AssetsView.LabelRecoversName | dist/ui/index.js:63-64 | For an object whose kept `name` member is a string, the label starts with `📁 `, and dropping that prefix gives the name, or `(Unnamed asset)` when the name is empty. |
| AssetsView.NamedAssetsListed | dist/ui/index.js:57-66 | A non-empty listing of assets with non-empty string names shows exactly `📁 <name>` for each, in order. |
| AssetsView.PanelAfterListing | dist/ui/index.js:47-70 | The panel shows the failure message for a session without a token. For a logged-in session it renders the upstream listing, whatever the upstream status. |

## Left out

- Express and middleware setup are not modelled. This covers CORS, body parsers, session-cookie options, `app.listen`, manifest and static-file serving, and logging. They are configuration and I/O.
- The session store is reduced to its two fields. Concurrent requests on one session are not modelled.
- `fetch` and `.json()` are opaque outcomes passed in: answered with a status and a parsed JSON body, or thrown. `Buffer` base64 of the credentials and `URLSearchParams` serialisation are kept as the data they encode, as user, password and an ordered form.
- `Math.random().toString(36).substring(2)` is a parameter, the fresh state. Its entropy is not modelled.
- `crypto.getRandomValues` is a parameter, the 32 bytes. `crypto.subtle.digest` is a parameter, a function returning 32 bytes.
- `encodeURIComponent` is an opaque function. `Server.AuthUrlParameters` requires that it produce no `&`, as the real function never does.
- Unset environment variables are not modelled. The source would interpolate `undefined`; the model takes them as strings.
- The body of the success page and what its script does are browser I/O. The model keeps only its message and target origin. That covers `postMessage` and `window.close`.
- `sessionStorage`, the `window.location` redirect to `/auth/frameio?code_challenge=…` (dist/ui/index.js:29-38), button state and DOM mutation are browser I/O.
- The message listener (dist/ui/index.js:41-42) accepts the success message from any origin, and the callback page posts it with target `'*'` (server.js:89). Neither origin is modelled.
- `AssetsView.Label` and `AssetsView.AfterLogin` carry no contract of their own. `AssetsView.LabelRecoversName`, `AssetsView.Labels`, `AssetsView.RenderAssets` and `AssetsView.PanelAfterListing` state what they produce.
- src/ui/index.js is not part of this model. It is popup geometry and event wiring.
- Query parameters are single strings or absent. Repeated and array-valued parameters are not modelled.
- `UrlQuery` does no percent-decoding.
- JSON numbers are integers. `AssetsView.Stringify` prints them in plain decimal; floating point and exponent notation are not modelled.
- `AssetsView.RenderAssets`: a listing body that is an object with a truthy `length`, or a non-empty string, is taken to throw at `forEach`.
- `AssetsView.RenderAssets`: when an item in the middle of the list is `null`, the labels already appended are discarded. This matches the catch handler overwriting the container's text.
- `Pkce.Base64Decode` does not validate its input. It is used only as the partner of `Base64Encode` and on that encoder's output.
- `Server.Session.OAuthCallback`: the re-dispatch through the router is modelled as a direct call. It relies on the router keeping the already-parsed `req.query` when `req.url` is rewritten, as Express 4 does.
