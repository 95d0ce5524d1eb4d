# Bot gate for Cloudflare Pages — a Dafny model

This project models the two request handlers of the Roundtable bot gate and proves
properties about them.

- **Gate** is the Pages middleware `onRequest`. Per request it decides to forward, block, reject, or forward and stamp a trust cookie.
- **Registrar** is the webhook `onRequestPost`. It adds a session to the shared `RT_BLOCKED` block-list.

Both handlers are pure functions here. The gate maps a request, the block-list and the
downstream response (`next()`) to an `Outcome`. That outcome holds the verdict, the
response and the block-list keys the gate read. The gate receives the store read-only,
so it cannot write to it. The registrar maps a request, the webhook secret and the
block-list to a response and the new block-list.

Modules, one per concern of the source:

| module | file | models |
|---|---|---|
| `Wrappers` | wrappers.dfy | `undefined` / present values |
| `Text` | text.dfy | `split` with one character, `\s`, `/i` case folding, `${n}` |
| `Cookies` | cookies.dfy | `parseCookies` and the reads `cookies.rt_sid` / `cookies.rt_pass` |
| `UserAgent` | user_agent.dfy | `GOOD_BOTS`, the headless pattern, the bot-word pattern, `basicHeaderChecks` |
| `Http` | http.dfy | a response: status, body, `Set-Cookie` values |
| `BlockList` | block_list.dfy | the KV namespace as `map<string, Entry>`, the key `sid:<sid>` |
| `Gate` | gate.dfy | `onRequest` |
| `Registrar` | registrar.dfy | `onRequestPost` |
| `Protocol` | protocol.dfy | how registrar writes and gate reads meet |

The model follows the code, not an idealised version of it:

- The session cookie the gate reads is `rt_sid`.
- The header is split on the pattern `;\s*`. Only whitespace after a `;` is dropped. Leading whitespace of the header and trailing whitespace of a piece are kept.
- Each piece is split on every `=`. The value is the text between the first and second `=`, so `a=b=c` gives `b`.
- A piece without `=` gives an `undefined` value. So a bare `rt_pass` is not a trust cookie.
- When a name appears twice, the last one wins.
- The regular expressions have the `i` flag but not `u`. In that mode no non-ASCII character folds to an ASCII one, and every pattern here is ASCII, so folding ASCII letters alone matches exactly what the patterns match. `\b` treats only `[A-Za-z0-9_]` as word characters.
- The registrar does not validate `ttl`. The default 86400 applies only when the field is missing.

## Model

| member | source | states |
|---|---|---|
| Text.TrimLeftRemovesWhitespacePrefix | functions/_middleware.js:10 | the `\s*` after a `;` removes a run of whitespace from the front, and all of it: what is left is a suffix that does not start with whitespace |
| Text.Split | functions/_middleware.js:10 | `split('=')` yields at least one piece, no piece holds the separator, and the first piece is a prefix of the input |
| Text.JoinSplit | functions/_middleware.js:10 | joining the pieces of a split with the separator gives back the input, so splitting loses nothing |
| Text.SplitJoin | functions/_middleware.js:10 | splitting a join of separator-free pieces gives back the pieces |
| Text.SplitAround | functions/_middleware.js:10 | a separator splits a string into the pieces before it followed by the pieces after it |
| Text.Contains | functions/_middleware.js:15-16 | a case-insensitive test of an ASCII literal pattern is true iff the pattern occurs at some offset, ignoring ASCII case |
| Text.DecimalRoundTrip | functions/_middleware.js:53 | the decimal text that `${DAY_SEC}` renders reads back as the number |
| Cookies.SplitPiecesIsTrimmedSplit | functions/_middleware.js:10 | `split(/;\s*/)` equals the plain split on `;` with every piece but the first left-trimmed |
| Cookies.SplitPiecesShape | functions/_middleware.js:10 | no piece of the cookie split holds a `;`, and no piece after the first starts with whitespace |
| Cookies.SplitPiecesAround | functions/_middleware.js:10 | the pieces of `a;b` are the pieces of `a` followed by those of `b` with its leading whitespace removed |
| Cookies.NonEmpty | functions/_middleware.js:10 | `filter(Boolean)` keeps every non-empty piece as often as it occurs, drops every empty one, and adds none |
| Cookies.NonEmptyConcat | functions/_middleware.js:10 | `filter(Boolean)` keeps the order: the filter of a concatenation is the concatenation of the filters, and one piece is kept iff it is non-empty |
| Cookies.ToEntry | functions/_middleware.js:10 | a cookie name never holds `=`, and the value is `undefined` exactly when the piece has no `=` |
| Cookies.EntryBetweenSeparators | functions/_middleware.js:10 | the value of `name=value…` is the text between the first and the second `=` |
| Cookies.BareNameIsUndefined | functions/_middleware.js:10 | a piece without `=` is a name whose value is `undefined` |
| Cookies.FromEntriesNames | functions/_middleware.js:10 | `Object.fromEntries` holds a name iff some entry carries it |
| Cookies.FromEntriesLastWins | functions/_middleware.js:10 | with duplicate names, the value kept is that of the last entry with the name |
| Cookies.Parse | functions/_middleware.js:9-11 | an absent or empty header parses to the empty map without failing; no parsed name holds `=` |
| Cookies.LaterCookieWins | functions/_middleware.js:10 | a `name=value` cookie appended after `;` and any whitespace overrides earlier cookies of that name |
| Cookies.SingleCookie | functions/_middleware.js:10 | the header `name=value`, followed by nothing or by more text after a second `=`, parses to exactly the cookie `name` with value `value` |
| Cookies.BarePassReadsUndefined | functions/_middleware.js:32 | a bare `rt_pass` is present in the map but reads as `undefined`, so it is no trust cookie |
| UserAgent.AnyToken | functions/_middleware.js:6 | the allow-list pattern matches iff one of its expanded literal alternatives occurs in the user agent, ignoring case |
| UserAgent.BotWordFrom | functions/_middleware.js:17 | the word-boundary search for bot, crawler or spider succeeds iff one of the three words occurs with no word character on either side |
| UserAgent.BasicHeaderChecks | functions/_middleware.js:14-19 | an allow-listed user agent passes even with a headless signature or bot word; otherwise it passes iff it has neither |
| UserAgent.EmptyUserAgentPasses | functions/_middleware.js:46-47 | an absent user agent, read as `""`, passes the heuristic |
| UserAgent.GooglebotPassesDespiteBotWord | functions/_middleware.js:15-17 | a Googlebot user agent that also holds the word `bot` passes |
| BlockList.SidKeyInjective | functions/rt-block.js:12 | every block key starts with `sid:`, and distinct session ids are blocked under distinct keys |
| Gate.OnRequest | functions/_middleware.js:22-56 | the steps in order, each exit taken exactly when its condition holds: a probe, and only a probe, is forwarded without any read; a truthy `rt_sid` in the store gets 403 with no body and the `rt_pass` expiry cookie, before the trust cookie is looked at; a defined `rt_pass` forwards untouched; a failing user agent gets a bare 403; every other request is stamped: status and body pass through with one trust cookie appended; the store is read at most once, for `sid:<rt_sid>` |
| Gate.PassCookieText | functions/_middleware.js:50-54 | the stamped cookie is `rt_pass=1; Max-Age=86400; Path=/; HttpOnly; Secure; SameSite=Lax` |
| Gate.ProbeIgnoresRequestAndStore | functions/_middleware.js:26-28 | for OPTIONS and HEAD the outcome does not depend on cookies, user agent or block-list |
| Gate.FastPassIgnoresUserAgent | functions/_middleware.js:43 | with a trust cookie and no block, changing the user agent changes nothing |
| Gate.EmptySessionNeverBlocked | functions/_middleware.js:35 | an empty or absent `rt_sid` is never blocked, and the store is not read |
| Gate.OnlyPresenceMatters | functions/_middleware.js:35 | the gate's outcome depends on which keys the store holds, not on their values or TTLs |
| Gate.CookiesAdded | functions/_middleware.js:36-54 | the response carries the downstream cookies, those plus one trust cookie, the expiry instruction alone, or none |
| Registrar.OnRequestPost | functions/rt-block.js:2-14 | a wrong or missing token gives 401 with no body and no write; a missing or empty sid gives 400 `sid required` with no write; otherwise `sid:<sid>` maps to an empty value with the given TTL, or 86400, and the reply is 204; every other key is unchanged; no key is removed |
| Registrar.AuthBeforeBody | functions/rt-block.js:6-10 | a bad token with a missing sid is answered 401, not 400 |
| Registrar.SuccessIffValid | functions/rt-block.js:6-13 | the reply is 204 exactly when the token matches and the sid is non-empty |
| Registrar.Idempotent | functions/rt-block.js:12 | repeating a call on the store it produced gives the same response and the same store |
| Registrar.LaterTtlReplaces | functions/rt-block.js:12 | a second call for the same sid equals that call alone; the entry is replaced, never duplicated |
| Protocol.RegisteredSessionIsBlocked | functions/_middleware.js:35-40 | after a 204 for a sid (the put at functions/rt-block.js:12), every non-probe request whose `rt_sid` reads as that sid gets 403 with the expiry cookie, whatever its trust cookie or user agent |
| Protocol.RegisteredCookieIsBlocked | functions/_middleware.js:30-40 | the same for the literal header `rt_sid=<sid>`, for a sid without `;` or `=` |
| Protocol.RegisteredCookieAfterOthersIsBlocked | functions/_middleware.js:30-40 | the same when `; rt_sid=<sid>` follows any other cookies, a trust cookie included, for a sid without `;` or `=` |
| Protocol.SidWithEqualsEscapesBlock | functions/_middleware.js:10 | the registrar answers 204 for the sid `a=b` and stores `sid:a=b`, yet the request with `rt_sid=a=b` reads its session as `a` and is not blocked |
| Protocol.RefusedCallChangesNoDecision | functions/rt-block.js:6-10 | a call answered 401 or 400 changes no gate decision |
| Protocol.RegistrationIsLocal | functions/rt-block.js:12 | blocking one sid changes no decision for a request with another `rt_sid` |
| Protocol.BlockAbc123 | functions/rt-block.js:9-13 | a valid call for `abc123` stores `sid:abc123` with TTL 86400, and a GET with `rt_sid=abc123` then gets 403 |

## Left out

- cli.js is not part of this model. It is the installer: file copying, configuration patching, console output, exit codes and random token generation.
- Store timing is not modelled. A TTL is stored as data and never expires, and the store has no propagation delay: each handler call is one atomic step over one store value.
- Store failures are not modelled. The source does not handle a failing `get` or `put`, so it defines no behaviour for them.
- Concurrency and `async`/`await` are not modelled. `next()` becomes a downstream response passed in, so the gate never sees a `next()` that fails.
- Registrar.OnRequestPost: the response headers are not modelled, for example the implicit text `Content-Type` of the 400 reply.
- Gate.OnRequest: the response headers other than `Set-Cookie` are not modelled. Appending to an immutable downstream header list, which throws in the runtime, is not modelled either.
- Gate.OnRequest: the `cookie` header is one optional string, as `Headers.get` returns it. How the runtime combines repeated headers is not modelled.
- Registrar.OnRequestPost: the body is already decoded. A malformed body, on which `request.json()` throws, is not modelled, and neither is a JSON `null` body, on which the destructuring of `sid` and `ttl` throws. Any other non-object body, such as a number, a string, a boolean or an array, reads as a missing `sid` and is `Body(None, None)`.
- Registrar.OnRequestPost: `sid` is an optional string, so a non-string JSON `sid` is not modelled. In the source a truthy number or object would be stringified into the key.
- Registrar.OnRequestPost: `ttl` is an optional integer. A `null`, fractional or string `ttl`, which the source passes to the store unchecked, is not modelled.
- Registrar.OnRequestPost: an unset `RT_WEBHOOK_TOKEN` is not modelled. It would make the expected header `Bearer undefined`; the secret is always a string here.
- Regular expressions are not run by a regex engine. The allow-list and headless patterns become finite lists of literals matched case-insensitively at any offset. The bot-word pattern becomes a word-boundary test, which matches what `RegExp.prototype.test` accepts for these patterns.
- The allow-list is given as an explicit finite list of literals. It is grouped by kind of fetcher, in source order.
- Protocol.RegisteredCookieIsBlocked: holds only for a sid without `;` or `=`. The registrar accepts any non-empty sid, but the gate reads a cookie value only up to the next `;` or the second `=`. A registered sid holding either character, such as a base64 sid ending in `=`, is stored under a key the gate never looks up, so such a session is never blocked; Protocol.SidWithEqualsEscapesBlock shows this for `a=b`.
- Protocol.RegisteredCookieAfterOthersIsBlocked: holds only for a sid without `;` or `=`, for the same reason.
