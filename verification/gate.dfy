/**
 The Pages middleware `onRequest` (functions/_middleware.js:22-56): one request is
 decided by the steps below, strictly in this order.
   1. OPTIONS and HEAD are forwarded untouched.
   2. The cookie header is parsed.
   3. A truthy `rt_sid` whose key `sid:<rt_sid>` is in the block-list is refused with
      403 and an instruction that expires the trust cookie.
   4. A defined `rt_pass` cookie forwards the request untouched.
   5. The user agent is screened by `basicHeaderChecks`; a failure is a bare 403.
   6. Otherwise the downstream response gets a fresh 24-hour trust cookie appended.
 `next()` is the downstream response, passed in. The store is only read: the gate has
 no way to return a changed one, and `lookups` records each key it reads, in order.
 */
module Gate {
  import opened Wrappers
  import opened Text
  import opened Http
  import opened BlockList
  import Cookies
  import UserAgent

  /** `DAY_SEC`: the lifetime of the trust cookie, in seconds. */
  const DAY_SEC: nat := 60 * 60 * 24

  /** The cookie stamped on a request that passed the heuristic. */
  const PASS_COOKIE: string :=
    "rt_pass=1; Max-Age=" + NatToDecimal(DAY_SEC) + "; Path=/; HttpOnly; Secure; SameSite=Lax"

  /** The cookie sent with a block: it expires any trust cookie at once. */
  const EXPIRE_PASS_COOKIE: string := "rt_pass=; Max-Age=0; Path=/; HttpOnly; Secure; SameSite=Lax"

  /** What the gate looks at in a request: its method (`verb`) and two headers, each of which
      may be missing. */
  datatype Request = Request(verb: string, cookie: Option<string>, userAgent: Option<string>)

  /** Which of the gate's exits a request took. */
  datatype Verdict =
    | Bypass     // OPTIONS or HEAD, forwarded before anything is looked at
    | Blocked    // the session is on the block-list
    | FastPass   // a trust cookie is present
    | Rejected   // the user agent failed the heuristic
    | Stamped    // the user agent passed and a trust cookie was issued

  datatype Outcome = Outcome(verdict: Verdict, response: Response, lookups: seq<string>)

  /** CORS pre-flights and HEAD probes; the comparison is exact and case-sensitive. */
  predicate IsProbe(verb: string)
  {
    verb == "OPTIONS" || verb == "HEAD"
  }

  /** JavaScript truthiness of a cookie value: defined and not the empty string. */
  predicate IsTruthy(v: Option<string>)
  {
    v.Some? && v.value != ""
  }

  /** `cookies.rt_sid`. */
  function SessionCookie(req: Request): Option<string>
  {
    Cookies.Get(Cookies.Parse(req.cookie), "rt_sid")
  }

  /** `cookies.rt_pass !== undefined`. */
  predicate HasPass(req: Request)
  {
    Cookies.Get(Cookies.Parse(req.cookie), "rt_pass").Some?
  }

  /** `request.headers.get('user-agent') || ''`. */
  function UserAgentOf(req: Request): string
  {
    req.userAgent.GetOr("")
  }

  /** The request carries a session cookie that the block-list holds. */
  predicate IsBlockedSession(req: Request, store: Store)
  {
    IsTruthy(SessionCookie(req)) && SidKey(SessionCookie(req).value) in store
  }

  /** The heuristic's promise about a user agent, stated on occurrences: an allow-listed
      crawler passes whatever else it says; otherwise a headless signature or a
      stand-alone bot word fails it. */
  ghost predicate HeuristicPasses(ua: string)
  {
    || UserAgent.MatchesList(ua, UserAgent.GOOD_BOTS)
    || (!UserAgent.MatchesList(ua, UserAgent.HEADLESS) && !UserAgent.HasBotWord(ua))
  }

  /** `onRequest`: the decision for one request against the current block-list. */
  function OnRequest(req: Request, store: Store, next: Response): (o: Outcome)
    // step 1: probes, and only probes, are forwarded untouched, nothing is read
    ensures o.verdict == Bypass <==> IsProbe(req.verb)
    ensures IsProbe(req.verb) ==> o.response == next && o.lookups == []
    // the store is read at most once, and only for a truthy session cookie
    ensures !IsProbe(req.verb) ==>
              o.lookups == (if IsTruthy(SessionCookie(req)) then [SidKey(SessionCookie(req).value)] else [])
    // step 3 wins over the trust cookie and over the user agent
    ensures o.verdict == Blocked <==> !IsProbe(req.verb) && IsBlockedSession(req, store)
    ensures o.verdict == Blocked ==> o.response == Response(403, None, [EXPIRE_PASS_COOKIE])
    // step 4: a trust cookie skips the user agent and adds nothing
    ensures o.verdict == FastPass <==>
              !IsProbe(req.verb) && !IsBlockedSession(req, store) && HasPass(req)
    ensures o.verdict == FastPass ==> o.response == next
    // step 5: a failed heuristic is a bare 403
    ensures o.verdict == Rejected <==>
              && !IsProbe(req.verb) && !IsBlockedSession(req, store) && !HasPass(req)
              && !HeuristicPasses(UserAgentOf(req))
    ensures o.verdict == Rejected ==> o.response == Response(403, None, [])
    // step 6: every other request passes; status and body pass through, exactly one
    // cookie is appended
    ensures o.verdict == Stamped <==>
              && !IsProbe(req.verb) && !IsBlockedSession(req, store) && !HasPass(req)
              && HeuristicPasses(UserAgentOf(req))
    ensures o.verdict == Stamped ==>
              && o.response.status == next.status
              && o.response.body == next.body
              && o.response.setCookies == next.setCookies + [PASS_COOKIE]
  {
    if IsProbe(req.verb) then
      Outcome(Bypass, next, [])
    else
      var cookies := Cookies.Parse(req.cookie);
      var sid := Cookies.Get(cookies, "rt_sid");
      var hasPass := Cookies.Get(cookies, "rt_pass").Some?;
      var lookups := if IsTruthy(sid) then [SidKey(sid.value)] else [];
      if IsTruthy(sid) && SidKey(sid.value) in store then
        Outcome(Blocked, Response(403, None, [EXPIRE_PASS_COOKIE]), lookups)
      else if hasPass then
        Outcome(FastPass, next, lookups)
      else if !UserAgent.BasicHeaderChecks(UserAgentOf(req)) then
        Outcome(Rejected, Response(403, None, []), lookups)
      else
        Outcome(Stamped, next.(setCookies := next.setCookies + [PASS_COOKIE]), lookups)
  }

  /** The stamped cookie, with `${DAY_SEC}` rendered. */
  lemma PassCookieText()
    ensures PASS_COOKIE == "rt_pass=1; Max-Age=" + "86400" + "; Path=/; HttpOnly; Secure; SameSite=Lax"
  {
  }

  /** A probe's outcome depends on nothing but the downstream response: not on the
      cookies, the user agent or the block-list. */
  lemma ProbeIgnoresRequestAndStore(req1: Request, req2: Request, store1: Store, store2: Store, next: Response)
    requires IsProbe(req1.verb) && IsProbe(req2.verb)
    ensures OnRequest(req1, store1, next) == OnRequest(req2, store2, next)
  {
  }

  /** With a trust cookie and no block, the user agent is never consulted. */
  lemma FastPassIgnoresUserAgent(req: Request, ua: Option<string>, store: Store, next: Response)
    requires !IsProbe(req.verb) && !IsBlockedSession(req, store) && HasPass(req)
    ensures OnRequest(req.(userAgent := ua), store, next) == OnRequest(req, store, next)
  {
  }

  /** An empty or absent `rt_sid` never triggers the block check: nothing is read and
      the request cannot be blocked. */
  lemma EmptySessionNeverBlocked(req: Request, store: Store, next: Response)
    requires SessionCookie(req) == None || SessionCookie(req) == Some("")
    ensures OnRequest(req, store, next).verdict != Blocked
    ensures OnRequest(req, store, next).lookups == []
  {
  }

  /** Only the presence of a key matters, not the value or TTL stored under it. */
  lemma OnlyPresenceMatters(req: Request, store1: Store, store2: Store, next: Response)
    requires store1.Keys == store2.Keys
    ensures OnRequest(req, store1, next) == OnRequest(req, store2, next)
  {
  }

  /** The only cookie instructions the gate ever adds: none, the trust cookie once on
      top of the downstream ones, or the expiry instruction alone on a block. */
  lemma CookiesAdded(req: Request, store: Store, next: Response)
    ensures var o := OnRequest(req, store, next);
            || o.response.setCookies == next.setCookies
            || o.response.setCookies == next.setCookies + [PASS_COOKIE]
            || o.response.setCookies == [EXPIRE_PASS_COOKIE]
            || o.response.setCookies == []
  {
  }
}
