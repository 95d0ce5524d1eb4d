/**
 How the two handlers meet: the registrar writes the block-list that the gate reads.
 Each handler call is one atomic step; propagation delay of the store is not modelled.
 */
module Protocol {
  import opened Wrappers
  import opened Http
  import opened BlockList
  import Cookies
  import Gate
  import Registrar

  /** Once the registrar has answered 204 for a sid, every gate request other than a
      probe whose `rt_sid` cookie reads as that sid is blocked, whatever its trust
      cookie or user agent. */
  lemma RegisteredSessionIsBlocked(breq: Registrar.Request, secret: string, store: Store,
                                   greq: Gate.Request, next: Response)
    requires Registrar.OnRequestPost(breq, secret, store).response.status == 204
    requires !Gate.IsProbe(greq.verb)
    requires Gate.SessionCookie(greq) == breq.body.sid
    ensures var after := Registrar.OnRequestPost(breq, secret, store).store;
            var g := Gate.OnRequest(greq, after, next);
            && g.verdict == Gate.Blocked
            && g.response == Response(403, None, [Gate.EXPIRE_PASS_COOKIE])
  {
  }

  /** The same for the literal cookie header `rt_sid=<sid>`, when the sid is a plain
      cookie value (no `;` and no `=`). */
  lemma RegisteredCookieIsBlocked(breq: Registrar.Request, secret: string, store: Store,
                                  sid: string, verb: string, ua: Option<string>, next: Response)
    requires Registrar.OnRequestPost(breq, secret, store).response.status == 204
    requires breq.body.sid == Some(sid) && ';' !in sid && '=' !in sid
    requires !Gate.IsProbe(verb)
    ensures var after := Registrar.OnRequestPost(breq, secret, store).store;
            Gate.OnRequest(Gate.Request(verb, Some("rt_sid=" + sid), ua), after, next).verdict == Gate.Blocked
  {
    Cookies.SingleCookie("rt_sid", sid, "");
    assert "rt_sid=" + sid == "rt_sid" + "=" + sid + "";
    RegisteredSessionIsBlocked(breq, secret, store, Gate.Request(verb, Some("rt_sid=" + sid), ua), next);
  }

  /** The session cookie may follow any other cookies, a trust cookie included: the
      request is still blocked. */
  lemma RegisteredCookieAfterOthersIsBlocked(breq: Registrar.Request, secret: string, store: Store,
                                             others: string, sid: string, verb: string,
                                             ua: Option<string>, next: Response)
    requires Registrar.OnRequestPost(breq, secret, store).response.status == 204
    requires breq.body.sid == Some(sid) && ';' !in sid && '=' !in sid
    requires !Gate.IsProbe(verb)
    ensures var after := Registrar.OnRequestPost(breq, secret, store).store;
            var greq := Gate.Request(verb, Some(others + "; rt_sid=" + sid), ua);
            Gate.OnRequest(greq, after, next).verdict == Gate.Blocked
  {
    assert others + "; rt_sid=" + sid == others + ";" + " " + "rt_sid" + "=" + sid;
    Cookies.LaterCookieWins(others, " ", "rt_sid", sid);
    RegisteredSessionIsBlocked(breq, secret, store, Gate.Request(verb, Some(others + "; rt_sid=" + sid), ua), next);
  }

  /** The registrar accepts any non-empty sid, but the gate reads a cookie value only up
      to its second `=`. A sid holding `=` is therefore registered under a key the gate
      never looks up: after a 204 for `a=b`, the request with `rt_sid=a=b` reads the
      session as `a` and is not blocked. */
  lemma SidWithEqualsEscapesBlock(secret: string, store: Store, ua: Option<string>, next: Response)
    requires SidKey("a") !in store
    ensures var breq := Registrar.Request(Some("Bearer " + secret), Registrar.Body(Some("a=b"), None));
            var reg := Registrar.OnRequestPost(breq, secret, store);
            && reg.response.status == 204
            && SidKey("a=b") in reg.store
            && Gate.OnRequest(Gate.Request("GET", Some("rt_sid=a=b"), ua), reg.store, next).verdict != Gate.Blocked
  {
    var breq := Registrar.Request(Some("Bearer " + secret), Registrar.Body(Some("a=b"), None));
    var reg := Registrar.OnRequestPost(breq, secret, store);
    var greq := Gate.Request("GET", Some("rt_sid=a=b"), ua);
    assert "rt_sid=a=b" == "rt_sid" + "=" + "a" + "=b";
    Cookies.SingleCookie("rt_sid", "a", "=b");
    assert Gate.SessionCookie(greq) == Some("a");
    assert SidKey("a") != SidKey("a=b");
    assert SidKey("a") !in reg.store;
  }

  /** A call that did not answer 204 leaves every gate decision as it was. */
  lemma RefusedCallChangesNoDecision(breq: Registrar.Request, secret: string, store: Store,
                                     greq: Gate.Request, next: Response)
    requires Registrar.OnRequestPost(breq, secret, store).response.status != 204
    ensures Gate.OnRequest(greq, Registrar.OnRequestPost(breq, secret, store).store, next)
            == Gate.OnRequest(greq, store, next)
  {
  }

  /** Blocking one sid changes the decision for no request carrying another sid. */
  lemma RegistrationIsLocal(breq: Registrar.Request, secret: string, store: Store,
                            greq: Gate.Request, next: Response)
    requires Gate.SessionCookie(greq) != breq.body.sid
    ensures Gate.OnRequest(greq, Registrar.OnRequestPost(breq, secret, store).store, next)
            == Gate.OnRequest(greq, store, next)
  {
    var after := Registrar.OnRequestPost(breq, secret, store).store;
    var sid := Gate.SessionCookie(greq);
    if Gate.IsTruthy(sid) && Registrar.Authorized(breq, secret) && Registrar.HasSid(breq.body) {
      SidKeyInjective(sid.value, breq.body.sid.value);
      assert SidKey(sid.value) in after <==> SidKey(sid.value) in store;
    }
  }

  /** The example of a webhook call for `abc123` followed by a page request. */
  lemma BlockAbc123(secret: string, store: Store, next: Response)
    ensures var breq := Registrar.Request(Some("Bearer " + secret), Registrar.Body(Some("abc123"), None));
            var reg := Registrar.OnRequestPost(breq, secret, store);
            && reg.response.status == 204
            && reg.store[SidKey("abc123")] == Entry("", 86_400)
            && Gate.OnRequest(Gate.Request("GET", Some("rt_sid=abc123"), None), reg.store, next).response.status == 403
  {
    var breq := Registrar.Request(Some("Bearer " + secret), Registrar.Body(Some("abc123"), None));
    assert Registrar.Authorized(breq, secret) && Registrar.HasSid(breq.body);
    var reg := Registrar.OnRequestPost(breq, secret, store);
    assert reg.response.status == 204;
    assert ';' !in "abc123" && '=' !in "abc123";
    assert !Gate.IsProbe("GET");
    RegisteredCookieIsBlocked(breq, secret, store, "abc123", "GET", None, next);
    assert "rt_sid=" + "abc123" == "rt_sid=abc123";
    var g := Gate.OnRequest(Gate.Request("GET", Some("rt_sid=abc123"), None), reg.store, next);
    assert g.verdict == Gate.Blocked;
  }
}
