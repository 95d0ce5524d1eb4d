/**
 The block webhook `onRequestPost` (functions/rt-block.js:2-14): an authenticated
 upsert of one block-list entry. The bearer token is compared exactly before the body
 is looked at; the body is taken as already decoded from JSON.
 */
module Registrar {
  import opened Wrappers
  import opened Http
  import opened BlockList

  /** The TTL used when the body names none: 24 hours, in seconds. */
  const DEFAULT_TTL: int := 86_400

  /** The decoded JSON body `{ sid, ttl }`; `None` is a missing field. */
  datatype Body = Body(sid: Option<string>, ttl: Option<int>)

  /** The `authorization` header, which may be missing, and the body. */
  datatype Request = Request(authorization: Option<string>, body: Body)

  /** The response and the block-list after the call. */
  datatype Outcome = Outcome(response: Response, store: Store)

  /** `request.headers.get('authorization') === \`Bearer ${secret}\``. */
  predicate Authorized(req: Request, secret: string)
  {
    req.authorization == Some("Bearer " + secret)
  }

  /** `!sid` is false: the field is present and not the empty string. */
  predicate HasSid(body: Body)
  {
    body.sid.Some? && body.sid.value != ""
  }

  /** `ttl = 86_400`: the default applies only when the field is missing. */
  function EffectiveTtl(body: Body): int
  {
    body.ttl.GetOr(DEFAULT_TTL)
  }

  /** `onRequestPost` against the webhook secret and the current block-list. */
  function OnRequestPost(req: Request, secret: string, store: Store): (o: Outcome)
    // a wrong or missing token: 401, no body, no write, whatever the body holds
    ensures !Authorized(req, secret) ==> o.response == Response(401, None, []) && o.store == store
    // a missing or empty sid: 400 with a diagnostic, no write
    ensures Authorized(req, secret) && !HasSid(req.body) ==>
              o.response == Response(400, Some("sid required"), []) && o.store == store
    // valid input: 204, the entry is there with an empty value and the effective TTL
    ensures Authorized(req, secret) && HasSid(req.body) ==>
              && o.response == Response(204, None, [])
              && SidKey(req.body.sid.value) in o.store
              && o.store[SidKey(req.body.sid.value)] == Entry("", EffectiveTtl(req.body))
    // nothing else changes: every key the call did not write keeps its entry or stays absent
    ensures forall k :: !(Authorized(req, secret) && HasSid(req.body) && k == SidKey(req.body.sid.value)) ==>
              (k in o.store <==> k in store) && (k in store ==> o.store[k] == store[k])
    // a registrar only ever adds
    ensures store.Keys <= o.store.Keys
  {
    if !Authorized(req, secret) then
      Outcome(Response(401, None, []), store)
    else if !HasSid(req.body) then
      Outcome(Response(400, Some("sid required"), []), store)
    else
      var key := SidKey(req.body.sid.value);
      Outcome(Response(204, None, []), store[key := Entry("", EffectiveTtl(req.body))])
  }

  /** The token is checked first: a bad token with a missing sid is a 401, not a 400. */
  lemma AuthBeforeBody(req: Request, secret: string, store: Store)
    requires !Authorized(req, secret) && req.body.sid.None?
    ensures OnRequestPost(req, secret, store).response.status == 401
  {
  }

  /** A 204 is returned exactly when the token is right and a sid is given. */
  lemma SuccessIffValid(req: Request, secret: string, store: Store)
    ensures OnRequestPost(req, secret, store).response.status == 204 <==>
              Authorized(req, secret) && HasSid(req.body)
  {
  }

  /** `put` is an upsert: repeating a valid call leaves the block-list as one call did. */
  lemma Idempotent(req: Request, secret: string, store: Store)
    ensures var once := OnRequestPost(req, secret, store);
            OnRequestPost(req, secret, once.store) == once
  {
  }

  /** A later call for the same sid replaces the TTL instead of adding a second entry. */
  lemma LaterTtlReplaces(req1: Request, req2: Request, secret: string, store: Store)
    requires Authorized(req1, secret) && Authorized(req2, secret)
    requires HasSid(req1.body) && req2.body.sid == req1.body.sid
    ensures var after := OnRequestPost(req2, secret, OnRequestPost(req1, secret, store).store).store;
            && after == OnRequestPost(req2, secret, store).store
            && |after.Keys| <= |store.Keys| + 1
  {
  }
}
