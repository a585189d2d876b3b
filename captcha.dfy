/**
 * The captcha route's session store: a map from session id to the
 * `Set-Cookie` value the portal sent with it and the instant it expires,
 * with a sweep that deletes expired entries in place, a lookup that hides
 * them, and the insert the captcha request performs. Clock readings are
 * passed in as `now`.
 */
module Captcha {
  import opened Wrappers
  import Cookies

  datatype SessionEntry = SessionEntry(cookie: string, expiresAt: int)

  /** Thirty minutes, in milliseconds. */
  const SessionTtlMs: int := 30 * 60 * 1000

  /** What `getSessionCookie` reports for `key` at `now`: the cookie only while it has not expired. */
  function Lookup(store: map<string, SessionEntry>, key: string, now: int): (r: Option<string>)
    ensures r.Some? <==> key in store && store[key].expiresAt > now
    ensures r.Some? ==> r.value == store[key].cookie
  {
    if key in store && store[key].expiresAt > now then Some(store[key].cookie) else None
  }

  /** The store after `cleanupExpiredSessions` at `now`: the entries expiring before `now` are gone. */
  function Swept(store: map<string, SessionEntry>, now: int): (r: map<string, SessionEntry>)
    ensures forall k :: k in r <==> k in store && !(store[k].expiresAt < now)
    ensures forall k :: k in r ==> r[k] == store[k]
  {
    map k | k in store && !(store[k].expiresAt < now) :: store[k]
  }

  /** Sweeping never changes what a lookup at the same instant reports. */
  lemma SweepKeepsLookup(store: map<string, SessionEntry>, key: string, now: int)
    ensures Lookup(Swept(store, now), key, now) == Lookup(store, key, now)
  {
  }

  /** A second sweep at the same instant changes nothing. */
  lemma SweepIdempotent(store: map<string, SessionEntry>, now: int)
    ensures Swept(Swept(store, now), now) == Swept(store, now)
  {
  }

  /**
   * The sweep deletes with `<` and the lookup admits with `>`: an entry
   * expiring exactly at `now` survives the sweep but is already hidden.
   */
  lemma BoundaryEntry(store: map<string, SessionEntry>, key: string, now: int)
    requires key in store && store[key].expiresAt == now
    ensures key in Swept(store, now)
    ensures Lookup(store, key, now).None?
  {
  }

  /** What the route answers: a failure, or success with the session id (empty when none was found). */
  datatype CaptchaResult = CaptchaFailed | CaptchaServed(sessionId: string)

  /** The parts of the portal's captcha response the store depends on. */
  datatype CaptchaResponse = CaptchaResponse(status: int, setCookie: Option<string>)

  /** `response.ok`: a status in the range 200 to 299. */
  predicate Ok(status: int) {
    200 <= status <= 299
  }

  /**
   * The session id the route takes from a `Set-Cookie` header: none when the
   * header is absent or carries no `JSESSIONID=` followed by a value, and
   * otherwise a non-empty id without `;`.
   */
  function SessionIdOf(setCookie: Option<string>): (r: Option<string>)
    ensures r.None? <==> setCookie.None? || forall i :: !Cookies.MatchesAt(setCookie.value, i)
    ensures r.Some? ==> r.value != [] && forall m :: 0 <= m < |r.value| ==> r.value[m] != ';'
  {
    if setCookie.Some? && setCookie.value != [] then Cookies.ExtractSessionId(setCookie.value) else None
  }

  class SessionStore {
    var sessions: map<string, SessionEntry>

    constructor()
      ensures sessions == map[]
    {
      sessions := map[];
    }

    /** `getSessionCookie`. */
    function GetSessionCookie(key: string, now: int): (r: Option<string>)
      reads this
      ensures r.Some? <==> key in sessions && sessions[key].expiresAt > now
      ensures r.Some? ==> r.value == sessions[key].cookie
    {
      Lookup(sessions, key, now)
    }

    /** `cleanupExpiredSessions`: visit every entry once and delete the expired ones in place. */
    method CleanupExpired(now: int)
      modifies this
      ensures sessions == Swept(old(sessions), now)
    {
      var pending := sessions.Keys;
      ghost var original := sessions;
      while pending != {}
        invariant pending <= original.Keys
        invariant forall k :: k in sessions <==> k in original && (k in pending || !(original[k].expiresAt < now))
        invariant forall k :: k in sessions ==> sessions[k] == original[k]
        decreases pending
      {
        var key :| key in pending;
        if sessions[key].expiresAt < now {
          sessions := sessions - {key};
        }
        pending := pending - {key};
      }
      assert sessions == Swept(original, now);
    }

    /**
     * The store side of the captcha route's `GET`: sweep, then, on a
     * successful response whose `Set-Cookie` carries a session id, remember
     * that header under the id until `now` plus thirty minutes.
     */
    method FetchCaptcha(now: int, response: CaptchaResponse) returns (r: CaptchaResult)
      modifies this
      ensures !Ok(response.status) ==> r == CaptchaFailed && sessions == Swept(old(sessions), now)
      ensures Ok(response.status) && SessionIdOf(response.setCookie).None? ==>
        r == CaptchaServed("") && sessions == Swept(old(sessions), now)
      ensures Ok(response.status) && SessionIdOf(response.setCookie).Some? ==>
        var id := SessionIdOf(response.setCookie).value;
        && r == CaptchaServed(id)
        && sessions == Swept(old(sessions), now)[id := SessionEntry(response.setCookie.value, now + SessionTtlMs)]
    {
      CleanupExpired(now);
      if !Ok(response.status) {
        return CaptchaFailed;
      }
      var sessionId := "";
      if response.setCookie.Some? && response.setCookie.value != [] {
        var found := Cookies.ExtractSessionId(response.setCookie.value);
        if found.Some? {
          sessionId := found.value;
          sessions := sessions[sessionId := SessionEntry(response.setCookie.value, now + SessionTtlMs)];
        }
      }
      return CaptchaServed(sessionId);
    }
  }

  /**
   * After an insert at `now`, the new id looks up its `Set-Cookie` header,
   * and every other key looks up what it did before the sweep.
   */
  lemma {:induction false} InsertThenLookup(store: map<string, SessionEntry>, id: string, setCookie: string, key: string, now: int)
    ensures Lookup(Swept(store, now)[id := SessionEntry(setCookie, now + SessionTtlMs)], id, now) == Some(setCookie)
    ensures key != id ==>
      Lookup(Swept(store, now)[id := SessionEntry(setCookie, now + SessionTtlMs)], key, now) == Lookup(store, key, now)
  {
    SweepKeepsLookup(store, key, now);
  }
}
