/**
 * The session id the portal hands out, read from a `Set-Cookie` value with
 * the pattern `/JSESSIONID=([^;]+)/`: the leftmost place where the name and
 * `=` are followed by at least one character other than `;`, and the whole
 * run of such characters that starts there.
 */
module Cookies {
  import opened Wrappers
  import Strings

  const SessionCookieName: string := "JSESSIONID="

  /** The pattern matches at `i`: the name starts there and a character other than `;` follows it. */
  predicate MatchesAt(s: string, i: int) {
    && Strings.OccursAt(s, SessionCookieName, i)
    && i + |SessionCookieName| < |s|
    && s[i + |SessionCookieName|] != ';'
  }

  /** The end of the run of characters other than `;` that starts at `j`. */
  function RunEnd(s: string, j: nat): (k: nat)
    requires j <= |s|
    ensures j <= k <= |s|
    ensures forall m :: j <= m < k ==> s[m] != ';'
    ensures k < |s| ==> s[k] == ';'
    decreases |s| - j
  {
    if j == |s| || s[j] == ';' then j else RunEnd(s, j + 1)
  }

  /** The leftmost position at or after `i` where the pattern matches. */
  function FirstMatch(s: string, i: nat): (r: Option<nat>)
    ensures r.None? ==> forall j :: i <= j ==> !MatchesAt(s, j)
    ensures r.Some? ==> i <= r.value && MatchesAt(s, r.value)
    ensures r.Some? ==> forall j :: i <= j < r.value ==> !MatchesAt(s, j)
    decreases |s| - i
  {
    if i + |SessionCookieName| >= |s| then None
    else if MatchesAt(s, i) then Some(i)
    else FirstMatch(s, i + 1)
  }

  /**
   * `setCookie.match(/JSESSIONID=([^;]+)/)?.[1]`: the captured group of the
   * leftmost match, which is never empty and never holds `;`.
   */
  function ExtractSessionId(setCookie: string): (r: Option<string>)
    ensures r.None? <==> forall i :: !MatchesAt(setCookie, i)
    ensures r.Some? ==> r.value != [] && forall m :: 0 <= m < |r.value| ==> r.value[m] != ';'
  {
    match FirstMatch(setCookie, 0)
    case None =>
      assert forall i :: !MatchesAt(setCookie, i) by {
        forall i ensures !MatchesAt(setCookie, i) {
          if i < 0 { assert !Strings.OccursAt(setCookie, SessionCookieName, i); }
        }
      }
      None
    case Some(i) =>
      var start := i + |SessionCookieName|;
      Some(setCookie[start..RunEnd(setCookie, start)])
  }

  /**
   * The id is the run of characters other than `;` after the leftmost
   * match, up to the next `;` or the end.
   */
  lemma {:induction false} ExtractIsLeftmostRun(setCookie: string)
    ensures ExtractSessionId(setCookie).Some? ==>
      exists i ::
        && MatchesAt(setCookie, i)
        && (forall j :: 0 <= j < i ==> !MatchesAt(setCookie, j))
        && var start := i + |SessionCookieName|;
           ExtractSessionId(setCookie) == Some(setCookie[start..RunEnd(setCookie, start)])
  {
    var r := FirstMatch(setCookie, 0);
    if r.Some? {
      var i := r.value;
      assert MatchesAt(setCookie, i);
    }
  }

  /**
   * A cookie that starts with `JSESSIONID=<id>`, where `<id>` is not empty
   * and holds no `;`, and goes on with `;` or ends, yields `<id>`.
   */
  lemma {:induction false} ExtractFromCookie(id: string, rest: string)
    requires id != [] && forall m :: 0 <= m < |id| ==> id[m] != ';'
    requires rest == [] || rest[0] == ';'
    ensures ExtractSessionId(SessionCookieName + id + rest) == Some(id)
  {
    var s := SessionCookieName + id + rest;
    var n := |SessionCookieName|;
    assert s[..n] == SessionCookieName;
    assert s[0..0 + n] == SessionCookieName;
    assert s[n] == id[0];
    assert MatchesAt(s, 0);
    var k := RunEnd(s, n);
    forall m | n <= m < n + |id| ensures s[m] != ';' {
      assert s[m] == id[m - n];
    }
    if n + |id| < |s| {
      assert s[n + |id|] == rest[0];
    }
    assert k == n + |id|;
    assert s[n..n + |id|] == id;
  }

  /** A typical `Set-Cookie` value: the id runs up to the first `;`. */
  lemma ExtractExample()
    ensures ExtractSessionId("JSESSIONID=ABC123; Path=/") == Some("ABC123")
  {
    assert "JSESSIONID=ABC123; Path=/" == SessionCookieName + "ABC123" + "; Path=/";
    ExtractFromCookie("ABC123", "; Path=/");
  }

  /** The `Cookie` header the routes send upstream for a session id. */
  function CookieHeader(sessionId: string): (h: string)
    ensures Strings.StartsWith(h, SessionCookieName) && h[|SessionCookieName|..] == sessionId
  {
    SessionCookieName + sessionId
  }

  /** A session id that is not empty and holds no `;` is read back from the header built for it. */
  lemma {:induction false} CookieHeaderRoundTrip(sessionId: string)
    requires sessionId != [] && forall m :: 0 <= m < |sessionId| ==> sessionId[m] != ';'
    ensures ExtractSessionId(CookieHeader(sessionId)) == Some(sessionId)
  {
    assert CookieHeader(sessionId) == SessionCookieName + sessionId + [];
    ExtractFromCookie(sessionId, []);
  }
}
