/**
 * The login route: check that the four fields are present, post them with
 * the session cookie, take over a rotated session id from the answer, and
 * classify the answer by its status, `Location` header and body text.
 */
module Login {
  import opened Wrappers
  import Strings
  import Cookies

  /** The request body's fields; `None` stands for a field that is absent or `null`. */
  datatype LoginRequest = LoginRequest(
    username: Option<string>,
    hashedPassword: Option<string>,
    captcha: Option<string>,
    sessionId: Option<string>)

  /** The request posted to the portal: the `Cookie` header and the three form fields. */
  datatype PortalLogin = PortalLogin(cookie: string, username: string, passwd: string, captcha: string)

  /** The parts of the portal's answer the route reads. */
  datatype PortalAnswer = PortalAnswer(status: int, setCookie: Option<string>, location: Option<string>, body: string)

  datatype LoginOutcome =
    | MissingFields
    | LoginSucceeded(sessionId: string)
    | InvalidCaptcha
    | InvalidCredentials
    | LoginFailed

  /** A field is truthy when it is present and not the empty string. */
  predicate Present(field: Option<string>) {
    field.Some? && field.value != []
  }

  predicate AllPresent(req: LoginRequest) {
    Present(req.username) && Present(req.hashedPassword) && Present(req.captcha) && Present(req.sessionId)
  }

  /** The session id to report: the one in `Set-Cookie` when it carries one, else the one sent. */
  function RotatedSessionId(sent: string, setCookie: Option<string>): (id: string)
    ensures setCookie.Some? && setCookie.value != [] && Cookies.ExtractSessionId(setCookie.value).Some? ==>
      id == Cookies.ExtractSessionId(setCookie.value).value
    ensures !(setCookie.Some? && setCookie.value != [] && Cookies.ExtractSessionId(setCookie.value).Some?) ==>
      id == sent
  {
    if setCookie.Some? && setCookie.value != [] then
      Cookies.ExtractSessionId(setCookie.value).GetOr(sent)
    else sent
  }

  /** The portal redirected to, or showed, the student home page. */
  predicate ReachedHome(answer: PortalAnswer) {
    || (answer.location.Some? && answer.location.value != [] && Strings.Contains(answer.location.value, "studenthome"))
    || answer.status == 302
    || Strings.Contains(answer.body, "studenthome")
  }

  /**
   * The outcome of a login attempt whose fields were all present: never a
   * 400, and a success, carrying the rotated or the sent session id, exactly
   * when the student home was reached.
   */
  function Classify(sent: string, answer: PortalAnswer): (r: LoginOutcome)
    ensures r != MissingFields
    ensures r.LoginSucceeded? <==> ReachedHome(answer)
    ensures r.LoginSucceeded? ==> r.sessionId == RotatedSessionId(sent, answer.setCookie)
  {
    if ReachedHome(answer) then LoginSucceeded(RotatedSessionId(sent, answer.setCookie))
    else if Strings.Contains(answer.body, "Captcha validation fails") then InvalidCaptcha
    else if Strings.Contains(answer.body, "Invalid") || Strings.Contains(answer.body, "incorrect") then InvalidCredentials
    else LoginFailed
  }

  /** The request the route posts for a request whose fields are all present. */
  function PortalRequest(req: LoginRequest): (p: PortalLogin)
    requires AllPresent(req)
    ensures p.cookie == Cookies.CookieHeader(req.sessionId.value)
    ensures p.username == req.username.value && p.passwd == req.hashedPassword.value && p.captcha == req.captcha.value
  {
    PortalLogin(Cookies.CookieHeader(req.sessionId.value), req.username.value, req.hashedPassword.value, req.captcha.value)
  }

  /** The route's `POST`, with the portal given as `portal`. */
  function HandleLogin(req: LoginRequest, portal: PortalLogin -> PortalAnswer): (r: LoginOutcome)
    ensures r == MissingFields <==> !AllPresent(req)
    ensures StatusOf(r) == 400 <==> !AllPresent(req)
  {
    if !AllPresent(req) then MissingFields
    else Classify(req.sessionId.value, portal(PortalRequest(req)))
  }

  /** The HTTP status of each outcome. */
  function StatusOf(outcome: LoginOutcome): int {
    if outcome.MissingFields? then 400 else 200
  }

  /** The message of each outcome. */
  function MessageOf(outcome: LoginOutcome): string {
    match outcome
    case MissingFields => "Missing required fields"
    case LoginSucceeded(_) => "Login successful"
    case InvalidCaptcha => "Invalid captcha. Please try again."
    case InvalidCredentials => "Invalid username or password."
    case LoginFailed => "Login failed. Please try again."
  }

  /** A missing or empty field is answered with 400 before, and whatever, the portal would answer. */
  lemma MissingFieldsShortCircuit(req: LoginRequest, p1: PortalLogin -> PortalAnswer, p2: PortalLogin -> PortalAnswer)
    requires !AllPresent(req)
    ensures HandleLogin(req, p1) == HandleLogin(req, p2) == MissingFields
    ensures StatusOf(HandleLogin(req, p1)) == 400
  {
  }

  /** With all fields present, the outcome depends only on the portal's answer to the posted request. */
  lemma PostsFieldsWithCookie(req: LoginRequest, portal: PortalLogin -> PortalAnswer)
    requires AllPresent(req)
    ensures HandleLogin(req, portal) == Classify(req.sessionId.value, portal(PortalRequest(req)))
    ensures HandleLogin(req, portal) != MissingFields
  {
  }

  /** Success exactly when the location or body mentions the student home, or the status is 302. */
  lemma SuccessIff(sent: string, answer: PortalAnswer)
    ensures Classify(sent, answer).LoginSucceeded? <==> ReachedHome(answer)
    ensures answer.status == 302 ==> Classify(sent, answer).LoginSucceeded?
  {
  }

  /** Success outranks the captcha message, and the captcha message outranks the credential words. */
  lemma OutcomePriority(sent: string, answer: PortalAnswer)
    ensures Strings.Contains(answer.body, "studenthome") ==> Classify(sent, answer).LoginSucceeded?
    ensures !ReachedHome(answer) && Strings.Contains(answer.body, "Captcha validation fails") ==>
      Classify(sent, answer) == InvalidCaptcha
    ensures !ReachedHome(answer) && !Strings.Contains(answer.body, "Captcha validation fails") ==>
      var credentialWords := Strings.Contains(answer.body, "Invalid") || Strings.Contains(answer.body, "incorrect");
      (Classify(sent, answer) == InvalidCredentials <==> credentialWords)
    ensures Classify(sent, answer) == LoginFailed <==>
      && !ReachedHome(answer)
      && !Strings.Contains(answer.body, "Captcha validation fails")
      && !Strings.Contains(answer.body, "Invalid")
      && !Strings.Contains(answer.body, "incorrect")
  {
  }

  /** A body naming both the student home and the captcha failure counts as a success. */
  lemma HomeAndCaptchaMessage(sent: string, status: int, setCookie: Option<string>, location: Option<string>, a: string, b: string, c: string)
    ensures Classify(sent, PortalAnswer(status, setCookie, location, a + "studenthome" + b + "Captcha validation fails" + c)).LoginSucceeded?
  {
    var body := a + "studenthome" + b + "Captcha validation fails" + c;
    assert body == a + "studenthome" + (b + "Captcha validation fails" + c);
    Strings.ContainsInConcat(a, "studenthome", b + "Captcha validation fails" + c);
  }

  /** A successful login reports the rotated id when `Set-Cookie` carries one, else the id that was sent. */
  lemma SuccessReportsRotatedId(req: LoginRequest, portal: PortalLogin -> PortalAnswer)
    requires HandleLogin(req, portal).LoginSucceeded?
    ensures AllPresent(req)
    ensures var answer := portal(PortalRequest(req));
      HandleLogin(req, portal).sessionId == RotatedSessionId(req.sessionId.value, answer.setCookie)
  {
  }

  /** The id of a successful login is never empty: the sent id is present, and a rotated one is not empty. */
  lemma {:induction false} SuccessIdNotEmpty(req: LoginRequest, portal: PortalLogin -> PortalAnswer)
    requires HandleLogin(req, portal).LoginSucceeded?
    ensures HandleLogin(req, portal).sessionId != []
  {
    var answer := portal(PortalRequest(req));
    var sc := answer.setCookie;
    if sc.Some? && sc.value != [] && Cookies.ExtractSessionId(sc.value).Some? {
      assert RotatedSessionId(req.sessionId.value, sc) == Cookies.ExtractSessionId(sc.value).value;
    }
  }
}
