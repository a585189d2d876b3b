/**
 * The results route: require a session id, default the semester to all
 * semesters, ask the portal, and classify its answer as an expired session,
 * a failed fetch, an unreadable body, no results, the records, or the
 * 500 the outer `catch` gives when a status cannot be passed on.
 */
module Results {
  import opened Wrappers
  import Strings
  import Cookies

  /** A JSON value, as `JSON.parse` produces it. */
  datatype Json =
    | JNull
    | JBool(b: bool)
    | JNumber(n: real)
    | JString(s: string)
    | JArray(items: seq<Json>)
    | JObject(fields: seq<(string, Json)>)

  /** The query parameters; `None` stands for a parameter that is absent. */
  datatype ResultsRequest = ResultsRequest(sessionId: Option<string>, semester: Option<string>)

  /** The request sent to the portal: the `Cookie` header and the `euno` parameter. */
  datatype PortalQuery = PortalQuery(cookie: string, euno: string)

  datatype PortalAnswer = PortalAnswer(status: int, body: string)

  datatype ResultsOutcome =
    | SessionRequired
    | SessionExpired
    | FetchFailed(status: int)
    | InvalidResponse
    | NoResults
    | Records(items: seq<Json>)
    | ServerError

  /** Semester code `100` asks for all semesters. */
  const AllSemesters: string := "100"

  /** `semester || '100'`: an absent or empty semester means all of them. */
  function SemesterOrDefault(semester: Option<string>): (s: string)
    ensures semester.Some? && semester.value != [] ==> s == semester.value
    ensures semester.None? || semester.value == [] ==> s == AllSemesters
  {
    if semester.Some? && semester.value != [] then semester.value else AllSemesters
  }

  /**
   * `isLoginPage`: the portal refused, or answered with its login page. The
   * `&&` binds tighter than the `||`s, so a form only counts together with a
   * password field, and the capitalised `StudentLogin.jsp` is not covered by
   * the lower-case `login.jsp`.
   */
  predicate IsLoginPage(answer: PortalAnswer)
    ensures answer.status == 401 || answer.status == 403 ==> IsLoginPage(answer)
    ensures Strings.Contains(answer.body, "<form") && !IsLoginPage(answer) ==> !Strings.Contains(answer.body, "password")
    ensures !IsLoginPage(answer) ==>
      !Strings.Contains(answer.body, "login.jsp") && !Strings.Contains(answer.body, "StudentLogin.jsp")
  {
    || answer.status == 401
    || answer.status == 403
    || Strings.Contains(answer.body, "StudentLogin.jsp")
    || Strings.Contains(answer.body, "login.jsp")
    || (Strings.Contains(answer.body, "<form") && Strings.Contains(answer.body, "password"))
  }

  /** `response.ok`. */
  predicate Ok(status: int) {
    200 <= status <= 299
  }

  /**
   * Whether `NextResponse.json` accepts `status` for a response with a body:
   * the Fetch Standard's "initialize a response" steps throw for a status
   * outside 200..599 and for a null-body status (101, 103, 204, 205, 304).
   */
  predicate RespondableStatus(status: int) {
    200 <= status <= 599 && status != 204 && status != 205 && status != 304
  }

  /**
   * How the route reads a portal answer; `parse` stands for `JSON.parse`,
   * `None` for a parse error. A failed fetch whose status cannot be passed
   * on makes `NextResponse.json` throw, and the outer `catch` answers.
   */
  function Classify(answer: PortalAnswer, parse: string -> Option<Json>): (r: ResultsOutcome)
    ensures r == SessionExpired <==> IsLoginPage(answer)
    ensures r.FetchFailed? || r == ServerError <==> !IsLoginPage(answer) && !Ok(answer.status)
    ensures r.FetchFailed? ==> RespondableStatus(r.status) && r.status == answer.status
    ensures r.Records? ==> parse(answer.body) == Some(JArray(r.items)) && r.items != []
    ensures r != SessionRequired
  {
    if IsLoginPage(answer) then SessionExpired
    else if !Ok(answer.status) then
      (if RespondableStatus(answer.status) then FetchFailed(answer.status) else ServerError)
    else
      match parse(answer.body)
      case None => InvalidResponse
      case Some(data) =>
        if data.JArray? && |data.items| > 0 then Records(data.items) else NoResults
  }

  /** The route's `GET`, with the portal given as `portal`. */
  function HandleResults(req: ResultsRequest, portal: PortalQuery -> PortalAnswer, parse: string -> Option<Json>): (r: ResultsOutcome)
    ensures r == SessionRequired <==> req.sessionId.None? || req.sessionId.value == []
  {
    if req.sessionId.None? || req.sessionId.value == [] then SessionRequired
    else
      var query := PortalQuery(Cookies.CookieHeader(req.sessionId.value), SemesterOrDefault(req.semester));
      Classify(portal(query), parse)
  }

  /** The HTTP status of each outcome; a failed fetch passes the portal's status on. */
  function StatusOf(outcome: ResultsOutcome): int {
    match outcome
    case SessionRequired => 401
    case SessionExpired => 401
    case FetchFailed(status) => status
    case InvalidResponse => 401
    case NoResults => 200
    case Records(_) => 200
    case ServerError => 500
  }

  /** The message of each outcome; the records carry none. */
  function MessageOf(outcome: ResultsOutcome): Option<string> {
    match outcome
    case SessionRequired => Some("Session ID required")
    case SessionExpired => Some("Session expired. Please login again.")
    case FetchFailed(status) => Some("Failed to fetch results: " + Strings.IntToString(status))
    case InvalidResponse => Some("Invalid response from server. Session may have expired.")
    case NoResults => Some("No results found")
    case Records(_) => None
    case ServerError => Some("Failed to fetch results")
  }

  /** The records the answer reports: the parsed array, or none. */
  function ResultsOf(outcome: ResultsOutcome): seq<Json> {
    if outcome.Records? then outcome.items else []
  }

  /** Without a session id, the route answers 401 whatever the portal and the parser would do. */
  lemma MissingSession(req: ResultsRequest, p1: PortalQuery -> PortalAnswer, p2: PortalQuery -> PortalAnswer,
                       parse1: string -> Option<Json>, parse2: string -> Option<Json>)
    requires req.sessionId.None? || req.sessionId.value == []
    ensures HandleResults(req, p1, parse1) == HandleResults(req, p2, parse2) == SessionRequired
    ensures StatusOf(SessionRequired) == 401 && MessageOf(SessionRequired) == Some("Session ID required")
  {
  }

  /** With a session id, the portal is asked with its cookie and the defaulted semester. */
  lemma QuerySent(req: ResultsRequest, portal: PortalQuery -> PortalAnswer, parse: string -> Option<Json>)
    requires req.sessionId.Some? && req.sessionId.value != []
    ensures HandleResults(req, portal, parse) ==
      Classify(portal(PortalQuery(Cookies.CookieHeader(req.sessionId.value), SemesterOrDefault(req.semester))), parse)
    ensures req.semester.None? || req.semester.value == [] ==> SemesterOrDefault(req.semester) == "100"
  {
  }

  /** A login page is a session expiry, whatever the status, even 200; a 403 is never a failed fetch. */
  lemma LoginPageFirst(answer: PortalAnswer, parse: string -> Option<Json>)
    ensures IsLoginPage(answer) <==> Classify(answer, parse) == SessionExpired
    ensures answer.status == 403 ==> Classify(answer, parse) == SessionExpired
    ensures Classify(answer, parse) == SessionExpired ==> StatusOf(Classify(answer, parse)) == 401
  {
  }

  /**
   * A status outside 200..299 on a page that is not the login page is
   * reported with that status when a response may carry it, and as a 500
   * otherwise.
   */
  lemma FailedFetchKeepsStatus(answer: PortalAnswer, parse: string -> Option<Json>)
    ensures !IsLoginPage(answer) && !Ok(answer.status) && RespondableStatus(answer.status) ==>
      Classify(answer, parse) == FetchFailed(answer.status) && StatusOf(Classify(answer, parse)) == answer.status
    ensures Classify(answer, parse).FetchFailed? ==> !Ok(answer.status) && answer.status != 401 && answer.status != 403
  {
  }

  /** A 304, or a status outside 200..599, is answered like any other thrown error: 500 and a fixed message. */
  lemma UnrespondableStatus(answer: PortalAnswer, parse: string -> Option<Json>)
    requires !IsLoginPage(answer)
    requires answer.status == 304 || answer.status < 200 || answer.status > 599
    ensures Classify(answer, parse) == ServerError
    ensures StatusOf(Classify(answer, parse)) == 500
    ensures MessageOf(Classify(answer, parse)) == Some("Failed to fetch results")
  {
  }

  /**
   * A readable page: an unparsable body means 401, a parsed value that is
   * not an array, or an empty array, means success with no results, and a
   * non-empty array is passed on unchanged.
   */
  lemma ParsedOutcome(answer: PortalAnswer, parse: string -> Option<Json>)
    requires !IsLoginPage(answer) && Ok(answer.status)
    ensures parse(answer.body).None? <==> Classify(answer, parse) == InvalidResponse
    ensures Classify(answer, parse) == InvalidResponse ==> StatusOf(Classify(answer, parse)) == 401
    ensures Classify(answer, parse).Records? <==>
      parse(answer.body).Some? && parse(answer.body).value.JArray? && |parse(answer.body).value.items| > 0
    ensures Classify(answer, parse).Records? ==> Classify(answer, parse).items == parse(answer.body).value.items
    ensures parse(answer.body) == Some(JNull) || parse(answer.body) == Some(JArray([])) ==>
      Classify(answer, parse) == NoResults
  {
  }

  /** Every outcome after a parsed body is a success with status 200, and only those are. */
  lemma SuccessIffParsed(answer: PortalAnswer, parse: string -> Option<Json>)
    ensures Classify(answer, parse).NoResults? || Classify(answer, parse).Records? <==>
      !IsLoginPage(answer) && Ok(answer.status) && parse(answer.body).Some?
    ensures Classify(answer, parse).NoResults? ==>
      StatusOf(NoResults) == 200 && ResultsOf(NoResults) == [] && MessageOf(NoResults) == Some("No results found")
  {
  }

  /** A failed fetch names its status in the message, and different statuses give different messages. */
  lemma {:induction false} FetchFailedMessages(s1: int, s2: int)
    ensures MessageOf(FetchFailed(s1)).Some?
    ensures MessageOf(FetchFailed(s1)) == MessageOf(FetchFailed(s2)) ==> s1 == s2
  {
    var prefix := "Failed to fetch results: ";
    if MessageOf(FetchFailed(s1)) == MessageOf(FetchFailed(s2)) {
      var t1 := Strings.IntToString(s1);
      var t2 := Strings.IntToString(s2);
      assert prefix + t1 == prefix + t2;
      assert t1 == (prefix + t1)[|prefix|..];
      assert t2 == (prefix + t2)[|prefix|..];
      Strings.IntToStringInjective(s1, s2);
    }
  }
}
