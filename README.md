# IPU results dashboard: grade arithmetic, credit lookup and portal routes

This project models the core of a results dashboard for students of the
GGSIP University examination portal, in Dafny, and proves properties of
that model. It covers six parts of the repository.

- **Grade arithmetic** (`src/lib/grading.ts`):
  - the fixed mark bands, which give a letter grade and a grade point;
  - the CGPA divisions;
  - the credit-weighted SGPA and CGPA, as accumulating methods;
  - the grade histogram, whose counting loop is a method;
  - the best grade and the semester names.
- **Credit lookup** (`src/data/subjectCredits.ts`). The lookup has three stages, tried in order:
  - the direct code-to-credits table;
  - a case-insensitive search of the curriculum;
  - an ordered list of code patterns (the regular expressions are written out as per-position character classes).

  The semester helpers are modelled too.
- **The captcha route's session store** (`src/app/api/ipu/captcha/route.ts`). It is a class with a `map` field. It has:
  - an in-place sweep of expired entries;
  - a lookup that hides expired entries;
  - the insert keyed by the `JSESSIONID` value of the portal's `Set-Cookie` header.
- **The login route** (`src/app/api/ipu/login/route.ts`):
  - the check that all fields are present;
  - the session id rotation;
  - the prioritised classification of the portal's answer.
- **The results route** (`src/app/api/ipu/results/route.ts`):
  - the session check and the default semester;
  - the login-page detection;
  - the status, parse, empty and records outcomes;
  - the 500 answer when a failed status cannot be passed on to the client.
- **The linked-enrollment route** (`src/app/api/auth/linked-enrollment/route.ts`):
  - `maskEmail`;
  - the `Bearer` prefix check (section 2.1 of RFC 6750);
  - the normalisation of the enrollment number and the college.

Files:

| file | module | contents |
|---|---|---|
| `wrappers.dfy` | `Wrappers` | `Option` |
| `strings.dfy` | `Strings` | `includes`, `startsWith`, ASCII case mapping, `trim`, integer rendering |
| `grading.dfy` | `Grading` | `src/lib/grading.ts` |
| `subject_credits.dfy` | `SubjectCredits` | `src/data/subjectCredits.ts` |
| `cookies.dfy` | `Cookies` | the `JSESSIONID=([^;]+)` extraction and the `Cookie` header |
| `captcha.dfy` | `Captcha` | the session store of the captcha route |
| `login.dfy` | `Login` | the login route |
| `results.dfy` | `Results` | the results route |
| `linked_enrollment.dfy` | `LinkedEnrollment` | the linked-enrollment route |

Modelling decisions:

- **Upstream calls are function parameters.** The login route's portal call, and the results route's portal call and `JSON.parse`, are passed in as functions. So are the linked-enrollment route's token verification and students-table query. A route that answers without calling one gives the same outcome for any two such functions; that is how the model says "before any upstream request".
- **Clock readings become a `now` parameter.**
- **Numbers:**
  - marks, credits, grade points and HTTP statuses are `int`;
  - the averages are `real`;
  - `Math.round(x * 100) / 100` is the exact real rounding `Grading.Round2`, halves rounding up.
- **Object-literal entries.** `subjectCreditsMap` is built from its entries in source order, where a later duplicate key overrides an earlier one (`SubjectCredits.TableOf`). Lookups therefore preserve the source's behaviour even if a key is repeated.

## Model

| member | source | states |
|---|---|---|
| Grading.FindBand | src/lib/grading.ts:32-39 | the early-return loop over the mark scale finds the first band holding the marks, and finds none exactly when no band holds them |
| Grading.MarksToGrade | src/lib/grading.ts:32-39 | the grade is always one of the eight grade letters |
| Grading.MarksToGradePoint | src/lib/grading.ts:44-51 | the grade point is in 0..10, and a positive one is at least 4 |
| Grading.ExactlyOneBand | src/lib/grading.ts:9-18 | every mark in 0..100 lies in exactly one band: the bands are disjoint and cover the range |
| Grading.OutOfRangeFails | src/lib/grading.ts:32-51 | marks below 0 or above 100 get `F` and 0 |
| Grading.GradePointOfGrade | src/lib/grading.ts:9-51 | the grade point of a mark is the one listed with its grade letter |
| Grading.GradePointMonotonic | src/lib/grading.ts:44-51 | more marks never earn fewer grade points within 0..100 |
| Grading.GradeColor | src/lib/grading.ts:56-59 | a listed grade gets its band's colour, which differs from the grey default; any other string gets the default |
| Grading.CgpaDivision | src/lib/grading.ts:64-71 | `N/A` exactly when no division band holds the CGPA |
| Grading.DivisionTotalOnTwoDecimals | src/lib/grading.ts:21-27 | every CGPA in 0..10 with at most two decimals has a division |
| Grading.DivisionGap | src/lib/grading.ts:21-27 | unrounded values in the table's gaps, such as 9.995 and 6.495, have none |
| Grading.Round2 | src/lib/grading.ts:98 | the rounded value has two decimals and lies within half a hundredth of the input |
| Grading.Round2Within | src/lib/grading.ts:98 | rounding keeps a value within enclosing two-decimal bounds |
| Grading.CalculateSgpa | src/lib/grading.ts:77-101 | the loop's credits are those of the subjects with a positive grade point and positive credits; its SGPA is their rounded credit-weighted mean; an empty list gives 0 and 0 |
| Grading.SuppliedZeroExcludes | src/lib/grading.ts:86-92 | a supplied grade point of 0 overrides the marks and keeps the subject out |
| Grading.SgpaBetween | src/lib/grading.ts:89-95 | the unrounded SGPA lies between the smallest and largest counted grade point |
| Grading.RawSgpa | src/lib/grading.ts:89-95 | the unrounded SGPA times the counted credits is the sum of credit points, and it is 0 when nothing counts |
| Grading.SgpaRange | src/lib/grading.ts:89-98 | for supplied grade points that are 0 or on the scale (4..10), the SGPA, rounded or not, is 0 when nothing counts and in 4..10 otherwise |
| Grading.CalculateCgpa | src/lib/grading.ts:107-125 | the loop computes the rounded credit-weighted mean of the SGPAs, and 0 for no semesters or no positive total |
| Grading.RawCgpa | src/lib/grading.ts:114-124 | the unrounded CGPA times the total credits is the sum of SGPA times credits, and it is 0 when the total is not positive |
| Grading.CgpaBetween | src/lib/grading.ts:114-124 | the unrounded CGPA lies between the smallest and largest SGPA of the semesters with credits |
| Grading.CgpaHasDivision | src/lib/grading.ts:107-125 | the rounded CGPA of two-decimal SGPAs within 0..10 always has a division |
| Grading.Tally | src/lib/grading.ts:131-136 | the counting map holds exactly the grades that occur, each with its multiplicity |
| Grading.GradeDistribution | src/lib/grading.ts:130-147 | the loop over the subjects yields the histogram of their grades |
| Grading.EmitPosition | src/lib/grading.ts:140-146 | a grade of the order that the map holds is emitted, at the position returned |
| Grading.EmitListed | src/lib/grading.ts:140-146 | a grade of the order is emitted exactly when the map holds it |
| Grading.EmitOrdered | src/lib/grading.ts:138-146 | over distinct grades the emitted entries keep the order's ranks strictly increasing |
| Grading.Histogram | src/lib/grading.ts:130-147 | every entry is one of the eight grades, with its colour and the number of subjects that have it, at least one |
| Grading.HistogramOrderAndCounts | src/lib/grading.ts:130-147 | entries follow O, A+, A, B+, B, C, P, F, each at most once, each counting its subjects, at least one |
| Grading.HistogramListsPresentGrades | src/lib/grading.ts:133-146 | one of the eight grades is listed exactly when some subject has it |
| Grading.HistogramSum | src/lib/grading.ts:133-146 | the counts add up to the number of subjects whose grade is one of the eight |
| Grading.MaxOf | src/lib/grading.ts:155 | the maximum is an element and bounds every element |
| Grading.BestGrade | src/lib/grading.ts:152-157 | `N/A` exactly for no subjects; otherwise the grade of some subject's marks |
| Grading.BestGradeDominates | src/lib/grading.ts:152-157 | for a non-empty list with marks in 0..100, no subject's grade point exceeds that of the best grade |
| Grading.SemesterName | src/lib/grading.ts:162-177 | 1..10 get the listed name, and every other number gets `Semester <n>` |
| Grading.SemesterNameInjective | src/lib/grading.ts:162-177 | different numbers get different names |
| SubjectCredits.TableOfEntries | src/data/subjectCredits.ts:25-201 | a key is in the table exactly when an entry has it, and it holds the value of its last such entry |
| SubjectCredits.CreditsMapPositive | src/data/subjectCredits.ts:25-201 | every table value is positive |
| SubjectCredits.NotAKey | src/data/subjectCredits.ts:25-201 | a code no entry has is not a key |
| SubjectCredits.FirstPattern | src/data/subjectCredits.ts:413-417 | the first pattern in list order that matches, or none exactly when none matches |
| SubjectCredits.ShadowedPattern | src/data/subjectCredits.ts:207-237 | every code that the "Core PC Theory (Sem 5-6)" pattern matches is matched earlier by "PCE Semester 5-6 Theory" |
| SubjectCredits.PatternCredits | src/data/subjectCredits.ts:413-417 | none exactly when no pattern matches; otherwise the credits of the first pattern that does |
| SubjectCredits.FirstSubject | src/data/subjectCredits.ts:403-410 | the first entry whose code matches ignoring case, or none exactly when none matches |
| SubjectCredits.FindSubject | src/data/subjectCredits.ts:427-437 | a found entry matches the code; nothing is found exactly when no entry of any semester matches |
| SubjectCredits.GetSubjectInfo | src/data/subjectCredits.ts:427-437 | the first match of the whole curriculum, or none exactly when no entry matches |
| SubjectCredits.FindSubjectIsFirst | src/data/subjectCredits.ts:427-437 | the semester-by-semester search finds the first match of the whole curriculum, in semester then list order, and nothing exactly when nothing matches |
| SubjectCredits.GetSubjectCredits | src/data/subjectCredits.ts:396-420 | a key of the table gets its table value; any other code gets its curriculum entry's credits, else the pattern stage's; nothing exactly when all three stages miss |
| SubjectCredits.CurriculumStage | src/data/subjectCredits.ts:403-410 | any other code gets the credits of its first curriculum match |
| SubjectCredits.PatternStage | src/data/subjectCredits.ts:413-417 | a code in neither table gets the credits of its first matching pattern |
| SubjectCredits.UndefinedWhenNoStage | src/data/subjectCredits.ts:396-420 | the lookup yields nothing exactly when no stage matches |
| SubjectCredits.FirstSemester | src/data/subjectCredits.ts:444-457 | the first semester with the number, or none exactly when none has it |
| SubjectCredits.SemesterNumbers | src/data/subjectCredits.ts:240-389 | the curriculum lists semesters 1 to 8 in order |
| SubjectCredits.GetSemesterTotalCredits | src/data/subjectCredits.ts:444-447 | 1..8 give the listed total; any other number gives 0 |
| SubjectCredits.GetSemesterSubjects | src/data/subjectCredits.ts:454-457 | 1..8 give the listed subjects; any other number gives none |
| SubjectCredits.GetTotalProgramCredits | src/data/subjectCredits.ts:463-465 | the sum of the semester totals is 220 |
| SubjectCredits.CurriculumCodesUpperCase | src/data/subjectCredits.ts:240-389 | no curriculum code holds a lower-case letter |
| SubjectCredits.LookupLowerCase | src/data/subjectCredits.ts:403-410 | `ict101` gets 3 from the curriculum |
| SubjectCredits.LookupPlaceholder | src/data/subjectCredits.ts:403-410 | `PCE-1` gets 4 from the curriculum |
| SubjectCredits.LookupLabPattern | src/data/subjectCredits.ts:207-237 | `ARM359` gets 1 from the lab pattern |
| SubjectCredits.LookupTheoryPattern | src/data/subjectCredits.ts:207-237 | `ard339` gets 4, matching a pattern ignoring case |
| Strings.IgnoreCaseAgainstUpper | src/data/subjectCredits.ts:405 | a code without lower-case letters equals another ignoring case exactly when it is the other upper-cased |
| Strings.Trim | src/app/api/auth/linked-enrollment/route.ts:40-41 | the result is the input without its leading and trailing spaces, and starts and ends with no space |
| Strings.IntToStringInjective | src/app/api/ipu/results/route.ts:52 | different integers render differently |
| Cookies.ExtractSessionId | src/app/api/ipu/captcha/route.ts:59-62 | none exactly when the pattern matches nowhere; a found id is non-empty and holds no `;` |
| Cookies.ExtractIsLeftmostRun | src/app/api/ipu/captcha/route.ts:60-62 | the id is the whole run of non-`;` characters after the leftmost match |
| Cookies.ExtractExample | src/app/api/ipu/captcha/route.ts:59-62 | `JSESSIONID=ABC123; Path=/` yields `ABC123` |
| Cookies.CookieHeader | src/app/api/ipu/login/route.ts:27 | the header is `JSESSIONID=` followed by the id |
| Cookies.CookieHeaderRoundTrip | src/app/api/ipu/results/route.ts:25 | a non-empty id without `;` is read back from its header |
| Captcha.Lookup | src/app/api/ipu/captcha/route.ts:25-31 | the cookie exactly when the key is present and `expiresAt > now` |
| Captcha.Swept | src/app/api/ipu/captcha/route.ts:15-22 | exactly the entries with `expiresAt < now` are removed, the rest unchanged |
| Captcha.SweepKeepsLookup | src/app/api/ipu/captcha/route.ts:15-31 | a sweep never changes a lookup at the same instant |
| Captcha.SweepIdempotent | src/app/api/ipu/captcha/route.ts:15-22 | a second sweep at the same instant changes nothing |
| Captcha.BoundaryEntry | src/app/api/ipu/captcha/route.ts:18-27 | an entry expiring exactly now survives the sweep but is hidden from lookup |
| Captcha.SessionIdOf | src/app/api/ipu/captcha/route.ts:56-62 | no id exactly when the header is absent or the pattern matches nowhere; a found id is non-empty and holds no `;` |
| Captcha.SessionStore.constructor | src/app/api/ipu/captcha/route.ts:11 | the store starts empty |
| Captcha.SessionStore.GetSessionCookie | src/app/api/ipu/captcha/route.ts:25-31 | the stored cookie exactly while the entry has not expired |
| Captcha.SessionStore.CleanupExpired | src/app/api/ipu/captcha/route.ts:15-22 | the in-place deleting loop leaves the store equal to its sweep |
| Captcha.SessionStore.FetchCaptcha | src/app/api/ipu/captcha/route.ts:33-79 | a sweep; then a failure with no insert on a non-ok status; an empty id with no insert when `Set-Cookie` carries none; otherwise the id, with the full header stored until now plus 30 minutes |
| Captcha.InsertThenLookup | src/app/api/ipu/captcha/route.ts:63-66 | after the insert the id looks up the header, and every other key looks up what it did before |
| Login.RotatedSessionId | src/app/api/ipu/login/route.ts:35-43 | the id from `Set-Cookie` when one matches, and the sent id otherwise |
| Login.PortalRequest | src/app/api/ipu/login/route.ts:17-32 | the posted fields are the request's, with the session cookie |
| Login.MissingFieldsShortCircuit | src/app/api/ipu/login/route.ts:9-14 | a missing or empty field gives 400 whatever the portal would answer |
| Login.PostsFieldsWithCookie | src/app/api/ipu/login/route.ts:17-32 | with all fields, the outcome is the classification of the portal's answer to the posted request |
| Login.Classify | src/app/api/ipu/login/route.ts:50-80 | never the 400 outcome; a success, carrying the rotated id, exactly when the student home was reached |
| Login.HandleLogin | src/app/api/ipu/login/route.ts:9-80 | the 400 outcome exactly when a field is missing or empty |
| Login.SuccessIff | src/app/api/ipu/login/route.ts:50-59 | success exactly when the location or body mentions `studenthome` or the status is 302 |
| Login.OutcomePriority | src/app/api/ipu/login/route.ts:50-80 | success first, then the captcha message, then `Invalid` or `incorrect`, else the generic failure |
| Login.HomeAndCaptchaMessage | src/app/api/ipu/login/route.ts:50-66 | a body naming both the student home and the captcha failure is a success |
| Login.SuccessReportsRotatedId | src/app/api/ipu/login/route.ts:35-59 | a success reports the rotated id of the portal's answer |
| Login.SuccessIdNotEmpty | src/app/api/ipu/login/route.ts:35-59 | a success never reports an empty id |
| Results.SemesterOrDefault | src/app/api/ipu/results/route.ts:10 | an absent or empty semester becomes `100` |
| Results.MissingSession | src/app/api/ipu/results/route.ts:12-17 | no session id gives 401 "Session ID required" whatever the portal and parser do |
| Results.QuerySent | src/app/api/ipu/results/route.ts:9-31 | with a session id, the portal is asked with its cookie and the defaulted semester |
| Results.IsLoginPage | src/app/api/ipu/results/route.ts:37-41 | a 401 or 403 is a login page whatever the body; a page that is not one names neither `login.jsp` nor `StudentLogin.jsp`, and has no password field if it has a form |
| Results.Classify | src/app/api/ipu/results/route.ts:37-86 | a session expiry exactly for a login page; a failure exactly for another non-ok status, passed on only when a response may carry it; records only for a parsed non-empty array |
| Results.HandleResults | src/app/api/ipu/results/route.ts:6-86 | the 401 "Session ID required" outcome exactly when the session id is absent or empty |
| Results.LoginPageFirst | src/app/api/ipu/results/route.ts:37-55 | a login page, including a 403 or a 200 showing the login form, is a session expiry with 401 |
| Results.FailedFetchKeepsStatus | src/app/api/ipu/results/route.ts:50-55 | any other non-ok status that a response may carry is reported with that status |
| Results.UnrespondableStatus | src/app/api/ipu/results/route.ts:50-86 | a 304, or a status outside 200..599, makes the failure response throw, so the client gets 500 "Failed to fetch results" |
| Results.FetchFailedMessages | src/app/api/ipu/results/route.ts:50-55 | the failure message names the status, and different statuses give different messages |
| Results.ParsedOutcome | src/app/api/ipu/results/route.ts:57-80 | an unparsable body gives 401; a non-array or empty array gives no results; a non-empty array is passed on unchanged |
| Results.SuccessIffParsed | src/app/api/ipu/results/route.ts:57-80 | success exactly for a readable, ok, parsed answer; no results carry `[]` and "No results found" |
| LinkedEnrollment.FirstIndex | src/app/api/auth/linked-enrollment/route.ts:14 | the first occurrence of the separator |
| LinkedEnrollment.Split | src/app/api/auth/linked-enrollment/route.ts:14 | at least one piece, and no piece holds the separator |
| LinkedEnrollment.SplitJoin | src/app/api/auth/linked-enrollment/route.ts:14 | joining the pieces with the separator gives the string back |
| LinkedEnrollment.SplitPieces | src/app/api/auth/linked-enrollment/route.ts:14 | a second piece exists exactly when the separator occurs, and the first piece is the text before it |
| LinkedEnrollment.Stars | src/app/api/auth/linked-enrollment/route.ts:16 | `n` stars |
| LinkedEnrollment.VisibleLocal | src/app/api/auth/linked-enrollment/route.ts:15-16 | the first two characters, or the first alone for a local part of one or two, or none for an empty one |
| LinkedEnrollment.MaskLocal | src/app/api/auth/linked-enrollment/route.ts:15-16 | length over 2: two characters then stars, same length; length 1 or 2: first character and `*`; empty: `*`; always a star; at most two characters revealed |
| LinkedEnrollment.MaskEmail | src/app/api/auth/linked-enrollment/route.ts:9-18 | no masked address exactly for an absent address or one without `@` (the empty one included) |
| LinkedEnrollment.MaskParts | src/app/api/auth/linked-enrollment/route.ts:14-17 | the masked text before the first `@`, `@`, and the text up to a second `@` or the end |
| LinkedEnrollment.MaskSingleAt | src/app/api/auth/linked-enrollment/route.ts:14-17 | with one `@`, the domain is kept whole |
| LinkedEnrollment.MaskExample | src/app/api/auth/linked-enrollment/route.ts:9-18 | `john.doe@example.com` becomes `jo******@example.com` |
| LinkedEnrollment.BearerToken | src/app/api/auth/linked-enrollment/route.ts:22-27 | a token exactly for a header starting with `Bearer `, and it is the rest of the header |
| LinkedEnrollment.BearerRoundTrip | src/app/api/auth/linked-enrollment/route.ts:22-27 | the token after `Bearer ` is read back |
| LinkedEnrollment.CollegeFilter | src/app/api/auth/linked-enrollment/route.ts:41-60 | the college filters the query exactly when its trimmed value is not empty, and then by that value |
| LinkedEnrollment.NormalizeEnrollment | src/app/api/auth/linked-enrollment/route.ts:40 | an absent number stays absent; a present one keeps its trimmed length and has no lower-case letter |
| LinkedEnrollment.NormalizeIdempotent | src/app/api/auth/linked-enrollment/route.ts:40 | a normalised number has no lower-case letter, and normalising it again changes nothing |
| LinkedEnrollment.HandleLinked | src/app/api/auth/linked-enrollment/route.ts:20-69 | 401 without a `Bearer ` header, a verification failure exactly for a rejected token, and an address only for a non-blank number |
| LinkedEnrollment.NoBearerShortCircuit | src/app/api/auth/linked-enrollment/route.ts:22-25 | no `Bearer ` header gives 401 whatever verification and query would do |
| LinkedEnrollment.VerifiesToken | src/app/api/auth/linked-enrollment/route.ts:27-37 | a rejected token gives 401 before any query |
| LinkedEnrollment.BlankEnrollment | src/app/api/auth/linked-enrollment/route.ts:40-45 | an absent or blank number gives no address |
| LinkedEnrollment.QueriesNormalized | src/app/api/auth/linked-enrollment/route.ts:40-69 | otherwise the query asks for the trimmed, upper-cased number and the filtered college; its e-mail is masked, and a failed query gives none |

## Left out

- **Network calls** are left out: every `fetch`, the Next.js request and response plumbing, and the `try`/`catch` paths taken when a fetch or a body read throws (they answer 500, or, in the linked-enrollment route, 200 with no address). A route's upstream call is a function parameter. The one thrown error the model does capture is the results route's failure response for a status a response cannot carry (`Results.UnrespondableStatus`).
- **The captcha image's base64 conversion** is left out. It does not reach the store.
- **`src/lib/crypto.ts`** is not part of this model. It wraps `crypto.subtle` SHA-256 and `btoa`.
- **`JSON.parse`** is a parameter that returns `None` for a parse error. `URLSearchParams` encoding and query-string parsing are left out; absent parameters are `None`.
- **`Date.now()`** becomes one `now` parameter per captcha request. The source reads the clock separately for the sweep, the timestamp and the expiry. The model uses a single instant, so it does not capture the few milliseconds between them.
- **The store across requests.** There is no concurrency to model; the store is one object.
- **The service calls.** `supabase.auth.getUser` is the `verify` parameter and the students query is the `lookup` parameter; their internals are left out.
- **IEEE floating point** is left out. `Math.round(x * 100) / 100` is exact real rounding, and averages are exact real division.
- **Prototype keys.** Keys such as `constructor` on the object literal behind `subjectCreditsMap` are left out; the table holds the declared keys only.
- **Case mapping.** `toLowerCase` and `toUpperCase` are modelled on the ASCII letters only. Other characters are left unchanged, which differs from JavaScript for non-ASCII letters.
- Strings.IntToString: renders every integer as plain decimal digits; JavaScript switches to exponent notation from 10^21 in magnitude. Only HTTP statuses and semester numbers are rendered, so this matters only for a semester number of magnitude 10^21 or more in `getSemesterName`.
- **Strings** are sequences of `char`. JavaScript's UTF-16 code units are not distinguished from characters.
- **JSON field types assumed to be strings.** A JSON body field that is not a string (a number where `enrollmentNo` is expected, say) is left out; fields are strings or absent.
- **`Subject`** carries only the fields the grading functions read.
- **The UI and browser-event code** is left out.

Notes:

- **The expiry boundary.** The sweep deletes only entries with `expiresAt < now`, while the lookup returns only those with `expiresAt > now`. An entry whose expiry equals `now` therefore survives the sweep but is hidden by the lookup; `Captcha.BoundaryEntry` states both.
- **A shadowed pattern.** The pattern "Core PC Theory (Sem 5-6)" can never decide a lookup, because an earlier pattern "PCE Semester 5-6 Theory" matches every code it matches (`SubjectCredits.ShadowedPattern`). Both give 4 credits, so no lookup result changes.
- **Outcomes as datatypes.** Only a successful login carries a session id: `Login.LoginOutcome` has no id field in any other case. The classification is a total function, so every portal answer gets exactly one outcome.
