/**
 * The linked-enrollment route: a caller with a `Bearer` token asks which
 * e-mail address is linked to an enrollment number, and is told only a
 * masked form of it. The token check, the normalisation of the request and
 * the masking are modelled; verifying the token and querying the students
 * table are passed in as functions.
 */
module LinkedEnrollment {
  import opened Wrappers
  import Strings

  // ---------------------------------------------------------------------------
  // `split`

  /** The index of the first `c` in `s`. */
  function FirstIndex(s: string, c: char): (i: nat)
    requires c in s
    ensures i < |s| && s[i] == c
    ensures forall j :: 0 <= j < i ==> s[j] != c
  {
    if s[0] == c then 0 else 1 + FirstIndex(s[1..], c)
  }

  /** `s.split(sep)` for a one-character separator: the pieces between the separators, in order. */
  function Split(s: string, sep: char): (parts: seq<string>)
    ensures |parts| >= 1
    ensures forall k :: 0 <= k < |parts| ==> sep !in parts[k]
    decreases |s|
  {
    if sep !in s then [s]
    else
      var i := FirstIndex(s, sep);
      [s[..i]] + Split(s[i + 1..], sep)
  }

  /** `parts.join(sep)`. */
  function Join(parts: seq<string>, sep: char): string
    requires |parts| >= 1
  {
    if |parts| == 1 then parts[0] else parts[0] + [sep] + Join(parts[1..], sep)
  }

  /** Joining the pieces with the separator gives the string back. */
  lemma {:induction false} SplitJoin(s: string, sep: char)
    ensures Join(Split(s, sep), sep) == s
    decreases |s|
  {
    if sep in s {
      var i := FirstIndex(s, sep);
      var rest := s[i + 1..];
      SplitJoin(rest, sep);
      assert Split(s, sep)[1..] == Split(rest, sep);
      assert s == s[..i] + [sep] + rest;
    }
  }

  /** There is a second piece exactly when the separator occurs; the first piece is the text before its first occurrence. */
  lemma {:induction false} SplitPieces(s: string, sep: char)
    ensures |Split(s, sep)| >= 2 <==> sep in s
    ensures sep in s ==> Split(s, sep)[0] == s[..FirstIndex(s, sep)]
    ensures sep !in s ==> Split(s, sep) == [s]
  {
  }

  // ---------------------------------------------------------------------------
  // `maskEmail`

  function Stars(n: nat): (r: string)
    ensures |r| == n && forall k :: 0 <= k < n ==> r[k] == '*'
  {
    seq(n, _ => '*')
  }

  /** The characters of the local part that stay visible: its first two, or only its first when it is that short. */
  function VisibleLocal(local: string): (v: string)
    ensures |v| == (if |local| > 2 then 2 else if local == [] then 0 else 1)
    ensures v == local[..|v|]
  {
    if |local| <= 2 then (if |local| == 0 then "" else [local[0]]) else local[..2]
  }

  /**
   * The local part with every character after the visible ones replaced by
   * `*`: a prefix of at most two characters of `local`, then stars, and at
   * least one star.
   */
  function MaskLocal(local: string): (m: string)
    ensures |local| > 2 ==> m == local[..2] + Stars(|local| - 2) && |m| == |local|
    ensures 1 <= |local| <= 2 ==> m == [local[0], '*']
    ensures local == [] ==> m == "*"
    ensures '*' in m
    ensures forall k :: 0 <= k < |m| ==> m[k] == '*' || (k < 2 && k < |local| && m[k] == local[k])
  {
    var visible := VisibleLocal(local);
    var hidden := |local| - |visible|;
    var m := visible + Stars(if hidden >= 1 then hidden else 1);
    assert m[|m| - 1] == '*';
    m
  }

  /**
   * `maskEmail`: none for an absent or empty address or one without `@`;
   * otherwise the masked first piece, `@`, and the second piece.
   */
  function MaskEmail(email: Option<string>): (r: Option<string>)
    ensures r.None? <==> email.None? || '@' !in email.value
  {
    if email.None? || email.value == [] || '@' !in email.value then None
    else
      var parts := Split(email.value, '@');
      SplitPieces(email.value, '@');
      Some(MaskLocal(parts[0]) + "@" + parts[1])
  }

  /**
   * A masked address is the masked text before the first `@`, then `@`,
   * then the text after it up to a second `@` or the end; anything after a
   * second `@` is dropped.
   */
  lemma {:induction false} MaskParts(email: string)
    requires '@' in email
    ensures var i := FirstIndex(email, '@');
      var after := email[i + 1..];
      var domain := if '@' in after then after[..FirstIndex(after, '@')] else after;
      MaskEmail(Some(email)) == Some(MaskLocal(email[..i]) + "@" + domain)
  {
    var i := FirstIndex(email, '@');
    var after := email[i + 1..];
    SplitPieces(after, '@');
    assert Split(email, '@')[1] == Split(after, '@')[0];
  }

  /** The first `c` is at the index where it occurs with none before it. */
  lemma {:induction false} FirstIndexAt(s: string, c: char, i: nat)
    requires i < |s| && s[i] == c && forall j :: 0 <= j < i ==> s[j] != c
    ensures FirstIndex(s, c) == i
  {
    var k := FirstIndex(s, c);
    assert !(k < i) && !(i < k);
  }

  /** An address with a single `@` keeps its domain whole and masks its local part. */
  lemma {:induction false} MaskSingleAt(local: string, domain: string)
    requires '@' !in local && '@' !in domain
    ensures MaskEmail(Some(local + "@" + domain)) == Some(MaskLocal(local) + "@" + domain)
  {
    var email := local + "@" + domain;
    assert email[|local|] == '@';
    FirstIndexAt(email, '@', |local|);
    assert email[..|local|] == local && email[|local| + 1..] == domain;
    MaskParts(email);
  }

  /** `maskEmail("john.doe@example.com")` is `"jo******@example.com"`. */
  lemma {:induction false} MaskExample()
    ensures MaskEmail(Some("john.doe@example.com")) == Some("jo******@example.com")
  {
    var local, domain := "john.doe", "example.com";
    assert forall j | 0 <= j < |local| :: local[j] != '@';
    assert forall j | 0 <= j < |domain| :: domain[j] != '@';
    MaskSingleAt(local, domain);
    assert MaskLocal(local) == "jo******";
    assert MaskEmail(Some(local + "@" + domain)) == Some("jo******" + "@" + domain);
    assert "jo******" + "@" + domain == "jo******@example.com";
    assert local + "@" + domain == "john.doe@example.com";
  }

  // ---------------------------------------------------------------------------
  // The request

  /** The authorization scheme of section 2.1 of RFC 6750, with its space. */
  const BearerPrefix: string := "Bearer "

  /** The token of an `authorization` header that starts with `Bearer `: everything from index 7. */
  function BearerToken(header: Option<string>): (t: Option<string>)
    ensures t.Some? <==> header.Some? && Strings.StartsWith(header.value, BearerPrefix)
    ensures t.Some? ==> header.value == BearerPrefix + t.value
  {
    if header.Some? && Strings.StartsWith(header.value, BearerPrefix) then
      assert header.value == header.value[..7] + header.value[7..];
      Some(header.value[7..])
    else None
  }

  /** The token written after `Bearer ` is the token read back. */
  lemma BearerRoundTrip(token: string)
    ensures BearerToken(Some(BearerPrefix + token)) == Some(token)
  {
    assert (BearerPrefix + token)[..|BearerPrefix|] == BearerPrefix;
  }

  /**
   * `enrollmentNo?.trim().toUpperCase()`: an absent field stays absent, and
   * a present one loses its surrounding spaces and every lower-case letter.
   */
  function NormalizeEnrollment(enrollmentNo: Option<string>): (r: Option<string>)
    ensures r.Some? <==> enrollmentNo.Some?
    ensures r.Some? ==> Strings.NoLowerCase(r.value) && |r.value| == |Strings.Trim(enrollmentNo.value)|
  {
    if enrollmentNo.None? then None
    else
      Strings.UpperHasNoLowerLetters(Strings.Trim(enrollmentNo.value));
      Some(Strings.Upper(Strings.Trim(enrollmentNo.value)))
  }

  /** The college the query filters by: the trimmed value, when that is not empty. */
  function CollegeFilter(college: Option<string>): (c: Option<string>)
    ensures c.Some? ==> c.value != [] && college.Some? && c.value == Strings.Trim(college.value)
    ensures college.Some? && Strings.Trim(college.value) != [] ==> c.Some?
  {
    if college.Some? && Strings.Trim(college.value) != [] then Some(Strings.Trim(college.value)) else None
  }

  /** Trimming a string that neither starts nor ends with a space keeps it. */
  lemma {:induction false} TrimKeeps(s: string)
    requires s != [] ==> !Strings.IsJsSpace(s[0]) && !Strings.IsJsSpace(s[|s| - 1])
    ensures Strings.Trim(s) == s
  {
    if s != [] {
      assert Strings.SkipStart(s, 0) == 0;
      assert Strings.SkipEnd(s, 0, |s|) == |s|;
    }
  }

  /** Upper-casing a string twice is upper-casing it once. */
  lemma {:induction false} UpperIdempotent(s: string)
    ensures Strings.Upper(Strings.Upper(s)) == Strings.Upper(s)
  {
    assert forall i :: 0 <= i < |s| ==> Strings.UpperChar(Strings.UpperChar(s[i])) == Strings.UpperChar(s[i]);
  }

  /**
   * A normalised enrollment number has no lower-case letter and no space at
   * either end, so normalising it again changes nothing.
   */
  lemma {:induction false} NormalizeIdempotent(enrollmentNo: Option<string>)
    ensures NormalizeEnrollment(NormalizeEnrollment(enrollmentNo)) == NormalizeEnrollment(enrollmentNo)
    ensures NormalizeEnrollment(enrollmentNo).Some? ==> Strings.NoLowerCase(NormalizeEnrollment(enrollmentNo).value)
  {
    if enrollmentNo.Some? {
      var t := Strings.Trim(enrollmentNo.value);
      var u := Strings.Upper(t);
      if u != [] {
        assert u[0] == Strings.UpperChar(t[0]);
        assert u[|u| - 1] == Strings.UpperChar(t[|t| - 1]);
      }
      TrimKeeps(u);
      UpperIdempotent(t);
      Strings.UpperHasNoLowerLetters(t);
    }
  }

  // ---------------------------------------------------------------------------
  // The route

  /** The students-table query: the enrollment number, and the college when one is given. */
  datatype StudentQuery = StudentQuery(enrollmentNo: string, college: Option<string>)

  /** What `maybeSingle` reports: an error, or the row's e-mail (`None` when there is no row or no e-mail). */
  datatype QueryResult = QueryFailed | QueryFound(email: Option<string>)

  datatype LinkedOutcome =
    | Unauthorized
    | VerifyFailed
    | LinkedEmail(maskedEmail: Option<string>)

  /**
   * The route's `POST`. `verify` stands for the token check, `lookup` for
   * the students-table query; the body fields are `None` when absent.
   */
  function HandleLinked(authHeader: Option<string>, verify: string -> bool,
                        enrollmentNo: Option<string>, college: Option<string>,
                        lookup: StudentQuery -> QueryResult): (r: LinkedOutcome)
    ensures r == Unauthorized <==> !(authHeader.Some? && Strings.StartsWith(authHeader.value, BearerPrefix))
    ensures r == VerifyFailed <==> BearerToken(authHeader).Some? && !verify(BearerToken(authHeader).value)
    ensures r.LinkedEmail? && r.maskedEmail.Some? ==> enrollmentNo.Some? && Strings.Trim(enrollmentNo.value) != []
  {
    var token := BearerToken(authHeader);
    if token.None? then Unauthorized
    else if !verify(token.value) then VerifyFailed
    else
      var enrollment := NormalizeEnrollment(enrollmentNo);
      if enrollment.None? || enrollment.value == [] then LinkedEmail(None)
      else
        match lookup(StudentQuery(enrollment.value, CollegeFilter(college)))
        case QueryFailed => LinkedEmail(None)
        case QueryFound(email) => LinkedEmail(MaskEmail(email))
  }

  function StatusOf(outcome: LinkedOutcome): int {
    if outcome.LinkedEmail? then 200 else 401
  }

  /** Without a `Bearer ` header the route answers 401 before verifying or querying anything. */
  lemma NoBearerShortCircuit(authHeader: Option<string>, v1: string -> bool, v2: string -> bool,
                             enrollmentNo: Option<string>, college: Option<string>,
                             l1: StudentQuery -> QueryResult, l2: StudentQuery -> QueryResult)
    requires !(authHeader.Some? && Strings.StartsWith(authHeader.value, BearerPrefix))
    ensures HandleLinked(authHeader, v1, enrollmentNo, college, l1) == Unauthorized
    ensures HandleLinked(authHeader, v2, enrollmentNo, college, l2) == Unauthorized
    ensures StatusOf(Unauthorized) == 401
  {
  }

  /** The token verified is the header from index 7; a rejected token is answered with 401 before any query. */
  lemma VerifiesToken(token: string, verify: string -> bool, enrollmentNo: Option<string>, college: Option<string>,
                      l1: StudentQuery -> QueryResult, l2: StudentQuery -> QueryResult)
    requires !verify(token)
    ensures HandleLinked(Some(BearerPrefix + token), verify, enrollmentNo, college, l1) == VerifyFailed
    ensures HandleLinked(Some(BearerPrefix + token), verify, enrollmentNo, college, l2) == VerifyFailed
  {
    BearerRoundTrip(token);
  }

  /** An enrollment number that is absent, or blank once trimmed, yields no address and no query. */
  lemma {:induction false} BlankEnrollment(token: string, verify: string -> bool, enrollmentNo: Option<string>,
                                           college: Option<string>, l1: StudentQuery -> QueryResult)
    requires verify(token)
    requires enrollmentNo.None? || Strings.Trim(enrollmentNo.value) == []
    ensures HandleLinked(Some(BearerPrefix + token), verify, enrollmentNo, college, l1) == LinkedEmail(None)
  {
    BearerRoundTrip(token);
  }

  /**
   * Otherwise the query asks for the trimmed, upper-cased number and the
   * trimmed college, and the answer is the masked e-mail it finds, or none
   * when the query fails.
   */
  lemma {:induction false} QueriesNormalized(token: string, verify: string -> bool, enrollmentNo: string,
                                             college: Option<string>, lookup: StudentQuery -> QueryResult)
    requires verify(token)
    requires Strings.Trim(enrollmentNo) != []
    ensures var q := StudentQuery(Strings.Upper(Strings.Trim(enrollmentNo)), CollegeFilter(college));
      HandleLinked(Some(BearerPrefix + token), verify, Some(enrollmentNo), college, lookup) ==
        (if lookup(q).QueryFailed? then LinkedEmail(None) else LinkedEmail(MaskEmail(lookup(q).email)))
  {
    BearerRoundTrip(token);
  }
}
