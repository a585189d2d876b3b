/**
 * The credit tables of the B.Tech AI & ML programme and the lookups over
 * them: the direct code-to-credits table, the semester-wise curriculum, the
 * ordered list of code patterns, and the three-stage credit lookup.
 */
module SubjectCredits {
  import opened Wrappers
  import Strings

  datatype SubjectType = Theory | Practical | Elective | Project

  /** One curriculum entry; `isNues` is present (and `true`) only for the non-university-exam subjects. */
  datatype SubjectInfo = SubjectInfo(
    code: string,
    name: string,
    kind: SubjectType,
    group: string,
    lectureHours: int,
    practicalHours: int,
    credits: int,
    isNues: Option<bool>)

  datatype SemesterData = SemesterData(semester: int, subjects: seq<SubjectInfo>, totalCredits: int)

  // ---------------------------------------------------------------------------
  // The direct table

  /**
   * The direct lookup table, written as the object literal's entries, one
   * constant per commented section of the literal.
   */
  const Semester1Credits: seq<(string, int)> := [
    ("ICT101", 3), ("ICT103", 3), ("ICT105", 3), ("HS107", 3), ("BS109", 3), ("BS111", 4),
    ("BS113", 3), ("LLB115", 2), ("ICT151", 1), ("ICT153", 1), ("ICT155", 1), ("BS157", 1),
    ("BS159", 1)
  ]

  const Semester2Credits: seq<(string, int)> := [
    ("HS102", 3), ("BS104", 3), ("BS106", 4), ("BS108", 3), ("BS110", 4), ("ICT114", 1),
    ("EMES112", 4), ("ICT152", 1), ("BS156", 1), ("BS158", 1), ("ICT154", 1), ("ICT160", 1),
    ("ICT116", 3), ("BS118", 3), ("BT120", 3)
  ]

  const Semester3Credits: seq<(string, int)> := [
    ("ARD201", 4), ("ARD203", 4), ("ARD205", 4), ("ARD207", 4), ("ARD209", 4), ("MSAI211", 2),
    ("ARD251", 2), ("ARD253", 1), ("ARD255", 1)
  ]

  const Semester4Credits: seq<(string, int)> := [
    ("ARD202", 4), ("ARD204", 4), ("ARM206", 3), ("ARM208", 4), ("ARM210", 4), ("ARD212", 3),
    ("HSAI214", 2), ("ARM252", 1), ("ARM254", 1), ("ARM256", 1), ("ARM258", 1)
  ]

  const Semester5Credits: seq<(string, int)> := [
    ("ARM301", 4), ("ARD303", 4), ("ARD305", 4), ("HSAI307", 2), ("AROXXX", 3), ("ARD351", 1),
    ("ARD353", 1), ("ART355", 2), ("ART357", 2)
  ]

  const Semester6Credits: seq<(string, int)> := [
    ("HSAI302", 2), ("MSAI304", 2), ("ARD306", 4), ("ARD308", 4), ("ARD352", 1), ("ARD354", 1)
  ]

  const Semester7Credits: seq<(string, int)> := [
    ("ARD401", 4), ("ARD403", 4), ("ARD451", 1), ("ARD453", 1), ("ARP455", 4), ("ART457", 1)
  ]

  const Semester8Credits: seq<(string, int)> := [
    ("ARP452", 23), ("ART454", 23)
  ]

  const PceSemester5Credits: seq<(string, int)> := [
    ("ARD309", 4), ("ARD311", 4), ("ARD313", 4), ("ARD315", 4), ("ARM317", 4)
  ]

  const PceSemester6Credits: seq<(string, int)> := [
    ("ARD310T", 4), ("ARD310P", 1), ("ARD312T", 4), ("ARD312P", 1), ("ARD314T", 4), ("ARD314P", 1),
    ("ARM316T", 4), ("ARM316P", 1), ("ARD318T", 4), ("ARD318P", 1), ("ARD320T", 4), ("ARD320P", 1),
    ("ARD322T", 4), ("ARD322P", 1), ("ARM324T", 4), ("ARM324P", 1), ("ARM326T", 4), ("ARM326P", 1),
    ("ARD328T", 4), ("ARD328P", 1), ("ARD330T", 4), ("ARD330P", 1)
  ]

  const PceSemester7Credits: seq<(string, int)> := [
    ("ARD405", 4), ("ARD407", 4), ("ARM409", 4), ("ARM411", 4), ("ARD413", 4), ("ARD415", 4),
    ("ARD417", 4), ("ARD419", 4), ("ARD421", 4), ("ARD423", 4), ("ARD425", 4), ("ARD427", 4),
    ("ARD429", 4), ("ARD431", 4)
  ]

  const OaeSemester5Credits: seq<(string, int)> := [
    ("ARO371", 3), ("ARO373", 3), ("ARO375", 3), ("ARO377", 3), ("ARO379", 3)
  ]

  const OaeSemester6Credits: seq<(string, int)> := [
    ("ARO372", 3), ("ARO374", 3), ("ARO376", 3), ("ARO378", 3), ("ARO380", 3), ("ARO382", 3),
    ("ARO384", 3), ("ARO386", 3)
  ]

  const OaeSemester7Credits: seq<(string, int)> := [
    ("ARO471", 3), ("ARO473", 3), ("ARO475", 3), ("ARO477", 3), ("ARO479", 3), ("ARO481", 3),
    ("ARO483", 3), ("ARO485", 3), ("ARO487", 3), ("ARO489", 3)
  ]

  /** The sections in source order. */
  const CreditSections: seq<seq<(string, int)>> := [
    Semester1Credits, Semester2Credits, Semester3Credits, Semester4Credits, Semester5Credits, Semester6Credits, Semester7Credits, Semester8Credits, PceSemester5Credits, PceSemester6Credits, PceSemester7Credits, OaeSemester5Credits, OaeSemester6Credits, OaeSemester7Credits
  ]

  /** All entries of the sections, in order. */
  function Concat(ss: seq<seq<(string, int)>>): seq<(string, int)> {
    if ss == [] then [] else ss[0] + Concat(ss[1..])
  }

  /** The object an object literal with entries `e` builds: entries are set in order, so a later one overrides. */
  function TableOf(e: seq<(string, int)>): map<string, int> {
    if e == [] then map[] else TableOf(e[..|e| - 1])[e[|e| - 1].0 := e[|e| - 1].1]
  }

  /**
   * A key is in the object exactly when some entry has it, and its value is
   * the value of the last such entry.
   */
  lemma {:induction false} TableOfEntries(e: seq<(string, int)>, k: string)
    ensures k in TableOf(e) <==> exists i :: 0 <= i < |e| && e[i].0 == k
    ensures k in TableOf(e) ==> exists i ::
      && 0 <= i < |e| && e[i] == (k, TableOf(e)[k])
      && forall j :: i < j < |e| ==> e[j].0 != k
  {
    if e != [] {
      var init := e[..|e| - 1];
      TableOfEntries(init, k);
      assert forall i :: 0 <= i < |init| ==> init[i] == e[i];
      if e[|e| - 1].0 != k && k in TableOf(init) {
        var i :| 0 <= i < |init| && init[i] == (k, TableOf(init)[k])
          && forall j :: i < j < |init| ==> init[j].0 != k;
        assert e[i] == (k, TableOf(e)[k]);
      }
    }
  }

  /** `subjectCreditsMap`. */
  const CreditsMap: map<string, int> := TableOf(Concat(CreditSections))

  /** Every entry of every section satisfies `p`. */
  predicate EverySection(ss: seq<seq<(string, int)>>, p: ((string, int)) -> bool) {
    forall j, i :: 0 <= j < |ss| && 0 <= i < |ss[j]| ==> p(ss[j][i])
  }

  lemma {:induction false} ConcatEvery(ss: seq<seq<(string, int)>>, p: ((string, int)) -> bool)
    requires EverySection(ss, p)
    ensures forall i :: 0 <= i < |Concat(ss)| ==> p(Concat(ss)[i])
  {
    if ss != [] {
      assert EverySection(ss[1..], p) by {
        forall j, i | 0 <= j < |ss[1..]| && 0 <= i < |ss[1..][j]| ensures p(ss[1..][j][i]) {
          assert ss[1..][j] == ss[j + 1];
        }
      }
      ConcatEvery(ss[1..], p);
      var c := Concat(ss);
      assert c == ss[0] + Concat(ss[1..]);
      forall i | 0 <= i < |c| ensures p(c[i]) {
        if i >= |ss[0]| { assert c[i] == Concat(ss[1..])[i - |ss[0]|]; }
      }
    }
  }

  /** A code the given sections hold no entry for is not a key of `subjectCreditsMap`. */
  lemma NotAKey(code: string)
    requires EverySection(CreditSections, (e: (string, int)) => e.0 != code)
    ensures code !in CreditsMap
  {
    ConcatEvery(CreditSections, (e: (string, int)) => e.0 != code);
    TableOfEntries(Concat(CreditSections), code);
  }

  /** Every value of the direct table is positive, so its truthiness test is key membership. */
  lemma CreditsMapPositive(code: string)
    ensures code in CreditsMap ==> CreditsMap[code] > 0
  {
    SectionsPositive();
    ConcatEvery(CreditSections, (e: (string, int)) => e.1 > 0);
    TableOfEntries(Concat(CreditSections), code);
  }

  lemma SectionsPositive()
    ensures EverySection(CreditSections, (e: (string, int)) => e.1 > 0)
  {
    forall j | 0 <= j < |CreditSections|
      ensures forall i :: 0 <= i < |CreditSections[j]| ==> CreditSections[j][i].1 > 0
    {
    }
  }

  // ---------------------------------------------------------------------------
  // Code patterns

  /**
   * One position of an anchored, case-insensitive code pattern: a fixed
   * character, any decimal digit, a digit within a range, or one of a set of
   * letters (all written upper-case).
   */
  datatype CharClass = Exactly(c: char) | AnyDigit | DigitIn(lo: char, hi: char) | OneOf(letters: seq<char>)

  /**
   * Whether `c` fits the class under the `i` flag: letters compare after
   * upper-casing; a digit class only ever admits digits.
   */
  predicate ClassMatches(k: CharClass, c: char) {
    match k
    case Exactly(x) => Strings.UpperChar(c) == Strings.UpperChar(x)
    case AnyDigit => Strings.IsDigit(c)
    case DigitIn(lo, hi) => lo <= c <= hi
    case OneOf(letters) => Strings.UpperChar(c) in letters
  }

  /**
   * A pattern `^…$` made of single-character positions (with `\d{3}` written
   * out as three digit positions): it matches a code of exactly its length.
   */
  datatype CreditPattern = CreditPattern(positions: seq<CharClass>, credits: int, description: string)

  predicate PatternMatches(p: CreditPattern, code: string) {
    |code| == |p.positions| && forall i :: 0 <= i < |code| ==> ClassMatches(p.positions[i], code[i])
  }

  const A := Exactly('A')
  const R := Exactly('R')
  const DM := OneOf(['D', 'M'])
  const D := AnyDigit

  /** The patterns in the order they are tried. */
  const CreditPatterns: seq<CreditPattern> := [
    CreditPattern([A, R, DM, D, D, D, Exactly('P')], 1, "PCE Lab courses"),
    CreditPattern([A, R, DM, DigitIn('2', '4'), Exactly('5'), D], 1, "Practical/Lab courses (25x, 35x, 45x)"),
    CreditPattern([A, R, DM, Exactly('3'), DigitIn('0', '3'), D], 4, "PCE Semester 5-6 Theory"),
    CreditPattern([A, R, DM, Exactly('4'), DigitIn('0', '3'), D], 4, "PCE Semester 7 Theory"),
    CreditPattern([A, R, Exactly('O'), D, D, D], 3, "Open Area Electives"),
    CreditPattern([A, R, DM, Exactly('2'), DigitIn('0', '1'), D], 4, "Core PC Theory (Sem 3-4)"),
    CreditPattern([A, R, DM, Exactly('3'), Exactly('0'), DigitIn('0', '8')], 4, "Core PC Theory (Sem 5-6)"),
    CreditPattern([Exactly('H'), Exactly('S'), A, Exactly('I'), D, D, D], 2, "Humanities/Social Science"),
    CreditPattern([Exactly('M'), Exactly('S'), A, Exactly('I'), D, D, D], 2, "Management Science"),
    CreditPattern([A, R, Exactly('P'), Exactly('4'), Exactly('5'), D], 4, "Minor Project"),
    CreditPattern([A, R, Exactly('T'), Exactly('4'), Exactly('5'), D], 1, "Training/Internship"),
    CreditPattern([Exactly('I'), Exactly('C'), Exactly('T'), Exactly('1'), DigitIn('0', '1'), D], 3, "Sem 1-2 Theory"),
    CreditPattern([Exactly('I'), Exactly('C'), Exactly('T'), Exactly('1'), Exactly('5'), D], 1, "Sem 1-2 Practical"),
    CreditPattern([Exactly('B'), Exactly('S'), Exactly('1'), DigitIn('0', '1'), D], 3, "Basic Science Theory"),
    CreditPattern([Exactly('B'), Exactly('S'), Exactly('1'), Exactly('5'), D], 1, "Basic Science Practical"),
    CreditPattern([Exactly('H'), Exactly('S'), Exactly('1'), D, D], 3, "Humanities Sem 1-2")
  ]

  /** The credits of the first pattern in `pats` that matches `code`. */
  function FirstPattern(pats: seq<CreditPattern>, code: string): (r: Option<nat>)
    ensures r.None? <==> forall i :: 0 <= i < |pats| ==> !PatternMatches(pats[i], code)
    ensures r.Some? ==> r.value < |pats| && PatternMatches(pats[r.value], code)
    ensures r.Some? ==> forall i :: 0 <= i < r.value ==> !PatternMatches(pats[i], code)
  {
    if pats == [] then None
    else if PatternMatches(pats[0], code) then Some(0)
    else
      match FirstPattern(pats[1..], code)
      case None => None
      case Some(k) => Some(k + 1)
  }

  /**
   * The credits the pattern stage infers: none when no pattern matches, and
   * otherwise those of the first pattern, in list order, that does.
   */
  function PatternCredits(code: string): (r: Option<int>)
    ensures r.None? <==> forall i :: 0 <= i < |CreditPatterns| ==> !PatternMatches(CreditPatterns[i], code)
    ensures r.Some? ==>
      exists k :: 0 <= k < |CreditPatterns|
        && PatternMatches(CreditPatterns[k], code)
        && (forall i :: 0 <= i < k ==> !PatternMatches(CreditPatterns[i], code))
        && r.value == CreditPatterns[k].credits
  {
    match FirstPattern(CreditPatterns, code)
    case None => None
    case Some(k) => Some(CreditPatterns[k].credits)
  }

  // ---------------------------------------------------------------------------
  // The curriculum

  const Semester1Subjects: seq<SubjectInfo> := [
    SubjectInfo("ICT101", "Programming for Problem Solving", Theory, "ES", 3, 0, 3, None),
    SubjectInfo("ICT103", "Electrical Science", Theory, "ES", 3, 0, 3, None),
    SubjectInfo("ICT105", "Engineering Mechanics", Theory, "ES", 3, 0, 3, None),
    SubjectInfo("HS107", "Communication Skills-I", Theory, "HS", 3, 0, 3, None),
    SubjectInfo("BS109", "Engineering Chemistry - I", Theory, "BS", 3, 0, 3, None),
    SubjectInfo("BS111", "Engineering Mathematics - I", Theory, "BS", 4, 0, 4, None),
    SubjectInfo("BS113", "Engineering Physics - I", Theory, "BS", 3, 0, 3, None),
    SubjectInfo("LLB115", "Indian Constitution", Theory, "HS/MC", 2, 0, 2, Some(true)),
    SubjectInfo("ICT151", "Programming for Problem Solving Lab", Practical, "ES", 0, 2, 1, None),
    SubjectInfo("ICT153", "Engineering Graphics-I", Practical, "ES", 0, 2, 1, None),
    SubjectInfo("ICT155", "Electrical Science Lab", Practical, "ES", 0, 2, 1, None),
    SubjectInfo("BS157", "Engineering Chemistry-I Lab", Practical, "BS", 0, 2, 1, None),
    SubjectInfo("BS159", "Engineering Physics - I Lab", Practical, "BS", 0, 2, 1, None)
  ]

  const Semester2Subjects: seq<SubjectInfo> := [
    SubjectInfo("HS102", "Communication Skills - II", Theory, "HS", 3, 0, 3, None),
    SubjectInfo("BS104", "Engineering Chemistry - II", Theory, "BS", 3, 0, 3, None),
    SubjectInfo("BS106", "Engineering Mathematics - II", Theory, "BS", 4, 0, 4, None),
    SubjectInfo("BS108", "Engineering Physics-II", Theory, "BS", 3, 0, 3, None),
    SubjectInfo("BS110", "Probability and Statistics for Engineers", Theory, "BS", 3, 2, 4, None),
    SubjectInfo("ICT114", "Human Values and Ethics", Theory, "HS/MC", 1, 0, 1, Some(true)),
    SubjectInfo("EMES112", "Environmental Studies", Theory, "BS/MC", 4, 0, 4, None),
    SubjectInfo("ICT152", "Engineering Graphics-II Lab", Practical, "ES", 0, 2, 1, None),
    SubjectInfo("BS156", "Engineering Chemistry - II Lab", Practical, "BS", 0, 2, 1, None),
    SubjectInfo("BS158", "Engineering Physics - II Lab", Practical, "BS", 0, 2, 1, None),
    SubjectInfo("ICT154", "Workshop Technology", Practical, "ES", 0, 2, 1, None),
    SubjectInfo("ICT160", "Programming in Python", Practical, "ES", 0, 2, 1, None),
    SubjectInfo("ICT116", "Introduction to Manufacturing Process", Elective, "ES", 3, 0, 3, None),
    SubjectInfo("BS118", "Industrial Chemistry", Elective, "ES", 3, 0, 3, None),
    SubjectInfo("BT120", "Introduction to Biotechnology", Elective, "ES", 3, 0, 3, None)
  ]

  const Semester3Subjects: seq<SubjectInfo> := [
    SubjectInfo("ARD201", "Essential Mathematics for Artificial Intelligence", Theory, "BS", 4, 0, 4, None),
    SubjectInfo("ARD203", "Operating Systems", Theory, "PC", 4, 0, 4, None),
    SubjectInfo("ARD205", "Database Management System", Theory, "PC", 4, 0, 4, None),
    SubjectInfo("ARD207", "Foundation of Computer Science", Theory, "PC", 4, 0, 4, None),
    SubjectInfo("ARD209", "Data Structures", Theory, "PC", 4, 0, 4, None),
    SubjectInfo("MSAI211", "Accountancy for Engineers", Theory, "HS/MS", 2, 0, 2, Some(true)),
    SubjectInfo("ARD251", "JAVA Lab", Practical, "PC", 0, 4, 2, None),
    SubjectInfo("ARD253", "Database Management System Lab", Practical, "PC", 0, 2, 1, None),
    SubjectInfo("ARD255", "Data Structures Lab", Practical, "PC", 0, 2, 1, None)
  ]

  const Semester4Subjects: seq<SubjectInfo> := [
    SubjectInfo("ARD202", "Software Engineering", Theory, "PC", 4, 0, 4, None),
    SubjectInfo("ARD204", "Introduction to Artificial Intelligence", Theory, "PC", 4, 0, 4, None),
    SubjectInfo("ARM206", "Data Warehousing and Data Mining", Theory, "PC", 3, 0, 3, None),
    SubjectInfo("ARM208", "Analysis and Design of Algorithm", Theory, "PC", 4, 0, 4, None),
    SubjectInfo("ARM210", "Introduction to Machine Learning", Theory, "PC", 4, 0, 4, None),
    SubjectInfo("ARD212", "Computer Network", Theory, "PC", 3, 0, 3, None),
    SubjectInfo("HSAI214", "Engineering Economics", Theory, "HS", 2, 0, 2, Some(true)),
    SubjectInfo("ARM252", "Introduction to AI Lab", Practical, "PC", 0, 2, 1, None),
    SubjectInfo("ARM254", "Analysis and Design of Algorithm Lab", Practical, "PC", 0, 2, 1, None),
    SubjectInfo("ARM256", "Machine Learning Lab", Practical, "PC", 0, 2, 1, None),
    SubjectInfo("ARM258", "Computer Network Lab", Practical, "PC", 0, 2, 1, None)
  ]

  const Semester5Subjects: seq<SubjectInfo> := [
    SubjectInfo("ARM301", "Theory of Computation", Theory, "PC", 4, 0, 4, None),
    SubjectInfo("ARD303", "Data Visualization", Theory, "PC", 4, 0, 4, None),
    SubjectInfo("ARD305", "Big Data Analytics", Theory, "PC", 4, 0, 4, None),
    SubjectInfo("HSAI307", "Technical Writing", Theory, "HS/MS", 2, 0, 2, Some(true)),
    SubjectInfo("OAE-1", "Open Area Elective - 1 (OAE-1)", Elective, "OAE", 3, 0, 3, None),
    SubjectInfo("PCE-1", "Program Core Elective - 1 (PCE-1)", Elective, "PCE", 4, 0, 4, None),
    SubjectInfo("ARD351", "Data Visualization Lab", Practical, "PC", 0, 2, 1, None),
    SubjectInfo("ARD353", "Big Data Analytics Lab", Practical, "PC", 0, 2, 1, None),
    SubjectInfo("ART355", "Summer Training (after 4th semester) Report", Practical, "PC", 0, 2, 2, None),
    SubjectInfo("ART357", "NSS / NCC / Cultural clubs / Technical Society / Technical club", Practical, "MC", 0, 4, 2, None)
  ]

  const Semester6Subjects: seq<SubjectInfo> := [
    SubjectInfo("HSAI302", "Elements of Indian History for Engineers", Theory, "HS/MS", 2, 0, 2, Some(true)),
    SubjectInfo("MSAI304", "Entrepreneurship Mindset", Theory, "HS/MS", 2, 0, 2, Some(true)),
    SubjectInfo("ARD306", "Natural Language Processing", Theory, "PC", 4, 0, 4, None),
    SubjectInfo("ARD308", "Cloud Dew Edge Fog(CDEF) Computing", Theory, "PC", 4, 0, 4, None),
    SubjectInfo("OAE-2A", "Open Area Elective - 2 (OAE-2)", Elective, "OAE", 3, 0, 3, None),
    SubjectInfo("OAE-2B", "Open Area Elective - 2 (OAE-2)", Elective, "OAE", 3, 0, 3, None),
    SubjectInfo("PCE-2", "Program Core Elective - 2 (PCE-2)", Elective, "PCE", 4, 0, 4, None),
    SubjectInfo("PCE-3", "Program Core Elective - 3 (PCE-3)", Elective, "PCE", 4, 0, 4, None),
    SubjectInfo("ARD352", "Natural Language Processing Lab", Practical, "PC", 0, 2, 1, None),
    SubjectInfo("ARD354", "Cloud Dew Edge Fog(CDEF) Computing Lab", Practical, "PC", 0, 2, 1, None),
    SubjectInfo("PCE-2-LAB", "PCE-2 Lab", Practical, "PCE", 0, 2, 1, None),
    SubjectInfo("PCE-3-LAB", "PCE-3 Lab", Practical, "PCE", 0, 2, 1, None)
  ]

  const Semester7Subjects: seq<SubjectInfo> := [
    SubjectInfo("ARD401", "Recommender systems", Theory, "PC", 4, 0, 4, None),
    SubjectInfo("ARD403", "Social Media Analytics", Theory, "PC", 4, 0, 4, None),
    SubjectInfo("PCE-4", "Program Core Elective - 4 (PCE-4)", Elective, "PCE", 4, 0, 4, None),
    SubjectInfo("PCE-5", "Program Core Elective - 5 (PCE-5)", Elective, "PCE", 4, 0, 4, None),
    SubjectInfo("OAE-4", "Open Area Elective - 4 (OAE-4)", Elective, "OAE", 3, 0, 3, None),
    SubjectInfo("OAE-5", "Open Area Elective - 5 (OAE-5)", Elective, "OAE", 3, 0, 3, None),
    SubjectInfo("ARD451", "Recommender systems Lab", Practical, "PC", 0, 2, 1, None),
    SubjectInfo("ARD453", "Social Media Analytics Lab", Practical, "PC", 0, 2, 1, None),
    SubjectInfo("ARP455", "Minor Project", Project, "PC", 0, 0, 4, None),
    SubjectInfo("ART457", "Summer Training (after 6th semester) Report", Practical, "PC", 0, 0, 1, None)
  ]

  const Semester8Subjects: seq<SubjectInfo> := [
    SubjectInfo("ARP452", "Major Project - Dissertation", Project, "PC/Project", 0, 0, 23, None),
    SubjectInfo("ART454", "Internship - Dissertation", Project, "PC/Internship", 0, 0, 23, None)
  ]

  /** The semester-wise curriculum. */
  const SemesterTable: seq<SemesterData> := [
    SemesterData(1, Semester1Subjects, 29),
    SemesterData(2, Semester2Subjects, 29),
    SemesterData(3, Semester3Subjects, 26),
    SemesterData(4, Semester4Subjects, 28),
    SemesterData(5, Semester5Subjects, 26),
    SemesterData(6, Semester6Subjects, 30),
    SemesterData(7, Semester7Subjects, 29),
    SemesterData(8, Semester8Subjects, 23)
  ]

  /** A curriculum code matches a requested code when they agree ignoring case. */
  predicate CodeMatches(s: SubjectInfo, code: string) {
    Strings.EqualsIgnoreCase(s.code, code)
  }

  /** All curriculum entries, semester by semester, each in list order. */
  function AllSubjects(sems: seq<SemesterData>): (all: seq<SubjectInfo>)
    ensures sems != [] ==> all == sems[0].subjects + AllSubjects(sems[1..])
  {
    if sems == [] then [] else sems[0].subjects + AllSubjects(sems[1..])
  }

  /** Index of the first entry of `xs` that matches `code`. */
  function FirstSubject(xs: seq<SubjectInfo>, code: string): (r: Option<nat>)
    ensures r.None? <==> forall i :: 0 <= i < |xs| ==> !CodeMatches(xs[i], code)
    ensures r.Some? ==> r.value < |xs| && CodeMatches(xs[r.value], code)
    ensures r.Some? ==> forall i :: 0 <= i < r.value ==> !CodeMatches(xs[i], code)
  {
    if xs == [] then None
    else if CodeMatches(xs[0], code) then Some(0)
    else
      match FirstSubject(xs[1..], code)
      case None => None
      case Some(k) => Some(k + 1)
  }

  /** `semesters.find(...)` over each semester's `subjects.find(...)`, stopping at the first hit. */
  function FindSubject(sems: seq<SemesterData>, code: string): (r: Option<SubjectInfo>)
    ensures r.Some? ==> CodeMatches(r.value, code)
    ensures r.None? <==> forall k, i :: 0 <= k < |sems| && 0 <= i < |sems[k].subjects| ==>
      !CodeMatches(sems[k].subjects[i], code)
  {
    if sems == [] then None
    else
      match FirstSubject(sems[0].subjects, code)
      case Some(k) => Some(sems[0].subjects[k])
      case None =>
        assert forall k :: 1 <= k < |sems| ==> sems[k] == sems[1..][k - 1];
        FindSubject(sems[1..], code)
  }

  /**
   * The nested search finds the first entry of the flattened curriculum that
   * matches, and finds nothing exactly when no entry matches.
   */
  lemma {:induction false} FindSubjectIsFirst(sems: seq<SemesterData>, code: string)
    ensures FindSubject(sems, code).None? <==> FirstSubject(AllSubjects(sems), code).None?
    ensures FirstSubject(AllSubjects(sems), code).Some? ==>
      FindSubject(sems, code) == Some(AllSubjects(sems)[FirstSubject(AllSubjects(sems), code).value])
  {
    if sems != [] {
      FindSubjectIsFirst(sems[1..], code);
      var head := sems[0].subjects;
      var rest := AllSubjects(sems[1..]);
      var all := AllSubjects(sems);
      assert all == head + rest;
      match FirstSubject(head, code)
      case Some(k) =>
        assert all[k] == head[k];
        assert forall i :: 0 <= i < k ==> all[i] == head[i];
        FirstSubjectOfConcat(head, rest, code);
      case None =>
        FirstSubjectOfConcat(head, rest, code);
    }
  }

  /** The first match in `a + b` is the first match in `a`, or else `|a|` past the first in `b`. */
  lemma {:induction false} FirstSubjectOfConcat(a: seq<SubjectInfo>, b: seq<SubjectInfo>, code: string)
    ensures FirstSubject(a, code).Some? ==> FirstSubject(a + b, code) == FirstSubject(a, code)
    ensures FirstSubject(a, code).None? ==>
      FirstSubject(a + b, code) == (match FirstSubject(b, code) case None => None case Some(k) => Some(|a| + k))
  {
    var ab := a + b;
    var ra := FirstSubject(a, code);
    var r := FirstSubject(ab, code);
    if ra.Some? {
      assert ab[ra.value] == a[ra.value];
      assert forall i :: 0 <= i < ra.value ==> ab[i] == a[i];
      assert r.Some?;
      assert !(r.value < ra.value) && !(ra.value < r.value);
    } else {
      assert forall i :: 0 <= i < |a| ==> ab[i] == a[i];
      assert forall i :: 0 <= i < |b| ==> ab[|a| + i] == b[i];
      match FirstSubject(b, code)
      case None =>
        assert forall i :: 0 <= i < |ab| ==> !CodeMatches(ab[i], code) by {
          forall i | 0 <= i < |ab| ensures !CodeMatches(ab[i], code) {
            if i >= |a| { assert ab[i] == b[i - |a|]; }
          }
        }
      case Some(k) =>
        assert CodeMatches(ab[|a| + k], code);
        assert r.Some?;
        assert r.value >= |a|;
        assert ab[r.value] == b[r.value - |a|];
        assert !(r.value < |a| + k) && !(|a| + k < r.value);
    }
  }

  /**
   * `getSubjectInfo`: the first curriculum entry, in semester then list
   * order, whose code matches; none exactly when no entry matches.
   */
  function GetSubjectInfo(code: string): (r: Option<SubjectInfo>)
    ensures r.None? <==> forall i :: 0 <= i < |AllSubjects(SemesterTable)| ==> !CodeMatches(AllSubjects(SemesterTable)[i], code)
    ensures r.Some? ==> var k := FirstSubject(AllSubjects(SemesterTable), code);
      k.Some? && r.value == AllSubjects(SemesterTable)[k.value] && CodeMatches(r.value, code)
  {
    FindSubjectIsFirst(SemesterTable, code);
    FindSubject(SemesterTable, code)
  }

  // ---------------------------------------------------------------------------
  // The three-stage lookup

  /**
   * `getSubjectCredits`: the table value when the key is present with a
   * truthy (non-zero) value, else the credits of the matching curriculum
   * entry, else those of the first matching pattern, else nothing.
   */
  function GetSubjectCredits(code: string): (r: Option<int>)
    ensures code in CreditsMap ==> r == Some(CreditsMap[code])
    ensures code !in CreditsMap && GetSubjectInfo(code).Some? ==> r == Some(GetSubjectInfo(code).value.credits)
    ensures code !in CreditsMap && GetSubjectInfo(code).None? ==> r == PatternCredits(code)
    ensures r.None? <==> code !in CreditsMap && GetSubjectInfo(code).None? && PatternCredits(code).None?
  {
    CreditsMapPositive(code);
    if code in CreditsMap && CreditsMap[code] != 0 then Some(CreditsMap[code])
    else
      match GetSubjectInfo(code)
      case Some(s) => Some(s.credits)
      case None => PatternCredits(code)
  }

  /** A code outside the direct table gets the credits of the first matching curriculum entry. */
  lemma CurriculumStage(code: string)
    requires code !in CreditsMap
    ensures FirstSubject(AllSubjects(SemesterTable), code).Some? ==>
      GetSubjectCredits(code) == Some(AllSubjects(SemesterTable)[FirstSubject(AllSubjects(SemesterTable), code).value].credits)
  {
    FindSubjectIsFirst(SemesterTable, code);
  }

  /** A code in neither table gets the credits of the first pattern, in list order, that matches it. */
  lemma PatternStage(code: string)
    requires code !in CreditsMap
    requires forall i :: 0 <= i < |AllSubjects(SemesterTable)| ==> !CodeMatches(AllSubjects(SemesterTable)[i], code)
    ensures GetSubjectCredits(code) == PatternCredits(code)
    ensures PatternCredits(code).Some? ==>
      exists k :: 0 <= k < |CreditPatterns|
        && PatternMatches(CreditPatterns[k], code)
        && (forall i :: 0 <= i < k ==> !PatternMatches(CreditPatterns[i], code))
        && PatternCredits(code) == Some(CreditPatterns[k].credits)
  {
    FindSubjectIsFirst(SemesterTable, code);
  }

  /** The lookup yields nothing exactly when no stage matches. */
  lemma UndefinedWhenNoStage(code: string)
    ensures GetSubjectCredits(code).None? <==>
      && code !in CreditsMap
      && (forall i :: 0 <= i < |AllSubjects(SemesterTable)| ==> !CodeMatches(AllSubjects(SemesterTable)[i], code))
      && (forall i :: 0 <= i < |CreditPatterns| ==> !PatternMatches(CreditPatterns[i], code))
  {
    CreditsMapPositive(code);
    FindSubjectIsFirst(SemesterTable, code);
  }

  /** The pattern "Core PC Theory (Sem 5-6)" never decides: every code it matches, the earlier "PCE Semester 5-6 Theory" matches. */
  lemma ShadowedPattern(code: string)
    requires PatternMatches(CreditPatterns[6], code)
    ensures PatternMatches(CreditPatterns[2], code)
    ensures FirstPattern(CreditPatterns, code).Some? && FirstPattern(CreditPatterns, code).value <= 2
  {
    assert PatternMatches(CreditPatterns[2], code) by {
      forall i | 0 <= i < |code| ensures ClassMatches(CreditPatterns[2].positions[i], code[i]) {
        assert ClassMatches(CreditPatterns[6].positions[i], code[i]);
      }
    }
  }

  // ---------------------------------------------------------------------------
  // Semester helpers

  /** `semesterData.find(s => s.semester === n)`, as the index of the semester found. */
  function FirstSemester(sems: seq<SemesterData>, n: int): (r: Option<nat>)
    ensures r.None? <==> forall i :: 0 <= i < |sems| ==> sems[i].semester != n
    ensures r.Some? ==> r.value < |sems| && sems[r.value].semester == n
    ensures r.Some? ==> forall i :: 0 <= i < r.value ==> sems[i].semester != n
  {
    if sems == [] then None
    else if sems[0].semester == n then Some(0)
    else
      match FirstSemester(sems[1..], n)
      case None => None
      case Some(k) => Some(k + 1)
  }

  /** `getSemesterTotalCredits`: the semester's total, or 0 when there is no such semester. */
  function GetSemesterTotalCredits(n: int): (total: int)
    ensures 1 <= n <= 8 ==> total == SemesterTable[n - 1].totalCredits
    ensures !(1 <= n <= 8) ==> total == 0
  {
    SemesterNumbers();
    match FirstSemester(SemesterTable, n)
    case Some(k) => SemesterTable[k].totalCredits
    case None => 0
  }

  /** `getSemesterSubjects`: the semester's subjects, or none when there is no such semester. */
  function GetSemesterSubjects(n: int): (subjects: seq<SubjectInfo>)
    ensures 1 <= n <= 8 ==> subjects == SemesterTable[n - 1].subjects
    ensures !(1 <= n <= 8) ==> subjects == []
  {
    SemesterNumbers();
    match FirstSemester(SemesterTable, n)
    case Some(k) => SemesterTable[k].subjects
    case None => []
  }

  /** The table lists semesters 1 to 8, in order. */
  lemma SemesterNumbers()
    ensures |SemesterTable| == 8
    ensures forall i :: 0 <= i < 8 ==> SemesterTable[i].semester == i + 1
  {
  }

  /** `reduce((total, s) => total + s.totalCredits, 0)` over the first `n` semesters. */
  function SumTotals(sems: seq<SemesterData>, n: nat): int
    requires n <= |sems|
  {
    if n == 0 then 0 else SumTotals(sems, n - 1) + sems[n - 1].totalCredits
  }

  /** `getTotalProgramCredits`: the semester totals add up to 220 credits, as the programme's header states. */
  function GetTotalProgramCredits(): (total: int)
    ensures total == 220
  {
    var t := SemesterTable;
    assert SumTotals(t, 1) == 29;
    assert SumTotals(t, 2) == 58;
    assert SumTotals(t, 3) == 84;
    assert SumTotals(t, 4) == 112;
    assert SumTotals(t, 5) == 138;
    assert SumTotals(t, 6) == 168;
    assert SumTotals(t, 7) == 197;
    assert SumTotals(t, 8) == 220;
    SumTotals(t, |t|)
  }

  // ---------------------------------------------------------------------------
  // Worked lookups

  /** Skipping the first `k` semesters when none of them has a matching entry. */
  lemma {:induction false} FindSubjectSkip(sems: seq<SemesterData>, code: string, k: nat)
    requires k <= |sems|
    requires forall j :: 0 <= j < k ==> FirstSubject(sems[j].subjects, code).None?
    ensures FindSubject(sems, code) == FindSubject(sems[k..], code)
  {
    if k > 0 {
      FindSubjectSkip(sems[1..], code, k - 1);
      assert sems[1..][k - 1..] == sems[k..];
    }
  }

  /** No section of the direct table has an entry for `code`. */
  predicate NoEntry(code: string) {
    forall j :: 0 <= j < |CreditSections| ==>
      forall i :: 0 <= i < |CreditSections[j]| ==> CreditSections[j][i].0 != code
  }

  lemma {:induction false} NoEntryNotAKey(code: string)
    requires NoEntry(code)
    ensures code !in CreditsMap
  {
    assert EverySection(CreditSections, (e: (string, int)) => e.0 != code);
    NotAKey(code);
  }

  /** All codes of `xs` are written without lower-case letters. */
  predicate UpperCaseCodes(xs: seq<SubjectInfo>) {
    forall i :: 0 <= i < |xs| ==> Strings.NoLowerCase(xs[i].code)
  }

  lemma Semester1CodesUpperCase() ensures UpperCaseCodes(Semester1Subjects) {}
  lemma Semester2CodesUpperCase() ensures UpperCaseCodes(Semester2Subjects) {}
  lemma Semester3CodesUpperCase() ensures UpperCaseCodes(Semester3Subjects) {}
  lemma Semester4CodesUpperCase() ensures UpperCaseCodes(Semester4Subjects) {}
  lemma Semester5CodesUpperCase() ensures UpperCaseCodes(Semester5Subjects) {}
  lemma Semester6CodesUpperCase() ensures UpperCaseCodes(Semester6Subjects) {}
  lemma Semester7CodesUpperCase() ensures UpperCaseCodes(Semester7Subjects) {}
  lemma Semester8CodesUpperCase() ensures UpperCaseCodes(Semester8Subjects) {}

  /** Every curriculum code is written without lower-case letters. */
  lemma CurriculumCodesUpperCase()
    ensures forall k :: 0 <= k < |SemesterTable| ==> UpperCaseCodes(SemesterTable[k].subjects)
  {
    Semester1CodesUpperCase();
    Semester2CodesUpperCase();
    Semester3CodesUpperCase();
    Semester4CodesUpperCase();
    Semester5CodesUpperCase();
    Semester6CodesUpperCase();
    Semester7CodesUpperCase();
    Semester8CodesUpperCase();
  }

  /** No entry of `xs` has exactly the code `u`. */
  predicate NoneHasCode(xs: seq<SubjectInfo>, u: string) {
    forall i :: 0 <= i < |xs| ==> xs[i].code != u
  }

  /** Over upper-case codes, a list none of whose codes is `code` upper-cased has no match. */
  lemma {:induction false} NoMatchIn(xs: seq<SubjectInfo>, code: string)
    requires UpperCaseCodes(xs)
    requires NoneHasCode(xs, Strings.Upper(code))
    ensures FirstSubject(xs, code).None?
  {
    forall i | 0 <= i < |xs| ensures !CodeMatches(xs[i], code) {
      Strings.IgnoreCaseAgainstUpper(xs[i].code, code);
    }
  }

  /** A code that, upper-cased, is no curriculum code is not in the curriculum. */
  lemma {:induction false} NotInCurriculum(code: string, k: nat)
    requires k <= |SemesterTable|
    requires forall j :: k <= j < |SemesterTable| ==> NoneHasCode(SemesterTable[j].subjects, Strings.Upper(code))
    ensures FindSubject(SemesterTable[k..], code).None?
    decreases |SemesterTable| - k
  {
    if k < |SemesterTable| {
      CurriculumCodesUpperCase();
      NoMatchIn(SemesterTable[k].subjects, code);
      NotInCurriculum(code, k + 1);
      assert SemesterTable[k..][1..] == SemesterTable[k + 1..];
    }
  }

  /** A lower-case code finds its upper-case curriculum entry. */
  lemma LookupLowerCase()
    ensures GetSubjectCredits("ict101") == Some(3)
  {
    assert NoEntry("ict101");
    NoEntryNotAKey("ict101");
    assert Strings.Lower("ICT101") == Strings.Lower("ict101") == "ict101";
    assert CodeMatches(Semester1Subjects[0], "ict101");
  }

  /** `PCE-1` is not a key of the direct table. */
  lemma PlaceholderNotAKey()
    ensures "PCE-1" !in CreditsMap
  {
    assert NoEntry("PCE-1");
    NoEntryNotAKey("PCE-1");
  }

  /** The first four semesters have no `PCE-1`. */
  lemma PlaceholderNotInFirstYears()
    ensures FindSubject(SemesterTable, "PCE-1") == FindSubject(SemesterTable[4..], "PCE-1")
  {
    var c := "PCE-1";
    assert Strings.Upper(c) == c;
    CurriculumCodesUpperCase();
    assert NoneHasCode(Semester1Subjects, c);
    assert NoneHasCode(Semester2Subjects, c);
    assert NoneHasCode(Semester3Subjects, c);
    assert NoneHasCode(Semester4Subjects, c);
    forall k | 0 <= k < 4 ensures FirstSubject(SemesterTable[k].subjects, c).None? {
      NoMatchIn(SemesterTable[k].subjects, c);
    }
    FindSubjectSkip(SemesterTable, c, 4);
  }

  /** In the fifth semester, `PCE-1` is the sixth entry, the first that matches. */
  lemma PlaceholderInFifth()
    ensures FirstSubject(Semester5Subjects, "PCE-1") == Some(5)
  {
    var c := "PCE-1";
    var xs := Semester5Subjects;
    assert Strings.Upper(c) == c;
    Semester5CodesUpperCase();
    assert forall i :: 0 <= i < 5 ==> xs[i].code != c;
    forall i | 0 <= i < 5 ensures !CodeMatches(xs[i], c) {
      Strings.IgnoreCaseAgainstUpper(xs[i].code, c);
    }
    assert xs[5].code == c;
    assert CodeMatches(xs[5], c);
  }

  /** An elective placeholder, absent from the direct table, gets its curriculum credits. */
  lemma LookupPlaceholder()
    ensures GetSubjectCredits("PCE-1") == Some(4)
  {
    PlaceholderNotAKey();
    PlaceholderNotInFirstYears();
    PlaceholderInFifth();
    assert SemesterTable[4..][0].subjects == Semester5Subjects;
  }

  /** None of the curriculum's codes is `u`. */
  lemma NoCurriculumCode(u: string)
    requires NoneHasCode(Semester1Subjects, u) && NoneHasCode(Semester2Subjects, u)
    requires NoneHasCode(Semester3Subjects, u) && NoneHasCode(Semester4Subjects, u)
    requires NoneHasCode(Semester5Subjects, u) && NoneHasCode(Semester6Subjects, u)
    requires NoneHasCode(Semester7Subjects, u) && NoneHasCode(Semester8Subjects, u)
    ensures forall j :: 0 <= j < |SemesterTable| ==> NoneHasCode(SemesterTable[j].subjects, u)
  {
  }

  /** `ARM359` fails the first pattern (it has no trailing `P`) and matches the second. */
  lemma LabCodePattern()
    ensures PatternCredits("ARM359") == Some(1)
  {
    var c := "ARM359";
    var p := CreditPatterns[1].positions;
    assert p == [A, R, DM, DigitIn('2', '4'), Exactly('5'), D];
    assert ClassMatches(p[0], c[0]) && ClassMatches(p[1], c[1]) && ClassMatches(p[2], c[2]);
    assert ClassMatches(p[3], c[3]) && ClassMatches(p[4], c[4]) && ClassMatches(p[5], c[5]);
    assert !PatternMatches(CreditPatterns[0], c);
    assert PatternMatches(CreditPatterns[1], c);
  }

  /** `ard339` fails the first two patterns and matches the third, ignoring case. */
  lemma TheoryCodePattern()
    ensures PatternCredits("ard339") == Some(4)
  {
    var c := "ard339";
    var p := CreditPatterns[2].positions;
    assert p == [A, R, DM, Exactly('3'), DigitIn('0', '3'), D];
    assert ClassMatches(p[0], c[0]) && ClassMatches(p[1], c[1]) && ClassMatches(p[2], c[2]);
    assert ClassMatches(p[3], c[3]) && ClassMatches(p[4], c[4]) && ClassMatches(p[5], c[5]);
    assert !PatternMatches(CreditPatterns[0], c);
    assert !ClassMatches(CreditPatterns[1].positions[4], c[4]);
    assert !PatternMatches(CreditPatterns[1], c);
    assert PatternMatches(CreditPatterns[2], c);
  }

  /** `ARM359` is not a key of the direct table. */
  lemma LabCodeNotAKey()
    ensures "ARM359" !in CreditsMap
  {
    assert NoEntry("ARM359");
    NoEntryNotAKey("ARM359");
  }

  /** `ARM359` is not a curriculum code. */
  lemma LabCodeNotInCurriculum()
    ensures GetSubjectInfo("ARM359").None?
  {
    var c := "ARM359";
    assert Strings.Upper(c) == c;
    NoCurriculumCode(c);
    NotInCurriculum(c, 0);
    assert SemesterTable[0..] == SemesterTable;
  }

  /** `ard339` is neither a key of the direct table nor, ignoring case, a curriculum code. */
  lemma TheoryCodeInNeitherTable()
    ensures "ard339" !in CreditsMap && GetSubjectInfo("ard339").None?
  {
    var c := "ard339";
    assert NoEntry(c);
    NoEntryNotAKey(c);
    assert Strings.Upper(c) == "ARD339";
    NoCurriculumCode("ARD339");
    NotInCurriculum(c, 0);
    assert SemesterTable[0..] == SemesterTable;
  }

  /** A lab code in neither table gets its credits from the second pattern. */
  lemma LookupLabPattern()
    ensures GetSubjectCredits("ARM359") == Some(1)
  {
    LabCodeNotAKey();
    LabCodeNotInCurriculum();
    LabCodePattern();
  }

  /** A lower-case theory code in neither table gets its credits from the third pattern. */
  lemma LookupTheoryPattern()
    ensures GetSubjectCredits("ard339") == Some(4)
  {
    TheoryCodeInNeitherTable();
    TheoryCodePattern();
  }
}
