/**
 * Grade arithmetic of the results dashboard: the fixed mark bands, the CGPA
 * divisions, the credit-weighted SGPA and CGPA, the grade histogram and the
 * small lookups beside them.
 *
 * Marks, credits and grade points are integers; the averages are reals, and
 * `Math.round(x * 100) / 100` is the exact real rounding `Round2`.
 */
module Grading {
  import opened Wrappers
  import Strings

  // ---------------------------------------------------------------------------
  // The two tables

  /** One row of the mark scale: marks `minMarks..maxMarks` earn `grade`. */
  datatype GradeBand = GradeBand(minMarks: int, maxMarks: int, grade: string, gradePoint: int,
                                 name: string, color: string)

  const GradeScale: seq<GradeBand> := [
    GradeBand(90, 100, "O", 10, "Outstanding", "#10b981"),
    GradeBand(75, 89, "A+", 9, "Excellent", "#06b6d4"),
    GradeBand(65, 74, "A", 8, "Very Good", "#3b82f6"),
    GradeBand(55, 64, "B+", 7, "Good", "#8b5cf6"),
    GradeBand(50, 54, "B", 6, "Above Average", "#a855f7"),
    GradeBand(45, 49, "C", 5, "Average", "#f59e0b"),
    GradeBand(40, 44, "P", 4, "Pass", "#f97316"),
    GradeBand(0, 39, "F", 0, "Fail", "#ef4444")
  ]

  /** One row of the division scale, over CGPA values. */
  datatype DivisionBand = DivisionBand(minCgpa: real, maxCgpa: real, division: string)

  const DivisionScale: seq<DivisionBand> := [
    DivisionBand(10.0, 10.0, "Exemplary Performance"),
    DivisionBand(6.50, 9.99, "First Division"),
    DivisionBand(5.00, 6.49, "Second Division"),
    DivisionBand(4.00, 4.99, "Third Division"),
    DivisionBand(0.0, 3.99, "Fail")
  ]

  /** The colour `getGradeColor` falls back to. */
  const DefaultColor: string := "#6b7280"

  predicate InBand(b: GradeBand, marks: int) {
    b.minMarks <= marks <= b.maxMarks
  }

  predicate InDivision(d: DivisionBand, cgpa: real) {
    d.minCgpa <= cgpa <= d.maxCgpa
  }

  // ---------------------------------------------------------------------------
  // Marks to grade

  /** Index of the first band, at or after `i`, that contains `marks`: the early-return loop over the scale. */
  function FindBand(scale: seq<GradeBand>, marks: int, i: nat): (r: Option<nat>)
    requires i <= |scale|
    ensures r.Some? ==> i <= r.value < |scale| && InBand(scale[r.value], marks)
    ensures r.Some? ==> forall j :: i <= j < r.value ==> !InBand(scale[j], marks)
    ensures r.None? <==> forall j :: i <= j < |scale| ==> !InBand(scale[j], marks)
    decreases |scale| - i
  {
    if i == |scale| then None
    else if InBand(scale[i], marks) then Some(i)
    else FindBand(scale, marks, i + 1)
  }

  /** `marksToGrade`: the grade of the first band holding `marks`, `"F"` when none does. */
  function MarksToGrade(marks: int): (g: string)
    ensures g in GradeOrder
  {
    match FindBand(GradeScale, marks, 0)
    case Some(i) => GradeScale[i].grade
    case None => "F"
  }

  /** `marksToGradePoint`: the grade point of the first band holding `marks`, 0 when none does. */
  function MarksToGradePoint(marks: int): (p: int)
    ensures 0 <= p <= 10
    ensures p > 0 ==> 4 <= p
  {
    match FindBand(GradeScale, marks, 0)
    case Some(i) => GradeScale[i].gradePoint
    case None => 0
  }

  /** Index of the first band, at or after `i`, whose grade is `grade` (`GRADE_SCALE.find`). */
  function FindGrade(scale: seq<GradeBand>, grade: string, i: nat): (r: Option<nat>)
    requires i <= |scale|
    ensures r.Some? ==> i <= r.value < |scale| && scale[r.value].grade == grade
    ensures r.Some? ==> forall j :: i <= j < r.value ==> scale[j].grade != grade
    ensures r.None? <==> forall j :: i <= j < |scale| ==> scale[j].grade != grade
    decreases |scale| - i
  {
    if i == |scale| then None
    else if scale[i].grade == grade then Some(i)
    else FindGrade(scale, grade, i + 1)
  }

  /** The grade point the scale lists for a grade letter, 0 for a letter it does not list. */
  function PointOfGrade(grade: string): int {
    match FindGrade(GradeScale, grade, 0)
    case Some(i) => GradeScale[i].gradePoint
    case None => 0
  }

  /** For every mark in 0..100 exactly one band contains it: the bands are disjoint and cover the range. */
  lemma {:induction false} ExactlyOneBand(marks: int)
    requires 0 <= marks <= 100
    ensures exists i :: 0 <= i < |GradeScale| && InBand(GradeScale[i], marks)
    ensures forall i, j ::
      (0 <= i < |GradeScale| && 0 <= j < |GradeScale| && InBand(GradeScale[i], marks) && InBand(GradeScale[j], marks))
      ==> i == j
  {
    var r := FindBand(GradeScale, marks, 0);
    if r.None? {
      var k := if marks >= 90 then 0 else if marks >= 75 then 1 else if marks >= 65 then 2
        else if marks >= 55 then 3 else if marks >= 50 then 4 else if marks >= 45 then 5
        else if marks >= 40 then 6 else 7;
      assert InBand(GradeScale[k], marks);
      assert false;
    }
  }

  /** Marks outside every band (below 0 or above 100) get `"F"` and 0. */
  lemma {:induction false} OutOfRangeFails(marks: int)
    requires marks < 0 || marks > 100
    ensures MarksToGrade(marks) == "F"
    ensures MarksToGradePoint(marks) == 0
  {
    assert FindBand(GradeScale, marks, 0) == None;
  }

  /** The grade point of a mark is the one its grade letter is listed with. */
  lemma {:induction false} GradePointOfGrade(marks: int)
    ensures MarksToGradePoint(marks) == PointOfGrade(MarksToGrade(marks))
  {
    match FindBand(GradeScale, marks, 0)
    case Some(i) =>
      // grade letters are distinct, so the find by letter lands on the same band
      assert forall j :: 0 <= j < i ==> GradeScale[j].grade != GradeScale[i].grade;
      assert FindGrade(GradeScale, GradeScale[i].grade, 0) == Some(i);
    case None =>
      assert FindGrade(GradeScale, "F", 0) == Some(7);
  }

  /** More marks never earn fewer grade points within 0..100. */
  lemma {:induction false} GradePointMonotonic(a: int, b: int)
    requires 0 <= a <= b <= 100
    ensures MarksToGradePoint(a) <= MarksToGradePoint(b)
  {
    var ia := FindBand(GradeScale, a, 0);
    var ib := FindBand(GradeScale, b, 0);
    assert ia.Some? && ib.Some?;
  }

  // ---------------------------------------------------------------------------
  // Colour and division

  /**
   * `getGradeColor`: a listed grade letter gets its band's colour, which is
   * never the default grey; any other string gets the default.
   */
  function GradeColor(grade: string): (c: string)
    ensures forall i :: 0 <= i < |GradeScale| && GradeScale[i].grade == grade ==> c == GradeScale[i].color != DefaultColor
    ensures (forall i :: 0 <= i < |GradeScale| ==> GradeScale[i].grade != grade) ==> c == DefaultColor
  {
    match FindGrade(GradeScale, grade, 0)
    case Some(i) =>
      assert forall j :: 0 <= j < |GradeScale| && j != i ==> GradeScale[j].grade != GradeScale[i].grade;
      if GradeScale[i].color != "" then GradeScale[i].color else DefaultColor
    case None => DefaultColor
  }

  function FindDivision(scale: seq<DivisionBand>, cgpa: real, i: nat): (r: Option<nat>)
    requires i <= |scale|
    ensures r.Some? ==> i <= r.value < |scale| && InDivision(scale[r.value], cgpa)
    ensures r.Some? ==> forall j :: i <= j < r.value ==> !InDivision(scale[j], cgpa)
    ensures r.None? <==> forall j :: i <= j < |scale| ==> !InDivision(scale[j], cgpa)
    decreases |scale| - i
  {
    if i == |scale| then None
    else if InDivision(scale[i], cgpa) then Some(i)
    else FindDivision(scale, cgpa, i + 1)
  }

  /** `getCGPADivision`: the division of the first band holding `cgpa`, `"N/A"` when none does. */
  function CgpaDivision(cgpa: real): (d: string)
    ensures d == "N/A" <==> forall j :: 0 <= j < |DivisionScale| ==> !InDivision(DivisionScale[j], cgpa)
  {
    match FindDivision(DivisionScale, cgpa, 0)
    case Some(i) => DivisionScale[i].division
    case None => "N/A"
  }

  /** A value with at most two decimals, as the two averages produce. */
  predicate TwoDecimals(x: real) {
    (x * 100.0).Floor as real == x * 100.0
  }

  /** Every two-decimal CGPA in 0..10 falls in a division; the gaps of the table hold no such value. */
  lemma {:induction false} DivisionTotalOnTwoDecimals(cgpa: real)
    requires 0.0 <= cgpa <= 10.0 && TwoDecimals(cgpa)
    ensures CgpaDivision(cgpa) != "N/A"
  {
    var k := (cgpa * 100.0).Floor;
    assert cgpa == k as real / 100.0;
    if k == 1000 {
      assert InDivision(DivisionScale[0], cgpa);
    } else if k >= 650 {
      assert InDivision(DivisionScale[1], cgpa);
    } else if k >= 500 {
      assert InDivision(DivisionScale[2], cgpa);
    } else if k >= 400 {
      assert InDivision(DivisionScale[3], cgpa);
    } else {
      assert InDivision(DivisionScale[4], cgpa);
    }
  }

  /** An unrounded value inside a gap of the table has no division. */
  lemma {:induction false} DivisionGap()
    ensures CgpaDivision(9.995) == "N/A"
    ensures CgpaDivision(6.495) == "N/A"
  {
  }

  // ---------------------------------------------------------------------------
  // Rounding to two decimals

  /** `Math.round(x * 100) / 100` over the reals: halves round up. */
  function Round2(x: real): (r: real)
    ensures TwoDecimals(r)
    ensures x - 0.005 < r <= x + 0.005
  {
    var k := (x * 100.0 + 0.5).Floor;
    assert (k as real / 100.0) * 100.0 == k as real;
    k as real / 100.0
  }

  lemma {:induction false} IntegersHaveTwoDecimals(n: int)
    ensures TwoDecimals(n as real)
  {
    assert n as real * 100.0 == (100 * n) as real;
  }

  /** Rounding keeps a value between two two-decimal bounds that enclose it. */
  lemma {:induction false} Round2Within(x: real, lo: real, hi: real)
    requires TwoDecimals(lo) && TwoDecimals(hi)
    requires lo <= x <= hi
    ensures lo <= Round2(x) <= hi
  {
    var k := (x * 100.0 + 0.5).Floor;
    var kl := (lo * 100.0).Floor;
    var kh := (hi * 100.0).Floor;
    assert kl as real <= x * 100.0 + 0.5;
    assert kl <= k;
    assert k as real <= x * 100.0 + 0.5 <= kh as real + 0.5;
    assert k <= kh;
  }

  // ---------------------------------------------------------------------------
  // SGPA

  /**
   * One subject of a semester's results. A supplied `gradePoint` or `grade`
   * (each may be absent) takes precedence over the one derived from the marks.
   */
  datatype Subject = Subject(totalMarks: int, credits: int, gradePoint: Option<int>, grade: Option<string>)

  /** The SGPA record a semester contributes: its average and the credits it counted. */
  datatype SemesterGpa = SemesterGpa(sgpa: real, totalCredits: int)

  /** `subject.grade_point ?? marksToGradePoint(subject.total_marks)`. */
  function EffectivePoint(s: Subject): int {
    s.gradePoint.GetOr(MarksToGradePoint(s.totalMarks))
  }

  /** A subject enters the SGPA when it was passed and carries credit. */
  predicate Counted(s: Subject) {
    EffectivePoint(s) > 0 && s.credits > 0
  }

  /** Sum of the credits of the counted subjects. */
  function CountedCredits(subjects: seq<Subject>): (c: int)
    ensures c >= 0
  {
    if subjects == [] then 0
    else
      var last := subjects[|subjects| - 1];
      CountedCredits(subjects[..|subjects| - 1]) + (if Counted(last) then last.credits else 0)
  }

  /** Sum of credits times grade point over the counted subjects. */
  function CreditPoints(subjects: seq<Subject>): int {
    if subjects == [] then 0
    else
      var last := subjects[|subjects| - 1];
      CreditPoints(subjects[..|subjects| - 1])
        + (if Counted(last) then last.credits * EffectivePoint(last) else 0)
  }

  /** The SGPA before rounding: the credit-weighted mean grade point, 0 when nothing counts. */
  function RawSgpa(subjects: seq<Subject>): (sgpa: real)
    ensures CountedCredits(subjects) > 0 ==> sgpa * CountedCredits(subjects) as real == CreditPoints(subjects) as real
    ensures CountedCredits(subjects) <= 0 ==> sgpa == 0.0
  {
    var c := CountedCredits(subjects);
    if c > 0 then CreditPoints(subjects) as real / c as real else 0.0
  }

  /** `calculateSGPA`: accumulate over the subjects, then round the mean. */
  method CalculateSgpa(subjects: seq<Subject>) returns (r: SemesterGpa)
    ensures r.totalCredits == CountedCredits(subjects)
    ensures r.sgpa == Round2(RawSgpa(subjects))
    ensures subjects == [] ==> r == SemesterGpa(0.0, 0)
  {
    if |subjects| == 0 {
      assert Round2(0.0) == 0.0;
      return SemesterGpa(0.0, 0);
    }
    var totalCreditPoints := 0;
    var totalCredits := 0;
    for i := 0 to |subjects|
      invariant totalCreditPoints == CreditPoints(subjects[..i])
      invariant totalCredits == CountedCredits(subjects[..i])
    {
      assert subjects[..i + 1][..i] == subjects[..i];
      var gradePoint := EffectivePoint(subjects[i]);
      var credits := subjects[i].credits;
      if gradePoint > 0 && credits > 0 {
        totalCreditPoints := totalCreditPoints + credits * gradePoint;
        totalCredits := totalCredits + credits;
      }
    }
    assert subjects[..|subjects|] == subjects;
    var sgpa := if totalCredits > 0 then totalCreditPoints as real / totalCredits as real else 0.0;
    r := SemesterGpa(Round2(sgpa), totalCredits);
  }

  lemma {:induction false} MulMono(a: real, b: real, c: real)
    requires a <= b && c >= 0.0
    ensures a * c <= b * c
  {
  }

  /** A total between `lo` and `hi` times a positive weight has its mean between `lo` and `hi`. */
  lemma {:induction false} MeanBetween(total: real, weight: real, lo: real, hi: real)
    requires weight > 0.0 && lo * weight <= total <= hi * weight
    ensures lo <= total / weight <= hi
  {
    assert lo == (lo * weight) / weight;
    assert hi == (hi * weight) / weight;
  }

  lemma {:induction false} MeanBetweenInt(total: int, weight: int, lo: int, hi: int)
    requires weight > 0 && lo * weight <= total <= hi * weight
    ensures lo as real <= total as real / weight as real <= hi as real
  {
    var w := weight as real;
    assert (lo * weight) as real == lo as real * w;
    assert (hi * weight) as real == hi as real * w;
    MeanBetween(total as real, w, lo as real, hi as real);
  }

  /** One accumulation step keeps the credit points between the two bounds. */
  lemma {:induction false} StepBetween(lo: int, hi: int, credits: int, points: int, c: int, p: int)
    requires lo * credits <= points <= hi * credits
    requires c >= 0 && lo <= p <= hi
    ensures lo * (credits + c) <= points + c * p <= hi * (credits + c)
  {
    assert lo * c <= p * c <= hi * c;
    assert lo * (credits + c) == lo * credits + lo * c;
    assert hi * (credits + c) == hi * credits + hi * c;
  }

  /** When every counted subject's grade point lies in `lo..hi`, the credit points lie between `lo` and `hi` times the credits. */
  lemma {:induction false} CreditPointsBetween(subjects: seq<Subject>, lo: int, hi: int)
    requires forall i :: 0 <= i < |subjects| && Counted(subjects[i]) ==> lo <= EffectivePoint(subjects[i]) <= hi
    ensures lo * CountedCredits(subjects) <= CreditPoints(subjects) <= hi * CountedCredits(subjects)
  {
    if subjects != [] {
      var rest := subjects[..|subjects| - 1];
      var last := subjects[|subjects| - 1];
      assert forall i :: 0 <= i < |rest| ==> rest[i] == subjects[i];
      CreditPointsBetween(rest, lo, hi);
      if Counted(last) {
        StepBetween(lo, hi, CountedCredits(rest), CreditPoints(rest), last.credits, EffectivePoint(last));
      }
    }
  }

  /** The unrounded SGPA lies between the smallest and largest grade point of the counted subjects. */
  lemma {:induction false} SgpaBetween(subjects: seq<Subject>, lo: int, hi: int)
    requires forall i :: 0 <= i < |subjects| && Counted(subjects[i]) ==> lo <= EffectivePoint(subjects[i]) <= hi
    requires CountedCredits(subjects) > 0
    ensures lo as real <= RawSgpa(subjects) <= hi as real
  {
    CreditPointsBetween(subjects, lo, hi);
    MeanBetweenInt(CreditPoints(subjects), CountedCredits(subjects), lo, hi);
  }

  /** A supplied grade point, if any, is one the scale can produce. */
  predicate PointOnScale(s: Subject) {
    s.gradePoint.None? || s.gradePoint.value == 0 || 4 <= s.gradePoint.value <= 10
  }

  /**
   * With grade points taken from the marks (or supplied on the scale), the
   * SGPA, rounded or not, is 0 when nothing counts and lies in 4..10 otherwise.
   */
  lemma {:induction false} SgpaRange(subjects: seq<Subject>)
    requires forall i :: 0 <= i < |subjects| ==> PointOnScale(subjects[i])
    ensures CountedCredits(subjects) == 0 ==> RawSgpa(subjects) == 0.0 && Round2(RawSgpa(subjects)) == 0.0
    ensures CountedCredits(subjects) > 0 ==> 4.0 <= RawSgpa(subjects) <= 10.0
    ensures CountedCredits(subjects) > 0 ==> 4.0 <= Round2(RawSgpa(subjects)) <= 10.0
  {
    forall i | 0 <= i < |subjects| && Counted(subjects[i])
      ensures 4 <= EffectivePoint(subjects[i]) <= 10
    {
      assert PointOnScale(subjects[i]);
      var p := MarksToGradePoint(subjects[i].totalMarks);
    }
    if CountedCredits(subjects) > 0 {
      SgpaBetween(subjects, 4, 10);
      IntegersHaveTwoDecimals(4);
      IntegersHaveTwoDecimals(10);
      Round2Within(RawSgpa(subjects), 4.0, 10.0);
    } else {
      assert Round2(0.0) == 0.0;
    }
  }

  /** A supplied grade point of 0 keeps a subject out of the SGPA even when its marks pass. */
  lemma {:induction false} SuppliedZeroExcludes(s: Subject)
    requires s.gradePoint == Some(0)
    ensures !Counted(s)
    ensures CountedCredits([s]) == 0 && CreditPoints([s]) == 0
  {
  }

  // ---------------------------------------------------------------------------
  // CGPA

  /** Sum of the semesters' credits. */
  function SemesterCredits(semesters: seq<SemesterGpa>): int {
    if semesters == [] then 0
    else SemesterCredits(semesters[..|semesters| - 1]) + semesters[|semesters| - 1].totalCredits
  }

  /** Sum of SGPA times credits over the semesters. */
  function SemesterPoints(semesters: seq<SemesterGpa>): real {
    if semesters == [] then 0.0
    else
      var last := semesters[|semesters| - 1];
      SemesterPoints(semesters[..|semesters| - 1]) + last.sgpa * last.totalCredits as real
  }

  /** The CGPA before rounding: the credit-weighted mean SGPA, 0 when the credits do not add up to a positive total. */
  function RawCgpa(semesters: seq<SemesterGpa>): (cgpa: real)
    ensures SemesterCredits(semesters) > 0 ==> cgpa * SemesterCredits(semesters) as real == SemesterPoints(semesters)
    ensures SemesterCredits(semesters) <= 0 ==> cgpa == 0.0
  {
    var c := SemesterCredits(semesters);
    if c > 0 then SemesterPoints(semesters) / c as real else 0.0
  }

  /** `calculateCGPA`: accumulate over the semesters, then round the mean. */
  method CalculateCgpa(semesters: seq<SemesterGpa>) returns (r: real)
    ensures r == Round2(RawCgpa(semesters))
    ensures semesters == [] || SemesterCredits(semesters) <= 0 ==> r == 0.0
  {
    assert Round2(0.0) == 0.0;
    if |semesters| == 0 {
      return 0.0;
    }
    var totalCreditPoints := 0.0;
    var totalCredits := 0;
    for i := 0 to |semesters|
      invariant totalCreditPoints == SemesterPoints(semesters[..i])
      invariant totalCredits == SemesterCredits(semesters[..i])
    {
      assert semesters[..i + 1][..i] == semesters[..i];
      totalCreditPoints := totalCreditPoints + semesters[i].sgpa * semesters[i].totalCredits as real;
      totalCredits := totalCredits + semesters[i].totalCredits;
    }
    assert semesters[..|semesters|] == semesters;
    r := if totalCredits > 0 then Round2(totalCreditPoints / totalCredits as real) else 0.0;
  }

  /** Semesters that carry credit have an SGPA in `lo..hi`, and none carries negative credit. */
  predicate SgpasBetween(semesters: seq<SemesterGpa>, lo: real, hi: real) {
    forall i :: 0 <= i < |semesters| ==>
      semesters[i].totalCredits >= 0 && (semesters[i].totalCredits > 0 ==> lo <= semesters[i].sgpa <= hi)
  }

  lemma {:induction false} SemesterPointsBetween(semesters: seq<SemesterGpa>, lo: real, hi: real)
    requires SgpasBetween(semesters, lo, hi)
    ensures SemesterCredits(semesters) >= 0
    ensures lo * SemesterCredits(semesters) as real <= SemesterPoints(semesters) <= hi * SemesterCredits(semesters) as real
  {
    if semesters != [] {
      var rest := semesters[..|semesters| - 1];
      var last := semesters[|semesters| - 1];
      assert forall i :: 0 <= i < |rest| ==> rest[i] == semesters[i];
      SemesterPointsBetween(rest, lo, hi);
      var c := last.totalCredits as real;
      assert SemesterCredits(semesters) as real == SemesterCredits(rest) as real + c;
      RealStepBetween(lo, hi, SemesterCredits(rest) as real, SemesterPoints(rest), c, last.sgpa);
    }
  }

  /** One semester's step keeps the SGPA points between the two bounds. */
  lemma {:induction false} RealStepBetween(lo: real, hi: real, credits: real, points: real, c: real, sgpa: real)
    requires lo * credits <= points <= hi * credits
    requires c >= 0.0 && (c > 0.0 ==> lo <= sgpa <= hi)
    ensures lo * (credits + c) <= points + sgpa * c <= hi * (credits + c)
  {
    if c > 0.0 {
      MulMono(lo, sgpa, c);
      MulMono(sgpa, hi, c);
    }
  }

  /** The unrounded CGPA lies between the smallest and largest SGPA of the semesters that carry credit. */
  lemma {:induction false} CgpaBetween(semesters: seq<SemesterGpa>, lo: real, hi: real)
    requires SgpasBetween(semesters, lo, hi)
    requires SemesterCredits(semesters) > 0
    ensures lo <= RawCgpa(semesters) <= hi
  {
    SemesterPointsBetween(semesters, lo, hi);
    MeanBetween(SemesterPoints(semesters), SemesterCredits(semesters) as real, lo, hi);
  }

  /** The rounded CGPA of two-decimal SGPAs in `lo..hi` stays in `lo..hi`, so it always has a division when those lie in 0..10. */
  lemma {:induction false} CgpaHasDivision(semesters: seq<SemesterGpa>, lo: real, hi: real)
    requires SgpasBetween(semesters, lo, hi)
    requires TwoDecimals(lo) && TwoDecimals(hi) && 0.0 <= lo && hi <= 10.0
    ensures CgpaDivision(Round2(RawCgpa(semesters))) != "N/A"
  {
    var raw := RawCgpa(semesters);
    if SemesterCredits(semesters) > 0 {
      CgpaBetween(semesters, lo, hi);
      Round2Within(raw, lo, hi);
    } else {
      assert Round2(raw) == 0.0;
    }
    DivisionTotalOnTwoDecimals(Round2(raw));
  }

  // ---------------------------------------------------------------------------
  // Grade histogram

  /** The order in which `getGradeDistribution` emits grades. */
  const GradeOrder: seq<string> := ["O", "A+", "A", "B+", "B", "C", "P", "F"]

  datatype GradeCount = GradeCount(grade: string, count: int, color: string)

  /** `subject.grade ?? marksToGrade(subject.total_marks)`. */
  function GradeOf(s: Subject): string {
    s.grade.GetOr(MarksToGrade(s.totalMarks))
  }

  function Grades(subjects: seq<Subject>): (gs: seq<string>)
    ensures |gs| == |subjects|
    ensures forall i :: 0 <= i < |subjects| ==> gs[i] == GradeOf(subjects[i])
  {
    seq(|subjects|, i requires 0 <= i < |subjects| => GradeOf(subjects[i]))
  }

  /** The count of every grade that occurs in `gs`. */
  function Tally(gs: seq<string>): (t: map<string, int>)
    ensures forall g :: g in t <==> g in multiset(gs)
    ensures forall g :: g in t ==> t[g] == multiset(gs)[g] >= 1
  {
    map g | g in multiset(gs) :: multiset(gs)[g]
  }

  /** `gradeOrder.filter(has).map(...)`: one entry per grade of `order` that the tally holds. */
  function Emit(order: seq<string>, dist: map<string, int>): seq<GradeCount> {
    if order == [] then []
    else
      var g := order[0];
      (if g in dist then [GradeCount(g, dist[g], GradeColor(g))] else []) + Emit(order[1..], dist)
  }

  /**
   * The histogram `getGradeDistribution` returns: each entry is one of the
   * eight grades, with the number of subjects that have it and its colour.
   */
  function Histogram(subjects: seq<Subject>): (r: seq<GradeCount>)
    ensures forall i :: 0 <= i < |r| ==>
      && r[i].grade in GradeOrder
      && r[i].count == multiset(Grades(subjects))[r[i].grade] >= 1
      && r[i].color == GradeColor(r[i].grade)
  {
    EmitEntries(GradeOrder, Tally(Grades(subjects)));
    Emit(GradeOrder, Tally(Grades(subjects)))
  }

  lemma {:induction false} TallySnoc(gs: seq<string>, g: string)
    ensures Tally(gs + [g]) == Tally(gs)[g := (if g in Tally(gs) then Tally(gs)[g] else 0) + 1]
  {
    assert multiset(gs + [g]) == multiset(gs) + multiset{g};
  }

  /** `getGradeDistribution`: count grades in a map, then emit them in grade order. */
  method GradeDistribution(subjects: seq<Subject>) returns (r: seq<GradeCount>)
    ensures r == Histogram(subjects)
  {
    var distribution: map<string, int> := map[];
    for i := 0 to |subjects|
      invariant distribution == Tally(Grades(subjects)[..i])
    {
      var grade := GradeOf(subjects[i]);
      assert Grades(subjects)[..i + 1] == Grades(subjects)[..i] + [grade];
      TallySnoc(Grades(subjects)[..i], grade);
      distribution := distribution[grade := (if grade in distribution then distribution[grade] else 0) + 1];
    }
    assert Grades(subjects)[..|subjects|] == Grades(subjects);
    r := Emit(GradeOrder, distribution);
  }

  /** Position of a grade in `order`. */
  function Rank(order: seq<string>, g: string): (k: nat)
    requires g in order
    ensures k < |order| && order[k] == g
  {
    if order[0] == g then 0 else 1 + Rank(order[1..], g)
  }

  predicate Distinct(order: seq<string>) {
    forall i, j :: 0 <= i < j < |order| ==> order[i] != order[j]
  }

  lemma {:induction false} GradeOrderDistinct()
    ensures Distinct(GradeOrder)
  {
  }

  /** Number of positions of `gs` whose grade is one of `order`. */
  function CountIn(gs: seq<string>, order: seq<string>): nat {
    if gs == [] then 0 else (if gs[0] in order then 1 else 0) + CountIn(gs[1..], order)
  }

  function SumCounts(r: seq<GradeCount>): int {
    if r == [] then 0 else r[0].count + SumCounts(r[1..])
  }

  lemma {:induction false} CountInCons(gs: seq<string>, g: string, order: seq<string>)
    requires g !in order
    ensures CountIn(gs, [g] + order) == multiset(gs)[g] + CountIn(gs, order)
  {
    if gs != [] {
      CountInCons(gs[1..], g, order);
      assert gs == [gs[0]] + gs[1..];
      assert multiset(gs) == multiset{gs[0]} + multiset(gs[1..]);
    }
  }

  lemma {:induction false} CountInEmpty(gs: seq<string>)
    ensures CountIn(gs, []) == 0
  {
    if gs != [] {
      CountInEmpty(gs[1..]);
    }
  }

  /** Every entry of `Emit` is a grade of `order` that `dist` holds, with its count and colour. */
  lemma {:induction false} EmitEntries(order: seq<string>, dist: map<string, int>)
    ensures forall i :: 0 <= i < |Emit(order, dist)| ==>
      var e := Emit(order, dist)[i];
      e.grade in order && e.grade in dist && e.count == dist[e.grade] && e.color == GradeColor(e.grade)
  {
    if order != [] {
      EmitEntries(order[1..], dist);
      var g := order[0];
      var head := if g in dist then [GradeCount(g, dist[g], GradeColor(g))] else [];
      assert Emit(order, dist) == head + Emit(order[1..], dist);
      assert forall x :: x in order[1..] ==> x in order;
    }
  }

  /** A grade of `order` that `dist` holds is emitted, at the position returned. */
  lemma {:induction false} EmitPosition(order: seq<string>, dist: map<string, int>, g: string) returns (i: nat)
    requires g in order && g in dist
    ensures i < |Emit(order, dist)| && Emit(order, dist)[i].grade == g
  {
    var h := order[0];
    var head := if h in dist then [GradeCount(h, dist[h], GradeColor(h))] else [];
    assert Emit(order, dist) == head + Emit(order[1..], dist);
    if g == h {
      i := 0;
      assert Emit(order, dist)[0] == head[0];
    } else {
      assert g in order[1..];
      var j := EmitPosition(order[1..], dist, g);
      i := |head| + j;
      assert Emit(order, dist)[i] == Emit(order[1..], dist)[j];
    }
  }

  /** A grade of `order` is emitted exactly when `dist` holds it. */
  lemma {:induction false} EmitListed(order: seq<string>, dist: map<string, int>, g: string)
    requires g in order
    ensures (exists i :: 0 <= i < |Emit(order, dist)| && Emit(order, dist)[i].grade == g) <==> g in dist
  {
    if g in dist {
      var i := EmitPosition(order, dist, g);
      assert Emit(order, dist)[i].grade == g;
    } else {
      EmitEntries(order, dist);
    }
  }

  /** Grades emitted in the order of `order`: the ranks of the entries strictly increase. */
  predicate RanksIncrease(order: seq<string>, r: seq<GradeCount>) {
    && (forall i :: 0 <= i < |r| ==> r[i].grade in order)
    && (forall i, j :: 0 <= i < j < |r| ==> Rank(order, r[i].grade) < Rank(order, r[j].grade))
  }

  /** Over distinct grades, a grade of the rest ranks one place later in the whole. */
  lemma {:induction false} RankShift(order: seq<string>, x: string)
    requires order != [] && Distinct(order) && x in order[1..]
    ensures x in order && Rank(order, x) == 1 + Rank(order[1..], x)
  {
    var k := Rank(order[1..], x);
    assert order[k + 1] == x;
    assert order[0] != order[k + 1];
  }

  /**
   * Putting the first grade of `order` in front of entries ranked within the
   * rest, each of which ranks one place later in the whole, keeps the ranks
   * increasing.
   */
  lemma {:induction false} RanksIncreaseCons(order: seq<string>, head: seq<GradeCount>, tail: seq<GradeCount>)
    requires order != []
    requires |head| <= 1 && (head != [] ==> head[0].grade == order[0])
    requires RanksIncrease(order[1..], tail)
    requires forall i :: 0 <= i < |tail| ==>
      tail[i].grade in order && Rank(order, tail[i].grade) == 1 + Rank(order[1..], tail[i].grade)
    ensures RanksIncrease(order, head + tail)
  {
    var r := head + tail;
    forall i | 0 <= i < |r|
      ensures r[i].grade in order
    {
      if i >= |head| { assert r[i] == tail[i - |head|]; }
    }
    forall i, j | 0 <= i < j < |r|
      ensures Rank(order, r[i].grade) < Rank(order, r[j].grade)
    {
      var b := j - |head|;
      assert r[j] == tail[b];
      if i >= |head| {
        var a := i - |head|;
        assert r[i] == tail[a];
      } else {
        assert r[i].grade == order[0];
      }
    }
  }

  /** Over distinct grades, `Emit` keeps their order, so no grade is emitted twice. */
  lemma {:induction false} EmitOrdered(order: seq<string>, dist: map<string, int>)
    requires Distinct(order)
    ensures RanksIncrease(order, Emit(order, dist))
  {
    if order != [] {
      var g := order[0];
      var rest := order[1..];
      assert Distinct(rest);
      EmitOrdered(rest, dist);
      var head := if g in dist then [GradeCount(g, dist[g], GradeColor(g))] else [];
      var tail := Emit(rest, dist);
      assert Emit(order, dist) == head + tail;
      forall i | 0 <= i < |tail|
        ensures tail[i].grade in order && Rank(order, tail[i].grade) == 1 + Rank(rest, tail[i].grade)
      {
        RankShift(order, tail[i].grade);
      }
      RanksIncreaseCons(order, head, tail);
    }
  }

  /** Over distinct grades, the emitted counts add up to the positions whose grade is one of them. */
  lemma {:induction false} EmitSum(order: seq<string>, gs: seq<string>)
    requires Distinct(order)
    ensures SumCounts(Emit(order, Tally(gs))) == CountIn(gs, order)
  {
    var t := Tally(gs);
    if order == [] {
      CountInEmpty(gs);
    } else {
      var g := order[0];
      var rest := order[1..];
      assert Distinct(rest);
      EmitSum(rest, gs);
      var head := if g in t then [GradeCount(g, t[g], GradeColor(g))] else [];
      var tail := Emit(rest, t);
      assert Emit(order, t) == head + tail;
      assert order == [g] + rest;
      CountInCons(gs, g, rest);
      if head != [] {
        assert (head + tail)[1..] == tail;
        assert SumCounts(head + tail) == t[g] + SumCounts(tail);
      } else {
        assert head + tail == tail;
        assert multiset(gs)[g] == 0;
      }
    }
  }

  /**
   * The histogram lists grades in the order O, A+, A, B+, B, C, P, F, each at
   * most once and each with a count of at least one, the number of subjects
   * with that grade.
   */
  lemma {:induction false} HistogramOrderAndCounts(subjects: seq<Subject>)
    ensures var r := Histogram(subjects);
      && (forall i :: 0 <= i < |r| ==> r[i].grade in GradeOrder && r[i].count >= 1)
      && (forall i :: 0 <= i < |r| ==> r[i].count == multiset(Grades(subjects))[r[i].grade])
      && (forall i, j :: 0 <= i < j < |r| ==> Rank(GradeOrder, r[i].grade) < Rank(GradeOrder, r[j].grade))
      && (forall i, j :: 0 <= i < j < |r| ==> r[i].grade != r[j].grade)
  {
    var t := Tally(Grades(subjects));
    GradeOrderDistinct();
    EmitEntries(GradeOrder, t);
    EmitOrdered(GradeOrder, t);
  }

  /** A grade of the eight is listed exactly when some subject has it. */
  lemma {:induction false} HistogramListsPresentGrades(subjects: seq<Subject>, g: string)
    requires g in GradeOrder
    ensures (exists i :: 0 <= i < |Histogram(subjects)| && Histogram(subjects)[i].grade == g)
        <==> exists k :: 0 <= k < |subjects| && GradeOf(subjects[k]) == g
  {
    var gs := Grades(subjects);
    var t := Tally(gs);
    EmitListed(GradeOrder, t, g);
    assert Histogram(subjects) == Emit(GradeOrder, t);
    assert g in t <==> g in multiset(gs);
    if g in multiset(gs) {
      assert g in gs;
      var k :| 0 <= k < |gs| && gs[k] == g;
      assert GradeOf(subjects[k]) == g;
    }
    if exists k :: 0 <= k < |subjects| && GradeOf(subjects[k]) == g {
      var k :| 0 <= k < |subjects| && GradeOf(subjects[k]) == g;
      assert gs[k] == g;
      assert g in multiset(gs);
      assert g in t;
    }
  }

  /** The histogram's counts add up to the number of subjects whose grade is one of the eight. */
  lemma {:induction false} HistogramSum(subjects: seq<Subject>)
    ensures SumCounts(Histogram(subjects)) == CountIn(Grades(subjects), GradeOrder)
  {
    GradeOrderDistinct();
    EmitSum(GradeOrder, Grades(subjects));
  }

  // ---------------------------------------------------------------------------
  // Best grade and semester names

  /** `Math.max` over a non-empty list of marks. */
  function MaxOf(ms: seq<int>): (m: int)
    requires |ms| > 0
    ensures m in ms
    ensures forall i :: 0 <= i < |ms| ==> ms[i] <= m
  {
    if |ms| == 1 then ms[0]
    else
      var rest := MaxOf(ms[1..]);
      if ms[0] >= rest then ms[0] else rest
  }

  function MarksOf(subjects: seq<Subject>): (ms: seq<int>)
    ensures |ms| == |subjects|
    ensures forall i :: 0 <= i < |subjects| ==> ms[i] == subjects[i].totalMarks
  {
    seq(|subjects|, i requires 0 <= i < |subjects| => subjects[i].totalMarks)
  }

  /** `getBestGrade`: `"N/A"` for no subjects, else the grade of the highest marks. */
  function BestGrade(subjects: seq<Subject>): (g: string)
    ensures subjects == [] <==> g == "N/A"
    ensures subjects != [] ==> exists k :: 0 <= k < |subjects| && g == MarksToGrade(subjects[k].totalMarks)
  {
    if |subjects| == 0 then "N/A"
    else
      var m := MaxOf(MarksOf(subjects));
      assert exists k :: 0 <= k < |subjects| && m == subjects[k].totalMarks;
      MarksToGrade(m)
  }

  /** With marks within 0..100, no subject's grade point exceeds that of the best grade. */
  lemma {:induction false} BestGradeDominates(subjects: seq<Subject>)
    requires subjects != []
    requires forall i :: 0 <= i < |subjects| ==> 0 <= subjects[i].totalMarks <= 100
    ensures forall i :: 0 <= i < |subjects| ==>
      MarksToGradePoint(subjects[i].totalMarks) <= PointOfGrade(BestGrade(subjects))
  {
    var m := MaxOf(MarksOf(subjects));
    GradePointOfGrade(m);
    forall i | 0 <= i < |subjects|
      ensures MarksToGradePoint(subjects[i].totalMarks) <= MarksToGradePoint(m)
    {
      GradePointMonotonic(subjects[i].totalMarks, m);
    }
  }

  const SemesterNames: seq<string> := [
    "", "First Semester", "Second Semester", "Third Semester", "Fourth Semester", "Fifth Semester",
    "Sixth Semester", "Seventh Semester", "Eighth Semester", "Ninth Semester", "Tenth Semester"
  ]

  /** `getSemesterName`: the listed name, or `Semester <n>` where the list has none (or an empty one). */
  function SemesterName(n: int): (name: string)
    ensures 1 <= n <= 10 ==> name == SemesterNames[n]
    ensures !(1 <= n <= 10) ==> name == "Semester " + Strings.IntToString(n)
  {
    if 0 <= n < |SemesterNames| && SemesterNames[n] != "" then SemesterNames[n]
    else "Semester " + Strings.IntToString(n)
  }

  /** The listed names differ in their first three letters, and none starts like `Semester`. */
  lemma {:induction false} NamePrefixesDiffer()
    ensures forall n :: 1 <= n <= 10 ==> |SemesterNames[n]| >= 3 && SemesterNames[n][..3] != "Sem"
    ensures forall m, n :: 1 <= m < n <= 10 ==> SemesterNames[m][..3] != SemesterNames[n][..3]
  {
    var prefixes := ["Fir", "Sec", "Thi", "Fou", "Fif", "Six", "Sev", "Eig", "Nin", "Ten"];
    assert forall n :: 1 <= n <= 10 ==> SemesterNames[n][..3] == prefixes[n - 1];
  }

  /** Different semester numbers get different names. */
  lemma {:induction false} SemesterNameInjective(a: int, b: int)
    requires SemesterName(a) == SemesterName(b)
    ensures a == b
  {
    var na := SemesterName(a);
    var nb := SemesterName(b);
    NamePrefixesDiffer();
    if 1 <= a <= 10 && 1 <= b <= 10 {
      assert na[..3] == nb[..3];
    } else if 1 <= a <= 10 || 1 <= b <= 10 {
      // a listed name against `Semester <n>`: their first three letters differ
      assert false;
    } else {
      assert na[9..] == Strings.IntToString(a);
      assert nb[9..] == Strings.IntToString(b);
      Strings.IntToStringInjective(a, b);
    }
  }
}
