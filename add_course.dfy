/** The weight check and normalisation of scripts/add-course.ts: after a course is scraped,
    its sections are checked, and only when some section's positive weights are off 100 by
    the tolerance or more are they normalised (with the same per-section body as the
    normaliser script) and checked once more.

    `courses` is the list of sections the queries return, each as its rows in `order_index`
    order; every query filters on `weight > 0`, which is `Positive`. */
module AddCourse {
  import opened Common
  import opened NormalizeWeights
  import opened NormalizeProps

  /** `{ needsFix, total }` of `checkCourseWeights`. */
  datatype WeightCheck = WeightCheck(needsFix: bool, total: real)

  /** `Math.max` */
  function Max(x: real, y: real): (r: real)
    ensures r >= x && r >= y && (r == x || r == y)
  {
    if x >= y then x else y
  }

  /** A section with positive weights whose total is at least the tolerance away from 100. */
  predicate Offending(rows: seq<Stored>) {
    Positive(rows) != [] && !Within(Total(Positive(rows)))
  }

  /** `needsFix` and `maxTotal` after the sections seen so far (lines 24-45). */
  function CheckSpec(courses: seq<seq<Stored>>): WeightCheck {
    if courses == [] then WeightCheck(false, 0.0)
    else
      var c := CheckSpec(courses[..|courses| - 1]);
      var rows := courses[|courses| - 1];
      if Offending(rows) then WeightCheck(true, Max(c.total, Total(Positive(rows)))) else c
  }

  /** What the second check reads once the normaliser has run: a rewritten section has its
      new weights, any other section its old rows. */
  function After(courses: seq<seq<Stored>>, results: seq<SectionResult>): (r: seq<seq<Stored>>)
    requires |results| == |courses|
    ensures |r| == |courses|
    ensures forall i :: 0 <= i < |courses| && !results[i].Rewritten? ==> r[i] == courses[i]
    ensures forall i :: 0 <= i < |courses| && results[i].Rewritten? ==> r[i] == results[i].weights
  {
    seq(|courses|, i requires 0 <= i < |courses| =>
      if results[i].Rewritten? then results[i].weights else courses[i])
  }

  // ---------------------------------------------------------------------------
  // Methods
  // ---------------------------------------------------------------------------

  /** `checkCourseWeights` (lines 11-48) on the fetched sections. */
  method CheckCourseWeights(courses: seq<seq<Stored>>) returns (c: WeightCheck)
    ensures c == CheckSpec(courses)
  {
    if |courses| == 0 {
      return WeightCheck(false, 0.0);
    }
    var needsFix := false;
    var maxTotal := 0.0;
    for k := 0 to |courses|
      invariant WeightCheck(needsFix, maxTotal) == CheckSpec(courses[..k])
    {
      assert courses[..k + 1][..k] == courses[..k];
      var assessments := Positive(courses[k]);
      if |assessments| > 0 {
        var total := Total(assessments);
        if Abs(total - 100.0) >= Tolerance {
          needsFix := true;
          maxTotal := Max(maxTotal, total);
        }
      }
    }
    assert courses[..|courses|] == courses;
    c := WeightCheck(needsFix, maxTotal);
  }

  /** `normalizeCourseWeights` (lines 53-188): every fetched section goes through the body of
      lines 71-185, which is `NormalizeCourse`, and `totalFixed` counts the sections that end
      at 100. */
  method NormalizeCourseWeights(courses: seq<seq<Stored>>) returns (results: seq<SectionResult>, totalFixed: nat)
    ensures |results| == |courses|
    ensures forall i :: 0 <= i < |courses| ==> results[i] == NormalizeSection(courses[i])
    ensures totalFixed == CountFixed(results)
  {
    results := [];
    totalFixed := 0;
    if |courses| == 0 {
      return;
    }
    for c := 0 to |courses|
      invariant |results| == c
      invariant forall i :: 0 <= i < c ==> results[i] == NormalizeSection(courses[i])
      invariant totalFixed == CountFixed(results)
    {
      var result := NormalizeCourse(courses[c]);
      CountFixedPush(results, result);
      if Fixed(result) {
        totalFixed := totalFixed + 1;
      }
      results := results + [result];
    }
  }

  lemma CountFixedPush(results: seq<SectionResult>, r: SectionResult)
    ensures CountFixed(results + [r]) == CountFixed(results) + (if Fixed(r) then 1 else 0)
  {
    assert (results + [r])[..|results|] == results;
  }

  /** `addCourse` (lines 193-225) once the course is scraped: the first check, and only when
      it asks for a fix, the normalisation and a second check of what it wrote. That second
      check finds nothing left to fix. */
  method AddCourse(courses: seq<seq<Stored>>)
    returns (first: WeightCheck, normalized: Option<seq<SectionResult>>, second: Option<WeightCheck>)
    ensures first == CheckSpec(courses)
    ensures normalized.Some? <==> first.needsFix
    ensures second.Some? <==> first.needsFix
    ensures normalized.Some? ==>
      |normalized.value| == |courses| &&
      (forall i :: 0 <= i < |courses| ==> normalized.value[i] == NormalizeSection(courses[i])) &&
      second == Some(CheckSpec(After(courses, normalized.value)))
    ensures second.Some? ==> second.value == WeightCheck(false, 0.0)
  {
    first := CheckCourseWeights(courses);
    normalized, second := None, None;
    if first.needsFix {
      var results, _ := NormalizeCourseWeights(courses);
      var again := CheckCourseWeights(After(courses, results));
      NormalizedPassesCheck(courses, results);
      normalized, second := Some(results), Some(again);
    }
  }

  // ---------------------------------------------------------------------------
  // Properties
  // ---------------------------------------------------------------------------

  /** `needsFix` holds exactly when some section is offending. */
  lemma {:induction false} CheckNeedsFix(courses: seq<seq<Stored>>)
    ensures CheckSpec(courses).needsFix <==> exists i :: 0 <= i < |courses| && Offending(courses[i])
  {
    if courses != [] {
      var n := |courses|;
      var front := courses[..n - 1];
      CheckNeedsFix(front);
      assert forall i :: 0 <= i < n - 1 ==> courses[i] == front[i];
      if CheckSpec(front).needsFix {
        var j :| 0 <= j < n - 1 && Offending(front[j]);
        assert Offending(courses[j]);
      }
    }
  }

  /** The reported total is at least every offending section's total, and 0 when no
      section is offending. */
  lemma {:induction false} CheckBound(courses: seq<seq<Stored>>)
    ensures forall i :: 0 <= i < |courses| && Offending(courses[i]) ==> Total(Positive(courses[i])) <= CheckSpec(courses).total
    ensures !CheckSpec(courses).needsFix ==> CheckSpec(courses).total == 0.0
  {
    if courses != [] {
      var n := |courses|;
      var front := courses[..n - 1];
      CheckBound(front);
      assert forall i :: 0 <= i < n - 1 ==> courses[i] == front[i];
    }
  }

  /** When a fix is needed the reported total is that of some offending section: the
      maximum over them. */
  lemma {:induction false} CheckAttained(courses: seq<seq<Stored>>)
    requires CheckSpec(courses).needsFix
    ensures exists i :: 0 <= i < |courses| && Offending(courses[i]) && CheckSpec(courses).total == Total(Positive(courses[i]))
  {
    var n := |courses|;
    var front := courses[..n - 1];
    var c, p := CheckSpec(courses), CheckSpec(front);
    var rows := courses[n - 1];
    if Offending(rows) && (!p.needsFix || c.total != p.total) {
      assert c.total == Total(Positive(rows)) by {
        CheckBound(front);
        PositiveTotal(Positive(rows));
      }
      assert Offending(courses[n - 1]);
    } else {
      CheckAttained(front);
      var j :| 0 <= j < n - 1 && Offending(front[j]) && p.total == Total(Positive(front[j]));
      assert courses[j] == front[j];
    }
  }

  /** With no section offending, the check reports `{needsFix: false, total: 0}`. */
  lemma NothingOffendingPasses(courses: seq<seq<Stored>>)
    requires forall i :: 0 <= i < |courses| ==> !Offending(courses[i])
    ensures CheckSpec(courses) == WeightCheck(false, 0.0)
  {
    CheckNeedsFix(courses);
    CheckBound(courses);
  }

  /** No section is offending once the normaliser has run. */
  lemma NormalizedSectionPasses(rows: seq<Stored>)
    ensures var r := NormalizeSection(rows);
      !Offending(if r.Rewritten? then r.weights else rows)
  {
    NormalizeSectionOutcome(rows);
    var a := Positive(rows);
    if a != [] && !Within(Total(a)) {
      RescaledPositive(a);
    }
  }

  /** In exact arithmetic the second check of `addCourse` never asks for another fix. */
  lemma NormalizedPassesCheck(courses: seq<seq<Stored>>, results: seq<SectionResult>)
    requires |results| == |courses|
    requires forall i :: 0 <= i < |courses| ==> results[i] == NormalizeSection(courses[i])
    ensures CheckSpec(After(courses, results)) == WeightCheck(false, 0.0)
  {
    var after := After(courses, results);
    forall i | 0 <= i < |after|
      ensures !Offending(after[i])
    {
      NormalizedSectionPasses(courses[i]);
    }
    NothingOffendingPasses(after);
  }
}
