/** The weight normaliser of scripts/normalize-weights.ts:46-162: every course section whose
    positive weights do not sum to 100 (within 0.001) is rescaled so that they do, the last
    weight taking the remainder, and a correction of the last weight follows when the
    re-read total is still off.

    Every query of the script filters on `weight > 0` and every update targets a row it
    read, so a section is modelled by its rows in `order_index` order and the script only
    ever sees `Positive` of them. */
module NormalizeWeights {

  /** An assessment row as the script selects it. */
  datatype Stored = Stored(id: string, weight: real)

  /** `const tolerance = 0.001` */
  const Tolerance: real := 0.001

  function Abs(x: real): (r: real)
    ensures r >= 0.0 && (r == x || r == -x)
  {
    if x < 0.0 then -x else x
  }

  /** `Math.abs(total - 100) < tolerance` */
  predicate Within(total: real) {
    Abs(total - 100.0) < Tolerance
  }

  /** `.gt('weight', 0)`: the rows with a positive weight, in their order. */
  function Positive(rows: seq<Stored>): (r: seq<Stored>)
    ensures |r| <= |rows|
    ensures forall i :: 0 <= i < |r| ==> r[i].weight > 0.0
    ensures forall x :: x in r ==> x in rows
  {
    if rows == [] then []
    else
      var last := rows[|rows| - 1];
      Positive(rows[..|rows| - 1]) + (if last.weight > 0.0 then [last] else [])
  }

  predicate AllPositive(rows: seq<Stored>) {
    forall i :: 0 <= i < |rows| ==> rows[i].weight > 0.0
  }

  /** `rows.reduce((sum, a) => sum + Number(a.weight), 0)` */
  function Total(rows: seq<Stored>): real {
    if rows == [] then 0.0 else Total(rows[..|rows| - 1]) + rows[|rows| - 1].weight
  }

  /** Every weight multiplied by `factor`, ids kept. */
  function Scaled(rows: seq<Stored>, factor: real): (r: seq<Stored>)
    ensures |r| == |rows|
  {
    seq(|rows|, i requires 0 <= i < |rows| => Stored(rows[i].id, rows[i].weight * factor))
  }

  /** `newWeights` of lines 84-97: all but the last weight scaled by 100/total, the last one
      100 minus the running total of the others. */
  function Rescaled(assessments: seq<Stored>): (r: seq<Stored>)
    requires assessments != [] && Total(assessments) != 0.0
    ensures |r| == |assessments|
  {
    RescaledBy(assessments, ScaleFactor(assessments))
  }

  /** `const scaleFactor = 100 / totalWeight` */
  function ScaleFactor(assessments: seq<Stored>): real
    requires Total(assessments) != 0.0
  {
    100.0 / Total(assessments)
  }

  /** The same with the scale factor given. */
  function RescaledBy(assessments: seq<Stored>, scaleFactor: real): (r: seq<Stored>)
    requires assessments != []
    ensures |r| == |assessments|
  {
    var n := |assessments|;
    var front := Scaled(assessments[..n - 1], scaleFactor);
    front + [Stored(assessments[n - 1].id, 100.0 - Total(front))]
  }

  /** The correction of lines 128-152 on the re-read rows: when their total is still off,
      the last weight is raised by the difference, unless it would not stay positive. */
  function Corrected(updated: seq<Stored>): (r: seq<Stored>)
    ensures |r| == |updated|
  {
    if updated == [] then updated
    else
      var newTotal := Total(updated);
      if Abs(newTotal - 100.0) >= Tolerance then
        var last := updated[|updated| - 1];
        var correctedWeight := last.weight + (100.0 - newTotal);
        if correctedWeight > 0.0 then updated[|updated| - 1 := last.(weight := correctedWeight)]
        else updated
      else updated
  }

  /** What the script does with one section. */
  datatype SectionResult =
    | NoPositiveWeights                            // lines 60-64: skipped
    | AlreadyAtHundred                             // lines 69-74: skipped
    | Rewritten(weights: seq<Stored>, fixed: bool) // lines 76-161: the section's rows afterwards

  predicate Skipped(r: SectionResult) {
    r.NoPositiveWeights? || r.AlreadyAtHundred?
  }

  predicate Fixed(r: SectionResult) {
    r.Rewritten? && r.fixed
  }

  lemma {:induction false} PositiveTotal(rows: seq<Stored>)
    requires AllPositive(rows)
    ensures rows != [] ==> Total(rows) > 0.0
    ensures rows == [] ==> Total(rows) == 0.0
  {
    if rows != [] {
      PositiveTotal(rows[..|rows| - 1]);
    }
  }

  /** One section: the positive rows, the tolerance check, the rescale, the re-read, the
      correction and the verdict counted in `totalFixed`. */
  function NormalizeSection(rows: seq<Stored>): SectionResult {
    var assessments := Positive(rows);
    if assessments == [] then NoPositiveWeights
    else if Within(Total(assessments)) then AlreadyAtHundred
    else
      PositiveTotal(assessments);
      var updated := Positive(Rescaled(assessments));
      if updated == [] then Rewritten(updated, false)
      else
        var final := Corrected(updated);
        Rewritten(final, Within(Total(final)))
  }

  // ---------------------------------------------------------------------------
  // Methods
  // ---------------------------------------------------------------------------

  /** The `for` loop of lines 84-97 with its running total. */
  method RescaleBy(assessments: seq<Stored>, scaleFactor: real) returns (newWeights: seq<Stored>)
    requires assessments != []
    ensures newWeights == RescaledBy(assessments, scaleFactor)
  {
    var n := |assessments|;
    ghost var front := Scaled(assessments[..n - 1], scaleFactor);
    newWeights := [];
    var runningTotal := 0.0;
    var i := 0;
    while i < n - 1
      invariant 0 <= i <= n - 1
      invariant newWeights == front[..i]
      invariant runningTotal == Total(newWeights)
    {
      var newWeight := assessments[i].weight * scaleFactor;
      assert front[i] == Stored(assessments[i].id, newWeight);
      assert front[..i + 1] == front[..i] + [front[i]];
      newWeights := newWeights + [Stored(assessments[i].id, newWeight)];
      assert newWeights[..|newWeights| - 1] == front[..i];
      runningTotal := runningTotal + newWeight;
      i := i + 1;
    }
    assert front[..n - 1] == front;
    var lastAssessment := assessments[n - 1];
    var lastWeight := 100.0 - runningTotal;
    newWeights := newWeights + [Stored(lastAssessment.id, lastWeight)];
  }

  /** Lines 125-152, the re-read rows given. */
  method Correct(updated: seq<Stored>) returns (final: seq<Stored>)
    ensures final == Corrected(updated)
  {
    final := updated;
    if |updated| > 0 {
      var newTotal := Total(updated);
      if Abs(newTotal - 100.0) >= Tolerance {
        var diff := 100.0 - newTotal;
        var lastAssessment := updated[|updated| - 1];
        var correctedWeight := lastAssessment.weight + diff;
        if correctedWeight > 0.0 {
          final := updated[|updated| - 1 := lastAssessment.(weight := correctedWeight)];
        }
      }
    }
  }

  /** The body of the `for (const course of courses)` loop for one section's rows. */
  method NormalizeCourse(rows: seq<Stored>) returns (result: SectionResult)
    ensures result == NormalizeSection(rows)
  {
    var assessments := Positive(rows);
    if |assessments| == 0 {
      return NoPositiveWeights;
    }
    var totalWeight := Total(assessments);
    if Abs(totalWeight - 100.0) < Tolerance {
      return AlreadyAtHundred;
    }
    PositiveTotal(assessments);
    var scaleFactor := 100.0 / totalWeight;
    var newWeights := RescaleBy(assessments, scaleFactor);
    var updatedAssessments := Positive(newWeights);
    if |updatedAssessments| == 0 {
      return Rewritten(updatedAssessments, false);
    }
    var final := Correct(updatedAssessments);
    var newTotal := Total(final);
    result := Rewritten(final, Abs(newTotal - 100.0) < Tolerance);
  }

  function CountFixed(results: seq<SectionResult>): nat {
    if results == [] then 0
    else CountFixed(results[..|results| - 1]) + (if Fixed(results[|results| - 1]) then 1 else 0)
  }

  function CountSkipped(results: seq<SectionResult>): nat {
    if results == [] then 0
    else CountSkipped(results[..|results| - 1]) + (if Skipped(results[|results| - 1]) then 1 else 0)
  }

  /** `normalizeWeights` (lines 7-168) on the fetched sections: an empty list is reported and
      left alone; otherwise every section is normalised and `totalFixed` and `totalSkipped`
      count the outcomes. */
  method NormalizeWeightsScript(courses: seq<seq<Stored>>)
    returns (results: seq<SectionResult>, totalFixed: nat, totalSkipped: nat)
    ensures |results| == |courses|
    ensures forall i :: 0 <= i < |courses| ==> results[i] == NormalizeSection(courses[i])
    ensures totalFixed == CountFixed(results) && totalSkipped == CountSkipped(results)
  {
    results := [];
    totalFixed, totalSkipped := 0, 0;
    if |courses| == 0 {
      return;
    }
    for c := 0 to |courses|
      invariant |results| == c
      invariant forall i :: 0 <= i < c ==> results[i] == NormalizeSection(courses[i])
      invariant totalFixed == CountFixed(results) && totalSkipped == CountSkipped(results)
    {
      var result := NormalizeCourse(courses[c]);
      assert (results + [result])[..|results|] == results;
      if Skipped(result) {
        totalSkipped := totalSkipped + 1;
      }
      if Fixed(result) {
        totalFixed := totalFixed + 1;
      }
      results := results + [result];
    }
  }
}
