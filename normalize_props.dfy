/** Properties of the weight normaliser (scripts/normalize-weights.ts:60-161), in exact
    arithmetic. */
module NormalizeProps {
  import opened NormalizeWeights

  /** Scaling every weight scales the total. */
  lemma {:induction false} TotalScaled(rows: seq<Stored>, factor: real)
    ensures Total(Scaled(rows, factor)) == factor * Total(rows)
  {
    if rows != [] {
      var n := |rows|;
      var s, front := Scaled(rows, factor), rows[..n - 1];
      assert s[..n - 1] == Scaled(front, factor) by {
        forall i | 0 <= i < n - 1
          ensures s[..n - 1][i] == Scaled(front, factor)[i]
        {
        }
      }
      TotalScaled(front, factor);
      Distribute(factor, Total(front), rows[n - 1].weight);
    }
  }

  lemma Distribute(f: real, x: real, y: real)
    ensures f * x + y * f == f * (x + y)
  {
  }

  lemma TotalLast(front: seq<Stored>, x: Stored)
    ensures Total(front + [x]) == Total(front) + x.weight
  {
    assert (front + [x])[..|front|] == front;
  }

  /** The first n-1 new weights are those of `Scaled`, and the last is the remainder. */
  lemma RescaledParts(a: seq<Stored>, f: real)
    requires a != []
    ensures RescaledBy(a, f)[..|a| - 1] == Scaled(a[..|a| - 1], f)
    ensures RescaledBy(a, f)[|a| - 1] == Stored(a[|a| - 1].id, 100.0 - Total(RescaledBy(a, f)[..|a| - 1]))
  {
  }

  /** Whatever the factor, the new weights keep ids and order, the first n-1 are scaled and
      they all sum to 100. */
  lemma RescaledBySpec(a: seq<Stored>, f: real)
    requires a != []
    ensures var r := RescaledBy(a, f);
      (forall i :: 0 <= i < |a| ==> r[i].id == a[i].id) &&
      (forall i :: 0 <= i < |a| - 1 ==> r[i].weight == a[i].weight * f) &&
      r[|a| - 1].weight == 100.0 - Total(r[..|a| - 1]) &&
      Total(r) == 100.0
  {
    var n := |a|;
    var r := RescaledBy(a, f);
    var front := r[..n - 1];
    RescaledParts(a, f);
    forall i | 0 <= i < n - 1
      ensures r[i] == Stored(a[i].id, a[i].weight * f)
    {
      assert r[i] == front[i];
      assert a[..n - 1][i] == a[i];
    }
    assert r == front + [r[n - 1]];
    TotalLast(front, r[n - 1]);
  }

  /** When the factor is 100/total, the remainder left for the last weight is that weight
      scaled like the rest. */
  lemma RemainderIsScaled(a: seq<Stored>, f: real)
    requires a != [] && f * Total(a) == 100.0
    ensures 100.0 - Total(Scaled(a[..|a| - 1], f)) == a[|a| - 1].weight * f
  {
    var n := |a|;
    TotalScaled(a[..n - 1], f);
    LastShare(f, Total(a[..n - 1]), a[n - 1].weight, Total(a));
  }

  lemma LastShare(f: real, others: real, w: real, t: real)
    requires t == others + w && f * t == 100.0
    ensures 100.0 - f * others == w * f
  {
    Distribute(f, others, w);
  }

  /** With the factor 100/total every new weight, the remainder included, is the old one
      scaled. */
  lemma RescaledProportional(a: seq<Stored>, f: real)
    requires a != [] && 100.0 - Total(Scaled(a[..|a| - 1], f)) == a[|a| - 1].weight * f
    ensures forall i :: 0 <= i < |a| ==> RescaledBy(a, f)[i].weight == a[i].weight * f
  {
    var n := |a|;
    var r := RescaledBy(a, f);
    RescaledBySpec(a, f);
    assert r[n - 1].weight == a[n - 1].weight * f by {
      RescaledParts(a, f);
    }
    forall i | 0 <= i < n
      ensures r[i].weight == a[i].weight * f
    {
      if i < n - 1 {
        assert r[i].weight == a[i].weight * f;
      } else {
        assert i == n - 1;
      }
    }
  }

  lemma FactorTimesTotal(a: seq<Stored>)
    requires Total(a) != 0.0
    ensures ScaleFactor(a) * Total(a) == 100.0
  {
  }

  /** With the factor the script computes, 100/total, the last new weight is the last old
      weight scaled like the others. */
  lemma RemainderScaledByFactor(a: seq<Stored>)
    requires a != [] && Total(a) != 0.0
    ensures 100.0 - Total(Scaled(a[..|a| - 1], ScaleFactor(a))) == a[|a| - 1].weight * ScaleFactor(a)
  {
    FactorTimesTotal(a);
    RemainderIsScaled(a, ScaleFactor(a));
  }

  lemma ScaleFactorPositive(a: seq<Stored>)
    requires a != [] && AllPositive(a)
    ensures Total(a) > 0.0 && ScaleFactor(a) > 0.0
  {
    PositiveTotal(a);
  }

  lemma MulPositive(x: real, y: real)
    requires x > 0.0 && y > 0.0
    ensures x * y > 0.0
  {
  }

  /** Positive weights scaled by a positive factor stay positive; so does the remainder when
      there is one left. */
  lemma RescaledByPositive(a: seq<Stored>, f: real)
    requires a != [] && AllPositive(a) && f > 0.0
    requires 100.0 - Total(Scaled(a[..|a| - 1], f)) > 0.0
    ensures AllPositive(RescaledBy(a, f))
  {
    var n := |a|;
    RescaledBySpec(a, f);
    RescaledParts(a, f);
    forall i | 0 <= i < n
      ensures RescaledBy(a, f)[i].weight > 0.0
    {
      if i < n - 1 {
        MulPositive(a[i].weight, f);
      }
    }
  }

  /** The factor 100/total is positive and leaves a positive remainder. */
  lemma FactorLeavesRemainder(a: seq<Stored>)
    requires a != [] && AllPositive(a)
    ensures Total(a) > 0.0 && ScaleFactor(a) > 0.0
    ensures 100.0 - Total(Scaled(a[..|a| - 1], ScaleFactor(a))) > 0.0
  {
    ScaleFactorPositive(a);
    RemainderScaledByFactor(a);
    MulPositive(a[|a| - 1].weight, ScaleFactor(a));
  }

  /** With positive weights the new weights stay positive, so the re-read after the update
      sees them all. */
  lemma RescaledPositive(a: seq<Stored>)
    requires a != [] && AllPositive(a)
    ensures Total(a) > 0.0
    ensures AllPositive(Rescaled(a))
    ensures Positive(Rescaled(a)) == Rescaled(a)
  {
    FactorLeavesRemainder(a);
    RescaledByPositive(a, ScaleFactor(a));
    PositiveOfPositive(Rescaled(a));
  }

  /** The filter keeps a list whose weights are all positive. */
  lemma {:induction false} PositiveOfPositive(rows: seq<Stored>)
    requires AllPositive(rows)
    ensures Positive(rows) == rows
  {
    if rows != [] {
      PositiveOfPositive(rows[..|rows| - 1]);
    }
  }

  lemma TotalUpdateLast(u: seq<Stored>, x: Stored)
    requires u != []
    ensures Total(u[|u| - 1 := x]) == Total(u) - u[|u| - 1].weight + x.weight
  {
    assert u[|u| - 1 := x][..|u| - 1] == u[..|u| - 1];
  }

  /** The correction touches only the last row, and only its weight; it does so exactly when
      the total is off by at least the tolerance and the corrected weight stays positive, and
      then the total becomes 100. */
  lemma CorrectedSpec(u: seq<Stored>)
    ensures var r := Corrected(u);
      (forall i :: 0 <= i < |u| - 1 ==> r[i] == u[i]) &&
      (forall i :: 0 <= i < |u| ==> r[i].id == u[i].id) &&
      (r != u <==> u != [] && !Within(Total(u)) && u[|u| - 1].weight + (100.0 - Total(u)) > 0.0) &&
      (r != u ==> Total(r) == 100.0)
  {
    if u != [] && !Within(Total(u)) {
      var last := u[|u| - 1];
      var c := last.weight + (100.0 - Total(u));
      if c > 0.0 {
        var x := last.(weight := c);
        TotalUpdateLast(u, x);
        assert x != last;
        assert Corrected(u)[|u| - 1] != u[|u| - 1];
      }
    }
  }

  /** Right after the rescale the correction has nothing to do. */
  lemma CorrectionAfterRescaleIsNoOp(a: seq<Stored>)
    requires a != [] && Total(a) != 0.0
    ensures Corrected(Rescaled(a)) == Rescaled(a)
  {
    RescaledBySpec(a, ScaleFactor(a));
    CorrectedSpec(Rescaled(a));
  }

  /** The three outcomes of a section: no positive weight, already within the tolerance of
      100, or rewritten to the rescaled weights, which sum to exactly 100 and count as fixed. */
  lemma NormalizeSectionOutcome(rows: seq<Stored>)
    ensures Positive(rows) == [] ==> NormalizeSection(rows) == NoPositiveWeights
    ensures Positive(rows) != [] && Within(Total(Positive(rows))) ==> NormalizeSection(rows) == AlreadyAtHundred
    ensures Positive(rows) != [] && !Within(Total(Positive(rows))) ==>
      Total(Positive(rows)) > 0.0 &&
      NormalizeSection(rows) == Rewritten(Rescaled(Positive(rows)), true) &&
      Total(Rescaled(Positive(rows))) == 100.0
  {
    var a := Positive(rows);
    if a != [] && !Within(Total(a)) {
      RescaledPositive(a);
      RescaledBySpec(a, ScaleFactor(a));
      CorrectionAfterRescaleIsNoOp(a);
      var r := Rescaled(a);
      assert Positive(r) == r;
      assert Within(Total(r));
    }
  }

  /** Every section is either skipped or fixed. */
  lemma SectionCounted(rows: seq<Stored>)
    ensures Skipped(NormalizeSection(rows)) != Fixed(NormalizeSection(rows))
  {
    NormalizeSectionOutcome(rows);
  }

  lemma {:induction false} CountsCover(results: seq<SectionResult>)
    requires forall i :: 0 <= i < |results| ==> Skipped(results[i]) != Fixed(results[i])
    ensures CountFixed(results) + CountSkipped(results) == |results|
  {
    if results != [] {
      CountsCover(results[..|results| - 1]);
    }
  }

  /** `totalFixed + totalSkipped` is the number of sections: in exact arithmetic no section
      ends with the warning of line 159. */
  lemma ScriptCountsEverySection(courses: seq<seq<Stored>>, results: seq<SectionResult>)
    requires |results| == |courses|
    requires forall i :: 0 <= i < |courses| ==> results[i] == NormalizeSection(courses[i])
    ensures CountFixed(results) + CountSkipped(results) == |courses|
  {
    forall i | 0 <= i < |results|
      ensures Skipped(results[i]) != Fixed(results[i])
    {
      SectionCounted(courses[i]);
    }
    CountsCover(results);
  }
}
