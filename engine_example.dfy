/** Worked examples of the three displayed numbers. */
module GradeEngineExample {
  import opened Common
  import opened Grouping
  import opened Weights
  import opened EffectiveWeights
  import opened GradeEngine

  /** Nothing routed, removed, expanded or typed as a group grade. */
  function Fresh(): Snapshot { Snapshot([], {}, {}, map[], map[]) }

  function Midterm(grade: real): Assessment {
    Assessment("mid", "Midterm", 50.0, None, Some(grade), None, None)
  }

  function Final(): Assessment { Assessment("fin", "Final", 50.0, None, None, None, None) }

  /** With nothing routed, a single carries its own weight. */
  lemma FreshSingle(a: Assessment, parse: Parser, acc: Totals, p: Progress, sum: real)
    ensures !Skipped(Fresh(), a.id)
    ensures EffectiveWeight(Single(a), [], map[]) == a.weight
    ensures ItemCurrent(acc, Single(a), Fresh(), parse)
         == if a.grade.Some? then Graded(acc, a.weight, a.grade.value) else acc
    ensures ItemRequired(p, Single(a), Fresh(), parse)
         == if a.grade.Some? then Done(p, a.weight, a.grade.value) else Left(p, a.weight)
    ensures ItemProgress(sum, Single(a), Fresh()) == if a.grade.Some? then sum + a.weight else sum
  {
    assert AdjOf(map[], a.id) == 0.0;
  }

  /** The totals over a midterm and a final, item by item. */
  lemma MidtermAndFinalTotals(g: real, parse: Parser)
    ensures CurrentTotals([Single(Midterm(g)), Single(Final())], Fresh(), parse) == Totals(50.0, g / 100.0 * 50.0)
    ensures RequiredTotals([Single(Midterm(g)), Single(Final())], Fresh(), parse) == Progress(g / 100.0 * 50.0, 50.0, 50.0)
    ensures TotalProgress([Single(Midterm(g)), Single(Final())], Fresh()) == 50.0
  {
    var items := [Single(Midterm(g)), Single(Final())];
    assert items[..1] == [Single(Midterm(g))] && items[..1][..0] == [];
    FreshSingle(Midterm(g), parse, Totals(0.0, 0.0), Progress(0.0, 0.0, 0.0), 0.0);
    var t1 := Graded(Totals(0.0, 0.0), 50.0, g);
    var p1 := Done(Progress(0.0, 0.0, 0.0), 50.0, g);
    assert CurrentTotals(items[..1], Fresh(), parse) == t1;
    assert RequiredTotals(items[..1], Fresh(), parse) == p1;
    assert TotalProgress(items[..1], Fresh()) == 50.0;
    FreshSingle(Final(), parse, t1, p1, 50.0);
  }

  /** A graded midterm of weight 50 and an ungraded final of weight 50. */
  function Course(g: real): seq<DisplayItem> { [Single(Midterm(g)), Single(Final())] }

  /** With 80 on the midterm the current grade is 80. */
  lemma MidtermAndFinalCurrent(parse: Parser)
    ensures CurrentGrade(Course(80.0), Fresh(), parse) == 80.0
  {
    MidtermAndFinalTotals(80.0, parse);
  }

  /** Half of the weight is graded. */
  lemma MidtermAndFinalProgress(g: real)
    ensures TotalProgress(Course(g), Fresh()) == 50.0
  {
    MidtermAndFinalTotals(g, s => None);
  }

  /** With 80 on the midterm, 70 on the final reaches a target of 75. */
  lemma MidtermAndFinalRequired(parse: Parser)
    ensures RequiredForTarget(Course(80.0), Fresh(), parse, Some(75.0)) == Some(70.0)
  {
    MidtermAndFinalTotals(80.0, parse);
  }

  /** The required grade is not capped at 100: after 20 on the midterm, a target of 75
      needs 130 on the final. */
  lemma RequiredNotCapped(parse: Parser)
    ensures RequiredForTarget(Course(20.0), Fresh(), parse, Some(75.0)) == Some(130.0)
  {
    MidtermAndFinalTotals(20.0, parse);
  }

  /** A target of 0 reads as no target. */
  lemma ZeroTarget(parse: Parser)
    ensures RequiredForTarget(Course(80.0), Fresh(), parse, Some(0.0)) == None
  {
  }

  function Quizzes(): DisplayItem {
    Group("Quiz", "Quizzes", [Assessment("q1", "Quiz 1", 10.0, None, None, None, None),
                              Assessment("q2", "Quiz 2", 10.0, None, None, None, None)], 20.0)
  }

  /** A collapsed group whose group grade is not a number counts towards the progress
      but not towards the current grade. */
  lemma ProgressCountsUnreadableGroupGrade(parse: Parser)
    requires parse("abc") == None
    ensures TotalProgress([Quizzes()], Snapshot([], {}, {}, map["Quiz" := "abc"], map[])) == 20.0
    ensures CurrentTotals([Quizzes()], Snapshot([], {}, {}, map["Quiz" := "abc"], map[]), parse).total == 0.0
  {
    var s := Snapshot([], {}, {}, map["Quiz" := "abc"], map[]);
    var g := Quizzes();
    assert [g][..0] == [];
    var c := g.children;
    assert c[..1][..0] == [] && c[..|c| - 1] == c[..1];
    assert ActiveSum(g.children, []) == 20.0;
    assert EffectiveWeight(g, [], map[]) == 20.0;
  }
}
