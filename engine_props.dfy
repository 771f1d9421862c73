/** What the three displayed numbers mean. */
module GradeEngineProps {
  import opened Common
  import opened Grouping
  import opened Weights
  import opened EffectiveWeights
  import opened GradeEngine

  predicate InRange(g: Option<real>) {
    g.Some? ==> 0.0 <= g.value <= 100.0
  }

  /** Every grade the engine can read from `item` is a percentage. */
  predicate ItemGradesInRange(item: DisplayItem, s: Snapshot, parse: Parser) {
    match item
    case Single(a) => InRange(a.grade)
    case Group(id, _, children, _) =>
      (forall c :: c in children ==> InRange(c.grade)) && InRange(GroupGrade(s, id, parse))
  }

  /** Every base weight in `item` is non-negative. */
  predicate ItemWeightsNonNegative(item: DisplayItem) {
    match item
    case Single(a) => a.weight >= 0.0
    case Group(_, _, children, _) => forall c :: c in children ==> c.weight >= 0.0
  }

  ghost predicate Sensible(items: seq<DisplayItem>, s: Snapshot, parse: Parser) {
    (forall i :: 0 <= i < |items| ==> ItemGradesInRange(items[i], s, parse) && ItemWeightsNonNegative(items[i]))
    && (forall k :: AdjOf(s.weightAdjustments, k) >= 0.0)
  }

  predicate Bounded(t: Totals) {
    0.0 <= t.earned <= t.total
  }

  lemma CountBounded(acc: Totals, w: real, g: real)
    requires Bounded(acc) && w >= 0.0 && 0.0 <= g <= 100.0
    ensures Bounded(Graded(acc, w, g))
  {
    assert g / 100.0 * w <= w by {
      assert g / 100.0 <= 1.0;
    }
  }

  lemma {:induction false} ChildrenBounded(acc: Totals, cs: seq<Assessment>, g: DisplayItem, s: Snapshot)
    requires g.Group? && Bounded(acc)
    requires forall c :: c in cs ==> InRange(c.grade)
    ensures Bounded(ChildrenCurrent(acc, cs, g, s))
  {
    if cs != [] {
      var front, c := cs[..|cs| - 1], cs[|cs| - 1];
      assert forall x :: x in front ==> x in cs;
      ChildrenBounded(acc, front, g, s);
      assert c in cs;
      var w := DistributedChildWeight(c, g, s.droppedMap, s.weightAdjustments);
      if c.id !in s.removedItems && w > 0.0 && c.grade.Some? {
        CountBounded(ChildrenCurrent(acc, front, g, s), w, c.grade.value);
      }
    }
  }

  lemma ItemBounded(acc: Totals, item: DisplayItem, s: Snapshot, parse: Parser)
    requires Bounded(acc)
    requires ItemGradesInRange(item, s, parse) && ItemWeightsNonNegative(item)
    requires forall k :: AdjOf(s.weightAdjustments, k) >= 0.0
    ensures Bounded(ItemCurrent(acc, item, s, parse))
  {
    if !Skipped(s, item.Id()) {
      if item.Group? && item.id in s.expandedGroups {
        ChildrenBounded(acc, item.children, item, s);
      } else {
        EffectiveNonNegative(item, s.droppedMap, s.weightAdjustments);
        var w := EffectiveWeight(item, s.droppedMap, s.weightAdjustments);
        if item.Group? {
          var gg := GroupGrade(s, item.id, parse);
          if gg.Some? {
            CountBounded(acc, w, gg.value);
          }
        } else if item.a.grade.Some? {
          CountBounded(acc, w, item.a.grade.value);
        }
      }
    }
  }

  /** With percentages for grades and non-negative weights and adjustments, the earned
      weight never exceeds the graded weight. */
  lemma {:induction false} CurrentTotalsBounded(items: seq<DisplayItem>, s: Snapshot, parse: Parser)
    requires Sensible(items, s, parse)
    ensures Bounded(CurrentTotals(items, s, parse))
  {
    if items != [] {
      var front := items[..|items| - 1];
      assert Sensible(front, s, parse) by {
        forall i | 0 <= i < |front|
          ensures ItemGradesInRange(front[i], s, parse) && ItemWeightsNonNegative(front[i])
        {
          assert front[i] == items[i];
        }
      }
      CurrentTotalsBounded(front, s, parse);
      ItemBounded(CurrentTotals(front, s, parse), items[|items| - 1], s, parse);
    }
  }

  /** `g` is `earned` as a percentage of `total`, and 0 when `total` is 0. */
  predicate PercentOf(g: real, earned: real, total: real) {
    (total == 0.0 ==> g == 0.0) && (total != 0.0 ==> g * total == earned * 100.0)
  }

  /** The current grade is the earned share of the graded weight as a percentage, and 0
      when nothing is graded; under sensible inputs it lies between 0 and 100. */
  lemma CurrentGradeMeaning(items: seq<DisplayItem>, s: Snapshot, parse: Parser)
    ensures var t := CurrentTotals(items, s, parse); PercentOf(CurrentGrade(items, s, parse), t.earned, t.total)
    ensures Sensible(items, s, parse) ==> 0.0 <= CurrentGrade(items, s, parse) <= 100.0
  {
    var t := CurrentTotals(items, s, parse);
    var g := CurrentGrade(items, s, parse);
    assert g == if t.total == 0.0 then 0.0 else t.earned / t.total * 100.0;
    Percentage(g, t.earned, t.total);
    if Sensible(items, s, parse) {
      CurrentTotalsBounded(items, s, parse);
    }
  }

  /** `earned / total * 100` is the percentage earned, between 0 and 100 when earned lies
      between 0 and total. */
  lemma Percentage(g: real, earned: real, total: real)
    requires g == if total == 0.0 then 0.0 else earned / total * 100.0
    ensures PercentOf(g, earned, total)
    ensures 0.0 <= earned <= total ==> 0.0 <= g <= 100.0
  {
    if total != 0.0 && 0.0 <= earned <= total {
      var q := earned / total;
      assert q * total == earned;
      if q > 1.0 {
        assert (q - 1.0) * total > 0.0;
      }
    }
  }

  /** The required grade is missing exactly when the target is falsy (empty, not a number
      or 0) or no weight remains ungraded. */
  lemma RequiredNoneCases(items: seq<DisplayItem>, s: Snapshot, parse: Parser, target: Option<real>)
    ensures RequiredForTarget(items, s, parse, target).None?
        <==> target.None? || target.value == 0.0 || RequiredTotals(items, s, parse).remaining == 0.0
  {
  }

  /** Scoring `r` on all the `remaining` weight brings the final grade to exactly `target`
      when `r` is positive; `r` = 0 means the earned weight already reaches the target; `r`
      is never negative, and some weight counts. */
  predicate Achieves(p: Progress, r: real, target: real) {
    var total := p.completed + p.remaining;
    total > 0.0 &&
    (r > 0.0 ==> (p.earned + r / 100.0 * p.remaining) / total * 100.0 == target) &&
    (r == 0.0 ==> p.earned >= target / 100.0 * total) &&
    r >= 0.0
  }

  /** Scoring the required grade on all the remaining weight reaches the target exactly;
      a required grade of 0 means the target is already secured. */
  lemma RequiredAchievesTarget(items: seq<DisplayItem>, s: Snapshot, parse: Parser, target: Option<real>)
    requires Sensible(items, s, parse)
    requires RequiredForTarget(items, s, parse, target).Some?
    ensures Achieves(RequiredTotals(items, s, parse), RequiredForTarget(items, s, parse, target).value, target.value)
  {
    var p := RequiredTotals(items, s, parse);
    var r := RequiredForTarget(items, s, parse, target).value;
    RequiredValue(items, s, parse, target);
    assert p.remaining > 0.0 && p.completed >= 0.0 by {
      RequiredTotalsNonNegative(items, s, parse);
    }
    NeededAchieves(p, target.value, r);
  }

  /** The required grade, when there is one, is the clamped `Needed` of the totals. */
  lemma RequiredValue(items: seq<DisplayItem>, s: Snapshot, parse: Parser, target: Option<real>)
    requires RequiredForTarget(items, s, parse, target).Some?
    ensures var p := RequiredTotals(items, s, parse);
      p.remaining != 0.0 && target.Some? &&
      RequiredForTarget(items, s, parse, target).value == var n := Needed(p, target.value); if n > 0.0 then n else 0.0
  {
  }

  lemma NeededAchieves(p: Progress, target: real, r: real)
    requires p.remaining > 0.0 && p.completed >= 0.0
    requires r == var n := Needed(p, target); if n > 0.0 then n else 0.0
    ensures Achieves(p, r, target)
  {
    var total := p.completed + p.remaining;
    var np := target / 100.0 * total - p.earned;
    var q := np / p.remaining;
    assert q * p.remaining == np;
    var n := Needed(p, target);
    assert n == q * 100.0;
    if n > 0.0 {
      assert n / 100.0 * p.remaining == np;
      assert p.earned + n / 100.0 * p.remaining == target / 100.0 * total;
    } else {
      assert q <= 0.0;
      assert np <= 0.0;
    }
  }

  predicate NonNegative(p: Progress) {
    p.completed >= 0.0 && p.remaining >= 0.0
  }

  /** With non-negative weights and adjustments, the graded and the ungraded weight are
      non-negative. */
  lemma {:induction false} RequiredTotalsNonNegative(items: seq<DisplayItem>, s: Snapshot, parse: Parser)
    requires Sensible(items, s, parse)
    ensures NonNegative(RequiredTotals(items, s, parse))
  {
    if items != [] {
      var front, item := items[..|items| - 1], items[|items| - 1];
      assert Sensible(front, s, parse) by {
        forall i | 0 <= i < |front|
          ensures ItemGradesInRange(front[i], s, parse) && ItemWeightsNonNegative(front[i])
        {
          assert front[i] == items[i];
        }
      }
      RequiredTotalsNonNegative(front, s, parse);
      var acc := RequiredTotals(front, s, parse);
      if !Skipped(s, item.Id()) {
        if item.Group? && item.id in s.expandedGroups {
          ChildrenRequiredNonNegative(acc, item.children, item, s);
        } else {
          assert ItemWeightsNonNegative(items[|items| - 1]);
          EffectiveNonNegative(item, s.droppedMap, s.weightAdjustments);
        }
      }
    }
  }

  lemma {:induction false} ChildrenRequiredNonNegative(acc: Progress, cs: seq<Assessment>, g: DisplayItem, s: Snapshot)
    requires g.Group? && NonNegative(acc)
    ensures NonNegative(ChildrenRequired(acc, cs, g, s))
  {
    if cs != [] {
      ChildrenRequiredNonNegative(acc, cs[..|cs| - 1], g, s);
    }
  }

  /** The required grade on the remaining work and the current grade on the graded work
      read the same earned and graded weight. */
  lemma {:induction false} RequiredAgreesWithCurrent(items: seq<DisplayItem>, s: Snapshot, parse: Parser)
    ensures RequiredTotals(items, s, parse).earned == CurrentTotals(items, s, parse).earned
    ensures RequiredTotals(items, s, parse).completed == CurrentTotals(items, s, parse).total
  {
    if items != [] {
      var front, item := items[..|items| - 1], items[|items| - 1];
      RequiredAgreesWithCurrent(front, s, parse);
      if !Skipped(s, item.Id()) && item.Group? && item.id in s.expandedGroups {
        ChildrenAgree(RequiredTotals(front, s, parse), CurrentTotals(front, s, parse), item.children, item, s);
      }
    }
  }

  lemma {:induction false} ChildrenAgree(p: Progress, t: Totals, cs: seq<Assessment>, g: DisplayItem, s: Snapshot)
    requires g.Group? && p.earned == t.earned && p.completed == t.total
    ensures ChildrenRequired(p, cs, g, s).earned == ChildrenCurrent(t, cs, g, s).earned
    ensures ChildrenRequired(p, cs, g, s).completed == ChildrenCurrent(t, cs, g, s).total
  {
    if cs != [] {
      ChildrenAgree(p, t, cs[..|cs| - 1], g, s);
    }
  }

  /** Every group grade that is not empty reads as a number. */
  predicate GroupGradesParse(s: Snapshot, parse: Parser) {
    forall id :: id in s.groupGrades && s.groupGrades[id] != "" ==> parse(s.groupGrades[id]).Some?
  }

  /** The progress figure is the weight the current grade is computed over, as long as
      no collapsed group holds a group grade that is not a number. */
  lemma {:induction false} ProgressIsGradedWeight(items: seq<DisplayItem>, s: Snapshot, parse: Parser)
    requires GroupGradesParse(s, parse)
    ensures TotalProgress(items, s) == CurrentTotals(items, s, parse).total
  {
    if items != [] {
      var front, item := items[..|items| - 1], items[|items| - 1];
      ProgressIsGradedWeight(front, s, parse);
      if !Skipped(s, item.Id()) && item.Group? && item.id in s.expandedGroups {
        ChildrenProgressAgree(TotalProgress(front, s), CurrentTotals(front, s, parse), item.children, item, s);
      }
    }
  }

  lemma {:induction false} ChildrenProgressAgree(sum: real, t: Totals, cs: seq<Assessment>, g: DisplayItem, s: Snapshot)
    requires g.Group? && sum == t.total
    ensures ChildrenProgress(sum, cs, g, s) == ChildrenCurrent(t, cs, g, s).total
  {
    if cs != [] {
      ChildrenProgressAgree(sum, t, cs[..|cs| - 1], g, s);
    }
  }
}
