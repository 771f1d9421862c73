/** The three numbers the calculator page shows: the current grade, the average needed on
    the remaining work to reach a target, and the weight graded so far
    (`calculateCurrentGrade`, `calculateRequiredForTarget`, `calculateTotalProgress`,
    page.tsx:269-388). Each walks the display items, skips what is routed away or removed,
    and reads an expanded group child by child and a collapsed group through its group grade. */
module GradeEngine {
  import opened Common
  import opened Grouping
  import opened Weights
  import opened EffectiveWeights

  /** The page state the calculations read. */
  datatype Snapshot = Snapshot(
    droppedMap: Table,
    removedItems: set<string>,
    expandedGroups: set<string>,
    groupGrades: map<string, string>,
    weightAdjustments: Adjustments)

  /** `parseFloat`, with `None` for NaN. */
  type Parser = string -> Option<real>

  /** The item is left out of every calculation: `droppedMap[item.id] || removedItems.has(item.id)`. */
  predicate Skipped(s: Snapshot, id: string) {
    IsDropped(s.droppedMap, id) || id in s.removedItems
  }

  /** `gVal && !isNaN(parseFloat(gVal || ''))`: the group grade typed for a collapsed group. */
  function GroupGrade(s: Snapshot, id: string, parse: Parser): Option<real> {
    if id in s.groupGrades && s.groupGrades[id] != "" then parse(s.groupGrades[id]) else None
  }

  // ---------------------------------------------------------------------------
  // calculateCurrentGrade
  // ---------------------------------------------------------------------------

  /** The running `totalWeight` and `earnedWeight`. */
  datatype Totals = Totals(total: real, earned: real)

  /** Adds `effWeight` at `grade` percent. */
  function Graded(acc: Totals, w: real, grade: real): Totals {
    Totals(acc.total + w, acc.earned + grade / 100.0 * w)
  }

  /** One child of an expanded group. */
  function ChildCurrent(acc: Totals, c: Assessment, g: DisplayItem, s: Snapshot): Totals
    requires g.Group?
  {
    if c.id in s.removedItems then acc
    else
      var w := DistributedChildWeight(c, g, s.droppedMap, s.weightAdjustments);
      if w > 0.0 && c.grade.Some? then Graded(acc, w, c.grade.value) else acc
  }

  function ChildrenCurrent(acc: Totals, cs: seq<Assessment>, g: DisplayItem, s: Snapshot): Totals
    requires g.Group?
  {
    if cs == [] then acc else ChildCurrent(ChildrenCurrent(acc, cs[..|cs| - 1], g, s), cs[|cs| - 1], g, s)
  }

  /** One display item. */
  function ItemCurrent(acc: Totals, item: DisplayItem, s: Snapshot, parse: Parser): Totals {
    if Skipped(s, item.Id()) then acc
    else match item
      case Group(id, _, children, _) =>
        if id in s.expandedGroups then ChildrenCurrent(acc, children, item, s)
        else
          var gg := GroupGrade(s, id, parse);
          if gg.Some? then Graded(acc, EffectiveWeight(item, s.droppedMap, s.weightAdjustments), gg.value) else acc
      case Single(a) =>
        if a.grade.Some? then Graded(acc, EffectiveWeight(item, s.droppedMap, s.weightAdjustments), a.grade.value)
        else acc
  }

  function CurrentTotals(items: seq<DisplayItem>, s: Snapshot, parse: Parser): Totals {
    if items == [] then Totals(0.0, 0.0)
    else ItemCurrent(CurrentTotals(items[..|items| - 1], s, parse), items[|items| - 1], s, parse)
  }

  /** `calculateCurrentGrade()` */
  function CurrentGrade(items: seq<DisplayItem>, s: Snapshot, parse: Parser): real {
    var t := CurrentTotals(items, s, parse);
    if t.total == 0.0 then 0.0 else t.earned / t.total * 100.0
  }

  /** The inner `forEach` over the children of an expanded group. */
  method ChildrenCurrentLoop(acc: Totals, g: DisplayItem, s: Snapshot) returns (t: Totals)
    requires g.Group?
    ensures t == ChildrenCurrent(acc, g.children, g, s)
  {
    var children := g.children;
    var totalWeight, earnedWeight := acc.total, acc.earned;
    for j := 0 to |children|
      invariant Totals(totalWeight, earnedWeight) == ChildrenCurrent(acc, children[..j], g, s)
    {
      assert children[..j + 1][..j] == children[..j];
      var child := children[j];
      if child.id !in s.removedItems {
        var effWeight := DistributedChildWeight(child, g, s.droppedMap, s.weightAdjustments);
        if effWeight > 0.0 && child.grade.Some? {
          totalWeight := totalWeight + effWeight;
          earnedWeight := earnedWeight + child.grade.value / 100.0 * effWeight;
        }
      }
    }
    assert children[..|children|] == children;
    t := Totals(totalWeight, earnedWeight);
  }

  /** The body of the outer `forEach`, for one display item. */
  method ItemCurrentStep(acc: Totals, item: DisplayItem, s: Snapshot, parse: Parser) returns (t: Totals)
    ensures t == ItemCurrent(acc, item, s, parse)
  {
    t := acc;
    if Skipped(s, item.Id()) {
      return;
    }
    match item {
      case Group(id, _, _, _) =>
        if id in s.expandedGroups {
          t := ChildrenCurrentLoop(acc, item, s);
        } else {
          var effGroupWeight := EffectiveWeightOf(item, s.droppedMap, s.weightAdjustments);
          var gNum := GroupGrade(s, id, parse);
          if gNum.Some? {
            t := Totals(acc.total + effGroupWeight, acc.earned + gNum.value / 100.0 * effGroupWeight);
          }
        }
      case Single(a) =>
        var effWeight := EffectiveWeightOf(item, s.droppedMap, s.weightAdjustments);
        if a.grade.Some? {
          t := Totals(acc.total + effWeight, acc.earned + a.grade.value / 100.0 * effWeight);
        }
    }
  }

  method CurrentTotalsLoop(items: seq<DisplayItem>, s: Snapshot, parse: Parser) returns (t: Totals)
    ensures t == CurrentTotals(items, s, parse)
  {
    t := Totals(0.0, 0.0);
    for i := 0 to |items|
      invariant t == CurrentTotals(items[..i], s, parse)
    {
      assert items[..i + 1][..i] == items[..i];
      t := ItemCurrentStep(t, items[i], s, parse);
    }
    assert items[..|items|] == items;
  }

  /** `calculateCurrentGrade()` over `groupAssessments(assessments)`. */
  method CalculateCurrentGrade(assessments: seq<Assessment>, s: Snapshot, parse: Parser) returns (grade: real)
    ensures grade == CurrentGrade(GroupAssessments(assessments), s, parse)
  {
    var displayItems := GroupAssessmentsLoop(assessments);
    var t := CurrentTotalsLoop(displayItems, s, parse);
    if t.total == 0.0 {
      grade := 0.0;
    } else {
      grade := t.earned / t.total * 100.0;
    }
  }

  // ---------------------------------------------------------------------------
  // calculateRequiredForTarget
  // ---------------------------------------------------------------------------

  /** The running `earnedWeight`, `completedWeight` and `remainingWeight`. */
  datatype Progress = Progress(earned: real, completed: real, remaining: real)

  function Done(acc: Progress, w: real, grade: real): Progress {
    Progress(acc.earned + grade / 100.0 * w, acc.completed + w, acc.remaining)
  }

  function Left(acc: Progress, w: real): Progress {
    Progress(acc.earned, acc.completed, acc.remaining + w)
  }

  function ChildRequired(acc: Progress, c: Assessment, g: DisplayItem, s: Snapshot): Progress
    requires g.Group?
  {
    if c.id in s.removedItems then acc
    else
      var w := DistributedChildWeight(c, g, s.droppedMap, s.weightAdjustments);
      if w <= 0.0 then acc
      else if c.grade.Some? then Done(acc, w, c.grade.value)
      else Left(acc, w)
  }

  function ChildrenRequired(acc: Progress, cs: seq<Assessment>, g: DisplayItem, s: Snapshot): Progress
    requires g.Group?
  {
    if cs == [] then acc else ChildRequired(ChildrenRequired(acc, cs[..|cs| - 1], g, s), cs[|cs| - 1], g, s)
  }

  function ItemRequired(acc: Progress, item: DisplayItem, s: Snapshot, parse: Parser): Progress {
    if Skipped(s, item.Id()) then acc
    else match item
      case Group(id, _, children, _) =>
        if id in s.expandedGroups then ChildrenRequired(acc, children, item, s)
        else
          var w := EffectiveWeight(item, s.droppedMap, s.weightAdjustments);
          var gg := GroupGrade(s, id, parse);
          if gg.Some? then Done(acc, w, gg.value) else Left(acc, w)
      case Single(a) =>
        var w := EffectiveWeight(item, s.droppedMap, s.weightAdjustments);
        if a.grade.Some? then Done(acc, w, a.grade.value) else Left(acc, w)
  }

  function RequiredTotals(items: seq<DisplayItem>, s: Snapshot, parse: Parser): Progress {
    if items == [] then Progress(0.0, 0.0, 0.0)
    else ItemRequired(RequiredTotals(items[..|items| - 1], s, parse), items[|items| - 1], s, parse)
  }

  /** The percentage needed on the remaining weight so that the whole reaches `target`. */
  function Needed(p: Progress, target: real): real
    requires p.remaining != 0.0
  {
    (target / 100.0 * (p.completed + p.remaining) - p.earned) / p.remaining * 100.0
  }

  /** `calculateRequiredForTarget()`. The target is `None` when the field is empty or not
      a number. */
  function RequiredForTarget(items: seq<DisplayItem>, s: Snapshot, parse: Parser, target: Option<real>): Option<real> {
    if target.None? || target.value == 0.0 then None
    else
      var p := RequiredTotals(items, s, parse);
      if p.remaining == 0.0 then None
      else
        var n := Needed(p, target.value);
        Some(if n > 0.0 then n else 0.0)
  }

  /** The inner `forEach` over the children of an expanded group. */
  method ChildrenRequiredLoop(acc: Progress, g: DisplayItem, s: Snapshot) returns (p: Progress)
    requires g.Group?
    ensures p == ChildrenRequired(acc, g.children, g, s)
  {
    var children := g.children;
    var earnedWeight, completedWeight, remainingWeight := acc.earned, acc.completed, acc.remaining;
    for j := 0 to |children|
      invariant Progress(earnedWeight, completedWeight, remainingWeight) == ChildrenRequired(acc, children[..j], g, s)
    {
      assert children[..j + 1][..j] == children[..j];
      var child := children[j];
      if child.id !in s.removedItems {
        var effWeight := DistributedChildWeight(child, g, s.droppedMap, s.weightAdjustments);
        if effWeight > 0.0 {
          if child.grade.Some? {
            completedWeight := completedWeight + effWeight;
            earnedWeight := earnedWeight + child.grade.value / 100.0 * effWeight;
          } else {
            remainingWeight := remainingWeight + effWeight;
          }
        }
      }
    }
    assert children[..|children|] == children;
    p := Progress(earnedWeight, completedWeight, remainingWeight);
  }

  /** The body of the outer `forEach`, for one display item. */
  method ItemRequiredStep(acc: Progress, item: DisplayItem, s: Snapshot, parse: Parser) returns (p: Progress)
    ensures p == ItemRequired(acc, item, s, parse)
  {
    p := acc;
    if Skipped(s, item.Id()) {
      return;
    }
    match item {
      case Group(id, _, _, _) =>
        if id in s.expandedGroups {
          p := ChildrenRequiredLoop(acc, item, s);
        } else {
          var effGroupWeight := EffectiveWeightOf(item, s.droppedMap, s.weightAdjustments);
          var gNum := GroupGrade(s, id, parse);
          if gNum.Some? {
            p := Progress(acc.earned + gNum.value / 100.0 * effGroupWeight, acc.completed + effGroupWeight, acc.remaining);
          } else {
            p := Progress(acc.earned, acc.completed, acc.remaining + effGroupWeight);
          }
        }
      case Single(a) =>
        var effWeight := EffectiveWeightOf(item, s.droppedMap, s.weightAdjustments);
        if a.grade.Some? {
          p := Progress(acc.earned + a.grade.value / 100.0 * effWeight, acc.completed + effWeight, acc.remaining);
        } else {
          p := Progress(acc.earned, acc.completed, acc.remaining + effWeight);
        }
    }
  }

  method RequiredTotalsLoop(items: seq<DisplayItem>, s: Snapshot, parse: Parser) returns (p: Progress)
    ensures p == RequiredTotals(items, s, parse)
  {
    p := Progress(0.0, 0.0, 0.0);
    for i := 0 to |items|
      invariant p == RequiredTotals(items[..i], s, parse)
    {
      assert items[..i + 1][..i] == items[..i];
      p := ItemRequiredStep(p, items[i], s, parse);
    }
    assert items[..|items|] == items;
  }

  /** `calculateRequiredForTarget()` over `groupAssessments(assessments)`. */
  method CalculateRequiredForTarget(assessments: seq<Assessment>, s: Snapshot, parse: Parser, targetGrade: Option<real>)
    returns (required: Option<real>)
    ensures required == RequiredForTarget(GroupAssessments(assessments), s, parse, targetGrade)
  {
    if targetGrade.None? || targetGrade.value == 0.0 {
      return None;
    }
    var displayItems := GroupAssessmentsLoop(assessments);
    var p := RequiredTotalsLoop(displayItems, s, parse);
    required := NeededPercent(p, targetGrade.value);
  }

  /** The closing arithmetic of `calculateRequiredForTarget()`, `Math.max(0, neededPercent)`. */
  method NeededPercent(p: Progress, targetPercent: real) returns (required: Option<real>)
    ensures p.remaining == 0.0 ==> required == None
    ensures p.remaining != 0.0 ==> required == Some(if Needed(p, targetPercent) > 0.0 then Needed(p, targetPercent) else 0.0)
  {
    var totalWeight := p.completed + p.remaining;
    if p.remaining == 0.0 {
      return None;
    }
    var targetPoints := targetPercent / 100.0 * totalWeight;
    var neededPoints := targetPoints - p.earned;
    var neededPercent := neededPoints / p.remaining * 100.0;
    assert targetPoints == targetPercent / 100.0 * (p.completed + p.remaining);
    assert neededPercent == Needed(p, targetPercent);
    required := Some(if neededPercent > 0.0 then neededPercent else 0.0);
  }

  // ---------------------------------------------------------------------------
  // calculateTotalProgress
  // ---------------------------------------------------------------------------

  function ChildProgress(sum: real, c: Assessment, g: DisplayItem, s: Snapshot): real
    requires g.Group?
  {
    if c.id in s.removedItems then sum
    else
      var w := DistributedChildWeight(c, g, s.droppedMap, s.weightAdjustments);
      if w > 0.0 && c.grade.Some? then sum + w else sum
  }

  function ChildrenProgress(sum: real, cs: seq<Assessment>, g: DisplayItem, s: Snapshot): real
    requires g.Group?
  {
    if cs == [] then sum else ChildProgress(ChildrenProgress(sum, cs[..|cs| - 1], g, s), cs[|cs| - 1], g, s)
  }

  /** One display item. A collapsed group counts as soon as its group grade is not empty,
      whether or not it reads as a number. */
  function ItemProgress(sum: real, item: DisplayItem, s: Snapshot): real {
    if Skipped(s, item.Id()) then sum
    else match item
      case Group(id, _, children, _) =>
        if id in s.expandedGroups then ChildrenProgress(sum, children, item, s)
        else if id in s.groupGrades && s.groupGrades[id] != "" then
          sum + EffectiveWeight(item, s.droppedMap, s.weightAdjustments)
        else sum
      case Single(a) =>
        if a.grade.Some? then sum + EffectiveWeight(item, s.droppedMap, s.weightAdjustments) else sum
  }

  /** `calculateTotalProgress()` */
  function TotalProgress(items: seq<DisplayItem>, s: Snapshot): real {
    if items == [] then 0.0 else ItemProgress(TotalProgress(items[..|items| - 1], s), items[|items| - 1], s)
  }

  /** The inner `forEach` over the children of an expanded group. */
  method ChildrenProgressLoop(acc: real, g: DisplayItem, s: Snapshot) returns (sum: real)
    requires g.Group?
    ensures sum == ChildrenProgress(acc, g.children, g, s)
  {
    var children := g.children;
    sum := acc;
    for j := 0 to |children|
      invariant sum == ChildrenProgress(acc, children[..j], g, s)
    {
      assert children[..j + 1][..j] == children[..j];
      var c := children[j];
      if c.id !in s.removedItems {
        var effWeight := DistributedChildWeight(c, g, s.droppedMap, s.weightAdjustments);
        if effWeight > 0.0 && c.grade.Some? {
          sum := sum + effWeight;
        }
      }
    }
    assert children[..|children|] == children;
  }

  /** The body of the outer `forEach`, for one display item. */
  method ItemProgressStep(acc: real, item: DisplayItem, s: Snapshot) returns (sum: real)
    ensures sum == ItemProgress(acc, item, s)
  {
    sum := acc;
    if Skipped(s, item.Id()) {
      return;
    }
    match item {
      case Group(id, _, _, _) =>
        if id in s.expandedGroups {
          sum := ChildrenProgressLoop(acc, item, s);
        } else {
          var effGroupWeight := EffectiveWeightOf(item, s.droppedMap, s.weightAdjustments);
          if id in s.groupGrades && s.groupGrades[id] != "" {
            sum := acc + effGroupWeight;
          }
        }
      case Single(a) =>
        var effWeight := EffectiveWeightOf(item, s.droppedMap, s.weightAdjustments);
        if a.grade.Some? {
          sum := acc + effWeight;
        }
    }
  }

  method TotalProgressLoop(items: seq<DisplayItem>, s: Snapshot) returns (sum: real)
    ensures sum == TotalProgress(items, s)
  {
    sum := 0.0;
    for i := 0 to |items|
      invariant sum == TotalProgress(items[..i], s)
    {
      assert items[..i + 1][..i] == items[..i];
      sum := ItemProgressStep(sum, items[i], s);
    }
    assert items[..|items|] == items;
  }

  /** `calculateTotalProgress()` over `groupAssessments(assessments)`. */
  method CalculateTotalProgress(assessments: seq<Assessment>, s: Snapshot) returns (progress: real)
    ensures progress == TotalProgress(GroupAssessments(assessments), s)
  {
    var displayItems := GroupAssessmentsLoop(assessments);
    progress := TotalProgressLoop(displayItems, s);
  }
}
