/** What the page's handlers promise, stated over the state functions. */
module PageProps {
  import opened Common
  import opened Grouping
  import opened GroupingProps
  import opened Weights
  import opened GradeEngine
  import opened GradeEngineProps
  import opened Reorder
  import opened PageState

  // ---------------------------------------------------------------------------
  // The drop selection
  // ---------------------------------------------------------------------------

  lemma {:induction false} DeleteWithin(t: Table, k: string, e: Route)
    requires e in Delete(t, k)
    ensures e in t && e.source != k
  {
    if t != [] {
      if t[0].source == k || e != t[0] {
        DeleteWithin(t[1..], k, e);
      }
    }
  }

  lemma {:induction false} DeleteUnique(t: Table, k: string)
    requires KeysUnique(t)
    ensures KeysUnique(Delete(t, k))
  {
    if t != [] {
      var tail := t[1..];
      assert KeysUnique(tail) by {
        forall i, j | 0 <= i < j < |tail|
          ensures tail[i].source != tail[j].source
        {
          assert tail[i] == t[i + 1] && tail[j] == t[j + 1];
        }
      }
      DeleteUnique(tail, k);
      if t[0].source != k {
        var rest := Delete(tail, k);
        var r := Delete(t, k);
        assert r == [t[0]] + rest;
        forall j | 0 <= j < |rest|
          ensures t[0].source != rest[j].source
        {
          DeleteWithin(tail, k, rest[j]);
          var q :| 0 <= q < |tail| && tail[q] == rest[j];
          assert tail[q] == t[q + 1];
        }
        forall i, j | 0 <= i < j < |r|
          ensures r[i].source != r[j].source
        {
          assert r[j] == rest[j - 1];
          if 0 < i {
            assert r[i] == rest[i - 1];
          }
        }
      }
    }
  }

  /** Every handler of the drop selection keeps the page consistent. */
  lemma DropHandlersKeepConsistent(p: Page, itemId: string)
    requires Consistent(p)
    ensures Consistent(DropButtonClick(p))
    ensures Consistent(ItemClick(p, itemId).page)
    ensures Consistent(Undrop(p, itemId))
    ensures Consistent(DistributeEvenly(p))
  {
    if p.dropSourceId.Some? {
      PutUnique(p.droppedMap, p.dropSourceId.value, itemId);
      PutUnique(p.droppedMap, p.dropSourceId.value, DistributeEvenlyId);
    }
    DeleteUnique(p.droppedMap, itemId);
  }

  /** Cancelling clears the stored source and leaves the table alone; starting a
      selection changes only the mode. */
  lemma CancelKeepsTable(p: Page)
    ensures p.dropMode != NotDropping ==>
      DropButtonClick(p).droppedMap == p.droppedMap && DropButtonClick(p).dropSourceId.None?
      && DropButtonClick(p).dropMode == NotDropping
    ensures p.dropMode == NotDropping ==> DropButtonClick(p) == p.(dropMode := SelectSource)
  {
  }

  /** Clicks outside a selection do nothing; while choosing a source, a row already
      routed away is ignored and any other row becomes the source. */
  lemma SourceClick(p: Page, itemId: string)
    ensures p.dropMode == NotDropping ==> ItemClick(p, itemId) == Clicked(p, Ignored)
    ensures p.dropMode == SelectSource && IsDropped(p.droppedMap, itemId) ==> ItemClick(p, itemId) == Clicked(p, Ignored)
    ensures p.dropMode == SelectSource && !IsDropped(p.droppedMap, itemId) ==>
      ItemClick(p, itemId).outcome == SourceChosen && ItemClick(p, itemId).page.droppedMap == p.droppedMap
      && ItemClick(p, itemId).page.dropSourceId == Some(itemId)
  {
  }

  /** While choosing a target, a pick is routed exactly when it is neither the source,
      nor routed away, nor in the source's own section; any other pick changes nothing. */
  lemma TargetClick(p: Page, itemId: string)
    requires p.dropMode == SelectTarget && p.dropSourceId.Some?
    ensures var source := p.dropSourceId.value;
      ItemClick(p, itemId).outcome == Routed <==>
        itemId != source && !IsDropped(p.droppedMap, itemId)
        && !SameSection(GroupAssessments(p.assessments), source, itemId)
    ensures ItemClick(p, itemId).outcome != Routed ==> ItemClick(p, itemId).page == p
    ensures ItemClick(p, itemId).outcome == Rejected <==>
      itemId != p.dropSourceId.value && !IsDropped(p.droppedMap, itemId)
      && SameSection(GroupAssessments(p.assessments), p.dropSourceId.value, itemId)
  {
  }

  /** Two children of the same group share a section, so picking one from the other is
      refused. */
  lemma SiblingsRejected(items: seq<DisplayItem>, g: DisplayItem, source: string, target: string)
    requires g.Group? && g.id != ""
    requires FindItem(items, source).None? && FindItem(items, target).None?
    requires FindParent(items, source) == Some(g) && FindParent(items, target) == Some(g)
    ensures SameSection(items, source, target)
  {
  }

  /** A group picking one of its own children is refused. */
  lemma GroupToOwnChildRejected(items: seq<DisplayItem>, g: DisplayItem, target: string)
    requires g.Group? && g.id != ""
    requires FindItem(items, g.id).Some?
    requires FindItem(items, target).None? && FindParent(items, target) == Some(g)
    ensures SameSection(items, g.id, target)
  {
  }

  /** A child picking its own parent group is the one same-section pick allowed. */
  lemma ChildToParentAllowed(items: seq<DisplayItem>, g: DisplayItem, source: string)
    requires g.Group?
    requires FindItem(items, source).None? && FindParent(items, source) == Some(g)
    requires FindItem(items, g.id).Some?
    ensures SectionOf(items, source) == SectionOf(items, g.id)
    ensures !SameSection(items, source, g.id)
  {
  }

  /** Rows in different sections are never refused. */
  lemma OtherSectionAllowed(items: seq<DisplayItem>, source: string, target: string)
    requires SectionOf(items, source) != SectionOf(items, target)
    ensures !SameSection(items, source, target)
  {
  }

  /** A routed pick maps the source to the picked row, adds the source as the one new key
      (or keeps its place when present), leaves every other key as it was and goes back
      to no selection. */
  lemma RoutedAddsOneKey(p: Page, itemId: string)
    requires p.dropMode == SelectTarget && p.dropSourceId.Some?
    requires ItemClick(p, itemId).outcome == Routed
    ensures var q := ItemClick(p, itemId).page;
      var source := p.dropSourceId.value;
      && Lookup(q.droppedMap, source) == Some(itemId)
      && (forall k :: k != source ==> Lookup(q.droppedMap, k) == Lookup(p.droppedMap, k))
      && Sources(q.droppedMap) == (if source in Sources(p.droppedMap) then Sources(p.droppedMap)
                                   else Sources(p.droppedMap) + [source])
      && q.dropMode == NotDropping && q.dropSourceId.None?
  {
    var source := p.dropSourceId.value;
    forall k
      ensures Lookup(Put(p.droppedMap, source, itemId), k) == if k == source then Some(itemId) else Lookup(p.droppedMap, k)
    {
      PutLookup(p.droppedMap, source, itemId, k);
    }
    PutSources(p.droppedMap, source, itemId);
  }

  /** Distributing routes the stored source to the sentinel in the same way; with no
      (or an empty) source it does nothing. */
  lemma DistributeAddsOneKey(p: Page)
    ensures !Truthy(p.dropSourceId) ==> DistributeEvenly(p) == p
    ensures Truthy(p.dropSourceId) ==>
      var q := DistributeEvenly(p);
      var source := p.dropSourceId.value;
      && Lookup(q.droppedMap, source) == Some(DistributeEvenlyId)
      && (forall k :: k != source ==> Lookup(q.droppedMap, k) == Lookup(p.droppedMap, k))
      && Sources(q.droppedMap) == (if source in Sources(p.droppedMap) then Sources(p.droppedMap)
                                   else Sources(p.droppedMap) + [source])
      && q.dropMode == NotDropping && q.dropSourceId.None?
  {
    if Truthy(p.dropSourceId) {
      var source := p.dropSourceId.value;
      forall k
        ensures Lookup(Put(p.droppedMap, source, DistributeEvenlyId), k)
             == if k == source then Some(DistributeEvenlyId) else Lookup(p.droppedMap, k)
      {
        PutLookup(p.droppedMap, source, DistributeEvenlyId, k);
      }
      PutSources(p.droppedMap, source, DistributeEvenlyId);
    }
  }

  /** Undoing works only with no selection in progress, and then removes exactly that key. */
  lemma UndropRemovesOneKey(p: Page, sourceId: string)
    ensures p.dropMode != NotDropping ==> Undrop(p, sourceId) == p
    ensures p.dropMode == NotDropping ==>
      var q := Undrop(p, sourceId);
      && Lookup(q.droppedMap, sourceId).None?
      && (forall k :: k != sourceId ==> Lookup(q.droppedMap, k) == Lookup(p.droppedMap, k))
      && multiset(Sources(q.droppedMap)) == multiset(Sources(p.droppedMap))[sourceId := 0]
      && q == p.(droppedMap := q.droppedMap)
  {
    if p.dropMode == NotDropping {
      forall k
        ensures Lookup(Delete(p.droppedMap, sourceId), k) == if k == sourceId then None else Lookup(p.droppedMap, k)
      {
        DeleteLookup(p.droppedMap, sourceId, k);
      }
      DeleteSources(p.droppedMap, sourceId);
    }
  }

  // ---------------------------------------------------------------------------
  // Editing
  // ---------------------------------------------------------------------------

  /** A typed grade is kept exactly when it is a percentage; the field is flagged exactly
      when it is not empty and not a percentage, and only the edited records change. */
  lemma GradeChangeMeaning(p: Page, id: string, val: string, parse: Parser)
    ensures var q := GradeChange(p, id, val, parse);
      && |q.assessments| == |p.assessments|
      && (forall i :: 0 <= i < |p.assessments| && p.assessments[i].id != id ==> q.assessments[i] == p.assessments[i])
      && (forall i :: 0 <= i < |p.assessments| && p.assessments[i].id == id ==>
            var a := q.assessments[i];
            a.gradeInput == Some(val) && a.id == id && a.weight == p.assessments[i].weight
            && (a.grade.None? <==> val == "" || !Percent(parse(val)))
            && (a.grade.Some? ==> a.grade == parse(val) && 0.0 <= a.grade.value <= 100.0))
      && (id in q.invalidGrades <==> val != "" && !Percent(parse(val)))
      && (forall k :: k != id ==> (k in q.invalidGrades <==> k in p.invalidGrades))
  {
  }

  /** A typed weight that is not a number of at least 0 reads as 0; weights are never
      negative afterwards. */
  lemma WeightChangeMeaning(p: Page, id: string, val: string, parse: Parser)
    ensures var q := WeightChange(p, id, val, parse);
      && |q.assessments| == |p.assessments|
      && (forall i :: 0 <= i < |p.assessments| && p.assessments[i].id != id ==> q.assessments[i] == p.assessments[i])
      && (forall i :: 0 <= i < |p.assessments| && p.assessments[i].id == id ==>
            var a := q.assessments[i];
            a.weightInput == Some(val) && a.grade == p.assessments[i].grade && a.weight >= 0.0
            && (parse(val).None? || parse(val).value < 0.0 ==> a.weight == 0.0)
            && (parse(val).Some? && parse(val).value >= 0.0 ==> a.weight == parse(val).value))
      && q.invalidGrades == p.invalidGrades
  {
  }

  /** The group grade text is stored as typed, and its flag `group-<id>` is set exactly
      when it is not empty and not a percentage. */
  lemma GroupGradeChangeMeaning(p: Page, groupId: string, val: string, parse: Parser)
    ensures var q := GroupGradeChange(p, groupId, val, parse);
      && q.groupGrades[groupId] == val
      && (forall k :: k in p.groupGrades && k != groupId ==> k in q.groupGrades && q.groupGrades[k] == p.groupGrades[k])
      && ("group-" + groupId in q.invalidGrades <==> val != "" && !Percent(parse(val)))
      && (forall k :: k != "group-" + groupId ==> (k in q.invalidGrades <==> k in p.invalidGrades))
      && q.assessments == p.assessments
  {
  }

  /** Toggling flips one group's membership, and toggling twice changes nothing. */
  lemma ToggleGroupFlips(p: Page, groupId: string)
    ensures groupId in ToggleGroup(p, groupId).expandedGroups <==> groupId !in p.expandedGroups
    ensures forall k :: k != groupId ==> (k in ToggleGroup(p, groupId).expandedGroups <==> k in p.expandedGroups)
    ensures ToggleGroup(ToggleGroup(p, groupId), groupId) == p
  {
  }

  /** An empty target field leaves no required grade to show. */
  lemma EmptyTargetShowsNoRequired(p: Page, parse: Parser)
    ensures Calculate(SetTargetGrade(p, "", parse), parse).displayStats.requiredGrade.None?
  {
  }

  /** Under grades that are percentages and non-negative weights and adjustments, the
      shown current grade lies between 0 and 100. */
  lemma CalculatedGradeInRange(p: Page, parse: Parser)
    requires Sensible(GroupAssessments(p.assessments), EngineInputs(p), parse)
    ensures 0.0 <= Calculate(p, parse).displayStats.currentGrade <= 100.0
  {
    CurrentGradeMeaning(GroupAssessments(p.assessments), EngineInputs(p), parse);
  }

  // ---------------------------------------------------------------------------
  // Adding and removing
  // ---------------------------------------------------------------------------

  lemma {:induction false} NoDigitNoBase(s: string, p: nat)
    requires p <= |s| && !HasDigit(s)
    ensures BaseNameEnd(s, p).None?
    decreases |s| - p
  {
    if p < |s| {
      assert !IsDigit(s[p]);
      assert p + 1 < |s| ==> !IsDigit(s[p + 1]);
      assert p + 2 < |s| ==> !IsDigit(s[p + 2]);
      NoDigitNoBase(s, p + 1);
    }
  }

  /** Every id marked by the second pass belongs to a record of the input. */
  lemma {:induction false} ProcessedWithin(b: seq<Bucket>, ids: set<string>)
    requires forall i :: 0 <= i < |b| ==> Ids(b[i].items) <= ids
    ensures ProcessedIds(b) <= ids
  {
    if b != [] {
      ProcessedWithin(b[..|b| - 1], ids);
      assert Ids(b[|b| - 1].items) <= ids;
    }
  }

  lemma BucketIdsWithin(flat: seq<Assessment>)
    ensures ProcessedIds(CollectBuckets(flat)) <= Ids(flat)
  {
    var b := CollectBuckets(flat);
    CollectBucketsChar(flat);
    forall i | 0 <= i < |b|
      ensures Ids(b[i].items) <= Ids(flat)
    {
      forall x | x in b[i].items
        ensures x in flat
      {
        WithKeyIn(flat, b[i].key, x);
      }
    }
    ProcessedWithin(b, Ids(flat));
  }

  /** The added record has no number in its name, so it is shown on its own, as the last
      row, and every other row stays as it was. */
  lemma AddedShowsLast(p: Page, stamp: string)
    requires "new-" + stamp !in Ids(p.assessments)
    ensures GroupAssessments(AddAssessment(p, stamp).assessments)
         == GroupAssessments(p.assessments) + [Single(NewAssessment(stamp, |p.assessments|))]
  {
    var a := NewAssessment(stamp, |p.assessments|);
    var flat := p.assessments;
    var flat' := flat + [a];
    assert !HasDigit(a.name) by {
      forall i | 0 <= i < |a.name|
        ensures !IsDigit(a.name[i])
      {
      }
    }
    NoDigitNoBase(a.name, 0);
    assert KeyOf(a).None?;
    assert flat'[..|flat'| - 1] == flat;
    var b := CollectBuckets(flat);
    assert CollectBuckets(flat') == b;
    BucketIdsWithin(flat);
    assert a.id !in ProcessedIds(b);
    var P := ProcessedIds(b);
    assert Singles(flat', P) == Singles(flat, P) + [a];
    var S := Singles(flat, P);
    assert (S + [a])[..|S + [a]| - 1] == S;
  }

  /** Removing a group marks the group and every one of its children; removing a record
      marks that record; either way remove mode ends. */
  lemma RemoveMarks(p: Page, itemId: string, isGroup: bool)
    ensures var q := RemoveAssessment(p, itemId, isGroup);
      && !q.removeMode
      && p.removedItems <= q.removedItems
      && (!isGroup ==> q.removedItems == p.removedItems + {itemId})
      && (isGroup ==> forall g :: g in GroupAssessments(p.assessments) && g.Group? && g.id == itemId ==>
            itemId in q.removedItems && forall c :: c in FindGroup(GroupAssessments(p.assessments), itemId).value.children ==>
              c.id in q.removedItems)
      && (isGroup && FindGroup(GroupAssessments(p.assessments), itemId).None? ==> q.removedItems == p.removedItems)
  {
  }

  /** With distinct ids there is one group per id, so removing it marks exactly its
      children's ids together with its own. */
  lemma RemoveGroupMarksChildren(p: Page, g: DisplayItem)
    requires DistinctIds(p.assessments)
    requires g in GroupAssessments(p.assessments) && g.Group?
    ensures RemoveAssessment(p, g.id, true).removedItems == p.removedItems + {g.id} + Ids(g.children)
  {
    var items := GroupAssessments(p.assessments);
    var r := FindGroup(items, g.id);
    assert r.Some?;
    var h := r.value;
    if h != g {
      GroupIdsUnique(p.assessments, g, h);
    }
  }

  /** The groups of the display list have distinct ids (they are distinct base names). */
  lemma GroupIdsUnique(flat: seq<Assessment>, g: DisplayItem, h: DisplayItem)
    requires g in GroupAssessments(flat) && h in GroupAssessments(flat) && g.Group? && h.Group?
    requires g.id == h.id
    ensures g == h
  {
    var r := GroupAssessments(flat);
    GroupAssessmentsGroups(flat);
    var i :| 0 <= i < |r| && r[i] == g;
    var j :| 0 <= j < |r| && r[j] == h;
    assert !(i < j);
    assert !(j < i);
  }

  // ---------------------------------------------------------------------------
  // Reordering
  // ---------------------------------------------------------------------------

  /** A reorder rearranges the records shown by the display items. */
  lemma ReorderedPermutes(items: seq<DisplayItem>, d: Dragged, id: string, isGroup: bool, before: bool)
    requires Reordered(items, d, id, isGroup, before).Some?
    ensures multiset(Flatten(Reordered(items, d, id, isGroup, before).value)) == multiset(Flatten(items))
  {
    if Truthy(d.groupId) {
      var gi := IndexOfItem(items, d.groupId.value, true).value;
      var g := items[gi];
      var from, target := IndexOfChild(g.children, d.id).value, IndexOfChild(g.children, id).value;
      InsertIndexInRange(from, target, before, |g.children|);
      var to := InsertIndex(from, target, before);
      MoveSpec(g.children, from, to);
      FlattenReplaceChildren(items, gi, Move(g.children, from, to));
    } else {
      var from, target := IndexOfItem(items, d.id, d.isGroup).value, IndexOfItem(items, id, isGroup).value;
      InsertIndexInRange(from, target, before, |items|);
      FlattenMove(items, from, InsertIndex(from, target, before));
    }
  }

  /** A top-level reorder moves the dragged row and nothing else: the row taken out at its
      old place sits at its new place, and without it the two lists agree. */
  lemma TopLevelReorderMovesOne(items: seq<DisplayItem>, d: Dragged, id: string, isGroup: bool, before: bool)
    requires !Truthy(d.groupId)
    requires Reordered(items, d, id, isGroup, before).Some?
    ensures var r := Reordered(items, d, id, isGroup, before).value;
      exists from: nat, to: nat :: from < |items| && to < |r|
        && items[from].Id() == d.id && items[from].Group? == d.isGroup
        && r[to] == items[from] && Without(r, to) == Without(items, from)
  {
    var from, target := IndexOfItem(items, d.id, d.isGroup).value, IndexOfItem(items, id, isGroup).value;
    InsertIndexInRange(from, target, before, |items|);
    MoveSpec(items, from, InsertIndex(from, target, before));
  }

  /** A reorder inside a group moves one child of the dragged row's group and changes
      nothing else. */
  lemma ChildReorderMovesOne(items: seq<DisplayItem>, d: Dragged, id: string, isGroup: bool, before: bool)
    requires Truthy(d.groupId)
    requires Reordered(items, d, id, isGroup, before).Some?
    ensures var r := Reordered(items, d, id, isGroup, before).value;
      |r| == |items| &&
      exists gi: nat :: gi < |items| && items[gi].Group? && items[gi].id == d.groupId.value
        && (forall k :: 0 <= k < |items| && k != gi ==> r[k] == items[k])
        && r[gi] == items[gi].(children := r[gi].children)
        && exists from: nat, to: nat :: from < |items[gi].children| && to < |r[gi].children|
             && items[gi].children[from].id == d.id
             && r[gi].children[to] == items[gi].children[from]
             && Without(r[gi].children, to) == Without(items[gi].children, from)
  {
    var gi := IndexOfItem(items, d.groupId.value, true).value;
    var g := items[gi];
    var from, target := IndexOfChild(g.children, d.id).value, IndexOfChild(g.children, id).value;
    InsertIndexInRange(from, target, before, |g.children|);
    var to := InsertIndex(from, target, before);
    MoveSpec(g.children, from, to);
    var r := Reordered(items, d, id, isGroup, before).value;
    assert r[gi].children == Move(g.children, from, to);
  }

  lemma RebuildRearranged(flat: seq<Assessment>, r: seq<DisplayItem>)
    requires DistinctIds(flat)
    requires multiset(Flatten(r)) == multiset(Flatten(GroupAssessments(flat)))
    ensures Rebuild(flat, r) == Flatten(r)
    ensures multiset(Rebuild(flat, r)) == multiset(flat)
  {
    GroupAssessmentsPartition(flat);
    DistinctFound(flat, Flatten(r));
    RebuildIsFlatten(flat, r);
  }

  /** A drop clears the hover, and the dragged row once a drag was under way. */
  lemma DropClearsDrag(p: Page, id: string, isGroup: bool, groupId: Option<string>)
    ensures Drop(p, id, isGroup, groupId).dragOverItem.None?
    ensures CanDrag(p) && p.draggedItem.Some? ==> Drop(p, id, isGroup, groupId).draggedItem.None?
    ensures !CanDrag(p) || p.draggedItem.None? ==> Drop(p, id, isGroup, groupId) == p.(dragOverItem := None)
  {
  }

  /** With distinct ids, the records a drop reorders are a rearrangement of themselves,
      listed in the order of the reordered display items. */
  lemma ReorderRecordsPermutes(a: seq<Assessment>, d: Dragged, id: string, isGroup: bool, before: bool)
    requires DistinctIds(a)
    requires ReorderRecords(a, d, id, isGroup, before).Some?
    ensures multiset(ReorderRecords(a, d, id, isGroup, before).value) == multiset(a)
    ensures ReorderRecords(a, d, id, isGroup, before).value
         == Flatten(Reordered(GroupAssessments(a), d, id, isGroup, before).value)
  {
    var r := Reordered(GroupAssessments(a), d, id, isGroup, before).value;
    ReorderedPermutes(GroupAssessments(a), d, id, isGroup, before);
    RebuildRearranged(a, r);
  }

  /** With distinct ids, a drop leaves the records a rearrangement of themselves. */
  lemma DropPermutes(p: Page, id: string, isGroup: bool, groupId: Option<string>)
    requires DistinctIds(p.assessments)
    ensures multiset(Drop(p, id, isGroup, groupId).assessments) == multiset(p.assessments)
  {
    if CanDrag(p) && p.draggedItem.Some? && Accepts(p.draggedItem.value, id, isGroup, groupId) {
      var before := DroppedBefore(p.dragOverItem);
      var r := ReorderRecords(p.assessments, p.draggedItem.value, id, isGroup, before);
      DropAccepted(p, id, isGroup, groupId, r);
      if r.Some? {
        ReorderRecordsPermutes(p.assessments, p.draggedItem.value, id, isGroup, before);
      }
    }
  }

  /** The records after an accepted drop: the reordered ones, or the old ones when the
      reorder finds nothing to do. */
  lemma DropAccepted(p: Page, id: string, isGroup: bool, groupId: Option<string>, r: Option<seq<Assessment>>)
    requires CanDrag(p) && p.draggedItem.Some? && Accepts(p.draggedItem.value, id, isGroup, groupId)
    requires r == ReorderRecords(p.assessments, p.draggedItem.value, id, isGroup, DroppedBefore(p.dragOverItem))
    ensures Drop(p, id, isGroup, groupId).assessments == if r.Some? then r.value else p.assessments
  {
  }

  // ---------------------------------------------------------------------------
  // The controls
  // ---------------------------------------------------------------------------

  /** While a drop selection is under way, no record, field, mode or statistic can be
      changed through the add, remove-mode and calculate buttons or the input fields. */
  lemma FrozenWhileChoosing(p: Page, stamp: string, id: string, val: string, parse: Parser)
    requires p.dropMode != NotDropping
    ensures PressAdd(p, stamp) == p && PressRemoveToggle(p) == p && PressCalculate(p, parse) == p
    ensures EditWeight(p, id, val, parse) == p && EditGrade(p, id, val, parse) == p
    ensures EditGroupGrade(p, id, val, parse) == p
  {
  }

  /** A routed-away record's weight and grade, and a routed-away or expanded group's
      average, cannot be edited. */
  lemma RoutedRowsLocked(p: Page, id: string, val: string, parse: Parser)
    ensures IsDropped(p.droppedMap, id) ==> EditWeight(p, id, val, parse) == p && EditGrade(p, id, val, parse) == p
    ensures IsDropped(p.droppedMap, id) || id in p.expandedGroups ==> EditGroupGrade(p, id, val, parse) == p
  {
  }

  /** Dividing evenly routes the chosen source to the sentinel exactly when only records
      added on the page have been removed; once a record of the course is removed the
      button does nothing. */
  lemma DistributeNeedsOriginals(p: Page)
    requires Consistent(p) && p.dropMode == SelectTarget
    ensures HasRemovedOriginalItems(p) ==> PressDistribute(p) == p
    ensures (forall id :: id in p.removedItems ==> "new-" <= id) && Truthy(p.dropSourceId) ==>
      && Lookup(PressDistribute(p).droppedMap, p.dropSourceId.value) == Some(DistributeEvenlyId)
      && PressDistribute(p).dropMode == NotDropping
    ensures Consistent(PressDistribute(p))
  {
    DistributeAddsOneKey(p);
    DropHandlersKeepConsistent(p, "");
  }

  /** In remove mode a row's click removes that row, leaves the routing table and the drop
      selection alone and ends remove mode; with neither remove mode nor a selection it
      does nothing. */
  lemma RowClickDispatch(p: Page, id: string, isGroup: bool)
    requires Consistent(p)
    ensures p.removeMode ==>
      var q := RowClick(p, id, isGroup);
      && q == RemoveAssessment(p, id, isGroup)
      && q.droppedMap == p.droppedMap && q.dropMode == p.dropMode && !q.removeMode
      && p.removedItems + (if isGroup then {} else {id}) <= q.removedItems
    ensures !p.removeMode && p.dropMode == NotDropping ==> RowClick(p, id, isGroup) == p
    ensures !p.removeMode && p.dropMode != NotDropping ==> RowClick(p, id, isGroup) == ItemClick(p, id).page
    ensures RowClick(p, id, isGroup) != p ==> p.removeMode || p.dropMode != NotDropping
  {
  }

  /** A single row hands its clicks on differently from a group or a child row, to the
      same effect: outside a selection `handleItemClick` ignores the click. */
  lemma SingleRowClickIsRowClick(p: Page, id: string)
    requires Consistent(p)
    ensures SingleRowClick(p, id) == RowClick(p, id, false)
  {
    SourceClick(p, id);
  }

  /** The clicks that reach a row's handler after another handler: in remove mode the
      undo button also removes its row, and a click on a group's name both expands or
      collapses the group and removes it. During a selection the undo button does nothing
      of its own. */
  lemma BubbledClicks(p: Page, id: string, isGroup: bool, isSingle: bool)
    requires Consistent(p)
    ensures p.removeMode && p.dropMode == NotDropping ==>
      && UndropClick(p, id, isGroup, isSingle) == RemoveAssessment(Undrop(p, id), id, isGroup && !isSingle)
      && GroupNameClick(p, id) == RemoveAssessment(ToggleGroup(p, id), id, true)
    ensures !p.removeMode && p.dropMode == NotDropping ==>
      UndropClick(p, id, isGroup, isSingle) == Undrop(p, id) && GroupNameClick(p, id) == ToggleGroup(p, id)
    ensures p.dropMode != NotDropping ==>
      UndropClick(p, id, isGroup, isSingle) == (if isSingle then SingleRowClick(p, id) else RowClick(p, id, isGroup))
      && GroupNameClick(p, id) == RowClick(p, id, true)
  {
    var q := Undrop(p, id);
    UndropRemovesOneKey(p, id);
    DropHandlersKeepConsistent(p, id);
    SingleRowClickIsRowClick(q, id);
  }
}
