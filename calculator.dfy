/** The calculator page as an object: its session fields, and one method per event
    handler that updates them in place (page.tsx:31-58, 164-238, 390-634). Each method
    is proved to leave the fields as the matching state function of `PageState`
    describes. */
module CalculatorPage {
  import opened Common
  import opened Grouping
  import opened Weights
  import opened GradeEngine
  import opened Reorder
  import PageState
  import PageProps

  /** `group.children.forEach(child => newRemoved.add(child.id))` */
  method MarkChildren(marked: set<string>, children: seq<Assessment>) returns (newRemoved: set<string>)
    ensures newRemoved == marked + Ids(children)
  {
    newRemoved := marked;
    for i := 0 to |children|
      invariant newRemoved == marked + Ids(children[..i])
    {
      assert Ids(children[..i + 1]) == Ids(children[..i]) + {children[i].id} by {
        assert children[..i + 1] == children[..i] + [children[i]];
      }
      newRemoved := newRemoved + {children[i].id};
    }
    assert children[..|children|] == children;
  }

  class Calculator {
    var assessments: seq<Assessment>
    var targetGrade: Option<real>
    var invalidGrades: set<string>
    var dropMode: PageState.DropMode
    var dropSourceId: Option<string>
    var droppedMap: Table
    var removeMode: bool
    var removedItems: set<string>
    var expandedGroups: set<string>
    var groupGrades: map<string, string>
    var displayStats: PageState.Stats
    var draggedItem: Option<PageState.Dragged>
    var dragOverItem: Option<PageState.Hover>

    /** The fields as one value. */
    ghost function Model(): PageState.Page
      reads this
    {
      PageState.Page(assessments, targetGrade, invalidGrades, dropMode, dropSourceId, droppedMap,
                     removeMode, removedItems, expandedGroups, groupGrades, displayStats,
                     draggedItem, dragOverItem)
    }

    ghost predicate Valid()
      reads this
    {
      PageState.Consistent(Model())
    }

    /** The page as it first renders. */
    constructor ()
      ensures Valid() && Model() == PageState.Initial()
    {
      assessments := [];
      targetGrade := None;
      invalidGrades := {};
      dropMode := PageState.NotDropping;
      dropSourceId := None;
      droppedMap := [];
      removeMode := false;
      removedItems := {};
      expandedGroups := {};
      groupGrades := map[];
      displayStats := PageState.Stats(0.0, None, 0.0);
      draggedItem := None;
      dragOverItem := None;
    }

    // -------------------------------------------------------------------------
    // The drop selection
    // -------------------------------------------------------------------------

    method DropButtonClick()
      requires Valid()
      modifies this
      ensures Valid() && Model() == PageState.DropButtonClick(old(Model()))
    {
      PageProps.DropHandlersKeepConsistent(Model(), "");
      if dropMode == PageState.NotDropping {
        dropMode := PageState.SelectSource;
      } else {
        dropMode := PageState.NotDropping;
        dropSourceId := None;
      }
    }

    method ItemClick(itemId: string) returns (outcome: PageState.Click)
      requires Valid()
      modifies this
      ensures Valid()
      ensures Model() == PageState.ItemClick(old(Model()), itemId).page
      ensures outcome == PageState.ItemClick(old(Model()), itemId).outcome
    {
      PageProps.DropHandlersKeepConsistent(Model(), itemId);
      if dropMode == PageState.NotDropping {
        return PageState.Ignored;
      }
      if dropMode == PageState.SelectSource {
        if IsDropped(droppedMap, itemId) {
          return PageState.Ignored;
        }
        dropSourceId := Some(itemId);
        dropMode := PageState.SelectTarget;
        return PageState.SourceChosen;
      }
      var source := dropSourceId.value;
      if itemId == source || IsDropped(droppedMap, itemId) {
        return PageState.Ignored;
      }
      var groups := GroupAssessmentsLoop(assessments);
      var sourceGroupId: Option<string> := None;
      var sourceGroupObj := PageState.FindItem(groups, source);
      if sourceGroupObj.Some? {
        sourceGroupId := Some(sourceGroupObj.value.Id());
      } else {
        var parent := PageState.FindParent(groups, source);
        if parent.Some? {
          sourceGroupId := Some(parent.value.id);
        }
      }
      var targetGroupId: Option<string> := None;
      var targetGroupObj := PageState.FindItem(groups, itemId);
      if targetGroupObj.Some? {
        targetGroupId := Some(targetGroupObj.value.Id());
      } else {
        var parent := PageState.FindParent(groups, itemId);
        if parent.Some? {
          targetGroupId := Some(parent.value.id);
        }
      }
      if PageState.Truthy(sourceGroupId) && PageState.Truthy(targetGroupId) && sourceGroupId == targetGroupId {
        var isChildToParent := sourceGroupObj.None? && targetGroupObj.Some?;
        if !isChildToParent {
          return PageState.Rejected;
        }
      }
      droppedMap := Put(droppedMap, source, itemId);
      dropMode := PageState.NotDropping;
      dropSourceId := None;
      return PageState.Routed;
    }

    method Undrop(sourceId: string)
      requires Valid()
      modifies this
      ensures Valid() && Model() == PageState.Undrop(old(Model()), sourceId)
    {
      PageProps.DropHandlersKeepConsistent(Model(), sourceId);
      if dropMode != PageState.NotDropping {
        return;
      }
      droppedMap := Delete(droppedMap, sourceId);
    }

    method DistributeEvenly()
      requires Valid()
      modifies this
      ensures Valid() && Model() == PageState.DistributeEvenly(old(Model()))
    {
      PageProps.DropHandlersKeepConsistent(Model(), "");
      if !PageState.Truthy(dropSourceId) {
        return;
      }
      droppedMap := Put(droppedMap, dropSourceId.value, DistributeEvenlyId);
      dropMode := PageState.NotDropping;
      dropSourceId := None;
    }

    // -------------------------------------------------------------------------
    // Computing, toggling and editing
    // -------------------------------------------------------------------------

    /** `handleCalculate`, with the adjustment fold the page recomputes on each render. */
    method Calculate(parse: Parser)
      requires Valid()
      modifies this
      ensures Valid() && Model() == PageState.Calculate(old(Model()), parse)
    {
      var weightAdjustments := ComputeAdjustments(assessments, droppedMap, removedItems);
      var s := Snapshot(droppedMap, removedItems, expandedGroups, groupGrades, weightAdjustments);
      var current := CalculateCurrentGrade(assessments, s, parse);
      var required := CalculateRequiredForTarget(assessments, s, parse, targetGrade);
      var progress := CalculateTotalProgress(assessments, s);
      displayStats := PageState.Stats(current, required, progress);
    }

    method SetTargetGrade(value: string, parse: Parser)
      requires Valid()
      modifies this
      ensures Valid() && Model() == PageState.SetTargetGrade(old(Model()), value, parse)
    {
      targetGrade := if value != "" then parse(value) else None;
    }

    method ToggleGroup(groupId: string)
      requires Valid()
      modifies this
      ensures Valid() && Model() == PageState.ToggleGroup(old(Model()), groupId)
    {
      var newSet := expandedGroups;
      if groupId in newSet {
        newSet := newSet - {groupId};
      } else {
        newSet := newSet + {groupId};
      }
      expandedGroups := newSet;
    }

    method ToggleRemoveMode()
      requires Valid()
      modifies this
      ensures Valid() && Model() == PageState.ToggleRemoveMode(old(Model()))
    {
      removeMode := !removeMode;
    }

    method GroupGradeChange(groupId: string, val: string, parse: Parser)
      requires Valid()
      modifies this
      ensures Valid() && Model() == PageState.GroupGradeChange(old(Model()), groupId, val, parse)
    {
      var num := parse(val);
      var isInvalid := val != "" && (num.None? || num.value < 0.0 || num.value > 100.0);
      groupGrades := groupGrades[groupId := val];
      if isInvalid {
        invalidGrades := invalidGrades + {"group-" + groupId};
      } else {
        invalidGrades := invalidGrades - {"group-" + groupId};
      }
    }

    method WeightChange(id: string, val: string, parse: Parser)
      requires Valid()
      modifies this
      ensures Valid() && Model() == PageState.WeightChange(old(Model()), id, val, parse)
    {
      var num := parse(val);
      var isValid := num.Some? && num.value >= 0.0;
      assessments := PageState.EditWhere(assessments, id, PageState.WeightEdit(val, if isValid then num.value else 0.0));
    }

    method GradeChange(id: string, val: string, parse: Parser)
      requires Valid()
      modifies this
      ensures Valid() && Model() == PageState.GradeChange(old(Model()), id, val, parse)
    {
      var num := parse(val);
      var withinRange := num.Some? && num.value >= 0.0 && num.value <= 100.0;
      var isInvalid := val != "" && !withinRange;
      var grade := if val == "" then None else if withinRange then num else None;
      assessments := PageState.EditWhere(assessments, id, PageState.GradeEdit(val, grade));
      if isInvalid {
        invalidGrades := invalidGrades + {id};
      } else {
        invalidGrades := invalidGrades - {id};
      }
    }

    // -------------------------------------------------------------------------
    // Adding and removing
    // -------------------------------------------------------------------------

    /** `handleAddAssessment`; `stamp` stands for the clock reading in the new id. */
    method AddAssessment(stamp: string)
      requires Valid()
      modifies this
      ensures Valid() && Model() == PageState.AddAssessment(old(Model()), stamp)
    {
      var newAssessment := Assessment("new-" + stamp, "New Assessment", 0.0, Some("0"), None, Some(""),
                                      Some(|assessments| * 100));
      assessments := assessments + [newAssessment];
    }

    method RemoveAssessment(itemId: string, isGroup: bool)
      requires Valid()
      modifies this
      ensures Valid() && Model() == PageState.RemoveAssessment(old(Model()), itemId, isGroup)
    {
      var newRemoved := removedItems;
      if isGroup {
        var displayItems := GroupAssessmentsLoop(assessments);
        var group := PageState.FindGroup(displayItems, itemId);
        if group.Some? {
          newRemoved := newRemoved + {itemId};
          newRemoved := MarkChildren(newRemoved, group.value.children);
        }
      } else {
        newRemoved := newRemoved + {itemId};
      }
      removedItems := newRemoved;
      removeMode := false;
    }

    method RemoveModeClick(itemId: string, isGroup: bool)
      requires Valid()
      modifies this
      ensures Valid() && Model() == PageState.RemoveModeClick(old(Model()), itemId, isGroup)
    {
      if !removeMode {
        return;
      }
      RemoveAssessment(itemId, isGroup);
    }

    // -------------------------------------------------------------------------
    // Drag and drop
    // -------------------------------------------------------------------------

    method DragStart(id: string, isGroup: bool, groupId: Option<string>)
      requires Valid()
      modifies this
      ensures Valid() && Model() == PageState.DragStart(old(Model()), id, isGroup, groupId)
    {
      if dropMode != PageState.NotDropping || removeMode {
        return;
      }
      draggedItem := Some(PageState.Dragged(id, isGroup, groupId));
    }

    /** `handleDragOver`; `position` is the half of the row under the pointer. */
    method DragOver(id: string, isGroup: bool, groupId: Option<string>, position: PageState.Position)
      requires Valid()
      modifies this
      ensures Valid() && Model() == PageState.DragOver(old(Model()), id, isGroup, groupId, position)
    {
      if dropMode != PageState.NotDropping || removeMode {
        return;
      }
      if draggedItem.None? {
        return;
      }
      var d := draggedItem.value;
      if d.id == id && d.groupId == groupId {
        return;
      }
      if PageState.Truthy(d.groupId) {
        if groupId != d.groupId {
          return;
        }
      }
      if !d.isGroup && !PageState.Truthy(d.groupId) && isGroup {
        return;
      }
      dragOverItem := Some(PageState.Hover(id, isGroup, groupId, position));
    }

    method DragLeave()
      requires Valid()
      modifies this
      ensures Valid() && Model() == PageState.DragLeave(old(Model()))
    {
      dragOverItem := None;
    }

    method DragEnd()
      requires Valid()
      modifies this
      ensures Valid() && Model() == PageState.DragEnd(old(Model()))
    {
      draggedItem := None;
      dragOverItem := None;
    }

    /** page.tsx:522-590: the splices on the display items, then the records in their
        new order. */
    static method ReorderLoop(assessments: seq<Assessment>, d: PageState.Dragged, id: string, isGroup: bool,
                              before: bool) returns (reordered: Option<seq<Assessment>>)
      ensures reordered == PageState.ReorderRecords(assessments, d, id, isGroup, before)
    {
      var currentItems := GroupAssessmentsLoop(assessments);
      var itemsToReorder := SpliceItems(currentItems, d, id, isGroup, before);
      if itemsToReorder.None? {
        return None;
      }
      var reorderedAssessments := RebuildLoop(assessments, itemsToReorder.value);
      return Some(reorderedAssessments);
    }

    /** The splices of page.tsx:524-573 on the display items. */
    static method SpliceItems(items: seq<DisplayItem>, d: PageState.Dragged, id: string, isGroup: bool, before: bool)
      returns (itemsToReorder: Option<seq<DisplayItem>>)
      ensures itemsToReorder == PageState.Reordered(items, d, id, isGroup, before)
    {
      if PageState.Truthy(d.groupId) {
        var groupIndex := PageState.IndexOfItem(items, d.groupId.value, true);
        if groupIndex.None? {
          return None;
        }
        var group := items[groupIndex.value];
        var sourceIndex := PageState.IndexOfChild(group.children, d.id);
        var targetIndex := PageState.IndexOfChild(group.children, id);
        if sourceIndex.None? || targetIndex.None? {
          return None;
        }
        var newChildren := Without(group.children, sourceIndex.value);
        InsertIndexInRange(sourceIndex.value, targetIndex.value, before, |group.children|);
        var at := InsertIndex(sourceIndex.value, targetIndex.value, before);
        newChildren := newChildren[..at] + [group.children[sourceIndex.value]] + newChildren[at..];
        return Some(items[groupIndex.value := group.(children := newChildren)]);
      } else {
        var sourceIndex := PageState.IndexOfItem(items, d.id, d.isGroup);
        var targetIndex := PageState.IndexOfItem(items, id, isGroup);
        if sourceIndex.None? || targetIndex.None? {
          return None;
        }
        var rest := Without(items, sourceIndex.value);
        InsertIndexInRange(sourceIndex.value, targetIndex.value, before, |items|);
        var at := InsertIndex(sourceIndex.value, targetIndex.value, before);
        return Some(rest[..at] + [items[sourceIndex.value]] + rest[at..]);
      }
    }

    method Drop(id: string, isGroup: bool, groupId: Option<string>)
      requires Valid()
      modifies this
      ensures Valid() && Model() == PageState.Drop(old(Model()), id, isGroup, groupId)
    {
      var hover := dragOverItem;
      dragOverItem := None;
      if dropMode != PageState.NotDropping || removeMode {
        return;
      }
      if draggedItem.None? {
        return;
      }
      var d := draggedItem.value;
      if d.id == id && d.groupId == groupId {
        draggedItem := None;
        return;
      }
      if PageState.Truthy(d.groupId) {
        if groupId != d.groupId {
          draggedItem := None;
          return;
        }
      }
      if !d.isGroup && !PageState.Truthy(d.groupId) && isGroup {
        draggedItem := None;
        return;
      }
      ReorderOnDrop(d, id, isGroup, PageState.DroppedBefore(hover));
    }

    /** The accepted drop: the reordered records, if any, replace the table; the drag ends. */
    method ReorderOnDrop(d: PageState.Dragged, id: string, isGroup: bool, before: bool)
      requires Valid()
      modifies this
      ensures Valid()
      ensures Model() == match PageState.ReorderRecords(old(assessments), d, id, isGroup, before)
        case None => old(Model()).(draggedItem := None)
        case Some(reordered) => old(Model()).(assessments := reordered, draggedItem := None)
    {
      var reorderedAssessments := ReorderLoop(assessments, d, id, isGroup, before);
      if reorderedAssessments.Some? {
        assessments := reorderedAssessments.value;
      }
      draggedItem := None;
    }

    // -------------------------------------------------------------------------
    // The controls
    // -------------------------------------------------------------------------

    /** The "Divide weight evenly" button. */
    method PressDistribute()
      requires Valid()
      modifies this
      ensures Valid() && Model() == PageState.PressDistribute(old(Model()))
    {
      var hasRemovedOriginalItems := AnyOriginal(removedItems);
      if dropMode == PageState.SelectTarget && !hasRemovedOriginalItems {
        DistributeEvenly();
      }
    }

    method PressAdd(stamp: string)
      requires Valid()
      modifies this
      ensures Valid() && Model() == PageState.PressAdd(old(Model()), stamp)
    {
      if dropMode == PageState.NotDropping && !removeMode {
        AddAssessment(stamp);
      }
    }

    method PressRemoveToggle()
      requires Valid()
      modifies this
      ensures Valid() && Model() == PageState.PressRemoveToggle(old(Model()))
    {
      if dropMode == PageState.NotDropping {
        ToggleRemoveMode();
      }
    }

    method PressCalculate(parse: Parser)
      requires Valid()
      modifies this
      ensures Valid() && Model() == PageState.PressCalculate(old(Model()), parse)
    {
      if dropMode == PageState.NotDropping {
        Calculate(parse);
      }
    }

    method EditWeight(id: string, val: string, parse: Parser)
      requires Valid()
      modifies this
      ensures Valid() && Model() == PageState.EditWeight(old(Model()), id, val, parse)
    {
      if dropMode == PageState.NotDropping && !IsDropped(droppedMap, id) {
        WeightChange(id, val, parse);
      }
    }

    method EditGrade(id: string, val: string, parse: Parser)
      requires Valid()
      modifies this
      ensures Valid() && Model() == PageState.EditGrade(old(Model()), id, val, parse)
    {
      if dropMode == PageState.NotDropping && !IsDropped(droppedMap, id) {
        GradeChange(id, val, parse);
      }
    }

    method EditGroupGrade(groupId: string, val: string, parse: Parser)
      requires Valid()
      modifies this
      ensures Valid() && Model() == PageState.EditGroupGrade(old(Model()), groupId, val, parse)
    {
      if dropMode == PageState.NotDropping && groupId !in expandedGroups && !IsDropped(droppedMap, groupId) {
        GroupGradeChange(groupId, val, parse);
      }
    }

    /** A click on a group row or a child row. */
    method RowClick(id: string, isGroup: bool)
      requires Valid()
      modifies this
      ensures Valid() && Model() == PageState.RowClick(old(Model()), id, isGroup)
    {
      if removeMode {
        RemoveModeClick(id, isGroup);
        return;
      }
      if dropMode != PageState.NotDropping {
        var outcome := ItemClick(id);
      }
    }

    /** A click on a single row. */
    method SingleRowClick(id: string)
      requires Valid()
      modifies this
      ensures Valid() && Model() == PageState.SingleRowClick(old(Model()), id)
    {
      if removeMode {
        RemoveModeClick(id, false);
        return;
      }
      var outcome := ItemClick(id);
    }

    /** A click on a group's name, which then reaches the group row. */
    method GroupNameClick(groupId: string)
      requires Valid()
      modifies this
      ensures Valid() && Model() == PageState.GroupNameClick(old(Model()), groupId)
    {
      if dropMode == PageState.NotDropping {
        ToggleGroup(groupId);
      }
      RowClick(groupId, true);
    }

    /** A click on a row's undo button, which then reaches the row. */
    method UndropClick(id: string, isGroup: bool, isSingle: bool)
      requires Valid()
      modifies this
      ensures Valid() && Model() == PageState.UndropClick(old(Model()), id, isGroup, isSingle)
    {
      Undrop(id);
      if isSingle {
        SingleRowClick(id);
      } else {
        RowClick(id, isGroup);
      }
    }
  }

  /** `Array.from(removedItems).some(id => !id.startsWith('new-'))` */
  method AnyOriginal(removedItems: set<string>) returns (found: bool)
    ensures found == exists id :: id in removedItems && !("new-" <= id)
  {
    found := false;
    var rest := removedItems;
    while rest != {} && !found
      invariant rest <= removedItems
      invariant !found ==> forall id :: id in removedItems && id !in rest ==> "new-" <= id
      invariant found ==> exists id :: id in removedItems && !("new-" <= id)
      decreases |rest|
    {
      var id :| id in rest;
      if !("new-" <= id) {
        found := true;
      }
      rest := rest - {id};
    }
  }
}
