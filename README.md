# GooseGrade in Dafny

GooseGrade lets a student explore "what do I need on the rest" scenarios for a course whose
grading scheme is a weighted list of assessments. This project models two parts of it.

**The calculator page** (`app/calculator/page.tsx`):

- `groupAssessments` clusters a flat list of records into numbered groups ("Quiz 1", "Quiz 2" →
  "Quizzes") and single rows.
- A two-click selection routes a record's weight to another row, or spreads it evenly over all
  other active records (`droppedMap` with its `__DISTRIBUTE_EVENLY__` sentinel).
- The page folds the routing table into weight adjustments and derives effective weights.
- From those it computes the current grade, the grade needed on the remaining work for a target,
  and the share of the weight already graded.
- The other handlers edit grades and weights, expand and collapse groups, add and remove rows,
  and reorder rows by dragging.

**The ingestion scripts**:

- `clean-assessments.ts` removes duplicate and summary rows and standardises names.
- `outlineParser.ts` normalises course codes, decodes term ids and parses the reply text into
  assessments.
- `scrape-course.ts` expands counted assessments into numbered rows.
- `normalize-weights.ts` rescales each section's weights to total exactly 100.
- `add-course.ts` chains scraping, checking and normalising.

## How the source is modelled

- **Page state.** React state becomes the class `CalculatorPage.Calculator`. It has one field per
  `useState` hook, and `Model()` is its value as a `PageState.Page`. Each handler is a method
  whose `ensures` ties the new state to a pure transition function of `PageState`. The
  properties are lemmas in `PageProps` about those functions.
- **Loops.** Every loop of the source (grouping passes, the adjustment fold, the three grade
  loops, the cleaning passes, the normaliser) is a `method` with a `for` or `while` loop. Its
  postcondition equates the result with a prefix-recursive specification function. The lemmas
  are stated about that function.
- **Numbers.** `parseFloat` is an abstract parameter `parse: string -> Option<real>`, where `None`
  stands for `NaN`. Arithmetic is exact on `real`.
- **Strings.** JavaScript's whitespace class `\s` and its line terminators are modelled exactly.
  Case mapping is ASCII only.
- **Routing table.** `droppedMap` is a sequence of entries in the order a JavaScript object
  enumerates its keys when no key is an array index. Setting an existing key replaces it in
  place, and a new key is appended. Keys that are array indices are not modelled (see "Left out").
- **Controls.** The page disables or hides some buttons and fields depending on the state.
  Each such control is a `PageState` function that runs the handler only when the control
  can be used (`PressAdd`, `EditGrade`, …). The row click handlers, which pick a handler by
  mode, are `RowClick` and `SingleRowClick`.

Four behaviours of the code are easy to miss. The model follows the code:

- A chain of routings passes accumulated weight through. The source weight of an entry is its
  base weight plus what it has already received (`page.tsx:130`, `page.tsx:158`), so routing `a → b` then
  `b → c` gives `c` the weights of both. The fold depends on the entry order
  (`WeightsExample.ChainForward`, `ChainBackward`, `FoldIsOrderDependent`).
- A group id used as a source redistributes nothing. `assessments.find` fails for it
  (`page.tsx:128-129`, `page.tsx:156-157`, `Weights.UnknownSourceAddsNothing`).
- The progress figure counts a collapsed group whose group grade is a non-empty string that is
  not a number. The current grade does not count it
  (`GradeEngineExample.ProgressCountsUnreadableGroupGrade`).
- The required grade is not capped at 100, only floored at 0
  (`GradeEngineExample.RequiredNotCapped`).

## Model

| member | source | states |
|---|---|---|
| Grouping.GroupAssessmentsLoop | app/calculator/page.tsx:61-122 | the four push loops of `groupAssessments` compute exactly the display list `GroupAssessments(flat)` |
| Grouping.CollectBucketsLoop | app/calculator/page.tsx:73-82 | the first pass builds `CollectBuckets(flat)` |
| Grouping.ProcessedIdsLoop | app/calculator/page.tsx:84-90 | the second pass marks `ProcessedIds(groups)` |
| Grouping.SinglesLoop | app/calculator/page.tsx:92-96 | the third pass keeps the unmarked records in input order |
| Grouping.GroupItemsLoop | app/calculator/page.tsx:100-117 | the fourth pass turns every bucket of two or more into a group |
| Grouping.BaseNameEndSpec | app/calculator/page.tsx:74 | the lazy group of `^(.*?) ?#?\d+` stops at the first position where ` ?#?\d+` matches, and the match fails when every such position lies past a line terminator |
| Grouping.KeyHasNoDigit | app/calculator/page.tsx:74-77 | a bucket key never contains a digit |
| Grouping.EndsWithQuizMeaning | app/calculator/page.tsx:66-71 | the suffix tests of `pluralize` are case-insensitive tests on the lower-cased name |
| Grouping.PluralizeEndsInS | app/calculator/page.tsx:66-71 | every group name ends in an "s" |
| Grouping.PluralizeQuiz | app/calculator/page.tsx:68 | "Quiz" becomes "Quizzes" |
| Grouping.PluralizeLab | app/calculator/page.tsx:70 | "Lab" becomes "Labs" |
| Grouping.PluralizeAlreadyPlural | app/calculator/page.tsx:69 | "Labs" stays "Labs" |
| Grouping.PluralizeQuoted | app/calculator/page.tsx:67 | surrounding quotes are dropped before pluralising |
| Grouping.FirstNumberSpec | app/calculator/page.tsx:103-104 | the sort key of a child is the value of its first run of digits, or 0 when it has none |
| Grouping.BucketIndex | app/calculator/page.tsx:78-79 | finds the bucket of a key, or reports that no bucket has it |
| GroupingSort.SortByNumberPerm | app/calculator/page.tsx:102-106 | sorting the children only reorders them |
| GroupingSort.SortByNumberSum | app/calculator/page.tsx:102-108 | sorting keeps the group's weight total |
| GroupingSort.SortByNumberSorted | app/calculator/page.tsx:102-106 | children end up ordered by their first number |
| GroupingSort.SortByNumberStable | app/calculator/page.tsx:102-106 | children with equal numbers keep their input order |
| GroupingSort.InsertByNumberMembers | app/calculator/page.tsx:102-106 | one insertion step adds the new child and keeps every other one |
| GroupingProps.CollectBucketsChar | app/calculator/page.tsx:73-82 | every bucket holds, in order, exactly the records with its key, and no key has two buckets |
| GroupingProps.CollectBucketsOrdered | app/calculator/page.tsx:73-82 | buckets appear in the order their base names are first used |
| GroupingProps.ProcessedIdsChar | app/calculator/page.tsx:84-90 | with ids apart across buckets, the marked ids are exactly those of buckets holding two or more records |
| GroupingProps.GroupAssessmentsPartition | app/calculator/page.tsx:61-122 | with unique ids, the display list shows every input record exactly once, as a child or as a single row |
| GroupingProps.GroupAssessmentsGroups | app/calculator/page.tsx:100-121 | there is a group for a base name exactly when two or more records share it; it holds those records sorted, with their pluralised name and summed weight; groups come first, in first-use order |
| GroupingIdempotence.GroupIdempotent | app/calculator/page.tsx:61-122 | with unique ids, grouping the records a display list shows, in display order, gives the same display list again |
| GroupingIdempotence.SortTwice | app/calculator/page.tsx:102-106 | sorting sorted children changes nothing |
| GroupingProps.GroupAssessmentsSingles | app/calculator/page.tsx:92-96 | with unique ids, the single rows are exactly the records no other record shares a base name with, in input order |
| GroupingProps.MarkedIffGrouped | app/calculator/page.tsx:84-96 | a record is marked exactly when it is not alone under its base name |
| GroupingExample.QuizzesExample | app/calculator/page.tsx:61-122 | "Quiz 1", "Quiz 2", "Quiz 3" at weight 10 become one group "Quizzes" of weight 30 |
| Weights.PutLookup | app/calculator/page.tsx:211-214 | after setting a key it maps to the new target, and every other key is unchanged |
| Weights.PutSources | app/calculator/page.tsx:232-235 | a present key keeps its place and a new key is appended (object key order) |
| Weights.DeleteLookup | app/calculator/page.tsx:223-226 | after deleting a key it is absent, and every other key is unchanged |
| Weights.DeleteSources | app/calculator/page.tsx:223-226 | deleting removes only that key's entry |
| Weights.FindByIdSpec | app/calculator/page.tsx:128 | `find` returns the first record with the id, and nothing only when there is none |
| Weights.RecipientsMember | app/calculator/page.tsx:133-145 | a record shares an even distribution exactly when it is an eligible single or an eligible child of an eligible group |
| Weights.RecipientsEligible | app/calculator/page.tsx:135-140 | the source, routed-away records and removed records never share |
| Weights.UnknownSourceAddsNothing | app/calculator/page.tsx:128-129 | an entry whose source is not a flat record adds nothing |
| Weights.TargetStep | app/calculator/page.tsx:155-160 | a specific target gains the source's weight plus what the source already gained, and no other id changes |
| Weights.DistributeStep | app/calculator/page.tsx:127-154 | an even distribution gives each recipient `sourceWeight / n` per occurrence, and nothing changes when there are none |
| Weights.FoldNonNegative | app/calculator/page.tsx:124-161 | with non-negative weights every adjustment is non-negative |
| Weights.CollectRecipients | app/calculator/page.tsx:133-145 | the `forEach` filling `allOtherItems` yields `Recipients` |
| Weights.ShareLoop | app/calculator/page.tsx:147-153 | each recipient gains `perItem` once per occurrence |
| Weights.ApplyEntry | app/calculator/page.tsx:126-160 | the body for one entry computes `Step` |
| Weights.ComputeAdjustments | app/calculator/page.tsx:124-161 | the whole fold yields `WeightAdjustments(flat, table, removed)` |
| WeightsExample.ChainForward | app/calculator/page.tsx:126-160 | with `a → b` then `b → c`, `c` receives `b`'s weight and what `b` got from `a` |
| WeightsExample.ChainBackward | app/calculator/page.tsx:126-160 | in the other order `c` receives only `b`'s own weight |
| WeightsExample.FoldIsOrderDependent | app/calculator/page.tsx:124-161 | the same two entries in two orders give different adjustments |
| WeightsExample.SpreadExample | app/calculator/page.tsx:127-154 | spreading 20 over two records of 10 leaves each of them carrying 20 |
| EffectiveWeights.EffectiveWeightOf | app/calculator/page.tsx:240-252 | the loop computes `EffectiveWeight` |
| EffectiveWeights.ActiveSumIsSum | app/calculator/page.tsx:242-245 | the running sum is the weight of the children not routed away |
| EffectiveWeights.CollapsedIgnoresChildAdjustments | app/calculator/page.tsx:240-252 | a collapsed group carries its active children's base weights plus its own adjustment, whatever its children gained |
| EffectiveWeights.DistributedChildFormula | app/calculator/page.tsx:254-266 | a routed-away child carries 0; any other child carries its weight, its own adjustment and an even share of the group's |
| EffectiveWeights.ExpandedGroupTotal | app/calculator/page.tsx:254-266 | the children of an expanded group carry together the active weight plus all the adjustments, or 0 with no active child |
| EffectiveWeights.ExpandedMatchesCollapsed | app/calculator/page.tsx:240-266 | with no child adjustments, expanding a group does not change the weight it carries |
| EffectiveWeights.EffectiveNonNegative | app/calculator/page.tsx:240-252 | with non-negative inputs every effective weight is non-negative |
| GradeEngine.CalculateCurrentGrade | app/calculator/page.tsx:269-308 | the nested loops compute `CurrentGrade` over `groupAssessments(assessments)` |
| GradeEngine.CalculateRequiredForTarget | app/calculator/page.tsx:310-364 | the nested loops compute `RequiredForTarget` |
| GradeEngine.NeededPercent | app/calculator/page.tsx:357-363 | with no weight remaining there is no answer, otherwise `Math.max(0, needed)` |
| GradeEngine.CalculateTotalProgress | app/calculator/page.tsx:366-388 | the nested loops compute `TotalProgress` |
| GradeEngineProps.CurrentTotalsBounded | app/calculator/page.tsx:269-308 | with percentage grades and non-negative weights, the earned weight lies between 0 and the graded weight |
| GradeEngineProps.CurrentGradeMeaning | app/calculator/page.tsx:269-308 | the current grade is earned/graded as a percentage, 0 when nothing is graded, and between 0 and 100 under sensible inputs |
| GradeEngineProps.RequiredNoneCases | app/calculator/page.tsx:311-359 | there is no required grade when the target is empty, not a number or 0, or no weight remains |
| GradeEngineProps.RequiredAchievesTarget | app/calculator/page.tsx:310-364 | scoring the required grade on all remaining weight reaches the target exactly; 0 means the target is already secured |
| GradeEngineProps.RequiredAgreesWithCurrent | app/calculator/page.tsx:269-364 | both calculations read the same earned and graded weight |
| GradeEngineProps.ProgressIsGradedWeight | app/calculator/page.tsx:366-388 | progress is the graded weight of the current grade, unless a collapsed group holds a grade that is not a number |
| GradeEngineProps.Percentage | app/calculator/page.tsx:306-307 | `earned / total * 100` is a percentage in [0, 100] when 0 ≤ earned ≤ total |
| GradeEngineExample.MidtermAndFinalCurrent | app/calculator/page.tsx:269-308 | 80 on a midterm worth 50 gives a current grade of 80 |
| GradeEngineExample.MidtermAndFinalProgress | app/calculator/page.tsx:366-388 | half of the weight is graded |
| GradeEngineExample.MidtermAndFinalRequired | app/calculator/page.tsx:310-364 | after 80, a target of 75 needs 70 on the final |
| GradeEngineExample.RequiredNotCapped | app/calculator/page.tsx:357-363 | after 20, a target of 75 needs 130 |
| GradeEngineExample.ZeroTarget | app/calculator/page.tsx:311 | a target of 0 reads as no target |
| GradeEngineExample.ProgressCountsUnreadableGroupGrade | app/calculator/page.tsx:288-296 | a collapsed group with an unreadable grade counts for progress and not for the grade |
| Conservation.WeightConserved | app/calculator/page.tsx:124-266 | under a well-formed routing table, with groups expanded, the records not routed away carry exactly the base weight of all records |
| Conservation.PageConservesWeight | app/calculator/page.tsx:61-161 | for the display list the page builds, the adjustments it computes conserve the total weight |
| Conservation.StepKeeps | app/calculator/page.tsx:126-160 | one entry of the fold keeps the conserved quantity |
| Conservation.FoldKeeps | app/calculator/page.tsx:124-161 | the fold keeps the quantity at the total base weight |
| Conservation.TargetMass | app/calculator/page.tsx:155-160 | a specific target receives exactly what its source carried |
| Conservation.SpreadMass | app/calculator/page.tsx:127-154 | an even distribution hands out exactly what its source carried, in equal shares |
| Conservation.DroppedIsSource | app/calculator/page.tsx:135-138 | with no empty target, a record is routed away exactly when it is a source |
| Conservation.FoldUntouched | app/calculator/page.tsx:124-161 | an id that is no record and no target never gains anything |
| Conservation.SumWeightsPermutation | app/calculator/page.tsx:102-108 | a weight total depends only on which records there are |
| Reorder.MoveSpec | app/calculator/page.tsx:542-545 | a move keeps the length, puts the moved element at its new place, and without it leaves the same list |
| Reorder.InsertIndex | app/calculator/page.tsx:544-545 | the insertion index is the target or the slot after it, shifted down once when it lies past the removed element |
| Reorder.InsertIndexInRange | app/calculator/page.tsx:569-571 | the insertion index is a valid index of the shortened list |
| Reorder.MoveLandsByTarget | app/calculator/page.tsx:569-571 | the moved element lands just before the target on the upper half and just after it otherwise |
| Reorder.RebuildLoop | app/calculator/page.tsx:574-589 | the `forEach` pushing each found record computes `Rebuild` |
| Reorder.RebuildIsFlatten | app/calculator/page.tsx:574-589 | when each record is found under its own id, rebuilding is flattening |
| Reorder.FlattenMove | app/calculator/page.tsx:569-571 | moving a display row rearranges the flat list |
| PageState.Initial | app/calculator/page.tsx:31-57 | the page starts consistent with no records and no rows; add, remove mode and calculate can be used, dividing evenly cannot |
| PageState.FindItem | app/calculator/page.tsx:186 | finds the row with the id, or reports that none has it |
| PageState.FindParent | app/calculator/page.tsx:190 | finds the group with a child of that id, or reports that none has one |
| PageState.EditWhere | app/calculator/page.tsx:426-436 | only the records with the id are edited |
| PageState.FindGroup | app/calculator/page.tsx:619 | finds the group with that id, or reports that none has it |
| PageState.IndexOfItem | app/calculator/page.tsx:551-564 | `findIndex` returns the first matching row, or none |
| PageState.IndexOfChild | app/calculator/page.tsx:537-538 | `findIndex` over children returns the first child with the id, or none |
| PageProps.DropHandlersKeepConsistent | app/calculator/page.tsx:164-228 | the selection handlers keep the stored source and the mode consistent |
| PageProps.CancelKeepsTable | app/calculator/page.tsx:164-171 | cancelling clears the stored source and keeps the table; starting only changes the mode |
| PageProps.SourceClick | app/calculator/page.tsx:173-180 | clicks outside a selection do nothing; choosing a source ignores a routed-away row and takes any other |
| PageProps.TargetClick | app/calculator/page.tsx:181-218 | a target pick is routed exactly when it is not the source, not routed away and not in the source's section; otherwise nothing changes |
| PageProps.SiblingsRejected | app/calculator/page.tsx:184-209 | two children of one group share a section, so the pick is refused |
| PageProps.GroupToOwnChildRejected | app/calculator/page.tsx:184-209 | a group picking its own child is refused |
| PageProps.ChildToParentAllowed | app/calculator/page.tsx:203-209 | a child picking its parent group is the one same-section pick allowed |
| PageProps.OtherSectionAllowed | app/calculator/page.tsx:184-209 | rows in different sections are never refused |
| PageProps.RoutedAddsOneKey | app/calculator/page.tsx:211-217 | a routed pick sets exactly the source's key to the target and ends the selection |
| PageProps.DistributeAddsOneKey | app/calculator/page.tsx:230-238 | distributing routes the stored source to the sentinel, and does nothing without a source |
| PageProps.UndropRemovesOneKey | app/calculator/page.tsx:221-228 | undoing works only outside a selection, and then removes exactly that key |
| PageProps.GradeChangeMeaning | app/calculator/page.tsx:439-467 | a typed grade is kept exactly when it is a percentage; the field is flagged exactly when it is not empty and not a percentage; only the edited record changes |
| PageProps.WeightChangeMeaning | app/calculator/page.tsx:423-437 | a weight that is not a number of at least 0 reads as 0; weights never become negative |
| PageProps.GroupGradeChangeMeaning | app/calculator/page.tsx:411-421 | the group grade is stored as typed and flagged exactly when it is not empty and not a percentage |
| PageProps.ToggleGroupFlips | app/calculator/page.tsx:401-409 | toggling flips one group's membership, and toggling twice changes nothing |
| PageProps.EmptyTargetShowsNoRequired | app/calculator/page.tsx:390-399 | an empty target field shows no required grade |
| PageProps.CalculatedGradeInRange | app/calculator/page.tsx:390-399 | under sensible inputs the shown current grade lies in [0, 100] |
| PageProps.AddedShowsLast | app/calculator/page.tsx:601-613 | a new row has no number, so it shows as the last single row and every other row is unchanged |
| PageProps.RemoveMarks | app/calculator/page.tsx:615-629 | removing a group marks it and all its children, removing a record marks it, and remove mode ends |
| PageProps.RemoveGroupMarksChildren | app/calculator/page.tsx:617-623 | with distinct ids, removing a group marks exactly its id and its children's ids |
| PageProps.ReorderedPermutes | app/calculator/page.tsx:520-572 | a reorder rearranges the records shown |
| PageProps.TopLevelReorderMovesOne | app/calculator/page.tsx:550-572 | a top-level reorder moves the dragged row and nothing else |
| PageProps.ChildReorderMovesOne | app/calculator/page.tsx:525-549 | a reorder inside a group moves one child of that group and nothing else |
| PageProps.DropClearsDrag | app/calculator/page.tsx:500-518 | a drop clears the hover and, once a drag was under way, the dragged row |
| PageProps.ReorderRecordsPermutes | app/calculator/page.tsx:520-591 | with distinct ids the reordered records are a rearrangement, listed in the new display order |
| PageProps.DropPermutes | app/calculator/page.tsx:500-593 | with distinct ids a drop leaves the records a rearrangement of themselves |
| PageProps.DropAccepted | app/calculator/page.tsx:500-593 | an accepted drop stores the reordered records, or keeps the old ones when there is nothing to reorder |
| PageProps.GroupIdsUnique | app/calculator/page.tsx:100-117 | the groups of the display list have distinct ids |
| PageProps.FrozenWhileChoosing | app/calculator/page.tsx:670-1100 | during a drop selection the add, remove-mode and calculate buttons and every input field change nothing |
| PageProps.RoutedRowsLocked | app/calculator/page.tsx:813-1047 | a routed-away record's weight and grade, and a routed-away or expanded group's average, cannot be edited |
| PageProps.DistributeNeedsOriginals | app/calculator/page.tsx:636-663 | dividing evenly routes the source to the sentinel when only added records were removed, does nothing once a course record was removed, and keeps the page consistent |
| PageProps.RowClickDispatch | app/calculator/page.tsx:756-765 | in remove mode a row click removes the row, keeps the table and the selection and ends remove mode; otherwise the selection takes it, and with neither it does nothing |
| PageProps.SingleRowClickIsRowClick | app/calculator/page.tsx:988-994 | a single row's click has the same effect as a child row's |
| PageProps.BubbledClicks | app/calculator/page.tsx:796-835 | in remove mode the undo button also removes its row and a group name click also toggles the group; outside it they only undo or toggle; during a selection they act as the row click |
| CalculatorPage.MarkChildren | app/calculator/page.tsx:622 | the loop adds the ids of all children to the removed set |
| CalculatorPage.Calculator.constructor | app/calculator/page.tsx:31-57 | the fields start as `PageState.Initial`: no records, no selection, nothing routed, removed or expanded |
| CalculatorPage.Calculator.DropButtonClick | app/calculator/page.tsx:164-171 | updates the fields as `PageState.DropButtonClick` |
| CalculatorPage.Calculator.ItemClick | app/calculator/page.tsx:173-219 | updates the fields as `PageState.ItemClick` and reports its outcome |
| CalculatorPage.Calculator.Undrop | app/calculator/page.tsx:221-228 | updates the fields as `PageState.Undrop` |
| CalculatorPage.Calculator.DistributeEvenly | app/calculator/page.tsx:230-238 | updates the fields as `PageState.DistributeEvenly` |
| CalculatorPage.Calculator.Calculate | app/calculator/page.tsx:390-399 | stores the three figures of `PageState.Calculate` |
| CalculatorPage.Calculator.SetTargetGrade | app/calculator/page.tsx:1138 | stores the parsed target |
| CalculatorPage.Calculator.ToggleGroup | app/calculator/page.tsx:401-409 | updates the fields as `PageState.ToggleGroup` |
| CalculatorPage.Calculator.ToggleRemoveMode | app/calculator/page.tsx:680 | flips remove mode |
| CalculatorPage.Calculator.GroupGradeChange | app/calculator/page.tsx:411-421 | updates the fields as `PageState.GroupGradeChange` |
| CalculatorPage.Calculator.WeightChange | app/calculator/page.tsx:423-437 | updates the fields as `PageState.WeightChange` |
| CalculatorPage.Calculator.GradeChange | app/calculator/page.tsx:439-467 | updates the fields as `PageState.GradeChange` |
| CalculatorPage.Calculator.DragStart | app/calculator/page.tsx:470-476 | updates the fields as `PageState.DragStart` |
| CalculatorPage.Calculator.DragOver | app/calculator/page.tsx:478-494 | updates the fields as `PageState.DragOver` |
| CalculatorPage.Calculator.DragLeave | app/calculator/page.tsx:496-498 | clears the hover |
| CalculatorPage.Calculator.Drop | app/calculator/page.tsx:500-593 | updates the fields as `PageState.Drop` |
| CalculatorPage.Calculator.ReorderOnDrop | app/calculator/page.tsx:520-592 | stores the reordered records, if any, and ends the drag |
| CalculatorPage.Calculator.DragEnd | app/calculator/page.tsx:595-599 | ends the drag |
| CalculatorPage.Calculator.AddAssessment | app/calculator/page.tsx:601-613 | updates the fields as `PageState.AddAssessment` |
| CalculatorPage.Calculator.RemoveAssessment | app/calculator/page.tsx:615-629 | updates the fields as `PageState.RemoveAssessment` |
| CalculatorPage.Calculator.RemoveModeClick | app/calculator/page.tsx:631-634 | removes the clicked row only in remove mode |
| CalculatorPage.AnyOriginal | app/calculator/page.tsx:636 | the loop finds whether some removed id does not start with `new-` |
| CalculatorPage.Calculator.PressDistribute | app/calculator/page.tsx:652-663 | updates the fields as `PageState.PressDistribute` |
| CalculatorPage.Calculator.PressAdd | app/calculator/page.tsx:671-677 | updates the fields as `PageState.PressAdd` |
| CalculatorPage.Calculator.PressRemoveToggle | app/calculator/page.tsx:679-688 | updates the fields as `PageState.PressRemoveToggle` |
| CalculatorPage.Calculator.PressCalculate | app/calculator/page.tsx:1095-1101 | updates the fields as `PageState.PressCalculate` |
| CalculatorPage.Calculator.EditWeight | app/calculator/page.tsx:1021-1038 | updates the fields as `PageState.EditWeight` |
| CalculatorPage.Calculator.EditGrade | app/calculator/page.tsx:1042-1058 | updates the fields as `PageState.EditGrade` |
| CalculatorPage.Calculator.EditGroupGrade | app/calculator/page.tsx:813-830 | updates the fields as `PageState.EditGroupGrade` |
| CalculatorPage.Calculator.RowClick | app/calculator/page.tsx:756-765 | updates the fields as `PageState.RowClick` |
| CalculatorPage.Calculator.SingleRowClick | app/calculator/page.tsx:988-994 | updates the fields as `PageState.SingleRowClick` |
| CalculatorPage.Calculator.GroupNameClick | app/calculator/page.tsx:796-798 | updates the fields as `PageState.GroupNameClick` |
| CalculatorPage.Calculator.UndropClick | app/calculator/page.tsx:833-835 | updates the fields as `PageState.UndropClick` |
| CleanText.TrailingRun | scripts/clean-assessments.ts:25-26 | the longest suffix whose characters all satisfy the test |
| CleanText.SplitSpaces | scripts/clean-assessments.ts:29 | `split(/\s+/)` yields pieces without whitespace |
| CleanText.KeepWordAndSpace | scripts/clean-assessments.ts:27 | only word characters and whitespace are kept |
| CleanText.PunctuationToSpace | scripts/clean-assessments.ts:141 | every other character becomes a space, nothing else changes |
| CleanText.RemoveSummaryWords | scripts/clean-assessments.ts:96 | removing the summary words only shortens the name; its meaning is stated by `CleanTextProps.RemoveSummaryWordsChanges` |
| CleanText.DigitRuns | scripts/clean-assessments.ts:189-190 | the number lists are non-empty runs of digits |
| CleanText.SplitNumber | scripts/clean-assessments.ts:237 | a split name is its text before the final number followed by that number |
| CleanText.OrphanBase | scripts/clean-assessments.ts:336-338 | the orphan base is shorter than the name |
| CleanText.RemoveParens | scripts/clean-assessments.ts:24 | the result is no longer than the name; `CleanTextProps.RemoveParensSpan` states what `/\(.*\)/g` removes |
| CleanText.StripNumber | scripts/clean-assessments.ts:25 | no `ensures`; `CleanTextProps.StripNumberSpec` and `StripNumberNoSpace` state when `/\s+\d+$/` removes a final number |
| CleanText.StripCode | scripts/clean-assessments.ts:26 | no `ensures`; `CleanTextProps.StripCodeSpec` states what `/\s+[a-z]\d+$/i` removes |
| CleanText.FoldPlural | scripts/clean-assessments.ts:30-36 | no `ensures`; `CleanTextProps.FoldPluralSpec` states the four plural rules |
| CleanText.GetStem | scripts/clean-assessments.ts:22-38 | no `ensures`; `CleanTextProps.StemTextOfNumbered`, `StemOfNumberedQuiz` and `StemOfQuizzes` state the stems of numbered and plural names |
| CleanText.NormalizeFuzzy | scripts/clean-assessments.ts:114-116 | no `ensures`; `CleanTextProps.FuzzyIgnoresWordOrder` states that word order does not change the key |
| CleanText.GetTokens | scripts/clean-assessments.ts:141 | no `ensures`; `CleanTextProps.TokensAreWords` states that every token is a non-empty run of lower-case word characters |
| CleanText.IsSpecific | scripts/clean-assessments.ts:218 | no `ensures`; the test holds exactly when the trimmed name ends in a digit, and `StemProps.StemDeletesGenerics` and `CleanPassesProps.SummaryDeletionsSpec` state its use |
| CleanTextProps.StripNumberSpec | scripts/clean-assessments.ts:25 | `/\s+\d+$/` removes a final whitespace run and number, and nothing before it |
| CleanTextProps.StripNumberNoSpace | scripts/clean-assessments.ts:25 | without whitespace before the final number nothing is removed |
| CleanTextProps.StripCodeSpec | scripts/clean-assessments.ts:26 | `/\s+[a-z]\d+$/i` removes a final whitespace run and letter-number code |
| CleanTextProps.RemoveParensSpan | scripts/clean-assessments.ts:24 | `/\(.*\)/g` removes everything from a `(` to the last `)` of the line |
| CleanTextProps.StemOfNumberedQuiz | scripts/clean-assessments.ts:22-38 | "Quiz 3" stems to "quiz" |
| CleanTextProps.StemOfQuizzes | scripts/clean-assessments.ts:22-38 | "Quizzes" stems to "quiz" |
| CleanTextProps.StemTextOfNumbered | scripts/clean-assessments.ts:22-38 | a lower-case word, a space and a number stem to the folded word |
| CleanTextProps.FoldPluralSpec | scripts/clean-assessments.ts:30-36 | "quizzes" → "quiz", "-ies" → "-y", "-sses" → "-ss", and a final "s" dropped from longer words not ending in "ss" |
| CleanTextProps.SortWordsSpec | scripts/clean-assessments.ts:115 | the sorted words are the same words, in order |
| CleanTextProps.SortedUnique | scripts/clean-assessments.ts:115 | two sorted lists of the same words are equal |
| CleanTextProps.FuzzyIgnoresWordOrder | scripts/clean-assessments.ts:114-116 | names made of the same words in any order get the same fuzzy key |
| CleanTextProps.TokensAreWords | scripts/clean-assessments.ts:141 | every token is a non-empty run of lower-case word characters |
| CleanTextProps.SplitNumberSpec | scripts/clean-assessments.ts:237-248 | `^(.*?)(\d+)$` splits a name into the text before its final number and that number |
| CleanTextProps.SplitNumberNone | scripts/clean-assessments.ts:237-248 | a name not ending in a digit has no final number |
| CleanTextProps.OrphanBaseSpec | scripts/clean-assessments.ts:336-338 | "<base> 2" gives back the base |
| CleanTextProps.OrphanBaseNone | scripts/clean-assessments.ts:336-338 | a name not ending in whitespace and "2" has no base |
| CleanTextProps.JoinDigitRunsInjective | scripts/clean-assessments.ts:191 | comparing the joined number lists compares the lists themselves |
| CleanTextProps.RemoveSummaryWordsNone | scripts/clean-assessments.ts:96 | a name without "total", "overall" or "sum", in any case, is left unchanged |
| CleanTextProps.RemoveSummaryWordsShortens | scripts/clean-assessments.ts:96 | a name holding one of those words always loses characters |
| CleanTextProps.RemoveSummaryWordsChanges | scripts/clean-assessments.ts:92-96 | the replacement changes a name exactly when the summary test of line 92 holds |
| CleanTextProps.RemoveSummaryWordsExample | scripts/clean-assessments.ts:96 | "Quiz Total" becomes "Quiz " |
| CleanGroups.Remaining | scripts/clean-assessments.ts:92 | the filter keeps exactly the rows whose id is not marked |
| CleanGroups.CollectGroups | scripts/clean-assessments.ts:71-76 | the exact-pass grouping loop computes `Collect`; the fuzzy, stem and name grouping loops (lines 121-125, 209-214, 275-278) are the same loop with another key |
| CleanGroups.DropAllButOne | scripts/clean-assessments.ts:79-85 | one group keeps its first-sorted row and marks the rest |
| CleanGroups.DropAllButBest | scripts/clean-assessments.ts:78-87 | all groups of two or more mark their losers |
| CleanGroups.ObjectOrder | scripts/clean-assessments.ts:78 | `Object.values` lists the same groups, array-index keys first |
| CleanGroups.KeyedSplit | scripts/clean-assessments.ts:216 | array-index keys and name keys split the groups |
| CleanGroupsProps.RemainingTwice | scripts/clean-assessments.ts:120 | filtering twice is filtering once by the union |
| CleanGroupsProps.CollectSpec | scripts/clean-assessments.ts:71-76 | no two groups share a key, every group holds in order exactly the rows of its key, and every keyed row has a group |
| CleanGroupsProps.BestIndexSpec | scripts/clean-assessments.ts:79-80 | the kept row is beaten by no member and beats every member before it (what a stable sort puts first) |
| CleanGroupsProps.AllButSpec | scripts/clean-assessments.ts:80-83 | `slice(1)` marks every member but the kept one |
| CleanGroupsProps.OneSurvivorPerKey | scripts/clean-assessments.ts:69-137 | deleting the losers leaves at most one row per key |
| CleanGroupsProps.SurvivorKept | scripts/clean-assessments.ts:69-137 | the survivor of each key stays, and no row of its key beats it |
| CleanGroupsProps.InsertionOrderWithoutIndexKeys | scripts/clean-assessments.ts:127 | with no array-index key the groups are in insertion order |
| CleanGroupsProps.SortByIndexSorted | scripts/clean-assessments.ts:216 | array-index keys come first, in increasing value |
| CleanPasses.MarkMalformed | scripts/clean-assessments.ts:62-67 | the loop marks `Malformed(assessments)` |
| CleanPasses.RemoveExactDuplicates | scripts/clean-assessments.ts:69-87 | the pass adds `ExactDuplicates` |
| CleanPasses.RemoveSummaries | scripts/clean-assessments.ts:89-110 | the pass adds `SummaryDeletions` |
| CleanPasses.RemoveFuzzyDuplicates | scripts/clean-assessments.ts:112-137 | the pass adds `FuzzyDuplicates` |
| CleanPasses.Dedup | scripts/clean-assessments.ts:146 | `new Set` keeps each word once, in first-occurrence order |
| CleanPasses.ContainsAll | scripts/clean-assessments.ts:153-155 | the loop holds exactly when every token of one row is in the other |
| CleanPasses.SharedCount | scripts/clean-assessments.ts:179 | the loop counts the shared tokens |
| CleanPasses.FindSuperset | scripts/clean-assessments.ts:148-158 | `find` returns the first candidate superset, or none when no row is one |
| CleanPasses.RemoveSubsets | scripts/clean-assessments.ts:139-163 | the pass computes `SubsetFold` |
| CleanPasses.JudgePair | scripts/clean-assessments.ts:174-202 | one pair is judged as `RatioStep` |
| CleanPasses.RemoveSimilar | scripts/clean-assessments.ts:165-204 | the pass computes `RatioSpec` |
| CleanPasses.DeleteGenerics | scripts/clean-assessments.ts:223-230 | rule 3a marks every generic row of the group |
| CleanPasses.CountNumberPrefixes | scripts/clean-assessments.ts:235-241 | the loop computes `CountPrefixes` |
| CleanPasses.FirstMax | scripts/clean-assessments.ts:243-245 | the position of the first entry with the largest count |
| CleanPasses.RenameSpecifics | scripts/clean-assessments.ts:246-258 | the loop computes `Renamed` |
| CleanPasses.ResolveStems | scripts/clean-assessments.ts:206-261 | rule 3 over all stem groups computes `StemSpec` |
| CleanPasses.CleanCourse | scripts/clean-assessments.ts:52-267 | the first round of one course computes `CleanSpec` |
| CleanPasses.Similar | scripts/clean-assessments.ts:177-198 | no `ensures`; `CleanPasses.JudgePair` ties the token loop to it, and `CleanPassesProps.RatioPassSound` and `RatioPassLeavesNoSimilarPair` state the pass's outcome |
| CleanPasses.StemSpec | scripts/clean-assessments.ts:206-261 | no `ensures`; `StemProps.StemDeletesGenerics`, `StemDeletesOnlyGenerics` and `StemRenameRule` state what rule 3 deletes and renames |
| CleanPasses.CleanSpec | scripts/clean-assessments.ts:52-267 | no `ensures`; it chains the pass functions whose meaning the `CleanPassesProps` and `StemProps` lemmas state |
| CleanPassesProps.MalformedSpec | scripts/clean-assessments.ts:62-67 | exactly the rows whose name contains "undefined" are marked |
| CleanPassesProps.ExactPassLeavesUniqueKeys | scripts/clean-assessments.ts:69-87 | after the exact pass no two rows share name and weight |
| CleanPassesProps.ExactPassKeepsFirstId | scripts/clean-assessments.ts:79-80 | the row kept for a name and weight has the first id of them all |
| CleanPassesProps.FuzzyPassLeavesUniqueKeys | scripts/clean-assessments.ts:112-137 | after the fuzzy pass no two rows share sorted words and weight |
| CleanPassesProps.FuzzyPassKeepsShortest | scripts/clean-assessments.ts:128-130 | the row kept for a fuzzy key has the shortest name |
| CleanPassesProps.SummaryDeletionsSpec | scripts/clean-assessments.ts:89-110 | a row goes exactly when it mentions a total and another row has a final number and the stem of that name without the total word |
| CleanPassesProps.SubsetPassSpec | scripts/clean-assessments.ts:139-163 | the subset pass deletes exactly the rows that have another row of equal weight whose tokens strictly include theirs, in any order |
| CleanPassesProps.MaximalKept | scripts/clean-assessments.ts:139-163 | a row with no superset is never deleted |
| CleanPassesProps.SubsetCatches | scripts/clean-assessments.ts:139-163 | a row with a superset is deleted by the time it is visited |
| CleanPassesProps.RatioPassLeavesNoSimilarPair | scripts/clean-assessments.ts:165-204 | no earlier row and later similar row of equal weight both stay |
| CleanPassesProps.RatioPassSound | scripts/clean-assessments.ts:165-204 | every deleted row has an earlier similar row of equal weight that stays |
| StemProps.StemGroupsSpec | scripts/clean-assessments.ts:208-214 | stem groups hold exactly the rows of their stem and have distinct keys |
| StemProps.StemDeletesGenerics | scripts/clean-assessments.ts:222-230 | rule 3a deletes every generic row that shares its stem with a numbered row |
| StemProps.StemDeletesOnlyGenerics | scripts/clean-assessments.ts:222-230 | rule 3a deletes nothing else |
| StemProps.CountPrefixesSpec | scripts/clean-assessments.ts:235-241 | every prefix is counted once, correctly |
| StemProps.FirstMaxSpec | scripts/clean-assessments.ts:243-245 | `FirstMax` finds the first of the largest counts |
| StemProps.DominantMostCommon | scripts/clean-assessments.ts:235-245 | the dominant prefix is one that the most numbered rows share |
| StemProps.RenamedAt | scripts/clean-assessments.ts:246-258 | a numbered row with a non-dominant prefix is renamed to the dominant prefix and its number; others stay |
| StemProps.StemRenameRule | scripts/clean-assessments.ts:206-261 | end to end, a numbered row is renamed exactly when its stem group says so, to the dominant prefix and its number |
| StemProps.RenamedNeverDeleted | scripts/clean-assessments.ts:206-261 | rule 3 never renames a row it deletes |
| StemProps.RenamedIsNumbered | scripts/clean-assessments.ts:246-258 | a renamed id belongs to a remaining numbered row |
| CleanFinal.Duplicated | scripts/clean-assessments.ts:280-285 | `duplicateNames` holds exactly the groups of two rows or more |
| CleanFinal.Solve | scripts/clean-assessments.ts:291-304 | the recursive search keeps `FoldPick` over the leaves it reaches |
| CleanFinal.Others | scripts/clean-assessments.ts:314 | the filter keeps the group's rows other than the winner |
| CleanFinal.DropConflictLosers | scripts/clean-assessments.ts:311-319 | the loop marks `ConflictLosers` |
| CleanFinal.BestCombinationLength | scripts/clean-assessments.ts:288-313 | when every group has a row, the best combination has one row per group |
| CleanFinal.ResolveWeightConflicts | scripts/clean-assessments.ts:269-326 | phase 5 computes `KnapsackSpec` |
| CleanFinal.Siblings | scripts/clean-assessments.ts:339-342 | the filter keeps the other rows named the base or starting with it |
| CleanFinal.RenameOrphans | scripts/clean-assessments.ts:335-349 | the loop computes `OrphanRenames` |
| CleanFinal.FinishCourse | scripts/clean-assessments.ts:269-349 | phases 5 and 4 compute the knapsack deletions and the orphan renames |
| CleanFinal.KnapsackSpec | scripts/clean-assessments.ts:269-326 | no `ensures`; `CleanFinalProps.KnapsackChoosesClosest`, `KnapsackShape` and `NamesUniqueAfter` state which rows phase 5 deletes |
| CleanFinal.OrphanRenames | scripts/clean-assessments.ts:335-349 | no `ensures`; `CleanFinalProps.OrphanRule` states which rows are renamed |
| CleanFinalProps.SelectionsAreLeaves | scripts/clean-assessments.ts:291-304 | `solve(0, [])` reaches exactly the choices of one row per duplicated name |
| CleanFinalProps.FirstBest | scripts/clean-assessments.ts:292-299 | a strict improvement test keeps the first of the closest leaves |
| CleanFinalProps.KnapsackChoosesClosest | scripts/clean-assessments.ts:283-309 | the search keeps the first choice, in `solve`'s order, whose total is closest to 100 |
| CleanFinalProps.KnapsackShape | scripts/clean-assessments.ts:308-319 | phase 5 deletes, group by group, every row but the chosen one |
| CleanFinalProps.SingleKept | scripts/clean-assessments.ts:269-326 | a row whose name no other row has is never deleted |
| CleanFinalProps.WinnerKept | scripts/clean-assessments.ts:312-319 | the chosen row of each duplicated name stays |
| CleanFinalProps.LoserGone | scripts/clean-assessments.ts:312-319 | every other row of a duplicated name is deleted |
| CleanFinalProps.NamesUniqueAfter | scripts/clean-assessments.ts:269-326 | with at most 15 duplicated names (the limit of line 308), no two rows share a name after phase 5 |
| CleanFinalProps.EveryNameKept | scripts/clean-assessments.ts:269-326 | every name is still present after phase 5 |
| CleanFinalProps.OrphanRule | scripts/clean-assessments.ts:335-349 | "<base> 2" becomes its base exactly when no other row is named the base or starts with it; no other row is renamed |
| CleanFinalProps.OrphanAlone | scripts/clean-assessments.ts:335-349 | "Quiz 2" alone becomes "Quiz" |
| CleanFinalProps.OrphanBesideSibling | scripts/clean-assessments.ts:335-349 | beside "Quiz 1" it does not |
| OutlineParser.Span | scripts/scraper/outlineParser.ts:33-39 | the longest prefix whose characters satisfy the test |
| OutlineParser.MatchCode | scripts/scraper/outlineParser.ts:33 | a match of `^([A-Z]+)\s*(\d+[A-Z]?)$` yields two non-empty groups |
| OutlineParser.ExtractDepartment | scripts/scraper/outlineParser.ts:38-41 | the department is the leading run of upper-case letters, "" when there is none |
| OutlineParser.FirstFourDigits | scripts/scraper/outlineParser.ts:48 | a match of `\d{4}` is four digits |
| OutlineParser.SplitLines | scripts/scraper/outlineParser.ts:144 | `split('\n')` yields at least one line |
| OutlineParser.TrimmedLines | scripts/scraper/outlineParser.ts:144 | the kept lines are trimmed and non-empty |
| OutlineParser.MatchFrom | scripts/scraper/outlineParser.ts:153 | a lazy name match is a prefix of the line |
| OutlineParser.ParseLine | scripts/scraper/outlineParser.ts:150-192 | one line keeps the counts and the list consistent |
| OutlineParser.ParseResponse | scripts/scraper/outlineParser.ts:144-192 | the loop computes `ParseLines` over the trimmed lines |
| OutlineParser.CleanCode | scripts/scraper/outlineParser.ts:32 | no `ensures`; `OutlineProps.CleanCodeShape` states that the result is trimmed, upper-case and single-spaced |
| OutlineParser.NormalizeCourseCode | scripts/scraper/outlineParser.ts:31-36 | no `ensures`; `OutlineProps.NormalizeSubjectNumber`, `NormalizeLettersDigits` and `NormalizeIdempotent` state its result |
| OutlineParser.GetTermDate | scripts/scraper/outlineParser.ts:47-55 | no `ensures`; `OutlineProps.SeasonTermDate` and `ClockTermDate` state the dates of season names and of other names |
| OutlineParser.DecodeTerm | scripts/scraper/outlineParser.ts:57-67 | no `ensures`; `OutlineProps.DecodeFourDigits` and `YearRoundTrip` state the decoded season and year |
| OutlineParser.Category | scripts/scraper/outlineParser.ts:160-168 | no `ensures`; `OutlineProps.CategoryFirstKeyword` and `ParsedFields` state how the category is chosen and used |
| OutlineParser.Numbered | scripts/scraper/outlineParser.ts:172-181 | no `ensures`; `OutlineProps.NumberedWhen`, `NumberedPlural` and `ParseLinesMeaning` state when and how a name is numbered |
| OutlineProps.CleanCodeShape | scripts/scraper/outlineParser.ts:32 | the cleaned code is trimmed, upper-case and has single spaces |
| OutlineProps.NormalizeIdempotent | scripts/scraper/outlineParser.ts:31-36 | `normalizeCourseCode` is idempotent |
| OutlineProps.MatchCodeFound | scripts/scraper/outlineParser.ts:33 | a match is letters, whitespace and a code number that make up the string |
| OutlineProps.MatchCodeOf | scripts/scraper/outlineParser.ts:33 | letters, whitespace and a code number match as those groups |
| OutlineProps.NormalizeSubjectNumber | scripts/scraper/outlineParser.ts:31-36 | letters and a code number with any whitespace around become "<LETTERS> <NUMBER>" |
| OutlineProps.NormalizeLettersDigits | scripts/scraper/outlineParser.ts:31-36 | letters and digits with whitespace around become the upper-cased letters, one space, the digits |
| OutlineProps.YearRoundTrip | scripts/scraper/outlineParser.ts:60-66 | the year parsed from "20" and two digits prints back as those characters |
| OutlineProps.DecodeFourDigits | scripts/scraper/outlineParser.ts:57-67 | a 4-digit id decodes to the season of its last digit and year 20 followed by its middle digits |
| OutlineProps.TermDateOfDecoded | scripts/scraper/outlineParser.ts:47-67 | for a 4-digit id ending in 1, 5 or 9, the term date is the first of the season's month in that year, independent of the clock |
| OutlineProps.SeasonTermDate | scripts/scraper/outlineParser.ts:47-52 | "<Season> <yyyy>" dates to the first of September, January or May of that year |
| OutlineProps.ClockTermDate | scripts/scraper/outlineParser.ts:47-67 | any other non-negative id names no season, so its term date is the clock's date |
| OutlineProps.FirstFourLeftmost | scripts/scraper/outlineParser.ts:48 | `\d{4}` finds the leftmost four digits, and nothing without them |
| OutlineProps.RecordLast | scripts/scraper/outlineParser.ts:172-190 | the appended assessment carries the count of its name |
| OutlineProps.ParseLinesMeaning | scripts/scraper/outlineParser.ts:150-192 | the parsed list is explained by the matched lines: names numbered by their counts, weights as parsed |
| OutlineProps.ParsedFields | scripts/scraper/outlineParser.ts:183-190 | every parsed assessment has count 1, equal total and individual weight, and its category as its type |
| OutlineProps.MatchesFromLines | scripts/scraper/outlineParser.ts:150-157 | each entry comes from one matching line, its name the trimmed first group, in line order |
| OutlineProps.NumberedWhen | scripts/scraper/outlineParser.ts:172-181 | a digit-free name is numbered exactly when it ends in "s" or was seen before, and then ends in a space and its count |
| OutlineProps.NumberedPlural | scripts/scraper/outlineParser.ts:176-179 | the first "Assignments" line becomes "Assignment 1" |
| OutlineProps.CategoryFirstKeyword | scripts/scraper/outlineParser.ts:160-168 | the keywords are tried in order, so "clicker quiz" is a quiz |
| ScrapeCourse.NameRow | scripts/scrape-course.ts:83-89 | the renaming statements compute `RowName` |
| ScrapeCourse.PushRows | scripts/scrape-course.ts:82-103 | the inner loop appends the rows of one assessment |
| ScrapeCourse.ExpandAssessments | scripts/scrape-course.ts:76-115 | nothing is inserted for an empty list, otherwise all expanded rows |
| ScrapeCourse.RowName | scripts/scrape-course.ts:83-89 | no `ensures`; `ScrapeProps.RowNameSingle`, `RowNameNumbered` and `RowNameSingular` state the row names |
| ScrapeCourse.ExpandAll | scripts/scrape-course.ts:78-103 | the expansion has one row per copy; `ScrapeProps.RowAt` and `OrderIndexConsecutive` state each row's fields and index |
| ScrapeProps.RowNameSingle | scripts/scrape-course.ts:83-85 | an assessment with one row keeps its name |
| ScrapeProps.RowNameNumbered | scripts/scrape-course.ts:85-86 | a repeated assessment without the plurals is numbered "<name> <i+1>" |
| ScrapeProps.RowNameSingular | scripts/scrape-course.ts:86-88 | "Quizzes" becomes "Quiz 1" … "Quiz n", "Assignments" likewise |
| ScrapeProps.RowAt | scripts/scrape-course.ts:91-102 | each row carries its assessment's fields, the section's fields and its position |
| ScrapeProps.OrderIndexConsecutive | scripts/scrape-course.ts:78-99 | `order_index` runs 0 … N-1, N the sum of the counts |
| ScrapeProps.TotalCopiesAppend | scripts/scrape-course.ts:80-82 | the number of rows adds up over the list, a count below one giving none |
| NormalizeWeights.Positive | scripts/normalize-weights.ts:46-52 | `.gt('weight', 0)` keeps the positive rows in order |
| NormalizeWeights.RescaleBy | scripts/normalize-weights.ts:84-97 | the loop computes `RescaledBy` |
| NormalizeWeights.Correct | scripts/normalize-weights.ts:125-152 | the correction computes `Corrected` |
| NormalizeWeights.NormalizeCourse | scripts/normalize-weights.ts:60-161 | one section's body computes `NormalizeSection` |
| NormalizeWeights.NormalizeWeightsScript | scripts/normalize-weights.ts:40-162 | every section is normalised and the outcomes are counted |
| NormalizeWeights.RescaledBy | scripts/normalize-weights.ts:84-97 | the rescale keeps the number of rows; `NormalizeProps.RescaledBySpec` states the new weights and their total of 100 |
| NormalizeWeights.Corrected | scripts/normalize-weights.ts:128-152 | the correction keeps the number of rows; `NormalizeProps.CorrectedSpec` states when and how the last weight changes |
| NormalizeWeights.NormalizeSection | scripts/normalize-weights.ts:60-161 | no `ensures`; `NormalizeProps.NormalizeSectionOutcome` states when a section is skipped, rewritten or fixed |
| NormalizeProps.TotalScaled | scripts/normalize-weights.ts:88-92 | scaling every weight scales the total |
| NormalizeProps.RescaledBySpec | scripts/normalize-weights.ts:84-97 | the new weights keep ids and order, the first n-1 are scaled, and they sum to 100 |
| NormalizeProps.RescaledProportional | scripts/normalize-weights.ts:77-97 | with the factor 100/total every new weight, the last included, is the old one scaled |
| NormalizeProps.RescaledPositive | scripts/normalize-weights.ts:77-123 | positive weights stay positive, so the re-read sees them all |
| NormalizeProps.CorrectedSpec | scripts/normalize-weights.ts:128-152 | a total still off is fixed by raising the last weight, unless that would not stay positive |
| NormalizeProps.CorrectionAfterRescaleIsNoOp | scripts/normalize-weights.ts:117-152 | right after the rescale the correction has nothing to do |
| NormalizeProps.NormalizeSectionOutcome | scripts/normalize-weights.ts:60-161 | a section is skipped without positive weights or within tolerance, and otherwise rewritten to sum to 100 and counted as fixed |
| NormalizeProps.ScriptCountsEverySection | scripts/normalize-weights.ts:60-161 | fixed plus skipped is the number of sections |
| AddCourse.CheckCourseWeights | scripts/add-course.ts:11-48 | the loop computes `CheckSpec` |
| AddCourse.CheckSpec | scripts/add-course.ts:24-47 | no `ensures`; `AddCourse.CheckNeedsFix`, `CheckBound` and `CheckAttained` state the verdict and the maximum total |
| AddCourse.NormalizeCourseWeights | scripts/add-course.ts:53-188 | every section is normalised as by `normalize-weights.ts` and the fixed ones are counted |
| AddCourse.AddCourse | scripts/add-course.ts:193-225 | normalisation and the second check run exactly when the first check asks for a fix |
| AddCourse.CheckNeedsFix | scripts/add-course.ts:24-47 | a fix is needed exactly when some section is off by at least 0.001 |
| AddCourse.CheckBound | scripts/add-course.ts:40-47 | the reported total is at least every offending total, and 0 when none is off |
| AddCourse.CheckAttained | scripts/add-course.ts:40-47 | the reported total is that of some offending section |
| AddCourse.NothingOffendingPasses | scripts/add-course.ts:19-47 | with no offending section the check reports no fix and 0 |
| AddCourse.NormalizedPassesCheck | scripts/add-course.ts:207-213 | in exact arithmetic the second check never asks for another fix |
| Common.TrimSpec | scripts/scraper/outlineParser.ts:144 | a trimmed string neither starts nor ends with whitespace |
| Common.TrimIsSlice | scripts/scraper/outlineParser.ts:144 | trimming only removes characters from the ends |
| Common.IndexOf | scripts/scrape-course.ts:87-88 | `indexOf` is the first position where the pattern starts |
| Common.ReplaceFirst | scripts/scrape-course.ts:87-88 | a string without the pattern is left alone |

## Left out

- Fetching and storing are not modelled. This covers Supabase queries and updates, `fetch`,
  the OpenAI call, React rendering and effects. Their results enter as parameters: the records
  read back, the section lists, the reply text.
- `scrapeAndStoreCourse` is not modelled beyond its row expansion. Course lookup and insertion
  are database I/O.
- Floating point is not modelled: arithmetic is exact on `real`, with no rounding, so the
  0.001 tolerances never see an error. `parseFloat` is an abstract parse, `NaN` is `None`,
  and `toFixed` output is not modelled.
- The 0.80 token ratio is compared as `5 * shared >= 4 * max`, the exact rational reading of
  the source's comparison.
- Unicode is not modelled: there is no UTF-16 surrogate handling, and `toUpperCase` and
  `toLowerCase` map ASCII letters only.
- `localeCompare` on the ids in the exact pass is an abstract strict weak order `before`. The
  default `sort()` of word lists is modelled as code-unit order.
- Record ids are assumed distinct where noted (`DistinctIds`), as the database keys make them.
- Logging (`console.*`) is not modelled. Neither are concurrent updates (`Promise.all`) nor the
  order in which update requests reach the database.
- `cleanDuplicates` returns the ids to delete and the renames as a set and a map. The
  `delete`/`update` calls that apply them are not modelled.
- The course listing limit of `checkCourseWeights` (`limit(10)`) is not modelled: the model
  takes the sections it is given.
- `getTermDate` reads the current year and date. Both are parameters (`thisYear`, `today`).
- `handleAddAssessment` builds its id from `Date.now()`. The clock reading is the parameter
  `stamp`.
- The drag-over geometry (`getBoundingClientRect`, pointer position) becomes the parameter
  `position`, the half of the row under the pointer.
- UI-only state is not modelled: focus, input element values, search and the print layout.
- Rendering is not modelled: hiding removed rows (`page.tsx:700-701`), the `draggable`
  attribute (the drag handlers check the same condition) and the texts and styles. The
  chevron button toggles its group unconditionally (`page.tsx:787-793`) and is `ToggleGroup`.
- Inherited object keys are not modelled. The page (`page.tsx:77-78`, the routing table, the
  adjustments, the group grades) and the scripts (`clean-assessments.ts:212-213`, `239`,
  `276`; `outlineParser.ts:173`) look keys up in plain objects. A key such as `constructor` or
  `__proto__` finds a value inherited from `Object.prototype`. Then the `.push` of a grouping
  pass throws, `(prefixes[p] || 0) + 1` builds a string instead of a count, and a repeated
  name `constructor` is not numbered. The model's maps and tables hold only what was stored,
  so every such key is fresh.
- Routing-table keys that are array indices are not modelled. JavaScript enumerates keys such
  as `"12"` first, in ascending numeric order, and `Object.entries(droppedMap)` folds in that
  order (`page.tsx:126`). The model folds in insertion order. Ids made on the page start with
  `new-` and are never array indices, but database ids that are plain numbers would fold in
  another order. The page's group keys never hold a digit (`Grouping.KeyHasNoDigit`), so its
  grouping passes do enumerate in insertion order. The scripts' groupings model the
  JavaScript order (`CleanGroups.ObjectOrder`).
- The mis-encoded dash of the outline pattern (`[â€“-]`) is modelled as an abstract set of
  separator characters, `separators`.
- CleanText.RemoveParens: its own contract states only a length bound. Its exact behaviour is
  stated by the lemma CleanTextProps.RemoveParensSpan.
- CleanText.OrphanBase: its own contract states only a length bound. Its exact behaviour is
  stated by the lemmas CleanTextProps.OrphanBaseSpec and OrphanBaseNone.
- CleanText.RemoveSummaryWords: its own contract states only a length bound. When it changes a
  name is stated by CleanTextProps.RemoveSummaryWordsNone, RemoveSummaryWordsShortens and
  RemoveSummaryWordsChanges, with the worked case RemoveSummaryWordsExample. What a changed
  name becomes is stated by its definition alone.
- OutlineParser.MatchFrom, OutlineParser.ParseLine: their own contracts are weaker than the
  source. Their combined meaning is stated by OutlineProps.ParseLinesMeaning and
  MatchesFromLines.
