/** The calculator page's session state and what each event handler does to it
    (page.tsx:31-58, 164-238, 390-629), as functions from the state before the event to
    the state after it. */
module PageState {
  import opened Common
  import opened Grouping
  import opened GroupingProps
  import opened Weights
  import opened GradeEngine
  import opened Reorder

  /** `dropMode` */
  datatype DropMode = NotDropping | SelectSource | SelectTarget

  /** `draggedItem`: the row being dragged; `groupId` is set for a child row. */
  datatype Dragged = Dragged(id: string, isGroup: bool, groupId: Option<string>)

  datatype Position = Before | After

  /** `dragOverItem`: the row under the pointer and which half of it. */
  datatype Hover = Hover(id: string, isGroup: bool, groupId: Option<string>, position: Position)

  /** `displayStats` */
  datatype Stats = Stats(currentGrade: real, requiredGrade: Option<real>, totalProgress: real)

  /** All session state of the page but the focused row, which only moves the cursor.
      `targetGrade` is `None` for the empty field and for text that is not a number;
      `invalidGrades` holds the keys set to `true` (the page deletes the others). */
  datatype Page = Page(
    assessments: seq<Assessment>,
    targetGrade: Option<real>,
    invalidGrades: set<string>,
    dropMode: DropMode,
    dropSourceId: Option<string>,
    droppedMap: Table,
    removeMode: bool,
    removedItems: set<string>,
    expandedGroups: set<string>,
    groupGrades: map<string, string>,
    displayStats: Stats,
    draggedItem: Option<Dragged>,
    dragOverItem: Option<Hover>)

  /** The state the page starts in (page.tsx:31-57): no records, an empty target, no
      selection, nothing routed, removed or expanded, and zeroed statistics. */
  function Initial(): (p: Page)
    ensures Consistent(p) && p.assessments == [] && GroupAssessments(p.assessments) == []
    ensures AddEnabled(p) && RemoveToggleEnabled(p) && CalculateEnabled(p) && !DistributeEnabled(p)
  {
    Page([], None, {}, NotDropping, None, [], false, {}, {}, map[], Stats(0.0, None, 0.0), None, None)
  }

  /** What every handler keeps true: table keys are unique, a source is stored exactly
      while a target is being chosen, and that source has not been routed away. */
  predicate Consistent(p: Page) {
    && KeysUnique(p.droppedMap)
    && (p.dropMode == SelectTarget <==> p.dropSourceId.Some?)
    && (p.dropSourceId.Some? ==> !IsDropped(p.droppedMap, p.dropSourceId.value))
  }

  /** JavaScript truthiness of an optional string. */
  predicate Truthy(s: Option<string>) {
    s.Some? && s.value != ""
  }

  /** The inputs of the engine: the table, the three sets and the adjustment fold. */
  function EngineInputs(p: Page): Snapshot {
    Snapshot(p.droppedMap, p.removedItems, p.expandedGroups, p.groupGrades,
             WeightAdjustments(p.assessments, p.droppedMap, p.removedItems))
  }

  // ---------------------------------------------------------------------------
  // The drop selection (page.tsx:164-238)
  // ---------------------------------------------------------------------------

  /** `handleDropButtonClick`: start choosing a source, or cancel. */
  function DropButtonClick(p: Page): Page {
    if p.dropMode == NotDropping then p.(dropMode := SelectSource)
    else p.(dropMode := NotDropping, dropSourceId := None)
  }

  /** `items.find(g => g.id === id)` */
  function FindItem(items: seq<DisplayItem>, id: string): (r: Option<DisplayItem>)
    ensures r.Some? ==> r.value in items && r.value.Id() == id
    ensures r.None? <==> forall x :: x in items ==> x.Id() != id
  {
    if items == [] then None
    else if items[0].Id() == id then Some(items[0])
    else FindItem(items[1..], id)
  }

  predicate HasChild(g: DisplayItem, id: string) {
    g.Group? && exists c :: c in g.children && c.id == id
  }

  /** `items.find(g => g.isGroup && g.children.some(c => c.id === id))` */
  function FindParent(items: seq<DisplayItem>, id: string): (r: Option<DisplayItem>)
    ensures r.Some? ==> r.value in items && HasChild(r.value, id)
    ensures r.None? <==> forall x :: x in items ==> !HasChild(x, id)
  {
    if items == [] then None
    else if HasChild(items[0], id) then Some(items[0])
    else FindParent(items[1..], id)
  }

  /** The section of a row: its own id when it is a top-level row, else its parent
      group's id. */
  function SectionOf(items: seq<DisplayItem>, id: string): Option<string> {
    if FindItem(items, id).Some? then Some(id)
    else if FindParent(items, id).Some? then Some(FindParent(items, id).value.id)
    else None
  }

  /** What a click on a row did; `Rejected` stands for the alert. */
  datatype Click = Ignored | SourceChosen | Routed | Rejected

  datatype Clicked = Clicked(page: Page, outcome: Click)

  /** The pick of a target is refused: source and target share a truthy section, and
      the pick is not a child choosing its own parent group. */
  predicate SameSection(items: seq<DisplayItem>, source: string, target: string) {
    var sg := SectionOf(items, source);
    var tg := SectionOf(items, target);
    Truthy(sg) && Truthy(tg) && sg == tg
    && !(FindItem(items, source).None? && FindItem(items, target).Some?)
  }

  /** `handleItemClick` on the row with id `itemId`. */
  function ItemClick(p: Page, itemId: string): Clicked
    requires p.dropMode == SelectTarget ==> p.dropSourceId.Some?
  {
    match p.dropMode
    case NotDropping => Clicked(p, Ignored)
    case SelectSource =>
      if IsDropped(p.droppedMap, itemId) then Clicked(p, Ignored)
      else Clicked(p.(dropSourceId := Some(itemId), dropMode := SelectTarget), SourceChosen)
    case SelectTarget =>
      var source := p.dropSourceId.value;
      if itemId == source || IsDropped(p.droppedMap, itemId) then Clicked(p, Ignored)
      else if SameSection(GroupAssessments(p.assessments), source, itemId) then Clicked(p, Rejected)
      else Clicked(p.(droppedMap := Put(p.droppedMap, source, itemId), dropMode := NotDropping,
                      dropSourceId := None), Routed)
  }

  /** `handleUndrop` */
  function Undrop(p: Page, sourceId: string): Page {
    if p.dropMode != NotDropping then p else p.(droppedMap := Delete(p.droppedMap, sourceId))
  }

  /** `handleDistributeEvenly` */
  function DistributeEvenly(p: Page): Page {
    if !Truthy(p.dropSourceId) then p
    else p.(droppedMap := Put(p.droppedMap, p.dropSourceId.value, DistributeEvenlyId),
            dropMode := NotDropping, dropSourceId := None)
  }

  // ---------------------------------------------------------------------------
  // Computing, toggling and editing (page.tsx:390-467)
  // ---------------------------------------------------------------------------

  /** `handleCalculate` */
  function Calculate(p: Page, parse: Parser): Page {
    var items := GroupAssessments(p.assessments);
    var s := EngineInputs(p);
    p.(displayStats := Stats(CurrentGrade(items, s, parse), RequiredForTarget(items, s, parse, p.targetGrade),
                             TotalProgress(items, s)))
  }

  /** The target field's `onChange` (page.tsx:1138). */
  function SetTargetGrade(p: Page, value: string, parse: Parser): Page {
    p.(targetGrade := if value == "" then None else parse(value))
  }

  /** `toggleGroup` */
  function ToggleGroup(p: Page, groupId: string): Page {
    p.(expandedGroups := if groupId in p.expandedGroups then p.expandedGroups - {groupId}
                         else p.expandedGroups + {groupId})
  }

  /** The remove-mode button (page.tsx:680). */
  function ToggleRemoveMode(p: Page): Page {
    p.(removeMode := !p.removeMode)
  }

  /** `withinRange`: a number from 0 to 100. */
  predicate Percent(num: Option<real>) {
    num.Some? && 0.0 <= num.value <= 100.0
  }

  /** `val !== '' && !withinRange` (written `isNaN(num) || num < 0 || num > 100` for groups). */
  predicate InvalidGrade(val: string, parse: Parser) {
    val != "" && !Percent(parse(val))
  }

  function Flag(flags: set<string>, key: string, on: bool): set<string> {
    if on then flags + {key} else flags - {key}
  }

  /** `handleGroupGradeChange` */
  function GroupGradeChange(p: Page, groupId: string, val: string, parse: Parser): Page {
    p.(groupGrades := p.groupGrades[groupId := val],
       invalidGrades := Flag(p.invalidGrades, "group-" + groupId, InvalidGrade(val, parse)))
  }

  /** A change to the record with a given id. */
  datatype Edit = WeightEdit(weightText: string, weight: real) | GradeEdit(gradeText: string, grade: Option<real>)

  function Apply(a: Assessment, e: Edit): Assessment {
    match e
    case WeightEdit(val, w) => a.(weightInput := Some(val), weight := w)
    case GradeEdit(val, g) => a.(gradeInput := Some(val), grade := g)
  }

  /** `prev.map(a => a.id === id ? edited : a)` */
  function EditWhere(s: seq<Assessment>, id: string, e: Edit): (r: seq<Assessment>)
    ensures |r| == |s|
    ensures forall i :: 0 <= i < |s| ==> r[i] == if s[i].id == id then Apply(s[i], e) else s[i]
  {
    if s == [] then [] else EditWhere(s[..|s| - 1], id, e) + [if s[|s| - 1].id == id then Apply(s[|s| - 1], e) else s[|s| - 1]]
  }

  /** The weight a typed text sets: the number when it is a number of at least 0, else 0. */
  function WeightOf(val: string, parse: Parser): real {
    var num := parse(val);
    if num.Some? && num.value >= 0.0 then num.value else 0.0
  }

  /** The grade a typed text sets: the number when it is a percentage, else none. */
  function GradeOf(val: string, parse: Parser): Option<real> {
    var num := parse(val);
    if val == "" then None else if Percent(num) then num else None
  }

  /** `handleWeightChange` */
  function WeightChange(p: Page, id: string, val: string, parse: Parser): Page {
    p.(assessments := EditWhere(p.assessments, id, WeightEdit(val, WeightOf(val, parse))))
  }

  /** `handleGradeChange` */
  function GradeChange(p: Page, id: string, val: string, parse: Parser): Page {
    p.(assessments := EditWhere(p.assessments, id, GradeEdit(val, GradeOf(val, parse))),
       invalidGrades := Flag(p.invalidGrades, id, InvalidGrade(val, parse)))
  }

  // ---------------------------------------------------------------------------
  // Adding and removing (page.tsx:601-634)
  // ---------------------------------------------------------------------------

  /** The record `handleAddAssessment` appends; `stamp` stands for `Date.now()`. */
  function NewAssessment(stamp: string, count: nat): Assessment {
    Assessment("new-" + stamp, "New Assessment", 0.0, Some("0"), None, Some(""), Some(count * 100))
  }

  /** `handleAddAssessment` */
  function AddAssessment(p: Page, stamp: string): Page {
    p.(assessments := p.assessments + [NewAssessment(stamp, |p.assessments|)])
  }

  /** `displayItems.find(g => g.isGroup && g.id === id)` */
  function FindGroup(items: seq<DisplayItem>, id: string): (r: Option<DisplayItem>)
    ensures r.Some? ==> r.value in items && r.value.Group? && r.value.id == id
    ensures r.None? <==> forall x :: x in items ==> !(x.Group? && x.id == id)
  {
    if items == [] then None
    else if items[0].Group? && items[0].id == id then Some(items[0])
    else FindGroup(items[1..], id)
  }

  /** The ids `handleRemoveAssessment` adds to `removedItems`. */
  function RemovedBy(assessments: seq<Assessment>, itemId: string, isGroup: bool): set<string> {
    if !isGroup then {itemId}
    else match FindGroup(GroupAssessments(assessments), itemId)
      case Some(g) => {itemId} + Ids(g.children)
      case None => {}
  }

  /** `handleRemoveAssessment` */
  function RemoveAssessment(p: Page, itemId: string, isGroup: bool): Page {
    p.(removedItems := p.removedItems + RemovedBy(p.assessments, itemId, isGroup), removeMode := false)
  }

  /** `handleRemoveModeClick` */
  function RemoveModeClick(p: Page, itemId: string, isGroup: bool): Page {
    if !p.removeMode then p else RemoveAssessment(p, itemId, isGroup)
  }

  // ---------------------------------------------------------------------------
  // Drag and drop (page.tsx:470-598)
  // ---------------------------------------------------------------------------

  /** Dragging is possible: no drop selection and no remove mode. */
  predicate CanDrag(p: Page) {
    p.dropMode == NotDropping && !p.removeMode
  }

  /** `handleDragStart` on a row; `groupId` is the parent group of a child row. */
  function DragStart(p: Page, id: string, isGroup: bool, groupId: Option<string>): Page {
    if !CanDrag(p) then p else p.(draggedItem := Some(Dragged(id, isGroup, groupId)))
  }

  /** The row may receive the dragged one: it is another row, a child stays in its own
      group, and a top-level record is not dropped onto a group. */
  predicate Accepts(d: Dragged, id: string, isGroup: bool, groupId: Option<string>) {
    && !(d.id == id && d.groupId == groupId)
    && (Truthy(d.groupId) ==> groupId == d.groupId)
    && !(!d.isGroup && !Truthy(d.groupId) && isGroup)
  }

  /** `handleDragOver`; `position` is which half of the row the pointer is over. */
  function DragOver(p: Page, id: string, isGroup: bool, groupId: Option<string>, position: Position): Page {
    if !CanDrag(p) || p.draggedItem.None? || !Accepts(p.draggedItem.value, id, isGroup, groupId) then p
    else p.(dragOverItem := Some(Hover(id, isGroup, groupId, position)))
  }

  /** `handleDragLeave` */
  function DragLeave(p: Page): Page {
    p.(dragOverItem := None)
  }

  /** `handleDragEnd` */
  function DragEnd(p: Page): Page {
    p.(draggedItem := None, dragOverItem := None)
  }

  /** The first index whose row satisfies the `findIndex` callback of page.tsx:543-554. */
  function IndexOfItem(items: seq<DisplayItem>, id: string, isGroup: bool): (r: Option<nat>)
    ensures r.Some? ==> r.value < |items| && items[r.value].Id() == id && items[r.value].Group? == isGroup
    ensures r.None? <==> forall i :: 0 <= i < |items| ==> !(items[i].Id() == id && items[i].Group? == isGroup)
  {
    if items == [] then None
    else if items[0].Id() == id && items[0].Group? == isGroup then Some(0)
    else match IndexOfItem(items[1..], id, isGroup)
      case Some(i) => Some(i + 1)
      case None => None
  }

  /** `children.findIndex(c => c.id === id)` */
  function IndexOfChild(cs: seq<Assessment>, id: string): (r: Option<nat>)
    ensures r.Some? ==> r.value < |cs| && cs[r.value].id == id
    ensures r.None? <==> forall i :: 0 <= i < |cs| ==> cs[i].id != id
  {
    if cs == [] then None
    else if cs[0].id == id then Some(0)
    else match IndexOfChild(cs[1..], id)
      case Some(i) => Some(i + 1)
      case None => None
  }

  /** The reordered display items, or none when a `findIndex` misses (page.tsx:524-562). */
  function Reordered(items: seq<DisplayItem>, d: Dragged, id: string, isGroup: bool, before: bool)
    : Option<seq<DisplayItem>>
  {
    if Truthy(d.groupId) then
      match IndexOfItem(items, d.groupId.value, true)
      case None => None
      case Some(gi) =>
        var g := items[gi];
        match (IndexOfChild(g.children, d.id), IndexOfChild(g.children, id))
        case (Some(from), Some(target)) =>
          InsertIndexInRange(from, target, before, |g.children|);
          Some(items[gi := g.(children := Move(g.children, from, InsertIndex(from, target, before)))])
        case _ => None
    else
      match (IndexOfItem(items, d.id, d.isGroup), IndexOfItem(items, id, isGroup))
      case (Some(from), Some(target)) =>
        InsertIndexInRange(from, target, before, |items|);
        Some(Move(items, from, InsertIndex(from, target, before)))
      case _ => None
  }

  /** `dragOverItem?.position === 'before'` */
  predicate DroppedBefore(h: Option<Hover>) {
    h.Some? && h.value.position == Before
  }

  /** The records after a completed reorder, or none when the drop does not reorder
      (page.tsx:520-590). */
  function ReorderRecords(assessments: seq<Assessment>, d: Dragged, id: string, isGroup: bool, before: bool)
    : Option<seq<Assessment>>
  {
    match Reordered(GroupAssessments(assessments), d, id, isGroup, before)
    case None => None
    case Some(items) => Some(Rebuild(assessments, items))
  }

  /** `handleDrop` on a row. The hover read here is the one from before the event:
      clearing it takes effect only after the handler returns. */
  function Drop(p: Page, id: string, isGroup: bool, groupId: Option<string>): Page {
    var cleared := p.(dragOverItem := None);
    if !CanDrag(p) || p.draggedItem.None? then cleared
    else if !Accepts(p.draggedItem.value, id, isGroup, groupId) then cleared.(draggedItem := None)
    else match ReorderRecords(p.assessments, p.draggedItem.value, id, isGroup, DroppedBefore(p.dragOverItem))
      case None => cleared.(draggedItem := None)
      case Some(reordered) => cleared.(assessments := reordered, draggedItem := None)
  }

  // ---------------------------------------------------------------------------
  // The controls (page.tsx:636-1140): which ones the page lets the user use, and
  // which handlers a click on a row runs
  // ---------------------------------------------------------------------------

  /** `hasRemovedOriginalItems` (page.tsx:636): a removed id that is not one of a record
      added on the page. */
  predicate HasRemovedOriginalItems(p: Page) {
    exists id :: id in p.removedItems && !("new-" <= id)
  }

  /** "Divide weight evenly" is shown while a target is chosen (page.tsx:652) and is
      disabled once a record of the course has been removed (page.tsx:656). */
  predicate DistributeEnabled(p: Page) {
    p.dropMode == SelectTarget && !HasRemovedOriginalItems(p)
  }

  /** The add button (page.tsx:673). */
  predicate AddEnabled(p: Page) {
    p.dropMode == NotDropping && !p.removeMode
  }

  /** The remove-mode button (page.tsx:681). */
  predicate RemoveToggleEnabled(p: Page) {
    p.dropMode == NotDropping
  }

  /** The calculate button (page.tsx:1097). */
  predicate CalculateEnabled(p: Page) {
    p.dropMode == NotDropping
  }

  /** The weight and grade fields of a child or single row: the grade field is shown only
      for a row not routed away (page.tsx:934, 1042), the weight field is disabled for one
      (page.tsx:916, 1023), and both are disabled during a selection (page.tsx:939, 1047). */
  predicate RecordInputEnabled(p: Page, id: string) {
    p.dropMode == NotDropping && !IsDropped(p.droppedMap, id)
  }

  /** A group's average field: shown for a group not routed away (page.tsx:813), disabled
      while the group is expanded or a selection is under way (page.tsx:818). */
  predicate GroupGradeEnabled(p: Page, groupId: string) {
    p.dropMode == NotDropping && groupId !in p.expandedGroups && !IsDropped(p.droppedMap, groupId)
  }

  function PressDistribute(p: Page): Page {
    if DistributeEnabled(p) then DistributeEvenly(p) else p
  }

  function PressAdd(p: Page, stamp: string): Page {
    if AddEnabled(p) then AddAssessment(p, stamp) else p
  }

  function PressRemoveToggle(p: Page): Page {
    if RemoveToggleEnabled(p) then ToggleRemoveMode(p) else p
  }

  function PressCalculate(p: Page, parse: Parser): Page {
    if CalculateEnabled(p) then Calculate(p, parse) else p
  }

  function EditWeight(p: Page, id: string, val: string, parse: Parser): Page {
    if RecordInputEnabled(p, id) then WeightChange(p, id, val, parse) else p
  }

  function EditGrade(p: Page, id: string, val: string, parse: Parser): Page {
    if RecordInputEnabled(p, id) then GradeChange(p, id, val, parse) else p
  }

  function EditGroupGrade(p: Page, groupId: string, val: string, parse: Parser): Page {
    if GroupGradeEnabled(p, groupId) then GroupGradeChange(p, groupId, val, parse) else p
  }

  /** The click handler of a group row or a child row (page.tsx:756-765, 877-886): remove
      mode takes the click, otherwise a selection does, otherwise nothing happens. */
  function RowClick(p: Page, id: string, isGroup: bool): Page
    requires p.dropMode == SelectTarget ==> p.dropSourceId.Some?
  {
    if p.removeMode then RemoveModeClick(p, id, isGroup)
    else if p.dropMode != NotDropping then ItemClick(p, id).page
    else p
  }

  /** The click handler of a single row (page.tsx:988-994), which hands every click
      outside remove mode to `handleItemClick`. */
  function SingleRowClick(p: Page, id: string): Page
    requires p.dropMode == SelectTarget ==> p.dropSourceId.Some?
  {
    if p.removeMode then RemoveModeClick(p, id, false) else ItemClick(p, id).page
  }

  /** A click on a group's name (page.tsx:796-798) toggles the group outside a selection
      and then reaches the row's handler. */
  function GroupNameClick(p: Page, groupId: string): Page
    requires p.dropMode == SelectTarget ==> p.dropSourceId.Some?
  {
    RowClick(if p.dropMode == NotDropping then ToggleGroup(p, groupId) else p, groupId, true)
  }

  /** The undo button of a routed-away row (page.tsx:833, 952, 1063) runs `handleUndrop`
      and the click then reaches the row's handler. The handlers the row runs read nothing
      that `handleUndrop` writes, except `handleItemClick` during a selection, when
      `handleUndrop` writes nothing; so running them one after the other is the same as
      running both against the same render. */
  function UndropClick(p: Page, id: string, isGroup: bool, isSingle: bool): Page
    requires p.dropMode == SelectTarget ==> p.dropSourceId.Some?
  {
    var q := Undrop(p, id);
    if isSingle then SingleRowClick(q, id) else RowClick(q, id, isGroup)
  }
}
