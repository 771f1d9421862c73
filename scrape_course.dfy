/** The expansion of a parsed outline into assessment rows (scripts/scrape-course.ts:76-104):
    an assessment that stands for `count` items becomes `count` numbered rows, and every row
    gets the next `order_index`. */
module ScrapeCourse {
  import opened Common
  import opened OutlineParser

  /** The course section the rows belong to: its database id and the parsed code, term
      and term date. */
  datatype Section = Section(courseId: string, code: string, term: string, termDate: string)

  datatype Row = Row(
    courseId: string,
    courseCode: string,
    name: string,
    category: string,
    weight: real,
    totalWeight: real,
    assessmentType: string,
    orderIndex: nat,
    term: string,
    termDate: string)

  /** The number of rows `for (let i = 0; i < assessment.count; i++)` produces. */
  function Copies(a: ParsedAssessment): nat {
    if a.count > 0 then a.count else 0
  }

  /** The name of the i-th row of `a` (scrape-course.ts:83-88). */
  function RowName(a: ParsedAssessment, i: nat): string {
    if a.count > 1 then
      var numbered := a.name + " " + NatToString(i + 1);
      ReplaceFirst(ReplaceFirst(numbered, "Quizzes", "Quiz"), "Assignments", "Assignment")
    else a.name
  }

  function MakeRow(s: Section, a: ParsedAssessment, i: nat, index: nat): Row {
    Row(s.courseId, s.code, RowName(a, i), a.category, a.individualWeight, a.totalWeight,
        a.assessmentType, index, s.term, s.termDate)
  }

  /** The rows of one parsed assessment when the running index stands at `start`. */
  function RowsOf(s: Section, a: ParsedAssessment, start: nat): (r: seq<Row>)
    ensures |r| == Copies(a)
  {
    seq(Copies(a), i requires 0 <= i < Copies(a) => MakeRow(s, a, i, start + i))
  }

  function TotalCopies(parsed: seq<ParsedAssessment>): nat {
    if parsed == [] then 0 else TotalCopies(parsed[..|parsed| - 1]) + Copies(parsed[|parsed| - 1])
  }

  /** `assessmentsToInsert` after the two loops. */
  function ExpandAll(s: Section, parsed: seq<ParsedAssessment>): (r: seq<Row>)
    ensures |r| == TotalCopies(parsed)
  {
    if parsed == [] then []
    else
      var front := ExpandAll(s, parsed[..|parsed| - 1]);
      front + RowsOf(s, parsed[|parsed| - 1], |front|)
  }

  /** The renaming statements of scrape-course.ts:83-88. */
  method NameRow(assessment: ParsedAssessment, i: nat) returns (name: string)
    ensures name == RowName(assessment, i)
  {
    name := assessment.name;
    if assessment.count > 1 {
      name := assessment.name + " " + NatToString(i + 1);
      if Contains(name, "Quizzes") {
        name := ReplaceFirst(name, "Quizzes", "Quiz");
      }
      if Contains(name, "Assignments") {
        name := ReplaceFirst(name, "Assignments", "Assignment");
      }
    }
  }

  /** The inner loop of scrape-course.ts:82-103: the rows of one parsed assessment pushed
      onto `assessmentsToInsert`, the running index being the number of rows so far. */
  method PushRows(s: Section, assessment: ParsedAssessment, assessmentsToInsert: seq<Row>)
    returns (pushed: seq<Row>)
    ensures pushed == assessmentsToInsert + RowsOf(s, assessment, |assessmentsToInsert|)
  {
    ghost var rows := RowsOf(s, assessment, |assessmentsToInsert|);
    pushed := assessmentsToInsert;
    var globalIndex := |assessmentsToInsert|;
    var i := 0;
    while i < assessment.count
      invariant 0 <= i <= Copies(assessment)
      invariant pushed == assessmentsToInsert + rows[..i]
      invariant globalIndex == |assessmentsToInsert| + i
    {
      var name := NameRow(assessment, i);
      assert rows[i] == MakeRow(s, assessment, i, globalIndex);
      assert rows[..i + 1] == rows[..i] + [rows[i]];
      pushed := pushed + [Row(s.courseId, s.code, name, assessment.category, assessment.individualWeight,
        assessment.totalWeight, assessment.assessmentType, globalIndex, s.term, s.termDate)];
      globalIndex := globalIndex + 1;
      i := i + 1;
    }
    assert rows[..Copies(assessment)] == rows;
  }

  /** The insert of scrape-course.ts:76-115: `None` when the parsed list is empty and
      nothing is inserted, otherwise the rows handed to the insert. */
  method ExpandAssessments(s: Section, parsed: seq<ParsedAssessment>) returns (toInsert: Option<seq<Row>>)
    ensures toInsert == if parsed == [] then None else Some(ExpandAll(s, parsed))
  {
    if |parsed| == 0 {
      return None;
    }
    var assessmentsToInsert: seq<Row> := [];
    for p := 0 to |parsed|
      invariant assessmentsToInsert == ExpandAll(s, parsed[..p])
    {
      assert parsed[..p + 1][..p] == parsed[..p];
      assessmentsToInsert := PushRows(s, parsed[p], assessmentsToInsert);
    }
    assert parsed[..|parsed|] == parsed;
    return Some(assessmentsToInsert);
  }
}
