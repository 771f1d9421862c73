/** Properties of the row expansion of scripts/scrape-course.ts:76-104. */
module ScrapeProps {
  import opened Common
  import opened OutlineParser
  import opened ScrapeCourse

  // ---------------------------------------------------------------------------
  // Row names
  // ---------------------------------------------------------------------------

  /** A string without the first character of `t` does not contain `t`. */
  lemma {:induction false} NotContainsFirstChar(s: string, t: string)
    requires |t| > 0
    requires forall k :: 0 <= k < |s| ==> s[k] != t[0]
    ensures !Contains(s, t)
    decreases |s|
  {
    if |s| > 0 {
      assert s[0] != t[0];
      NotContainsFirstChar(s[1..], t);
    }
  }

  /** Replacing a pattern the string starts with swaps that prefix. */
  lemma ReplaceAtStart(s: string, from: string, to: string)
    requires StartsWith(s, from)
    ensures ReplaceFirst(s, from, to) == to + s[|from|..]
  {
  }

  /** Appending " <digits>" creates no new occurrence of a pattern without spaces and digits. */
  lemma {:induction false} NoContainsAcrossNumber(name: string, digits: string, t: string)
    requires AllDigits(digits)
    requires |t| > 0 && forall k :: 0 <= k < |t| ==> t[k] != ' ' && !IsDigit(t[k])
    requires !Contains(name, t)
    ensures !Contains(name + " " + digits, t)
    decreases |name|
  {
    var s := name + " " + digits;
    if name == [] {
      assert s == " " + digits;
      assert s[0] == ' ';
      assert s[1..] == digits;
      NotContainsFirstChar(digits, t);
    } else {
      assert !StartsWith(name, t);
      assert s[|name|] == ' ';
      assert |t| <= |name| ==> name[..|t|] == s[..|t|];
      assert s[1..] == name[1..] + " " + digits;
      NoContainsAcrossNumber(name[1..], digits, t);
    }
  }

  /** An assessment that stands for one row keeps its name. */
  lemma RowNameSingle(a: ParsedAssessment, i: nat)
    requires a.count <= 1
    ensures RowName(a, i) == a.name
  {
  }

  /** A repeated assessment whose name holds neither plural is numbered "<name> <i+1>". */
  lemma RowNameNumbered(a: ParsedAssessment, i: nat)
    requires a.count > 1
    requires !Contains(a.name, "Quizzes") && !Contains(a.name, "Assignments")
    ensures RowName(a, i) == a.name + " " + NatToString(i + 1)
  {
    var digits := NatToString(i + 1);
    var quizzes, assignments := "Quizzes", "Assignments";
    NoContainsAcrossNumber(a.name, digits, quizzes);
    NoContainsAcrossNumber(a.name, digits, assignments);
  }

  /** `Quizzes` counted n times becomes `Quiz 1` … `Quiz n`, and `Assignments` becomes
      `Assignment 1` … `Assignment n`. */
  lemma RowNameSingular(a: ParsedAssessment, i: nat, plural: string, singular: string)
    requires a.count > 1 && a.name == plural
    requires (plural, singular) == ("Quizzes", "Quiz") || (plural, singular) == ("Assignments", "Assignment")
    ensures RowName(a, i) == singular + " " + NatToString(i + 1)
  {
    var digits := NatToString(i + 1);
    var numbered := plural + " " + digits;
    var quizzes, assignments := "Quizzes", "Assignments";
    var r := singular + " " + digits;
    assert numbered[|plural|..] == " " + digits;
    if plural == quizzes {
      assert StartsWith(numbered, quizzes);
      assert Contains(numbered, quizzes);
      ReplaceAtStart(numbered, quizzes, singular);
      assert ReplaceFirst(numbered, quizzes, singular) == r;
      assert forall k :: |singular| + 1 <= k < |r| ==> r[k] == digits[k - |singular| - 1];
      NotContainsFirstChar(r, assignments);
    } else {
      assert forall k :: |plural| + 1 <= k < |numbered| ==> numbered[k] == digits[k - |plural| - 1];
      NotContainsFirstChar(numbered, quizzes);
      assert StartsWith(numbered, assignments);
      assert Contains(numbered, assignments);
      ReplaceAtStart(numbered, assignments, singular);
    }
  }

  // ---------------------------------------------------------------------------
  // Rows and order indices
  // ---------------------------------------------------------------------------

  /** The rows for a prefix of the parsed list are a prefix of all the rows. */
  lemma {:induction false} ExpandPrefix(s: Section, parsed: seq<ParsedAssessment>, p: nat)
    requires p <= |parsed|
    ensures TotalCopies(parsed[..p]) <= TotalCopies(parsed)
    ensures ExpandAll(s, parsed)[..TotalCopies(parsed[..p])] == ExpandAll(s, parsed[..p])
    decreases |parsed|
  {
    if p < |parsed| {
      var front := parsed[..|parsed| - 1];
      assert front[..p] == parsed[..p];
      ExpandPrefix(s, front, p);
    } else {
      assert parsed[..p] == parsed;
    }
  }

  /** Row `i` of the p-th parsed assessment sits at position TotalCopies(parsed[..p]) + i,
      takes its name from `RowName`, its weights, category and type from the assessment,
      the course fields from the section, and its position as its `order_index`. */
  lemma RowAt(s: Section, parsed: seq<ParsedAssessment>, p: nat, i: nat)
    requires p < |parsed| && i < Copies(parsed[p])
    ensures TotalCopies(parsed[..p]) + i < |ExpandAll(s, parsed)|
    ensures var k := TotalCopies(parsed[..p]) + i;
      var row, a := ExpandAll(s, parsed)[k], parsed[p];
      row.name == RowName(a, i) && row.orderIndex == k &&
      row.weight == a.individualWeight && row.totalWeight == a.totalWeight &&
      row.category == a.category && row.assessmentType == a.assessmentType &&
      row.courseId == s.courseId && row.courseCode == s.code &&
      row.term == s.term && row.termDate == s.termDate
  {
    var upto := parsed[..p + 1];
    assert upto[..p] == parsed[..p];
    assert upto[p] == parsed[p];
    ExpandPrefix(s, parsed, p + 1);
    var k := TotalCopies(parsed[..p]) + i;
    assert ExpandAll(s, upto)[k] == RowsOf(s, parsed[p], TotalCopies(parsed[..p]))[i];
  }

  /** `order_index` runs 0, 1, …, N-1 over all rows, N being the sum of the counts. */
  lemma {:induction false} OrderIndexConsecutive(s: Section, parsed: seq<ParsedAssessment>)
    ensures |ExpandAll(s, parsed)| == TotalCopies(parsed)
    ensures forall k :: 0 <= k < |ExpandAll(s, parsed)| ==> ExpandAll(s, parsed)[k].orderIndex == k
  {
    if parsed != [] {
      var front := parsed[..|parsed| - 1];
      OrderIndexConsecutive(s, front);
      var r, f := ExpandAll(s, parsed), ExpandAll(s, front);
      var last := RowsOf(s, parsed[|parsed| - 1], |f|);
      assert r == f + last;
      forall k | 0 <= k < |r|
        ensures r[k].orderIndex == k
      {
        if k < |f| {
          assert r[k] == f[k];
        } else {
          var j := k - |f|;
          assert r[k] == last[j];
          assert last[j] == MakeRow(s, parsed[|parsed| - 1], j, |f| + j);
        }
      }
    }
  }

  /** The number of rows is the sum of the counts, a count below one giving no row. */
  lemma {:induction false} TotalCopiesAppend(a: seq<ParsedAssessment>, b: seq<ParsedAssessment>)
    ensures TotalCopies(a + b) == TotalCopies(a) + TotalCopies(b)
    decreases |b|
  {
    if b == [] {
      assert a + b == a;
    } else {
      var front := b[..|b| - 1];
      assert (a + b)[..|a + b| - 1] == a + front;
      TotalCopiesAppend(a, front);
    }
  }
}
