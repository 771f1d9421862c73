/** The grouping step of the calculator page: a flat, ordered list of assessment
    records becomes display items, where records whose names share a base name
    ("Quiz 1", "Quiz 2") are gathered under one group ("Quizzes"). */
module Grouping {
  import opened Common

  /** One gradeable record.  `grade` is absent while the item is ungraded;
      `weightInput` and `gradeInput` hold the text last typed into the two fields. */
  datatype Assessment = Assessment(
    id: string,
    name: string,
    weight: real,
    weightInput: Option<string>,
    grade: Option<real>,
    gradeInput: Option<string>,
    orderIndex: Option<int>)

  /** What the page shows on one row: a single record, or a group of records. */
  datatype DisplayItem =
    | Single(a: Assessment)
    | Group(id: string, name: string, children: seq<Assessment>, totalWeight: real)
  {
    function Id(): string {
      match this
      case Single(a) => a.id
      case Group(id, _, _, _) => id
    }
  }

  // ---------------------------------------------------------------------------
  // The base-name pattern `/^(.*?) ?#?\d+/`
  // ---------------------------------------------------------------------------

  /** ` ?#?\d+` matches at position `p` of `s`. */
  predicate NumberAt(s: string, p: nat) {
    || (p < |s| && IsDigit(s[p]))
    || (p + 1 < |s| && (s[p] == '#' || s[p] == ' ') && IsDigit(s[p + 1]))
    || (p + 2 < |s| && s[p] == ' ' && s[p + 1] == '#' && IsDigit(s[p + 2]))
  }

  /** Where the lazy group `(.*?)` stops when the scan starts at `p`: the first
      position at which ` ?#?\d+` matches, provided `.` can cross everything
      before it (no line terminator), and None when no such position exists. */
  function BaseNameEnd(s: string, p: nat): (r: Option<nat>)
    requires p <= |s|
    ensures r.Some? ==> p <= r.value < |s| && NumberAt(s, r.value)
    decreases |s| - p
  {
    if p == |s| then None
    else if NumberAt(s, p) then Some(p)
    else if IsLineTerminator(s[p]) then None
    else BaseNameEnd(s, p + 1)
  }

  /** The lazy group stops at the first position where the rest of the pattern matches
      and never crosses a line terminator; when there is no such stop, every position
      where the rest would match lies beyond a line terminator. */
  lemma {:induction false} BaseNameEndSpec(s: string, p: nat)
    requires p <= |s|
    ensures var r := BaseNameEnd(s, p);
      && (r.Some? ==> p <= r.value < |s| && NumberAt(s, r.value))
      && (r.Some? ==> forall q :: p <= q < r.value ==> !NumberAt(s, q) && !IsLineTerminator(s[q]))
      && (r.None? ==> forall q :: p <= q < |s| && NumberAt(s, q) ==>
                        exists k :: p <= k < q && IsLineTerminator(s[k]))
    decreases |s| - p
  {
    if p < |s| && !NumberAt(s, p) && !IsLineTerminator(s[p]) {
      BaseNameEndSpec(s, p + 1);
    }
  }

  /** `match[1].trim()` for `a.name.match(/^(.*?) ?#?\d+/)`, or None when the name does not match. */
  function BaseName(name: string): Option<string> {
    match BaseNameEnd(name, 0)
    case Some(p) => Some(Trim(name[..p]))
    case None => None
  }

  /** The bucket key of a record: its base name, when it matched and is not empty
      (page.tsx only buckets a record `if (baseName)`). */
  function KeyOf(a: Assessment): Option<string> {
    match BaseName(a.name)
    case Some(k) => if k != "" then Some(k) else None
    case None => None
  }

  /** A bucket key never holds a digit: the lazy group stops before the first one. */
  lemma KeyHasNoDigit(a: Assessment)
    requires KeyOf(a).Some?
    ensures !HasDigit(KeyOf(a).value)
  {
    var p := BaseNameEnd(a.name, 0).value;
    BaseNameEndSpec(a.name, 0);
    var pre := a.name[..p];
    assert forall q :: 0 <= q < |pre| ==> !IsDigit(pre[q]);
    TrimIsSlice(pre);
    var i, j :| 0 <= i <= j <= |pre| && Trim(pre) == pre[i..j];
    assert forall q :: 0 <= q < j - i ==> pre[i..j][q] == pre[i + q];
  }

  // ---------------------------------------------------------------------------
  // pluralize
  // ---------------------------------------------------------------------------

  /** The quote characters that `pluralize` strips: the bracket expression of its
      regular expression holds the ASCII double and single quote. */
  predicate IsQuote(c: char) { c == '"' || c == '\'' }

  function DropLeadingQuotes(s: string): string {
    if |s| > 0 && IsQuote(s[0]) then DropLeadingQuotes(s[1..]) else s
  }

  function DropTrailingQuotes(s: string): string {
    if |s| > 0 && IsQuote(s[|s| - 1]) then DropTrailingQuotes(s[..|s| - 1]) else s
  }

  /** `s.toLowerCase().endsWith('quiz')` */
  predicate EndsWithQuiz(s: string) {
    && |s| >= 4
    && LowerChar(s[|s| - 4]) == 'q' && LowerChar(s[|s| - 3]) == 'u'
    && LowerChar(s[|s| - 2]) == 'i' && LowerChar(s[|s| - 1]) == 'z'
  }

  /** `s.toLowerCase().endsWith('s')` */
  predicate EndsWithS(s: string) {
    |s| >= 1 && LowerChar(s[|s| - 1]) == 's'
  }

  lemma EndsWithQuizMeaning(s: string)
    ensures EndsWithQuiz(s) <==> EndsWith(Lower(s), "quiz")
    ensures EndsWithS(s) <==> EndsWith(Lower(s), "s")
  {
    var l := Lower(s);
    if |s| >= 4 {
      var t := l[|l| - 4..];
      assert t == [l[|l| - 4], l[|l| - 3], l[|l| - 2], l[|l| - 1]];
    }
    if |s| >= 1 {
      assert l[|l| - 1..] == [l[|l| - 1]];
    }
  }

  /** The display name of a group: strip surrounding quotes, trim, then pluralise. */
  function Pluralize(name: string): string {
    var clean := Trim(DropTrailingQuotes(DropLeadingQuotes(name)));
    if EndsWithQuiz(clean) then clean + "zes"
    else if EndsWithS(clean) then clean
    else clean + "s"
  }

  /** Every group name ends in an "s" (in either case): "...zes", the name itself when
      it already ends in "s", or the name with "s" appended. */
  lemma PluralizeEndsInS(name: string)
    ensures var r := Pluralize(name); |r| > 0 && LowerChar(r[|r| - 1]) == 's'
  {
    var clean := Trim(DropTrailingQuotes(DropLeadingQuotes(name)));
    if EndsWithQuiz(clean) {
      assert Pluralize(name) == clean + "zes";
    } else if !EndsWithS(clean) {
      assert Pluralize(name) == clean + "s";
    }
  }

  /** "Quiz" takes "zes" ... */
  lemma PluralizeQuiz()
    ensures Pluralize("Quiz") == "Quizzes"
  {
    assert TrimStart("Quiz") == "Quiz";
    assert TrimEnd("Quiz") == "Quiz";
  }

  /** ... anything else not ending in "s" takes "s" ... */
  lemma PluralizeLab()
    ensures Pluralize("Lab") == "Labs"
  {
    assert TrimStart("Lab") == "Lab";
    assert TrimEnd("Lab") == "Lab";
  }

  /** ... a name that already ends in "s" is kept ... */
  lemma PluralizeAlreadyPlural()
    ensures Pluralize("Labs") == "Labs"
  {
    assert TrimStart("Labs") == "Labs";
    assert TrimEnd("Labs") == "Labs";
  }

  /** ... and surrounding quotes are dropped first. */
  lemma PluralizeQuoted()
    ensures Pluralize("'Quiz'") == "Quizzes"
  {
    assert DropLeadingQuotes("'Quiz'") == "Quiz'";
    assert DropTrailingQuotes("Quiz'") == "Quiz";
    assert TrimStart("Quiz") == "Quiz";
    assert TrimEnd("Quiz") == "Quiz";
  }

  // ---------------------------------------------------------------------------
  // Ordering children by their first number
  // ---------------------------------------------------------------------------

  /** Start of the first digit in `s` at or after `p`, or |s| if there is none. */
  function FirstDigitFrom(s: string, p: nat): (r: nat)
    requires p <= |s|
    ensures p <= r <= |s|
    ensures r < |s| ==> IsDigit(s[r])
    ensures forall q :: p <= q < r ==> !IsDigit(s[q])
    decreases |s| - p
  {
    if p == |s| || IsDigit(s[p]) then p else FirstDigitFrom(s, p + 1)
  }

  /** End of the digit run that starts at `p`. */
  function DigitRunEnd(s: string, p: nat): (r: nat)
    requires p <= |s|
    ensures p <= r <= |s|
    ensures forall q :: p <= q < r ==> IsDigit(s[q])
    ensures r == |s| || !IsDigit(s[r])
    decreases |s| - p
  {
    if p < |s| && IsDigit(s[p]) then DigitRunEnd(s, p + 1) else p
  }

  /** The value of the first digit run of `s` at or after `p`, or 0 when there is none. */
  function NumberFrom(s: string, p: nat): nat
    requires p <= |s|
    decreases |s| - p
  {
    if p == |s| then 0
    else if IsDigit(s[p]) then DigitsValue(s[p..DigitRunEnd(s, p)])
    else NumberFrom(s, p + 1)
  }

  /** `parseInt(name.match(/\d+/)?.[0] || '0')`: the value of the first digit run, or 0. */
  function FirstNumber(name: string): nat {
    NumberFrom(name, 0)
  }

  /** The first number of a name is the value of its first run of digits (0 when it has none). */
  lemma FirstNumberSpec(name: string)
    ensures var i := FirstDigitFrom(name, 0); FirstNumber(name) == DigitsValue(name[i..DigitRunEnd(name, i)])
  {
    FirstNumberFrom(name, 0);
  }

  lemma FirstNumberFrom(s: string, p: nat)
    requires p <= |s|
    ensures var i := FirstDigitFrom(s, p); NumberFrom(s, p) == DigitsValue(s[i..DigitRunEnd(s, i)])
    decreases |s| - p
  {
    if p < |s| && !IsDigit(s[p]) {
      FirstNumberFrom(s, p + 1);
    }
  }

  /** Insert `a` after every element whose number is not larger than its own. */
  function InsertByNumber(sorted: seq<Assessment>, a: Assessment): seq<Assessment> {
    if sorted == [] then [a]
    else if FirstNumber(a.name) < FirstNumber(sorted[|sorted| - 1].name) then
      InsertByNumber(sorted[..|sorted| - 1], a) + [sorted[|sorted| - 1]]
    else sorted + [a]
  }

  /** `items.sort((a, b) => numA - numB)`: JavaScript's sort is stable, so this is the
      stable sort by first number, written here as an insertion sort. */
  function SortByNumber(s: seq<Assessment>): seq<Assessment> {
    if s == [] then [] else InsertByNumber(SortByNumber(s[..|s| - 1]), s[|s| - 1])
  }

  function SumWeights(s: seq<Assessment>): real {
    if s == [] then 0.0 else SumWeights(s[..|s| - 1]) + s[|s| - 1].weight
  }

  // ---------------------------------------------------------------------------
  // groupAssessments, pass by pass
  // ---------------------------------------------------------------------------

  /** One entry of the `groups` record: a base name and its records, in input order. */
  datatype Bucket = Bucket(key: string, items: seq<Assessment>)

  /** Position of the bucket with key `k`; keys are unique, so it is the only one. */
  function BucketIndex(b: seq<Bucket>, k: string): (r: Option<nat>)
    ensures r.Some? ==> r.value < |b| && b[r.value].key == k
    ensures r.None? ==> forall i :: 0 <= i < |b| ==> b[i].key != k
  {
    if b == [] then None
    else if b[|b| - 1].key == k then Some(|b| - 1)
    else BucketIndex(b[..|b| - 1], k)
  }

  /** `if (!groups[k]) groups[k] = []; groups[k].push(a)` */
  function PushToBucket(b: seq<Bucket>, k: string, a: Assessment): seq<Bucket> {
    match BucketIndex(b, k)
    case Some(i) => b[i := Bucket(k, b[i].items + [a])]
    case None => b + [Bucket(k, [a])]
  }

  /** One step of the first `forEach` (page.tsx:73-82). */
  function CollectStep(b: seq<Bucket>, a: Assessment): seq<Bucket> {
    match KeyOf(a)
    case Some(k) => PushToBucket(b, k, a)
    case None => b
  }

  /** The `groups` record after the first pass. */
  function CollectBuckets(flat: seq<Assessment>): seq<Bucket> {
    if flat == [] then [] else CollectStep(CollectBuckets(flat[..|flat| - 1]), flat[|flat| - 1])
  }

  function Ids(s: seq<Assessment>): set<string> {
    set a | a in s :: a.id
  }

  /** One step of the second `forEach` (page.tsx:84-90). */
  function ProcessStep(processed: set<string>, bk: Bucket): set<string> {
    if |bk.items| > 1 then processed + Ids(bk.items)
    else if |bk.items| == 1 then processed - {bk.items[0].id}
    else processed
  }

  /** The `processedIds` set after the second pass. */
  function ProcessedIds(b: seq<Bucket>): set<string> {
    if b == [] then {} else ProcessStep(ProcessedIds(b[..|b| - 1]), b[|b| - 1])
  }

  /** The `singles` array after the third pass (page.tsx:92-96). */
  function Singles(flat: seq<Assessment>, processed: set<string>): seq<Assessment> {
    if flat == [] then []
    else
      Singles(flat[..|flat| - 1], processed)
      + (if flat[|flat| - 1].id !in processed then [flat[|flat| - 1]] else [])
  }

  /** The group item built from a bucket with more than one record (page.tsx:102-115). */
  function MakeGroup(bk: Bucket): DisplayItem {
    var children := SortByNumber(bk.items);
    Group(bk.key, Pluralize(bk.key), children, SumWeights(children))
  }

  /** What the fourth pass pushes for one bucket: a group when it holds more than one record. */
  function GroupOf(bk: Bucket): seq<DisplayItem> {
    if |bk.items| > 1 then [MakeGroup(bk)] else []
  }

  /** The group items pushed by the fourth pass (page.tsx:100-117). */
  function GroupItems(b: seq<Bucket>): seq<DisplayItem> {
    if b == [] then [] else GroupItems(b[..|b| - 1]) + GroupOf(b[|b| - 1])
  }

  function SinglesAsItems(s: seq<Assessment>): (r: seq<DisplayItem>)
    ensures |r| == |s|
    ensures forall i :: 0 <= i < |s| ==> r[i] == Single(s[i])
  {
    if s == [] then [] else SinglesAsItems(s[..|s| - 1]) + [Single(s[|s| - 1])]
  }

  /** `groupAssessments(flatAssessments)` */
  function GroupAssessments(flat: seq<Assessment>): seq<DisplayItem> {
    var b := CollectBuckets(flat);
    GroupItems(b) + SinglesAsItems(Singles(flat, ProcessedIds(b)))
  }

  /** The records shown by a list of display items, children of groups in place. */
  function Flatten(items: seq<DisplayItem>): seq<Assessment> {
    if items == [] then []
    else
      Flatten(items[..|items| - 1])
      + match items[|items| - 1]
        case Single(a) => [a]
        case Group(_, _, children, _) => children
  }

  // ---------------------------------------------------------------------------
  // The same computation with the page's loops
  // ---------------------------------------------------------------------------

  /** `groupAssessments` as page.tsx runs it: four passes that push into `groups`,
      `processedIds`, `singles` and `result`. */
  method GroupAssessmentsLoop(flat: seq<Assessment>) returns (result: seq<DisplayItem>)
    ensures result == GroupAssessments(flat)
  {
    var groups := CollectBucketsLoop(flat);
    var processedIds := ProcessedIdsLoop(groups);
    var singles := SinglesLoop(flat, processedIds);
    result := GroupItemsLoop(groups);
    ghost var front := result;
    for i := 0 to |singles|
      invariant result == front + SinglesAsItems(singles[..i])
    {
      assert singles[..i + 1][..i] == singles[..i];
      result := result + [Single(singles[i])];
    }
    assert singles[..|singles|] == singles;
  }

  /** page.tsx:73-82 */
  method CollectBucketsLoop(flat: seq<Assessment>) returns (groups: seq<Bucket>)
    ensures groups == CollectBuckets(flat)
  {
    groups := [];
    for i := 0 to |flat|
      invariant groups == CollectBuckets(flat[..i])
    {
      assert flat[..i + 1][..i] == flat[..i];
      var a := flat[i];
      var m := BaseName(a.name);
      if m.Some? {
        var baseName := m.value;
        if baseName != "" {
          groups := PushToBucket(groups, baseName, a);
        }
      }
    }
    assert flat[..|flat|] == flat;
  }

  /** page.tsx:84-90 */
  method ProcessedIdsLoop(groups: seq<Bucket>) returns (processedIds: set<string>)
    ensures processedIds == ProcessedIds(groups)
  {
    processedIds := {};
    for i := 0 to |groups|
      invariant processedIds == ProcessedIds(groups[..i])
    {
      assert groups[..i + 1][..i] == groups[..i];
      var items := groups[i].items;
      if |items| > 1 {
        processedIds := processedIds + Ids(items);
      } else if |items| == 1 {
        processedIds := processedIds - {items[0].id};
      }
    }
    assert groups[..|groups|] == groups;
  }

  /** page.tsx:92-96 */
  method SinglesLoop(flat: seq<Assessment>, processedIds: set<string>) returns (singles: seq<Assessment>)
    ensures singles == Singles(flat, processedIds)
  {
    singles := [];
    for i := 0 to |flat|
      invariant singles == Singles(flat[..i], processedIds)
    {
      assert flat[..i + 1][..i] == flat[..i];
      assert Singles(flat[..i + 1], processedIds)
        == Singles(flat[..i], processedIds) + (if flat[i].id !in processedIds then [flat[i]] else []);
      if flat[i].id !in processedIds {
        singles := singles + [flat[i]];
      }
    }
    assert flat[..|flat|] == flat;
  }

  /** page.tsx:100-117 */
  method GroupItemsLoop(groups: seq<Bucket>) returns (result: seq<DisplayItem>)
    ensures result == GroupItems(groups)
  {
    result := [];
    for i := 0 to |groups|
      invariant result == GroupItems(groups[..i])
    {
      assert groups[..i + 1][..i] == groups[..i];
      if |groups[i].items| > 1 {
        var g := MakeGroup(groups[i]);
        result := result + [g];
      }
      assert result == GroupItems(groups[..i]) + GroupOf(groups[i]);
    }
    assert groups[..|groups|] == groups;
  }
}
