/** The pure parts of the course-outline scraper (scripts/scraper/outlineParser.ts): the
    course-code normaliser, the department and term decoders, and the loop that turns the
    plain-text reply of the language model into parsed assessments. */
module OutlineParser {
  import opened Common

  // ---------------------------------------------------------------------------
  // Runs of characters
  // ---------------------------------------------------------------------------

  /** The length of the longest prefix of `s` whose characters all satisfy `p`. */
  function Span(s: string, p: char -> bool): (n: nat)
    ensures n <= |s|
    ensures forall i :: 0 <= i < n ==> p(s[i])
    ensures n < |s| ==> !p(s[n])
  {
    if s != [] && p(s[0]) then 1 + Span(s[1..], p) else 0
  }

  lemma SpanOf(a: string, b: string, p: char -> bool)
    requires forall i :: 0 <= i < |a| ==> p(a[i])
    requires b == [] || !p(b[0])
    ensures Span(a + b, p) == |a|
  {
    if a != [] {
      assert (a + b)[1..] == a[1..] + b;
      SpanOf(a[1..], b, p);
    } else {
      assert a + b == b;
    }
  }

  // ---------------------------------------------------------------------------
  // normalizeCourseCode (outlineParser.ts:31-36)
  // ---------------------------------------------------------------------------

  /** `replace(/\s+/g, ' ')`: every maximal run of whitespace becomes one space. */
  function CollapseSpaces(s: string): string
    decreases |s|
  {
    if s == [] then []
    else if IsSpace(s[0]) then
      TrimStartSpec(s[1..]);
      [' '] + CollapseSpaces(TrimStart(s[1..]))
    else [s[0]] + CollapseSpaces(s[1..])
  }

  /** Every whitespace character is a plain space with no whitespace after it. */
  predicate Collapsed(s: string) {
    forall i :: 0 <= i < |s| && IsSpace(s[i]) ==> s[i] == ' ' && (i + 1 < |s| ==> !IsSpace(s[i + 1]))
  }

  /** The match of `^([A-Z]+)\s*(\d+[A-Z]?)$`, as its two groups. Each quantifier can only
      stop at the end of its maximal run, so there is at most one way to match. */
  function MatchCode(s: string): (m: Option<(string, string)>)
    ensures m.Some? ==> |m.value.0| > 0 && |m.value.1| > 0
  {
    var n := Span(s, IsAsciiUpper);
    var sp := n + Span(s[n..], IsSpace);
    var k := sp + Span(s[sp..], IsDigit);
    if n == 0 || k == sp then None
    else if k == |s| || (k + 1 == |s| && IsAsciiUpper(s[k])) then Some((s[..n], s[sp..]))
    else None
  }

  /** `code.trim().toUpperCase().replace(/\s+/g, ' ')` */
  function CleanCode(code: string): string {
    CollapseSpaces(Upper(Trim(code)))
  }

  function NormalizeCourseCode(code: string): string {
    var cleaned := CleanCode(code);
    match MatchCode(cleaned)
    case Some((subject, number)) => subject + " " + number
    case None => cleaned
  }

  /** `code.match(/^([A-Z]+)/)`, or "" when it does not match: the leading run of upper-case
      letters. */
  function ExtractDepartment(code: string): (r: string)
    ensures |r| <= |code| && r == code[..|r|]
    ensures forall i :: 0 <= i < |r| ==> IsAsciiUpper(r[i])
    ensures |r| < |code| ==> !IsAsciiUpper(code[|r|])
  {
    code[..Span(code, IsAsciiUpper)]
  }

  // ---------------------------------------------------------------------------
  // getTermDate and decodeTerm (outlineParser.ts:47-67)
  // ---------------------------------------------------------------------------

  /** `term.match(/\d{4}/)`: the leftmost four consecutive digits. */
  function FirstFourDigits(s: string): (r: Option<string>)
    ensures r.Some? ==> |r.value| == 4 && AllDigits(r.value)
    decreases |s|
  {
    if |s| < 4 then None
    else if AllDigits(s[..4]) then Some(s[..4])
    else FirstFourDigits(s[1..])
  }

  /** The date that `getTermDate` gives a term name. The clock enters as two parameters:
      `thisYear` is `new Date().getFullYear()` as a string and `today` the ISO date of today. */
  function GetTermDate(term: string, thisYear: string, today: string): string {
    var year := match FirstFourDigits(term) case Some(y) => y case None => thisYear;
    var lower := Lower(term);
    if Contains(lower, "fall") then year + "-09-01"
    else if Contains(lower, "winter") then year + "-01-01"
    else if Contains(lower, "spring") || Contains(lower, "summer") then year + "-05-01"
    else today
  }

  function Season(month: nat): string {
    if month == 1 then "Winter" else if month == 5 then "Spring" else if month == 9 then "Fall"
    else "Unknown"
  }

  lemma IntToStringDigits(i: int)
    ensures AllDigits(IntToString(i)[1..])
  {
    if i < 0 {
      assert IntToString(i)[1..] == NatToString(-i);
    }
  }

  /** `decodeTerm`: a term id such as 1241 is read as the season of its last digit and the
      year "20" followed by its two middle digits. */
  function DecodeTerm(termId: int): string {
    var str := IntToString(termId);
    if |str| != 4 then "Term " + str
    else
      IntToStringDigits(termId);
      assert AllDigits(str[1..3]) && AllDigits(str[3..]);
      var year := DigitsValue("20" + str[1..3]);
      var month := DigitsValue(str[3..]);
      Season(month) + " " + NatToString(year)
  }

  // ---------------------------------------------------------------------------
  // The reply parser of parseWithOpenAI (outlineParser.ts:144-192)
  // ---------------------------------------------------------------------------

  datatype ParsedAssessment = ParsedAssessment(
    name: string,
    category: string,
    totalWeight: real,
    count: int,
    individualWeight: real,
    assessmentType: string)

  /** `text.split('\n')` */
  function SplitLines(text: string): (r: seq<string>)
    ensures |r| > 0
    decreases |text|
  {
    if '\n' in text then
      var i := Span(text, c => c != '\n');
      [text[..i]] + SplitLines(text[i + 1..])
    else [text]
  }

  /** `.map(l => l.trim()).filter(l => l.length > 0)` */
  function TrimmedLines(parts: seq<string>): (r: seq<string>)
    ensures forall i :: 0 <= i < |r| ==> |r[i]| > 0
  {
    if parts == [] then []
    else
      var line := Trim(parts[|parts| - 1]);
      TrimmedLines(parts[..|parts| - 1]) + (if |line| > 0 then [line] else [])
  }

  function ResponseLines(responseText: string): seq<string> {
    TrimmedLines(SplitLines(responseText))
  }

  /** What follows the name in `/^(.*?) [–-] (\d+(?:\.\d+)?) percent/`: a space, one of
      the separator characters, a space, a decimal number and " percent". The greedy
      digit runs can only stop at their ends, so the weight is read deterministically. */
  function MatchTail(rest: string, separators: set<char>): Option<real> {
    if |rest| < 3 || rest[0] != ' ' || rest[1] !in separators || rest[2] != ' ' then None
    else
      var num := rest[3..];
      var d := Span(num, IsDigit);
      if d == 0 then None
      else if d < |num| && num[d] == '.' && Span(num[d + 1..], IsDigit) > 0
        && StartsWith(num[d + 1 + Span(num[d + 1..], IsDigit)..], " percent") then
        var f := Span(num[d + 1..], IsDigit);
        Some(DecimalValue(num[..d], num[d + 1..d + 1 + f]))
      else if StartsWith(num[d..], " percent") then Some(DecimalValue(num[..d], ""))
      else None
  }

  /** The lazy `(.*?)` tries the shortest name first and gives up once the name would
      have to take in a line terminator, which `.` does not match. */
  function MatchFrom(line: string, i: nat, separators: set<char>): (m: Option<(string, real)>)
    requires i <= |line|
    ensures m.Some? ==> exists j :: i <= j <= |line| && m.value.0 == line[..j]
    decreases |line| - i
  {
    if i > 0 && IsLineTerminator(line[i - 1]) then None
    else match MatchTail(line[i..], separators)
      case Some(w) => Some((line[..i], w))
      case None => if i == |line| then None else MatchFrom(line, i + 1, separators)
  }

  /** `line.match(...)`: the raw name (group 1) and the weight `parseFloat(match[2])`. */
  function MatchLine(line: string, separators: set<char>): Option<(string, real)> {
    MatchFrom(line, 0, separators)
  }

  /** The category chosen by the first keyword that the lower-cased name contains. */
  function Category(lower: string): string {
    if Contains(lower, "assign") then "Assignment"
    else if Contains(lower, "quiz") then "Quiz"
    else if Contains(lower, "lab") then "Lab"
    else if Contains(lower, "midterm") then "Midterm"
    else if Contains(lower, "final") then "Final Exam"
    else if Contains(lower, "clicker") || Contains(lower, "participation") then "Participation"
    else if Contains(lower, "project") then "Project"
    else "Other"
  }

  /** The name given to the k-th line carrying the digit-free name `name`. */
  function Numbered(name: string, k: nat): string {
    if HasDigit(name) then name
    else if EndsWith(name, "s") then name[..|name| - 1] + " " + NatToString(k)
    else if k > 1 then name + " " + NatToString(k)
    else name
  }

  datatype ParseState = ParseState(assessments: seq<ParsedAssessment>, nameCounts: map<string, nat>)

  function CountOf(counts: map<string, nat>, name: string): nat {
    if name in counts then counts[name] else 0
  }

  function Parsed(name: string, k: nat, weight: real): ParsedAssessment {
    var category := Category(Lower(name));
    ParsedAssessment(Numbered(name, k), category, weight, 1, weight, category)
  }

  /** A matched line with the trimmed name `name`: digit-free names are counted and
      numbered. */
  function Record(st: ParseState, name: string, weight: real): ParseState {
    if HasDigit(name) then st.(assessments := st.assessments + [Parsed(name, 0, weight)])
    else
      var k := CountOf(st.nameCounts, name) + 1;
      ParseState(st.assessments + [Parsed(name, k, weight)], st.nameCounts[name := k])
  }

  /** One turn of the `for (const line of lines)` loop. */
  function ParseStep(st: ParseState, line: string, separators: set<char>): ParseState {
    match MatchLine(line, separators)
    case None => st
    case Some((raw, weight)) => Record(st, Trim(raw), weight)
  }

  function ParseLines(lines: seq<string>, separators: set<char>): ParseState {
    if lines == [] then ParseState([], map[])
    else ParseStep(ParseLines(lines[..|lines| - 1], separators), lines[|lines| - 1], separators)
  }

  /** The body of the loop of outlineParser.ts:150-192 for one line. */
  method ParseLine(assessments: seq<ParsedAssessment>, nameCounts: map<string, nat>, line: string,
                   separators: set<char>)
    returns (assessments': seq<ParsedAssessment>, nameCounts': map<string, nat>)
    ensures ParseState(assessments', nameCounts')
         == ParseStep(ParseState(assessments, nameCounts), line, separators)
  {
    assessments', nameCounts' := assessments, nameCounts;
    var match_ := MatchLine(line, separators);
    if match_.Some? {
      var name := Trim(match_.value.0);
      var weight := match_.value.1;
      var category := Category(Lower(name));
      if !HasDigit(name) {
        nameCounts' := nameCounts'[name := CountOf(nameCounts', name) + 1];
        if EndsWith(name, "s") || nameCounts'[name] > 1 {
          var singular := if EndsWith(name, "s") then name[..|name| - 1] else name;
          name := singular + " " + NatToString(nameCounts'[Trim(match_.value.0)]);
        }
      }
      assessments' := assessments' + [ParsedAssessment(name, category, weight, 1, weight, category)];
    }
  }

  /** The parsing loop of outlineParser.ts:144-192 over the reply text. */
  method ParseResponse(responseText: string, separators: set<char>) returns (assessments: seq<ParsedAssessment>)
    ensures assessments == ParseLines(ResponseLines(responseText), separators).assessments
  {
    var lines := ResponseLines(responseText);
    assessments := [];
    var nameCounts: map<string, nat> := map[];
    for i := 0 to |lines|
      invariant ParseState(assessments, nameCounts) == ParseLines(lines[..i], separators)
    {
      assert lines[..i + 1][..i] == lines[..i];
      assessments, nameCounts := ParseLine(assessments, nameCounts, lines[i], separators);
    }
    assert lines[..|lines|] == lines;
  }
}
