/** The string functions of the duplicate cleaner (scripts/clean-assessments.ts): the stem
    `getStem` (lines 22-38), the word-order-free key `normalizeFuzzy` (lines 114-116), the
    tokens `getTokens` (line 141), and the regular-expression tests the passes apply to
    names, each written out as the match JavaScript computes. */
module CleanText {
  import opened Common
  import opened OutlineParser

  // ---------------------------------------------------------------------------
  // Runs, splitting and joining
  // ---------------------------------------------------------------------------

  /** The length of the longest suffix of `s` whose characters all satisfy `p`. */
  function TrailingRun(s: string, p: char -> bool): (n: nat)
    ensures n <= |s|
    ensures forall i :: |s| - n <= i < |s| ==> p(s[i])
    ensures n < |s| ==> !p(s[|s| - n - 1])
  {
    if s != [] && p(s[|s| - 1]) then 1 + TrailingRun(s[..|s| - 1], p) else 0
  }

  predicate NotSpace(c: char) { !IsSpace(c) }

  predicate NotLineTerminator(c: char) { !IsLineTerminator(c) }

  predicate HasLineTerminator(s: string) {
    exists i :: 0 <= i < |s| && IsLineTerminator(s[i])
  }

  /** `s.split(/\s+/)`: the pieces between maximal runs of whitespace, with an empty piece
      before a leading run and after a trailing one. */
  function SplitSpaces(s: string): (r: seq<string>)
    ensures |r| > 0
    ensures forall i :: 0 <= i < |r| ==> forall k :: 0 <= k < |r[i]| ==> !IsSpace(r[i][k])
    decreases |s|
  {
    var k := Span(s, NotSpace);
    if k == |s| then [s]
    else
      var w := k + Span(s[k..], IsSpace);
      [s[..k]] + SplitSpaces(s[w..])
  }

  /** `words.join(sep)` */
  function Join(ws: seq<string>, sep: string): string {
    if ws == [] then ""
    else if |ws| == 1 then ws[0]
    else ws[0] + sep + Join(ws[1..], sep)
  }

  /** `.replace(/[^\w\s]/g, '')`: only word characters and whitespace are kept. */
  function KeepWordAndSpace(s: string): (r: string)
    ensures forall i :: 0 <= i < |r| ==> IsWordChar(r[i]) || IsSpace(r[i])
  {
    if s == [] then []
    else KeepWordAndSpace(s[..|s| - 1]) + (if IsWordChar(s[|s| - 1]) || IsSpace(s[|s| - 1]) then [s[|s| - 1]] else [])
  }

  /** `.replace(/[^\w\s]/g, ' ')`: every other character becomes a space. */
  function PunctuationToSpace(s: string): (r: string)
    ensures |r| == |s|
    ensures forall i :: 0 <= i < |s| ==> r[i] == if IsWordChar(s[i]) || IsSpace(s[i]) then s[i] else ' '
  {
    seq(|s|, i requires 0 <= i < |s| => if IsWordChar(s[i]) || IsSpace(s[i]) then s[i] else ' ')
  }

  // ---------------------------------------------------------------------------
  // getStem (lines 22-38)
  // ---------------------------------------------------------------------------

  /** The position of the last `c` in `s`. */
  function LastIndex(s: string, c: char): (r: Option<nat>)
    ensures r.Some? ==> r.value < |s| && s[r.value] == c && forall i :: r.value < i < |s| ==> s[i] != c
    ensures r.None? ==> forall i :: 0 <= i < |s| ==> s[i] != c
  {
    if s == [] then None
    else if s[|s| - 1] == c then Some(|s| - 1)
    else LastIndex(s[..|s| - 1], c)
  }

  /** `.replace(/\(.*\)/g, '')`: from each `(`, the greedy `.*` reaches the last `)` before
      the next line terminator; a `(` with no such `)` is kept, and the search goes on after
      each removed span. */
  function RemoveParens(s: string): (r: string)
    ensures |r| <= |s|
    decreases |s|
  {
    if s == [] then []
    else if s[0] == '(' then
      var rest := s[1..];
      match LastIndex(rest[..Span(rest, NotLineTerminator)], ')')
      case Some(j) => RemoveParens(rest[j + 1..])
      case None => [s[0]] + RemoveParens(rest)
    else [s[0]] + RemoveParens(s[1..])
  }

  /** `.replace(/\s+\d+$/, '')`: the trailing digits and the whitespace run before them go,
      when both are there. */
  function StripNumber(s: string): string {
    var d := TrailingRun(s, IsDigit);
    var t := s[..|s| - d];
    var w := TrailingRun(t, IsSpace);
    if d > 0 && w > 0 then t[..|t| - w] else s
  }

  /** `.replace(/\s+[a-z]\d+$/i, '')`: a trailing letter-and-digits code and the whitespace
      run before it go, when both are there. */
  function StripCode(s: string): string {
    var d := TrailingRun(s, IsDigit);
    var t := s[..|s| - d];
    if d > 0 && |t| > 0 && IsAsciiLetter(t[|t| - 1]) then
      var u := t[..|t| - 1];
      var w := TrailingRun(u, IsSpace);
      if w > 0 then u[..|u| - w] else s
    else s
  }

  /** The plural folding of lines 31-35. */
  function FoldPlural(word: string): string {
    if word == "quizzes" then "quiz"
    else if EndsWith(word, "ies") && |word| > 3 then word[..|word| - 3] + "y"
    else if EndsWith(word, "sses") then word[..|word| - 2]
    else if EndsWith(word, "s") && !EndsWith(word, "ss") && |word| > 3 then word[..|word| - 1]
    else word
  }

  function FoldAll(words: seq<string>): (r: seq<string>)
    ensures |r| == |words|
    ensures forall i :: 0 <= i < |words| ==> r[i] == FoldPlural(words[i])
  {
    seq(|words|, i requires 0 <= i < |words| => FoldPlural(words[i]))
  }

  /** The text `getStem` splits into words: lower case, without parenthesised spans, the
      trailing number or code, punctuation and surrounding whitespace. */
  function StemText(name: string): string {
    Trim(KeepWordAndSpace(StripCode(StripNumber(RemoveParens(Lower(name))))))
  }

  /** `getStem(name)` */
  function GetStem(name: string): string {
    Join(FoldAll(SplitSpaces(StemText(name))), " ")
  }

  // ---------------------------------------------------------------------------
  // normalizeFuzzy (lines 114-116)
  // ---------------------------------------------------------------------------

  /** `a <= b` on strings: lexicographic on characters, a proper prefix coming first. */
  predicate StrLeq(a: string, b: string)
    decreases |a|
  {
    a == [] || (b != [] && (a[0] < b[0] || (a[0] == b[0] && StrLeq(a[1..], b[1..]))))
  }

  /** Insert `w` after every word not above it. */
  function InsertWord(sorted: seq<string>, w: string): (r: seq<string>)
    ensures multiset(r) == multiset(sorted) + multiset{w}
  {
    if sorted == [] then [w]
    else if StrLeq(sorted[|sorted| - 1], w) then sorted + [w]
    else
      var front := sorted[..|sorted| - 1];
      assert sorted == front + [sorted[|sorted| - 1]];
      InsertWord(front, w) + [sorted[|sorted| - 1]]
  }

  /** `.sort()` with the default order, as an insertion sort. */
  function SortWords(ws: seq<string>): (r: seq<string>)
    ensures multiset(r) == multiset(ws)
  {
    if ws == [] then []
    else
      assert ws == ws[..|ws| - 1] + [ws[|ws| - 1]];
      InsertWord(SortWords(ws[..|ws| - 1]), ws[|ws| - 1])
  }

  /** The words `normalizeFuzzy` sorts. */
  function FuzzyWords(name: string): seq<string> {
    SplitSpaces(KeepWordAndSpace(Lower(name)))
  }

  /** `normalizeFuzzy(name)` */
  function NormalizeFuzzy(name: string): string {
    Join(SortWords(FuzzyWords(name)), " ")
  }

  // ---------------------------------------------------------------------------
  // getTokens (line 141) and the token sets of lines 146-179
  // ---------------------------------------------------------------------------

  function NonEmpty(ws: seq<string>): (r: seq<string>)
    ensures forall i :: 0 <= i < |r| ==> r[i] != ""
    ensures forall w :: w in r <==> w in ws && w != ""
  {
    if ws == [] then []
    else NonEmpty(ws[..|ws| - 1]) + (if ws[|ws| - 1] != "" then [ws[|ws| - 1]] else [])
  }

  /** `getTokens(name)` */
  function GetTokens(name: string): seq<string> {
    NonEmpty(SplitSpaces(PunctuationToSpace(Lower(name))))
  }

  /** `new Set(getTokens(name))` */
  function TokenSet(name: string): set<string> {
    set t | t in GetTokens(name)
  }

  // ---------------------------------------------------------------------------
  // The tests on names
  // ---------------------------------------------------------------------------

  /** `/(\d+|[a-z]\d+)$/i.test(name.trim())`: both alternatives end in a digit at the end of
      the trimmed name, and a final digit already matches `\d+$`, so the test is whether the
      trimmed name ends in a digit. */
  predicate IsSpecific(name: string) {
    var t := Trim(name);
    |t| > 0 && IsDigit(t[|t| - 1])
  }

  /** `/total|overall|sum/i.test(name)` */
  predicate IsSummaryName(name: string) {
    Contains(Lower(name), "total") || Contains(Lower(name), "overall") || Contains(Lower(name), "sum")
  }

  /** `name.replace(/total|overall|sum/gi, '')`: the three words start with different
      letters, so at each position at most one alternative matches. */
  function RemoveSummaryWords(s: string): (r: string)
    ensures |r| <= |s|
    decreases |s|
  {
    if s == [] then []
    else if StartsWith(Lower(s), "total") then RemoveSummaryWords(s[5..])
    else if StartsWith(Lower(s), "overall") then RemoveSummaryWords(s[7..])
    else if StartsWith(Lower(s), "sum") then RemoveSummaryWords(s[3..])
    else [s[0]] + RemoveSummaryWords(s[1..])
  }

  /** `name.match(/\d+/g) || []`: the maximal runs of digits, in order. */
  function DigitRuns(s: string): (r: seq<string>)
    ensures forall i :: 0 <= i < |r| ==> r[i] != [] && AllDigits(r[i])
    decreases |s|
  {
    if s == [] then []
    else if IsDigit(s[0]) then
      var k := Span(s, IsDigit);
      [s[..k]] + DigitRuns(s[k..])
    else DigitRuns(s[1..])
  }

  /** `name.match(/^(.*?)(\d+)$/)`: the lazy group stops where the maximal trailing run of
      digits starts, and cannot cross a line terminator. */
  function SplitNumber(s: string): (m: Option<(string, string)>)
    ensures m.Some? ==> m.value.0 + m.value.1 == s && m.value.1 != [] && AllDigits(m.value.1)
  {
    var d := TrailingRun(s, IsDigit);
    var prefix := s[..|s| - d];
    if d == 0 || HasLineTerminator(prefix) then None
    else
      assert prefix + s[|s| - d..] == s;
      Some((prefix, s[|s| - d..]))
  }

  /** `name.match(/^(.*)\s+2$/)`, as its group: the greedy `.*` leaves one whitespace
      character before the final `2`, or stops at the first line terminator when that one
      lies in the whitespace run. */
  function OrphanBase(s: string): (m: Option<string>)
    ensures m.Some? ==> |m.value| < |s|
  {
    if s == [] || s[|s| - 1] != '2' then None
    else
      var t := s[..|s| - 1];
      var w := TrailingRun(t, IsSpace);
      var k := if HasLineTerminator(t) then Span(t, NotLineTerminator) else |t|;
      var stop := if k < |t| - 1 then k else |t| - 1;
      if w > 0 && stop >= |t| - w then Some(t[..stop]) else None
  }
}
