/** Properties of the cleaner's string functions (scripts/clean-assessments.ts:22-38, 114-116,
    141 and the name tests of lines 92-103, 189-191, 236 and 336). */
module CleanTextProps {
  import opened Common
  import opened OutlineParser
  import opened CleanText

  // ---------------------------------------------------------------------------
  // Small facts about the building blocks
  // ---------------------------------------------------------------------------

  lemma {:induction false} RemoveParensNoOpen(s: string)
    requires forall i :: 0 <= i < |s| ==> s[i] != '('
    ensures RemoveParens(s) == s
    decreases |s|
  {
    if s != [] {
      RemoveParensNoOpen(s[1..]);
    }
  }

  lemma {:induction false} KeepWordAndSpaceKeeps(s: string)
    requires forall i :: 0 <= i < |s| ==> IsWordChar(s[i]) || IsSpace(s[i])
    ensures KeepWordAndSpace(s) == s
  {
    if s != [] {
      KeepWordAndSpaceKeeps(s[..|s| - 1]);
    }
  }

  /** A word without whitespace splits into itself. */
  lemma SplitWord(s: string)
    requires forall i :: 0 <= i < |s| ==> !IsSpace(s[i])
    ensures SplitSpaces(s) == [s]
  {
    SpanOf(s, [], NotSpace);
    assert s + [] == s;
  }

  lemma TrimWord(s: string)
    requires forall i :: 0 <= i < |s| ==> !IsSpace(s[i])
    ensures Trim(s) == s
  {
    TrimOfTrimmed(s);
  }

  lemma TrailingRunOf(a: string, b: string, p: char -> bool)
    requires forall i :: 0 <= i < |b| ==> p(b[i])
    requires a == [] || !p(a[|a| - 1])
    ensures TrailingRun(a + b, p) == |b|
    decreases |b|
  {
    if b == [] {
      assert a + b == a;
    } else {
      assert (a + b)[..|a + b| - 1] == a + b[..|b| - 1];
      TrailingRunOf(a, b[..|b| - 1], p);
    }
  }

  // ---------------------------------------------------------------------------
  // The regular expressions of getStem
  // ---------------------------------------------------------------------------

  /** `/\s+\d+$/` removes a final whitespace run and number, and nothing of what is before. */
  lemma StripNumberSpec(p: string, w: string, d: string)
    requires p == [] || !IsSpace(p[|p| - 1])
    requires w != [] && forall i :: 0 <= i < |w| ==> IsSpace(w[i])
    requires d != [] && AllDigits(d)
    ensures StripNumber(p + w + d) == p
  {
    var s := p + w + d;
    DigitIsNotSpace(w[|w| - 1]);
    TrailingRunOf(p + w, d, IsDigit);
    assert s[..|s| - |d|] == p + w;
    TrailingRunOf(p, w, IsSpace);
    assert (p + w)[..|p + w| - |w|] == p;
  }

  /** Without a whitespace run before the final number, `/\s+\d+$/` leaves the text alone. */
  lemma StripNumberNoSpace(p: string, d: string)
    requires p == [] || (!IsSpace(p[|p| - 1]) && !IsDigit(p[|p| - 1]))
    requires AllDigits(d)
    ensures StripNumber(p + d) == p + d
  {
    TrailingRunOf(p, d, IsDigit);
    assert (p + d)[..|p + d| - |d|] == p;
  }

  /** `/\s+[a-z]\d+$/i` removes a final whitespace run and letter-and-number code. */
  lemma StripCodeSpec(p: string, w: string, c: char, d: string)
    requires p == [] || !IsSpace(p[|p| - 1])
    requires w != [] && forall i :: 0 <= i < |w| ==> IsSpace(w[i])
    requires IsAsciiLetter(c)
    requires d != [] && AllDigits(d)
    ensures StripCode(p + w + [c] + d) == p
  {
    var s := p + w + [c] + d;
    DigitIsNotSpace(c);
    TrailingRunOf(p + w + [c], d, IsDigit);
    assert s[..|s| - |d|] == p + w + [c];
    assert (p + w + [c])[..|p + w + [c]| - 1] == p + w;
    TrailingRunOf(p, w, IsSpace);
    assert (p + w)[..|p + w| - |w|] == p;
  }

  /** From a `(` at the start, the greedy `.*` reaches the last `)` of the line. */
  lemma ParenAtStart(m: string, b: string)
    requires forall i :: 0 <= i < |m| ==> !IsLineTerminator(m[i])
    requires forall i :: 0 <= i < |b| ==> b[i] != ')'
    ensures var rest := m + ")" + b;
      LastIndex(rest[..Span(rest, NotLineTerminator)], ')') == Some(|m|)
  {
    var rest := m + ")" + b;
    var n := Span(rest, NotLineTerminator);
    assert forall i :: 0 <= i <= |m| ==> NotLineTerminator(rest[i]) by {
      assert forall i :: 0 <= i < |m| ==> rest[i] == m[i];
    }
    var line := rest[..n];
    assert line[|m|] == ')';
    assert forall i :: |m| < i < |line| ==> line[i] == b[i - |m| - 1];
  }

  /** From a `(` whose line has a last `)` at `j`, the search goes on after that `)`. */
  lemma RemoveParensOpenStep(rest: string, j: nat)
    requires LastIndex(rest[..Span(rest, NotLineTerminator)], ')') == Some(j)
    ensures j < |rest| && RemoveParens("(" + rest) == RemoveParens(rest[j + 1..])
  {
    var s := "(" + rest;
    assert s[0] == '(' && s[1..] == rest;
  }

  /** A character other than `(` is kept, and the search goes on after it. */
  lemma RemoveParensPlain(c: char, t: string)
    requires c != '('
    ensures RemoveParens([c] + t) == [c] + RemoveParens(t)
  {
    assert ([c] + t)[0] == c && ([c] + t)[1..] == t;
  }

  /** A parenthesised span at the start goes, and the text after it is kept. */
  lemma RemoveParensAtStart(m: string, b: string)
    requires forall i :: 0 <= i < |m| ==> !IsLineTerminator(m[i])
    requires forall i :: 0 <= i < |b| ==> b[i] != ')' && b[i] != '('
    ensures RemoveParens("(" + m + ")" + b) == b
  {
    var rest := m + ")" + b;
    assert RemoveParens("(" + rest) == b by {
      ParenAtStart(m, b);
      RemoveParensOpenStep(rest, |m|);
      assert rest[|m| + 1..] == b;
      RemoveParensNoOpen(b);
    }
    assert "(" + m + ")" + b == "(" + rest;
  }

  /** `/\(.*\)/g` removes everything from a `(` to the last `)` of the line. */
  lemma {:induction false} RemoveParensSpan(a: string, m: string, b: string)
    requires forall i :: 0 <= i < |a| ==> a[i] != '('
    requires forall i :: 0 <= i < |m| ==> !IsLineTerminator(m[i])
    requires forall i :: 0 <= i < |b| ==> b[i] != ')' && b[i] != '('
    ensures RemoveParens(a + "(" + m + ")" + b) == a + b
    decreases |a|
  {
    if a == [] {
      assert a + "(" + m + ")" + b == "(" + m + ")" + b;
      RemoveParensAtStart(m, b);
    } else {
      var t := a[1..] + "(" + m + ")" + b;
      assert RemoveParens([a[0]] + t) == [a[0]] + (a[1..] + b) by {
        RemoveParensPlain(a[0], t);
        RemoveParensSpan(a[1..], m, b);
      }
      assert a + "(" + m + ")" + b == [a[0]] + t;
      assert [a[0]] + (a[1..] + b) == a + b;
    }
  }

  predicate LowerWord(w: string) {
    w != [] && forall i :: 0 <= i < |w| ==> IsAsciiLower(w[i])
  }

  /** The steps after the number removal leave a lower-case word alone. */
  lemma WordSurvivesCleanup(w: string)
    requires LowerWord(w)
    ensures StripCode(w) == w
    ensures Trim(KeepWordAndSpace(w)) == w
    ensures SplitSpaces(w) == [w]
  {
    assert forall i :: 0 <= i < |w| ==> IsWordChar(w[i]) && !IsSpace(w[i]) && !IsDigit(w[i]);
    TrailingRunOf(w, [], IsDigit);
    assert w + [] == w;
    KeepWordAndSpaceKeeps(w);
    TrimWord(w);
    SplitWord(w);
  }

  lemma NoOpenInWord(w: string)
    requires LowerWord(w)
    ensures RemoveParens(w) == w
    ensures StripNumber(w) == w
  {
    RemoveParensNoOpen(w);
    TrailingRunOf(w, [], IsDigit);
    assert w + [] == w;
  }

  /** A lower-case word is its own stem text. */
  lemma StemTextOfWord(name: string, w: string)
    requires Lower(name) == w && LowerWord(w)
    ensures StemText(name) == w && GetStem(name) == FoldPlural(w)
  {
    NoOpenInWord(w);
    WordSurvivesCleanup(w);
  }

  lemma NoOpenInNumbered(w: string, d: string)
    requires LowerWord(w) && d != [] && AllDigits(d)
    ensures RemoveParens(w + " " + d) == w + " " + d
    ensures StripNumber(w + " " + d) == w
  {
    var l := w + " " + d;
    assert forall i :: 0 <= i < |l| ==> l[i] != '(' by {
      assert forall i :: 0 <= i < |w| ==> l[i] == w[i];
      assert forall i :: |w| < i < |l| ==> l[i] == d[i - |w| - 1];
    }
    RemoveParensNoOpen(l);
    StripNumberSpec(w, " ", d);
  }

  /** A lower-case word, a space and a number: the number goes. */
  lemma StemTextOfNumbered(name: string, w: string, d: string)
    requires Lower(name) == w + " " + d && LowerWord(w) && d != [] && AllDigits(d)
    ensures StemText(name) == w && GetStem(name) == FoldPlural(w)
  {
    NoOpenInNumbered(w, d);
    WordSurvivesCleanup(w);
  }

  /** "Quiz 3" stems to "quiz": the number goes. */
  lemma StemOfNumberedQuiz(name: string)
    requires name == "Quiz 3"
    ensures GetStem(name) == "quiz"
  {
    assert Lower(name) == "quiz" + " " + "3";
    assert LowerWord("quiz") && AllDigits("3") && FoldPlural("quiz") == "quiz";
    StemTextOfNumbered(name, "quiz", "3");
  }

  /** "Quizzes" stems to "quiz": the plural is folded. */
  lemma StemOfQuizzes(name: string)
    requires name == "Quizzes"
    ensures GetStem(name) == "quiz"
  {
    assert Lower(name) == "quizzes";
    assert LowerWord("quizzes");
    StemTextOfWord(name, "quizzes");
  }

  /** The plural folding: "quizzes" to "quiz", "-ies" to "-y", "-sses" to "-ss", and one
      final "s" dropped from a word of more than three letters not ending in "ss". */
  lemma FoldPluralSpec(word: string)
    ensures word == "quizzes" ==> FoldPlural(word) == "quiz"
    ensures word != "quizzes" && EndsWith(word, "ies") && |word| > 3 ==>
      FoldPlural(word) == word[..|word| - 3] + "y"
    ensures !EndsWith(word, "s") ==> FoldPlural(word) == word
    ensures |word| <= 3 && word != "ss" ==> EndsWith(word, "s") ==> FoldPlural(word) == word
    ensures EndsWith(word, "sses") ==> FoldPlural(word) == word[..|word| - 2]
  {
    if EndsWith(word, "sses") {
      assert word[|word| - 3..] == "ses";
      assert !EndsWith("quizzes", "sses");
    }
    if !EndsWith(word, "s") && |word| >= 3 {
      assert word[|word| - 3..][2] == word[|word| - 1];
    }
    if !EndsWith(word, "s") && |word| >= 4 {
      assert word[|word| - 4..][3] == word[|word| - 1];
    }
  }

  // ---------------------------------------------------------------------------
  // normalizeFuzzy ignores the order of the words
  // ---------------------------------------------------------------------------

  predicate SortedWords(s: seq<string>) {
    forall i, j :: 0 <= i < j < |s| ==> StrLeq(s[i], s[j])
  }

  lemma {:induction false} StrLeqReflexive(a: string)
    ensures StrLeq(a, a)
    decreases |a|
  {
    if a != [] {
      StrLeqReflexive(a[1..]);
    }
  }

  lemma {:induction false} StrLeqTotal(a: string, b: string)
    ensures StrLeq(a, b) || StrLeq(b, a)
    decreases |a|
  {
    if a != [] && b != [] && a[0] == b[0] {
      StrLeqTotal(a[1..], b[1..]);
    }
  }

  lemma {:induction false} StrLeqAntisymmetric(a: string, b: string)
    requires StrLeq(a, b) && StrLeq(b, a)
    ensures a == b
    decreases |a|
  {
    if a != [] {
      StrLeqAntisymmetric(a[1..], b[1..]);
      assert a == [a[0]] + a[1..] && b == [b[0]] + b[1..];
    }
  }

  lemma {:induction false} StrLeqTransitive(a: string, b: string, c: string)
    requires StrLeq(a, b) && StrLeq(b, c)
    ensures StrLeq(a, c)
    decreases |a|
  {
    if a != [] && a[0] == b[0] && b[0] == c[0] {
      StrLeqTransitive(a[1..], b[1..], c[1..]);
    }
  }

  lemma {:induction false} InsertWordSorted(s: seq<string>, w: string)
    requires SortedWords(s)
    ensures SortedWords(InsertWord(s, w))
  {
    if s != [] {
      var last := s[|s| - 1];
      var front := s[..|s| - 1];
      if StrLeq(last, w) {
        forall i | 0 <= i < |s|
          ensures StrLeq(s[i], w)
        {
          if i < |s| - 1 {
            StrLeqTransitive(s[i], last, w);
          }
        }
      } else {
        InsertWordSorted(front, w);
        var r := InsertWord(front, w);
        StrLeqTotal(last, w);
        forall x | x in r
          ensures StrLeq(x, last)
        {
          assert x in multiset(r);
          assert x in multiset(front) || x == w;
        }
        assert InsertWord(s, w) == r + [last];
      }
    }
  }

  lemma {:induction false} SortWordsSorted(ws: seq<string>)
    ensures SortedWords(SortWords(ws))
  {
    if ws != [] {
      SortWordsSorted(ws[..|ws| - 1]);
      InsertWordSorted(SortWords(ws[..|ws| - 1]), ws[|ws| - 1]);
    }
  }

  /** Two sorted lists with the same words start with the same word. */
  lemma SortedHeads(x: seq<string>, y: seq<string>)
    requires SortedWords(x) && SortedWords(y) && multiset(x) == multiset(y) && x != []
    ensures y != [] && x[0] == y[0]
  {
    assert |y| == |multiset(y)| == |multiset(x)| == |x|;
    assert x[0] in multiset(x) && y[0] in multiset(y);
    var j :| 0 <= j < |y| && y[j] == x[0];
    var i :| 0 <= i < |x| && x[i] == y[0];
    StrLeqReflexive(x[0]);
    StrLeqReflexive(y[0]);
    assert StrLeq(y[0], x[0]) by {
      if j > 0 {
        assert StrLeq(y[0], y[j]);
      }
    }
    assert StrLeq(x[0], y[0]) by {
      if i > 0 {
        assert StrLeq(x[0], x[i]);
      }
    }
    StrLeqAntisymmetric(x[0], y[0]);
  }

  /** Removing the first word leaves the rest of the words. */
  lemma MultisetTail(x: seq<string>)
    requires x != []
    ensures multiset(x[1..]) == multiset(x) - multiset{x[0]}
  {
    assert x == [x[0]] + x[1..];
  }

  /** Two sorted lists with the same words are the same list. */
  lemma {:induction false} SortedUnique(x: seq<string>, y: seq<string>)
    requires SortedWords(x) && SortedWords(y) && multiset(x) == multiset(y)
    ensures x == y
  {
    if x != [] {
      SortedHeads(x, y);
      MultisetTail(x);
      MultisetTail(y);
      SortedUnique(x[1..], y[1..]);
      assert x == [x[0]] + x[1..] && y == [y[0]] + y[1..];
    } else {
      assert |y| == |multiset(y)| == |multiset(x)| == 0;
    }
  }

  /** The sorted words are the words, in order. */
  lemma SortWordsSpec(ws: seq<string>)
    ensures SortedWords(SortWords(ws)) && multiset(SortWords(ws)) == multiset(ws)
  {
    SortWordsSorted(ws);
  }

  /** Names made of the same words, in any order, get the same fuzzy key. */
  lemma FuzzyIgnoresWordOrder(x: string, y: string)
    requires multiset(FuzzyWords(x)) == multiset(FuzzyWords(y))
    ensures NormalizeFuzzy(x) == NormalizeFuzzy(y)
  {
    SortWordsSorted(FuzzyWords(x));
    SortWordsSorted(FuzzyWords(y));
    SortedUnique(SortWords(FuzzyWords(x)), SortWords(FuzzyWords(y)));
  }

  // ---------------------------------------------------------------------------
  // Tokens
  // ---------------------------------------------------------------------------

  /** A split keeps the characters: when every character that is not whitespace satisfies
      `p`, so does every character of every piece. */
  lemma {:induction false} SplitKeepsChars(s: string, p: char -> bool)
    requires forall i :: 0 <= i < |s| ==> IsSpace(s[i]) || p(s[i])
    ensures forall w :: w in SplitSpaces(s) ==> forall k :: 0 <= k < |w| ==> p(w[k])
    decreases |s|
  {
    var k := Span(s, NotSpace);
    if k < |s| {
      var w := k + Span(s[k..], IsSpace);
      assert forall i :: 0 <= i < |s[w..]| ==> s[w..][i] == s[w + i];
      SplitKeepsChars(s[w..], p);
      assert forall i :: 0 <= i < k ==> s[..k][i] == s[i];
    }
  }

  predicate LowerWordChar(c: char) { IsWordChar(c) && !IsAsciiUpper(c) }

  /** Every token is a non-empty run of lower-case word characters. */
  lemma TokensAreWords(name: string)
    ensures forall t :: t in GetTokens(name) ==>
      t != "" && forall k :: 0 <= k < |t| ==> IsWordChar(t[k]) && !IsAsciiUpper(t[k])
  {
    var p := PunctuationToSpace(Lower(name));
    assert forall i :: 0 <= i < |p| ==> IsSpace(p[i]) || LowerWordChar(p[i]);
    SplitKeepsChars(p, LowerWordChar);
  }

  // ---------------------------------------------------------------------------
  // The other name patterns
  // ---------------------------------------------------------------------------

  /** `^(.*?)(\d+)$` splits a name into the text before its final number and that number. */
  lemma SplitNumberSpec(p: string, d: string)
    requires p == [] || !IsDigit(p[|p| - 1])
    requires !HasLineTerminator(p)
    requires d != [] && AllDigits(d)
    ensures SplitNumber(p + d) == Some((p, d))
  {
    TrailingRunOf(p, d, IsDigit);
    assert (p + d)[..|p + d| - |d|] == p;
    assert (p + d)[|p + d| - |d|..] == d;
  }

  /** A name that does not end in a digit has no final number. */
  lemma SplitNumberNone(s: string)
    requires s == [] || !IsDigit(s[|s| - 1])
    ensures SplitNumber(s) == None
  {
  }

  /** `^(.*)\s+2$` on "<base> 2" gives back the base. */
  lemma OrphanBaseSpec(b: string)
    requires !HasLineTerminator(b)
    ensures OrphanBase(b + " 2") == Some(b)
  {
    var s := b + " 2";
    var t := s[..|s| - 1];
    assert t == b + " ";
    assert !HasLineTerminator(t) by {
      forall i | 0 <= i < |t|
        ensures !IsLineTerminator(t[i])
      {
        if i < |b| {
          assert t[i] == b[i];
        }
      }
    }
    assert TrailingRun(t, IsSpace) > 0;
    assert t[..|t| - 1] == b;
  }

  /** A name not ending in whitespace and "2" has no orphan base. */
  lemma OrphanBaseNone(s: string)
    requires |s| < 2 || s[|s| - 1] != '2' || !IsSpace(s[|s| - 2])
    ensures OrphanBase(s) == None
  {
    if |s| >= 2 && s[|s| - 1] == '2' {
      var t := s[..|s| - 1];
      assert t[|t| - 1] == s[|s| - 2];
    }
  }

  /** Dropping the first character of a name keeps it free of the summary words. */
  lemma SummaryNameTail(s: string)
    requires s != []
    ensures Lower(s[1..]) == Lower(s)[1..]
    ensures !StartsWith(Lower(s), "total") && Contains(Lower(s), "total") ==> Contains(Lower(s[1..]), "total")
    ensures !StartsWith(Lower(s), "overall") && Contains(Lower(s), "overall") ==> Contains(Lower(s[1..]), "overall")
    ensures !StartsWith(Lower(s), "sum") && Contains(Lower(s), "sum") ==> Contains(Lower(s[1..]), "sum")
  {
    assert Lower(s[1..]) == Lower(s)[1..];
  }

  /** `replace(/total|overall|sum/gi, '')` leaves a name without the summary words alone. */
  lemma {:induction false} RemoveSummaryWordsNone(s: string)
    requires !IsSummaryName(s)
    ensures RemoveSummaryWords(s) == s
    decreases |s|
  {
    if s != [] {
      SummaryNameTail(s);
      assert !IsSummaryName(s[1..]);
      RemoveSummaryWordsNone(s[1..]);
      assert [s[0]] + s[1..] == s;
    }
  }

  /** A name holding a summary word, in any case, always loses characters. */
  lemma {:induction false} RemoveSummaryWordsShortens(s: string)
    requires IsSummaryName(s)
    ensures |RemoveSummaryWords(s)| < |s|
    decreases |s|
  {
    var l := Lower(s);
    if StartsWith(l, "total") || StartsWith(l, "overall") || StartsWith(l, "sum") {
    } else {
      assert s != [];
      SummaryNameTail(s);
      RemoveSummaryWordsShortens(s[1..]);
    }
  }

  /** The replacement changes a name exactly when the summary test holds. */
  lemma RemoveSummaryWordsChanges(s: string)
    ensures RemoveSummaryWords(s) == s <==> !IsSummaryName(s)
  {
    if IsSummaryName(s) {
      RemoveSummaryWordsShortens(s);
    } else {
      RemoveSummaryWordsNone(s);
    }
  }

  /** A string starting with a non-empty prefix starts with its first character. */
  lemma StartsWithHead(l: string, p: string)
    requires p != [] && StartsWith(l, p)
    ensures l[0] == p[0]
  {
    assert l[..|p|][0] == l[0];
  }

  /** A first character that starts none of the summary words is kept. */
  lemma SummaryKeepsFirst(s: string)
    requires s != [] && LowerChar(s[0]) != 't' && LowerChar(s[0]) != 'o' && LowerChar(s[0]) != 's'
    ensures RemoveSummaryWords(s) == [s[0]] + RemoveSummaryWords(s[1..])
  {
    var l := Lower(s);
    assert l[0] == LowerChar(s[0]);
    if StartsWith(l, "total") { StartsWithHead(l, "total"); }
    if StartsWith(l, "overall") { StartsWithHead(l, "overall"); }
    if StartsWith(l, "sum") { StartsWithHead(l, "sum"); }
  }


  /** A name starting with "total", in any case, loses those five characters. */
  lemma SummaryDropsTotal(s: string)
    requires StartsWith(Lower(s), "total")
    ensures RemoveSummaryWords(s) == RemoveSummaryWords(s[5..])
  {
  }

  /** "Quiz Total" loses its summary word and keeps the space before it. */
  lemma RemoveSummaryWordsExample()
    ensures RemoveSummaryWords("Quiz Total") == "Quiz "
  {
    var s := "Quiz Total";
    var t := s[5..];
    assert t == "Total";
    assert Lower(t) == "total";
    SummaryDropsTotal(t);
    assert t[5..] == [];
    var r4 := RemoveSummaryWords(s[4..]);
    SummaryKeepsFirst(s[4..]);
    assert s[4..][1..] == t;
    assert r4 == " ";
    SummaryKeepsFirst(s[3..]);
    assert s[3..][1..] == s[4..];
    SummaryKeepsFirst(s[2..]);
    assert s[2..][1..] == s[3..];
    SummaryKeepsFirst(s[1..]);
    assert s[1..][1..] == s[2..];
    SummaryKeepsFirst(s);
  }

  /** The first number of the joined list runs up to the first comma. */
  lemma JoinHead(x: seq<string>)
    requires x != [] && forall i :: 0 <= i < |x| ==> x[i] != [] && AllDigits(x[i])
    ensures var j := Join(x, ",");
      Span(j, IsDigit) == |x[0]| && j[..|x[0]|] == x[0] && |j| >= |x[0]| > 0 &&
      (|x| > 1 <==> |j| > |x[0]|) &&
      (|x| > 1 ==> j[|x[0]| + 1..] == Join(x[1..], ","))
  {
    var j := Join(x, ",");
    if |x| > 1 {
      var tail := "," + Join(x[1..], ",");
      assert j == x[0] + tail;
      SpanOf(x[0], tail, IsDigit);
      assert j[|x[0]| + 1..] == Join(x[1..], ",");
    } else {
      assert j == x[0] + [];
      SpanOf(x[0], [], IsDigit);
    }
  }

  /** `numsA.join(',') === numsB.join(',')` compares the lists of numbers themselves: the
      runs are non-empty and hold no comma. */
  lemma {:induction false} JoinDigitRunsInjective(x: seq<string>, y: seq<string>)
    requires forall i :: 0 <= i < |x| ==> x[i] != [] && AllDigits(x[i])
    requires forall i :: 0 <= i < |y| ==> y[i] != [] && AllDigits(y[i])
    requires Join(x, ",") == Join(y, ",")
    ensures x == y
  {
    if x != [] {
      JoinHead(x);
      if y != [] {
        JoinHead(y);
        if |x| > 1 {
          JoinDigitRunsInjective(x[1..], y[1..]);
          assert x == [x[0]] + x[1..] && y == [y[0]] + y[1..];
        }
      }
    } else if y != [] {
      JoinHead(y);
    }
  }
}
