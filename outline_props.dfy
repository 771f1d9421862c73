/** Properties of the outline parser: the normalised course code, the term decoders and
    their round trip, and what the reply parser makes of each line. */
module OutlineProps {
  import opened Common
  import opened OutlineParser

  // ---------------------------------------------------------------------------
  // Collapsing whitespace
  // ---------------------------------------------------------------------------

  predicate NoSpace(s: string) {
    forall i :: 0 <= i < |s| ==> !IsSpace(s[i])
  }

  predicate AllSpace(s: string) {
    forall i :: 0 <= i < |s| ==> IsSpace(s[i])
  }

  /** Neither end of `s` is whitespace. */
  predicate Trimmed(s: string) {
    s == [] || (!IsSpace(s[0]) && !IsSpace(s[|s| - 1]))
  }

  predicate UpperFixed(s: string) {
    forall i :: 0 <= i < |s| ==> UpperChar(s[i]) == s[i]
  }

  lemma {:induction false} CollapseStartsAndEnds(s: string)
    requires s != [] && !IsSpace(s[|s| - 1])
    ensures CollapseSpaces(s) != [] && CollapseSpaces(s)[|CollapseSpaces(s)| - 1] == s[|s| - 1]
    decreases |s|
  {
    if IsSpace(s[0]) {
      var t := TrimStart(s[1..]);
      TrimStartSpec(s[1..]);
      assert t != [] && t[|t| - 1] == s[|s| - 1];
      CollapseStartsAndEnds(t);
    } else if |s| > 1 {
      CollapseStartsAndEnds(s[1..]);
    }
  }

  lemma {:induction false} CollapseIsCollapsed(s: string)
    ensures Collapsed(CollapseSpaces(s))
    ensures s != [] && !IsSpace(s[0]) ==> CollapseSpaces(s)[0] == s[0]
    ensures s != [] ==> CollapseSpaces(s) != []
    decreases |s|
  {
    if s != [] {
      if IsSpace(s[0]) {
        var t := TrimStart(s[1..]);
        TrimStartSpec(s[1..]);
        CollapseIsCollapsed(t);
        var r := CollapseSpaces(t);
        assert t == [] || !IsSpace(t[0]);
        assert r == [] || !IsSpace(r[0]);
        assert CollapseSpaces(s) == [' '] + r;
        forall i | 0 <= i < |[' '] + r| && IsSpace(([' '] + r)[i])
          ensures ([' '] + r)[i] == ' ' && (i + 1 < |[' '] + r| ==> !IsSpace(([' '] + r)[i + 1]))
        {
          if i > 0 {
            assert ([' '] + r)[i] == r[i - 1];
          }
        }
      } else {
        CollapseIsCollapsed(s[1..]);
        var r := CollapseSpaces(s[1..]);
        assert CollapseSpaces(s) == [s[0]] + r;
        forall i | 0 <= i < |[s[0]] + r| && IsSpace(([s[0]] + r)[i])
          ensures ([s[0]] + r)[i] == ' ' && (i + 1 < |[s[0]] + r| ==> !IsSpace(([s[0]] + r)[i + 1]))
        {
          assert i > 0;
          assert ([s[0]] + r)[i] == r[i - 1];
        }
      }
    }
  }

  /** A string whose whitespace is already single plain spaces is left as it is. */
  lemma {:induction false} CollapseOfCollapsed(s: string)
    requires Collapsed(s)
    ensures CollapseSpaces(s) == s
    decreases |s|
  {
    if s != [] {
      assert Collapsed(s[1..]) by {
        forall i | 0 <= i < |s[1..]| && IsSpace(s[1..][i])
          ensures s[1..][i] == ' ' && (i + 1 < |s[1..]| ==> !IsSpace(s[1..][i + 1]))
        {
          assert s[1..][i] == s[i + 1];
        }
      }
      if IsSpace(s[0]) {
        assert s[1..] == [] || !IsSpace(s[1..][0]);
        assert TrimStart(s[1..]) == s[1..];
      }
      CollapseOfCollapsed(s[1..]);
    }
  }

  lemma {:induction false} CollapseUpperFixed(s: string)
    requires UpperFixed(s)
    ensures UpperFixed(CollapseSpaces(s))
    decreases |s|
  {
    if s != [] {
      if IsSpace(s[0]) {
        var t := TrimStart(s[1..]);
        TrimStartSpec(s[1..]);
        assert UpperFixed(t) by {
          forall i | 0 <= i < |t| ensures UpperChar(t[i]) == t[i] {
            assert t[i] == s[|s| - |t| + i];
          }
        }
        CollapseUpperFixed(t);
        assert CollapseSpaces(s) == [' '] + CollapseSpaces(t);
      } else {
        assert UpperFixed(s[1..]) by {
          forall i | 0 <= i < |s[1..]| ensures UpperChar(s[1..][i]) == s[1..][i] {
            assert s[1..][i] == s[i + 1];
          }
        }
        CollapseUpperFixed(s[1..]);
        assert CollapseSpaces(s) == [s[0]] + CollapseSpaces(s[1..]);
      }
    }
  }

  lemma UpperIsFixed(s: string)
    ensures UpperFixed(Upper(s))
  {
  }

  lemma UpperKeepsTrimmed(s: string)
    requires Trimmed(s)
    ensures Trimmed(Upper(s))
  {
  }

  /** The cleaned code is its own cleaning: trimmed, upper-case and collapsed. */
  lemma CleanCodeShape(code: string)
    ensures Trimmed(CleanCode(code)) && UpperFixed(CleanCode(code)) && Collapsed(CleanCode(code))
  {
    var u := Upper(Trim(code));
    TrimSpec(code);
    UpperKeepsTrimmed(Trim(code));
    UpperIsFixed(Trim(code));
    CollapseIsCollapsed(u);
    CollapseUpperFixed(u);
    if u != [] {
      CollapseStartsAndEnds(u);
    }
  }

  lemma CleanOfShaped(s: string)
    requires Trimmed(s) && UpperFixed(s) && Collapsed(s)
    ensures CleanCode(s) == s
  {
    TrimOfTrimmed(s);
    assert Upper(s) == s;
    CollapseOfCollapsed(s);
  }

  // ---------------------------------------------------------------------------
  // The subject-number pattern
  // ---------------------------------------------------------------------------

  predicate AllUpper(s: string) {
    forall i :: 0 <= i < |s| ==> IsAsciiUpper(s[i])
  }

  /** What `(\d+[A-Z]?)` accepts when it must reach the end of the string. */
  predicate CodeNumber(n: string) {
    var d := Span(n, IsDigit);
    d > 0 && (d == |n| || (d + 1 == |n| && IsAsciiUpper(n[d])))
  }

  lemma MatchCodeFound(s: string)
    requires MatchCode(s).Some?
    ensures AllUpper(MatchCode(s).value.0) && CodeNumber(MatchCode(s).value.1)
    ensures exists sp: string :: AllSpace(sp) && s == MatchCode(s).value.0 + sp + MatchCode(s).value.1
  {
    var n := Span(s, IsAsciiUpper);
    var sp := n + Span(s[n..], IsSpace);
    var num := s[sp..];
    var k := Span(num, IsDigit);
    assert Span(s[sp..], IsDigit) == k;
    assert s == s[..n] + s[n..sp] + num;
    assert AllSpace(s[n..sp]) by {
      forall i | 0 <= i < sp - n ensures IsSpace(s[n..sp][i]) {
        assert s[n..sp][i] == s[n..][i];
      }
    }
  }

  lemma {:induction false} MatchCodeOf(l: string, sp: string, n: string)
    requires |l| > 0 && AllUpper(l) && AllSpace(sp) && CodeNumber(n)
    ensures MatchCode(l + sp + n) == Some((l, n))
  {
    var s := l + sp + n;
    var d := Span(n, IsDigit);
    DigitIsNotSpace(n[0]);
    assert s == l + (sp + n);
    if sp != [] {
      assert !IsAsciiUpper(sp[0]);
      SpanOf(l, (sp + n), IsAsciiUpper);
    } else {
      assert sp + n == n;
      SpanOf(l, n, IsAsciiUpper);
    }
    assert s[|l|..] == sp + n;
    SpanOf(sp, n, IsSpace);
    assert s[|l| + |sp|..] == n;
    assert s[..|l|] == l;
  }

  // ---------------------------------------------------------------------------
  // normalizeCourseCode
  // ---------------------------------------------------------------------------

  lemma NormalizedShape(l: string, n: string)
    requires |l| > 0 && AllUpper(l) && CodeNumber(n)
    ensures Trimmed(l + " " + n) && UpperFixed(l + " " + n) && Collapsed(l + " " + n)
  {
    var d := Span(n, IsDigit);
    var r := l + " " + n;
    DigitIsNotSpace(n[0]);
    assert Trimmed(r) by {
      DigitIsNotSpace(n[|n| - 1]);
      assert r[|r| - 1] == n[|n| - 1];
    }
    assert forall i :: 0 <= i < |n| ==> IsDigit(n[i]) || IsAsciiUpper(n[i]);
    forall i | 0 <= i < |r| ensures UpperChar(r[i]) == r[i] && (IsSpace(r[i]) ==> i == |l|) {
      if i < |l| {
        DigitIsNotSpace(r[i]);
      } else if i > |l| {
        assert r[i] == n[i - |l| - 1];
        DigitIsNotSpace(r[i]);
      }
    }
    assert r[|l| + 1] == n[0];
  }

  /** normalizeCourseCode is idempotent. */
  lemma NormalizeIdempotent(code: string)
    ensures NormalizeCourseCode(NormalizeCourseCode(code)) == NormalizeCourseCode(code)
  {
    var cleaned := CleanCode(code);
    CleanCodeShape(code);
    match MatchCode(cleaned)
    case None =>
      CleanOfShaped(cleaned);
    case Some((l, n)) =>
      MatchCodeFound(cleaned);
      NormalizedShape(l, n);
      CleanOfShaped(l + " " + n);
      MatchCodeOf(l, " ", n);
  }

  lemma {:induction false} TrimStartPad(pre: string, x: string)
    requires AllSpace(pre) && (x == [] || !IsSpace(x[0]))
    ensures TrimStart(pre + x) == x
  {
    if pre != [] {
      assert (pre + x)[1..] == pre[1..] + x;
      TrimStartPad(pre[1..], x);
    } else {
      assert pre + x == x;
    }
  }

  lemma {:induction false} TrimEndPad(x: string, post: string)
    requires AllSpace(post) && (x == [] || !IsSpace(x[|x| - 1]))
    ensures TrimEnd(x + post) == x
    decreases |post|
  {
    if post != [] {
      assert (x + post)[..|x + post| - 1] == x + post[..|post| - 1];
      TrimEndPad(x, post[..|post| - 1]);
    } else {
      assert x + post == x;
    }
  }

  lemma {:induction false} CollapseNoSpacePrefix(a: string, b: string)
    requires NoSpace(a)
    ensures CollapseSpaces(a + b) == a + CollapseSpaces(b)
  {
    if a != [] {
      assert (a + b)[1..] == a[1..] + b;
      CollapseNoSpacePrefix(a[1..], b);
    } else {
      assert a + b == b;
    }
  }

  lemma CollapseSpacePrefix(sp: string, b: string)
    requires sp != [] && AllSpace(sp) && (b == [] || !IsSpace(b[0]))
    ensures CollapseSpaces(sp + b) == " " + CollapseSpaces(b)
  {
    assert (sp + b)[1..] == sp[1..] + b;
    TrimStartPad(sp[1..], b);
  }

  /** Trimming strips the whitespace around a code that starts with a letter and ends with
      a digit or letter. */
  lemma TrimCode(pre: string, x: string, post: string)
    requires AllSpace(pre) && AllSpace(post) && x != [] && !IsSpace(x[0]) && !IsSpace(x[|x| - 1])
    ensures Trim(pre + x + post) == x
  {
    assert pre + x + post == pre + (x + post);
    TrimStartPad(pre, x + post);
    TrimEndPad(x, post);
  }

  /** Letters and digits have no whitespace before or after upper-casing. */
  lemma UpperNoSpace(s: string)
    requires forall i :: 0 <= i < |s| ==> IsDigit(s[i]) || IsAsciiLetter(s[i])
    ensures NoSpace(s) && NoSpace(Upper(s))
  {
    forall i | 0 <= i < |s|
      ensures !IsSpace(s[i]) && !IsSpace(Upper(s)[i])
    {
      DigitIsNotSpace(s[i]);
      DigitIsNotSpace(Upper(s)[i]);
    }
  }

  lemma UpperSpaces(sp: string)
    requires AllSpace(sp)
    ensures Upper(sp) == sp
  {
    forall i | 0 <= i < |sp|
      ensures UpperChar(sp[i]) == sp[i]
    {
      DigitIsNotSpace(sp[i]);
    }
  }

  lemma UpperConcat(a: string, b: string, c: string)
    ensures Upper(a + b + c) == Upper(a) + Upper(b) + Upper(c)
  {
  }

  /** A run of whitespace between two words becomes one space. */
  lemma CollapseCode(ul: string, sp: string, un: string)
    requires NoSpace(ul) && NoSpace(un) && un != [] && AllSpace(sp)
    ensures CollapseSpaces(ul + sp + un) == ul + (if sp == [] then "" else " ") + un
  {
    assert ul + sp + un == ul + (sp + un);
    CollapseNoSpacePrefix(ul, sp + un);
    CollapseOfCollapsed(un);
    if sp == [] {
      assert sp + un == un;
    } else {
      CollapseSpacePrefix(sp, un);
    }
  }

  /** Letters, optional whitespace, digits and an optional letter, with whitespace around,
      come out as the upper-cased subject, one space and the upper-cased number:
      "cs135" becomes "CS 135". */
  lemma NormalizeSubjectNumber(pre: string, l: string, sp: string, n: string, post: string)
    requires AllSpace(pre) && AllSpace(sp) && AllSpace(post)
    requires |l| > 0 && forall i :: 0 <= i < |l| ==> IsAsciiLetter(l[i])
    requires CodeNumber(Upper(n)) && forall i :: 0 <= i < |n| ==> IsDigit(n[i]) || IsAsciiLetter(n[i])
    ensures NormalizeCourseCode(pre + l + sp + n + post) == Upper(l) + " " + Upper(n)
  {
    var x := l + sp + n;
    var un := Upper(n);
    var ul := Upper(l);
    DigitIsNotSpace(l[0]);
    DigitIsNotSpace(n[|n| - 1]);
    assert x[0] == l[0] && x[|x| - 1] == n[|n| - 1];
    assert pre + l + sp + n + post == pre + x + post;
    TrimCode(pre, x, post);
    UpperConcat(l, sp, n);
    UpperSpaces(sp);
    UpperNoSpace(l);
    UpperNoSpace(n);
    CollapseCode(ul, sp, un);
    var sep := if sp == [] then "" else " ";
    assert CleanCode(pre + l + sp + n + post) == ul + sep + un;
    assert AllUpper(ul);
    assert AllSpace(sep);
    MatchCodeOf(ul, sep, un);
  }

  lemma DigitsAreCodeNumber(n: string)
    requires |n| > 0 && AllDigits(n)
    ensures Upper(n) == n && CodeNumber(n)
    ensures forall i :: 0 <= i < |n| ==> IsDigit(n[i]) || IsAsciiLetter(n[i])
  {
    assert n + [] == n;
    SpanOf(n, [], IsDigit);
  }

  /** Whitespace, letters, whitespace, digits, whitespace: the letters upper-cased, one space, the digits. */
  lemma NormalizeLettersDigits(code: string, pre: string, l: string, sp: string, n: string, post: string)
    requires code == pre + l + sp + n + post
    requires AllSpace(pre) && AllSpace(sp) && AllSpace(post)
    requires |l| > 0 && forall i :: 0 <= i < |l| ==> IsAsciiLetter(l[i])
    requires |n| > 0 && AllDigits(n)
    ensures NormalizeCourseCode(code) == Upper(l) + " " + n
  {
    DigitsAreCodeNumber(n);
    NormalizeSubjectNumber(pre, l, sp, n, post);
  }

  // ---------------------------------------------------------------------------
  // decodeTerm and getTermDate
  // ---------------------------------------------------------------------------

  lemma DigitCharValue(c: char)
    requires IsDigit(c)
    ensures (c as int - '0' as int) < 10 && DigitChar(c as int - '0' as int) == c
  {
  }

  lemma NatToStringFour(n: nat)
    requires 1000 <= n <= 9999
    ensures NatToString(n) == [DigitChar(n / 1000), DigitChar(n / 100 % 10), DigitChar(n / 10 % 10), DigitChar(n % 10)]
  {
    var a := n / 10;
    var b := a / 10;
    var c := b / 10;
    assert b == n / 100 && c == n / 1000;
    assert NatToString(c) == [DigitChar(c)];
    assert NatToString(b) == [DigitChar(c), DigitChar(b % 10)];
    assert NatToString(a) == [DigitChar(c), DigitChar(b % 10), DigitChar(a % 10)];
  }

  lemma DigitsValueFour(s: string)
    requires |s| == 4 && AllDigits(s)
    ensures DigitsValue(s) == 1000 * (s[0] as int - '0' as int) + 100 * (s[1] as int - '0' as int)
                            + 10 * (s[2] as int - '0' as int) + (s[3] as int - '0' as int)
  {
    var v0, v1, v2, v3 := s[0] as int - '0' as int, s[1] as int - '0' as int, s[2] as int - '0' as int,
      s[3] as int - '0' as int;
    assert s[..3][..2] == s[..2];
    assert s[..2][..1] == s[..1];
    assert s[..1][..0] == [];
    assert DigitsValue(s[..1]) == v0;
    assert DigitsValue(s[..2]) == 10 * v0 + v1;
    assert DigitsValue(s[..3]) == 100 * v0 + 10 * v1 + v2;
  }

  /** The year of `decodeTerm` prints back as "20" and the two digits it was built from. */
  lemma YearRoundTrip(a: char, b: char)
    requires IsDigit(a) && IsDigit(b)
    ensures AllDigits("20" + [a, b]) && NatToString(DigitsValue("20" + [a, b])) == "20" + [a, b]
  {
    var s := "20" + [a, b];
    DigitsValueFour(s);
    var v := DigitsValue(s);
    var x, y := a as int - '0' as int, b as int - '0' as int;
    assert v == 2000 + 10 * x + y;
    NatToStringFour(v);
    assert v / 1000 == 2 && v / 100 % 10 == 0 && v / 10 % 10 == x && v % 10 == y;
    DigitCharValue(a);
    DigitCharValue(b);
  }

  /** A 4-digit term id d0d1d2d3 decodes to "<Season> 20d1d2", the season from d3. */
  lemma DecodeFourDigits(termId: int)
    requires 1000 <= termId <= 9999
    ensures DecodeTerm(termId)
         == Season(termId % 10) + " 20" + [DigitChar(termId / 100 % 10), DigitChar(termId / 10 % 10)]
  {
    var str := IntToString(termId);
    NatToStringFour(termId);
    assert str[1..3] == [DigitChar(termId / 100 % 10), DigitChar(termId / 10 % 10)];
    assert str[3..] == [DigitChar(termId % 10)];
    assert DigitsValue(str[3..]) == termId % 10 by {
      assert str[3..][..0] == [];
    }
    YearRoundTrip(str[1], str[2]);
    assert "20" + str[1..3] == "20" + [str[1], str[2]];
  }

  lemma {:induction false} FirstFourAfter(p: string, q: string)
    requires |q| >= 4 && AllDigits(q[..4])
    requires forall i :: 0 <= i < |p| ==> !IsDigit(p[i])
    ensures FirstFourDigits(p + q) == Some(q[..4])
  {
    if p == [] {
      assert p + q == q;
    } else {
      assert !IsDigit((p + q)[..4][0]);
      assert (p + q)[1..] == p[1..] + q;
      FirstFourAfter(p[1..], q);
    }
  }

  lemma NotContains(s: string, t: string)
    requires |t| > 0 && forall i :: 0 <= i < |s| ==> s[i] != t[0]
    ensures !Contains(s, t)
    decreases |s|
  {
    if |s| > 0 {
      NotContains(s[1..], t);
    }
  }

  lemma LowerSeason(name: string, y: string)
    requires name == "Winter" || name == "Spring" || name == "Fall"
    requires |y| == 4 && AllDigits(y)
    ensures Lower(name + " " + y)
         == (if name == "Winter" then "winter" else if name == "Spring" then "spring" else "fall") + " " + y
  {
    LowerAppend(name, " " + y);
    assert Lower(" " + y) == " " + y;
  }

  /** For a 4-digit id whose last digit is 1, 5 or 9, `getTermDate(decodeTerm(id))` is the
      first of the season's month in year 20d1d2, without looking at the clock. */
  lemma TermDateOfDecoded(termId: int, thisYear: string, today: string)
    requires 1000 <= termId <= 9999 && termId % 10 in {1, 5, 9}
    ensures var year := "20" + [DigitChar(termId / 100 % 10), DigitChar(termId / 10 % 10)];
      GetTermDate(DecodeTerm(termId), thisYear, today)
        == year + (if termId % 10 == 9 then "-09-01" else if termId % 10 == 1 then "-01-01" else "-05-01")
  {
    DecodeFourDigits(termId);
    var year := "20" + [DigitChar(termId / 100 % 10), DigitChar(termId / 10 % 10)];
    var season := Season(termId % 10);
    assert DecodeTerm(termId) == season + " " + year;
    assert AllDigits(year);
    SeasonTermDate(season, year, thisYear, today);
  }

  /** The date of a term named "<Season> <yyyy>". */
  lemma SeasonTermDate(season: string, year: string, thisYear: string, today: string)
    requires season == "Winter" || season == "Spring" || season == "Fall"
    requires |year| == 4 && AllDigits(year)
    ensures GetTermDate(season + " " + year, thisYear, today)
      == year + (if season == "Fall" then "-09-01" else if season == "Winter" then "-01-01" else "-05-01")
  {
    var term := season + " " + year;
    assert forall i :: 0 <= i < |season + " "| ==> !IsDigit((season + " ")[i]);
    assert term == (season + " ") + year;
    assert year[..4] == year;
    FirstFourAfter(season + " ", year);
    LowerSeason(season, year);
    var lower := Lower(term);
    if season == "Fall" {
      assert StartsWith(lower, "fall");
    } else if season == "Winter" {
      NotContains(lower, "fall");
      assert StartsWith(lower, "winter");
    } else {
      NotContains(lower, "fall");
      NotContains(lower, "winter");
      assert StartsWith(lower, "spring");
    }
  }

  lemma {:induction false} NotContainsChar(s: string, t: string, q: nat)
    requires q < |t| && forall i :: 0 <= i < |s| ==> s[i] != t[q]
    ensures !Contains(s, t)
    decreases |s|
  {
    if q < |s| && |t| <= |s| {
      assert s[..|t|][q] == s[q];
    }
    if |s| > 0 {
      NotContainsChar(s[1..], t, q);
    }
  }

  /** Numbers below 1000 print in at most three digits, numbers from 10000 in at least five. */
  lemma {:induction false} NatToStringLength(n: nat)
    ensures n < 10 ==> |NatToString(n)| == 1
    ensures n < 100 ==> |NatToString(n)| <= 2
    ensures n < 1000 ==> |NatToString(n)| <= 3
    ensures n >= 10 ==> |NatToString(n)| >= 2
    ensures n >= 100 ==> |NatToString(n)| >= 3
    ensures n >= 1000 ==> |NatToString(n)| >= 4
    ensures n >= 10000 ==> |NatToString(n)| >= 5
    decreases n
  {
    if n >= 10 {
      NatToStringLength(n / 10);
    }
  }

  /** `getTermDate` of what `decodeTerm` prints for any other non-negative id ("Term 12345",
      "Unknown 2024") names no season, so it falls back to the clock's date. */
  lemma ClockTermDate(termId: int, thisYear: string, today: string)
    requires termId >= 0 && !(1000 <= termId <= 9999 && termId % 10 in {1, 5, 9})
    ensures GetTermDate(DecodeTerm(termId), thisYear, today) == today
  {
    var term := DecodeTerm(termId);
    var lower := Lower(term);
    if 1000 <= termId <= 9999 {
      DecodeFourDigits(termId);
      assert Season(termId % 10) == "Unknown";
      var d1, d2 := DigitChar(termId / 100 % 10), DigitChar(termId / 10 % 10);
      assert term == "Unknown 20" + [d1, d2];
      assert forall i :: 0 <= i < |lower| ==> lower[i] !in {'f', 'i', 's'};
    } else {
      NatToStringLength(termId);
      assert term == "Term " + NatToString(termId);
      assert forall i :: 0 <= i < |lower| ==> lower[i] !in {'f', 'w', 's'};
    }
    NotContainsChar(lower, "fall", 0);
    NotContainsChar(lower, "winter", 1);
    NotContainsChar(lower, "spring", 0);
    NotContainsChar(lower, "summer", 0);
  }

  /** Four digits start at index j of s. */
  predicate FourAt(s: string, j: nat) {
    j + 4 <= |s| && AllDigits(s[j..j + 4])
  }

  /** `\d{4}` finds the leftmost run of four digits, and nothing when there is none. */
  lemma {:induction false} FirstFourLeftmost(s: string)
    ensures FirstFourDigits(s).Some? ==>
      (exists i: nat :: FourAt(s, i) && FirstFourDigits(s).value == s[i..i + 4] && forall j: nat :: j < i ==> !FourAt(s, j))
    ensures FirstFourDigits(s).None? ==> forall j: nat :: !FourAt(s, j)
    decreases |s|
  {
    if |s| >= 4 && !AllDigits(s[..4]) {
      FirstFourLeftmost(s[1..]);
      forall j: nat | 1 <= j
        ensures FourAt(s, j) == FourAt(s[1..], j - 1)
      {
        if j + 4 <= |s| {
          assert s[j..j + 4] == s[1..][j - 1..j + 3];
        }
      }
      assert !FourAt(s, 0) by {
        assert s[0..4] == s[..4];
      }
      if FirstFourDigits(s[1..]).Some? {
        var i: nat :| FourAt(s[1..], i) && FirstFourDigits(s[1..]).value == s[1..][i..i + 4]
          && forall j: nat :: j < i ==> !FourAt(s[1..], j);
        assert FourAt(s, i + 1);
        assert s[1..][i..i + 4] == s[i + 1..i + 5];
        forall j: nat | j < i + 1
          ensures !FourAt(s, j)
        {
          if j > 0 {
            assert !FourAt(s[1..], j - 1);
          }
        }
      } else {
        forall j: nat
          ensures !FourAt(s, j)
        {
          if j > 0 {
            assert !FourAt(s[1..], j - 1);
          }
        }
      }
    } else if |s| >= 4 {
      assert s[0..4] == s[..4];
      assert FourAt(s, 0);
    }
  }

  // ---------------------------------------------------------------------------
  // The reply parser
  // ---------------------------------------------------------------------------

  /** The trimmed names and weights of the lines that match, in order. */
  function Matches(lines: seq<string>, separators: set<char>): seq<(string, real)> {
    if lines == [] then []
    else
      Matches(lines[..|lines| - 1], separators) +
        match MatchLine(lines[|lines| - 1], separators)
        case Some((raw, w)) => [(Trim(raw), w)]
        case None => []
  }

  function Names(ms: seq<(string, real)>): (r: seq<string>)
    ensures |r| == |ms| && forall i :: 0 <= i < |ms| ==> r[i] == ms[i].0
  {
    seq(|ms|, i requires 0 <= i < |ms| => ms[i].0)
  }

  /** The parse state after the matches `ms`: the m-th of them carrying the name n became
      the parsed assessment with the numbered name, the category of its keywords, count 1
      and its weight as both the total and the individual weight; `nameCounts` counts the
      digit-free names seen. */
  ghost predicate Explains(st: ParseState, ms: seq<(string, real)>) {
    && |st.assessments| == |ms|
    && (forall m :: 0 <= m < |ms| ==>
          st.assessments[m] == Parsed(ms[m].0, Count(Names(ms)[..m + 1], ms[m].0), ms[m].1))
    && (forall n :: !HasDigit(n) ==> CountOf(st.nameCounts, n) == Count(Names(ms), n))
  }

  lemma RecordExplains(st: ParseState, ms: seq<(string, real)>, name: string, w: real)
    requires Explains(st, ms)
    ensures Explains(Record(st, name, w), ms + [(name, w)])
  {
    var ms' := ms + [(name, w)];
    var st' := Record(st, name, w);
    RecordLast(st, ms, name, w);
    RecordCounts(st, ms, name, w);
    assert st'.assessments == st.assessments + [st'.assessments[|ms|]];
    assert Names(ms') == Names(ms) + [name];
    forall m | 0 <= m < |ms'|
      ensures st'.assessments[m] == Parsed(ms'[m].0, Count(Names(ms')[..m + 1], ms'[m].0), ms'[m].1)
    {
      if m < |ms| {
        assert Names(ms')[..m + 1] == Names(ms)[..m + 1];
      }
    }
  }

  /** A digit-free name is numbered exactly when it ends in "s" or has been seen before, and
      then it ends in a space and its count. */
  lemma NumberedWhen(name: string, k: nat)
    requires !HasDigit(name)
    ensures Numbered(name, k) != name <==> EndsWith(name, "s") || k > 1
    ensures Numbered(name, k) != name ==> EndsWith(Numbered(name, k), " " + NatToString(k))
  {
    var n := NatToString(k);
    if EndsWith(name, "s") {
      var r := name[..|name| - 1] + " " + n;
      assert |r| == |name| + |n|;
      assert r[|r| - |" " + n|..] == " " + n;
    } else if k > 1 {
      var r := name + " " + n;
      assert |r| > |name|;
      assert r[|r| - |" " + n|..] == " " + n;
    }
  }

  /** The first "Assignments" line becomes "Assignment 1". */
  lemma NumberedPlural()
    ensures Numbered("Assignments", 1) == "Assignment 1"
  {
    var name := "Assignments";
    assert !HasDigit(name) by {
      forall i | 0 <= i < |name|
        ensures !IsDigit(name[i])
      {
      }
    }
    assert NatToString(1) == "1";
    assert name[..|name| - 1] == "Assignment";
  }

  /** The keywords are tried in order: a name with both "clicker" and "quiz" is a quiz. */
  lemma CategoryFirstKeyword()
    ensures Category("clicker quiz") == "Quiz"
  {
    var s := "clicker quiz";
    NotContains(s, "assign");
    assert s[8..] == "quiz";
    ContainsAt(s, 8, "quiz");
  }

  /** A string contains every string that starts at one of its positions. */
  lemma {:induction false} ContainsAt(s: string, i: nat, t: string)
    requires i <= |s| && StartsWith(s[i..], t)
    ensures Contains(s, t)
    decreases i
  {
    if i > 0 {
      assert s[1..][i - 1..] == s[i..];
      ContainsAt(s[1..], i - 1, t);
    }
  }

  /** The assessment `Record` appends carries the number of times its name has been seen. */
  lemma RecordLast(st: ParseState, ms: seq<(string, real)>, name: string, w: real)
    requires Explains(st, ms)
    ensures var ms', st' := ms + [(name, w)], Record(st, name, w);
      |st'.assessments| == |ms'| &&
      st'.assessments[|ms|] == Parsed(name, Count(Names(ms')[..|ms| + 1], name), w)
  {
    var ms', st' := ms + [(name, w)], Record(st, name, w);
    var k := Count(Names(ms'), name);
    assert Names(ms')[..|ms| + 1] == Names(ms');
    assert Names(ms')[..|Names(ms')| - 1] == Names(ms);
    assert k == Count(Names(ms), name) + 1;
    if HasDigit(name) {
      assert Numbered(name, 0) == Numbered(name, k);
    } else {
      assert CountOf(st.nameCounts, name) == Count(Names(ms), name);
    }
  }

  /** `Record` counts the digit-free names. */
  lemma RecordCounts(st: ParseState, ms: seq<(string, real)>, name: string, w: real)
    requires Explains(st, ms)
    ensures var ms', st' := ms + [(name, w)], Record(st, name, w);
      forall n :: !HasDigit(n) ==> CountOf(st'.nameCounts, n) == Count(Names(ms'), n)
  {
    var ms' := ms + [(name, w)];
    assert Names(ms')[..|Names(ms')| - 1] == Names(ms);
  }

  lemma {:induction false} ParseLinesMeaning(lines: seq<string>, separators: set<char>)
    ensures Explains(ParseLines(lines, separators), Matches(lines, separators))
  {
    if lines != [] {
      var front := lines[..|lines| - 1];
      ParseLinesMeaning(front, separators);
      var st0, ms0 := ParseLines(front, separators), Matches(front, separators);
      var r := MatchLine(lines[|lines| - 1], separators);
      if r.Some? {
        var name, w := Trim(r.value.0), r.value.1;
        assert ParseLines(lines, separators) == Record(st0, name, w);
        assert Matches(lines, separators) == ms0 + [(name, w)];
        RecordExplains(st0, ms0, name, w);
      } else {
        assert ParseLines(lines, separators) == st0;
        assert Matches(lines, separators) == ms0;
      }
    }
  }

  /** Every parsed assessment has count 1, equal total and individual weights, and its
      category as its assessment type. */
  lemma ParsedFields(lines: seq<string>, separators: set<char>)
    ensures forall a :: a in ParseLines(lines, separators).assessments ==>
      a.count == 1 && a.totalWeight == a.individualWeight && a.assessmentType == a.category
  {
    ParseLinesMeaning(lines, separators);
    var st := ParseLines(lines, separators);
    forall a | a in st.assessments
      ensures a.count == 1 && a.totalWeight == a.individualWeight && a.assessmentType == a.category
    {
      var m :| 0 <= m < |st.assessments| && st.assessments[m] == a;
    }
  }

  /** Line j matches, and the trimmed name and the weight of its match are `e`. */
  predicate FromLine(lines: seq<string>, j: int, e: (string, real), separators: set<char>) {
    0 <= j < |lines| && MatchLine(lines[j], separators).Some?
      && Trim(MatchLine(lines[j], separators).value.0) == e.0 && MatchLine(lines[j], separators).value.1 == e.1
  }

  /** The index of the line that the m-th entry of `Matches` comes from. */
  function LineIndex(lines: seq<string>, m: nat, separators: set<char>): (j: nat)
    requires m < |Matches(lines, separators)|
    ensures j < |lines|
  {
    var front := lines[..|lines| - 1];
    if m < |Matches(front, separators)| then LineIndex(front, m, separators) else |lines| - 1
  }

  /** Each parsed entry comes from one line that matches the pattern, its name being the
      trimmed first group, and the entries keep the order of their lines. */
  lemma {:induction false} MatchesFromLines(lines: seq<string>, separators: set<char>)
    ensures |Matches(lines, separators)| <= |lines|
    ensures forall m: nat :: m < |Matches(lines, separators)| ==>
      FromLine(lines, LineIndex(lines, m, separators), Matches(lines, separators)[m], separators)
    ensures forall m: nat, n: nat :: m < n < |Matches(lines, separators)| ==>
      LineIndex(lines, m, separators) < LineIndex(lines, n, separators)
  {
    if lines != [] {
      var front := lines[..|lines| - 1];
      MatchesFromLines(front, separators);
      var ms0 := Matches(front, separators);
      var ms := Matches(lines, separators);
      assert |ms| <= |ms0| + 1;
      forall m: nat | m < |ms|
        ensures FromLine(lines, LineIndex(lines, m, separators), ms[m], separators)
      {
        if m < |ms0| {
          var k := LineIndex(front, m, separators);
          assert ms[m] == ms0[m];
          assert lines[k] == front[k];
        }
      }
    } else {
      assert Matches(lines, separators) == [];
    }
  }
}
