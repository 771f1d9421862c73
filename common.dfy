/** Helpers shared by every module: an Option type, the character classes that the
    JavaScript regular expressions of the repository use, and the string functions
    (case mapping, trimming, searching, number printing) they are built from. */
module Common {

  datatype Option<T> = None | Some(value: T)

  // ---------------------------------------------------------------------------
  // Character classes, as JavaScript regular expressions read them
  // ---------------------------------------------------------------------------

  /** `\d` */
  predicate IsDigit(c: char) { '0' <= c <= '9' }

  predicate IsAsciiUpper(c: char) { 'A' <= c <= 'Z' }

  predicate IsAsciiLower(c: char) { 'a' <= c <= 'z' }

  predicate IsAsciiLetter(c: char) { IsAsciiUpper(c) || IsAsciiLower(c) }

  /** `\w` */
  predicate IsWordChar(c: char) { IsDigit(c) || IsAsciiLetter(c) || c == '_' }

  /** The characters that `.` does not match. */
  predicate IsLineTerminator(c: char) {
    c == '\n' || c == '\r' || c == '\U{2028}' || c == '\U{2029}'
  }

  /** `\s`, which is also the set that `String.prototype.trim` removes:
      JavaScript's WhiteSpace and LineTerminator characters. */
  predicate IsSpace(c: char) {
    || c == '\t' || c == '\U{B}' || c == '\U{C}' || c == ' ' || c == '\U{A0}'
    || c == '\U{1680}' || ('\U{2000}' <= c <= '\U{200A}')
    || c == '\U{202F}' || c == '\U{205F}' || c == '\U{3000}' || c == '\U{FEFF}'
    || IsLineTerminator(c)
  }

  lemma DigitIsNotSpace(c: char)
    ensures IsDigit(c) ==> !IsSpace(c) && !IsLineTerminator(c)
    ensures IsAsciiLetter(c) ==> !IsSpace(c) && !IsLineTerminator(c) && !IsDigit(c)
  {
  }

  // ---------------------------------------------------------------------------
  // Case mapping (ASCII letters; other characters are left as they are)
  // ---------------------------------------------------------------------------

  function LowerChar(c: char): char {
    if IsAsciiUpper(c) then (c as int + 32) as char else c
  }

  function UpperChar(c: char): char {
    if IsAsciiLower(c) then (c as int - 32) as char else c
  }

  /** `toLowerCase()` */
  function Lower(s: string): (r: string)
    ensures |r| == |s|
    ensures forall i :: 0 <= i < |s| ==> r[i] == LowerChar(s[i])
  {
    seq(|s|, i requires 0 <= i < |s| => LowerChar(s[i]))
  }

  /** `toUpperCase()` */
  function Upper(s: string): (r: string)
    ensures |r| == |s|
    ensures forall i :: 0 <= i < |s| ==> r[i] == UpperChar(s[i])
  {
    seq(|s|, i requires 0 <= i < |s| => UpperChar(s[i]))
  }

  lemma LowerAppend(a: string, b: string)
    ensures Lower(a + b) == Lower(a) + Lower(b)
  {
  }

  // ---------------------------------------------------------------------------
  // Trimming
  // ---------------------------------------------------------------------------

  function TrimStart(s: string): string {
    if |s| > 0 && IsSpace(s[0]) then TrimStart(s[1..]) else s
  }

  function TrimEnd(s: string): string {
    if |s| > 0 && IsSpace(s[|s| - 1]) then TrimEnd(s[..|s| - 1]) else s
  }

  /** `trim()` */
  function Trim(s: string): string {
    TrimEnd(TrimStart(s))
  }

  /** `trimStart` removes a run of leading spaces: the longest one. */
  lemma {:induction false} TrimStartSpec(s: string)
    ensures |TrimStart(s)| <= |s| && TrimStart(s) == s[|s| - |TrimStart(s)|..]
    ensures forall i :: 0 <= i < |s| - |TrimStart(s)| ==> IsSpace(s[i])
    ensures TrimStart(s) == [] || !IsSpace(TrimStart(s)[0])
  {
    if |s| > 0 && IsSpace(s[0]) {
      TrimStartSpec(s[1..]);
    }
  }

  /** `trimEnd` removes a run of trailing spaces: the longest one. */
  lemma {:induction false} TrimEndSpec(s: string)
    ensures |TrimEnd(s)| <= |s| && TrimEnd(s) == s[..|TrimEnd(s)|]
    ensures forall i :: |TrimEnd(s)| <= i < |s| ==> IsSpace(s[i])
    ensures TrimEnd(s) == [] || !IsSpace(TrimEnd(s)[|TrimEnd(s)| - 1])
  {
    if |s| > 0 && IsSpace(s[|s| - 1]) {
      TrimEndSpec(s[..|s| - 1]);
    }
  }

  /** A trimmed string neither starts nor ends with a space. */
  lemma TrimSpec(s: string)
    ensures Trim(s) == [] || (!IsSpace(Trim(s)[0]) && !IsSpace(Trim(s)[|Trim(s)| - 1]))
  {
    var t := TrimStart(s);
    TrimStartSpec(s);
    TrimEndSpec(t);
    if Trim(s) != [] {
      assert Trim(s)[0] == t[0];
    }
  }

  /** A string that starts and ends with non-space characters is its own trim. */
  lemma TrimOfTrimmed(s: string)
    requires s == [] || (!IsSpace(s[0]) && !IsSpace(s[|s| - 1]))
    ensures Trim(s) == s
  {
  }

  /** Trimming only removes characters: a character of `Trim(s)` is a character of `s`. */
  lemma TrimIsSlice(s: string)
    ensures exists i, j :: 0 <= i <= j <= |s| && Trim(s) == s[i..j]
  {
    var t := TrimStart(s);
    var r := TrimEnd(t);
    TrimStartSpec(s);
    TrimEndSpec(t);
    assert r == s[|s| - |t|..][..|r|];
    assert r == s[|s| - |t|..|s| - |t| + |r|];
  }

  // ---------------------------------------------------------------------------
  // Searching
  // ---------------------------------------------------------------------------

  predicate StartsWith(s: string, p: string) { |p| <= |s| && s[..|p|] == p }

  predicate EndsWith(s: string, p: string) { |p| <= |s| && s[|s| - |p|..] == p }

  /** `s.includes(t)` */
  predicate Contains(s: string, t: string)
    decreases |s|
  {
    StartsWith(s, t) || (|s| > 0 && Contains(s[1..], t))
  }

  /** `s.indexOf(t)`, when `s` contains `t` */
  function IndexOf(s: string, t: string): (i: nat)
    requires Contains(s, t)
    ensures i + |t| <= |s| && s[i..i + |t|] == t
    ensures forall j :: 0 <= j < i ==> !StartsWith(s[j..], t)
    decreases |s|
  {
    if StartsWith(s, t) then 0
    else
      var k := IndexOf(s[1..], t);
      assert forall j :: 1 <= j <= k ==> s[j..] == s[1..][j - 1..];
      k + 1
  }

  /** `s.replace(from, to)` with a string pattern: only the first occurrence is replaced. */
  function ReplaceFirst(s: string, from: string, to: string): (r: string)
    ensures !Contains(s, from) ==> r == s
  {
    if Contains(s, from) then
      var i := IndexOf(s, from);
      s[..i] + to + s[i + |from|..]
    else s
  }

  predicate HasDigit(s: string) {
    exists i :: 0 <= i < |s| && IsDigit(s[i])
  }

  // ---------------------------------------------------------------------------
  // Decimal numbers
  // ---------------------------------------------------------------------------

  predicate AllDigits(s: string) {
    forall i :: 0 <= i < |s| ==> IsDigit(s[i])
  }

  function DigitChar(d: nat): char
    requires d < 10
  {
    ('0' as int + d) as char
  }

  /** The decimal spelling of a natural number, as `String(n)` prints it. */
  function NatToString(n: nat): (r: string)
    ensures |r| > 0 && AllDigits(r)
    decreases n
  {
    if n < 10 then [DigitChar(n)] else NatToString(n / 10) + [DigitChar(n % 10)]
  }

  /** The decimal spelling of an integer, as `String(i)` prints it. */
  function IntToString(i: int): (r: string)
    ensures |r| > 0
  {
    if i < 0 then "-" + NatToString(-i) else NatToString(i)
  }

  /** The value of a string of decimal digits (`parseInt` of such a string). */
  function DigitsValue(s: string): nat
    requires AllDigits(s)
  {
    if s == [] then 0 else DigitsValue(s[..|s| - 1]) * 10 + (s[|s| - 1] as int - '0' as int)
  }

  /** The value of a decimal literal `ip` or `ip.fp` (`parseFloat` of such a literal),
      read in exact arithmetic. */
  function DecimalValue(ip: string, fp: string): real
    requires AllDigits(ip) && AllDigits(fp)
  {
    DigitsValue(ip) as real + DigitsValue(fp) as real / Pow10(|fp|) as real
  }

  function Pow10(n: nat): (r: nat)
    ensures r >= 1
  {
    if n == 0 then 1 else 10 * Pow10(n - 1)
  }

  // ---------------------------------------------------------------------------
  // Sequences
  // ---------------------------------------------------------------------------

  predicate Distinct<T(==)>(s: seq<T>) {
    forall i, j :: 0 <= i < j < |s| ==> s[i] != s[j]
  }

  function Count<T(==)>(s: seq<T>, x: T): nat {
    if s == [] then 0 else Count(s[..|s| - 1], x) + (if s[|s| - 1] == x then 1 else 0)
  }

  lemma CountAppend<T>(a: seq<T>, b: seq<T>, x: T)
    ensures Count(a + b, x) == Count(a, x) + Count(b, x)
    decreases |b|
  {
    if b == [] {
      assert a + b == a;
    } else {
      assert (a + b)[..|a + b| - 1] == a + b[..|b| - 1];
      CountAppend(a, b[..|b| - 1], x);
    }
  }

  lemma CountMultiset<T>(s: seq<T>, x: T)
    ensures Count(s, x) == multiset(s)[x]
  {
    if s != [] {
      assert s == s[..|s| - 1] + [s[|s| - 1]];
      CountMultiset(s[..|s| - 1], x);
    }
  }

  lemma DistinctCount<T>(s: seq<T>, x: T)
    requires Distinct(s) && x in s
    ensures Count(s, x) == 1
  {
    CountMultiset(s, x);
    var i :| 0 <= i < |s| && s[i] == x;
    assert s == s[..i] + [x] + s[i + 1..];
    assert x !in s[..i] && x !in s[i + 1..];
    calc {
      multiset(s)[x];
      multiset(s[..i])[x] + multiset([x])[x] + multiset(s[i + 1..])[x];
      1;
    }
  }

  lemma NotInCount<T>(s: seq<T>, x: T)
    requires x !in s
    ensures Count(s, x) == 0
  {
    CountMultiset(s, x);
  }
}
