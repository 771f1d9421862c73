/** The passes `cleanDuplicates` runs over the assessments of one course
    (scripts/clean-assessments.ts:52-261): each pass reads the rows not yet marked, and
    adds ids to `toDelete`; the last one also renames rows. `toDelete` is a set: the script
    only tests membership and hands it to `.in('id', ...)`. */
module CleanPasses {
  import opened Common
  import opened CleanText
  import opened CleanGroups

  // ---------------------------------------------------------------------------
  // 1. Malformed names (lines 62-67)
  // ---------------------------------------------------------------------------

  predicate IsMalformed(a: Assessment) {
    Contains(a.name, "undefined")
  }

  /** The ids of the rows whose name contains "undefined". */
  function Malformed(s: seq<Assessment>): set<string> {
    if s == [] then {}
    else Malformed(s[..|s| - 1]) + (if IsMalformed(s[|s| - 1]) then {s[|s| - 1].id} else {})
  }

  method MarkMalformed(assessments: seq<Assessment>) returns (toDelete: set<string>)
    ensures toDelete == Malformed(assessments)
  {
    toDelete := {};
    for i := 0 to |assessments|
      invariant toDelete == Malformed(assessments[..i])
    {
      assert assessments[..i + 1][..i] == assessments[..i];
      if IsMalformed(assessments[i]) {
        toDelete := toDelete + {assessments[i].id};
      }
    }
    assert assessments[..|assessments|] == assessments;
  }

  // ---------------------------------------------------------------------------
  // 2. Exact duplicates (lines 69-87)
  // ---------------------------------------------------------------------------

  /** `${a.name}|${a.weight}`: weights print without a '|', so the key is the pair. */
  function ExactKey(a: Assessment): Option<(string, real)> {
    Some((a.name, a.weight))
  }

  /** `a.id.localeCompare(b.id) < 0`, the comparison being a parameter. */
  function ByIdOrder(before: (string, string) -> bool): (Assessment, Assessment) -> bool {
    (x: Assessment, y: Assessment) => before(x.id, y.id)
  }

  function ExactDuplicates(assessments: seq<Assessment>, td: set<string>, before: (string, string) -> bool): set<string> {
    Losers(Collect(Remaining(assessments, td), ExactKey), ByIdOrder(before))
  }

  method RemoveExactDuplicates(assessments: seq<Assessment>, toDelete: set<string>, before: (string, string) -> bool)
    returns (td: set<string>)
    ensures td == toDelete + ExactDuplicates(assessments, toDelete, before)
  {
    var rest := Remaining(assessments, toDelete);
    var groups := CollectGroups(rest, ExactKey);
    td := DropAllButBest(groups, ByIdOrder(before), toDelete);
  }

  // ---------------------------------------------------------------------------
  // 2.5 Summary rows (lines 89-110)
  // ---------------------------------------------------------------------------

  function SummaryRows(s: seq<Assessment>): seq<Assessment> {
    if s == [] then []
    else SummaryRows(s[..|s| - 1]) + (if IsSummaryName(s[|s| - 1].name) then [s[|s| - 1]] else [])
  }

  /** `a` is a numbered row of the stem the summary row names. */
  predicate SpecificOf(a: Assessment, summary: Assessment) {
    a.id != summary.id && GetStem(a.name) == GetStem(RemoveSummaryWords(summary.name)) && IsSpecific(a.name)
  }

  function SpecificsOf(s: seq<Assessment>, summary: Assessment): (r: seq<Assessment>)
    ensures forall a :: a in r <==> a in s && SpecificOf(a, summary)
  {
    if s == [] then []
    else SpecificsOf(s[..|s| - 1], summary) + (if SpecificOf(s[|s| - 1], summary) then [s[|s| - 1]] else [])
  }

  /** The ids of the summary rows in `summaries` that some row of `rest` is specific to. */
  function Summaries(rest: seq<Assessment>, summaries: seq<Assessment>): set<string> {
    if summaries == [] then {}
    else
      var s := summaries[|summaries| - 1];
      Summaries(rest, summaries[..|summaries| - 1]) + (if SpecificsOf(rest, s) != [] then {s.id} else {})
  }

  function SummaryDeletions(assessments: seq<Assessment>, td: set<string>): set<string> {
    var rest := Remaining(assessments, td);
    Summaries(rest, SummaryRows(rest))
  }

  method RemoveSummaries(assessments: seq<Assessment>, toDelete: set<string>) returns (td: set<string>)
    ensures td == toDelete + SummaryDeletions(assessments, toDelete)
  {
    var rest := Remaining(assessments, toDelete);
    var summaries := SummaryRows(rest);
    td := toDelete;
    for i := 0 to |summaries|
      invariant td == toDelete + Summaries(rest, summaries[..i])
    {
      assert summaries[..i + 1][..i] == summaries[..i];
      var specifics := SpecificsOf(rest, summaries[i]);
      if |specifics| > 0 {
        td := td + {summaries[i].id};
      }
    }
    assert summaries[..|summaries|] == summaries;
  }

  // ---------------------------------------------------------------------------
  // 2.6 Reordered words (lines 112-137)
  // ---------------------------------------------------------------------------

  function FuzzyKey(a: Assessment): Option<(string, real)> {
    Some((NormalizeFuzzy(a.name), a.weight))
  }

  /** `a.name.length - b.name.length < 0` */
  predicate Shorter(x: Assessment, y: Assessment) {
    |x.name| < |y.name|
  }

  function FuzzyDuplicates(assessments: seq<Assessment>, td: set<string>): set<string> {
    Losers(Collect(Remaining(assessments, td), FuzzyKey), Shorter)
  }

  method RemoveFuzzyDuplicates(assessments: seq<Assessment>, toDelete: set<string>) returns (td: set<string>)
    ensures td == toDelete + FuzzyDuplicates(assessments, toDelete)
  {
    var rest := Remaining(assessments, toDelete);
    var groups := CollectGroups(rest, FuzzyKey);
    td := DropAllButBest(groups, Shorter, toDelete);
  }

  // ---------------------------------------------------------------------------
  // Token sets (lines 141, 146, 150, 171, 177)
  // ---------------------------------------------------------------------------

  /** The distinct words of `ws` in first-occurrence order: the iteration order of
      `new Set(ws)`. */
  function Dedup(ws: seq<string>): (r: seq<string>)
    ensures Distinct(r)
    ensures forall w :: w in r <==> w in ws
  {
    if ws == [] then []
    else
      var d := Dedup(ws[..|ws| - 1]);
      assert ws == ws[..|ws| - 1] + [ws[|ws| - 1]];
      if ws[|ws| - 1] in d then d else d + [ws[|ws| - 1]]
  }

  function UniqueTokens(name: string): (r: seq<string>)
    ensures Distinct(r)
    ensures forall t :: t in r <==> t in TokenSet(name)
  {
    Dedup(GetTokens(name))
  }

  /** The loop of lines 153-155: every token of `ta` is in `tb`. */
  method ContainsAll(ta: seq<string>, tb: set<string>) returns (all: bool)
    ensures all <==> forall t :: t in ta ==> t in tb
  {
    for i := 0 to |ta|
      invariant forall k :: 0 <= k < i ==> ta[k] in tb
    {
      if ta[i] !in tb {
        return false;
      }
    }
    return true;
  }

  /** The elements of a list of words. */
  function Elems(ws: seq<string>): set<string> {
    set t | t in ws
  }

  lemma ElemsAppend(ws: seq<string>, t: string)
    ensures Elems(ws + [t]) == Elems(ws) + {t}
  {
  }

  lemma SharedStep(seen: set<string>, x: string, tb: set<string>)
    requires x !in seen
    ensures |(seen + {x}) * tb| == |seen * tb| + (if x in tb then 1 else 0)
  {
    if x in tb {
      assert (seen + {x}) * tb == seen * tb + {x};
    } else {
      assert (seen + {x}) * tb == seen * tb;
    }
  }

  lemma FreshInPrefix(ta: seq<string>, i: nat)
    requires Distinct(ta) && i < |ta|
    ensures ta[i] !in Elems(ta[..i])
    ensures Elems(ta[..i + 1]) == Elems(ta[..i]) + {ta[i]}
  {
    assert ta[..i + 1] == ta[..i] + [ta[i]];
    ElemsAppend(ta[..i], ta[i]);
    forall k | 0 <= k < i
      ensures ta[..i][k] != ta[i]
    {
      assert ta[k] != ta[i];
    }
  }

  /** The loop of line 179: the number of tokens of `ta` that are in `tb`. */
  method SharedCount(ta: seq<string>, tb: set<string>) returns (shared: nat)
    requires Distinct(ta)
    ensures shared == |Elems(ta) * tb|
  {
    shared := 0;
    for i := 0 to |ta|
      invariant shared == |Elems(ta[..i]) * tb|
    {
      FreshInPrefix(ta, i);
      SharedStep(Elems(ta[..i]), ta[i], tb);
      if ta[i] in tb {
        shared := shared + 1;
      }
    }
    assert ta[..|ta|] == ta;
  }

  // ---------------------------------------------------------------------------
  // 2.7 Token subsets (lines 139-163)
  // ---------------------------------------------------------------------------

  /** `b` has the weight of `a` and strictly more tokens, among them all of `a`'s. */
  predicate Superset(b: Assessment, a: Assessment) {
    b.weight == a.weight && |TokenSet(b.name)| > |TokenSet(a.name)| && TokenSet(a.name) <= TokenSet(b.name)
  }

  /** What the `find` callback of lines 148-157 accepts. */
  predicate Candidate(b: Assessment, a: Assessment, td: set<string>) {
    b.id != a.id && b.id !in td && Superset(b, a)
  }

  /** `rest.find(...)`: the first candidate. */
  function FindSuperset(rest: seq<Assessment>, a: Assessment, td: set<string>): (r: Option<Assessment>)
    ensures r.Some? ==> r.value in rest && Candidate(r.value, a, td)
    ensures r.None? ==> forall b :: b in rest ==> !Candidate(b, a, td)
  {
    if rest == [] then None
    else if Candidate(rest[0], a, td) then Some(rest[0])
    else FindSuperset(rest[1..], a, td)
  }

  function SubsetStep(rest: seq<Assessment>, a: Assessment, td: set<string>): set<string> {
    if a.id in td then td
    else if FindSuperset(rest, a, td).Some? then td + {a.id}
    else td
  }

  /** `toDelete` after the loop of lines 144-163 has visited `rows`. */
  function SubsetFold(rest: seq<Assessment>, rows: seq<Assessment>, td: set<string>): set<string> {
    if rows == [] then td
    else SubsetStep(rest, rows[|rows| - 1], SubsetFold(rest, rows[..|rows| - 1], td))
  }

  method FindSupersetOf(rest: seq<Assessment>, a: Assessment, td: set<string>) returns (found: Option<Assessment>)
    ensures found == FindSuperset(rest, a, td)
  {
    var tokensA := UniqueTokens(a.name);
    for i := 0 to |rest|
      invariant FindSuperset(rest, a, td) == FindSuperset(rest[i..], a, td)
    {
      assert rest[i..][0] == rest[i] && rest[i..][1..] == rest[i + 1..];
      var b := rest[i];
      if b.id == a.id || b.id in td || b.weight != a.weight {
        continue;
      }
      var tokensB := TokenSet(b.name);
      if |tokensB| <= |TokenSet(a.name)| {
        continue;
      }
      var covered := ContainsAll(tokensA, tokensB);
      if covered {
        return Some(b);
      }
    }
    return None;
  }

  method RemoveSubsets(assessments: seq<Assessment>, toDelete: set<string>) returns (td: set<string>)
    ensures td == SubsetFold(Remaining(assessments, toDelete), Remaining(assessments, toDelete), toDelete)
  {
    var rest := Remaining(assessments, toDelete);
    td := toDelete;
    for i := 0 to |rest|
      invariant td == SubsetFold(rest, rest[..i], toDelete)
    {
      assert rest[..i + 1][..i] == rest[..i];
      var a := rest[i];
      if a.id in td {
        continue;
      }
      var superset := FindSupersetOf(rest, a, td);
      if superset.Some? {
        td := td + {a.id};
      }
    }
    assert rest[..|rest|] == rest;
  }

  // ---------------------------------------------------------------------------
  // 2.8 Shared-token ratio (lines 165-204)
  // ---------------------------------------------------------------------------

  /** The keyword checks of lines 196-198, on lower-cased names; they are not symmetric. */
  predicate Clash(nameA: string, nameB: string) {
    || (Contains(nameA, "midterm") && Contains(nameB, "final"))
    || (Contains(nameA, "final") && Contains(nameB, "midterm"))
    || (Contains(nameA, "project") && Contains(nameB, "assignment"))
  }

  /** At least four fifths of the larger token set is shared, the numbers in the two names
      are the same list, and no keyword check objects. `shared / maxLen >= 0.80` is written
      `5 * shared >= 4 * maxLen`. */
  predicate Similar(a: Assessment, b: Assessment) {
    var ta := TokenSet(a.name);
    var tb := TokenSet(b.name);
    var maxLen := if |ta| >= |tb| then |ta| else |tb|;
    && maxLen > 0
    && 5 * |ta * tb| >= 4 * maxLen
    && Join(DigitRuns(a.name), ",") == Join(DigitRuns(b.name), ",")
    && !Clash(Lower(a.name), Lower(b.name))
  }

  /** One turn of the inner loop: `b` goes when it is still there, has `a`'s weight and is
      similar to `a`. */
  function RatioStep(a: Assessment, b: Assessment, td: set<string>): set<string> {
    if b.id !in td && b.weight == a.weight && Similar(a, b) then td + {b.id} else td
  }

  /** `toDelete` after the inner loop for `rest[i]` has run up to, not including, `j`. */
  function RatioRowSpec(rest: seq<Assessment>, i: nat, j: nat, td: set<string>): set<string>
    requires i < j <= |rest|
    decreases j
  {
    if j == i + 1 then td else RatioStep(rest[i], rest[j - 1], RatioRowSpec(rest, i, j - 1, td))
  }

  /** `toDelete` after the outer loop has run for the first `i` rows. */
  function RatioSpec(rest: seq<Assessment>, i: nat, td: set<string>): set<string>
    requires i <= |rest|
  {
    if i == 0 then td
    else
      var t := RatioSpec(rest, i - 1, td);
      if rest[i - 1].id in t then t else RatioRowSpec(rest, i - 1, |rest|, t)
  }

  /** The body of the inner loop (lines 174-202) for the pair `a`, `b`; `tokensA` are the
      tokens of `a` in the order the `Set` lists them. */
  method JudgePair(a: Assessment, b: Assessment, tokensA: seq<string>, toDelete: set<string>) returns (td: set<string>)
    requires Distinct(tokensA) && Elems(tokensA) == TokenSet(a.name)
    ensures td == RatioStep(a, b, toDelete)
  {
    td := toDelete;
    if b.id in td || b.weight != a.weight {
      return;
    }
    var tokensB := TokenSet(b.name);
    var shared := SharedCount(tokensA, tokensB);
    var sizeA := |TokenSet(a.name)|;
    var maxLen := if sizeA >= |tokensB| then sizeA else |tokensB|;
    if maxLen == 0 {
      return;
    }
    if 5 * shared >= 4 * maxLen {
      if Join(DigitRuns(a.name), ",") != Join(DigitRuns(b.name), ",") {
        return;
      }
      var nameA, nameB := Lower(a.name), Lower(b.name);
      if Contains(nameA, "midterm") && Contains(nameB, "final") {
        return;
      }
      if Contains(nameA, "final") && Contains(nameB, "midterm") {
        return;
      }
      if Contains(nameA, "project") && Contains(nameB, "assignment") {
        return;
      }
      assert Similar(a, b) by {
        assert !Clash(nameA, nameB);
      }
      td := td + {b.id};
    }
  }

  method RatioRow(rest: seq<Assessment>, i: nat, toDelete: set<string>) returns (td: set<string>)
    requires i < |rest|
    ensures td == RatioRowSpec(rest, i, |rest|, toDelete)
  {
    var a := rest[i];
    var tokensA := UniqueTokens(a.name);
    assert Elems(tokensA) == TokenSet(a.name);
    td := toDelete;
    for j := i + 1 to |rest|
      invariant td == RatioRowSpec(rest, i, j, toDelete)
    {
      td := JudgePair(a, rest[j], tokensA, td);
    }
  }

  method RemoveSimilar(assessments: seq<Assessment>, toDelete: set<string>) returns (td: set<string>)
    ensures td == RatioSpec(Remaining(assessments, toDelete), |Remaining(assessments, toDelete)|, toDelete)
  {
    var rest := Remaining(assessments, toDelete);
    td := toDelete;
    for i := 0 to |rest|
      invariant td == RatioSpec(rest, i, toDelete)
    {
      if rest[i].id in td {
        continue;
      }
      td := RatioRow(rest, i, td);
    }
  }

  // ---------------------------------------------------------------------------
  // 3. Stem groups (lines 206-261)
  // ---------------------------------------------------------------------------

  /** A row's stem, or `None` for the `continue` of an empty one. */
  function StemKey(a: Assessment): Option<string> {
    var stem := GetStem(a.name);
    if stem == "" then None else Some(stem)
  }

  function BucketKey(b: Bucket<string>): string {
    b.key
  }

  /** `Object.values(groups)` */
  function StemGroups(valid: seq<Assessment>): seq<Bucket<string>> {
    ObjectOrder(Collect(valid, StemKey), BucketKey)
  }

  function Specifics(g: seq<Assessment>): (r: seq<Assessment>)
    ensures |r| <= |g|
    ensures forall a :: a in r <==> a in g && IsSpecific(a.name)
  {
    if g == [] then []
    else Specifics(g[..|g| - 1]) + (if IsSpecific(g[|g| - 1].name) then [g[|g| - 1]] else [])
  }

  function Generics(g: seq<Assessment>): (r: seq<Assessment>)
    ensures forall a :: a in r <==> a in g && !IsSpecific(a.name)
  {
    if g == [] then []
    else Generics(g[..|g| - 1]) + (if IsSpecific(g[|g| - 1].name) then [] else [g[|g| - 1]])
  }

  /** One property of the `prefixes` record. */
  datatype PrefixCount = PrefixCount(prefix: string, count: nat)

  function FindPrefix(counts: seq<PrefixCount>, p: string): (r: Option<nat>)
    ensures r.Some? ==> r.value < |counts| && counts[r.value].prefix == p
    ensures r.None? ==> forall i :: 0 <= i < |counts| ==> counts[i].prefix != p
  {
    if counts == [] then None
    else if counts[|counts| - 1].prefix == p then Some(|counts| - 1)
    else FindPrefix(counts[..|counts| - 1], p)
  }

  /** `prefixes[p] = (prefixes[p] || 0) + 1` */
  function Bump(counts: seq<PrefixCount>, p: string): seq<PrefixCount> {
    match FindPrefix(counts, p)
    case Some(i) => counts[i := PrefixCount(p, counts[i].count + 1)]
    case None => counts + [PrefixCount(p, 1)]
  }

  /** The trimmed text before a name's trailing number, and the number. */
  function NumberParts(name: string): Option<(string, string)> {
    match SplitNumber(name)
    case Some((pre, num)) => Some((Trim(pre), num))
    case None => None
  }

  /** `prefixes` after the loop of lines 235-241 has visited `specifics`. */
  function CountPrefixes(specifics: seq<Assessment>): seq<PrefixCount> {
    if specifics == [] then []
    else
      var counts := CountPrefixes(specifics[..|specifics| - 1]);
      match NumberParts(specifics[|specifics| - 1].name)
      case Some((p, _)) => if p != "" then Bump(counts, p) else counts
      case None => counts
  }

  function PrefixKey(e: PrefixCount): string {
    e.prefix
  }

  /** The position of the first entry with the largest count. */
  function FirstMax(entries: seq<PrefixCount>): (r: nat)
    requires entries != []
    ensures r < |entries|
  {
    if |entries| == 1 then 0
    else
      var b := FirstMax(entries[..|entries| - 1]);
      if entries[|entries| - 1].count > entries[b].count then |entries| - 1 else b
  }

  /** `sortedPrefixes[0][0]`: the stable sort by decreasing count puts first the first entry,
      in `Object.entries` order, with the largest count. */
  function Dominant(counts: seq<PrefixCount>): string
    requires counts != []
  {
    var entries := ObjectOrder(counts, PrefixKey);
    entries[FirstMax(entries)].prefix
  }

  /** One turn of the loop of lines 246-258. */
  function RenameStep(s: Assessment, td: set<string>, dominant: string, renames: map<string, string>): map<string, string> {
    if s.id in td then renames
    else match NumberParts(s.name)
      case Some((p, num)) => if p != dominant then renames[s.id := dominant + " " + num] else renames
      case None => renames
  }

  /** The renames of the loop of lines 246-258 over `specifics`. */
  function Renamed(specifics: seq<Assessment>, td: set<string>, dominant: string, renames: map<string, string>): map<string, string> {
    if specifics == [] then renames
    else RenameStep(specifics[|specifics| - 1], td, dominant, Renamed(specifics[..|specifics| - 1], td, dominant, renames))
  }

  /** Rule 3b (lines 233-260) for the numbered rows of one group. */
  function Standardize(specifics: seq<Assessment>, td: set<string>, renames: map<string, string>): map<string, string> {
    var counts := CountPrefixes(specifics);
    if |counts| > 1 then Renamed(specifics, td, Dominant(counts), renames) else renames
  }

  /** One group of the loop of lines 216-261. */
  function GroupStep(g: seq<Assessment>, td: set<string>, renames: map<string, string>): (set<string>, map<string, string>) {
    if |g| <= 1 then (td, renames)
    else
      var specifics := Specifics(g);
      var generics := Generics(g);
      var td' := if |specifics| > 0 && |generics| > 0 then td + Ids(generics) else td;
      (td', if |specifics| > 1 then Standardize(specifics, td', renames) else renames)
  }

  function StemFold(groups: seq<Bucket<string>>, td: set<string>, renames: map<string, string>): (set<string>, map<string, string>) {
    if groups == [] then (td, renames)
    else
      var (t, r) := StemFold(groups[..|groups| - 1], td, renames);
      GroupStep(groups[|groups| - 1].items, t, r)
  }

  function StemSpec(assessments: seq<Assessment>, td: set<string>): (set<string>, map<string, string>) {
    StemFold(StemGroups(Remaining(assessments, td)), td, map[])
  }

  /** Rule 3a (lines 223-230). */
  method DeleteGenerics(generics: seq<Assessment>, toDelete: set<string>) returns (td: set<string>)
    ensures td == toDelete + Ids(generics)
  {
    td := toDelete;
    for i := 0 to |generics|
      invariant td == toDelete + Ids(generics[..i])
    {
      assert Ids(generics[..i + 1]) == Ids(generics[..i]) + {generics[i].id} by {
        assert generics[..i + 1] == generics[..i] + [generics[i]];
      }
      if generics[i].id !in td {
        td := td + {generics[i].id};
      }
    }
    assert generics[..|generics|] == generics;
  }

  /** The loop of lines 235-241. */
  method CountNumberPrefixes(specifics: seq<Assessment>) returns (counts: seq<PrefixCount>)
    ensures counts == CountPrefixes(specifics)
  {
    counts := [];
    for i := 0 to |specifics|
      invariant counts == CountPrefixes(specifics[..i])
    {
      assert specifics[..i + 1][..i] == specifics[..i];
      var m := NumberParts(specifics[i].name);
      if m.Some? {
        var p := m.value.0;
        if p != "" {
          counts := Bump(counts, p);
        }
      }
    }
    assert specifics[..|specifics|] == specifics;
  }

  /** The loop of lines 246-258. */
  method RenameSpecifics(specifics: seq<Assessment>, td: set<string>, dominant: string, renames: map<string, string>)
    returns (r: map<string, string>)
    ensures r == Renamed(specifics, td, dominant, renames)
  {
    r := renames;
    for i := 0 to |specifics|
      invariant r == Renamed(specifics[..i], td, dominant, renames)
    {
      assert specifics[..i + 1][..i] == specifics[..i];
      var s := specifics[i];
      if s.id in td {
        continue;
      }
      var m := NumberParts(s.name);
      if m.Some? {
        var (p, num) := m.value;
        if p != dominant {
          r := r[s.id := dominant + " " + num];
        }
      }
    }
    assert specifics[..|specifics|] == specifics;
  }

  method ResolveGroup(g: seq<Assessment>, toDelete: set<string>, renames: map<string, string>)
    returns (td: set<string>, r: map<string, string>)
    ensures (td, r) == GroupStep(g, toDelete, renames)
  {
    td, r := toDelete, renames;
    if |g| <= 1 {
      return;
    }
    var specifics := Specifics(g);
    var generics := Generics(g);
    if |specifics| > 0 && |generics| > 0 {
      td := DeleteGenerics(generics, td);
    }
    if |specifics| > 1 {
      var counts := CountNumberPrefixes(specifics);
      if |counts| > 1 {
        var dominant := Dominant(counts);
        r := RenameSpecifics(specifics, td, dominant, r);
      }
    }
  }

  lemma StemFoldStep(groups: seq<Bucket<string>>, i: nat, td: set<string>)
    requires i < |groups|
    ensures StemFold(groups[..i + 1], td, map[]) ==
      var (t, r) := StemFold(groups[..i], td, map[]); GroupStep(groups[i].items, t, r)
  {
    assert groups[..i + 1][..i] == groups[..i];
  }

  /** Rule 3 over all stem groups (lines 207-261). */
  method ResolveStems(assessments: seq<Assessment>, toDelete: set<string>) returns (td: set<string>, renames: map<string, string>)
    ensures (td, renames) == StemSpec(assessments, toDelete)
  {
    var valid := Remaining(assessments, toDelete);
    var collected := CollectGroups(valid, StemKey);
    var groups := ObjectOrder(collected, BucketKey);
    td, renames := toDelete, map[];
    for i := 0 to |groups|
      invariant (td, renames) == StemFold(groups[..i], toDelete, map[])
    {
      StemFoldStep(groups, i, toDelete);
      td, renames := ResolveGroup(groups[i].items, td, renames);
    }
    assert groups[..|groups|] == groups;
  }

  // ---------------------------------------------------------------------------
  // One course (lines 52-267)
  // ---------------------------------------------------------------------------

  /** `toDelete` and the renames of the first phase for one course's rows, `before` being
      `localeCompare(...) < 0` on ids. */
  function CleanSpec(assessments: seq<Assessment>, before: (string, string) -> bool): (set<string>, map<string, string>) {
    if assessments == [] then ({}, map[])
    else
      var t1 := Malformed(assessments);
      var t2 := t1 + ExactDuplicates(assessments, t1, before);
      var t3 := t2 + SummaryDeletions(assessments, t2);
      var t4 := t3 + FuzzyDuplicates(assessments, t3);
      var t5 := SubsetFold(Remaining(assessments, t4), Remaining(assessments, t4), t4);
      var t6 := RatioSpec(Remaining(assessments, t5), |Remaining(assessments, t5)|, t5);
      StemSpec(assessments, t6)
  }

  method CleanCourse(assessments: seq<Assessment>, before: (string, string) -> bool)
    returns (toDelete: set<string>, renames: map<string, string>)
    ensures (toDelete, renames) == CleanSpec(assessments, before)
  {
    if |assessments| == 0 {
      return {}, map[];
    }
    toDelete := MarkMalformed(assessments);
    toDelete := RemoveExactDuplicates(assessments, toDelete, before);
    toDelete := RemoveSummaries(assessments, toDelete);
    toDelete := RemoveFuzzyDuplicates(assessments, toDelete);
    toDelete := RemoveSubsets(assessments, toDelete);
    toDelete := RemoveSimilar(assessments, toDelete);
    toDelete, renames := ResolveStems(assessments, toDelete);
  }
}
