/** Properties of the passes of the duplicate cleaner (scripts/clean-assessments.ts:62-204):
    which rows each pass deletes, stated without reference to the order it visits them. Row
    ids are assumed distinct, as primary keys are. */
module CleanPassesProps {
  import opened Common
  import opened CleanText
  import opened CleanGroups
  import opened CleanGroupsProps
  import opened CleanPasses

  // ---------------------------------------------------------------------------
  // 1. Malformed names
  // ---------------------------------------------------------------------------

  /** Exactly the rows whose name contains "undefined" are marked. */
  lemma {:induction false} MalformedSpec(s: seq<Assessment>, x: string)
    ensures x in Malformed(s) <==> exists a :: a in s && a.id == x && IsMalformed(a)
  {
    if s != [] {
      var front := s[..|s| - 1];
      MalformedSpec(front, x);
      assert s == front + [s[|s| - 1]];
    }
  }

  // ---------------------------------------------------------------------------
  // 2. and 2.6: exact and reordered-word duplicates
  // ---------------------------------------------------------------------------

  /** `before` is a strict weak order on ids, as `localeCompare` is. */
  ghost predicate StringOrder(before: (string, string) -> bool) {
    && (forall x :: !before(x, x))
    && (forall x, y, z :: before(x, y) && before(y, z) ==> before(x, z))
    && (forall x, y, z :: before(x, y) ==> before(x, z) || before(z, y))
  }

  lemma ByIdOrderIsStrictWeak(before: (string, string) -> bool)
    requires StringOrder(before)
    ensures StrictWeakOrder(ByIdOrder(before))
  {
    var b := ByIdOrder(before);
    forall x
      ensures !b(x, x)
    {
      assert !before(x.id, x.id);
    }
    forall x, y, z | b(x, y)
      ensures b(x, z) || b(z, y)
    {
      assert before(x.id, y.id);
      assert before(x.id, z.id) || before(z.id, y.id);
    }
    forall x, y, z | b(x, y) && b(y, z)
      ensures b(x, z)
    {
      assert before(x.id, y.id) && before(y.id, z.id);
    }
  }

  lemma ShorterIsStrictWeak()
    ensures StrictWeakOrder(Shorter)
  {
  }

  /** After the exact pass no two rows left share both name and weight. */
  lemma ExactPassLeavesUniqueKeys(assessments: seq<Assessment>, td: set<string>, before: (string, string) -> bool)
    requires DistinctIds(assessments)
    ensures KeyUnique(Remaining(assessments, td + ExactDuplicates(assessments, td, before)), ExactKey)
  {
    var rest := Remaining(assessments, td);
    RemainingDistinct(assessments, td);
    OneSurvivorPerKey(rest, ExactKey, ByIdOrder(before));
    RemainingTwice(assessments, td, ExactDuplicates(assessments, td, before));
  }

  /** Every row still there before the exact pass has an exact duplicate, maybe itself, left
      after it, and that one has the first id of them all. */
  lemma ExactPassKeepsFirstId(assessments: seq<Assessment>, td: set<string>, before: (string, string) -> bool, a: Assessment)
    returns (w: Assessment)
    requires DistinctIds(assessments) && StringOrder(before)
    requires a in Remaining(assessments, td)
    ensures w in Remaining(assessments, td + ExactDuplicates(assessments, td, before))
    ensures w.name == a.name && w.weight == a.weight
    ensures forall x :: x in Remaining(assessments, td) && x.name == a.name && x.weight == a.weight ==> !before(x.id, w.id)
  {
    var rest := Remaining(assessments, td);
    RemainingDistinct(assessments, td);
    ByIdOrderIsStrictWeak(before);
    w := SurvivorKept(rest, ExactKey, ByIdOrder(before), a);
    RemainingTwice(assessments, td, ExactDuplicates(assessments, td, before));
    forall x | x in rest && x.name == a.name && x.weight == a.weight
      ensures !before(x.id, w.id)
    {
      assert ExactKey(x) == ExactKey(a);
      assert !ByIdOrder(before)(x, w);
    }
  }

  /** After the reordered-word pass no two rows left have the same sorted words and the
      same weight. */
  lemma FuzzyPassLeavesUniqueKeys(assessments: seq<Assessment>, td: set<string>)
    requires DistinctIds(assessments)
    ensures KeyUnique(Remaining(assessments, td + FuzzyDuplicates(assessments, td)), FuzzyKey)
  {
    RemainingDistinct(assessments, td);
    OneSurvivorPerKey(Remaining(assessments, td), FuzzyKey, Shorter);
    RemainingTwice(assessments, td, FuzzyDuplicates(assessments, td));
  }

  /** The row kept for each sorted-word key has the shortest name of its group. */
  lemma FuzzyPassKeepsShortest(assessments: seq<Assessment>, td: set<string>, a: Assessment)
    returns (w: Assessment)
    requires DistinctIds(assessments)
    requires a in Remaining(assessments, td)
    ensures w in Remaining(assessments, td + FuzzyDuplicates(assessments, td))
    ensures NormalizeFuzzy(w.name) == NormalizeFuzzy(a.name) && w.weight == a.weight
    ensures forall x :: x in Remaining(assessments, td) && NormalizeFuzzy(x.name) == NormalizeFuzzy(a.name) && x.weight == a.weight ==>
      |w.name| <= |x.name|
  {
    var rest := Remaining(assessments, td);
    RemainingDistinct(assessments, td);
    ShorterIsStrictWeak();
    w := SurvivorKept(rest, FuzzyKey, Shorter, a);
    RemainingTwice(assessments, td, FuzzyDuplicates(assessments, td));
    forall x | x in rest && NormalizeFuzzy(x.name) == NormalizeFuzzy(a.name) && x.weight == a.weight
      ensures |w.name| <= |x.name|
    {
      assert FuzzyKey(x) == FuzzyKey(a);
    }
  }

  // ---------------------------------------------------------------------------
  // 2.5 Summary rows
  // ---------------------------------------------------------------------------

  lemma {:induction false} SummaryRowsMembers(s: seq<Assessment>)
    ensures forall a :: a in SummaryRows(s) <==> a in s && IsSummaryName(a.name)
  {
    if s != [] {
      SummaryRowsMembers(s[..|s| - 1]);
      assert s == s[..|s| - 1] + [s[|s| - 1]];
    }
  }

  /** Some row of `rest` is numbered and of the stem `summary` names. */
  ghost predicate HasSpecific(rest: seq<Assessment>, summary: Assessment) {
    exists a :: a in rest && SpecificOf(a, summary)
  }

  lemma HasSpecificIff(rest: seq<Assessment>, summary: Assessment)
    ensures SpecificsOf(rest, summary) != [] <==> HasSpecific(rest, summary)
  {
    var r := SpecificsOf(rest, summary);
    if r != [] {
      assert r[0] in r;
    }
  }

  lemma {:induction false} SummariesSound(rest: seq<Assessment>, summaries: seq<Assessment>, x: string)
    ensures x in Summaries(rest, summaries) ==> exists s :: s in summaries && s.id == x && HasSpecific(rest, s)
  {
    if summaries != [] {
      var front := summaries[..|summaries| - 1];
      var s := summaries[|summaries| - 1];
      SummariesSound(rest, front, x);
      HasSpecificIff(rest, s);
      assert summaries == front + [s];
    }
  }

  lemma {:induction false} SummariesComplete(rest: seq<Assessment>, summaries: seq<Assessment>, s: Assessment)
    ensures s in summaries && HasSpecific(rest, s) ==> s.id in Summaries(rest, summaries)
  {
    if summaries != [] {
      var front := summaries[..|summaries| - 1];
      var last := summaries[|summaries| - 1];
      SummariesComplete(rest, front, s);
      HasSpecificIff(rest, last);
      assert summaries == front + [last];
    }
  }

  /** A row goes in the summary pass exactly when its name mentions a total and another row
      left has a number at the end and the stem of that name without the total word. */
  lemma SummaryDeletionsSpec(assessments: seq<Assessment>, td: set<string>, x: string)
    ensures var rest := Remaining(assessments, td);
      x in SummaryDeletions(assessments, td) <==>
      exists s :: s in rest && s.id == x && IsSummaryName(s.name) && HasSpecific(rest, s)
  {
    var rest := Remaining(assessments, td);
    SummaryRowsMembers(rest);
    SummariesSound(rest, SummaryRows(rest), x);
    forall s | s in rest && s.id == x && IsSummaryName(s.name) && HasSpecific(rest, s)
      ensures x in SummaryDeletions(assessments, td)
    {
      SummariesComplete(rest, SummaryRows(rest), s);
    }
  }

  // ---------------------------------------------------------------------------
  // 2.7 Token subsets
  // ---------------------------------------------------------------------------

  /** Some other row has the same weight and a strictly larger token set holding all of
      `a`'s tokens. */
  ghost predicate HasSuperset(rest: seq<Assessment>, a: Assessment) {
    exists b :: b in rest && b.id != a.id && Superset(b, a)
  }

  ghost function Subsumed(rest: seq<Assessment>): set<string> {
    set a | a in rest && HasSuperset(rest, a) :: a.id
  }

  /** The pass only adds ids of rows it has visited that have a superset. */
  lemma {:induction false} SubsetSound(rest: seq<Assessment>, rows: seq<Assessment>, td: set<string>)
    requires forall a :: a in rows ==> a in rest
    ensures SubsetFold(rest, rows, td) <= td + Subsumed(rest)
    ensures td <= SubsetFold(rest, rows, td)
  {
    if rows != [] {
      var front := rows[..|rows| - 1];
      var a := rows[|rows| - 1];
      assert a in rows;
      assert forall b :: b in front ==> b in rows;
      SubsetSound(rest, front, td);
      var t := SubsetFold(rest, front, td);
      var f := FindSuperset(rest, a, t);
      if a.id !in t && f.Some? {
        assert f.value in rest && f.value.id != a.id && Superset(f.value, a);
        assert HasSuperset(rest, a);
      }
    }
  }

  lemma {:induction false} SubsetMonotone(rest: seq<Assessment>, k: nat, m: nat, td: set<string>)
    requires k <= m <= |rest|
    ensures SubsetFold(rest, rest[..k], td) <= SubsetFold(rest, rest[..m], td)
  {
    if k < m {
      SubsetMonotone(rest, k, m - 1, td);
      assert rest[..m][..m - 1] == rest[..m - 1];
    }
  }

  lemma SupersetTransitive(c: Assessment, b: Assessment, a: Assessment)
    requires Superset(c, b) && Superset(b, a)
    ensures Superset(c, a)
  {
  }

  /** A bound on the token counts of the rows. */
  function MaxTokens(rest: seq<Assessment>): (n: nat)
    ensures forall a :: a in rest ==> |TokenSet(a.name)| <= n
  {
    if rest == [] then 0
    else
      var m := MaxTokens(rest[..|rest| - 1]);
      assert rest == rest[..|rest| - 1] + [rest[|rest| - 1]];
      var here := |TokenSet(rest[|rest| - 1].name)|;
      if here > m then here else m
  }

  /** Climbing from superset to superset ends at a superset of `a` that has none itself. */
  lemma Climb(rest: seq<Assessment>, a: Assessment, b: Assessment) returns (top: Assessment)
    requires b in rest && Superset(b, a)
    ensures top in rest && Superset(top, a) && !HasSuperset(rest, top)
    decreases MaxTokens(rest) - |TokenSet(b.name)|
  {
    if HasSuperset(rest, b) {
      var c :| c in rest && c.id != b.id && Superset(c, b);
      SupersetTransitive(c, b, a);
      top := Climb(rest, a, c);
    } else {
      top := b;
    }
  }

  /** A row of `rest` with no superset is never deleted by the pass. */
  lemma MaximalKept(rest: seq<Assessment>, top: Assessment, k: nat, td: set<string>)
    requires DistinctIds(rest) && k <= |rest|
    requires forall a :: a in rest ==> a.id !in td
    requires top in rest && !HasSuperset(rest, top)
    ensures top.id !in SubsetFold(rest, rest[..k], td)
  {
    assert forall x :: x in rest[..k] ==> x in rest;
    SubsetSound(rest, rest[..k], td);
    forall y | y in rest && y.id == top.id
      ensures y == top
    {
      if y != top {
        DifferentIds(rest, y, top);
      }
    }
  }

  /** A row with a superset is deleted by the time the pass has visited it. */
  lemma SubsetCatches(rest: seq<Assessment>, i: nat, td: set<string>)
    requires DistinctIds(rest) && i < |rest|
    requires forall a :: a in rest ==> a.id !in td
    requires HasSuperset(rest, rest[i])
    ensures rest[i].id in SubsetFold(rest, rest[..i + 1], td)
  {
    var a := rest[i];
    var b :| b in rest && b.id != a.id && Superset(b, a);
    var top := Climb(rest, a, b);
    assert top != a;
    DifferentIds(rest, top, a);
    var t := SubsetFold(rest, rest[..i], td);
    assert rest[..i + 1][..i] == rest[..i];
    MaximalKept(rest, top, i, td);
    assert Candidate(top, a, t);
    assert SubsetFold(rest, rest[..i + 1], td) == SubsetStep(rest, a, t);
  }

  /** Order does not matter: the subset pass deletes exactly the rows that have another row
      of the same weight whose tokens strictly include theirs. */
  lemma SubsetPassSpec(rest: seq<Assessment>, td: set<string>)
    requires DistinctIds(rest)
    requires forall a :: a in rest ==> a.id !in td
    ensures SubsetFold(rest, rest, td) == td + Subsumed(rest)
  {
    assert rest[..|rest|] == rest;
    SubsetSound(rest, rest, td);
    forall x | x in Subsumed(rest)
      ensures x in SubsetFold(rest, rest, td)
    {
      var a :| a in rest && HasSuperset(rest, a) && a.id == x;
      var i :| 0 <= i < |rest| && rest[i] == a;
      SubsetCatches(rest, i, td);
      SubsetMonotone(rest, i + 1, |rest|, td);
    }
  }

  // ---------------------------------------------------------------------------
  // 2.8 Shared-token ratio
  // ---------------------------------------------------------------------------

  lemma {:induction false} RatioRowGrows(rest: seq<Assessment>, i: nat, j: nat, m: nat, td: set<string>)
    requires i < j <= m <= |rest|
    ensures td <= RatioRowSpec(rest, i, j, td) <= RatioRowSpec(rest, i, m, td)
    decreases m
  {
    if j < m {
      RatioRowGrows(rest, i, j, m - 1, td);
    } else if j > i + 1 {
      RatioRowGrows(rest, i, i + 1, j - 1, td);
    }
  }

  lemma {:induction false} RatioGrows(rest: seq<Assessment>, k: nat, m: nat, td: set<string>)
    requires k <= m <= |rest|
    ensures td <= RatioSpec(rest, k, td) <= RatioSpec(rest, m, td)
  {
    if k < m {
      RatioGrows(rest, k, m - 1, td);
      var t := RatioSpec(rest, m - 1, td);
      RatioRowGrows(rest, m - 1, m, |rest|, t);
    } else if k > 0 {
      RatioGrows(rest, 0, k, td);
    }
  }

  /** `b` comes after `a` in `rest`, and the pass would delete it for `a`. */
  ghost predicate Justified(rest: seq<Assessment>, i: nat, j: nat) {
    i < j < |rest| && rest[j].weight == rest[i].weight && Similar(rest[i], rest[j])
  }

  /** When a row is still there when its turn comes, every later row similar to it with the
      same weight is gone by the end. */
  lemma RatioCatches(rest: seq<Assessment>, i: nat, j: nat, td: set<string>)
    requires Justified(rest, i, j)
    ensures rest[i].id !in RatioSpec(rest, i, td) ==> rest[j].id in RatioSpec(rest, |rest|, td)
  {
    var t := RatioSpec(rest, i, td);
    if rest[i].id !in t {
      RatioRowGrows(rest, i, j + 1, |rest|, t);
      assert rest[j].id in RatioRowSpec(rest, i, j + 1, t);
      RatioGrows(rest, i + 1, |rest|, td);
    }
  }

  /** No two rows left by the ratio pass are an earlier row and a later similar one of the
      same weight. */
  lemma RatioPassLeavesNoSimilarPair(rest: seq<Assessment>, td: set<string>)
    ensures var f := RatioSpec(rest, |rest|, td);
      forall i, j :: 0 <= i < j < |rest| && rest[i].id !in f && rest[j].id !in f ==>
        !(rest[j].weight == rest[i].weight && Similar(rest[i], rest[j]))
  {
    var f := RatioSpec(rest, |rest|, td);
    forall i, j | 0 <= i < j < |rest| && rest[i].id !in f && rest[j].id !in f
      ensures !(rest[j].weight == rest[i].weight && Similar(rest[i], rest[j]))
    {
      RatioGrows(rest, i, |rest|, td);
      if rest[j].weight == rest[i].weight && Similar(rest[i], rest[j]) {
        RatioCatches(rest, i, j, td);
      }
    }
  }

  /** The inner loop for `rest[i]` adds only later rows it justifies. */
  lemma {:induction false} RatioRowSound(rest: seq<Assessment>, i: nat, m: nat, td: set<string>, x: string)
    requires i < m <= |rest|
    ensures x in RatioRowSpec(rest, i, m, td) ==> x in td || exists j :: i < j < m && rest[j].id == x && Justified(rest, i, j)
    decreases m
  {
    if m > i + 1 {
      RatioRowSound(rest, i, m - 1, td, x);
    }
  }

  /** What the outer loop adds in turns `k` and later are rows after `k`. */
  lemma {:induction false} RatioLaterOnly(rest: seq<Assessment>, k: nat, m: nat, td: set<string>, x: string)
    requires k <= m <= |rest|
    ensures x in RatioSpec(rest, m, td) ==> x in RatioSpec(rest, k, td) || exists j :: k < j < |rest| && rest[j].id == x
  {
    if k < m {
      RatioLaterOnly(rest, k, m - 1, td, x);
      var t := RatioSpec(rest, m - 1, td);
      if rest[m - 1].id !in t {
        RatioRowSound(rest, m - 1, |rest|, t, x);
      }
    }
  }

  /** Every deletion of the first `k` turns is justified by a row that was still there at
      its turn. */
  lemma {:induction false} RatioJustified(rest: seq<Assessment>, k: nat, td: set<string>, x: string)
    requires k <= |rest|
    ensures x in RatioSpec(rest, k, td) ==>
      x in td || exists i: nat, j: nat :: i < k && Justified(rest, i, j) && rest[j].id == x && rest[i].id !in RatioSpec(rest, i, td)
  {
    if k > 0 {
      var t := RatioSpec(rest, k - 1, td);
      if x in t {
        RatioJustified(rest, k - 1, td, x);
      } else if x in RatioSpec(rest, k, td) {
        assert rest[k - 1].id !in t;
        RatioRowSound(rest, k - 1, |rest|, t, x);
        var j: nat :| k - 1 < j < |rest| && rest[j].id == x && Justified(rest, k - 1, j);
        assert Justified(rest, k - 1, j) && rest[j].id == x && rest[k - 1].id !in RatioSpec(rest, k - 1, td);
      }
    }
  }

  /** Every row the ratio pass deletes has an earlier row of the same weight, similar to it,
      that the pass keeps. */
  lemma RatioPassSound(rest: seq<Assessment>, td: set<string>, x: string)
    requires DistinctIds(rest)
    ensures var f := RatioSpec(rest, |rest|, td);
      x in f ==> x in td || exists i: nat, j: nat :: Justified(rest, i, j) && rest[j].id == x && rest[i].id !in f
  {
    var f := RatioSpec(rest, |rest|, td);
    RatioJustified(rest, |rest|, td, x);
    if x in f && x !in td {
      var i: nat, j: nat :| i < |rest| && Justified(rest, i, j) && rest[j].id == x && rest[i].id !in RatioSpec(rest, i, td);
      RatioLaterOnly(rest, i, |rest|, td, rest[i].id);
      forall j' | i < j' < |rest|
        ensures rest[j'].id != rest[i].id
      {
        assert rest[i].id != rest[j'].id;
      }
    }
  }
}
