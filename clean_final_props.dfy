/** Properties of the last two phases of the duplicate cleaner
    (scripts/clean-assessments.ts:269-349): the search tries every choice of one row per
    duplicated name and keeps the first choice closest to 100; afterwards each name is left
    on exactly one row; an orphaned "... 2" is renamed exactly when no other row starts with
    its base name. */
module CleanFinalProps {
  import opened Common
  import opened CleanText
  import opened CleanTextProps
  import opened CleanGroups
  import opened CleanGroupsProps
  import opened CleanPasses
  import opened CleanFinal
  import opened StemProps

  // ---------------------------------------------------------------------------
  // The leaves of the search
  // ---------------------------------------------------------------------------

  /** One row of each group, in group order. */
  ghost predicate Selection(dups: seq<Bucket<string>>, l: seq<Assessment>) {
    |l| == |dups| && forall i :: 0 <= i < |dups| ==> l[i] in dups[i].items
  }

  /** `l` is a selection that starts with `selection`. */
  ghost predicate Extends(dups: seq<Bucket<string>>, index: nat, selection: seq<Assessment>, l: seq<Assessment>) {
    |l| == |dups| && index <= |l| && l[..index] == selection && forall i :: index <= i < |dups| ==> l[i] in dups[i].items
  }

  /** ... and whose row of group `index` is one of its first `j`. */
  ghost predicate ExtendsUpTo(dups: seq<Bucket<string>>, index: nat, selection: seq<Assessment>, j: nat, l: seq<Assessment>) {
    |l| == |dups| && index < |l| && j <= |dups[index].items| && l[..index] == selection &&
    l[index] in dups[index].items[..j] && forall i :: index < i < |dups| ==> l[i] in dups[i].items
  }

  lemma {:induction false} LeavesSpec(dups: seq<Bucket<string>>, index: nat, selection: seq<Assessment>)
    requires index <= |dups| && |selection| == index
    ensures forall l :: l in Leaves(dups, index, selection) <==> Extends(dups, index, selection, l)
    decreases |dups| - index, 1
  {
    if index == |dups| {
      forall l
        ensures Extends(dups, index, selection, l) <==> l == selection
      {
        if |l| == |dups| {
          assert l[..index] == l;
        }
      }
    } else {
      var items := dups[index].items;
      LeavesFromSpec(dups, index, selection, |items|);
      assert items[..|items|] == items;
    }
  }

  lemma {:induction false} LeavesFromSpec(dups: seq<Bucket<string>>, index: nat, selection: seq<Assessment>, j: nat)
    requires index < |dups| && j <= |dups[index].items| && |selection| == index
    ensures forall l :: l in LeavesFrom(dups, index, selection, j) <==> ExtendsUpTo(dups, index, selection, j, l)
    decreases |dups| - index, 0, j
  {
    var items := dups[index].items;
    if j == 0 {
      forall l
        ensures !ExtendsUpTo(dups, index, selection, 0, l)
      {
        assert items[..0] == [];
      }
    } else {
      var c := items[j - 1];
      LeavesFromSpec(dups, index, selection, j - 1);
      LeavesSpec(dups, index + 1, selection + [c]);
      assert items[..j] == items[..j - 1] + [c];
      forall l
        ensures ExtendsUpTo(dups, index, selection, j, l) <==>
          ExtendsUpTo(dups, index, selection, j - 1, l) || Extends(dups, index + 1, selection + [c], l)
      {
        if |l| == |dups| && index < |l| {
          assert l[..index + 1] == l[..index] + [l[index]];
        }
      }
    }
  }

  /** `solve(0, [])` reaches exactly the selections. */
  lemma SelectionsAreLeaves(dups: seq<Bucket<string>>)
    ensures forall l :: l in Leaves(dups, 0, []) <==> Selection(dups, l)
  {
    LeavesSpec(dups, 0, []);
    forall l
      ensures Extends(dups, 0, [], l) <==> Selection(dups, l)
    {
      if |l| == |dups| {
        assert l[..0] == [];
      }
    }
  }

  // ---------------------------------------------------------------------------
  // The best leaf
  // ---------------------------------------------------------------------------

  /** Keeping a leaf only when strictly closer keeps the first of the closest leaves. */
  lemma {:induction false} FirstBest(base: real, leaves: seq<seq<Assessment>>) returns (k: nat)
    requires leaves != []
    ensures FoldPick(base, None, leaves).Some?
    ensures var b := FoldPick(base, None, leaves).value;
      k < |leaves| && leaves[k] == b.combo && b.diff == Diff(base, b.combo) &&
      (forall x :: x in leaves ==> b.diff <= Diff(base, x)) &&
      (forall j :: 0 <= j < k ==> Diff(base, leaves[j]) > b.diff)
  {
    var front := leaves[..|leaves| - 1];
    var x := leaves[|leaves| - 1];
    assert leaves == front + [x];
    if front == [] {
      k := 0;
    } else {
      var k0 := FirstBest(base, front);
      var b0 := FoldPick(base, None, front).value;
      if Diff(base, x) < b0.diff {
        k := |leaves| - 1;
      } else {
        k := k0;
      }
    }
  }

  // ---------------------------------------------------------------------------
  // The duplicated groups
  // ---------------------------------------------------------------------------

  lemma {:induction false} DuplicatedKeysDistinct(groups: seq<Bucket<string>>)
    requires KeysDistinct(groups)
    ensures KeysDistinct(Duplicated(groups))
  {
    if groups != [] {
      var front := groups[..|groups| - 1];
      var g := groups[|groups| - 1];
      assert KeysDistinct(front);
      DuplicatedKeysDistinct(front);
      var d := Duplicated(front);
      forall e | e in d
        ensures e.key != g.key
      {
        var p :| 0 <= p < |front| && front[p] == e;
        assert groups[p] == e;
      }
    }
  }

  /** The groups of `duplicateNames`: two rows or more, all the rows of one name, no name
      twice. */
  lemma DupsFacts(current: seq<Assessment>)
    ensures var dups := Duplicated(NameGroups(current));
      KeysDistinct(dups) &&
      forall g :: g in dups ==>
        |g.items| > 1 && g.items == WithKey(current, NameKey, g.key) &&
        forall a :: a in g.items <==> a in current && a.name == g.key
  {
    KeyedGroupsSpec(current, NameKey);
    DuplicatedKeysDistinct(NameGroups(current));
  }

  /** The search keeps, among all choices of one row per duplicated name, the first in
      `solve`'s order whose total is closest to 100. */
  lemma KnapsackChoosesClosest(current: seq<Assessment>) returns (k: nat)
    requires var dups := Duplicated(NameGroups(current)); 0 < |dups|
    ensures var dups := Duplicated(NameGroups(current));
      var base := NonDuplicateSum(current);
      var combo := BestCombination(dups, base);
      var leaves := Leaves(dups, 0, []);
      Selection(dups, combo) &&
      (forall l :: Selection(dups, l) ==> Diff(base, combo) <= Diff(base, l)) &&
      k < |leaves| && leaves[k] == combo && (forall j :: 0 <= j < k ==> Diff(base, leaves[j]) > Diff(base, combo))
  {
    var dups := Duplicated(NameGroups(current));
    var base := NonDuplicateSum(current);
    DupsFacts(current);
    BestCombinationLength(dups, base);
    var leaves := Leaves(dups, 0, []);
    SelectionsAreLeaves(dups);
    LeavesNonEmpty(dups, 0, []);
    k := FirstBest(base, leaves);
  }

  // ---------------------------------------------------------------------------
  // What the phase deletes
  // ---------------------------------------------------------------------------

  /** Row `y` of group `i` is not the chosen one. */
  ghost predicate LostAt(dups: seq<Bucket<string>>, combo: seq<Assessment>, i: nat, y: Assessment) {
    i < |dups| && i < |combo| && y in dups[i].items && y.id != combo[i].id
  }

  lemma LosersStep(dups: seq<Bucket<string>>, combo: seq<Assessment>, i: nat, x: string)
    requires i < |dups| && i < |combo|
    ensures x in Ids(Others(dups[i].items, combo[i])) <==> exists y :: LostAt(dups, combo, i, y) && y.id == x
  {
    var o := Others(dups[i].items, combo[i]);
    if x in Ids(o) {
      var y :| y in o && y.id == x;
      assert LostAt(dups, combo, i, y);
    }
  }

  lemma StepWitness(dups: seq<Bucket<string>>, combo: seq<Assessment>, i: nat, x: string) returns (y: Assessment)
    requires i < |dups| && i < |combo| && x in Ids(Others(dups[i].items, combo[i]))
    ensures LostAt(dups, combo, i, y) && y.id == x
  {
    var o := Others(dups[i].items, combo[i]);
    y :| y in o && y.id == x;
  }

  lemma {:induction false} LoserWitness(dups: seq<Bucket<string>>, combo: seq<Assessment>, k: nat, x: string)
    returns (i: nat, y: Assessment)
    requires k <= |dups| && x in ConflictLosers(dups, combo, k)
    ensures i < k && LostAt(dups, combo, i, y) && y.id == x
  {
    var before := ConflictLosers(dups, combo, k - 1);
    if x in before {
      i, y := LoserWitness(dups, combo, k - 1, x);
    } else {
      i := k - 1;
      y := StepWitness(dups, combo, i, x);
    }
  }

  lemma {:induction false} LoserUpTo(dups: seq<Bucket<string>>, combo: seq<Assessment>, k: nat, i: nat, y: Assessment)
    requires i < k <= |dups| && LostAt(dups, combo, i, y)
    ensures y.id in ConflictLosers(dups, combo, k)
  {
    if i < k - 1 {
      LoserUpTo(dups, combo, k - 1, i, y);
    } else {
      var o := Others(dups[i].items, combo[i]);
      assert y in o;
      assert y.id in Ids(o);
    }
  }

  lemma ConflictLosersFrom(dups: seq<Bucket<string>>, combo: seq<Assessment>, k: nat, x: string)
    requires k <= |dups|
    ensures x in ConflictLosers(dups, combo, k) <==>
      exists i: nat, y :: i < k && LostAt(dups, combo, i, y) && y.id == x
  {
    if x in ConflictLosers(dups, combo, k) {
      var i, y := LoserWitness(dups, combo, k, x);
    }
    forall i: nat, y | i < k && LostAt(dups, combo, i, y) && y.id == x
      ensures x in ConflictLosers(dups, combo, k)
    {
      LoserUpTo(dups, combo, k, i, y);
    }
  }

  /** A row of a group other than the chosen one is among the losers. */
  lemma LostIsLoser(dups: seq<Bucket<string>>, combo: seq<Assessment>, h: nat, a: Assessment)
    requires LostAt(dups, combo, h, a)
    ensures a.id in ConflictLosers(dups, combo, |dups|)
  {
    ConflictLosersFrom(dups, combo, |dups|, a.id);
  }

  /** A row of a group that is not among the losers is the chosen one. */
  lemma KeptIsChosen(dups: seq<Bucket<string>>, combo: seq<Assessment>, h: nat, a: Assessment)
    requires h < |dups| && h < |combo| && a in dups[h].items
    ensures a.id in ConflictLosers(dups, combo, |dups|) || a.id == combo[h].id
  {
    LostIsLoserIf(dups, combo, h, a);
  }

  lemma LostIsLoserIf(dups: seq<Bucket<string>>, combo: seq<Assessment>, h: nat, a: Assessment)
    ensures LostAt(dups, combo, h, a) ==> a.id in ConflictLosers(dups, combo, |dups|)
  {
    if LostAt(dups, combo, h, a) {
      LostIsLoser(dups, combo, h, a);
    }
  }

  lemma IdOwner(s: seq<Assessment>, a: Assessment)
    requires DistinctIds(s) && a in s
    ensures forall y :: y in s && y.id == a.id ==> y == a
  {
    forall y | y in s && y.id == a.id
      ensures y == a
    {
      SameIdSame(s, y, a);
    }
  }

  /** The duplicated groups of `current`: two rows or more, exactly the rows of one name,
      no name twice. */
  ghost predicate DupGroups(current: seq<Assessment>, dups: seq<Bucket<string>>) {
    KeysDistinct(dups) &&
    forall g :: g in dups ==>
      |g.items| > 1 && forall a :: a in g.items <==> a in current && a.name == g.key
  }

  /** Phase 5 deletes, group by group, every row but the chosen one. */
  lemma KnapsackShape(current: seq<Assessment>)
    requires 0 < |Duplicated(NameGroups(current))| <= 15
    ensures var dups := Duplicated(NameGroups(current));
      var combo := BestCombination(dups, NonDuplicateSum(current));
      KnapsackSpec(current) == ConflictLosers(dups, combo, |dups|) &&
      DupGroups(current, dups) && Selection(dups, combo)
  {
    var dups := Duplicated(NameGroups(current));
    var combo := BestCombination(dups, NonDuplicateSum(current));
    assert KnapsackSpec(current) == ConflictLosers(dups, combo, |dups|) by {
      assert current != [];
    }
    assert Selection(dups, combo) by {
      var _ := KnapsackChoosesClosest(current);
    }
    assert DupGroups(current, dups) by {
      DupsFacts(current);
    }
  }

  lemma ChosenKept(current: seq<Assessment>, dups: seq<Bucket<string>>, combo: seq<Assessment>, h: nat)
    requires DistinctIds(current) && DupGroups(current, dups) && Selection(dups, combo) && h < |dups|
    ensures combo[h].id !in ConflictLosers(dups, combo, |dups|)
  {
    var w := combo[h];
    assert dups[h] in dups;
    IdOwner(current, w);
    ConflictLosersFrom(dups, combo, |dups|, w.id);
    forall i | 0 <= i < |dups| && w in dups[i].items
      ensures i == h
    {
      assert dups[i] in dups;
      assert dups[i].key == dups[h].key;
    }
  }

  lemma UngroupedKept(current: seq<Assessment>, dups: seq<Bucket<string>>, combo: seq<Assessment>, a: Assessment)
    requires DistinctIds(current) && DupGroups(current, dups) && a in current
    requires forall i :: 0 <= i < |dups| ==> a !in dups[i].items
    ensures a.id !in ConflictLosers(dups, combo, |dups|)
  {
    IdOwner(current, a);
    ConflictLosersFrom(dups, combo, |dups|, a.id);
  }

  /** A row whose name no other row has is never deleted. */
  lemma SingleKept(current: seq<Assessment>, a: Assessment)
    requires DistinctIds(current) && a in current && NameCount(current, a.name) == 1
    ensures a.id !in KnapsackSpec(current)
  {
    var dups := Duplicated(NameGroups(current));
    if 0 < |dups| <= 15 {
      KnapsackShape(current);
      DupsFacts(current);
      forall i | 0 <= i < |dups|
        ensures a !in dups[i].items
      {
        assert dups[i] in dups;
      }
      UngroupedKept(current, dups, BestCombination(dups, NonDuplicateSum(current)), a);
    }
  }

  /** The chosen row of each duplicated name is never deleted. */
  lemma WinnerKept(current: seq<Assessment>, h: nat)
    requires DistinctIds(current)
    requires var dups := Duplicated(NameGroups(current)); 0 < |dups| <= 15 && h < |dups|
    ensures var dups := Duplicated(NameGroups(current));
      var combo := BestCombination(dups, NonDuplicateSum(current));
      h < |combo| && combo[h] in dups[h].items && combo[h].id !in KnapsackSpec(current)
  {
    var dups := Duplicated(NameGroups(current));
    KnapsackShape(current);
    ChosenKept(current, dups, BestCombination(dups, NonDuplicateSum(current)), h);
  }

  /** Every other row of a duplicated name is deleted. */
  lemma LoserGone(current: seq<Assessment>, h: nat, a: Assessment)
    requires var dups := Duplicated(NameGroups(current)); 0 < |dups| <= 15 && h < |dups|
    requires var dups := Duplicated(NameGroups(current));
      var combo := BestCombination(dups, NonDuplicateSum(current));
      a in dups[h].items && h < |combo| && a.id != combo[h].id
    ensures a.id in KnapsackSpec(current)
  {
    var dups := Duplicated(NameGroups(current));
    KnapsackShape(current);
    LostIsLoser(dups, BestCombination(dups, NonDuplicateSum(current)), h, a);
  }

  lemma SameNameInGroups(current: seq<Assessment>, dups: seq<Bucket<string>>, combo: seq<Assessment>, x: Assessment, y: Assessment)
    requires DupGroups(current, dups) && Selection(dups, combo)
    requires x in current && y in current && x.name == y.name
    requires x.id !in ConflictLosers(dups, combo, |dups|) && y.id !in ConflictLosers(dups, combo, |dups|)
    requires exists g :: g in dups && g.key == x.name
    ensures x.id == y.id
  {
    var d :| 0 <= d < |dups| && dups[d].key == x.name;
    assert dups[d] in dups;
    KeptIsChosen(dups, combo, d, x);
    KeptIsChosen(dups, combo, d, y);
  }

  /** The group of `x`'s name: the rows with that name; duplicated when it has two or more. */
  lemma NameGroupOf(current: seq<Assessment>, x: Assessment) returns (g: Bucket<string>)
    requires x in current
    ensures g.key == x.name && x in g.items
    ensures forall a :: a in g.items <==> a in current && a.name == x.name
    ensures |g.items| > 1 ==> g in Duplicated(NameGroups(current))
    ensures forall d :: d in Duplicated(NameGroups(current)) && (d.key == x.name || x in d.items) ==> d == g
  {
    var groups := NameGroups(current);
    var h := KeyedGroupOf(current, NameKey, x);
    KeyedGroupsSpec(current, NameKey);
    g := groups[h];
    assert g in groups;
    forall d | d in Duplicated(groups) && (d.key == x.name || x in d.items)
      ensures d == g
    {
      assert d in groups;
      var p :| 0 <= p < |groups| && groups[p] == d;
      SameKeyIndex(groups, p, h);
    }
  }

  lemma SameKeyIndex<K>(b: seq<Bucket<K>>, i: nat, j: nat)
    requires KeysDistinct(b) && i < |b| && j < |b| && b[i].key == b[j].key
    ensures i == j
  {
    assert !(i < j) && !(j < i);
  }

  lemma OneItem<T>(s: seq<T>, x: T, y: T)
    requires x in s && y in s && |s| <= 1
    ensures x == y
  {
  }

  /** Two rows left with one name are one row. */
  lemma SameNameSameRow(current: seq<Assessment>, x: Assessment, y: Assessment)
    requires DistinctIds(current)
    ensures var left := Remaining(current, KnapsackSpec(current));
      x in left && y in left && x.name == y.name && |Duplicated(NameGroups(current))| <= 15 ==> x.id == y.id
  {
    var left := Remaining(current, KnapsackSpec(current));
    var dups := Duplicated(NameGroups(current));
    if x in left && y in left && x.name == y.name && |dups| <= 15 {
      var g := NameGroupOf(current, x);
      assert y in g.items;
      if |g.items| > 1 {
        assert g in dups;
        KnapsackShape(current);
        SameNameInGroups(current, dups, BestCombination(dups, NonDuplicateSum(current)), x, y);
      } else {
        OneItem(g.items, x, y);
      }
    }
  }

  /** With at most 15 duplicated names, no two rows share a name after phase 5. */
  lemma NamesUniqueAfter(current: seq<Assessment>)
    requires DistinctIds(current)
    requires |Duplicated(NameGroups(current))| <= 15
    ensures var left := Remaining(current, KnapsackSpec(current));
      forall i, j :: 0 <= i < j < |left| ==> left[i].name != left[j].name
  {
    var left := Remaining(current, KnapsackSpec(current));
    RemainingDistinct(current, KnapsackSpec(current));
    forall i, j | 0 <= i < j < |left|
      ensures left[i].name != left[j].name
    {
      SameNameSameRow(current, left[i], left[j]);
    }
  }

  lemma DuplicatedNameKept(current: seq<Assessment>, a: Assessment, g: Bucket<string>)
    requires DistinctIds(current) && 0 < |Duplicated(NameGroups(current))| <= 15
    requires g in Duplicated(NameGroups(current)) && g.key == a.name
    ensures exists b :: b in Remaining(current, KnapsackSpec(current)) && b.name == a.name
  {
    var dups := Duplicated(NameGroups(current));
    KnapsackShape(current);
    var d :| 0 <= d < |dups| && dups[d] == g;
    ChosenRemains(current, dups, BestCombination(dups, NonDuplicateSum(current)), d);
  }

  lemma ChosenRemains(current: seq<Assessment>, dups: seq<Bucket<string>>, combo: seq<Assessment>, d: nat)
    requires DistinctIds(current) && DupGroups(current, dups) && Selection(dups, combo) && d < |dups|
    ensures combo[d] in Remaining(current, ConflictLosers(dups, combo, |dups|)) && combo[d].name == dups[d].key
  {
    assert dups[d] in dups;
    ChosenKept(current, dups, combo, d);
  }

  lemma LoneNameKept(current: seq<Assessment>, a: Assessment)
    requires DistinctIds(current) && a in current && 0 < |Duplicated(NameGroups(current))| <= 15
    requires forall d :: d in Duplicated(NameGroups(current)) ==> a !in d.items
    ensures a in Remaining(current, KnapsackSpec(current))
  {
    var dups := Duplicated(NameGroups(current));
    KnapsackShape(current);
    forall i | 0 <= i < |dups|
      ensures a !in dups[i].items
    {
      assert dups[i] in dups;
    }
    UngroupedKept(current, dups, BestCombination(dups, NonDuplicateSum(current)), a);
  }

  /** ... and every name is still there. */
  lemma EveryNameKept(current: seq<Assessment>, a: Assessment)
    requires DistinctIds(current) && a in current
    ensures exists b :: b in Remaining(current, KnapsackSpec(current)) && b.name == a.name
  {
    var dups := Duplicated(NameGroups(current));
    if 0 < |dups| <= 15 {
      var g := NameGroupOf(current, a);
      if |g.items| > 1 {
        DuplicatedNameKept(current, a, g);
      } else {
        LoneNameKept(current, a);
      }
    } else {
      assert a in Remaining(current, KnapsackSpec(current));
    }
  }

  // ---------------------------------------------------------------------------
  // Orphans
  // ---------------------------------------------------------------------------

  /** No other row has the base name or starts with it. */
  ghost predicate Orphaned(rows: seq<Assessment>, a: Assessment, base: string) {
    forall b :: b in rows && b.id != a.id ==> !(b.name == base || StartsWith(b.name, base))
  }

  lemma SiblingsEmpty(rows: seq<Assessment>, a: Assessment, base: string)
    ensures Siblings(rows, a, base) == [] <==> Orphaned(rows, a, base)
  {
    var s := Siblings(rows, a, base);
    if s != [] {
      assert s[0] in s;
    }
  }

  lemma {:induction false} OrphanOutside(rows: seq<Assessment>, visited: seq<Assessment>, k: string)
    requires forall t :: t in visited ==> t.id != k
    ensures k !in OrphanRenames(rows, visited)
  {
    if visited != [] {
      var front := visited[..|visited| - 1];
      assert visited == front + [visited[|visited| - 1]];
      OrphanOutside(rows, front, k);
    }
  }

  lemma OrphanStepOther(rows: seq<Assessment>, t: Assessment, m: map<string, string>, k: string)
    requires t.id != k
    ensures Agree(OrphanStep(rows, t, m), m, k)
  {
  }

  lemma OrphanStepSelf(rows: seq<Assessment>, a: Assessment, m: map<string, string>)
    ensures var r := OrphanStep(rows, a, m);
      match OrphanBase(a.name)
      case Some(base) =>
        if Orphaned(rows, a, base) then a.id in r && r[a.id] == base else Agree(r, m, a.id)
      case None => Agree(r, m, a.id)
  {
    match OrphanBase(a.name)
    case Some(base) => SiblingsEmpty(rows, a, base);
    case None =>
  }

  lemma {:induction false} OrphanAt(rows: seq<Assessment>, visited: seq<Assessment>, a: Assessment)
    requires a in visited
    requires forall t :: t in visited && t.id == a.id ==> t == a
    ensures var r := OrphanRenames(rows, visited);
      match OrphanBase(a.name)
      case Some(base) => (a.id in r <==> Orphaned(rows, a, base)) && (a.id in r ==> r[a.id] == base)
      case None => a.id !in r
  {
    var front := visited[..|visited| - 1];
    var last := visited[|visited| - 1];
    assert visited == front + [last];
    var before := OrphanRenames(rows, front);
    if a in front {
      OrphanAt(rows, front, a);
    } else {
      OrphanOutside(rows, front, a.id);
    }
    if last == a {
      OrphanStepSelf(rows, a, before);
    } else {
      OrphanStepOther(rows, last, before, a.id);
    }
  }

  /** A row named "<base> 2" is renamed to its base name exactly when no other row is named
      the base name or starts with it; no other row is renamed. */
  lemma OrphanRule(rows: seq<Assessment>, a: Assessment)
    requires DistinctIds(rows) && a in rows
    ensures var r := OrphanRenames(rows, rows);
      match OrphanBase(a.name)
      case Some(base) => (a.id in r <==> Orphaned(rows, a, base)) && (a.id in r ==> r[a.id] == base)
      case None => a.id !in r
  {
    IdOwner(rows, a);
    OrphanAt(rows, rows, a);
  }

  lemma OrphanKeys(rows: seq<Assessment>, k: string)
    ensures k in OrphanRenames(rows, rows) ==> k in Ids(rows)
  {
    if k !in Ids(rows) {
      OrphanOutside(rows, rows, k);
    }
  }

  /** "Quiz 2" alone is renamed "Quiz" ... */
  lemma OrphanAlone(q2: Assessment)
    requires q2.name == "Quiz 2"
    ensures OrphanRenames([q2], [q2]) == map[q2.id := "Quiz"]
  {
    OrphanBaseSpec("Quiz");
    assert q2.name == "Quiz" + " 2";
    assert [q2][..0] == [];
    assert Siblings([q2], q2, "Quiz") == [];
  }

  /** ... but beside "Quiz 1" it is not. */
  lemma OrphanBesideSibling(q1: Assessment, q2: Assessment)
    requires q2.name == "Quiz 2" && q1.name == "Quiz 1" && q1.id != q2.id
    ensures OrphanRenames([q1, q2], [q1, q2]) == map[]
  {
    var rows := [q1, q2];
    OrphanBaseSpec("Quiz");
    assert q2.name == "Quiz" + " 2";
    assert StartsWith(q1.name, "Quiz");
    assert q1 in Siblings(rows, q2, "Quiz");
    assert rows[..1] == [q1] && rows[..1][..0] == [];
    OrphanBaseNone("Quiz 1");
    assert OrphanRenames(rows, [q1]) == map[];
  }
}
