/** The last two phases of the duplicate cleaner for one course
    (scripts/clean-assessments.ts:269-349): rows that share a name but not a weight are
    resolved by trying every choice of one row per name and keeping the choice whose weights
    total closest to 100; then a row named like "Quiz 2" with no other row of its base name
    is renamed to the base name. The rows each phase reads back from the database are
    parameters. */
module CleanFinal {
  import opened Common
  import opened CleanText
  import opened CleanGroups
  import opened CleanPasses

  // ---------------------------------------------------------------------------
  // Name groups (lines 273-285)
  // ---------------------------------------------------------------------------

  function NameKey(a: Assessment): Option<string> {
    Some(a.name)
  }

  /** `Object.values(nameGroups)` */
  function NameGroups(current: seq<Assessment>): seq<Bucket<string>> {
    ObjectOrder(Collect(current, NameKey), BucketKey)
  }

  /** `duplicateNames`: the groups of two rows or more, in order. */
  function Duplicated(groups: seq<Bucket<string>>): (r: seq<Bucket<string>>)
    ensures forall g :: g in r <==> g in groups && |g.items| > 1
  {
    if groups == [] then []
    else
      var g := groups[|groups| - 1];
      Duplicated(groups[..|groups| - 1]) + (if |g.items| > 1 then [g] else [])
  }

  /** `nameGroups[name].length` */
  function NameCount(current: seq<Assessment>, name: string): nat {
    |WithKey(current, NameKey, name)|
  }

  /** `list.reduce((s, a) => s + a.weight, 0)` */
  function WeightSum(s: seq<Assessment>): real {
    if s == [] then 0.0 else WeightSum(s[..|s| - 1]) + s[|s| - 1].weight
  }

  /** The rows whose name no other row has. */
  function Singles(current: seq<Assessment>): (r: seq<Assessment>)
    ensures forall a :: a in r <==> a in current && NameCount(current, a.name) == 1
  {
    SinglesOf(current, current)
  }

  function SinglesOf(current: seq<Assessment>, rows: seq<Assessment>): (r: seq<Assessment>)
    ensures forall a :: a in r <==> a in rows && NameCount(current, a.name) == 1
  {
    if rows == [] then []
    else
      var a := rows[|rows| - 1];
      SinglesOf(current, rows[..|rows| - 1]) + (if NameCount(current, a.name) == 1 then [a] else [])
  }

  /** `nonDuplicateSum` */
  function NonDuplicateSum(current: seq<Assessment>): real {
    WeightSum(Singles(current))
  }

  // ---------------------------------------------------------------------------
  // The search (lines 286-304)
  // ---------------------------------------------------------------------------

  function Abs(x: real): (r: real)
    ensures r >= 0.0 && (r == x || r == -x)
  {
    if x < 0.0 then -x else x
  }

  /** `Math.abs(currentSum - 100)` for a selection. */
  function Diff(base: real, selection: seq<Assessment>): real {
    Abs(base + WeightSum(selection) - 100.0)
  }

  /** `bestDiff` and `bestCombination` once some selection has been tried; `None` is the
      initial `Infinity`. */
  datatype Best = Best(diff: real, combo: seq<Assessment>)

  /** The leaf of `solve`: a selection replaces the best only when strictly closer. */
  function Pick(base: real, best: Option<Best>, selection: seq<Assessment>): (r: Option<Best>)
    ensures r.Some?
  {
    if best.None? || Diff(base, selection) < best.value.diff then Some(Best(Diff(base, selection), selection)) else best
  }

  function FoldPick(base: real, best: Option<Best>, leaves: seq<seq<Assessment>>): Option<Best> {
    if leaves == [] then best else Pick(base, FoldPick(base, best, leaves[..|leaves| - 1]), leaves[|leaves| - 1])
  }

  /** The selections `solve(index, selection)` reaches, in the order it reaches them. */
  function Leaves(dups: seq<Bucket<string>>, index: nat, selection: seq<Assessment>): seq<seq<Assessment>>
    requires index <= |dups|
    decreases |dups| - index, 1
  {
    if index == |dups| then [selection] else LeavesFrom(dups, index, selection, |dups[index].items|)
  }

  /** The selections reached through the first `j` candidates of group `index`. */
  function LeavesFrom(dups: seq<Bucket<string>>, index: nat, selection: seq<Assessment>, j: nat): seq<seq<Assessment>>
    requires index < |dups| && j <= |dups[index].items|
    decreases |dups| - index, 0, j
  {
    if j == 0 then []
    else LeavesFrom(dups, index, selection, j - 1) + Leaves(dups, index + 1, selection + [dups[index].items[j - 1]])
  }

  lemma {:induction false} FoldPickAppend(base: real, best: Option<Best>, xs: seq<seq<Assessment>>, ys: seq<seq<Assessment>>)
    ensures FoldPick(base, best, xs + ys) == FoldPick(base, FoldPick(base, best, xs), ys)
    decreases |ys|
  {
    if ys == [] {
      assert xs + ys == xs;
    } else {
      assert (xs + ys)[..|xs + ys| - 1] == xs + ys[..|ys| - 1];
      FoldPickAppend(base, best, xs, ys[..|ys| - 1]);
    }
  }

  /** `solve(index, selection)`, with the closure's `bestDiff` and `bestCombination` passed
      in and out. */
  method Solve(dups: seq<Bucket<string>>, base: real, index: nat, selection: seq<Assessment>, best: Option<Best>)
    returns (best': Option<Best>)
    requires index <= |dups|
    ensures best' == FoldPick(base, best, Leaves(dups, index, selection))
    decreases |dups| - index
  {
    if index == |dups| {
      assert [selection][..0] == [];
      best' := Pick(base, best, selection);
      return;
    }
    var candidates := dups[index].items;
    best' := best;
    for j := 0 to |candidates|
      invariant best' == FoldPick(base, best, LeavesFrom(dups, index, selection, j))
    {
      FoldPickAppend(base, best, LeavesFrom(dups, index, selection, j), Leaves(dups, index + 1, selection + [candidates[j]]));
      best' := Solve(dups, base, index + 1, selection + [candidates[j]], best');
    }
  }

  // ---------------------------------------------------------------------------
  // The losers (lines 306-324)
  // ---------------------------------------------------------------------------

  /** `bestCombination` after `solve(0, [])`. */
  function BestCombination(dups: seq<Bucket<string>>, base: real): seq<Assessment> {
    match FoldPick(base, None, Leaves(dups, 0, []))
    case Some(b) => b.combo
    case None => []
  }

  /** `duplicateNames[i].filter(a => a.id !== winner.id)` */
  function Others(items: seq<Assessment>, winner: Assessment): (r: seq<Assessment>)
    ensures forall a {:trigger a in r} :: a in r <==> a in items && a.id != winner.id
  {
    if items == [] then []
    else Others(items[..|items| - 1], winner) + (if items[|items| - 1].id != winner.id then [items[|items| - 1]] else [])
  }

  /** `toDeleteRound2` after the loop has visited the first `k` groups. The selection always
      has one row per group (`BestCombinationLength`); the guard only keeps this total. */
  function ConflictLosers(dups: seq<Bucket<string>>, combo: seq<Assessment>, k: nat): set<string>
    requires k <= |dups|
  {
    if k == 0 then {}
    else ConflictLosers(dups, combo, k - 1) + (if k - 1 < |combo| then Ids(Others(dups[k - 1].items, combo[k - 1])) else {})
  }

  /** The rows phase 5 deletes. */
  function KnapsackSpec(current: seq<Assessment>): set<string> {
    if current == [] then {}
    else
      var dups := Duplicated(NameGroups(current));
      if |dups| == 0 || |dups| > 15 then {}
      else ConflictLosers(dups, BestCombination(dups, NonDuplicateSum(current)), |dups|)
  }

  method PushLosers(items: seq<Assessment>, winner: Assessment, toDelete: set<string>) returns (td: set<string>)
    ensures td == toDelete + Ids(Others(items, winner))
  {
    var losers := Others(items, winner);
    td := toDelete;
    for i := 0 to |losers|
      invariant td == toDelete + Ids(losers[..i])
    {
      assert losers[..i + 1] == losers[..i] + [losers[i]];
      td := td + {losers[i].id};
    }
    assert losers[..|losers|] == losers;
  }

  /** Lines 306-314. */
  method DropConflictLosers(dups: seq<Bucket<string>>, combo: seq<Assessment>) returns (td: set<string>)
    requires |combo| == |dups|
    ensures td == ConflictLosers(dups, combo, |dups|)
  {
    td := {};
    for i := 0 to |dups|
      invariant td == ConflictLosers(dups, combo, i)
    {
      ConflictLosersStep(dups, combo, i);
      td := PushLosers(dups[i].items, combo[i], td);
    }
  }

  lemma ConflictLosersStep(dups: seq<Bucket<string>>, combo: seq<Assessment>, i: nat)
    requires i < |dups| && i < |combo|
    ensures ConflictLosers(dups, combo, i + 1) == ConflictLosers(dups, combo, i) + Ids(Others(dups[i].items, combo[i]))
  {
  }

  /** Every leaf has one row per group. */
  lemma {:induction false} LeavesLength(dups: seq<Bucket<string>>, index: nat, selection: seq<Assessment>)
    requires index <= |dups| && |selection| == index
    ensures forall l :: l in Leaves(dups, index, selection) ==> |l| == |dups|
    decreases |dups| - index, 1
  {
    if index < |dups| {
      LeavesFromLength(dups, index, selection, |dups[index].items|);
    }
  }

  lemma {:induction false} LeavesFromLength(dups: seq<Bucket<string>>, index: nat, selection: seq<Assessment>, j: nat)
    requires index < |dups| && j <= |dups[index].items| && |selection| == index
    ensures forall l :: l in LeavesFrom(dups, index, selection, j) ==> |l| == |dups|
    decreases |dups| - index, 0, j
  {
    if j > 0 {
      LeavesFromLength(dups, index, selection, j - 1);
      LeavesLength(dups, index + 1, selection + [dups[index].items[j - 1]]);
    }
  }

  /** The best selection, when there is one, is one of the leaves. */
  lemma {:induction false} FoldPickFrom(base: real, best: Option<Best>, leaves: seq<seq<Assessment>>)
    ensures var r := FoldPick(base, best, leaves);
      r.Some? ==> r == best || r.value.combo in leaves
  {
    if leaves != [] {
      FoldPickFrom(base, best, leaves[..|leaves| - 1]);
    }
  }

  /** When every group has a row, `solve` reaches some leaf. */
  lemma {:induction false} LeavesNonEmpty(dups: seq<Bucket<string>>, index: nat, selection: seq<Assessment>)
    requires index <= |dups| && forall g :: g in dups ==> g.items != []
    ensures Leaves(dups, index, selection) != []
    decreases |dups| - index
  {
    if index < |dups| {
      var n := |dups[index].items|;
      assert dups[index] in dups;
      LeavesNonEmpty(dups, index + 1, selection + [dups[index].items[n - 1]]);
    }
  }

  lemma {:induction false} FoldPickSome(base: real, best: Option<Best>, leaves: seq<seq<Assessment>>)
    ensures leaves != [] ==> FoldPick(base, best, leaves).Some?
  {
  }

  /** When every group has a row, `bestCombination` has one row per group. */
  lemma BestCombinationLength(dups: seq<Bucket<string>>, base: real)
    requires forall g :: g in dups ==> g.items != []
    ensures |BestCombination(dups, base)| == |dups|
    ensures FoldPick(base, None, Leaves(dups, 0, [])).Some?
  {
    LeavesLength(dups, 0, []);
    LeavesNonEmpty(dups, 0, []);
    FoldPickSome(base, None, Leaves(dups, 0, []));
    FoldPickFrom(base, None, Leaves(dups, 0, []));
  }

  /** Phase 5 (lines 269-326) for the rows read back after the first deletions. */
  method ResolveWeightConflicts(current: seq<Assessment>) returns (td: set<string>)
    ensures td == KnapsackSpec(current)
  {
    if |current| == 0 {
      return {};
    }
    var collected := CollectGroups(current, NameKey);
    var nameGroups := ObjectOrder(collected, BucketKey);
    var dups := Duplicated(nameGroups);
    td := {};
    if |dups| > 0 {
      var base := NonDuplicateSum(current);
      if |dups| <= 15 {
        var best := Solve(dups, base, 0, [], None);
        BestCombinationLength(dups, base);
        td := DropConflictLosers(dups, best.value.combo);
      }
    }
  }

  // ---------------------------------------------------------------------------
  // Orphans (lines 328-349)
  // ---------------------------------------------------------------------------

  /** `finalRemaining.filter(r => r.id !== a.id && (r.name === baseName || r.name.startsWith(baseName)))` */
  function Siblings(rows: seq<Assessment>, a: Assessment, base: string): (r: seq<Assessment>)
    ensures forall b :: b in r <==> b in rows && b.id != a.id && (b.name == base || StartsWith(b.name, base))
  {
    if rows == [] then []
    else
      var b := rows[|rows| - 1];
      Siblings(rows[..|rows| - 1], a, base) + (if b.id != a.id && (b.name == base || StartsWith(b.name, base)) then [b] else [])
  }

  /** One turn of the loop of lines 333-348. */
  function OrphanStep(rows: seq<Assessment>, a: Assessment, m: map<string, string>): map<string, string> {
    match OrphanBase(a.name)
    case Some(base) => if Siblings(rows, a, base) == [] then m[a.id := base] else m
    case None => m
  }

  /** The renames of the loop over `visited`. */
  function OrphanRenames(rows: seq<Assessment>, visited: seq<Assessment>): map<string, string> {
    if visited == [] then map[]
    else OrphanStep(rows, visited[|visited| - 1], OrphanRenames(rows, visited[..|visited| - 1]))
  }

  method JudgeOrphan(rows: seq<Assessment>, a: Assessment, renames: map<string, string>) returns (r: map<string, string>)
    ensures r == OrphanStep(rows, a, renames)
  {
    r := renames;
    var m := OrphanBase(a.name);
    if m.Some? {
      var baseName := m.value;
      var siblings := Siblings(rows, a, baseName);
      if |siblings| == 0 {
        r := r[a.id := baseName];
      }
    }
  }

  method RenameOrphans(rows: seq<Assessment>) returns (renames: map<string, string>)
    ensures renames == OrphanRenames(rows, rows)
  {
    renames := map[];
    for i := 0 to |rows|
      invariant renames == OrphanRenames(rows, rows[..i])
    {
      assert rows[..i + 1][..i] == rows[..i];
      renames := JudgeOrphan(rows, rows[i], renames);
    }
    assert rows[..|rows|] == rows;
  }

  // ---------------------------------------------------------------------------
  // After the first phase
  // ---------------------------------------------------------------------------

  /** Phases 5 and 4 for one course: the rows deleted for weight conflicts and the orphan
      renames. `current` and `finalRemaining` are what the two reads return; an empty
      `current` ends the course before the orphans. */
  method FinishCourse(current: seq<Assessment>, finalRemaining: seq<Assessment>)
    returns (conflicts: set<string>, renames: map<string, string>)
    ensures conflicts == KnapsackSpec(current)
    ensures renames == (if current == [] then map[] else OrphanRenames(finalRemaining, finalRemaining))
  {
    if |current| == 0 {
      return {}, map[];
    }
    conflicts := ResolveWeightConflicts(current);
    renames := RenameOrphans(finalRemaining);
  }
}
