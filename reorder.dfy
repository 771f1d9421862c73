/** The reorder step of the calculator's drag and drop (page.tsx:520-593): one element
    of a list is cut out with `splice(from, 1)` and put back with `splice(to, 0, x)`,
    and the reordered display items are turned back into the flat list of records. */
module Reorder {
  import opened Common
  import opened Grouping
  import opened GroupingProps
  import opened Weights

  /** The list after `splice(i, 1)`. */
  function Without<T>(s: seq<T>, i: nat): (r: seq<T>)
    requires i < |s|
    ensures |r| == |s| - 1
  {
    s[..i] + s[i + 1..]
  }

  /** `const [x] = s.splice(from, 1); s.splice(to, 0, x)` */
  function Move<T>(s: seq<T>, from: nat, to: nat): seq<T>
    requires from < |s| && to < |s|
  {
    var rest := Without(s, from);
    rest[..to] + [s[from]] + rest[to..]
  }

  /** Moving keeps every element: the element taken at `from` is found at `to`, and with
      it taken out again the two lists are the same list. */
  lemma MoveSpec<T>(s: seq<T>, from: nat, to: nat)
    requires from < |s| && to < |s|
    ensures |Move(s, from, to)| == |s|
    ensures Move(s, from, to)[to] == s[from]
    ensures Without(Move(s, from, to), to) == Without(s, from)
    ensures multiset(Move(s, from, to)) == multiset(s)
  {
    var rest := Without(s, from);
    var r := Move(s, from, to);
    assert r[..to] == rest[..to];
    assert r[to + 1..] == rest[to..];
    assert Without(r, to) == rest;
    calc {
      multiset(r);
      multiset(rest[..to]) + multiset{s[from]} + multiset(rest[to..]);
      { assert rest == rest[..to] + rest[to..]; }
      multiset(rest) + multiset{s[from]};
      { assert s == s[..from] + [s[from]] + s[from + 1..]; }
      multiset(s);
    }
  }

  /** The index given to the second `splice`: `insertIndex` is the target's index, or the
      one after it when the pointer was not over the target's upper half, shifted down by
      one when it lies past the removed element. */
  function InsertIndex(from: nat, target: nat, before: bool): (r: nat)
    ensures from < target && before ==> r == target - 1
    ensures from < target && !before ==> r == target
    ensures target <= from && before ==> r == target
    ensures target < from && !before ==> r == target + 1
    ensures target == from && !before ==> r == target
  {
    var insertIndex := if before then target else target + 1;
    if insertIndex > from then insertIndex - 1 else insertIndex
  }

  lemma InsertIndexInRange(from: nat, target: nat, before: bool, n: nat)
    requires from < n && target < n
    ensures InsertIndex(from, target, before) < n
  {
  }

  /** The moved element lands just before the target when dropped on its upper half and
      just after it otherwise. */
  lemma MoveLandsByTarget<T>(s: seq<T>, from: nat, target: nat, before: bool)
    requires from < |s| && target < |s| && from != target
    ensures var r := Move(s, from, InsertIndex(from, target, before));
      var to := InsertIndex(from, target, before);
      r[to] == s[from] &&
      (before ==> to + 1 < |r| && r[to + 1] == s[target]) &&
      (!before ==> 0 < to && r[to - 1] == s[target])
  {
    var to := InsertIndex(from, target, before);
    MoveSpec(s, from, to);
    var rest := Without(s, from);
    var r := Move(s, from, to);
    if before {
      assert r[to + 1] == rest[to];
    } else {
      assert r[to - 1] == rest[to - 1];
    }
  }

  // ---------------------------------------------------------------------------
  // Back to records (page.tsx:575-590)
  // ---------------------------------------------------------------------------

  /** `assessments.find(a => a.id === x.id)`, pushed when found. */
  function Found(flat: seq<Assessment>, x: Assessment): seq<Assessment> {
    match FindById(flat, x.id)
    case Some(a) => [a]
    case None => []
  }

  function RebuildChildren(flat: seq<Assessment>, cs: seq<Assessment>): seq<Assessment> {
    if cs == [] then [] else RebuildChildren(flat, cs[..|cs| - 1]) + Found(flat, cs[|cs| - 1])
  }

  function RebuildItem(flat: seq<Assessment>, item: DisplayItem): seq<Assessment> {
    match item
    case Single(a) => Found(flat, a)
    case Group(_, _, children, _) => RebuildChildren(flat, children)
  }

  /** `reorderedAssessments` after the `forEach` over the reordered display items. */
  function Rebuild(flat: seq<Assessment>, items: seq<DisplayItem>): seq<Assessment> {
    if items == [] then [] else Rebuild(flat, items[..|items| - 1]) + RebuildItem(flat, items[|items| - 1])
  }

  /** The `forEach` of page.tsx:576-590 that pushes each found record. */
  method RebuildLoop(flat: seq<Assessment>, items: seq<DisplayItem>) returns (reordered: seq<Assessment>)
    ensures reordered == Rebuild(flat, items)
  {
    reordered := [];
    for i := 0 to |items|
      invariant reordered == Rebuild(flat, items[..i])
    {
      assert items[..i + 1][..i] == items[..i];
      var item := items[i];
      if item.Group? {
        ghost var front := reordered;
        for j := 0 to |item.children|
          invariant reordered == front + RebuildChildren(flat, item.children[..j])
        {
          assert item.children[..j + 1][..j] == item.children[..j];
          var existingAssessment := FindById(flat, item.children[j].id);
          if existingAssessment.Some? {
            reordered := reordered + [existingAssessment.value];
          }
        }
        assert item.children[..|item.children|] == item.children;
      } else {
        var existingAssessment := FindById(flat, item.a.id);
        if existingAssessment.Some? {
          reordered := reordered + [existingAssessment.value];
        }
      }
    }
    assert items[..|items|] == items;
  }

  /** Every record of `s` is the one `find` returns for its id. */
  predicate AllFound(flat: seq<Assessment>, s: seq<Assessment>) {
    forall a :: a in s ==> FindById(flat, a.id) == Some(a)
  }

  lemma {:induction false} RebuildChildrenExact(flat: seq<Assessment>, cs: seq<Assessment>)
    requires AllFound(flat, cs)
    ensures RebuildChildren(flat, cs) == cs
  {
    if cs != [] {
      var front, last := cs[..|cs| - 1], cs[|cs| - 1];
      assert last in cs;
      assert FindById(flat, last.id) == Some(last);
      assert Found(flat, last) == [last];
      assert AllFound(flat, front) by {
        forall a | a in front
          ensures FindById(flat, a.id) == Some(a)
        {
          assert a in cs;
        }
      }
      RebuildChildrenExact(flat, front);
      assert front + [last] == cs;
    }
  }

  /** When each record is found under its own id, rebuilding is flattening. */
  lemma {:induction false} RebuildIsFlatten(flat: seq<Assessment>, items: seq<DisplayItem>)
    requires AllFound(flat, Flatten(items))
    ensures Rebuild(flat, items) == Flatten(items)
  {
    if items != [] {
      var front, last := items[..|items| - 1], items[|items| - 1];
      assert Flatten(items) == Flatten(front) + Flatten([last]) by {
        FlattenAppend(front, [last]);
        assert front + [last] == items;
      }
      assert AllFound(flat, Flatten(front));
      RebuildIsFlatten(flat, front);
      match last
      case Single(a) =>
        assert a in Flatten(items);
      case Group(_, _, children, _) =>
        assert Flatten([last]) == [] + children;
        RebuildChildrenExact(flat, children);
    }
  }

  /** With distinct ids, every record of the list is the one found under its id. */
  lemma DistinctFound(flat: seq<Assessment>, s: seq<Assessment>)
    requires DistinctIds(flat)
    requires multiset(s) <= multiset(flat)
    ensures AllFound(flat, s)
  {
    forall a | a in s
      ensures FindById(flat, a.id) == Some(a)
    {
      assert a in multiset(s);
      assert a in flat;
      FindByIdSpec(flat, a.id);
      var i :| 0 <= i < |flat| && flat[i] == a;
      var j :| 0 <= j < |flat| && flat[j] == FindById(flat, a.id).value && flat[j].id == a.id
        && forall k :: 0 <= k < j ==> flat[k].id != a.id;
      assert !(i < j);
      assert !(j < i);
    }
  }

  /** Replacing one group's children by a rearrangement of them rearranges the flat list. */
  lemma {:induction false} FlattenReplaceChildren(items: seq<DisplayItem>, gi: nat, cs: seq<Assessment>)
    requires gi < |items| && items[gi].Group?
    requires multiset(cs) == multiset(items[gi].children)
    ensures multiset(Flatten(items[gi := items[gi].(children := cs)])) == multiset(Flatten(items))
    decreases |items|
  {
    var r := items[gi := items[gi].(children := cs)];
    var front := items[..|items| - 1];
    assert r[..|r| - 1] == if gi == |items| - 1 then front else front[gi := items[gi].(children := cs)];
    if gi < |items| - 1 {
      FlattenReplaceChildren(front, gi, cs);
    }
  }

  lemma FlattenInsert(a: seq<DisplayItem>, x: DisplayItem, b: seq<DisplayItem>)
    ensures multiset(Flatten(a + [x] + b)) == multiset(Flatten(a + b)) + multiset(Flatten([x]))
  {
    FlattenAppend(a + [x], b);
    FlattenAppend(a, [x]);
    FlattenAppend(a, b);
  }

  lemma SplitAt<T>(s: seq<T>, i: nat)
    requires i < |s|
    ensures s[..i] + [s[i]] + s[i + 1..] == s
  {
  }

  lemma SplitBefore<T>(s: seq<T>, i: nat)
    requires i <= |s|
    ensures s[..i] + s[i..] == s
  {
  }

  lemma FlattenWithout(items: seq<DisplayItem>, i: nat)
    requires i < |items|
    ensures multiset(Flatten(items)) == multiset(Flatten(Without(items, i))) + multiset(Flatten([items[i]]))
  {
    SplitAt(items, i);
    FlattenInsert(items[..i], items[i], items[i + 1..]);
  }

  /** Moving one display item rearranges the flat list. */
  lemma FlattenMove(items: seq<DisplayItem>, from: nat, to: nat)
    requires from < |items| && to < |items|
    ensures multiset(Flatten(Move(items, from, to))) == multiset(Flatten(items))
  {
    var rest := Without(items, from);
    FlattenWithout(items, from);
    SplitBefore(rest, to);
    FlattenInsert(rest[..to], items[from], rest[to..]);
  }
}
