/** The weight an item carries once the routing table is applied: `getEffectiveWeight` for
    a single or a collapsed group, and `getDistributedChildWeight` for a child of an
    expanded group (page.tsx:240-266). */
module EffectiveWeights {
  import opened Common
  import opened Grouping
  import opened Weights

  /** The children that are not routed away (`!droppedMap[c.id]`), in order. */
  function ActiveChildren(children: seq<Assessment>, t: Table): seq<Assessment> {
    if children == [] then []
    else ActiveChildren(children[..|children| - 1], t)
         + (if !IsDropped(t, children[|children| - 1].id) then [children[|children| - 1]] else [])
  }

  /** `activeChildrenSum` of `getEffectiveWeight`, as its loop accumulates it. */
  function ActiveSum(children: seq<Assessment>, t: Table): real {
    if children == [] then 0.0
    else ActiveSum(children[..|children| - 1], t)
         + (if !IsDropped(t, children[|children| - 1].id) then children[|children| - 1].weight else 0.0)
  }

  /** `group.children.filter(c => !droppedMap[c.id]).length` */
  function ActiveCount(children: seq<Assessment>, t: Table): nat {
    |ActiveChildren(children, t)|
  }

  /** `getEffectiveWeight(item)` */
  function EffectiveWeight(item: DisplayItem, t: Table, m: Adjustments): real {
    match item
    case Group(id, _, children, _) => ActiveSum(children, t) + AdjOf(m, id)
    case Single(a) => a.weight + AdjOf(m, a.id)
  }

  /** `getDistributedChildWeight(child, group)` */
  function DistributedChildWeight(child: Assessment, group: DisplayItem, t: Table, m: Adjustments): real
    requires group.Group?
  {
    if IsDropped(t, child.id) then 0.0
    else
      var w := child.weight + AdjOf(m, child.id);
      var g := AdjOf(m, group.id);
      var k := ActiveCount(group.children, t);
      if g != 0.0 && k > 0 then w + g / k as real else w
  }

  /** `getEffectiveWeight` with its `forEach` over the children of a group. */
  method EffectiveWeightOf(item: DisplayItem, t: Table, m: Adjustments) returns (w: real)
    ensures w == EffectiveWeight(item, t, m)
  {
    match item {
      case Group(id, _, children, _) =>
        var activeChildrenSum := 0.0;
        for i := 0 to |children|
          invariant activeChildrenSum == ActiveSum(children[..i], t)
        {
          assert children[..i + 1][..i] == children[..i];
          if !IsDropped(t, children[i].id) {
            activeChildrenSum := activeChildrenSum + children[i].weight;
          }
        }
        assert children[..|children|] == children;
        w := activeChildrenSum + AdjOf(m, id);
      case Single(a) =>
        w := a.weight + AdjOf(m, a.id);
    }
  }

  // ---------------------------------------------------------------------------
  // What the two weights mean
  // ---------------------------------------------------------------------------

  /** The loop's running sum is the weight total of the active children. */
  lemma {:induction false} ActiveSumIsSum(children: seq<Assessment>, t: Table)
    ensures ActiveSum(children, t) == SumWeights(ActiveChildren(children, t))
  {
    if children != [] {
      var front, last := children[..|children| - 1], children[|children| - 1];
      ActiveSumIsSum(front, t);
      var a := ActiveChildren(front, t);
      assert children == front + [last];
      if !IsDropped(t, last.id) {
        var r := a + [last];
        assert ActiveChildren(children, t) == r;
        assert r[..|r| - 1] == a;
        assert SumWeights(r) == SumWeights(a) + last.weight;
      } else {
        assert ActiveChildren(children, t) == a;
      }
    }
  }

  lemma {:induction false} ActiveChildrenMember(children: seq<Assessment>, t: Table, c: Assessment)
    ensures c in ActiveChildren(children, t) <==> c in children && !IsDropped(t, c.id)
  {
    if children != [] {
      ActiveChildrenMember(children[..|children| - 1], t, c);
      assert children == children[..|children| - 1] + [children[|children| - 1]];
    }
  }

  /** A collapsed group carries its active children's base weights plus its own
      adjustment: what its children gained themselves does not count. */
  lemma CollapsedIgnoresChildAdjustments(g: DisplayItem, t: Table, m1: Adjustments, m2: Adjustments)
    requires g.Group? && AdjOf(m1, g.id) == AdjOf(m2, g.id)
    ensures EffectiveWeight(g, t, m1) == EffectiveWeight(g, t, m2)
    ensures EffectiveWeight(g, t, m1) == SumWeights(ActiveChildren(g.children, t)) + AdjOf(m1, g.id)
  {
    ActiveSumIsSum(g.children, t);
  }

  /** A child that is routed away carries nothing; any other child of the group carries
      its weight, its own adjustment and an equal share of the group's adjustment. The
      `groupAdjustment !== 0` guard of the source changes nothing. */
  lemma DistributedChildFormula(child: Assessment, g: DisplayItem, t: Table, m: Adjustments)
    requires g.Group? && child in g.children
    ensures IsDropped(t, child.id) ==> DistributedChildWeight(child, g, t, m) == 0.0
    ensures !IsDropped(t, child.id) ==>
      ActiveCount(g.children, t) > 0 &&
      DistributedChildWeight(child, g, t, m)
        == child.weight + AdjOf(m, child.id) + AdjOf(m, g.id) / ActiveCount(g.children, t) as real
  {
    ActiveChildrenMember(g.children, t, child);
  }

  /** The adjustments of the active children, added up. */
  function ActiveAdjSum(children: seq<Assessment>, t: Table, m: Adjustments): real {
    if children == [] then 0.0
    else ActiveAdjSum(children[..|children| - 1], t, m)
         + (if !IsDropped(t, children[|children| - 1].id) then AdjOf(m, children[|children| - 1].id) else 0.0)
  }

  /** What the children `cs` of `g` carry in the expanded view, added up. */
  function DistributedSum(cs: seq<Assessment>, g: DisplayItem, t: Table, m: Adjustments): real
    requires g.Group?
  {
    if cs == [] then 0.0
    else DistributedSum(cs[..|cs| - 1], g, t, m) + DistributedChildWeight(cs[|cs| - 1], g, t, m)
  }

  /** The share of the group's adjustment that each active child receives. */
  function Share(g: DisplayItem, t: Table, m: Adjustments): real
    requires g.Group?
  {
    var k := ActiveCount(g.children, t);
    if AdjOf(m, g.id) != 0.0 && k > 0 then AdjOf(m, g.id) / k as real else 0.0
  }

  lemma {:induction false} DistributedSumPrefix(cs: seq<Assessment>, g: DisplayItem, t: Table, m: Adjustments)
    requires g.Group?
    ensures DistributedSum(cs, g, t, m)
         == ActiveSum(cs, t) + ActiveAdjSum(cs, t, m) + Times(ActiveCount(cs, t), Share(g, t, m))
  {
    if cs != [] {
      var front, last := cs[..|cs| - 1], cs[|cs| - 1];
      DistributedSumPrefix(front, g, t, m);
      if !IsDropped(t, last.id) {
        assert ActiveCount(cs, t) == ActiveCount(front, t) + 1;
      } else {
        assert ActiveCount(cs, t) == ActiveCount(front, t);
      }
    }
  }

  /** The expanded view of a group carries, in total, its active children's weights and
      adjustments plus the whole group adjustment, when some child is active; with every
      child routed away it carries nothing. */
  lemma ExpandedGroupTotal(g: DisplayItem, t: Table, m: Adjustments)
    requires g.Group?
    ensures ActiveCount(g.children, t) > 0 ==>
      DistributedSum(g.children, g, t, m)
        == SumWeights(ActiveChildren(g.children, t)) + ActiveAdjSum(g.children, t, m) + AdjOf(m, g.id)
    ensures ActiveCount(g.children, t) == 0 ==> DistributedSum(g.children, g, t, m) == 0.0
  {
    var k := ActiveCount(g.children, t);
    DistributedSumPrefix(g.children, g, t, m);
    ActiveSumIsSum(g.children, t);
    TimesIsProduct(k, Share(g, t, m));
    if k == 0 {
      NoActiveChildren(g.children, t, m);
    } else if AdjOf(m, g.id) != 0.0 {
      assert k as real * (AdjOf(m, g.id) / k as real) == AdjOf(m, g.id);
    }
  }

  lemma {:induction false} NoActiveChildren(cs: seq<Assessment>, t: Table, m: Adjustments)
    requires ActiveCount(cs, t) == 0
    ensures ActiveSum(cs, t) == 0.0 && ActiveAdjSum(cs, t, m) == 0.0
  {
    if cs != [] {
      NoActiveChildren(cs[..|cs| - 1], t, m);
    }
  }

  /** When no child has an adjustment of its own, expanding a group with an active child
      does not change the weight it carries. */
  lemma ExpandedMatchesCollapsed(g: DisplayItem, t: Table, m: Adjustments)
    requires g.Group? && ActiveCount(g.children, t) > 0
    requires forall c :: c in g.children ==> AdjOf(m, c.id) == 0.0
    ensures DistributedSum(g.children, g, t, m) == EffectiveWeight(g, t, m)
  {
    ExpandedGroupTotal(g, t, m);
    ActiveSumIsSum(g.children, t);
    NoChildAdjustments(g.children, t, m);
  }

  lemma {:induction false} NoChildAdjustments(cs: seq<Assessment>, t: Table, m: Adjustments)
    requires forall c :: c in cs ==> AdjOf(m, c.id) == 0.0
    ensures ActiveAdjSum(cs, t, m) == 0.0
  {
    if cs != [] {
      NoChildAdjustments(cs[..|cs| - 1], t, m);
    }
  }

  /** With non-negative weights and adjustments, every effective weight is non-negative. */
  lemma EffectiveNonNegative(item: DisplayItem, t: Table, m: Adjustments)
    requires item.Single? ==> item.a.weight >= 0.0
    requires item.Group? ==> forall c :: c in item.children ==> c.weight >= 0.0
    requires forall k :: AdjOf(m, k) >= 0.0
    ensures EffectiveWeight(item, t, m) >= 0.0
  {
    if item.Group? {
      ActiveSumNonNegative(item.children, t);
    }
  }

  lemma {:induction false} ActiveSumNonNegative(cs: seq<Assessment>, t: Table)
    requires forall c :: c in cs ==> c.weight >= 0.0
    ensures ActiveSum(cs, t) >= 0.0
  {
    if cs != [] {
      ActiveSumNonNegative(cs[..|cs| - 1], t);
      assert cs[|cs| - 1] in cs;
    }
  }

  lemma DistributedNonNegative(child: Assessment, g: DisplayItem, t: Table, m: Adjustments)
    requires g.Group? && child.weight >= 0.0
    requires AdjOf(m, child.id) >= 0.0 && AdjOf(m, g.id) >= 0.0
    ensures DistributedChildWeight(child, g, t, m) >= 0.0
  {
  }
}
