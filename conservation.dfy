/** Conservation of weight under the adjustment fold (page.tsx:124-161, 240-266): when the
    routing table is well formed, what the undropped records carry in the expanded view
    adds up to the base weights of all records. */
module Conservation {
  import opened Common
  import opened Grouping
  import opened GroupingProps
  import opened Weights
  import opened EffectiveWeights

  // ---------------------------------------------------------------------------
  // The quantity the fold keeps
  // ---------------------------------------------------------------------------

  /** Weight plus adjustment of the records of `L` whose id is not in `done`. */
  function LeafMass(L: seq<Assessment>, m: Adjustments, done: set<string>): real {
    if L == [] then 0.0
    else LeafMass(L[..|L| - 1], m, done)
         + (if L[|L| - 1].id in done then 0.0 else L[|L| - 1].weight + AdjOf(m, L[|L| - 1].id))
  }

  /** The adjustments of the ids `G`, added up. */
  function GroupMass(G: seq<string>, m: Adjustments): real {
    if G == [] then 0.0 else GroupMass(G[..|G| - 1], m) + AdjOf(m, G[|G| - 1])
  }

  function Mass(L: seq<Assessment>, G: seq<string>, m: Adjustments, done: set<string>): real {
    LeafMass(L, m, done) + GroupMass(G, m)
  }

  /** The ids of the groups among the display items, in order. */
  function GroupIds(items: seq<DisplayItem>): seq<string> {
    if items == [] then []
    else GroupIds(items[..|items| - 1]) + (if items[|items| - 1].Group? then [items[|items| - 1].id] else [])
  }

  /** The sources of the entries of `t`. */
  function SourceSet(t: Table): set<string> {
    if t == [] then {} else SourceSet(t[..|t| - 1]) + {t[|t| - 1].source}
  }

  // ---------------------------------------------------------------------------
  // How one change of the adjustments moves the quantity
  // ---------------------------------------------------------------------------

  lemma {:induction false} IdsPrefix(L: seq<Assessment>)
    requires L != []
    ensures Ids(L) == Ids(L[..|L| - 1]) + {L[|L| - 1].id}
  {
    assert L == L[..|L| - 1] + [L[|L| - 1]];
    forall x | x in Ids(L)
      ensures x in Ids(L[..|L| - 1]) + {L[|L| - 1].id}
    {
      var a :| a in L && a.id == x;
      if a != L[|L| - 1] {
        assert a in L[..|L| - 1];
      }
    }
  }

  lemma DistinctFront(L: seq<Assessment>)
    requires L != [] && DistinctIds(L)
    ensures DistinctIds(L[..|L| - 1]) && L[|L| - 1].id !in Ids(L[..|L| - 1])
  {
  }

  lemma DistinctStringsFront(G: seq<string>)
    requires G != [] && Distinct(G)
    ensures Distinct(G[..|G| - 1]) && G[|G| - 1] !in G[..|G| - 1]
  {
  }

  /** Adding `d` to the adjustment of `k` adds `d` to the quantity exactly when `k` is the
      id of a record not yet retired. */
  lemma {:induction false} LeafMassAdd(L: seq<Assessment>, m: Adjustments, done: set<string>, k: string, d: real)
    requires DistinctIds(L)
    ensures LeafMass(L, AddTo(m, k, d), done) == LeafMass(L, m, done) + (if k in Ids(L) && k !in done then d else 0.0)
  {
    if L != [] {
      var front := L[..|L| - 1];
      DistinctFront(L);
      IdsPrefix(L);
      LeafMassAdd(front, m, done, k, d);
    }
  }

  lemma {:induction false} GroupMassAdd(G: seq<string>, m: Adjustments, k: string, d: real)
    requires Distinct(G)
    ensures GroupMass(G, AddTo(m, k, d)) == GroupMass(G, m) + (if k in G then d else 0.0)
  {
    if G != [] {
      var front := G[..|G| - 1];
      DistinctStringsFront(G);
      assert G == front + [G[|G| - 1]];
      GroupMassAdd(front, m, k, d);
    }
  }

  /** Retiring record `a` (its entry has been folded) takes its weight and adjustment out. */
  lemma {:induction false} LeafMassRetire(L: seq<Assessment>, m: Adjustments, done: set<string>, a: Assessment)
    requires DistinctIds(L) && a in L && a.id !in done
    ensures LeafMass(L, m, done + {a.id}) == LeafMass(L, m, done) - (a.weight + AdjOf(m, a.id))
  {
    var front, last := L[..|L| - 1], L[|L| - 1];
    DistinctFront(L);
    assert L == front + [last];
    if last == a {
      LeafMassIgnores(front, m, done, a.id);
    } else {
      assert a in front;
      assert last.id != a.id by {
        assert a.id in Ids(front);
      }
      LeafMassRetire(front, m, done, a);
    }
  }

  lemma {:induction false} LeafMassIgnores(L: seq<Assessment>, m: Adjustments, done: set<string>, x: string)
    requires x !in Ids(L)
    ensures LeafMass(L, m, done + {x}) == LeafMass(L, m, done)
  {
    if L != [] {
      IdsPrefix(L);
      LeafMassIgnores(L[..|L| - 1], m, done, x);
    }
  }

  /** Sharing `per` with each of `rs` adds `|rs|` shares when every one of them is a record
      not yet retired, and leaves the group adjustments alone. */
  lemma {:induction false} ShareAllMass(L: seq<Assessment>, G: seq<string>, m: Adjustments, done: set<string>,
                                        rs: seq<Assessment>, per: real)
    requires DistinctIds(L) && Distinct(G)
    requires forall r :: r in rs ==> r.id in Ids(L) && r.id !in done && r.id !in G
    ensures LeafMass(L, ShareAll(m, rs, per), done) == LeafMass(L, m, done) + Times(|rs|, per)
    ensures GroupMass(G, ShareAll(m, rs, per)) == GroupMass(G, m)
  {
    if rs != [] {
      var front, r := rs[..|rs| - 1], rs[|rs| - 1];
      assert r in rs;
      assert forall x :: x in front ==> x in rs;
      ShareAllMass(L, G, m, done, front, per);
      LeafMassAdd(L, ShareAll(m, front, per), done, r.id, per);
      GroupMassAdd(G, ShareAll(m, front, per), r.id, per);
    }
  }

  /** With nothing adjusted and nothing retired, the quantity is the total base weight. */
  lemma MassInitial(L: seq<Assessment>, G: seq<string>)
    ensures Mass(L, G, map[], {}) == SumWeights(L)
  {
    LeafMassInitial(L);
    GroupMassInitial(G);
  }

  lemma {:induction false} LeafMassInitial(L: seq<Assessment>)
    ensures LeafMass(L, map[], {}) == SumWeights(L)
  {
    if L != [] {
      LeafMassInitial(L[..|L| - 1]);
    }
  }

  lemma {:induction false} GroupMassInitial(G: seq<string>)
    ensures GroupMass(G, map[]) == 0.0
  {
    if G != [] {
      GroupMassInitial(G[..|G| - 1]);
    }
  }

  // ---------------------------------------------------------------------------
  // The conditions and the fold
  // ---------------------------------------------------------------------------

  /** The routing table `T` over the display items (all expanded, nothing removed) is well
      formed: ids are unique and apart, every source is a record, every target is the
      sentinel, a record or a group, no entry targets the source of itself or of an earlier
      entry, every even distribution has someone to receive it, and every targeted group
      keeps a child that is not routed away. */
  ghost predicate WellFormed(flat: seq<Assessment>, items: seq<DisplayItem>, T: Table) {
    var L := Flatten(items);
    var G := GroupIds(items);
    DistinctIds(L) && Distinct(G)
    && (forall a :: a in L ==> a.id !in G && FindById(flat, a.id) == Some(a))
    && DistributeEvenlyId !in Ids(L) && DistributeEvenlyId !in G
    && KeysUnique(T)
    && (forall i :: 0 <= i < |T| ==> T[i].source in Ids(L))
    && (forall i :: 0 <= i < |T| ==>
          T[i].target != "" && (T[i].target == DistributeEvenlyId || T[i].target in Ids(L) || T[i].target in G))
    && (forall i, j :: 0 <= i <= j < |T| ==> T[j].target != T[i].source)
    && (forall i :: 0 <= i < |T| && T[i].target == DistributeEvenlyId ==> |Recipients(items, T, {}, T[i].source)| > 0)
    && (forall i, j :: 0 <= i < |T| && 0 <= j < |items| && items[j].Group? && T[i].target == items[j].id ==>
          ActiveCount(items[j].children, T) > 0)
  }

  lemma {:induction false} SourceSetMember(t: Table, x: string)
    ensures x in SourceSet(t) <==> exists j :: 0 <= j < |t| && t[j].source == x
  {
    if t != [] {
      var front := t[..|t| - 1];
      SourceSetMember(front, x);
      if exists j :: 0 <= j < |t| && t[j].source == x {
        var j :| 0 <= j < |t| && t[j].source == x;
        if j < |front| {
          assert front[j] == t[j];
        }
      }
      if exists j :: 0 <= j < |front| && front[j].source == x {
        var j :| 0 <= j < |front| && front[j].source == x;
        assert t[j] == front[j];
      }
    }
  }

  /** With no empty target, a record is routed away exactly when it is a source. */
  lemma DroppedIsSource(T: Table, x: string)
    requires forall i :: 0 <= i < |T| ==> T[i].target != ""
    ensures IsDropped(T, x) <==> x in SourceSet(T)
  {
    LookupSpec(T, x);
    SourcesSpec(T);
    SourceSetMember(T, x);
    if Lookup(T, x).Some? {
      var i :| 0 <= i < |T| && T[i] == Route(x, Lookup(T, x).value);
    }
    if x in SourceSet(T) {
      var j :| 0 <= j < |T| && T[j].source == x;
      assert Sources(T)[j] == x;
    }
  }

  lemma {:induction false} InFlatten(items: seq<DisplayItem>, i: int, a: Assessment)
    requires 0 <= i < |items|
    requires items[i] == Single(a) || (items[i].Group? && a in items[i].children)
    ensures a in Flatten(items)
  {
    var front := items[..|items| - 1];
    if i < |front| {
      assert front[i] == items[i];
      InFlatten(front, i, a);
    }
  }

  lemma InGroupIds(items: seq<DisplayItem>, j: int)
    requires 0 <= j < |items| && items[j].Group?
    ensures items[j].id in GroupIds(items)
    decreases |items|
  {
    var front := items[..|items| - 1];
    if j < |front| {
      assert front[j] == items[j];
      InGroupIds(front, j);
    }
  }

  /** A record that shares an even distribution is a record of the items that no entry
      routes away. */
  lemma RecipientFacts(flat: seq<Assessment>, items: seq<DisplayItem>, T: Table, s: string, r: Assessment)
    requires WellFormed(flat, items, T)
    requires r in Recipients(items, T, {}, s)
    ensures r in Flatten(items) && r.id in Ids(Flatten(items)) && r.id !in SourceSet(T) && r.id !in GroupIds(items)
  {
    RecipientsMember(items, T, {}, s, r);
    var i :| SharesAt(items, T, {}, s, r, i);
    InFlatten(items, i, r);
    DroppedIsSource(T, r.id);
  }

  lemma PrefixSources(T: Table, i: nat, x: string)
    requires i <= |T| && x in SourceSet(T[..i])
    ensures x in SourceSet(T)
  {
    SourceSetMember(T[..i], x);
    SourceSetMember(T, x);
    var j :| 0 <= j < i && T[..i][j].source == x;
    assert T[j] == T[..i][j];
  }

  /** An entry with a specific target moves the source's weight and adjustment to a record
      not yet retired or to a group. */
  lemma TargetMass(flat: seq<Assessment>, items: seq<DisplayItem>, T: Table, L: seq<Assessment>, G: seq<string>,
                   m: Adjustments, done: set<string>, e: Route, a: Assessment)
    requires DistinctIds(L) && Distinct(G)
    requires a in L && a.id == e.source && FindById(flat, e.source) == Some(a) && e.source !in done
    requires e.target != DistributeEvenlyId && e.target !in done + {e.source}
    requires (e.target in Ids(L)) != (e.target in G)
    ensures Mass(L, G, Step(flat, items, T, {}, m, e), done + {e.source}) == Mass(L, G, m, done)
  {
    var sw := a.weight + AdjOf(m, e.source);
    assert Step(flat, items, T, {}, m, e) == AddTo(m, e.target, sw);
    LeafMassRetire(L, m, done, a);
    LeafMassAdd(L, m, done + {e.source}, e.target, sw);
    GroupMassAdd(G, m, e.target, sw);
  }

  /** An even distribution moves the source's weight and adjustment, in equal shares, to
      records not yet retired. */
  lemma SpreadMass(L: seq<Assessment>, G: seq<string>, m: Adjustments, done: set<string>, a: Assessment,
                   rs: seq<Assessment>)
    requires DistinctIds(L) && Distinct(G)
    requires a in L && a.id !in done
    requires |rs| > 0
    requires forall r :: r in rs ==> r.id in Ids(L) && r.id !in done + {a.id} && r.id !in G
    ensures Mass(L, G, Distribute(m, rs, a.weight + AdjOf(m, a.id)), done + {a.id}) == Mass(L, G, m, done)
  {
    var sw := a.weight + AdjOf(m, a.id);
    var per := sw / |rs| as real;
    var m' := Distribute(m, rs, sw);
    assert m' == ShareAll(m, rs, per);
    LeafMassRetire(L, m, done, a);
    ShareAllMass(L, G, m, done + {a.id}, rs, per);
    SharesAddUp(|rs|, sw);
    assert LeafMass(L, m', done + {a.id}) == LeafMass(L, m, done) - sw + sw;
    assert GroupMass(G, m') == GroupMass(G, m);
  }

  /** `n` equal shares of `x` add up to `x`. */
  lemma SharesAddUp(n: nat, x: real)
    requires n > 0
    ensures Times(n, x / n as real) == x
  {
    TimesIsProduct(n, x / n as real);
  }

  lemma FoldPrefix(flat: seq<Assessment>, items: seq<DisplayItem>, T: Table, i: nat)
    requires i < |T|
    ensures Fold(flat, items, T, {}, T[..i + 1]) == Step(flat, items, T, {}, Fold(flat, items, T, {}, T[..i]), T[i])
    ensures SourceSet(T[..i + 1]) == SourceSet(T[..i]) + {T[i].source}
  {
    assert T[..i + 1][..i] == T[..i] && T[..i + 1][i] == T[i];
  }

  /** The source of an entry is not the source of an earlier one. */
  lemma SourceFresh(T: Table, i: nat)
    requires KeysUnique(T) && i < |T|
    ensures T[i].source !in SourceSet(T[..i])
  {
    SourceSetMember(T[..i], T[i].source);
    assert forall j :: 0 <= j < i ==> T[..i][j] == T[j];
  }

  /** The target of an entry is not the source of that entry or of an earlier one. */
  lemma TargetFresh(T: Table, i: nat)
    requires forall i, j :: 0 <= i <= j < |T| ==> T[j].target != T[i].source
    requires i < |T|
    ensures T[i].target !in SourceSet(T[..i + 1])
  {
    SourceSetMember(T[..i + 1], T[i].target);
    assert forall j :: 0 <= j < i + 1 ==> T[..i + 1][j] == T[j];
  }

  lemma SpreadFacts(flat: seq<Assessment>, items: seq<DisplayItem>, T: Table, i: nat)
    requires WellFormed(flat, items, T) && i < |T|
    ensures forall r :: r in Recipients(items, T, {}, T[i].source) ==>
      r.id in Ids(Flatten(items)) && r.id !in SourceSet(T[..i + 1]) && r.id !in GroupIds(items)
  {
    forall r | r in Recipients(items, T, {}, T[i].source)
      ensures r.id in Ids(Flatten(items)) && r.id !in SourceSet(T[..i + 1]) && r.id !in GroupIds(items)
    {
      RecipientFacts(flat, items, T, T[i].source, r);
      if r.id in SourceSet(T[..i + 1]) {
        PrefixSources(T, i + 1, r.id);
      }
    }
  }

  lemma StepSpread(flat: seq<Assessment>, items: seq<DisplayItem>, T: Table, m: Adjustments, e: Route, a: Assessment)
    requires FindById(flat, e.source) == Some(a) && a.id == e.source && e.target == DistributeEvenlyId
    ensures Step(flat, items, T, {}, m, e) == Distribute(m, Recipients(items, T, {}, e.source), a.weight + AdjOf(m, a.id))
  {
  }

  /** One entry of the fold keeps the quantity. */
  lemma StepKeeps(flat: seq<Assessment>, items: seq<DisplayItem>, T: Table, i: nat)
    requires WellFormed(flat, items, T) && i < |T|
    ensures var L, G := Flatten(items), GroupIds(items);
      Mass(L, G, Fold(flat, items, T, {}, T[..i + 1]), SourceSet(T[..i + 1]))
        == Mass(L, G, Fold(flat, items, T, {}, T[..i]), SourceSet(T[..i]))
  {
    var L, G := Flatten(items), GroupIds(items);
    var m := Fold(flat, items, T, {}, T[..i]);
    var e := T[i];
    var done := SourceSet(T[..i]);
    FoldPrefix(flat, items, T, i);
    SourceFresh(T, i);
    assert e.source in Ids(L);
    var a :| a in L && a.id == e.source;
    if e.target == DistributeEvenlyId {
      SpreadFacts(flat, items, T, i);
      assert FindById(flat, a.id) == Some(a);
      StepSpread(flat, items, T, m, e, a);
      SpreadMass(L, G, m, done, a, Recipients(items, T, {}, e.source));
    } else {
      TargetFresh(T, i);
      TargetMass(flat, items, T, L, G, m, done, e, a);
    }
  }

  /** The fold keeps the quantity at the total base weight. */
  lemma {:induction false} FoldKeeps(flat: seq<Assessment>, items: seq<DisplayItem>, T: Table, i: nat)
    requires WellFormed(flat, items, T) && i <= |T|
    ensures Mass(Flatten(items), GroupIds(items), Fold(flat, items, T, {}, T[..i]), SourceSet(T[..i]))
         == SumWeights(Flatten(items))
  {
    if i == 0 {
      assert T[..0] == [];
      MassInitial(Flatten(items), GroupIds(items));
    } else {
      FoldKeeps(flat, items, T, i - 1);
      StepKeeps(flat, items, T, i - 1);
    }
  }

  // ---------------------------------------------------------------------------
  // From the quantity to the effective weights
  // ---------------------------------------------------------------------------

  lemma {:induction false} IdsOfMember(rs: seq<Assessment>, x: string)
    requires x in IdsOf(rs)
    ensures exists r :: r in rs && r.id == x
  {
    var front := rs[..|rs| - 1];
    if x in IdsOf(front) {
      IdsOfMember(front, x);
      var r :| r in front && r.id == x;
      assert r in rs;
    } else {
      assert rs[|rs| - 1].id == x;
    }
  }

  /** An id that is neither a record nor the target of any entry never gains anything. */
  lemma {:induction false} FoldUntouched(flat: seq<Assessment>, items: seq<DisplayItem>, T: Table, i: nat, x: string)
    requires WellFormed(flat, items, T) && i <= |T|
    requires x !in Ids(Flatten(items))
    requires forall j :: 0 <= j < |T| ==> T[j].target != x
    ensures AdjOf(Fold(flat, items, T, {}, T[..i]), x) == 0.0
  {
    if i == 0 {
      assert T[..0] == [];
    } else {
      FoldUntouched(flat, items, T, i - 1, x);
      FoldPrefix(flat, items, T, i - 1);
      var m := Fold(flat, items, T, {}, T[..i - 1]);
      var e := T[i - 1];
      assert e.source in Ids(Flatten(items));
      var a :| a in Flatten(items) && a.id == e.source;
      assert FindById(flat, e.source) == Some(a);
      if e.target == DistributeEvenlyId {
        DistributeStep(flat, items, T, {}, m, e, a, x);
        var rs := Recipients(items, T, {}, e.source);
        if x in IdsOf(rs) {
          IdsOfMember(rs, x);
          var r :| r in rs && r.id == x;
          RecipientFacts(flat, items, T, e.source, r);
        }
        CountMultiset(IdsOf(rs), x);
      } else {
        TargetStep(flat, items, T, {}, m, e, a, x);
      }
    }
  }

  /** What an item carries towards the undropped records in the expanded view: a single
      that is not routed away carries its effective weight, a group what its children carry. */
  function ItemCarries(item: DisplayItem, t: Table, m: Adjustments): real {
    match item
    case Single(a) => if IsDropped(t, a.id) then 0.0 else EffectiveWeight(item, t, m)
    case Group(_, _, children, _) => DistributedSum(children, item, t, m)
  }

  /** The effective weights of the undropped records, every group expanded, added up. */
  function UndroppedTotal(items: seq<DisplayItem>, t: Table, m: Adjustments): real {
    if items == [] then 0.0 else UndroppedTotal(items[..|items| - 1], t, m) + ItemCarries(items[|items| - 1], t, m)
  }

  lemma {:induction false} LeafMassAppend(A: seq<Assessment>, B: seq<Assessment>, m: Adjustments, done: set<string>)
    ensures LeafMass(A + B, m, done) == LeafMass(A, m, done) + LeafMass(B, m, done)
    decreases |B|
  {
    if B == [] {
      assert A + B == A;
    } else {
      assert (A + B)[..|A + B| - 1] == A + B[..|B| - 1];
      LeafMassAppend(A, B[..|B| - 1], m, done);
    }
  }

  /** The children's part of the quantity is their active weight and adjustment. */
  lemma {:induction false} ChildrenMass(cs: seq<Assessment>, t: Table, m: Adjustments, done: set<string>)
    requires forall c :: c in cs ==> (c.id in done <==> IsDropped(t, c.id))
    ensures LeafMass(cs, m, done) == ActiveSum(cs, t) + ActiveAdjSum(cs, t, m)
  {
    if cs != [] {
      assert cs[|cs| - 1] in cs;
      assert forall c :: c in cs[..|cs| - 1] ==> c in cs;
      ChildrenMass(cs[..|cs| - 1], t, m, done);
    }
  }

  lemma ItemCarriesMass(item: DisplayItem, t: Table, m: Adjustments, done: set<string>)
    requires forall c :: c in Flatten([item]) ==> (c.id in done <==> IsDropped(t, c.id))
    requires item.Group? && ActiveCount(item.children, t) == 0 ==> AdjOf(m, item.id) == 0.0
    ensures ItemCarries(item, t, m) == LeafMass(Flatten([item]), m, done) + GroupMass(GroupIds([item]), m)
  {
    assert [item][..0] == [];
    assert Flatten([item]) == Flatten([]) + (match item case Single(a) => [a] case Group(_, _, ch, _) => ch);
    assert GroupIds([item]) == if item.Group? then [item.id] else [];
    match item
    case Single(a) =>
      assert a in Flatten([item]);
      assert [a][..0] == [];
    case Group(id, _, children, _) =>
      ChildrenMass(children, t, m, done);
      ExpandedGroupTotal(item, t, m);
      ActiveSumIsSum(children, t);
      if ActiveCount(children, t) == 0 {
        NoActiveChildren(children, t, m);
      }
      assert [id][..0] == [];
      assert Flatten([item]) == children;
      assert GroupMass([id], m) == AdjOf(m, id);
  }

  /** At the end of the fold the quantity is what the undropped records carry. */
  lemma {:induction false} CarriesIsMass(items: seq<DisplayItem>, t: Table, m: Adjustments, done: set<string>)
    requires forall c :: c in Flatten(items) ==> (c.id in done <==> IsDropped(t, c.id))
    requires forall j :: 0 <= j < |items| && items[j].Group? && ActiveCount(items[j].children, t) == 0 ==>
      AdjOf(m, items[j].id) == 0.0
    ensures UndroppedTotal(items, t, m) == LeafMass(Flatten(items), m, done) + GroupMass(GroupIds(items), m)
  {
    if items != [] {
      var front, last := items[..|items| - 1], items[|items| - 1];
      FlattenAppend(front, [last]);
      assert items == front + [last];
      assert forall c :: c in Flatten(front) ==> c in Flatten(items);
      assert forall c :: c in Flatten([last]) ==> c in Flatten(items);
      assert forall j :: 0 <= j < |front| ==> front[j] == items[j];
      CarriesIsMass(front, t, m, done);
      ItemCarriesMass(last, t, m, done);
      LeafMassAppend(Flatten(front), Flatten([last]), m, done);
      GroupMassAppend(GroupIds(front), GroupIds([last]), m);
      assert [last][..0] == [];
      assert GroupIds(items) == GroupIds(front) + GroupIds([last]);
    }
  }

  lemma {:induction false} GroupMassAppend(A: seq<string>, B: seq<string>, m: Adjustments)
    ensures GroupMass(A + B, m) == GroupMass(A, m) + GroupMass(B, m)
    decreases |B|
  {
    if B == [] {
      assert A + B == A;
    } else {
      assert (A + B)[..|A + B| - 1] == A + B[..|B| - 1];
      GroupMassAppend(A, B[..|B| - 1], m);
    }
  }

  /** Weight conservation: under a well-formed routing table, with every group expanded
      and nothing removed, the effective weights of the records that are not routed away
      add up to the base weights of all records. */
  lemma WeightConserved(flat: seq<Assessment>, items: seq<DisplayItem>, T: Table)
    requires WellFormed(flat, items, T)
    ensures UndroppedTotal(items, T, Fold(flat, items, T, {}, T)) == SumWeights(Flatten(items))
  {
    var m := Fold(flat, items, T, {}, T);
    assert T[..|T|] == T;
    FoldKeeps(flat, items, T, |T|);
    forall c | c in Flatten(items)
      ensures c.id in SourceSet(T) <==> IsDropped(T, c.id)
    {
      DroppedIsSource(T, c.id);
    }
    forall j | 0 <= j < |items| && items[j].Group? && ActiveCount(items[j].children, T) == 0
      ensures AdjOf(m, items[j].id) == 0.0
    {
      InGroupIds(items, j);
      FoldUntouched(flat, items, T, |T|, items[j].id);
    }
    CarriesIsMass(items, T, m, SourceSet(T));
  }

  lemma {:induction false} SumWeightsAppend(a: seq<Assessment>, b: seq<Assessment>)
    ensures SumWeights(a + b) == SumWeights(a) + SumWeights(b)
    decreases |b|
  {
    if b == [] {
      assert a + b == a;
    } else {
      assert (a + b)[..|a + b| - 1] == a + b[..|b| - 1];
      SumWeightsAppend(a, b[..|b| - 1]);
    }
  }

  /** The total weight depends only on which records there are, not on their order. */
  lemma {:induction false} SumWeightsPermutation(a: seq<Assessment>, b: seq<Assessment>)
    requires multiset(a) == multiset(b)
    ensures SumWeights(a) == SumWeights(b)
    decreases |a|
  {
    if a != [] {
      var front, x := a[..|a| - 1], a[|a| - 1];
      assert a == front + [x];
      assert x in multiset(b);
      var j :| 0 <= j < |b| && b[j] == x;
      var rest := b[..j] + b[j + 1..];
      assert b == b[..j] + [x] + b[j + 1..];
      assert multiset(b) == multiset(b[..j]) + multiset{x} + multiset(b[j + 1..]);
      assert multiset(rest) == multiset(b[..j]) + multiset(b[j + 1..]);
      assert multiset(a) == multiset(front) + multiset{x};
      assert multiset(rest) == multiset(b) - multiset{x};
      assert multiset(front) == multiset(a) - multiset{x};
      SumWeightsPermutation(front, rest);
      SumWeightsAppend(b[..j] + [x], b[j + 1..]);
      SumWeightsAppend(b[..j], [x]);
      SumWeightsAppend(b[..j], b[j + 1..]);
      assert [x][..0] == [];
    }
  }

  /** Weight conservation for the adjustments the page computes: the records shown by
      `groupAssessments` that are not routed away carry, between them, the weight of all
      records. */
  lemma PageConservesWeight(flat: seq<Assessment>, T: Table)
    requires WellFormed(flat, GroupAssessments(flat), T)
    requires DistinctIds(flat)
    ensures UndroppedTotal(GroupAssessments(flat), T, WeightAdjustments(flat, T, {})) == SumWeights(flat)
  {
    WeightConserved(flat, GroupAssessments(flat), T);
    GroupAssessmentsPartition(flat);
    SumWeightsPermutation(Flatten(GroupAssessments(flat)), flat);
  }
}
