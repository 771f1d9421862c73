/** The drop feature's routing table and the weight-adjustment fold of the calculator
    page (page.tsx:28, 124-161). A routing entry moves the whole weight of a source
    record either to one target item or, through the sentinel target, evenly over
    every item still eligible; the fold turns the table into per-id adjustments. */
module Weights {
  import opened Common
  import opened Grouping

  /** The sentinel target of an entry that spreads its weight over everything eligible. */
  const DistributeEvenlyId: string := "__DISTRIBUTE_EVENLY__"

  // ---------------------------------------------------------------------------
  // The routing table `droppedMap`
  // ---------------------------------------------------------------------------

  /** One entry `sourceId: targetId` of the table. */
  datatype Route = Route(source: string, target: string)

  /** The table, in the order `Object.entries` lists it (insertion order). */
  type Table = seq<Route>

  function Sources(t: Table): seq<string> {
    if t == [] then [] else [t[0].source] + Sources(t[1..])
  }

  /** Each source occurs at most once, as in a JavaScript object. */
  predicate KeysUnique(t: Table) {
    forall i, j :: 0 <= i < j < |t| ==> t[i].source != t[j].source
  }

  /** `droppedMap[k]`, when the key is present. */
  function Lookup(t: Table, k: string): Option<string> {
    if t == [] then None
    else if t[0].source == k then Some(t[0].target)
    else Lookup(t[1..], k)
  }

  /** `droppedMap[k]` is truthy: the key is present and its target is not empty. */
  predicate IsDropped(t: Table, k: string) {
    Lookup(t, k).Some? && Lookup(t, k).value != ""
  }

  /** `{ ...prev, [k]: v }`: an existing key keeps its place, a new key goes last. */
  function Put(t: Table, k: string, v: string): Table {
    if t == [] then [Route(k, v)]
    else if t[0].source == k then [Route(k, v)] + t[1..]
    else [t[0]] + Put(t[1..], k, v)
  }

  /** `delete next[k]` */
  function Delete(t: Table, k: string): Table {
    if t == [] then []
    else if t[0].source == k then Delete(t[1..], k)
    else [t[0]] + Delete(t[1..], k)
  }

  lemma {:induction false} SourcesSpec(t: Table)
    ensures |Sources(t)| == |t|
    ensures forall i :: 0 <= i < |t| ==> Sources(t)[i] == t[i].source
  {
    if t != [] {
      SourcesSpec(t[1..]);
    }
  }

  /** A present key is found at the entry that holds it. */
  lemma {:induction false} LookupSpec(t: Table, k: string)
    ensures Lookup(t, k).None? <==> k !in Sources(t)
    ensures Lookup(t, k).Some? ==> Route(k, Lookup(t, k).value) in t
  {
    if t != [] {
      LookupSpec(t[1..], k);
    }
  }

  /** After `Put`, the key maps to the new target and every other key is as before. */
  lemma {:induction false} PutLookup(t: Table, k: string, v: string, j: string)
    ensures Lookup(Put(t, k, v), j) == if j == k then Some(v) else Lookup(t, j)
  {
    if t != [] && t[0].source != k {
      PutLookup(t[1..], k, v, j);
    }
  }

  /** `Put` keeps the key order: a present key stays where it is, a new key is appended. */
  lemma {:induction false} PutSources(t: Table, k: string, v: string)
    ensures Sources(Put(t, k, v)) == if k in Sources(t) then Sources(t) else Sources(t) + [k]
  {
    if t != [] && t[0].source != k {
      PutSources(t[1..], k, v);
      assert Sources(t) == [t[0].source] + Sources(t[1..]);
    }
  }

  lemma {:induction false} PutUnique(t: Table, k: string, v: string)
    requires KeysUnique(t)
    ensures KeysUnique(Put(t, k, v))
  {
    if t != [] && t[0].source != k {
      PutUnique(t[1..], k, v);
      PutSources(t[1..], k, v);
      var r := Put(t, k, v);
      SourcesSpec(t[1..]);
      SourcesSpec(Put(t[1..], k, v));
      forall i, j | 0 <= i < j < |r|
        ensures r[i].source != r[j].source
      {
        if i == 0 {
          var rest := Put(t[1..], k, v);
          assert r[j] == rest[j - 1];
          assert rest[j - 1].source == Sources(rest)[j - 1];
          if k in Sources(t[1..]) {
            var p :| 0 <= p < |t[1..]| && Sources(t[1..])[p] == Sources(rest)[j - 1];
            assert t[1..][p] == t[p + 1];
          } else if j - 1 < |t[1..]| {
            assert Sources(rest)[j - 1] == Sources(t[1..])[j - 1];
            assert t[1..][j - 1] == t[j];
          }
        }
      }
    }
  }

  /** After `Delete`, the key is absent and every other key is as before. */
  lemma {:induction false} DeleteLookup(t: Table, k: string, j: string)
    ensures Lookup(Delete(t, k), j) == if j == k then None else Lookup(t, j)
  {
    if t != [] {
      DeleteLookup(t[1..], k, j);
    }
  }

  /** `Delete` removes only the key's entry and keeps the others in order. */
  lemma {:induction false} DeleteSources(t: Table, k: string)
    ensures multiset(Sources(Delete(t, k))) == multiset(Sources(t))[k := 0]
  {
    if t != [] {
      DeleteSources(t[1..], k);
      assert Sources(t) == [t[0].source] + Sources(t[1..]);
      if t[0].source != k {
        assert Sources(Delete(t, k)) == [t[0].source] + Sources(Delete(t[1..], k));
      }
    }
  }

  // ---------------------------------------------------------------------------
  // Adjustments `weightAdjustments`
  // ---------------------------------------------------------------------------

  type Adjustments = map<string, real>

  /** `weightAdjustments[k] || 0` */
  function AdjOf(m: Adjustments, k: string): real {
    if k in m then m[k] else 0.0
  }

  /** `weightAdjustments[k] = (weightAdjustments[k] || 0) + d` */
  function AddTo(m: Adjustments, k: string, d: real): Adjustments {
    m[k := AdjOf(m, k) + d]
  }

  /** `assessments.find(a => a.id === id)` */
  function FindById(s: seq<Assessment>, id: string): Option<Assessment> {
    if s == [] then None
    else if s[0].id == id then Some(s[0])
    else FindById(s[1..], id)
  }

  lemma {:induction false} FindByIdFound(s: seq<Assessment>, id: string, a: Assessment)
    requires FindById(s, id) == Some(a)
    ensures a in s && a.id == id
  {
    if s[0].id != id {
      FindByIdFound(s[1..], id, a);
    }
  }

  /** `find` returns the first record with the id, and nothing only when there is none. */
  lemma {:induction false} FindByIdSpec(s: seq<Assessment>, id: string)
    ensures FindById(s, id).Some? ==>
      exists i :: 0 <= i < |s| && s[i] == FindById(s, id).value && s[i].id == id
        && forall j :: 0 <= j < i ==> s[j].id != id
    ensures FindById(s, id).None? <==> forall a :: a in s ==> a.id != id
  {
    if s != [] && s[0].id != id {
      FindByIdSpec(s[1..], id);
      if FindById(s, id).Some? {
        var i :| 0 <= i < |s[1..]| && s[1..][i] == FindById(s, id).value && s[1..][i].id == id
          && forall j :: 0 <= j < i ==> s[1..][j].id != id;
        assert s[i + 1] == s[1..][i];
        assert forall j :: 1 <= j < i + 1 ==> s[j] == s[1..][j - 1];
      }
      assert forall a :: a in s ==> a == s[0] || a in s[1..];
    }
  }

  // ---------------------------------------------------------------------------
  // Who receives an evenly distributed weight (page.tsx:131-143)
  // ---------------------------------------------------------------------------

  /** An id takes part in an even distribution: it is not routed away, it is not the
      source, and it is not removed. */
  predicate Eligible(t: Table, removed: set<string>, src: string, id: string) {
    !IsDropped(t, id) && id != src && id !in removed
  }

  function EligibleChildren(ch: seq<Assessment>, t: Table, removed: set<string>, src: string): seq<Assessment> {
    if ch == [] then []
    else EligibleChildren(ch[..|ch| - 1], t, removed, src)
         + (if Eligible(t, removed, src, ch[|ch| - 1].id) then [ch[|ch| - 1]] else [])
  }

  /** What one display item adds to `allOtherItems`. */
  function ItemRecipients(item: DisplayItem, t: Table, removed: set<string>, src: string): seq<Assessment> {
    if !Eligible(t, removed, src, item.Id()) then []
    else match item
      case Single(a) => [a]
      case Group(_, _, ch, _) => EligibleChildren(ch, t, removed, src)
  }

  /** `allOtherItems`: the records that share an evenly distributed weight. */
  function Recipients(items: seq<DisplayItem>, t: Table, removed: set<string>, src: string): seq<Assessment> {
    if items == [] then []
    else Recipients(items[..|items| - 1], t, removed, src) + ItemRecipients(items[|items| - 1], t, removed, src)
  }

  lemma {:induction false} EligibleChildrenMember(ch: seq<Assessment>, t: Table, removed: set<string>, src: string, a: Assessment)
    ensures a in EligibleChildren(ch, t, removed, src) <==> a in ch && Eligible(t, removed, src, a.id)
  {
    if ch != [] {
      EligibleChildrenMember(ch[..|ch| - 1], t, removed, src, a);
      assert ch == ch[..|ch| - 1] + [ch[|ch| - 1]];
    }
  }

  /** Where a record sits among the display items for it to share an even distribution. */
  predicate SharesAt(items: seq<DisplayItem>, t: Table, removed: set<string>, src: string, a: Assessment, i: int) {
    0 <= i < |items| && Eligible(t, removed, src, items[i].Id()) && Eligible(t, removed, src, a.id)
    && (items[i] == Single(a) || (items[i].Group? && a in items[i].children))
  }

  lemma ItemRecipientsMember(item: DisplayItem, t: Table, removed: set<string>, src: string, a: Assessment)
    ensures a in ItemRecipients(item, t, removed, src) <==>
      Eligible(t, removed, src, item.Id()) && Eligible(t, removed, src, a.id)
      && (item == Single(a) || (item.Group? && a in item.children))
  {
    if item.Group? {
      EligibleChildrenMember(item.children, t, removed, src, a);
    }
  }

  /** A record shares an even distribution exactly when it is an eligible single, or an
      eligible child of an eligible group. */
  lemma {:induction false} RecipientsMember(items: seq<DisplayItem>, t: Table, removed: set<string>, src: string, a: Assessment)
    ensures a in Recipients(items, t, removed, src) <==> exists i :: SharesAt(items, t, removed, src, a, i)
  {
    if items != [] {
      var front, last := items[..|items| - 1], items[|items| - 1];
      RecipientsMember(front, t, removed, src, a);
      ItemRecipientsMember(last, t, removed, src, a);
      assert Recipients(items, t, removed, src) == Recipients(front, t, removed, src) + ItemRecipients(last, t, removed, src);
      if a in Recipients(items, t, removed, src) {
        if a !in Recipients(front, t, removed, src) {
          assert SharesAt(items, t, removed, src, a, |items| - 1);
        } else {
          var i :| SharesAt(front, t, removed, src, a, i);
          assert items[i] == front[i];
          assert SharesAt(items, t, removed, src, a, i);
        }
      }
      if exists i :: SharesAt(items, t, removed, src, a, i) {
        var i :| SharesAt(items, t, removed, src, a, i);
        if i < |front| {
          assert front[i] == items[i];
          assert SharesAt(front, t, removed, src, a, i);
        }
      }
    }
  }

  /** The source, routed-away records and removed records never share a distribution. */
  lemma RecipientsEligible(items: seq<DisplayItem>, t: Table, removed: set<string>, src: string, a: Assessment)
    requires a in Recipients(items, t, removed, src)
    ensures Eligible(t, removed, src, a.id)
  {
    RecipientsMember(items, t, removed, src, a);
  }

  // ---------------------------------------------------------------------------
  // The fold (page.tsx:124-161)
  // ---------------------------------------------------------------------------

  function IdsOf(s: seq<Assessment>): seq<string> {
    if s == [] then [] else IdsOf(s[..|s| - 1]) + [s[|s| - 1].id]
  }

  /** `allOtherItems.forEach(item => weightAdjustments[item.id] += perItem)` */
  function ShareAll(m: Adjustments, rs: seq<Assessment>, per: real): Adjustments {
    if rs == [] then m else AddTo(ShareAll(m, rs[..|rs| - 1], per), rs[|rs| - 1].id, per)
  }

  /** One entry of the fold. `items` is `groupAssessments(assessments)` and `full` the whole
      table, which decides who is routed away. */
  function Step(flat: seq<Assessment>, items: seq<DisplayItem>, full: Table, removed: set<string>,
                m: Adjustments, e: Route): Adjustments
  {
    match FindById(flat, e.source)
    case None => m
    case Some(src) =>
      var sw := src.weight + AdjOf(m, e.source);
      if e.target == DistributeEvenlyId then
        Distribute(m, Recipients(items, full, removed, e.source), sw)
      else AddTo(m, e.target, sw)
  }

  /** `if (allOtherItems.length > 0) { perItem = sourceWeight / allOtherItems.length; ... }` */
  function Distribute(m: Adjustments, rs: seq<Assessment>, sw: real): Adjustments {
    if |rs| > 0 then ShareAll(m, rs, sw / |rs| as real) else m
  }

  /** The adjustments after the entries of `t`, a prefix of `full`, in order. */
  function Fold(flat: seq<Assessment>, items: seq<DisplayItem>, full: Table, removed: set<string>, t: Table): Adjustments {
    if t == [] then map[] else Step(flat, items, full, removed, Fold(flat, items, full, removed, t[..|t| - 1]), t[|t| - 1])
  }

  /** `weightAdjustments` */
  function WeightAdjustments(flat: seq<Assessment>, table: Table, removed: set<string>): Adjustments {
    Fold(flat, GroupAssessments(flat), table, removed, table)
  }

  /** `n` copies of `x` added up. */
  function Times(n: nat, x: real): real {
    if n == 0 then 0.0 else Times(n - 1, x) + x
  }

  lemma {:induction false} TimesIsProduct(n: nat, x: real)
    ensures Times(n, x) == n as real * x
  {
    if n > 0 {
      TimesIsProduct(n - 1, x);
      assert n as real * x == (n - 1) as real * x + x;
    }
  }

  lemma {:induction false} TimesNonNegative(n: nat, x: real)
    requires x >= 0.0
    ensures Times(n, x) >= 0.0
  {
    if n > 0 {
      TimesNonNegative(n - 1, x);
    }
  }

  /** Sharing adds `per` to an id once for every time it occurs among the recipients. */
  lemma {:induction false} ShareAllSpec(m: Adjustments, rs: seq<Assessment>, per: real, k: string)
    ensures AdjOf(ShareAll(m, rs, per), k) == AdjOf(m, k) + Times(Count(IdsOf(rs), k), per)
  {
    if rs != [] {
      var front, last := rs[..|rs| - 1], rs[|rs| - 1];
      ShareAllSpec(m, front, per, k);
      var ids := IdsOf(rs);
      assert ids[..|ids| - 1] == IdsOf(front);
    }
  }

  /** An entry whose source is not a flat record (a group's id, an unknown id) adds nothing. */
  lemma UnknownSourceAddsNothing(flat: seq<Assessment>, items: seq<DisplayItem>, full: Table, removed: set<string>,
                                 m: Adjustments, e: Route)
    requires forall a :: a in flat ==> a.id != e.source
    ensures Step(flat, items, full, removed, m, e) == m
  {
    FindByIdSpec(flat, e.source);
  }

  /** A specific target gains the source's weight plus what the source has already gained;
      no other id changes. */
  lemma TargetStep(flat: seq<Assessment>, items: seq<DisplayItem>, full: Table, removed: set<string>,
                   m: Adjustments, e: Route, src: Assessment, k: string)
    requires e.target != DistributeEvenlyId
    requires FindById(flat, e.source) == Some(src)
    ensures src in flat && src.id == e.source
    ensures AdjOf(Step(flat, items, full, removed, m, e), k)
         == AdjOf(m, k) + (if k == e.target then src.weight + AdjOf(m, e.source) else 0.0)
  {
    FindByIdFound(flat, e.source, src);
  }

  /** An even distribution gives each eligible record `sourceWeight / n` (once per occurrence),
      where `n` counts the eligible records; with none eligible nothing changes. */
  lemma DistributeStep(flat: seq<Assessment>, items: seq<DisplayItem>, full: Table, removed: set<string>,
                       m: Adjustments, e: Route, src: Assessment, k: string)
    requires e.target == DistributeEvenlyId
    requires FindById(flat, e.source) == Some(src)
    ensures src in flat && src.id == e.source
    ensures var rs := Recipients(items, full, removed, e.source);
      var sw := src.weight + AdjOf(m, e.source);
      AdjOf(Step(flat, items, full, removed, m, e), k)
        == AdjOf(m, k) + (if |rs| > 0 then Times(Count(IdsOf(rs), k), sw / |rs| as real) else 0.0)
  {
    FindByIdFound(flat, e.source, src);
    DistributeSpec(m, Recipients(items, full, removed, e.source), src.weight + AdjOf(m, e.source), k);
  }

  lemma DistributeSpec(m: Adjustments, rs: seq<Assessment>, sw: real, k: string)
    ensures AdjOf(Distribute(m, rs, sw), k)
         == AdjOf(m, k) + (if |rs| > 0 then Times(Count(IdsOf(rs), k), sw / |rs| as real) else 0.0)
  {
    if |rs| > 0 {
      ShareAllSpec(m, rs, sw / |rs| as real, k);
    }
  }

  /** One entry keeps every adjustment non-negative when every weight is. */
  lemma StepNonNegative(flat: seq<Assessment>, items: seq<DisplayItem>, full: Table, removed: set<string>,
                        m: Adjustments, e: Route, k: string)
    requires forall a :: a in flat ==> a.weight >= 0.0
    requires AdjOf(m, k) >= 0.0 && AdjOf(m, e.source) >= 0.0
    ensures AdjOf(Step(flat, items, full, removed, m, e), k) >= 0.0
  {
    match FindById(flat, e.source)
    case None =>
    case Some(src) =>
      FindByIdFound(flat, e.source, src);
      var sw := src.weight + AdjOf(m, e.source);
      if e.target == DistributeEvenlyId {
        DistributeStep(flat, items, full, removed, m, e, src, k);
        var rs := Recipients(items, full, removed, e.source);
        if |rs| > 0 {
          var per := sw / |rs| as real;
          TimesNonNegative(Count(IdsOf(rs), k), per);
        }
      } else {
        TargetStep(flat, items, full, removed, m, e, src, k);
      }
  }

  /** When every weight is non-negative, so is every adjustment the fold produces. */
  lemma {:induction false} FoldNonNegative(flat: seq<Assessment>, items: seq<DisplayItem>, full: Table,
                                           removed: set<string>, t: Table)
    requires forall a :: a in flat ==> a.weight >= 0.0
    ensures forall k :: AdjOf(Fold(flat, items, full, removed, t), k) >= 0.0
  {
    if t != [] {
      var front, e := t[..|t| - 1], t[|t| - 1];
      FoldNonNegative(flat, items, full, removed, front);
      forall k
        ensures AdjOf(Fold(flat, items, full, removed, t), k) >= 0.0
      {
        var m := Fold(flat, items, full, removed, front);
        assert AdjOf(m, k) >= 0.0 && AdjOf(m, e.source) >= 0.0;
        StepNonNegative(flat, items, full, removed, m, e, k);
      }
    }
  }

  // ---------------------------------------------------------------------------
  // The fold as the page runs it
  // ---------------------------------------------------------------------------

  /** The `displayItems.forEach` that fills `allOtherItems` (page.tsx:131-143). */
  method CollectRecipients(items: seq<DisplayItem>, t: Table, removed: set<string>, src: string)
    returns (all: seq<Assessment>)
    ensures all == Recipients(items, t, removed, src)
  {
    all := [];
    for i := 0 to |items|
      invariant all == Recipients(items[..i], t, removed, src)
    {
      var item := items[i];
      assert items[..i + 1][..i] == items[..i];
      if Eligible(t, removed, src, item.Id()) {
        match item
        case Single(a) =>
          all := all + [a];
        case Group(_, _, children, _) =>
          ghost var before := all;
          for j := 0 to |children|
            invariant all == before + EligibleChildren(children[..j], t, removed, src)
          {
            assert children[..j + 1][..j] == children[..j];
            var child := children[j];
            if Eligible(t, removed, src, child.id) {
              all := all + [child];
            }
          }
          assert children[..|children|] == children;
      }
    }
    assert items[..|items|] == items;
  }

  /** `allOtherItems.forEach(...)`: each recipient gains `perItem`. */
  method ShareLoop(m0: Adjustments, all: seq<Assessment>, perItem: real) returns (m: Adjustments)
    ensures m == ShareAll(m0, all, perItem)
  {
    m := m0;
    for j := 0 to |all|
      invariant m == ShareAll(m0, all[..j], perItem)
    {
      assert all[..j + 1][..j] == all[..j];
      m := AddTo(m, all[j].id, perItem);
    }
    assert all[..|all|] == all;
  }

  /** The body of the `Object.entries(droppedMap).forEach` for one entry (page.tsx:126-160);
      `displayItems` is `groupAssessments(assessments)`. */
  method ApplyEntry(flat: seq<Assessment>, displayItems: seq<DisplayItem>, table: Table, removed: set<string>,
                    weightAdjustments: Adjustments, e: Route) returns (next: Adjustments)
    ensures next == Step(flat, displayItems, table, removed, weightAdjustments, e)
  {
    next := weightAdjustments;
    var source := FindById(flat, e.source);
    if source.Some? {
      var sourceWeight := source.value.weight + AdjOf(weightAdjustments, e.source);
      if e.target == DistributeEvenlyId {
        var allOtherItems := CollectRecipients(displayItems, table, removed, e.source);
        if |allOtherItems| > 0 {
          var perItem := sourceWeight / |allOtherItems| as real;
          next := ShareLoop(weightAdjustments, allOtherItems, perItem);
        }
      } else {
        next := AddTo(weightAdjustments, e.target, sourceWeight);
      }
    }
  }

  /** The `Object.entries(droppedMap).forEach` that builds `weightAdjustments`. */
  method ComputeAdjustments(flat: seq<Assessment>, table: Table, removed: set<string>)
    returns (weightAdjustments: Adjustments)
    ensures weightAdjustments == WeightAdjustments(flat, table, removed)
  {
    var displayItems := GroupAssessmentsLoop(flat);
    weightAdjustments := map[];
    for i := 0 to |table|
      invariant weightAdjustments == Fold(flat, displayItems, table, removed, table[..i])
    {
      assert table[..i + 1][..i] == table[..i];
      weightAdjustments := ApplyEntry(flat, displayItems, table, removed, weightAdjustments, table[i]);
    }
    assert table[..|table|] == table;
  }
}
