/** Worked examples of the adjustment fold. */
module WeightsExample {
  import opened Common
  import opened Grouping
  import opened Weights
  import opened EffectiveWeights

  function Rec(id: string, w: real): Assessment { Assessment(id, "Item", w, None, None, None, None) }

  function Flat(): seq<Assessment> { [Rec("a", 10.0), Rec("b", 20.0), Rec("c", 30.0)] }

  lemma FindInFlat()
    ensures FindById(Flat(), "a") == Some(Rec("a", 10.0))
    ensures FindById(Flat(), "b") == Some(Rec("b", 20.0))
  {
    var f := Flat();
    assert f[1..] == [Rec("b", 20.0), Rec("c", 30.0)];
  }

  /** Routing a to b and then b to c: c receives b's weight together with what b had
      already received from a. */
  lemma ChainForward(items: seq<DisplayItem>)
    ensures var t := [Route("a", "b"), Route("b", "c")];
      AdjOf(Fold(Flat(), items, t, {}, t), "c") == 30.0
  {
    var t := [Route("a", "b"), Route("b", "c")];
    FindInFlat();
    assert t[..1] == [Route("a", "b")] && t[..1][..0] == [];
    var p := t[..1];
    assert Fold(Flat(), items, t, {}, p[..0]) == map[];
    var m1 := Fold(Flat(), items, t, {}, p);
    assert m1 == Step(Flat(), items, t, {}, map[], Route("a", "b"));
    assert m1 == map["b" := 10.0];
    assert Fold(Flat(), items, t, {}, t) == Step(Flat(), items, t, {}, m1, Route("b", "c"));
    assert AdjOf(m1, "b") == 10.0;
  }

  /** The same two entries in the other order: c receives only b's own weight. */
  lemma ChainBackward(items: seq<DisplayItem>)
    ensures var t := [Route("b", "c"), Route("a", "b")];
      AdjOf(Fold(Flat(), items, t, {}, t), "c") == 20.0
  {
    var t := [Route("b", "c"), Route("a", "b")];
    FindInFlat();
    assert t[..1] == [Route("b", "c")] && t[..1][..0] == [];
    var p := t[..1];
    assert Fold(Flat(), items, t, {}, p[..0]) == map[];
    var m1 := Fold(Flat(), items, t, {}, p);
    assert m1 == Step(Flat(), items, t, {}, map[], Route("b", "c"));
    assert m1 == map["c" := 20.0];
    assert Fold(Flat(), items, t, {}, t) == Step(Flat(), items, t, {}, m1, Route("a", "b"));
  }

  /** The fold depends on the order of the table's entries. */
  lemma FoldIsOrderDependent(items: seq<DisplayItem>)
    ensures Fold(Flat(), items, [Route("a", "b"), Route("b", "c")], {}, [Route("a", "b"), Route("b", "c")])
         != Fold(Flat(), items, [Route("b", "c"), Route("a", "b")], {}, [Route("b", "c"), Route("a", "b")])
  {
    ChainForward(items);
    ChainBackward(items);
  }

  function Spread(): seq<Assessment> { [Rec("a", 20.0), Rec("b", 10.0), Rec("c", 10.0)] }

  function SpreadItems(): seq<DisplayItem> { [Single(Rec("a", 20.0)), Single(Rec("b", 10.0)), Single(Rec("c", 10.0))] }

  function SpreadTable(): Table { [Route("a", DistributeEvenlyId)] }

  lemma SpreadRecipients()
    ensures Recipients(SpreadItems(), SpreadTable(), {}, "a") == [Rec("b", 10.0), Rec("c", 10.0)]
  {
    var items := SpreadItems();
    var t := SpreadTable();
    assert IsDropped(t, "a");
    assert !IsDropped(t, "b") && !IsDropped(t, "c");
    assert items[..2] == [Single(Rec("a", 20.0)), Single(Rec("b", 10.0))];
    assert items[..2][..1] == [Single(Rec("a", 20.0))] && items[..2][..1][..0] == [];
    assert Recipients(items[..1], t, {}, "a") == [];
    assert Recipients(items[..2], t, {}, "a") == [Rec("b", 10.0)];
  }

  /** Spreading a (weight 20) evenly over b and c (weight 10 each) gives each of them 10,
      so each now carries 20. */
  lemma SpreadExample()
    ensures var m := Fold(Spread(), SpreadItems(), SpreadTable(), {}, SpreadTable());
      AdjOf(m, "b") == 10.0 && AdjOf(m, "c") == 10.0 &&
      EffectiveWeight(Single(Rec("b", 10.0)), SpreadTable(), m) == 20.0 &&
      EffectiveWeight(Single(Rec("c", 10.0)), SpreadTable(), m) == 20.0
  {
    var t := SpreadTable();
    SpreadRecipients();
    assert FindById(Spread(), "a") == Some(Rec("a", 20.0));
    assert t[..0] == [];
    var rs := [Rec("b", 10.0), Rec("c", 10.0)];
    assert Fold(Spread(), SpreadItems(), t, {}, t) == Distribute(map[], rs, 20.0);
    assert rs[..1] == [Rec("b", 10.0)] && rs[..1][..0] == [];
    assert ShareAll(map[], rs, 10.0) == map["b" := 10.0, "c" := 10.0];
  }
}
