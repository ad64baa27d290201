/**
  Whole runs of the order-fulfilment workflow, and the behaviours of the
  evaluator that differ from what its names suggest: toggles read the status
  carried by the action, every entry with the toggled UPC is replaced, and the
  advancing actions are not gated on the offered `nextAction`.
 */
module RetailScenarios {
  import opened Wrappers
  import opened RetailModel
  import opened RetailEvaluator

  /** The action a picker sends for a product still marked unknown. */
  function Mark(p: Product, found: bool): Action {
    if found then ToggleProductFound(FindableProduct(p, Unknown))
    else ToggleProductNotFound(FindableProduct(p, Unknown))
  }

  /** Marking each product of `ps` in turn, all found or all not found. */
  function MarkEach(s: State, ps: seq<Product>, found: bool, now: int): State
    decreases |ps|
  {
    if |ps| == 0 then s else MarkEach(Step(s, Mark(ps[0], found), now), ps[1..], found, now)
  }

  /** No two products of the list share a UPC. */
  predicate DistinctUpcs(ps: seq<Product>) {
    forall i, j :: 0 <= i < j < |ps| ==> ps[i].upc != ps[j].upc
  }

  lemma SeedOrderDistinct()
    ensures DistinctUpcs(SeedOrder.products)
  {
    var ps := SeedOrder.products;
    assert ps[0].upc[2] == '5' && ps[1].upc[2] == '8' && ps[2].upc[2] == '8' && ps[3].upc[2] == '0';
    assert ps[1].upc[6] == '5' && ps[2].upc[6] == '1';
  }

  /**
    Toggling a product whose UPC is unique in the list changes that entry
    alone, at its own position.
   */
  lemma ToggleUniqueEntry(st: FindProductsState, j: int, a: Action, now: int)
    requires a.ToggleProductFound? || a.ToggleProductNotFound?
    requires 0 <= j < |st.findableProducts|
    requires a.findable.product == st.findableProducts[j].product
    requires forall i :: 0 <= i < |st.findableProducts| && i != j ==>
               st.findableProducts[i].product.upc != st.findableProducts[j].product.upc
    ensures var fps := st.findableProducts[j := ModifiedProduct(a)];
            Step(FindProducts(st), a, now) == FindProducts(st.(findableProducts := fps, nextAction := NextActionFor(fps)))
  {
    var fps := st.findableProducts[j := ModifiedProduct(a)];
    assert ReplaceByUpc(st.findableProducts, ModifiedProduct(a)) == fps;
  }

  /** The first `k` products of `ps` are marked, the rest still unknown. */
  ghost predicate MarkedUpTo(st: FindProductsState, ps: seq<Product>, found: bool, k: int) {
    && 0 <= k <= |ps| == |st.findableProducts|
    && (forall i :: 0 <= i < |ps| ==> st.findableProducts[i].product == ps[i])
    && (forall i :: 0 <= i < k ==> st.findableProducts[i].status == (if found then Found else NotFound))
    && (forall i :: k <= i < |ps| ==> st.findableProducts[i].status == Unknown)
  }

  lemma {:induction false} MarkEachMarks(st: FindProductsState, ps: seq<Product>, found: bool, k: int, now: int)
    requires DistinctUpcs(ps) && MarkedUpTo(st, ps, found, k)
    ensures var r := MarkEach(FindProducts(st), ps[k..], found, now);
            && r.FindProducts?
            && MarkedUpTo(r.findProducts, ps, found, |ps|)
            && r.findProducts.instructions == st.instructions
            && r.findProducts.startTime == st.startTime
            && (k < |ps| ==> r.findProducts.nextAction == NextActionFor(r.findProducts.findableProducts))
    decreases |ps| - k
  {
    if k < |ps| {
      var a := Mark(ps[k], found);
      ToggleUniqueEntry(st, k, a, now);
      var fps := st.findableProducts[k := ModifiedProduct(a)];
      var st' := st.(findableProducts := fps, nextAction := NextActionFor(fps));
      assert MarkedUpTo(st', ps, found, k + 1);
      assert ps[k..][1..] == ps[k + 1..];
      assert MarkEach(FindProducts(st), ps[k..], found, now) == MarkEach(FindProducts(st'), ps[k + 1..], found, now);
      MarkEachMarks(st', ps, found, k + 1, now);
    }
  }

  /**
    The happy path, for any order whose UPCs are distinct: start, mark every
    product found, advance, choose the cash register, complete.
   */
  lemma HappyPath(order: Order, t0: int, t1: int)
    requires 0 < |order.products| && DistinctUpcs(order.products)
    ensures var s1 := Step(ViewDidAppear(Initial, order), StartOrder, t0);
            var s2 := MarkEach(s1, order.products, true, t0);
            var s3 := Step(s2, AdvanceToDelivery, t0);
            var s4 := Step(s3, ToggleOption("Cash Register"), t0);
            var s5 := Step(s4, AdvanceToCompleted, t1);
            && s2.FindProducts? && s2.findProducts.nextAction == Some(AdvanceToDelivery)
            && s4.ChooseDeliveryLocation? && s4.chooseDelivery.nextAction == Some(AdvanceToCompleted)
            && s5.Completed?
            && s5.completed.deliveryLocation == "Cash Register"
            && s5.completed.products == order.products
            && s5.completed.numberOfProductsRequested == |order.products|
            && s5.completed.elapsedTime == Abs(t1 - t0)
            && s5.completed.instructions == SeedInstructions + ["Deliver to Cash Register"]
  {
    var ps := order.products;
    var s1 := Step(ViewDidAppear(Initial, order), StartOrder, t0);
    assert MarkedUpTo(s1.findProducts, ps, true, 0);
    assert ps[0..] == ps;
    MarkEachMarks(s1.findProducts, ps, true, 0, t0);
    var s2 := MarkEach(s1, ps, true, t0);
    var fps := s2.findProducts.findableProducts;
    assert fps[0].status == Found;
    FoundProductsAllFound(fps);
    assert FoundProducts(fps) == ps;
    DeliverToRegister(s2.findProducts, t0, t1);
  }

  /** From the finding screen: advance, choose the cash register, complete. */
  lemma DeliverToRegister(st: FindProductsState, t0: int, t1: int)
    ensures var s3 := Step(FindProducts(st), AdvanceToDelivery, t0);
            var s4 := Step(s3, ToggleOption("Cash Register"), t0);
            var s5 := Step(s4, AdvanceToCompleted, t1);
            && s4.ChooseDeliveryLocation? && s4.chooseDelivery.nextAction == Some(AdvanceToCompleted)
            && s5.Completed?
            && s5.completed.deliveryLocation == "Cash Register"
            && s5.completed.products == FoundProducts(st.findableProducts)
            && s5.completed.numberOfProductsRequested == |st.findableProducts|
            && s5.completed.elapsedTime == Abs(t1 - st.startTime)
            && s5.completed.instructions == st.instructions + ["Deliver to Cash Register"]
  {
    var c3 := DeliveryStateFrom(st);
    var c4 := WithOptionToggled(c3, "Cash Register");
    assert c4.deliveryLocationPreference == Some("Cash Register");
    var done := CompletedStateFrom(c4, t1);
    assert Step(ChooseDeliveryLocation(c4), AdvanceToCompleted, t1) == Completed(done);
    assert done.deliveryLocation == "Cash Register";
    assert "Deliver to " + "Cash Register" == "Deliver to Cash Register";
    assert done.elapsedTime == Abs(t1 - st.startTime);
  }

  /** The seeded order completes with all four products. */
  lemma SeedOrderHappyPath(t0: int, t1: int)
    ensures var s1 := Step(ViewDidAppear(Initial, SeedOrder), StartOrder, t0);
            var s2 := MarkEach(s1, SeedOrder.products, true, t0);
            var s5 := Step(Step(Step(s2, AdvanceToDelivery, t0), ToggleOption("Cash Register"), t0), AdvanceToCompleted, t1);
            s5.Completed? && s5.completed.deliveryLocation == "Cash Register" && |s5.completed.products| == 4
  {
    SeedOrderDistinct();
    HappyPath(SeedOrder, t0, t1);
  }

  /** Any non-empty order whose products are all not found is canceled. */
  lemma NothingFoundPath(order: Order, t0: int, t1: int)
    requires 0 < |order.products| && DistinctUpcs(order.products)
    ensures var s1 := Step(ViewDidAppear(Initial, order), StartOrder, t0);
            var s2 := MarkEach(s1, order.products, false, t0);
            var s3 := Step(s2, AdvanceToCanceled, t1);
            && s2.FindProducts? && s2.findProducts.nextAction == Some(AdvanceToCanceled)
            && s3.Canceled?
            && s3.canceled.instructions == SeedInstructions + ["You're all set!"]
            && s3.canceled.elapsedTime == Abs(t1 - t0)
  {
    var ps := order.products;
    var s1 := Step(ViewDidAppear(Initial, order), StartOrder, t0);
    assert MarkedUpTo(s1.findProducts, ps, false, 0);
    assert ps[0..] == ps;
    MarkEachMarks(s1.findProducts, ps, false, 0, t0);
  }

  /** The new status comes from the action's payload, not from the stored entry. */
  lemma ToggleReadsPayloadStatus(st: FindProductsState, p: Product, now: int)
    requires |st.findableProducts| == 1 && st.findableProducts[0] == FindableProduct(p, Unknown)
    ensures var r := Step(FindProducts(st), ToggleProductFound(FindableProduct(p, Found)), now);
            r.findProducts.findableProducts == [FindableProduct(p, Unknown)]
  {
  }

  /** Two entries sharing a UPC are both replaced by one toggle. */
  lemma DuplicateUpcsAllReplaced(st: FindProductsState, p: Product, q: Product, now: int)
    requires p.upc == q.upc
    requires st.findableProducts == [FindableProduct(p, Unknown), FindableProduct(q, Unknown)]
    ensures var r := Step(FindProducts(st), ToggleProductFound(FindableProduct(p, Unknown)), now);
            r.findProducts.findableProducts == [FindableProduct(p, Found), FindableProduct(p, Found)]
  {
  }

  /** Advancing is allowed while the button is hidden: only the variant is checked. */
  lemma AdvanceNotGated(st: FindProductsState, now: int)
    requires st.nextAction.None?
    ensures Step(FindProducts(st), AdvanceToDelivery, now).ChooseDeliveryLocation?
    ensures Step(FindProducts(st), AdvanceToCanceled, now).Canceled?
  {
  }

  /** An action meant for another screen changes nothing. */
  lemma IrrelevantActionIgnored(st: FindProductsState, o: string, now: int)
    ensures Step(FindProducts(st), ToggleOption(o), now) == FindProducts(st)
    ensures Step(FindProducts(st), AdvanceToCompleted, now) == FindProducts(st)
    ensures Step(FindProducts(st), StartOrder, now) == FindProducts(st)
  {
  }
}
