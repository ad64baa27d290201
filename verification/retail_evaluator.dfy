/**
  The order-fulfilment state machine. Each handler first checks that the
  current state is the variant it works on and otherwise returns without
  doing anything; illegal actions are swallowed, never reported.

  The handlers are given twice. `Step` is the pure transition function on
  states. `Dispatch` follows the evaluator's own assignments to its
  broadcasting state cell one by one (a product toggle assigns twice), and
  `DispatchFollowsStep` proves that both agree. The wall clock is the integer
  parameter `now`.
 */
module RetailEvaluator {
  import opened Wrappers
  import opened RetailModel
  import opened Passables
  import ActionEvaluating

  /** The hard-coded order every evaluator starts with. */
  const SeedOrder: Order := Order("6398327", [
    Product("MacBook Pro 13\U{201D} 1TB", "885909918161", "macbookpro13", "Bin 1A"),
    Product("iPad Pro 11\U{201D} 128gb", "888462533391", "ipadpro11", "Bin 2B"),
    Product("Magic Keyboard for iPad Pro 11\U{201D}", "888462153501", "magickeyboard11", "Bin 3A"),
    Product("Airpods Pro", "190199246850", "airpodspro", "Bin 2C")
  ])

  const CustomerName: string := "Bob Dobalina"

  const SeedInstructions: seq<string> := [
    "Tap start to claim this order",
    "Mark items found or not found",
    "Choose a Delivery Location"
  ]

  const DeliveryChoices: seq<string> := ["Cash Register", "Front Door"]

  /** Where an order is delivered when no preference was chosen. */
  const UnknownLocation: string := "Unknown Location"

  /** The closing instruction of a canceled order. */
  const AllSetInstruction: string := "You're all set!"

  function Abs(x: int): (r: nat)
    ensures r == x || r == -x
  {
    if x < 0 then -x else x
  }

  // ---------------------------------------------------------------------------
  // View cycle

  /** The record `viewDidAppear` builds from the order. */
  function Seeded(order: Order): (st: NotStartedState)
    ensures st.customer == CustomerName
    ensures |st.instructions| == 3 && st.instructions == SeedInstructions
    ensures st.orderID == order.id && st.products == order.products
    ensures st.startAction == StartOrder
  {
    NotStartedState(CustomerName, SeedInstructions, order.id, order.products, StartOrder)
  }

  /** Leaves `initial` for `notStarted`; from any other state it does nothing. */
  function ViewDidAppear(s: State, order: Order): (r: State)
    ensures s.Initial? ==> r == NotStarted(Seeded(order))
    ensures !s.Initial? ==> r == s
    ensures !r.Initial?
  {
    if s.Initial? then NotStarted(Seeded(order)) else s
  }

  /** A second appearance of the view changes nothing. */
  lemma ViewDidAppearOnce(s: State, order: Order, other: Order)
    ensures ViewDidAppear(ViewDidAppear(s, order), other) == ViewDidAppear(s, order)
  {
  }

  // ---------------------------------------------------------------------------
  // Starting the order

  /** Every product of the order, paired with status `unknown`. */
  function AsUnknown(products: seq<Product>): (r: seq<FindableProduct>)
    ensures |r| == |products|
    ensures forall i :: 0 <= i < |r| ==> r[i].product == products[i] && r[i].status == Unknown
    decreases |products|
  {
    if |products| == 0 then [] else [FindableProduct(products[0], Unknown)] + AsUnknown(products[1..])
  }

  function StartedOrder(st: NotStartedState, now: int): (r: FindProductsState)
    ensures r.customer == st.customer && r.instructions == st.instructions && r.orderID == st.orderID
    ensures |r.findableProducts| == |st.products|
    ensures forall i :: 0 <= i < |st.products| ==>
              r.findableProducts[i] == FindableProduct(st.products[i], Unknown)
    ensures r.focusedInstructionIndex == 1
    ensures r.startTime == now
    ensures r.nextAction.None?
  {
    FindProductsState(st.customer, st.instructions, 1, st.orderID, AsUnknown(st.products), now, None)
  }

  function StartOrderStep(s: State, now: int): (r: State)
    ensures !s.NotStarted? ==> r == s
    ensures s.NotStarted? ==> r == FindProducts(StartedOrder(s.notStarted, now))
  {
    if s.NotStarted? then FindProducts(StartedOrder(s.notStarted, now)) else s
  }

  // ---------------------------------------------------------------------------
  // Advancing to delivery

  /** The products marked found, in list order (a `compactMap`). */
  function FoundProducts(fps: seq<FindableProduct>): (r: seq<Product>)
    ensures |r| == CountStatus(fps, Found)
    decreases |fps|
  {
    if |fps| == 0 then []
    else (if fps[0].status == Found then [fps[0].product] else []) + FoundProducts(fps[1..])
  }

  /** A product is kept exactly when some entry carrying it is marked found. */
  lemma {:induction false} FoundProductsMembers(fps: seq<FindableProduct>, p: Product)
    ensures p in FoundProducts(fps) <==> exists i :: 0 <= i < |fps| && fps[i].status == Found && fps[i].product == p
    decreases |fps|
  {
    if |fps| > 0 {
      FoundProductsMembers(fps[1..], p);
      var head := if fps[0].status == Found then [fps[0].product] else [];
      assert FoundProducts(fps) == head + FoundProducts(fps[1..]);
      assert forall i :: 1 <= i < |fps| ==> fps[i] == fps[1..][i - 1];
      if exists i :: 0 <= i < |fps| && fps[i].status == Found && fps[i].product == p {
        var i :| 0 <= i < |fps| && fps[i].status == Found && fps[i].product == p;
        if i > 0 {
          assert fps[1..][i - 1].status == Found && fps[1..][i - 1].product == p;
        }
      }
    }
  }

  /** Keeping the found products commutes with splitting the list: their order is kept. */
  lemma {:induction false} FoundProductsAppend(a: seq<FindableProduct>, b: seq<FindableProduct>)
    ensures FoundProducts(a + b) == FoundProducts(a) + FoundProducts(b)
    decreases |a|
  {
    if |a| == 0 {
      assert a + b == b;
    } else {
      assert (a + b)[0] == a[0];
      assert (a + b)[1..] == a[1..] + b;
      FoundProductsAppend(a[1..], b);
    }
  }

  /** When every product was found, every product is kept. */
  lemma {:induction false} FoundProductsAllFound(fps: seq<FindableProduct>)
    requires forall i :: 0 <= i < |fps| ==> fps[i].status == Found
    ensures |FoundProducts(fps)| == |fps|
    ensures forall i :: 0 <= i < |fps| ==> FoundProducts(fps)[i] == fps[i].product
    decreases |fps|
  {
    if |fps| > 0 {
      FoundProductsAllFound(fps[1..]);
    }
  }

  function DeliveryStateFrom(st: FindProductsState): (r: ChooseDeliveryLocationState)
    ensures r.customer == st.customer && r.instructions == st.instructions && r.orderID == st.orderID
    ensures r.products == FoundProducts(st.findableProducts)
    ensures r.numberOfProductsRequested == |st.findableProducts| >= |r.products|
    ensures r.deliveryLocationChoices == ["Cash Register", "Front Door"]
    ensures r.deliveryLocationPreference.None? && r.nextAction.None?
    ensures r.startTime == st.startTime
    ensures r.focusedInstructionIndex == 2
  {
    ChooseDeliveryLocationState(
      st.customer, st.instructions, 2, st.orderID,
      FoundProducts(st.findableProducts), |st.findableProducts|,
      DeliveryChoices, None, st.startTime, None)
  }

  /** Not gated on `nextAction`: only the variant is checked. */
  function AdvanceToDeliveryStep(s: State): (r: State)
    ensures !s.FindProducts? ==> r == s
    ensures s.FindProducts? ==> r == ChooseDeliveryLocation(DeliveryStateFrom(s.findProducts))
  {
    if s.FindProducts? then ChooseDeliveryLocation(DeliveryStateFrom(s.findProducts)) else s
  }

  // ---------------------------------------------------------------------------
  // Terminal states

  function CompletedStateFrom(st: ChooseDeliveryLocationState, now: int): (r: CompletedState)
    ensures r.deliveryLocation == (if st.deliveryLocationPreference.Some? then st.deliveryLocationPreference.value else "Unknown Location")
    ensures r.instructions == st.instructions + ["Deliver to " + r.deliveryLocation]
    ensures r.customer == st.customer && r.orderID == st.orderID
    ensures r.products == st.products && r.numberOfProductsRequested == st.numberOfProductsRequested
    ensures r.timeCompleted == now
    ensures r.elapsedTime == now - st.startTime || r.elapsedTime == st.startTime - now
    ensures r.focusedInstructionIndex == 3 && r.doneAction == Done
  {
    var location := st.deliveryLocationPreference.GetOr(UnknownLocation);
    CompletedState(
      st.customer, st.instructions + ["Deliver to " + location], 3, st.orderID,
      st.deliveryLocationPreference.GetOr(UnknownLocation), st.products,
      st.numberOfProductsRequested, now, Abs(st.startTime - now), Done)
  }

  function AdvanceToCompletedStep(s: State, now: int): (r: State)
    ensures !s.ChooseDeliveryLocation? ==> r == s
    ensures s.ChooseDeliveryLocation? ==> r == Completed(CompletedStateFrom(s.chooseDelivery, now))
  {
    if s.ChooseDeliveryLocation? then Completed(CompletedStateFrom(s.chooseDelivery, now)) else s
  }

  function CanceledStateFrom(st: FindProductsState, now: int): (r: CanceledState)
    ensures r.instructions == st.instructions + ["You're all set!"]
    ensures r.customer == st.customer && r.orderID == st.orderID
    ensures r.timeCompleted == now
    ensures r.elapsedTime == now - st.startTime || r.elapsedTime == st.startTime - now
    ensures r.focusedInstructionIndex == 3 && r.doneAction == Done
  {
    CanceledState(
      st.customer, st.instructions + [AllSetInstruction], 3, st.orderID,
      now, Abs(st.startTime - now), Done)
  }

  /** Not gated on `nextAction`: only the variant is checked. */
  function AdvanceToCanceledStep(s: State, now: int): (r: State)
    ensures !s.FindProducts? ==> r == s
    ensures s.FindProducts? ==> r == Canceled(CanceledStateFrom(s.findProducts, now))
  {
    if s.FindProducts? then Canceled(CanceledStateFrom(s.findProducts, now)) else s
  }

  // ---------------------------------------------------------------------------
  // Product finding

  /** The status `toggleProductFound` gives a product that had status `st`. */
  function ToggledFound(st: FoundStatus): (r: FoundStatus)
    ensures r == Unknown <==> st == Found
    ensures r != NotFound
  {
    match st
    case Found => Unknown
    case NotFound => Found
    case Unknown => Found
  }

  /** The status `toggleProductNotFound` gives a product that had status `st`. */
  function ToggledNotFound(st: FoundStatus): (r: FoundStatus)
    ensures r == Unknown <==> st == NotFound
    ensures r != Found
  {
    match st
    case NotFound => Unknown
    case Found => NotFound
    case Unknown => NotFound
  }

  /** Each toggle undoes itself on the statuses it produces. */
  lemma ToggleTwice(st: FoundStatus)
    ensures st != NotFound ==> ToggledFound(ToggledFound(st)) == st
    ensures st != Found ==> ToggledNotFound(ToggledNotFound(st)) == st
    ensures ToggledNotFound(ToggledFound(st)) == NotFound
    ensures ToggledFound(ToggledNotFound(st)) == Found
  {
  }

  /** Replaces EVERY entry whose UPC equals the modified product's UPC (a `map`). */
  function ReplaceByUpc(fps: seq<FindableProduct>, m: FindableProduct): (r: seq<FindableProduct>)
    ensures |r| == |fps|
    ensures forall i :: 0 <= i < |fps| && fps[i].product.upc == m.product.upc ==> r[i] == m
    ensures forall i :: 0 <= i < |fps| && fps[i].product.upc != m.product.upc ==> r[i] == fps[i]
    decreases |fps|
  {
    if |fps| == 0 then []
    else [if fps[0].product.upc == m.product.upc then m else fps[0]] + ReplaceByUpc(fps[1..], m)
  }

  /** A UPC that is not in the list changes nothing. */
  lemma ReplaceByUpcAbsent(fps: seq<FindableProduct>, m: FindableProduct)
    requires forall i :: 0 <= i < |fps| ==> fps[i].product.upc != m.product.upc
    ensures ReplaceByUpc(fps, m) == fps
  {
  }

  /** The list of UPCs, and so each entry's position, is preserved. */
  lemma ReplaceByUpcKeepsUpcs(fps: seq<FindableProduct>, m: FindableProduct)
    ensures forall i :: 0 <= i < |fps| ==> ReplaceByUpc(fps, m)[i].product.upc == fps[i].product.upc
  {
  }

  /** Replacing with the same product twice is replacing once. */
  lemma ReplaceByUpcIdempotent(fps: seq<FindableProduct>, m: FindableProduct)
    ensures ReplaceByUpc(ReplaceByUpc(fps, m), m) == ReplaceByUpc(fps, m)
  {
  }

  /**
    The button action the findable list calls for: none while a status is
    unknown; cancel when every product is not found (also for an empty
    list); otherwise on to delivery.
   */
  function NextActionFor(fps: seq<FindableProduct>): (r: Option<Action>)
    ensures r.None? <==> exists i :: 0 <= i < |fps| && fps[i].status == Unknown
    ensures r == Some(AdvanceToCanceled) <==> forall i :: 0 <= i < |fps| ==> fps[i].status == NotFound
    ensures r == Some(AdvanceToDelivery) <==>
              (forall i :: 0 <= i < |fps| ==> fps[i].status != Unknown) &&
              (exists i :: 0 <= i < |fps| && fps[i].status == Found)
  {
    CountStatusZero(fps, Unknown);
    CountStatusZero(fps, Found);
    CountStatusFull(fps, NotFound);
    var ready := CountStatus(fps, Unknown) == 0;
    var noneFound := CountStatus(fps, NotFound) == |fps|;
    if ready then (if noneFound then Some(AdvanceToCanceled) else Some(AdvanceToDelivery)) else None
  }

  /** `updateFindableProduct`: the record assigned first by a toggle. */
  function WithProductReplaced(st: FindProductsState, m: FindableProduct): (r: FindProductsState)
    ensures r.findableProducts == ReplaceByUpc(st.findableProducts, m)
    ensures r == st.(findableProducts := r.findableProducts)
  {
    st.(findableProducts := ReplaceByUpc(st.findableProducts, m))
  }

  /** `updateNextActionForFindableProducts`: the record assigned second by a toggle. */
  function WithNextActionRecomputed(st: FindProductsState): (r: FindProductsState)
    ensures r.nextAction == NextActionFor(st.findableProducts)
    ensures r == st.(nextAction := r.nextAction)
  {
    st.(nextAction := NextActionFor(st.findableProducts))
  }

  /** The payload carried by the action, with its OWN status toggled. */
  function ModifiedProduct(a: Action): (m: FindableProduct)
    requires a.ToggleProductFound? || a.ToggleProductNotFound?
    ensures m.product == a.findable.product
    ensures a.ToggleProductFound? ==> m.status == ToggledFound(a.findable.status)
    ensures a.ToggleProductNotFound? ==> m.status == ToggledNotFound(a.findable.status)
  {
    if a.ToggleProductFound? then FindableProduct(a.findable.product, ToggledFound(a.findable.status))
    else FindableProduct(a.findable.product, ToggledNotFound(a.findable.status))
  }

  function ToggleProductStep(s: State, m: FindableProduct): (r: State)
    ensures !s.FindProducts? ==> r == s
    ensures s.FindProducts? ==> r.FindProducts?
    ensures s.FindProducts? ==> r.findProducts.findableProducts == ReplaceByUpc(s.findProducts.findableProducts, m)
    ensures s.FindProducts? ==> r.findProducts.nextAction == NextActionFor(r.findProducts.findableProducts)
    ensures s.FindProducts? ==>
              r.findProducts == s.findProducts.(findableProducts := r.findProducts.findableProducts,
                                                nextAction := r.findProducts.nextAction)
  {
    if s.FindProducts? then FindProducts(WithNextActionRecomputed(WithProductReplaced(s.findProducts, m))) else s
  }

  // ---------------------------------------------------------------------------
  // Option toggling

  function WithOptionToggled(st: ChooseDeliveryLocationState, o: string): (r: ChooseDeliveryLocationState)
    ensures st.deliveryLocationPreference == Some(o) ==> r.deliveryLocationPreference.None? && r.nextAction.None?
    ensures st.deliveryLocationPreference != Some(o) ==>
              r.deliveryLocationPreference == Some(o) && r.nextAction == Some(AdvanceToCompleted)
    ensures r == st.(deliveryLocationPreference := r.deliveryLocationPreference, nextAction := r.nextAction)
  {
    if st.deliveryLocationPreference == Some(o) then st.(deliveryLocationPreference := None, nextAction := None)
    else st.(deliveryLocationPreference := Some(o), nextAction := Some(AdvanceToCompleted))
  }

  function ToggleOptionStep(s: State, o: string): (r: State)
    ensures !s.ChooseDeliveryLocation? ==> r == s
    ensures s.ChooseDeliveryLocation? ==> r == ChooseDeliveryLocation(WithOptionToggled(s.chooseDelivery, o))
  {
    if s.ChooseDeliveryLocation? then ChooseDeliveryLocation(WithOptionToggled(s.chooseDelivery, o)) else s
  }

  /** Toggling one option twice clears the choice, unless it was already chosen. */
  lemma ToggleOptionTwice(st: ChooseDeliveryLocationState, o: string)
    ensures st.deliveryLocationPreference != Some(o) ==>
              var r := WithOptionToggled(WithOptionToggled(st, o), o);
              r.deliveryLocationPreference.None? && r.nextAction.None?
    ensures st.deliveryLocationPreference == Some(o) && st.nextAction == Some(AdvanceToCompleted) ==>
              WithOptionToggled(WithOptionToggled(st, o), o) == st
  {
  }

  // ---------------------------------------------------------------------------
  // The transition function

  /** The variant each action's handler works on; `done` works on none. */
  predicate Accepts(s: State, a: Action) {
    match a
    case StartOrder => s.NotStarted?
    case AdvanceToDelivery => s.FindProducts?
    case AdvanceToCanceled => s.FindProducts?
    case ToggleProductFound(_) => s.FindProducts?
    case ToggleProductNotFound(_) => s.FindProducts?
    case AdvanceToCompleted => s.ChooseDeliveryLocation?
    case ToggleOption(_) => s.ChooseDeliveryLocation?
    case Done => false
  }

  /** Position of a variant along the workflow. */
  function Rank(s: State): nat {
    match s
    case Initial => 0
    case NotStarted(_) => 1
    case FindProducts(_) => 2
    case ChooseDeliveryLocation(_) => 3
    case Completed(_) => 4
    case Canceled(_) => 4
  }

  function Step(s: State, a: Action, now: int): (r: State)
    ensures !Accepts(s, a) ==> r == s
    ensures Rank(r) >= Rank(s)
    ensures r.Completed? && !s.Completed? ==> s.ChooseDeliveryLocation? && a == AdvanceToCompleted
    ensures r.Canceled? && !s.Canceled? ==> s.FindProducts? && a == AdvanceToCanceled
  {
    match a
    case StartOrder => StartOrderStep(s, now)
    case AdvanceToDelivery => AdvanceToDeliveryStep(s)
    case AdvanceToCompleted => AdvanceToCompletedStep(s, now)
    case AdvanceToCanceled => AdvanceToCanceledStep(s, now)
    case Done => s
    case ToggleOption(o) => ToggleOptionStep(s, o)
    case ToggleProductFound(_) => ToggleProductStep(s, ModifiedProduct(a))
    case ToggleProductNotFound(_) => ToggleProductStep(s, ModifiedProduct(a))
  }

  /** `completed` and `canceled` absorb every action. */
  lemma TerminalAbsorbs(s: State, a: Action, now: int)
    requires s.Completed? || s.Canceled?
    ensures Step(s, a, now) == s
  {
  }

  // ---------------------------------------------------------------------------
  // The invariant every reachable state keeps

  /** The focused instruction always names one of the instructions shown. */
  predicate FocusInRange(s: State) {
    match s
    case Initial => true
    case NotStarted(_) => true
    case FindProducts(st) => 0 <= st.focusedInstructionIndex < |st.instructions|
    case ChooseDeliveryLocation(st) => 0 <= st.focusedInstructionIndex < |st.instructions|
    case Completed(st) => 0 <= st.focusedInstructionIndex < |st.instructions|
    case Canceled(st) => 0 <= st.focusedInstructionIndex < |st.instructions|
  }

  /**
    What the handlers maintain. `nextAction` is what the findable list calls
    for, except right after starting an empty order (the start leaves it
    unset and only a toggle recomputes it); a delivery preference and the
    complete action are set together.
   */
  ghost predicate Consistent(s: State) {
    match s
    case Initial => true
    case NotStarted(st) => st.startAction == StartOrder && |st.instructions| == 3
    case FindProducts(st) =>
      && st.focusedInstructionIndex == 1 && |st.instructions| == 3
      && (st.nextAction == NextActionFor(st.findableProducts)
          || (|st.findableProducts| == 0 && st.nextAction.None?))
    case ChooseDeliveryLocation(st) =>
      && st.focusedInstructionIndex == 2 && |st.instructions| == 3
      && st.deliveryLocationChoices == DeliveryChoices
      && |st.products| <= st.numberOfProductsRequested
      && (st.deliveryLocationPreference.None? <==> st.nextAction.None?)
      && (st.nextAction.Some? ==> st.nextAction.value == AdvanceToCompleted)
    case Completed(st) =>
      && st.focusedInstructionIndex == 3 && |st.instructions| == 4
      && st.doneAction == Done && |st.products| <= st.numberOfProductsRequested
    case Canceled(st) =>
      && st.focusedInstructionIndex == 3 && |st.instructions| == 4 && st.doneAction == Done
  }

  lemma ViewDidAppearConsistent(s: State, order: Order)
    requires Consistent(s)
    ensures Consistent(ViewDidAppear(s, order))
  {
  }

  lemma StepConsistent(s: State, a: Action, now: int)
    requires Consistent(s)
    ensures Consistent(Step(s, a, now))
  {
    if s.FindProducts? && a.ToggleProductFound? {
      assert Step(s, a, now) == ToggleProductStep(s, ModifiedProduct(a));
    }
  }

  lemma ConsistentFocusInRange(s: State)
    requires Consistent(s)
    ensures FocusInRange(s)
  {
  }

  // ---------------------------------------------------------------------------
  // The evaluator object: its broadcasting state cell, its order, and the
  // dismiss requests it has sent.

  datatype Machine = Machine(current: PassableState<State>, order: Order, dismissals: nat)

  /** A freshly constructed evaluator. */
  function NewMachine(): (m: Machine)
    ensures m.current.state == Initial && |m.current.emitted| == 0
    ensures m.order == SeedOrder && m.dismissals == 0
  {
    Machine(Make(Initial), SeedOrder, 0)
  }

  function MachineViewDidAppear(m: Machine): (r: Machine)
    ensures r.current.state == ViewDidAppear(m.current.state, m.order)
    ensures |r.current.emitted| == |m.current.emitted| + (if m.current.state.Initial? then 1 else 0)
    ensures r.current.emitted[..|m.current.emitted|] == m.current.emitted
    ensures m.current.state.Initial? ==> r.current.emitted[|m.current.emitted|] == r.current.state
    ensures !m.current.state.Initial? ==> r == m
    ensures r.order == m.order && r.dismissals == m.dismissals
  {
    if m.current.state.Initial? then m.(current := Assign(m.current, NotStarted(Seeded(m.order)))) else m
  }

  /** Appearing keeps the cell settled: its state is the last value broadcast. */
  lemma MachineViewDidAppearSettles(m: Machine)
    requires Settled(m.current)
    ensures Settled(MachineViewDidAppear(m).current)
  {
  }

  /**
    `updateFindableProduct(_:on:)`: one broadcast of the record it was handed,
    with the list replaced by UPC and its stale `nextAction` kept.
   */
  function UpdateFindableProduct(c: PassableState<State>, m: FindableProduct, st: FindProductsState): (r: PassableState<State>)
    ensures r.emitted == c.emitted + [r.state]
    ensures r.state.FindProducts?
    ensures r.state.findProducts.findableProducts == ReplaceByUpc(st.findableProducts, m)
    ensures r.state.findProducts.nextAction == st.nextAction
  {
    Assign(c, FindProducts(WithProductReplaced(st, m)))
  }

  /**
    `updateNextActionForFindableProducts()`: re-reads the cell; while finding,
    broadcasts the same list with the action it calls for, otherwise nothing.
   */
  function UpdateNextActionForFindableProducts(c: PassableState<State>): (r: PassableState<State>)
    ensures !c.state.FindProducts? ==> r == c
    ensures c.state.FindProducts? ==> r.emitted == c.emitted + [r.state] && r.state.FindProducts?
    ensures c.state.FindProducts? ==>
              r.state.findProducts.findableProducts == c.state.findProducts.findableProducts
              && r.state.findProducts.nextAction == NextActionFor(c.state.findProducts.findableProducts)
  {
    if c.state.FindProducts? then Assign(c, FindProducts(WithNextActionRecomputed(c.state.findProducts))) else c
  }

  /**
    `_evaluate(action)`, assignment by assignment: earlier broadcasts are
    kept, the cell's state is whatever it broadcast last, nothing changes
    when nothing is broadcast, only `done` asks for a dismissal, and the
    order is never touched.
   */
  function Dispatch(m: Machine, a: Action, now: int): (r: Machine)
    ensures |r.current.emitted| >= |m.current.emitted|
    ensures r.current.emitted[..|m.current.emitted|] == m.current.emitted
    ensures |r.current.emitted| > |m.current.emitted| ==> r.current.state == r.current.emitted[|r.current.emitted| - 1]
    ensures |r.current.emitted| == |m.current.emitted| ==> r.current == m.current
    ensures r.dismissals == m.dismissals + (if a.Done? then 1 else 0)
    ensures r.order == m.order
  {
    var c := m.current;
    match a
    case StartOrder =>
      if c.state.NotStarted? then m.(current := Assign(c, FindProducts(StartedOrder(c.state.notStarted, now)))) else m
    case AdvanceToDelivery =>
      if c.state.FindProducts? then m.(current := Assign(c, ChooseDeliveryLocation(DeliveryStateFrom(c.state.findProducts)))) else m
    case AdvanceToCompleted =>
      if c.state.ChooseDeliveryLocation? then m.(current := Assign(c, Completed(CompletedStateFrom(c.state.chooseDelivery, now)))) else m
    case AdvanceToCanceled =>
      if c.state.FindProducts? then m.(current := Assign(c, Canceled(CanceledStateFrom(c.state.findProducts, now)))) else m
    case Done =>
      m.(dismissals := m.dismissals + 1)
    case ToggleOption(o) =>
      if c.state.ChooseDeliveryLocation? then m.(current := Assign(c, ChooseDeliveryLocation(WithOptionToggled(c.state.chooseDelivery, o)))) else m
    case ToggleProductFound(_) =>
      if c.state.FindProducts?
      then m.(current := UpdateNextActionForFindableProducts(UpdateFindableProduct(c, ModifiedProduct(a), c.state.findProducts)))
      else m
    case ToggleProductNotFound(_) =>
      if c.state.FindProducts?
      then m.(current := UpdateNextActionForFindableProducts(UpdateFindableProduct(c, ModifiedProduct(a), c.state.findProducts)))
      else m
  }

  /** How many state broadcasts one action causes. */
  function BroadcastCount(s: State, a: Action): nat {
    if !Accepts(s, a) then 0
    else if a.ToggleProductFound? || a.ToggleProductNotFound? then 2
    else 1
  }

  /**
    The cell-level evaluator agrees with `Step`: the state it ends in is
    `Step`'s, it appends exactly `BroadcastCount` broadcasts of which the last
    is the new state, only `done` requests a dismissal, and the order is kept.
   */
  lemma DispatchFollowsStep(m: Machine, a: Action, now: int)
    ensures Dispatch(m, a, now).current.state == Step(m.current.state, a, now)
    ensures |Dispatch(m, a, now).current.emitted| == |m.current.emitted| + BroadcastCount(m.current.state, a)
    ensures Dispatch(m, a, now).current.emitted[..|m.current.emitted|] == m.current.emitted
    ensures BroadcastCount(m.current.state, a) > 0 ==>
              Dispatch(m, a, now).current.emitted[|Dispatch(m, a, now).current.emitted| - 1] == Step(m.current.state, a, now)
    ensures Dispatch(m, a, now).dismissals == m.dismissals + (if a.Done? then 1 else 0)
    ensures Dispatch(m, a, now).order == m.order
  {
    var c := m.current;
    if (a.ToggleProductFound? || a.ToggleProductNotFound?) && c.state.FindProducts? {
      var c1 := UpdateFindableProduct(c, ModifiedProduct(a), c.state.findProducts);
      var c2 := UpdateNextActionForFindableProducts(c1);
      assert c2.emitted == c.emitted + [c1.state, c2.state];
    }
  }

  /**
    A product toggle broadcasts the replaced list first, still carrying the
    previous `nextAction`, and only then the recomputed one.
   */
  lemma ToggleBroadcastsStaleFirst(m: Machine, a: Action, now: int)
    requires a.ToggleProductFound? || a.ToggleProductNotFound?
    requires m.current.state.FindProducts?
    ensures var first := Dispatch(m, a, now).current.emitted[|m.current.emitted|];
            && first.FindProducts?
            && first.findProducts.nextAction == m.current.state.findProducts.nextAction
            && first.findProducts.findableProducts == ReplaceByUpc(m.current.state.findProducts.findableProducts, ModifiedProduct(a))
  {
    DispatchFollowsStep(m, a, now);
  }

  /** Once settled, the cell stays settled: its state is the last broadcast. */
  lemma DispatchSettles(m: Machine, a: Action, now: int)
    requires Settled(m.current)
    ensures Settled(Dispatch(m, a, now).current)
  {
    DispatchFollowsStep(m, a, now);
  }

  /** `evaluate(_:)` on this evaluator, with the clock reading its handlers see. */
  function Evaluate(e: ActionEvaluating.Evaluated<Machine, Action>, a: Option<Action>, now: int)
    : (r: ActionEvaluating.Evaluated<Machine, Action>)
    ensures a.None? ==> r == e
    ensures a.Some? ==> r.state == Dispatch(e.state, a.value, now)
    ensures a.Some? ==> r.breadcrumbs == e.breadcrumbs + [a.value]
    ensures r.state.order == e.state.order
  {
    ActionEvaluating.Evaluate((m, b) => Dispatch(m, b, now), e, a)
  }

  /** `evaluate(nil)` does nothing; `evaluate(a)` is one `Step` and one breadcrumb. */
  lemma EvaluateSteps(e: ActionEvaluating.Evaluated<Machine, Action>, a: Option<Action>, now: int)
    ensures a.None? ==> Evaluate(e, a, now) == e
    ensures a.Some? ==> Evaluate(e, a, now).state.current.state == Step(e.state.current.state, a.value, now)
    ensures a.Some? ==> Evaluate(e, a, now).breadcrumbs == e.breadcrumbs + [a.value]
  {
    if a.Some? {
      DispatchFollowsStep(e.state, a.value, now);
    }
  }
}
