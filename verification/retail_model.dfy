/**
  The data of the order-fulfilment workflow: the order and its products, the
  tri-state found status a picker assigns, the closed set of actions, and the
  workflow state as a tagged union with one record per variant. Every value
  is immutable; a transition replaces the whole state.
 */
module RetailModel {
  import opened Wrappers

  /** A catalogue item; `upc` is the key products are matched by. */
  datatype Product = Product(title: string, upc: string, image: string, location: string)

  datatype Order = Order(id: string, products: seq<Product>)

  datatype FoundStatus = Unknown | Found | NotFound

  datatype FindableProduct = FindableProduct(product: Product, status: FoundStatus)

  datatype Action =
    | StartOrder
    | AdvanceToDelivery
    | AdvanceToCompleted
    | AdvanceToCanceled
    | Done
    | ToggleOption(option: string)
    | ToggleProductFound(findable: FindableProduct)
    | ToggleProductNotFound(findable: FindableProduct)

  datatype NotStartedState = NotStartedState(
    customer: string,
    instructions: seq<string>,
    orderID: string,
    products: seq<Product>,
    startAction: Action)

  /** `startTime` is a reading of the integer clock. */
  datatype FindProductsState = FindProductsState(
    customer: string,
    instructions: seq<string>,
    focusedInstructionIndex: int,
    orderID: string,
    findableProducts: seq<FindableProduct>,
    startTime: int,
    nextAction: Option<Action>)

  datatype ChooseDeliveryLocationState = ChooseDeliveryLocationState(
    customer: string,
    instructions: seq<string>,
    focusedInstructionIndex: int,
    orderID: string,
    products: seq<Product>,
    numberOfProductsRequested: nat,
    deliveryLocationChoices: seq<string>,
    deliveryLocationPreference: Option<string>,
    startTime: int,
    nextAction: Option<Action>)

  /** `elapsedTime` is in whole clock ticks. */
  datatype CompletedState = CompletedState(
    customer: string,
    instructions: seq<string>,
    focusedInstructionIndex: int,
    orderID: string,
    deliveryLocation: string,
    products: seq<Product>,
    numberOfProductsRequested: nat,
    timeCompleted: int,
    elapsedTime: nat,
    doneAction: Action)

  datatype CanceledState = CanceledState(
    customer: string,
    instructions: seq<string>,
    focusedInstructionIndex: int,
    orderID: string,
    timeCompleted: int,
    elapsedTime: nat,
    doneAction: Action)

  datatype State =
    | Initial
    | NotStarted(notStarted: NotStartedState)
    | FindProducts(findProducts: FindProductsState)
    | ChooseDeliveryLocation(chooseDelivery: ChooseDeliveryLocationState)
    | Completed(completed: CompletedState)
    | Canceled(canceled: CanceledState)

  /** How many entries of a findable list carry status `st`. */
  function CountStatus(fps: seq<FindableProduct>, st: FoundStatus): (n: nat)
    ensures n <= |fps|
    decreases |fps|
  {
    if |fps| == 0 then 0
    else (if fps[0].status == st then 1 else 0) + CountStatus(fps[1..], st)
  }

  /** No entry has status `st` exactly when the count is zero. */
  lemma {:induction false} CountStatusZero(fps: seq<FindableProduct>, st: FoundStatus)
    ensures CountStatus(fps, st) == 0 <==> forall i :: 0 <= i < |fps| ==> fps[i].status != st
    decreases |fps|
  {
    if |fps| > 0 {
      CountStatusZero(fps[1..], st);
      assert forall i :: 1 <= i < |fps| ==> fps[i] == fps[1..][i - 1];
    }
  }

  /** Every entry has status `st` exactly when the count is the length. */
  lemma {:induction false} CountStatusFull(fps: seq<FindableProduct>, st: FoundStatus)
    ensures CountStatus(fps, st) == |fps| <==> forall i :: 0 <= i < |fps| ==> fps[i].status == st
    decreases |fps|
  {
    if |fps| > 0 {
      CountStatusFull(fps[1..], st);
      assert forall i :: 1 <= i < |fps| ==> fps[i] == fps[1..][i - 1];
    }
  }

  /** The three statuses partition the list. */
  lemma {:induction false} CountStatusPartition(fps: seq<FindableProduct>)
    ensures CountStatus(fps, Unknown) + CountStatus(fps, Found) + CountStatus(fps, NotFound) == |fps|
    decreases |fps|
  {
    if |fps| > 0 {
      CountStatusPartition(fps[1..]);
    }
  }
}
