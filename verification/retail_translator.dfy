/**
  The projection from workflow states to the flat display fields a screen
  renders. The translator subscribes to the evaluator's state broadcasts and
  runs `Translate` once per broadcast; each variant assigns the fields its
  screen shows and leaves the others as they were, so `Translate` takes the
  previous fields as well as the state. `Observe` is the subscription: the
  fold of `Translate` over the broadcasts in order.

  Sections are the kinds of component, in rendering order; the bindings the
  view attaches to each are not modelled. The completion summary keeps the
  raw values its text is formatted from.
 */
module RetailTranslator {
  import opened Wrappers
  import opened RetailModel
  import opened Numerals
  import opened Passables
  import RetailEvaluator

  datatype Section =
    | TopSpace
    | CustomerTitle
    | Space
    | Instructions
    | Divider
    | Feedback
    | DisplayableProducts
    | Options
    | CompletedTitle
    | CanceledTitle
    | CompletedSummary

  /** The bottom button: its label, whether it is enabled, and the action it sends. */
  datatype NamedEnabledAction = NamedEnabledAction(name: string, enabled: bool, action: Action)

  datatype DisplayableProduct = DisplayableProduct(product: Product, findableProduct: Option<FindableProduct>)

  /** A displayed product is identified by its product's UPC, whatever status it shows. */
  function Id(d: DisplayableProduct): string {
    d.product.upc
  }

  /**
    The completion summary: when the order was closed, the counts it reports,
    and the elapsed time. Its date and number formatting is not modelled.
   */
  datatype Summary =
    | NoSummary
    | CompletedOn(timeCompleted: int, productCount: nat, requested: nat, elapsedTime: nat)
    | CanceledOn(timeCompleted: int, elapsedTime: nat)

  datatype Fields = Fields(
    sections: seq<Section>,
    customerTitle: string,
    feedback: string,
    instructions: seq<string>,
    focusedInstructionIndex: Option<int>,
    allowsCollapsingAndExpanding: bool,
    deliveryOptions: seq<string>,
    deliveryPreference: string,
    displayableProducts: seq<DisplayableProduct>,
    completedSummary: Summary,
    bottomButtonAction: Option<NamedEnabledAction>)

  /** The fields of a freshly constructed translator. */
  const InitialFields: Fields :=
    Fields([], "", "", [], None, false, [], "", [], NoSummary, None)

  // ---------------------------------------------------------------------------
  // Text

  function PluralizedProduct(count: int): (word: string)
    ensures word == "product" <==> count == 1
    ensures word == "products" <==> count != 1
  {
    if count == 1 then "product" else "products"
  }

  /** The customer title; the customer's name reads back from after the fixed prefix. */
  function Title(customer: string): (t: string)
    ensures |t| == 11 + |customer|
    ensures t[..11] == "Order for \n" && t[11..] == customer
  {
    "Order for \n" + customer
  }

  /** `"\(n) \(pluralizedProduct(n))"` followed by `tail`. */
  function CountPhrase(n: nat, tail: string): string {
    NatToString(n) + " " + PluralizedProduct(n) + tail
  }

  /** The count a phrase starts with is the count it was built from. */
  lemma CountPhraseLeadingCount(n: nat, tail: string)
    ensures LeadingCount(CountPhrase(n, tail)) == n
  {
    assert CountPhrase(n, tail) == NatToString(n) + (" " + PluralizedProduct(n) + tail);
    LeadingCountRoundTrip(n, " " + PluralizedProduct(n) + tail);
  }

  /** A middle part is recovered from a concatenation with fixed ends. */
  lemma MiddleCancels(p: string, x: string, y: string, t: string)
    ensures p + x + t == p + y + t <==> x == y
  {
    if p + x + t == p + y + t {
      assert |x| == |y|;
      assert x == (p + x + t)[|p|..|p| + |x|];
      assert y == (p + y + t)[|p|..|p| + |y|];
    }
  }

  /** The phrase uses the singular exactly for one product. */
  lemma CountPhraseNumber(n: nat, tail: string)
    ensures CountPhrase(n, tail) == NatToString(n) + " product" + tail <==> n == 1
    ensures CountPhrase(n, tail) == NatToString(n) + " products" + tail <==> n != 1
  {
    var prefix := NatToString(n) + " ";
    assert CountPhrase(n, tail) == prefix + PluralizedProduct(n) + tail;
    assert NatToString(n) + " product" + tail == prefix + "product" + tail;
    assert NatToString(n) + " products" + tail == prefix + "products" + tail;
    MiddleCancels(prefix, PluralizedProduct(n), "product", tail);
    MiddleCancels(prefix, PluralizedProduct(n), "products", tail);
  }

  /** The count line of the summary text, which involves no formatting. */
  function SummaryCountLine(sm: Summary): string {
    match sm
    case NoSummary => ""
    case CompletedOn(_, count, requested, _) =>
      NatToString(count) + " of " + NatToString(requested) + " " + PluralizedProduct(requested) + " found."
    case CanceledOn(_, _) => "0 products found."
  }

  // ---------------------------------------------------------------------------
  // Displayable products

  /** Products shown without a found status. */
  function Plain(products: seq<Product>): (r: seq<DisplayableProduct>)
    ensures |r| == |products|
    ensures forall i :: 0 <= i < |r| ==> r[i].product == products[i] && r[i].findableProduct.None?
    decreases |products|
  {
    if |products| == 0 then [] else [DisplayableProduct(products[0], None)] + Plain(products[1..])
  }

  /** Each findable product shown with its own status. */
  function Paired(fps: seq<FindableProduct>): (r: seq<DisplayableProduct>)
    ensures |r| == |fps|
    ensures forall i :: 0 <= i < |r| ==> r[i].product == fps[i].product && r[i].findableProduct == Some(fps[i])
    decreases |fps|
  {
    if |fps| == 0 then [] else [DisplayableProduct(fps[0].product, Some(fps[0]))] + Paired(fps[1..])
  }

  /** No two displayed products share an identifier, as a list keyed by `id` needs. */
  predicate UniqueIds(ds: seq<DisplayableProduct>) {
    forall i, j :: 0 <= i < j < |ds| ==> Id(ds[i]) != Id(ds[j])
  }

  /** The products shown before finding have unique identifiers exactly when their UPCs are distinct. */
  lemma PlainIdsUnique(products: seq<Product>)
    ensures UniqueIds(Plain(products)) <==>
            forall i, j :: 0 <= i < j < |products| ==> products[i].upc != products[j].upc
  {
    var r := Plain(products);
    if UniqueIds(r) {
      forall i, j | 0 <= i < j < |products|
        ensures products[i].upc != products[j].upc
      {
        assert Id(r[i]) != Id(r[j]);
      }
    }
  }

  /** The products shown with a status have unique identifiers exactly when their UPCs are distinct. */
  lemma PairedIdsUnique(fps: seq<FindableProduct>)
    ensures UniqueIds(Paired(fps)) <==>
            forall i, j :: 0 <= i < j < |fps| ==> fps[i].product.upc != fps[j].product.upc
  {
    var r := Paired(fps);
    if UniqueIds(r) {
      forall i, j | 0 <= i < j < |fps|
        ensures fps[i].product.upc != fps[j].product.upc
      {
        assert Id(r[i]) != Id(r[j]);
      }
    }
  }

  // ---------------------------------------------------------------------------
  // Section lists

  const StartSections: seq<Section> :=
    [TopSpace, CustomerTitle, Space, Instructions, Divider, Feedback, Space, DisplayableProducts]

  const DeliverySections: seq<Section> :=
    [TopSpace, CustomerTitle, Space, Instructions, Options, Divider, Feedback, Space, DisplayableProducts]

  const CompletedSections: seq<Section> :=
    [TopSpace, CompletedTitle, CustomerTitle, Space, Instructions, Divider, Feedback, Space,
     DisplayableProducts, Divider, CompletedSummary]

  const CanceledSections: seq<Section> :=
    [TopSpace, CanceledTitle, CustomerTitle, Space, Instructions, Divider, Feedback, Space,
     Divider, CompletedSummary]

  /** What the section lists have in common and where they differ. */
  lemma SectionListsShape()
    ensures forall l :: l in [StartSections, DeliverySections, CompletedSections, CanceledSections] ==>
              |l| > 2 && l[0] == TopSpace && CustomerTitle in l
    ensures Options in DeliverySections
    ensures Options !in StartSections && Options !in CompletedSections && Options !in CanceledSections
    ensures DisplayableProducts in StartSections && DisplayableProducts in DeliverySections
    ensures DisplayableProducts in CompletedSections && DisplayableProducts !in CanceledSections
  {
  }

  // ---------------------------------------------------------------------------
  // The five branches

  function TranslateNotStarted(f: Fields, st: NotStartedState): (r: Fields)
    ensures r.feedback == CountPhrase(|st.products|, " requested")
    ensures r.focusedInstructionIndex.None? && !r.allowsCollapsingAndExpanding
    ensures |r.displayableProducts| == |st.products|
    ensures forall i :: 0 <= i < |st.products| ==>
              r.displayableProducts[i] == DisplayableProduct(st.products[i], None)
    ensures r.bottomButtonAction == Some(NamedEnabledAction("Start", true, st.startAction))
    ensures r.sections == StartSections
    ensures r.deliveryOptions == f.deliveryOptions && r.deliveryPreference == f.deliveryPreference
    ensures r.completedSummary == f.completedSummary
  {
    f.(customerTitle := Title(st.customer),
       feedback := CountPhrase(|st.products|, " requested"),
       instructions := st.instructions,
       focusedInstructionIndex := None,
       allowsCollapsingAndExpanding := false,
       displayableProducts := Plain(st.products),
       sections := StartSections,
       bottomButtonAction := Some(NamedEnabledAction("Start", true, st.startAction)))
  }

  /** The button a `findProducts` screen shows for the action it is offered. */
  function FindingButton(next: Option<Action>): (b: Option<NamedEnabledAction>)
    ensures b.None? <==> next.None?
    ensures b.Some? ==> b.value.enabled && b.value.action == next.value
    ensures b.Some? ==> (b.value.name == "Cancel Order" <==> next.value.AdvanceToCanceled?)
    ensures b.Some? ==> (b.value.name == "Next" <==> !next.value.AdvanceToCanceled?)
  {
    match next
    case None => None
    case Some(a) => Some(NamedEnabledAction(if a.AdvanceToCanceled? then "Cancel Order" else "Next", true, a))
  }

  function TranslateFindingProducts(f: Fields, st: FindProductsState): (r: Fields)
    ensures r.feedback == CountPhrase(|RetailEvaluator.FoundProducts(st.findableProducts)|, " marked found")
    ensures r.focusedInstructionIndex == Some(st.focusedInstructionIndex) && r.allowsCollapsingAndExpanding
    ensures |r.displayableProducts| == |st.findableProducts|
    ensures forall i :: 0 <= i < |st.findableProducts| ==>
              r.displayableProducts[i] == DisplayableProduct(st.findableProducts[i].product, Some(st.findableProducts[i]))
    ensures r.bottomButtonAction == FindingButton(st.nextAction)
    ensures r.sections == StartSections
    ensures r.deliveryOptions == f.deliveryOptions && r.deliveryPreference == f.deliveryPreference
    ensures r.completedSummary == f.completedSummary
  {
    var foundCount := CountStatus(st.findableProducts, Found);
    f.(customerTitle := Title(st.customer),
       feedback := CountPhrase(foundCount, " marked found"),
       instructions := st.instructions,
       focusedInstructionIndex := Some(st.focusedInstructionIndex),
       allowsCollapsingAndExpanding := true,
       displayableProducts := Paired(st.findableProducts),
       sections := StartSections,
       bottomButtonAction := FindingButton(st.nextAction))
  }

  /** The button a `chooseDeliveryLocation` screen shows for the action it is offered. */
  function DeliveryButton(next: Option<Action>): (b: Option<NamedEnabledAction>)
    ensures b.None? <==> next.None?
    ensures b.Some? ==> b.value == NamedEnabledAction("Deliver and Notify Customer", true, next.value)
  {
    match next
    case None => None
    case Some(a) => Some(NamedEnabledAction("Deliver and Notify Customer", true, a))
  }

  function TranslateDeliveryOptions(f: Fields, st: ChooseDeliveryLocationState): (r: Fields)
    ensures r.feedback ==
              NatToString(|st.products|) + " of " + NatToString(st.numberOfProductsRequested) + " "
              + PluralizedProduct(st.numberOfProductsRequested) + " found"
    ensures r.deliveryOptions == st.deliveryLocationChoices
    ensures st.deliveryLocationPreference.Some? ==> r.deliveryPreference == st.deliveryLocationPreference.value
    ensures st.deliveryLocationPreference.None? ==> r.deliveryPreference == ""
    ensures r.focusedInstructionIndex == Some(st.focusedInstructionIndex) && r.allowsCollapsingAndExpanding
    ensures |r.displayableProducts| == |st.products|
    ensures forall i :: 0 <= i < |st.products| ==>
              r.displayableProducts[i] == DisplayableProduct(st.products[i], None)
    ensures r.bottomButtonAction == DeliveryButton(st.nextAction)
    ensures r.sections == DeliverySections
    ensures r.completedSummary == f.completedSummary
  {
    f.(customerTitle := Title(st.customer),
       feedback := NatToString(|st.products|) + " of " + NatToString(st.numberOfProductsRequested) + " "
                   + PluralizedProduct(st.numberOfProductsRequested) + " found",
       deliveryOptions := st.deliveryLocationChoices,
       deliveryPreference := st.deliveryLocationPreference.GetOr(""),
       instructions := st.instructions,
       focusedInstructionIndex := Some(st.focusedInstructionIndex),
       allowsCollapsingAndExpanding := true,
       displayableProducts := Plain(st.products),
       sections := DeliverySections,
       bottomButtonAction := DeliveryButton(st.nextAction))
  }

  function TranslateCompleted(f: Fields, st: CompletedState): (r: Fields)
    ensures r.feedback == CountPhrase(|st.products|, " fulfilled")
    ensures r.completedSummary == CompletedOn(st.timeCompleted, |st.products|, st.numberOfProductsRequested, st.elapsedTime)
    ensures r.focusedInstructionIndex == Some(st.focusedInstructionIndex) && r.allowsCollapsingAndExpanding
    ensures |r.displayableProducts| == |st.products|
    ensures forall i :: 0 <= i < |st.products| ==>
              r.displayableProducts[i] == DisplayableProduct(st.products[i], None)
    ensures r.bottomButtonAction == Some(NamedEnabledAction("Done", true, st.doneAction))
    ensures r.sections == CompletedSections
    ensures r.deliveryOptions == f.deliveryOptions && r.deliveryPreference == f.deliveryPreference
  {
    f.(customerTitle := Title(st.customer),
       feedback := CountPhrase(|st.products|, " fulfilled"),
       completedSummary := CompletedOn(st.timeCompleted, |st.products|, st.numberOfProductsRequested, st.elapsedTime),
       instructions := st.instructions,
       focusedInstructionIndex := Some(st.focusedInstructionIndex),
       allowsCollapsingAndExpanding := true,
       displayableProducts := Plain(st.products),
       sections := CompletedSections,
       bottomButtonAction := Some(NamedEnabledAction("Done", true, st.doneAction)))
  }

  const CanceledFeedback: string := "The customer has been notified that their order cannot be fulfilled."

  function TranslateCanceled(f: Fields, st: CanceledState): (r: Fields)
    ensures r.feedback == "The customer has been notified that their order cannot be fulfilled."
    ensures r.completedSummary == CanceledOn(st.timeCompleted, st.elapsedTime)
    ensures r.focusedInstructionIndex == Some(st.focusedInstructionIndex) && r.allowsCollapsingAndExpanding
    ensures r.displayableProducts == f.displayableProducts
    ensures r.bottomButtonAction == Some(NamedEnabledAction("Done", true, st.doneAction))
    ensures r.sections == CanceledSections
    ensures r.deliveryOptions == f.deliveryOptions && r.deliveryPreference == f.deliveryPreference
  {
    f.(customerTitle := Title(st.customer),
       feedback := CanceledFeedback,
       completedSummary := CanceledOn(st.timeCompleted, st.elapsedTime),
       instructions := st.instructions,
       focusedInstructionIndex := Some(st.focusedInstructionIndex),
       allowsCollapsingAndExpanding := true,
       sections := CanceledSections,
       bottomButtonAction := Some(NamedEnabledAction("Done", true, st.doneAction)))
  }

  // ---------------------------------------------------------------------------
  // Translate

  function Customer(s: State): string
    requires !s.Initial?
  {
    match s
    case NotStarted(st) => st.customer
    case FindProducts(st) => st.customer
    case ChooseDeliveryLocation(st) => st.customer
    case Completed(st) => st.customer
    case Canceled(st) => st.customer
  }

  function InstructionsOf(s: State): seq<string>
    requires !s.Initial?
  {
    match s
    case NotStarted(st) => st.instructions
    case FindProducts(st) => st.instructions
    case ChooseDeliveryLocation(st) => st.instructions
    case Completed(st) => st.instructions
    case Canceled(st) => st.instructions
  }

  function Translate(f: Fields, s: State): (r: Fields)
    ensures s.Initial? ==> r == f
    ensures !s.Initial? ==> r.customerTitle == "Order for \n" + Customer(s)
    ensures !s.Initial? ==> r.instructions == InstructionsOf(s)
    ensures !s.Initial? ==> |r.sections| > 2 && r.sections[0] == TopSpace && CustomerTitle in r.sections
    ensures !s.Initial? ==> (Options in r.sections <==> s.ChooseDeliveryLocation?)
    ensures !s.Initial? ==> (DisplayableProducts in r.sections <==> !s.Canceled?)
    ensures !s.ChooseDeliveryLocation? ==>
              r.deliveryOptions == f.deliveryOptions && r.deliveryPreference == f.deliveryPreference
    ensures !(s.Completed? || s.Canceled?) ==> r.completedSummary == f.completedSummary
    ensures (s.Initial? || s.Canceled?) ==> r.displayableProducts == f.displayableProducts
    ensures s.NotStarted? || s.FindProducts? ==> r.sections == StartSections
    ensures s.ChooseDeliveryLocation? ==> r.sections == DeliverySections
    ensures s.Completed? ==> r.sections == CompletedSections
    ensures s.Canceled? ==> r.sections == CanceledSections
  {
    SectionListsShape();
    match s
    case Initial => f
    case NotStarted(st) => TranslateNotStarted(f, st)
    case FindProducts(st) => TranslateFindingProducts(f, st)
    case ChooseDeliveryLocation(st) => TranslateDeliveryOptions(f, st)
    case Completed(st) => TranslateCompleted(f, st)
    case Canceled(st) => TranslateCanceled(f, st)
  }

  /** Every button the translator produces is enabled. */
  predicate ButtonEnabled(f: Fields) {
    f.bottomButtonAction.Some? ==> f.bottomButtonAction.value.enabled
  }

  lemma TranslateKeepsButtonEnabled(f: Fields, s: State)
    requires ButtonEnabled(f)
    ensures ButtonEnabled(Translate(f, s))
  {
  }

  /** The action a state offers on its bottom button, if any. */
  function Offered(s: State): Option<Action> {
    match s
    case Initial => None
    case NotStarted(st) => Some(st.startAction)
    case FindProducts(st) => st.nextAction
    case ChooseDeliveryLocation(st) => st.nextAction
    case Completed(st) => Some(st.doneAction)
    case Canceled(st) => Some(st.doneAction)
  }

  /**
    The button is hidden exactly when no action is offered, and otherwise
    sends exactly the offered action.
   */
  lemma TranslateButtonOffers(f: Fields, s: State)
    requires !s.Initial?
    ensures Translate(f, s).bottomButtonAction.None? <==> Offered(s).None?
    ensures Translate(f, s).bottomButtonAction.Some? ==>
              Translate(f, s).bottomButtonAction.value.action == Offered(s).value
    ensures s.Completed? || s.Canceled? ==> Translate(f, s).bottomButtonAction.value.name == "Done"
    ensures s.NotStarted? ==> Translate(f, s).bottomButtonAction.value.name == "Start"
  {
  }

  /** The leading count of each variant's feedback is the count it reports. */
  lemma TranslateFeedbackCount(f: Fields, s: State)
    requires s.NotStarted? || s.FindProducts? || s.ChooseDeliveryLocation? || s.Completed?
    ensures s.NotStarted? ==> LeadingCount(Translate(f, s).feedback) == |s.notStarted.products|
    ensures s.FindProducts? ==>
              LeadingCount(Translate(f, s).feedback) == CountStatus(s.findProducts.findableProducts, Found)
    ensures s.ChooseDeliveryLocation? ==>
              LeadingCount(Translate(f, s).feedback) == |s.chooseDelivery.products|
    ensures s.Completed? ==> LeadingCount(Translate(f, s).feedback) == |s.completed.products|
  {
    match s
    case NotStarted(st) =>
      CountPhraseLeadingCount(|st.products|, " requested");
    case FindProducts(st) =>
      CountPhraseLeadingCount(CountStatus(st.findableProducts, Found), " marked found");
    case ChooseDeliveryLocation(st) =>
      DeliveryFeedbackCount(f, st);
    case Completed(st) =>
      CountPhraseLeadingCount(|st.products|, " fulfilled");
  }

  lemma DeliveryFeedbackCount(f: Fields, st: ChooseDeliveryLocationState)
    ensures LeadingCount(TranslateDeliveryOptions(f, st).feedback) == |st.products|
  {
    var rest := " of " + NatToString(st.numberOfProductsRequested) + " "
                + PluralizedProduct(st.numberOfProductsRequested) + " found";
    assert TranslateDeliveryOptions(f, st).feedback == NatToString(|st.products|) + rest;
    LeadingCountRoundTrip(|st.products|, rest);
  }

  /** The product list shown while finding pairs each entry with its status and keeps its UPC as id. */
  lemma FindingShowsEveryEntry(f: Fields, st: FindProductsState)
    ensures var r := Translate(f, FindProducts(st));
            && |r.displayableProducts| == |st.findableProducts|
            && forall i :: 0 <= i < |st.findableProducts| ==>
                 Id(r.displayableProducts[i]) == st.findableProducts[i].product.upc
                 && r.displayableProducts[i].findableProduct == Some(st.findableProducts[i])
  {
  }

  /** A later state of the same variant overwrites everything an earlier one wrote. */
  predicate SameVariant(s1: State, s2: State) {
    (s1.Initial? && s2.Initial?) || (s1.NotStarted? && s2.NotStarted?)
    || (s1.FindProducts? && s2.FindProducts?)
    || (s1.ChooseDeliveryLocation? && s2.ChooseDeliveryLocation?)
    || (s1.Completed? && s2.Completed?) || (s1.Canceled? && s2.Canceled?)
  }

  lemma TranslateOverwrites(f: Fields, s1: State, s2: State)
    requires SameVariant(s1, s2)
    ensures Translate(Translate(f, s1), s2) == Translate(f, s2)
  {
  }

  // ---------------------------------------------------------------------------
  // The subscription

  /**
    The fields after the translator has seen `broadcasts`, in order: nothing
    but initial states leaves them alone, and when the last broadcast is not
    initial the title and instructions are those of that broadcast.
   */
  function Observe(f: Fields, broadcasts: seq<State>): (r: Fields)
    ensures (forall i :: 0 <= i < |broadcasts| ==> broadcasts[i].Initial?) ==> r == f
    ensures |broadcasts| > 0 && !broadcasts[|broadcasts| - 1].Initial? ==>
              r.customerTitle == Title(Customer(broadcasts[|broadcasts| - 1]))
              && r.instructions == InstructionsOf(broadcasts[|broadcasts| - 1])
    decreases |broadcasts|
  {
    if |broadcasts| == 0 then f
    else
      var rest := broadcasts[1..];
      assert |rest| > 0 ==> rest[|rest| - 1] == broadcasts[|broadcasts| - 1];
      Observe(Translate(f, broadcasts[0]), rest)
  }

  lemma {:induction false} ObserveAppend(f: Fields, a: seq<State>, b: seq<State>)
    ensures Observe(f, a + b) == Observe(Observe(f, a), b)
    decreases |a|
  {
    if |a| == 0 {
      assert a + b == b;
    } else {
      assert (a + b)[0] == a[0];
      assert (a + b)[1..] == a[1..] + b;
      ObserveAppend(Translate(f, a[0]), a[1..], b);
    }
  }

  /**
    After one action, the translator's fields are those of the state the
    action led to: the stale intermediate broadcast of a product toggle
    leaves no trace, and an ignored action leaves the fields alone.
   */
  lemma ObserveDispatch(m: RetailEvaluator.Machine, a: Action, now: int, f: Fields)
    ensures var r := RetailEvaluator.Dispatch(m, a, now);
            var sent := r.current.emitted[|m.current.emitted|..];
            Observe(f, sent) ==
              (if RetailEvaluator.BroadcastCount(m.current.state, a) == 0 then f
               else Translate(f, RetailEvaluator.Step(m.current.state, a, now)))
  {
    RetailEvaluator.DispatchFollowsStep(m, a, now);
    var r := RetailEvaluator.Dispatch(m, a, now);
    var sent := r.current.emitted[|m.current.emitted|..];
    var n := RetailEvaluator.BroadcastCount(m.current.state, a);
    assert |sent| == n;
    if n == 2 {
      var s := m.current.state;
      assert sent[0] == FindProducts(RetailEvaluator.WithProductReplaced(s.findProducts, RetailEvaluator.ModifiedProduct(a)));
      assert sent[1] == RetailEvaluator.Step(s, a, now);
      TranslateOverwrites(f, sent[0], sent[1]);
      assert sent[1..][1..] == [];
      assert Observe(f, sent) == Observe(Translate(Translate(f, sent[0]), sent[1]), []);
    } else if n == 1 {
      assert Observe(f, sent) == Observe(Translate(f, sent[0]), []);
    }
  }

  /**
    Appearing broadcasts the seeded state only when leaving initial, so the
    subscriber then shows the not-started screen, and otherwise nothing changes.
   */
  lemma ObserveViewDidAppear(m: RetailEvaluator.Machine, f: Fields)
    ensures var r := RetailEvaluator.MachineViewDidAppear(m);
            var sent := r.current.emitted[|m.current.emitted|..];
            Observe(f, sent) ==
              (if m.current.state.Initial? then Translate(f, RetailEvaluator.ViewDidAppear(m.current.state, m.order)) else f)
  {
    var r := RetailEvaluator.MachineViewDidAppear(m);
    var sent := r.current.emitted[|m.current.emitted|..];
    if m.current.state.Initial? {
      assert |sent| == 1;
      assert Observe(f, sent) == Observe(Translate(f, sent[0]), []);
    } else {
      assert sent == [];
    }
  }

  /**
    A new translator subscribed to a new evaluator shows, once the view has
    appeared, the not-started screen of the seeded order: four products
    requested and the Start button.
   */
  lemma FirstScreen()
    ensures var m := RetailEvaluator.MachineViewDidAppear(RetailEvaluator.NewMachine());
            var shown := Observe(InitialFields, m.current.emitted);
            && shown == TranslateNotStarted(InitialFields, RetailEvaluator.Seeded(RetailEvaluator.SeedOrder))
            && LeadingCount(shown.feedback) == 4
            && shown.bottomButtonAction == Some(NamedEnabledAction("Start", true, StartOrder))
  {
    var m0 := RetailEvaluator.NewMachine();
    ObserveViewDidAppear(m0, InitialFields);
    var m := RetailEvaluator.MachineViewDidAppear(m0);
    assert m.current.emitted[|m0.current.emitted|..] == m.current.emitted;
    CountPhraseLeadingCount(4, " requested");
  }

  /** The count line starts with the count of products found: none for a cancellation. */
  lemma SummaryLineLeadingCount(sm: Summary)
    ensures sm.CompletedOn? ==> LeadingCount(SummaryCountLine(sm)) == sm.productCount
    ensures sm.CanceledOn? ==> LeadingCount(SummaryCountLine(sm)) == 0
  {
    match sm
    case NoSummary =>
    case CompletedOn(_, count, requested, _) =>
      var rest := " of " + NatToString(requested) + " " + PluralizedProduct(requested) + " found.";
      assert SummaryCountLine(sm) == NatToString(count) + rest;
      LeadingCountRoundTrip(count, rest);
    case CanceledOn(_, _) =>
      assert NatToString(0) == "0";
      assert SummaryCountLine(sm) == NatToString(0) + " products found.";
      LeadingCountRoundTrip(0, " products found.");
  }

  /**
    The count line of the stored summary reports the products fulfilled, or
    none for a canceled order.
   */
  lemma SummaryCountLineCounts(f: Fields, s: State)
    requires s.Completed? || s.Canceled?
    ensures s.Completed? ==> LeadingCount(SummaryCountLine(Translate(f, s).completedSummary)) == |s.completed.products|
    ensures s.Canceled? ==> LeadingCount(SummaryCountLine(Translate(f, s).completedSummary)) == 0
  {
    var sm := Translate(f, s).completedSummary;
    if s.Completed? {
      assert sm == TranslateCompleted(f, s.completed).completedSummary;
      assert sm.CompletedOn? && sm.productCount == |s.completed.products|;
    } else {
      assert sm == TranslateCanceled(f, s.canceled).completedSummary;
    }
    SummaryLineLeadingCount(sm);
  }
}
