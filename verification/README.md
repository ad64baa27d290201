# RetailDemo order fulfilment, modelled in Dafny

RetailDemo is a SwiftUI demonstration app. A store employee (the picker) uses it to fulfil one order. The order goes through these steps:

- The picker claims the order.
- They mark each product found or not found.
- They choose where to deliver the order.
- They complete it, or cancel it when nothing was found.

The app separates three concerns. An **evaluator** holds the workflow state and handles the picker's actions. A **translator** turns every state it is sent into flat display fields. Views render those fields. The evaluator's state lives in a **passable state** cell, which broadcasts every value assigned to it. The translator subscribes to that broadcast.

This project models the parts of the app that carry logic:

- **The workflow state machine** (`RetailEvaluator`, data types in `RetailModel`). It has six states: initial, not started, finding products, choosing a delivery location, completed and canceled. There is a closed set of actions.
  - `Step(s, a, now)` is the pure transition. The clock is an integer parameter `now`.
  - `ViewDidAppear` seeds the order.
  - `Dispatch` replays the handlers assignment by assignment on the broadcasting cell. A product toggle assigns twice, so it broadcasts twice.
  - `DispatchFollowsStep` ties `Dispatch` back to `Step`.
- **The translator** (`RetailTranslator`).
  - `Translate(prev, s)` maps a state to display `Fields`. It takes the previous fields because some variants leave some fields as they were.
  - `Observe` folds `Translate` over a run of broadcasts.
- **The shared `evaluate` entry point** (`ActionEvaluating`). It ignores an absent action, and otherwise leaves a breadcrumb and runs the evaluator's handler.
- **The passable state cell** (`Passables`). It is a state plus the log of every value broadcast.
- **The demo title transform** (`ViewDemoing`). `splitAtCapitalLetters` inserts a space before every uppercase character.
- **The options demo provider** (`OptionsView`). It toggles the preference and splits the options text at `;`.

`Numerals` renders counts as decimal text (Swift's `"\(n)"`) and reads them back, so that the feedback strings can be related to the counts they report. `Wrappers` holds `Option`.

Three behaviours of the code are modelled exactly as written, because they differ from what the names suggest:

- **A toggle reads the payload's status.** A product toggle computes the new status from the status carried in the action's payload. It ignores the status stored in the list.
- **Every matching UPC is replaced.** The replacement is a `map`, so every entry with the payload's UPC is replaced. One might expect only one entry to change; the code replaces every match.
- **Advancing is not gated.** Advancing to delivery and to cancellation checks only the current variant, never the offered `nextAction`.

Two further points where the code goes its own way:

- **Done is never guarded.** `done` requests a dismissal in every state.
- **Some fields stay stale.** Translating a state leaves some fields untouched. For example, the canceled screen keeps the previous product list, and any state other than delivery keeps the previous delivery options.

An edge case the invariant has to allow: starting an empty order leaves `nextAction` unset. The findable-list rule would call for cancelling an empty order, but only a product toggle recomputes `nextAction`, and an empty order has nothing to toggle.

## Model

| member | source | states |
|---|---|---|
| RetailEvaluator.Seeded | RetailDemo/RetailEvaluator.swift:173-184 | the not-started record holds the customer "Bob Dobalina", exactly the three fixed instructions, the order's id and products, and the start action |
| RetailEvaluator.ViewDidAppear | RetailDemo/RetailEvaluator.swift:171-186 | from initial the view seeds the order; from any other state nothing changes; the result is never initial |
| RetailEvaluator.ViewDidAppearOnce | RetailDemo/RetailEvaluator.swift:171-186 | a second appearance is a no-op, whatever order it would seed |
| RetailEvaluator.AsUnknown | RetailDemo/RetailEvaluator.swift:241-245 | every product of the order appears, in order, with status unknown |
| RetailEvaluator.StartedOrder | RetailDemo/RetailEvaluator.swift:236-248 | starting keeps customer, instructions and order id, lists the same products in the same order all unknown, focuses instruction 1, records the start time and offers no action |
| RetailEvaluator.FoundProducts | RetailDemo/RetailEvaluator.swift:261-267 | the kept products are as many as the entries marked found |
| RetailEvaluator.FoundProductsMembers | RetailDemo/RetailEvaluator.swift:261-267 | a product is kept if and only if some entry carrying it is marked found |
| RetailEvaluator.FoundProductsAppend | RetailDemo/RetailEvaluator.swift:261-267 | filtering commutes with concatenation, so the kept products keep their list order |
| RetailEvaluator.FoundProductsAllFound | RetailDemo/RetailEvaluator.swift:261-267 | when every entry is found every product is kept, position by position |
| RetailEvaluator.DeliveryStateFrom | RetailDemo/RetailEvaluator.swift:256-272 | delivery keeps exactly the found products, requests the full findable count (at least the kept count), offers "Cash Register" and "Front Door" with no preference and no action, carries the start time and focuses instruction 2 |
| RetailEvaluator.CompletedStateFrom | RetailDemo/RetailEvaluator.swift:280-294 | the location is the preference or "Unknown Location"; exactly "Deliver to <location>" is appended; products and counts are carried; elapsed time is the absolute distance from the start; focus 3 and the done action |
| RetailEvaluator.CanceledStateFrom | RetailDemo/RetailEvaluator.swift:302-312 | exactly "You're all set!" is appended; elapsed time is the absolute distance from the start; focus 3 and the done action |
| RetailEvaluator.StartOrderStep | RetailDemo/RetailEvaluator.swift:230-251 | starting works only from not started, where it yields the started finding record; elsewhere nothing changes |
| RetailEvaluator.AdvanceToDeliveryStep | RetailDemo/RetailEvaluator.swift:253-275 | advancing to delivery works from finding whatever action is offered; elsewhere nothing changes |
| RetailEvaluator.AdvanceToCompletedStep | RetailDemo/RetailEvaluator.swift:277-297 | completing works only from delivery; elsewhere nothing changes |
| RetailEvaluator.AdvanceToCanceledStep | RetailDemo/RetailEvaluator.swift:299-315 | cancelling works from finding whatever action is offered; elsewhere nothing changes |
| RetailEvaluator.ToggledFound | RetailDemo/RetailEvaluator.swift:324-332 | the found toggle yields unknown exactly from found, and never yields not found |
| RetailEvaluator.ToggledNotFound | RetailDemo/RetailEvaluator.swift:343-351 | the not-found toggle yields unknown exactly from not found, and never yields found |
| RetailEvaluator.ToggleTwice | RetailDemo/RetailEvaluator.swift:324-351 | each toggle undoes itself on the statuses it produces, so twice from unknown returns to unknown; the other toggle always overrides |
| RetailEvaluator.ReplaceByUpc | RetailDemo/RetailEvaluator.swift:359-364 | length is preserved, every entry with the payload's UPC becomes the payload, every other entry is untouched |
| RetailEvaluator.ReplaceByUpcAbsent | RetailDemo/RetailEvaluator.swift:359-364 | a UPC not in the list changes nothing |
| RetailEvaluator.ReplaceByUpcKeepsUpcs | RetailDemo/RetailEvaluator.swift:359-364 | the UPC at every position is unchanged, so the list order is kept |
| RetailEvaluator.ReplaceByUpcIdempotent | RetailDemo/RetailEvaluator.swift:359-364 | replacing with the same payload twice equals replacing once |
| RetailEvaluator.NextActionFor | RetailDemo/RetailEvaluator.swift:374-389 | no action if and only if some status is unknown; cancel if and only if every status is not found (including the empty list); delivery if and only if none is unknown and some is found |
| RetailEvaluator.WithProductReplaced | RetailDemo/RetailEvaluator.swift:357-369 | the first assignment of a toggle changes only the findable list, to the UPC replacement |
| RetailEvaluator.WithNextActionRecomputed | RetailDemo/RetailEvaluator.swift:371-392 | the second assignment changes only the offered action, to the one the findable list calls for |
| RetailEvaluator.ModifiedProduct | RetailDemo/RetailEvaluator.swift:319-355 | the modified entry is the payload's product, with the payload's own status toggled by the action's toggle |
| RetailEvaluator.ToggleProductStep | RetailDemo/RetailEvaluator.swift:319-392 | outside product finding nothing changes; inside, only the findable list (UPC replacement) and the recomputed next action change |
| RetailEvaluator.WithOptionToggled | RetailDemo/RetailEvaluator.swift:396-408 | choosing the chosen option clears both preference and action; any other option becomes the preference and offers completion; nothing else changes |
| RetailEvaluator.ToggleOptionStep | RetailDemo/RetailEvaluator.swift:396-408 | an option toggle works only while choosing delivery; elsewhere nothing changes |
| RetailEvaluator.ToggleOptionTwice | RetailDemo/RetailEvaluator.swift:396-408 | toggling an unchosen option twice leaves no preference and no action; toggling the chosen one twice restores the state |
| RetailEvaluator.Step | RetailDemo/RetailEvaluator.swift:193-226 | an action the current variant does not handle, and `done` always, leaves the state unchanged; the workflow never moves backwards; completed is entered only by completing from delivery, canceled only by cancelling while finding |
| RetailEvaluator.TerminalAbsorbs | RetailDemo/RetailEvaluator.swift:193-226 | completed and canceled absorb every action |
| RetailEvaluator.ViewDidAppearConsistent | RetailDemo/RetailEvaluator.swift:171-186 | appearing keeps the workflow invariant |
| RetailEvaluator.StepConsistent | RetailDemo/RetailEvaluator.swift:230-408 | every handler keeps the invariant: focus and instruction count per variant, offered action as the findable list calls for, delivery preference set exactly when completion is offered, kept products no more than requested |
| RetailEvaluator.ConsistentFocusInRange | RetailDemo/RetailEvaluator.swift:239-307 | in every reachable state the focused instruction index names an existing instruction |
| RetailEvaluator.NewMachine | RetailDemo/RetailEvaluator.swift:20-63 | a new evaluator is initial, has broadcast nothing, holds the seeded order and has requested no dismissal |
| RetailEvaluator.MachineViewDidAppear | RetailDemo/RetailEvaluator.swift:171-186 | appearing moves the cell to `ViewDidAppear`'s state and broadcasts once, carrying that new state, exactly when it leaves initial; otherwise nothing changes |
| RetailEvaluator.MachineViewDidAppearSettles | RetailDemo/Passables/PassableState.swift:14-18 | after appearing the cell's state is still the last value broadcast |
| RetailEvaluator.UpdateFindableProduct | RetailDemo/RetailEvaluator.swift:357-369 | one broadcast of the handed record with the list replaced by UPC and its previous next action kept |
| RetailEvaluator.UpdateNextActionForFindableProducts | RetailDemo/RetailEvaluator.swift:371-392 | while finding, one broadcast of the same list with the action it calls for; in any other state nothing |
| RetailEvaluator.Dispatch | RetailDemo/RetailEvaluator.swift:193-226 | handling an action keeps earlier broadcasts, leaves the cell holding its last broadcast, changes nothing when nothing is broadcast, requests a dismissal exactly for done, and keeps the order |
| RetailEvaluator.DispatchFollowsStep | RetailDemo/RetailEvaluator.swift:193-226 | the handlers end in `Step`'s state, append exactly one broadcast per assignment (two for a toggle, none when guarded out) with the last being the new state, request a dismissal only for done, and keep the order |
| RetailEvaluator.ToggleBroadcastsStaleFirst | RetailDemo/RetailEvaluator.swift:357-392 | a toggle first broadcasts the replaced list with the previous next action still in it |
| RetailEvaluator.DispatchSettles | RetailDemo/Passables/PassableState.swift:14-18 | after any action the cell's state is still the last value broadcast |
| RetailEvaluator.Evaluate | RetailDemo/Evaluating/ActionEvaluating.swift:37-42 | evaluating nothing leaves evaluator and trail alone; evaluating an action runs the handlers once and leaves one breadcrumb; the order is kept |
| RetailEvaluator.EvaluateSteps | RetailDemo/Evaluating/ActionEvaluating.swift:37-42 | evaluating nothing does nothing; evaluating an action is one `Step` plus one breadcrumb |
| RetailModel.CountStatusZero | RetailDemo/RetailEvaluator.swift:374-376 | the count of a status is zero if and only if no entry has it |
| RetailModel.CountStatusFull | RetailDemo/RetailEvaluator.swift:379-381 | the count of a status is the length if and only if every entry has it |
| RetailModel.CountStatusPartition | RetailDemo/RetailEvaluator.swift:93-97 | the three statuses partition every findable list |
| Numerals.NatToString | RetailDemo/RetailTranslator.swift:109 | a count renders as a non-empty run of decimal digits, one digit exactly for counts below ten, starting with 0 only for zero, so never with a leading zero |
| Numerals.LeadingCountRoundTrip | RetailDemo/RetailTranslator.swift:109 | the number read from the front of a rendered count followed by non-digit text is the count |
| RetailTranslator.Title | RetailDemo/RetailTranslator.swift:331-333 | the title is the fixed "Order for \n" prefix followed by the customer's name, which reads back unchanged |
| RetailTranslator.PlainIdsUnique | RetailDemo/RetailTranslator.swift:68-72 | the products listed before finding, keyed by `id` in the products list, have pairwise-distinct identifiers exactly when their UPCs are distinct |
| RetailTranslator.PairedIdsUnique | RetailDemo/RetailTranslator.swift:68-72 | the products listed with a status have pairwise-distinct identifiers exactly when their UPCs are distinct, whatever statuses they show |
| RetailTranslator.PluralizedProduct | RetailDemo/RetailTranslator.swift:327-329 | "product" if and only if the count is one, "products" otherwise |
| RetailTranslator.CountPhraseNumber | RetailDemo/RetailTranslator.swift:109 | a count phrase uses the singular exactly for one product |
| RetailTranslator.CountPhraseLeadingCount | RetailDemo/RetailTranslator.swift:145 | the number a count phrase starts with reads back as the count it was built from |
| RetailTranslator.Plain | RetailDemo/RetailTranslator.swift:114-119 | each product is shown, in order, without a found status |
| RetailTranslator.Paired | RetailDemo/RetailTranslator.swift:152-157 | each findable entry is shown, in order, with its own status |
| RetailTranslator.TranslateNotStarted | RetailDemo/RetailTranslator.swift:103-135 | feedback "<N> product(s) requested", no focus, no collapsing, products without status, the enabled "Start" button for the start action, the start section list |
| RetailTranslator.FindingButton | RetailDemo/RetailTranslator.swift:173-184 | no button if and only if no action is offered; otherwise enabled, sending the offered action, labelled "Cancel Order" if and only if it cancels, else "Next" |
| RetailTranslator.TranslateFindingProducts | RetailDemo/RetailTranslator.swift:139-185 | feedback counts only found entries; focus is shown and collapsing allowed; each entry is paired with its product in order; the button follows the offered action |
| RetailTranslator.DeliveryButton | RetailDemo/RetailTranslator.swift:224-228 | no button if and only if no action is offered; otherwise the enabled "Deliver and Notify Customer" button for that action |
| RetailTranslator.TranslateDeliveryOptions | RetailDemo/RetailTranslator.swift:189-229 | feedback "<found> of <requested> product(s) found" pluralised by the requested count; options are the choices; preference is the chosen one or empty; the section list includes the options |
| RetailTranslator.TranslateCompleted | RetailDemo/RetailTranslator.swift:233-280 | feedback "<N> product(s) fulfilled"; the summary carries completion time, counts and elapsed time; products shown without status; the enabled "Done" button |
| RetailTranslator.TranslateCanceled | RetailDemo/RetailTranslator.swift:284-321 | the fixed notification feedback; the canceled summary; the product list is left as it was; the enabled "Done" button; no product section |
| RetailTranslator.Translate | RetailDemo/RetailTranslator.swift:77-99 | initial leaves every field alone; otherwise the title is "Order for \n" + customer and the instructions are the state's; the options section appears if and only if choosing delivery; the product section appears if and only if not canceled; each variant's exact section list; fields a variant does not assign are unchanged |
| RetailTranslator.TranslateKeepsButtonEnabled | RetailDemo/RetailTranslator.swift:134-320 | every button the translator produces is enabled |
| RetailTranslator.TranslateButtonOffers | RetailDemo/RetailTranslator.swift:134-320 | the button is hidden if and only if the state offers no action, and otherwise sends exactly the offered action; "Done" for terminal states and "Start" before starting |
| RetailTranslator.TranslateFeedbackCount | RetailDemo/RetailTranslator.swift:105-239 | the number each feedback line starts with is the count it reports: requested products, found entries, kept products, fulfilled products |
| RetailTranslator.FindingShowsEveryEntry | RetailDemo/RetailTranslator.swift:68-72 | while finding, the shown list has one entry per findable product, identified by its UPC and carrying its status |
| RetailTranslator.TranslateOverwrites | RetailDemo/RetailTranslator.swift:77-99 | two states of the same variant in a row leave the fields the second alone would |
| RetailTranslator.Observe | RetailDemo/RetailTranslator.swift:56-58 | a run of only initial broadcasts leaves the fields alone; when the last broadcast is not initial, the title and instructions shown are those of that broadcast |
| RetailTranslator.ObserveAppend | RetailDemo/RetailTranslator.swift:56-58 | observing two runs of broadcasts is observing one after the other |
| RetailTranslator.ObserveDispatch | RetailDemo/RetailTranslator.swift:56-58 | after one action the subscriber shows exactly the translation of `Step`'s state; the stale first broadcast of a toggle leaves no trace and a guarded-out action changes nothing |
| RetailTranslator.ObserveViewDidAppear | RetailDemo/RetailTranslator.swift:56-58 | after the view appears the subscriber shows the translation of the seeded state, or nothing new when the state was not initial |
| RetailTranslator.FirstScreen | RetailDemo/RetailTranslator.swift:47-58 | a new translator on a new evaluator shows, after the view appears, the not-started screen with four products requested and the Start button |
| RetailTranslator.SummaryLineLeadingCount | RetailDemo/RetailTranslator.swift:243-297 | the summary's count line starts with the products found: the fulfilled count, or 0 for a cancellation |
| RetailTranslator.SummaryCountLineCounts | RetailDemo/RetailTranslator.swift:233-321 | the summary the translator stores for a terminal state reports the fulfilled product count, or 0 when canceled |
| ActionEvaluating.Breadcrumb | RetailDemo/Evaluating/ActionEvaluating.swift:44-46 | a breadcrumb records the action and leaves the evaluator state alone |
| ActionEvaluating.Evaluate | RetailDemo/Evaluating/ActionEvaluating.swift:37-42 | an absent action has no effect; a present one has exactly the effect of one handler call and leaves one breadcrumb |
| ActionEvaluating.EvaluateAllApplies | RetailDemo/Evaluating/ActionEvaluating.swift:37-42 | a run of optional actions equals the handlers applied directly to the present actions, with one breadcrumb each |
| ActionEvaluating.EvaluateAllIgnoresNones | RetailDemo/Evaluating/ActionEvaluating.swift:37-42 | evaluating a run equals evaluating it with the absent actions removed |
| ActionEvaluating.BreadcrumbsDoNotSteer | RetailDemo/Evaluating/ActionEvaluating.swift:44-46 | the breadcrumb trail has no influence on the state reached |
| Passables.Assign | RetailDemo/Passables/PassableState.swift:14-18 | an assignment broadcasts exactly once, carrying the new value, after all earlier broadcasts, and stores it |
| Passables.Make | RetailDemo/Passables/PassableState.swift:20-22 | construction stores the value and broadcasts nothing |
| Passables.AssignAll | RetailDemo/Passables/PassableState.swift:14-18 | a run of assignments broadcasts its values in assignment order and leaves the last one stored |
| Passables.AssignSettles | RetailDemo/Passables/PassableState.swift:14-18 | after any assignment the stored state is the last value broadcast |
| Passables.AssignAllAppend | RetailDemo/Passables/PassableState.swift:14-18 | two runs of assignments in a row are one run of their concatenation |
| ViewDemoing.Piece | RetailDemo/Views/ViewDemoing/ViewDemoing.swift:27-31 | an uppercase character becomes a space followed by itself; any other character is copied |
| ViewDemoing.SplitAppend | RetailDemo/Views/ViewDemoing/ViewDemoing.swift:24-34 | the transform distributes over concatenation |
| ViewDemoing.SplitAtCapitalLetters | RetailDemo/Views/ViewDemoing/ViewDemoing.swift:24-34 | the output is as long as the input plus its number of uppercase characters, and never starts with an uppercase character |
| ViewDemoing.IsUppercase | RetailDemo/Views/ViewDemoing/ViewDemoing.swift:27 | a character counts as uppercase exactly when lowercasing changes it: ASCII A-Z and the Latin-1 capitals except the multiplication sign; its lowercase form is left alone by lowercasing |
| ViewDemoing.SplitWithoutUppercase | RetailDemo/Views/ViewDemoing/ViewDemoing.swift:26-32 | a string without uppercase characters comes back unchanged |
| ViewDemoing.SplitLeadingCapital | RetailDemo/Views/ViewDemoing/ViewDemoing.swift:16-19 | a type name starting with a capital yields a title starting with a space and then that capital |
| ViewDemoing.SplitRoundTrip | RetailDemo/Views/ViewDemoing/ViewDemoing.swift:24-34 | dropping each space that precedes an uppercase character recovers the input, so every inserted space precedes an uppercase character and the rest is copied in order |
| ViewDemoing.SplitAtCapitalLettersLoop | RetailDemo/Views/ViewDemoing/ViewDemoing.swift:24-34 | the character loop computes the transform, with length input plus uppercase count |
| OptionsView.IsSelected | RetailDemo/Views/OptionsView.swift:41 | with no preference, only the empty option is shown selected |
| OptionsView.ToggleOption | RetailDemo/Views/OptionsView.swift:88-97 | tapping the preferred option clears the preference to ""; tapping any other option makes it the preference; text and options are untouched |
| OptionsView.ToggleTwiceFromNothing | RetailDemo/Views/OptionsView.swift:88-97 | from no preference, two taps on one option leave no preference |
| OptionsView.AtMostOneSelected | RetailDemo/Views/OptionsView.swift:41 | two options shown selected are the same string |
| OptionsView.ToggleFlipsSelection | RetailDemo/Views/OptionsView.swift:88-97 | tapping a non-empty option flips whether it is shown selected |
| OptionsView.Split | RetailDemo/Views/OptionsView.swift:137 | the pieces are non-empty, free of ";", and concatenate to the text with every ";" removed |
| OptionsView.SplitAtSeparator | RetailDemo/Views/OptionsView.swift:137 | the text on each side of a ";" is split independently, so pieces break at every separator and leading, trailing or repeated separators give no empty piece |
| OptionsView.SplitWord | RetailDemo/Views/OptionsView.swift:137 | a non-empty word without ";" is one piece; with `SplitAtSeparator` and the empty text this fixes the split completely |
| OptionsView.SplitFromWellFormed | RetailDemo/Views/OptionsView.swift:137 | no parsed piece is empty or contains ";" |
| OptionsView.SplitFromKeepsText | RetailDemo/Views/OptionsView.swift:137 | the pieces concatenate to the text with the separators removed |
| OptionsView.SplitJoin | RetailDemo/Views/OptionsView.swift:122-137 | splitting the joined initial options gives them back |
| OptionsView.SplitEmpty | RetailDemo/Views/OptionsView.swift:137-138 | nothing is parsed if and only if the text holds only separators |
| OptionsView.TextFieldDidChange | RetailDemo/Views/OptionsView.swift:135-143 | the text is stored verbatim; options are never empty and contain no ";"; they are [" "] when the text has nothing but separators, and otherwise exactly the pieces of the split, which concatenate to the text without separators |
| OptionsView.InitialTextParsesBack | RetailDemo/Views/OptionsView.swift:122 | the field's initial text, the options joined by ";", parses back to the same options |
| OptionsView.EditedOptionsToggle | RetailDemo/Views/OptionsView.swift:135-143 | after any edit, tapping any shown option flips whether it is selected |
| RetailScenarios.SeedOrderDistinct | RetailDemo/RetailEvaluator.swift:36-63 | the seeded order's UPCs are distinct |
| RetailScenarios.ToggleUniqueEntry | RetailDemo/RetailEvaluator.swift:319-369 | toggling a product whose UPC is unique changes that one entry in place |
| RetailScenarios.MarkEachMarks | RetailDemo/RetailEvaluator.swift:319-392 | marking each product of a distinct-UPC order in turn marks them all and leaves the action the list calls for |
| RetailScenarios.HappyPath | RetailDemo/RetailEvaluator.swift:230-297 | for any non-empty order with distinct UPCs: start, mark all found, advance, choose "Cash Register", complete, which ends completed at the register with every product and the elapsed time |
| RetailScenarios.DeliverToRegister | RetailDemo/RetailEvaluator.swift:253-297 | from finding: advancing, choosing the register and completing delivers the found products there |
| RetailScenarios.SeedOrderHappyPath | RetailDemo/RetailEvaluator.swift:36-63 | the seeded order completes with its four products |
| RetailScenarios.NothingFoundPath | RetailDemo/RetailEvaluator.swift:299-315 | marking every product not found offers cancellation, and cancelling appends "You're all set!" |
| RetailScenarios.ToggleReadsPayloadStatus | RetailDemo/RetailEvaluator.swift:324-332 | a found toggle whose payload says found sets the entry to unknown, although the stored entry is unknown |
| RetailScenarios.DuplicateUpcsAllReplaced | RetailDemo/RetailEvaluator.swift:359-364 | two entries sharing a UPC are both replaced by one toggle |
| RetailScenarios.AdvanceNotGated | RetailDemo/RetailEvaluator.swift:253-315 | with no action offered, advancing to delivery and to cancellation still succeed |
| RetailScenarios.IrrelevantActionIgnored | RetailDemo/RetailEvaluator.swift:193-226 | while finding, option toggles, completion and starting change nothing |

## Left out

- SwiftUI views, layout, animation, blur and keyboard handling (`RetailScreen`, `InstructionsView`, `ProductView` and the other views): UI bindings with no logic that can be stated independently. Where the translator wraps its assignments in `withAnimation`, only the assignments are modelled.
- The Combine machinery beyond the broadcast log: `PassthroughSubject`, `sink`, debounce scheduling, and the `Passable*`/`Observable*` wrappers. This is framework code. A dismissal request (`translator.$dismiss.please()`) is modelled as a counter.
- The translator is created lazily, but `RetailScreen` creates it together with the evaluator, so it is subscribed before the first broadcast. The model assumes this subscription order and does not model laziness.
- Date and number formatting in the completion summaries (`DateFormatter`, `NumberFormatter`, `TimeInterval` floats): locale-dependent text. `completedSummary` keeps the raw values (`Summary`), and only its count line is rendered.
- Time is an integer clock, and each handler reads it once. The source reads `Date()` twice when completing or cancelling, once for the completion time and once for the elapsed time; the model gives both the same reading.
- The unimplemented network claim in `startOrder`: a stub with no behaviour.
- The demo harness (`DemoControl*`, `DemoProvider`, `DemoContainerView`, `NamedDemoProvider`, `DeepCopying`, `NamedIdentifiedValue`), UUID-based identifiers and `NamedEvaluatorAction.id`: UI scaffolding and random identifiers.
- `Image.numberCircleFill`/`numberCircle`: a wrapper around the image library.
- ActionEvaluating.Breadcrumb: records the action value itself rather than the text of `breadcrumbDescription`, because that text depends on `String(describing:)`.
- OptionsView.TextFieldDidChange: splits the text character by character (one Unicode scalar each) and compares with ";" scalar by scalar, while Swift splits at grapheme clusters and compares them up to canonical equivalence. So a ";" followed by a combining mark ("a;\u{301}b") is a separator here but not in Swift, and the Greek question mark U+037E, canonically equal to ";", is a separator in Swift but not here. Neither grapheme segmentation nor Unicode normalisation is modelled.
- OptionsView.Split: the same limitation; canonically equivalent characters are treated as different, so "a\u{37E}b" is one piece here and two in Swift.
- OptionsView.IsSelected: compares option and preference scalar by scalar, whereas Swift's `==` on `String` identifies canonically equivalent strings, so the option "e\u{301}" is shown selected under the preference "\u{E9}" in Swift but not here.
- OptionsView.ToggleOption: the same comparison; a tap on an option canonically equal to, but spelled differently from, the preference sets the preference here, where Swift clears it.
- RetailEvaluator.ReplaceByUpc and RetailEvaluator.WithOptionToggled compare UPCs and option names scalar by scalar rather than up to canonical equivalence; the app only passes them ASCII literals, for which the two comparisons agree.
- ViewDemoing.IsUppercase: recognises ASCII `A`-`Z` and the Latin-1 uppercase letters (U+00C0 to U+00DE except U+00D7). It does not recognise the rest of Unicode's uppercase property, and it treats one character as one grapheme cluster, because Unicode tables are not available here.
- RetailTranslator.TranslateFeedbackCount: relates the feedback's leading number to its count for four variants only, because the canceled feedback is a fixed sentence without a number.
