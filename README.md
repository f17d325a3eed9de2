# rx-vdom reconciliation and lifecycle, modelled in Dafny

rx-vdom turns a declarative description of a DOM node (a "virtual DOM": a
`tag`, attributes, `children`, lifecycle callbacks) into a live element and
keeps it in step with RxJS streams. This project models the library's core
and proves what it does:

- `render` and `factory`: a registry lookup that throws for unknown tags and
  defaults the tag to `div`. Nothing but the description is stored until the
  element is connected.
- The binding `RxStream`: an optional `untilFirst` value, then one
  `finalize` per emission. Each `finalize` runs `vDomMap`, then the wrapper,
  then `realizeDom`, then `sideEffects`.
- The list reconcilers `RxStreamAppend` and `RxStreamSync` (the base
  `RxStreamChildren`):
  - a tracked list of `{domainData, virtualDOM, element}` refs;
  - the append pass and the sync diff, with `===` as the default comparison;
  - the `{added, updated, removed}` report;
  - the `style.order` hints `reorder` writes from a sorted copy.
- The reactive trait (`ReactiveTrait`):
  - `extractRxStreams` classifies attributes and children;
  - `applyAttribute` with `specialBindings`: `class`, `style`, and
    `customAttributes` with its camelCase-to-kebab names;
  - `connectedCallback`, `renderChildren` and the single-child placeholder;
  - `ownSubscriptions`, `hookOnDisconnected` and `disconnectedCallback`.

Streams are finite sequences of emissions, delivered synchronously when they
are subscribed. An element is a `class` with its child list and the fields
the library writes. Console output, calls of user callbacks and
unsubscriptions are returned as a sequence of `Event`s, in the order they
happen.

Files:

- `wrappers.dfy`: `Option` and `Result`.
- `lists.dfy`: sequence helpers (`filter`, `indexOf`, `splice`, `reverse`)
  and their lemmas.
- `dom.dfy`: the data model.
  - Domain data, descriptions (`VDom`) and property values (`Prop`).
  - Elements, refs and subscriptions.
  - The DOM operations the library calls (`appendChild`, `remove`,
    `replaceWith`, `replaceChildren`).
  - Events and errors.
- `factory.dfy`: `customElementPrefix`, the `CustomElementsMap` registry and
  `factory`.
- `virtual_dom.dfy`: `render`.
- `rx_stream.dfy`:
  - `RxStream.subscribe`/`finalize`;
  - `instanceOfStream` and `instanceOfChildrenStream`;
  - the sort behind `reorder`;
  - the sync diff;
  - the `ChildrenStream` class, which holds both list policies.
- `core.dfy`:
  - `extractRxStreams` and `specialBindings`;
  - the placeholder class;
  - the reactive-trait methods, as methods on an `Element`.

Where the library's own description and its code disagree, the model follows
the code, except for the defects listed under "## Findings". Each of those is
modelled as written by a member of its own, beside a lemma showing an input
that goes wrong. The rest of the model builds on the corrected definition, and
the rows below marked "corrected:" state members that do. The sync policy is described as working on unique items, but its
diff does not collapse duplicates within one emission:
`RxStreams.NewDataKeepsDuplicates` proves that every occurrence of a new item
is added.

## Model

| member | source | states |
|---|---|---|
| ElementFactory.CustomElementPrefixDerivation | src/lib/factory.ts:5-7 | the prefix is the package name's segment after '/', then '-', then the API version: "rx-vdom-1" |
| ElementFactory.PrefixOfScopedName | src/lib/factory.ts:5-7 | for any scoped name `scope/pkg` and version, the prefix is `pkg-version` |
| ElementFactory.Split | src/lib/factory.ts:5 | `split` gives at least one part, no part holds the separator, and joining the parts gives back the string |
| ElementFactory.RegistryContents | src/lib/factory.ts:39-153 | `form` is never registered; `dialog` is registered exactly when `HTMLDialogElement` exists; every other tag is registered exactly when it is in the literal map |
| ElementFactory.Lookup | src/lib/factory.ts:25-33 | lookup succeeds exactly for registered tags; otherwise it fails with "not registered" for that tag; on success the `is` name reads back to the tag |
| ElementFactory.LookupAsWritten | src/lib/factory.ts:25-29 | the registry test as written also passes every `Object.prototype` key |
| ElementFactory.InheritedKeyPassesRegistryTest | src/lib/factory.ts:25-29 | "constructor" is not registered, yet the written test accepts it; the corrected lookup throws |
| ElementFactory.LookupAgreesOffPrototype | src/lib/factory.ts:25-29 | off the prototype keys, the written and corrected lookups agree |
| ElementFactory.Factory | src/lib/factory.ts:22-34 | corrected registry test: a fresh, blank element with that tag and `is` = prefix-tag exactly for registered tags; otherwise the "not registered" error |
| VirtualDom.TagOf | src/lib/virtual-dom.ts:208 | a missing or falsy `tag` gives "div"; any other tag that is not "div" is the description's own string |
| VirtualDom.RenderedTag | src/lib/virtual-dom.ts:208-210 | corrected registry test: a tag renders exactly when it is registered; otherwise `factory`'s error propagates |
| VirtualDom.DefaultAndUnregisteredTags | src/lib/virtual-dom.ts:208-210 | no tag renders as `div`; tag "form" throws "not registered" |
| VirtualDom.Render | src/lib/virtual-dom.ts:200-217 | corrected registry test: undefined logs "Got an undefined virtual DOM" and gives undefined; otherwise it gives `factory`'s error, or a fresh element that only stores the description |
| RxStreams.InitialFinalizations | src/lib/rx-stream.ts:70 | one `finalize` for a truthy `untilFirst`, none for a falsy one |
| RxStreams.Finalizations | src/lib/rx-stream.ts:62-85 | the number of `finalize` calls is the number of emissions, plus one for a truthy `untilFirst` |
| RxStreams.Subscribe | src/lib/rx-stream.ts:62-75 | `subscribe` makes exactly the `finalize` calls `Finalizations` lists, in that order |
| RxStreams.SideEffectsSeeUntilFirstThenEmissions | src/lib/rx-stream.ts:70-85 | `sideEffects` sees `undefined` once for a truthy `untilFirst`, then each emission in order |
| RxStreams.FinalizedValues | src/lib/rx-stream.ts:67-83 | `untilFirst` is wrapped and realised first; emission k realises `wrapper(vDomMap(d))`, or `vDomMap(d)` without a wrapper, at position k (k+1 after `untilFirst`) |
| RxStreams.InstanceOfStream | src/lib/rx-stream.ts:88-92 | true exactly for `RxStream` instances |
| RxStreams.InstanceOfChildrenStream | src/lib/rx-stream.ts:201-205 | true exactly for list reconcilers, and never for an `RxStream` |
| RxStreams.SortRefs | src/lib/rx-stream.ts:190-191 | the sorted copy holds the same refs (same multiset) |
| RxStreams.SortRefsSorted | src/lib/rx-stream.ts:190-191 | with a total preorder as `orderOperator`, the copy is in order |
| RxStreams.InsertSorted | src/lib/rx-stream.ts:190-191 | inserting into a sorted list keeps it sorted |
| RxStreams.HintRange | src/lib/rx-stream.ts:194-197 | a tracked element's hint is an index of the tracked list; an untracked element's hint is -1 |
| RxStreams.HintsFollowOrder | src/lib/rx-stream.ts:190-197 | when a's datum sorts strictly before b's, a's element gets the smaller hint |
| RxStreams.SortedPosition | src/lib/rx-stream.ts:190-197 | a tracked ref sits at its element's hint in the sorted copy |
| RxStreams.Find | src/lib/rx-stream.ts:298 | `find` gives nothing exactly when no item matches; otherwise it gives a matching item of the list |
| RxStreams.FoundUndefinedReadsAsAbsent | src/lib/rx-stream.ts:296-301 | `undefined` is in `[undefined]`, yet `isNotInList` as written calls it absent |
| RxStreams.IsNotInListAgreesWithoutUndefined | src/lib/rx-stream.ts:296-301 | without `undefined` in the list, the written and corrected tests agree |
| RxStreams.UndefinedItemDivergesAsWritten | src/lib/rx-stream.ts:256-291 | a tracked ref with datum `undefined` and the emission `[undefined]`: as written, the datum is added again, the ref is removed from the parent and still kept in the sync list; the corrected diff adds and removes nothing |
| RxStreams.NewDataAgreesWithoutUndefined | src/lib/rx-stream.ts:262-266 | without `undefined` among the tracked data, the written and corrected additions agree |
| RxStreams.DeletedRefsAgreeWithoutUndefined | src/lib/rx-stream.ts:276-278 | without `undefined` in the emission, the written and corrected removals agree |
| RxStreams.KeptRefsAgreeWithoutUndefined | src/lib/rx-stream.ts:288-291 | without `undefined` among the removed data, the written and corrected kept refs agree |
| RxStreams.StrictEqualsIsEquivalence | src/lib/rx-stream.ts:247-251 | the default comparison `===` is an equivalence |
| RxStreams.NewDataKeepsDuplicates | src/lib/rx-stream.ts:264-266 | every occurrence of an expected item that no tracked datum matches is added; duplicates are kept |
| RxStreams.FirstPassAddsEveryItem | src/lib/rx-stream.ts:260-266 | with nothing tracked, every item of the emission is added |
| RxStreams.KeptAreTheUndeleted | src/lib/rx-stream.ts:276-291 | with an equivalence, the refs kept are exactly the tracked refs that were not removed |
| RxStreams.TrackedMatchEmission | src/lib/rx-stream.ts:260-291 | with an equivalence, after a pass every tracked datum matches an item of the emission, and every item matches a tracked datum |
| RxStreams.TrackedDataAreTheEmission | src/lib/rx-stream.ts:260-291 | with `===`, the data tracked after a pass are exactly the items of the emission |
| RxStreams.SyncPassResult | src/lib/rx-stream.ts:274-291 | removing the unmatched refs one by one from `tracked + added` leaves the kept refs, then the added ones: the sync list's own rebuild |
| RxStreams.RemovingFilteredRefs | src/lib/rx-stream.ts:276-291 | removing the refs that pass a test, one by one, leaves the others in order, then the appended refs |
| RxStreams.ChildrenStream.constructor | src/lib/rx-stream.ts:207-254 | nothing is tracked, and the sync list equals the tracked list |
| RxStreams.ChildrenStream.Reorder | src/lib/rx-stream.ts:175-198 | it does nothing without `orderOperator`; otherwise every child of the parent shows its index in the sorted copy (-1 when untracked); the display warning is logged when the parent is neither flex nor grid |
| RxStreams.ChildrenStream.AddChildRef | src/lib/rx-stream.ts:161-168 | the ref is tracked last, its element is appended last, then the parent is reordered |
| RxStreams.ChildrenStream.AddChildRefs | src/lib/rx-stream.ts:228 | refs are added in order: tracked and appended in that order, with one reorder each |
| RxStreams.ChildrenStream.RemoveChildRef | src/lib/rx-stream.ts:170-173 | exactly the ref at `indexOf` is spliced out, and only its element leaves the parent |
| RxStreams.ChildrenStream.RemoveChildRefs | src/lib/rx-stream.ts:279 | removing refs one by one is the `RemoveEach` of the list, and every element of theirs leaves the parent |
| RxStreams.ChildrenStream.FirstRenderErrorNone | src/lib/rx-stream.ts:220-268 | a pass fails exactly when some description of the emission does not render |
| RxStreams.ChildrenStream.FirstRenderErrorIsFirst | src/lib/rx-stream.ts:220-268 | a failed pass throws the error of the first description that does not render |
| RxStreams.ChildrenStream.PassErrorFromEmission | src/lib/rx-stream.ts:220-268 | the error a pass throws is that of a description of an item of its emission |
| RxStreams.ChildrenStream.StoppedOnError | src/lib/rx-stream.ts:151-158 | a subscription stopped by a pass ends with the report of that error, which comes from an item of that emission that does not render |
| RxStreams.ChildrenStream.RenderAll | src/lib/rx-stream.ts:220-273 | every datum is rendered before anything is added: one fresh ref per datum, in order, or the first render error |
| RxStreams.ChildrenStream.AppendUpdate | src/lib/rx-stream.ts:216-231 | the report is `{added: one ref per item, updated: [], removed: []}`; the tracked list and the parent grow by exactly those refs in order; with a render error nothing changes |
| RxStreams.ChildrenStream.SyncUpdate | src/lib/rx-stream.ts:256-294 | corrected membership test: `added` are the new data, duplicates included, or the first render error with nothing changed; `removed` are the tracked refs matching no expected item; `updated` is empty; the tracked list is `RemoveEach` of the old one plus the added refs; the parent loses exactly the removed elements; the sync list is the kept refs then the added ones; reorder happens only when nothing was added or removed; a removal-only pass leaves every `style.order` hint as it was |
| RxStreams.ChildrenStream.ApplySync | src/lib/rx-stream.ts:274-291 | corrected membership test: after the added refs are in, the removed refs are the unmatched tracked ones; the tracked list, the parent's children and the sync list are rebuilt from them; the reorder log comes once per added ref, plus once on a no-change pass; the hints match the tracked order after adding or on a no-change pass; a removal-only pass leaves every hint as it was |
| RxStreams.ChildrenStream.RemoveAndReorder | src/lib/rx-stream.ts:279-285 | removal splices each deleted ref and its element out; a pass that changed nothing reorders and logs the display warning; any other pass leaves every `style.order` hint as it was, so the hints written while adding still hold |
| RxStreams.ChildrenStream.AppendPass | src/lib/rx-stream.ts:216-231 | an append pass throws exactly when an item of the emission does not render, with the first such error, and changes nothing then; otherwise it only logs, the tracked data grow by the emission, and the report adds exactly its data |
| RxStreams.ChildrenStream.SyncPass | src/lib/rx-stream.ts:256-294 | corrected membership test: a sync pass throws exactly when a new datum does not render, with the first such error, and changes nothing then; otherwise it only logs, reports the new data and the unmatched refs, and keeps the sync list matching the emission |
| RxStreams.ChildrenStream.Update | src/lib/rx-stream.ts:216-294 | corrected membership test: a pass throws exactly when a description it renders fails (every item of an append emission, the new data of a sync emission), and then throws the first such error and changes nothing; either policy keeps the refs distinct and only logs; an append pass reports one added ref per item and extends the tracked data by the emission; a sync pass reports the new data and the unmatched refs, and leaves tracked data and emission matching each other; a removal-only sync pass keeps the hints |
| RxStreams.ChildrenStream.Emit | src/lib/rx-stream.ts:151-158 | one emission: it fails exactly when `Update` throws, and then reports that error alone and changes nothing; otherwise the report is `Update`'s, the pass logs only diagnostics, and `sideEffects(parent, update)` is called last, once, when set |
| RxStreams.ChildrenStream.Subscribe | src/lib/rx-stream.ts:151-159 | corrected membership test: passes run in order until the first render error, which is the only report and comes last; a pass stops the subscription only on the error of a description of its own emission, so a source whose every item renders is processed to the end; for the append policy every completed emission renders and the stopping one reports its first error; `sideEffects` sees exactly the reports of the completed passes, in order; no pass reports an update; an append pass reports the data of its emission, and the tracked data are the data of every completed pass; the sync list stays the tracked list |
| RxStreams.ChildrenStream.NextPass | src/lib/rx-stream.ts:151-158 | corrected membership test: one more emission keeps the refs distinct; it fails exactly when its pass throws, and then reports that error alone and changes nothing; a completed pass extends the reports, the `sideEffects` calls and, for the append policy, the tracked data by that emission |
| Core.ExtractAttributes | src/lib/core.ts:98-138 | the four reserved keys are dropped; every other entry appears, converted, and nothing else does |
| Core.ObservableAttributeAppliesEmissions | src/lib/core.ts:112-121 | a plain observable becomes a binding with the identity map, so each emission is applied as it is |
| Core.RxAttributeKeepsItsOptions | src/lib/core.ts:122-135 | an `RxAttribute` becomes a stream with its own `vdomMap`, wrapper, `sideEffects` and `untilFirst` |
| Core.ConvertChildren | src/lib/core.ts:144-161 | an `RxChild` becomes a binding; every other child is kept |
| Core.PolicyChildren | src/lib/core.ts:182-218 | replace, append and sync build the matching stream with the literal's options; sync defaults to `===`; any other policy logs "Unknown RxChildren policy" and gives `[]` |
| Core.ExtractChildren | src/lib/core.ts:140-218 | falsy children give `[]`; an array is converted child by child; streams are kept; a value without `source$` logs "Type of children unknown"; each case holds exactly when its input does |
| Core.Kebab | src/lib/core.ts:60 | the attribute name has no upper-case letter and is as long as the key plus its upper-case letters |
| Core.KebabRoundTrip | src/lib/core.ts:60 | a key without '-' is recovered from its attribute name |
| Core.KebabInjective | src/lib/core.ts:60 | two keys without '-' never map to the same attribute name |
| Core.BindingFor | src/lib/core.ts:356-361 | `class`, `style` and `customAttributes` have their special binding; every other name is assigned as a property |
| Core.BindingForAsWritten | src/lib/core.ts:356-361 | `specialBindings[name]` also finds the `Object.prototype` keys |
| Core.InheritedNameIsNeverAssigned | src/lib/core.ts:356-361 | "toString" goes to the inherited function as written; the corrected dispatch assigns it |
| Core.AssignLastWins | src/lib/core.ts:56-61 | copying entries key by key leaves each key with its last entry's value, or its old value when no entry has it |
| Core.StyleCopiesEntries | src/lib/core.ts:55-57 | `style` copies each entry into the inline style (`order` into the order field) and changes nothing else |
| Core.CustomAttributesUseKebabNames | src/lib/core.ts:58-62 | `customAttributes` sets each entry under its kebab name and changes nothing else |
| Core.OtherNamesAreProperties | src/lib/core.ts:356-361 | any other name becomes a property holding the value, and nothing else changes |
| Core.ApplyAttribute | src/lib/core.ts:356-361 | corrected dispatch: the element's attribute state becomes `Bind` of the old state |
| Core.CopyStyle | src/lib/core.ts:56 | the forEach over entries leaves the inline style as the key-by-key copy |
| Core.SetCustomAttributes | src/lib/core.ts:59-61 | the forEach over entries leaves the attributes as the key-by-key copy under kebab names |
| Core.BindingCalls | src/lib/core.ts:278-291 | an attribute binding makes one `applyAttribute` per `finalize` call, with that call's value |
| Core.ApplyStaticAttributes | src/lib/core.ts:272-276 | every static attribute is applied, in order, and the state is what those calls leave |
| Core.RunBinding | src/lib/core.ts:283-289 | one binding applies each finalised value in order; `sideEffects` sees the element with each domain datum |
| Core.SubscribeAttributes | src/lib/core.ts:278-291 | the bindings are subscribed in order, one owned open subscription each, appended after the old ones |
| Core.BoundEffectsResolved | src/lib/core.ts:283-289 | the attribute bindings only call `sideEffects`, never a lifecycle hook |
| Core.PlaceHolder.constructor | src/lib/core.ts:30-31 | a fresh blank `rx-vdom-1-placeholder` element with no occupant yet |
| Core.PlaceHolder.ApplyAsWritten | src/lib/core.ts:36-42 | a value that does not render throws and changes nothing; otherwise a falsy value removes the occupant and leaves none; a description replaces the occupant with its fresh rendering; with no occupant it throws a TypeError |
| Core.PlaceHolder.FalsyValueStrandsSlotAsWritten | src/lib/core.ts:36-42 | after a falsy value the next description throws, and the slot is gone from the parent |
| Core.PlaceHolder.Apply | src/lib/core.ts:33-47 | corrected: a falsy value puts the placeholder back in the slot, so there is always an occupant |
| Core.PlaceHolder.FalsyValueKeepsSlot | src/lib/core.ts:33-47 | corrected: after a falsy value, the next description shows in the same slot |
| Core.PlaceHolder.ApplyAllAsWritten | src/lib/core.ts:33-47 | the calls applied in order as written: only an `untilFirst` that does not render throws; otherwise each value shown and each event is what the written slot logic gives |
| Core.PlaceHolder.ApplyAll | src/lib/core.ts:33-47 | corrected: the calls applied in order, the slot kept; only an `untilFirst` that does not render throws, and then nothing changes |
| Core.PlaceHolder.InitializeAsWritten | src/lib/core.ts:33-47 | as written: an `untilFirst` error propagates; after a falsy value the occupant is gone and the placeholder is out of the parent; without one the slot holds the last rendering; each shown value before the first falsy one holds its description |
| Core.PlaceHolder.FalsyEmissionStrandsSlotAsWritten | src/lib/core.ts:33-47 | as written, a binding emitting a falsy value then a description ends with a reported `TypeError`, no occupant and the slot gone from the parent |
| Core.PlaceHolder.FalsyEmissionKeepsSlot | src/lib/core.ts:33-47 | corrected: the same binding reports nothing and ends with the description's rendering in the placeholder's place |
| Core.AsWrittenAgreesWithoutFalsy | src/lib/core.ts:33-47 | without a falsy value, the written and corrected slot logic log the same events |
| Core.ApplyEventsKinds | src/lib/core.ts:33-47 | a placeholder's binding only reports errors and, when `sideEffects` is set, calls it |
| Core.PlaceHolder.Initialize | src/lib/core.ts:33-47 | corrected: the occupant starts as the placeholder and is always a child of the slot: the rendering of the last value that got past `render`, or the placeholder after a falsy one; only the slot changes; an `untilFirst` error propagates with no subscription; otherwise a later error is reported, `sideEffects` sees each shown value with its domain datum, and the subscription is returned open |
| Core.FirstChildErrorIsFirst | src/lib/core.ts:331-352 | a list throws exactly when one of its children does, with the error of the first such child, every child before it rendering |
| Core.DescriptionListRenders | src/lib/core.ts:331-352 | a list of descriptions renders without error exactly when `render` accepts every tag |
| Core.ReplaceNext | src/lib/core.ts:297-305 | corrected placeholder: one emitted list: it shows exactly when none of its children throws; the `untilFirst` list throws that error, a later one reports it |
| Core.RenderChild | src/lib/core.ts:335-350 | corrected placeholder: it throws exactly the error of a description `render` rejects, or of a binding's `untilFirst` value it rejects; a binding gets a placeholder and an owned subscription; an element is appended; a description is rendered and appended; a binding returns its placeholder and a description its rendering; nothing else is returned; no lifecycle hook is called |
| Core.RenderChildren | src/lib/core.ts:331-352 | corrected placeholder: it throws exactly the error of the first child that throws; otherwise the present children are appended in order, each shown as its kind says; one owned open subscription per binding; the returned list holds, in order, each binding's placeholder and each description's rendering; no lifecycle hook is called |
| Core.ReplaceWith | src/lib/core.ts:299-302 | corrected placeholder: one list: `replaceChildren()`, then it throws the error of the first child that throws, or the children show exactly that list; earlier subscriptions are kept, and the new ones are open |
| Core.ConnectReplaceStream | src/lib/core.ts:297-305 | corrected placeholder: each list replaces every child; it throws exactly when the `untilFirst` list has a child that throws, with that child's error; the last list shows exactly when none of its children throws, and otherwise its first error is the last report; a later error is reported |
| Core.ConnectListStream | src/lib/core.ts:308-312 | corrected membership test: a fresh list reconciler with the binding's options is subscribed with the element as parent, and its subscription is owned last; its passes stop only on a render error of their own emission, so a source whose every item renders is processed to the end |
| Core.ConnectChildren | src/lib/core.ts:293-312 | corrected placeholder and membership test: an array renders once; a children stream replaces; a reconciler updates; it throws exactly the first error of the array, or of the stream's `untilFirst` list, and a reconciler never throws; a replace stream's own subscription is owned last |
| Core.LifecycleHook | src/lib/core.ts:313-315 | the description's `connectedCallback` or `disconnectedCallback`, when it holds a function |
| Core.ConnectAttributes | src/lib/core.ts:270-291 | static attributes are applied before any binding is subscribed; the state is what all calls leave, in that order |
| Core.ConnectChildrenThenHook | src/lib/core.ts:293-315 | corrected placeholder and membership test: the children are shown, then the user's `connectedCallback` is called last; it throws exactly the children's first error, and then no hook is called |
| Core.ConnectExtracted | src/lib/core.ts:270-315 | corrected placeholder and membership test: log, attributes, children, then the user's `connectedCallback` last; it throws exactly the children's first error, and then no hook is called at all |
| Core.ConnectedCallback | src/lib/core.ts:270-315 | corrected placeholder, dispatch and membership test: the same, starting from `extractRxStreams` of the element's description: it throws exactly the first render error of the extracted children, so a description whose children all render ends with its `connectedCallback`; subscriptions are only appended, at least one per binding attribute, and all are open |
| Core.OwnSubscriptions | src/lib/core.ts:376-378 | the subscriptions are appended in order, after every earlier one |
| Core.HookOnDisconnected | src/lib/core.ts:395-397 | the callbacks are appended in order, after every earlier one |
| Core.UnsubscribeAll | src/lib/core.ts:321 | each subscription is unsubscribed in list order, and all end closed |
| Core.CallHooks | src/lib/core.ts:322 | each hook is called in list order |
| Core.DisconnectedCallbackAsWritten | src/lib/core.ts:320-326 | teardown: every subscription is unsubscribed, last owned first; every hook is called, last registered first; then the user callback; both lists are left reversed, not emptied |
| Core.DisconnectedCallback | src/lib/core.ts:320-326 | corrected: the same teardown, with both lists left in the order they were added |
| Core.TeardownIsLastInFirstOut | src/lib/core.ts:320-397 | what is owned or registered later is torn down first, before everything earlier |
| Core.SecondTeardownAsWrittenIsFirstInFirstOut | src/lib/core.ts:320-326 | as written, a second disconnection calls the earlier hooks in registration order |
| Core.RepeatedTeardownAsWritten | src/lib/core.ts:320-326 | hooks [1, 2]: the first disconnection calls 2 then 1, the second calls 1 then 2 |
| Core.RepeatedTeardown | src/lib/core.ts:320-326 | corrected: both disconnections call 2 then 1 |

## Left out

- `customElements.define`, `register()` and `document.createElement`:
  registration is out of scope, and elements are created as fresh objects.
- RxJS scheduling. Emissions arrive synchronously, in order, when a stream is
  subscribed, and `unsubscribe` only closes the subscription.
- Timing of reported errors: an error RxJS reports from a subscriber sits in
  the event sequence where it is thrown, although RxJS reports it on a later
  tick.
- `window.getComputedStyle`: the parent's `display` is read from its inline
  style.
- `style.order` is kept in its own field, as the number the source writes
  out as a decimal string.
- Moving nodes: `appendChild` of an element that already has a parent does
  not remove it from that parent.
- Appending an element to itself (`ConnectedCallback` requires that the
  element is not its own child).
- `replaceWith(undefined)` inserts a text node "undefined"; the model removes
  the occupant, as the source comment intends.
- The placeholder's parent is fixed when it is created; moving a placeholder
  is not modelled.
- Object.entries of a string, `null` or `undefined` style value: modelled as
  no entries.
- Non-ASCII letters in custom attribute names: only 'A'-'Z' are lowered.
- A lifecycle property that is not a function is not called; the source
  would throw a TypeError.
- Duck typing: a plain object with `ClassType`, `subscribe` or `source$` is
  not recognised as a stream. Values carry their kind in `Prop`.
- Ill-typed descriptions:
  - a children stream under an attribute key is neither applied nor
    subscribed;
  - a list reconciler under an attribute key is assigned as a property;
    the source wraps it as a plain observable, because it has `subscribe`,
    and then throws when it reads `source$.pipe`;
  - an `RxChildren` literal under an attribute key is assigned as a
    property; the source subscribes it as an attribute stream, because it
    has `source$`;
  - an attribute stream under `children` is logged as an unknown children
    type.
- Attribute names that clash with element fields are stored as properties.
- Exact console strings: messages are flags (`Diagnostic`).
- Comparison operators that are not equivalences: only the diff itself is
  modelled for them. The matching lemmas assume an equivalence.
- Orders that are not total preorders: sorting is proved in order only for
  those.
- RxStreams.ChildrenStream.Subscribe: for the sync policy it only states that the
  sync list stays equal to the tracked list. The matching of each pass is stated per
  pass by `Update`. For the same reason, the error that stops a sync subscription is
  stated as that of some item of its emission, not as the first error among the new
  data of that pass.
- Core.ConnectListStream: the same as `ChildrenStream.Subscribe`.
- Core.ConnectedCallback: it requires a description; the source throws when
  there is none.
- Core.ConnectedCallback, Core.ConnectExtracted, Core.ConnectChildrenThenHook
  and Core.ConnectChildren: a replace stream's children are stated by
  `ConnectReplaceStream`, and a reconciler's by `ChildrenStream.Subscribe`,
  not again here.
- Equality: `==` on domain data stands for `===`, except that two `Dict`
  values with the same entries are equal, where `===` compares two object
  literals by identity. Numbers are integers, so NaN and -0 do not arise.
- VirtualDom.TagOf: a truthy `tag` that is not a string makes the factory
  throw "not registered" with the value's string form; the model reports
  `NonStringTag`, as it has no JavaScript string conversion.
- ElementFactory.Factory: an `Object.prototype` key such as "constructor"
  throws here; as written it passes the registry test
  (`ElementFactory.LookupAsWritten`).
- VirtualDom.RenderedTag: the same corrected registry test as `Factory`.
- VirtualDom.Render: the same corrected registry test as `Factory`.
- Core.ApplyAttribute: an `Object.prototype` name such as "toString" is
  assigned as a property; as written it calls the inherited function
  (`Core.BindingForAsWritten`).
- RxStreams.ChildrenStream.SyncUpdate: a tracked `undefined` datum is matched
  by an `undefined` item; as written it is added again and its ref is removed
  from the parent yet still tracked (`RxStreams.UndefinedItemDivergesAsWritten`).
- RxStreams.ChildrenStream.ApplySync: the same corrected membership test as
  `SyncUpdate`.
- RxStreams.ChildrenStream.Update: the same corrected membership test as
  `SyncUpdate`.
- RxStreams.ChildrenStream.Emit: the same corrected membership test as
  `SyncUpdate`.
- RxStreams.ChildrenStream.SyncPass: the same corrected membership test as
  `SyncUpdate`.
- Core.PlaceHolder.Initialize: a falsy value puts the placeholder back; as
  written it strands the slot (`Core.PlaceHolder.InitializeAsWritten`).
- Core.RenderChild: placeholders follow the corrected `Initialize`.
- Core.RenderChildren: placeholders follow the corrected `Initialize`.
- Core.ReplaceWith: placeholders follow the corrected `Initialize`.
- Core.ReplaceNext: placeholders follow the corrected `Initialize`.
- Core.ConnectReplaceStream: placeholders follow the corrected `Initialize`.
- Core.ConnectChildren: placeholders follow the corrected `Initialize`, and a
  reconciler the corrected membership test of `SyncUpdate`.
- Core.ConnectChildrenThenHook: the same corrections as `ConnectChildren`.
- Core.ConnectExtracted: the same corrections as `ConnectChildren`.
- Core.ConnectListStream: the corrected membership test of `SyncUpdate`; as
  written, the sync list stops matching the tracked list
  (`RxStreams.UndefinedItemDivergesAsWritten`).
- RxStreams.ChildrenStream.Subscribe: the same corrected membership test as
  `SyncUpdate`.
- RxStreams.ChildrenStream.NextPass: the same corrected membership test as
  `SyncUpdate`.
- Core.ConnectedCallback: placeholders follow the corrected `Initialize`,
  attributes the corrected dispatch of `ApplyAttribute`, and a reconciler the
  corrected membership test of `SyncUpdate`.
- src/lib/api.ts and the type-level files are not part of this model.

## Findings

| source | as written | input that shows it | evidently intended | confidence | as-written member | corrected member |
|---|---|---|---|---|---|---|
| src/lib/core.ts:36-41 | a falsy value sets `currentElement` to `undefined`, so the next value calls `replaceWith` on `undefined` and throws | a binding emitting `undefined`, then any description | the next description shows in the placeholder's slot | high, not executed | Core.PlaceHolder.InitializeAsWritten, Core.PlaceHolder.FalsyEmissionStrandsSlotAsWritten | Core.PlaceHolder.Initialize, Core.PlaceHolder.FalsyEmissionKeepsSlot |
| src/lib/factory.ts:25-29 | `!CustomElementsMap[tag]` is false for keys inherited from `Object.prototype` | `factory("constructor")` | only registered tags pass; others throw "not registered" | medium, not executed | ElementFactory.LookupAsWritten, ElementFactory.InheritedKeyPassesRegistryTest | ElementFactory.Lookup |
| src/lib/rx-stream.ts:296-301 | `find(...) === undefined` cannot tell "no match" from a matching `undefined` | sync emissions `[undefined]` then `[undefined]` | an `undefined` datum already tracked is kept, not added again | medium, not executed | RxStreams.FoundUndefinedReadsAsAbsent, RxStreams.UndefinedItemDivergesAsWritten | RxStreams.IsNotInList, RxStreams.ChildrenStream.SyncUpdate |
| src/lib/core.ts:356-361 | `specialBindings[name]` finds inherited `Object.prototype` functions | attribute `toString: "x"` | every name outside `class`, `style` and `customAttributes` is assigned | low, not executed | Core.BindingForAsWritten, Core.InheritedNameIsNeverAssigned | Core.BindingFor |
| src/lib/core.ts:320-326 | `reverse()` turns the stored lists around in place | hooks 1 and 2, then disconnect, reconnect, disconnect | hooks run last in, first out on every disconnection, as `hookOnDisconnected` documents | medium, not executed | Core.DisconnectedCallbackAsWritten, Core.RepeatedTeardownAsWritten | Core.DisconnectedCallback, Core.RepeatedTeardown |
