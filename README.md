# inputhub.js in Dafny

A model of the event hub of inputhub.js (`src/index.js`) and of its three helpers in
`src/utils/`, with proofs of what the hub promises:

- **Fulfilment** (`fulfilment.dfy`, class `InputHub.Hub`). A native event carries a
  `fulfilled` flag that is unset, `false`, `'react'` or `true`.
  - `isFulfilled` classifies an unset event once: as `'react'` when a React handler is
    expected below the current target, as `false` otherwise.
  - `fulfill` claims an event at most once, stamps `fulfilledAt` and records the event in
    `last` and `previous[type]`.
  - `fulfillGhost` claims only ghost mouse and touch events, judged against `last`.
  - `deviceType` and `getOppositeType` classify event types by prefix and by a fixed table.
- **Listener registry** (`registry.dfy`, `hub_state.dfy`, `InputHub.Hub`). Each type has
  an ordered list of listener data objects.
  - `on` first clears the listener with `off`. It then places one new data object per
    type, in front of the list (last in, first out) or behind it.
  - `on` returns an `unbindAll` function. It runs one idempotent `unbind` closure per type.
  - `once` wraps the listener so that its first call unbinds it from every type of the call.
  - `off` removes every matching data object. An omitted `capture` or `passive` option
    matches either value.
  - Lists are always replaced by new copies, never changed in place. The model keeps
    them as values.
- **DOM listeners** (`dom_bindings.dfy`, `InputHub.Hub.UpdateDomBindings`). For each type
  and each of the four option partitions (`listSeparator`), `updateDomBindings` attaches
  a DOM listener when the partition gains its first handler and detaches it when the
  partition loses its last.
  - The detach is modelled as written: it passes no `capture` option, so it never
    detaches the listener of a capture partition (see "## Findings").
  - With the intended detach, which passes `capture`, the node holds exactly one DOM
    listener per non-empty partition (`DomBindings.UpdateKeepsAgreement`). The two
    detaches differ only when a capture partition loses its last handler
    (`DomBindings.AsWrittenDiffersOnCapture`).
  - The DOM node is a value: a multiset of attached (type, partition) closures.
  - `UpdateDomBindings` returns the `addEventListener` / `removeEventListener` calls it
    makes.
  - `DomBindings.ApplyAll` applies those calls to the node.
- **Helpers:**
  - `typeArray` splits, trims and filters a type string (`type_array.dfy`).
  - `listSeparator` partitions a list by option (`list_separator.dfy`).
  - `reactHandlerExists` walks from the target up to the current target
    (`react_handler_exists.dfy`).

Identities. The data object an `on` call makes is identified by `Uid(group, index)`:
- `group` numbers the `on` call;
- `index` is the position of the type in the call's type list.

The call's per-type `unbind` closures are `Ref`s, and their `isBound` flags are the set
`bound`. The call's `unbindListeners` array is `unbinders[group]`. The function `on`
returns is represented by the call's number; calling it is `InputHub.Hub.UnbindAll`.

Behaviour kept as written:
- `on` reads `options.life`, not `options.lifo`, to decide whether the call chose an
  order (src/index.js:259). A per-call `lifo` counts only when a `life` key is present
  (`InputHub.LifoOf`).
- `off` brings the DOM listeners up to date only for a type it changed
  (src/index.js:361-363).
- `fulfillGhost` neither records the event nor stamps `fulfilledAt`.
- A type named twice in one type string is bound twice.
- A DOM listener calls the handlers of its partition as they were when it fired, because
  lists are replaced rather than changed.

The invariant `InputHub.Hub.Valid` holds before and after every registry operation. It
combines `HubState.Registered` and `Synced`:
- no identity appears twice in a list;
- every listed data object is still reachable from its call's `unbindAll`, with its
  `isBound` flag set;
- the recorded DOM listeners of each type are exactly its non-empty partitions.

## Model

| member | source | states |
|---|---|---|
| `Fulfilment.GetNative` | src/index.js:73-75 | the native event is the jQuery `originalEvent` when there is one, else the React `nativeEvent`, else the event itself |
| `Fulfilment.WrapperSharesNative` | src/index.js:73-75 | a jQuery or React event and the native event it wraps lead to the same object, so they share one `fulfilled` flag |
| `Fulfilment.DeviceTypeOf` | src/index.js:76-87 | `pointer*` gives the pointer type when it is present and non-empty and `'mouse'` otherwise; `mouse*`, `touch*`, `key*` give `'mouse'`, `'touch'`, `'key'`; the result is null exactly when no prefix matches |
| `Fulfilment.DeviceType` | src/index.js:76-87 | every device reported is truthy, and on a native event the `'touch'` device is also a touch event for `isTouchEvent` |
| `Fulfilment.PrefixesAreExclusive` | src/index.js:77-85 | at most one of the prefixes `pointer`, `mouse`, `touch`, `key` starts a type, so the order of the tests in `deviceType` does not matter |
| `Fulfilment.GetOppositeType` | src/index.js:88-90 | exactly the six down/up types of `typeOppositeMap` have an opposite, every other type gives `undefined`, and a type with an opposite is the opposite of its opposite |
| `Fulfilment.OppositeIsInvolution` | src/index.js:7-14 | `getOppositeType` is defined exactly on its six types and is an involution there, never maps a type to itself, and keeps the device type |
| `Fulfilment.ProbeIsIdempotent` | src/index.js:144-156 | an event is classified at most once: a second probe changes neither the flag nor the answer, whatever the handler check says then |
| `Fulfilment.ClaimedIsTerminal` | src/index.js:144-156 | a claimed event stays claimed and reads as fulfilled to native, jQuery and React listeners |
| `Fulfilment.ReactHandOver` | src/index.js:146-153 | with React support, a fresh native event reads as fulfilled exactly when a React handler is expected, is parked as `'react'` then, and the parked event reads as open to the React synthetic event |
| `Fulfilment.NoReactSupport` | src/index.js:144-156 | without React support the flag is never classified and the answer is its truthiness |
| `Fulfilment.SavedProps` | src/index.js:114-133 | the saved record has a target exactly when the event has one, reports the device the native event reports, and keeps the truthiness of the native flag |
| `Fulfilment.IsGhostMouse` | src/index.js:192-194 | a ghost mouse event follows a recorded event that is neither a mouse nor a key event |
| `Fulfilment.IsGhostTouch` | src/index.js:196-198 | a ghost touch event follows a recorded event that is neither a touch nor a mouse event |
| `Fulfilment.GhostsAreCrossDevice` | src/index.js:192-198 | a ghost mouse event is a mouse event, a ghost touch event is a touch event following a touch pointer, and no event is both |
| `InputHub.Hub.IsFulfilled` | src/index.js:144-156 | the new flag is the probed old flag and the answer is that of the old flag, with the React handler walk deciding a fresh native event |
| `InputHub.Hub.Register` | src/index.js:200-204 | `last` and `previous[type]` both become the saved record of the event, other types keep theirs |
| `InputHub.Hub.Fulfill` | src/index.js:160-169 | succeeds exactly when the event was not taken; on success the native flag is `true`, `fulfilledAt` is the current target, and `last` and `previous[type]` hold that record; on failure nothing but the classification changes |
| `InputHub.Hub.FulfillTwice` | src/index.js:160-169 | the second of two `fulfill` calls on one event never succeeds, and after a first success the event stays claimed at its current target |
| `InputHub.Hub.FulfillGhost` | src/index.js:174-186 | succeeds exactly when the flag is falsy (so not for `'react'`) and the event is a ghost of `last`; only the flag changes, and a hub with no `last` never succeeds |
| `InputHub.Hub.constructor` | src/index.js:92-135 | a new hub has no record, no listeners, no DOM listeners and satisfies the invariant |
| `InputHub.Hub.TypesOf` | src/index.js:206-209 | a non-string throws the `typeAssert` TypeError; a string yields well-formed type names |
| `InputHub.Hub.On` | src/index.js:254-333 | throws, in the code's order, for a non-function listener, non-object options, `null` options, a non-string type string and an empty type list, leaving the registry unchanged; otherwise the registry is `off` followed by the type loop of a new call (`AfterOn`) and the invariant holds |
| `InputHub.Hub.BindListener` | src/index.js:266-330 | past the guards, `on` is `off` on the listener and options followed by the type loop of the next call |
| `InputHub.Hub.BindCall` | src/index.js:270-330 | the type loop under a fresh call id: one data object per type, each closure bound and pushed onto the call's `unbindListeners` |
| `InputHub.Hub.OpenCall` | src/index.js:270-271 | a new call starts with an empty `unbindListeners`, and no listed data object belongs to it |
| `InputHub.Hub.BindTypes` | src/index.js:278-330 | after the loop, the lists, closures and `isBound` flags are those of `BindAll` and `RefsOf` over the whole type list |
| `InputHub.Hub.BindNext` | src/index.js:278-330 | one pass of the loop extends `BindAll`, the call's closures and the bound set by the type at that position |
| `InputHub.Hub.BindType` | src/index.js:281-329 | the new data object is placed in a copy of its type's list, its closure is bound and pushed, the DOM listeners follow, and the invariant holds |
| `InputHub.OnBindsOnce` | src/index.js:266-329 | after `on`, each type named once holds exactly one data object with the listener's `(listener, capture, passive)`: the new one, in front of what `off` left under lifo and behind it otherwise; it belongs to the new call, its `passive` is the option when given and membership of the type in `passiveTypes` otherwise, and it carries the call's once-wrapper exactly when `once` is set |
| `InputHub.OnThenUnbindAll` | src/index.js:270-332 | the returned `unbindAll` undoes the type loop: without the call's data objects every list is as `off` left it |
| `InputHub.WithOnce` | src/index.js:246-248 | `once` passes a copy of the options with `once` set and nothing else changed, and an object whatever was passed |
| `InputHub.Hub.Once` | src/index.js:246-248 | `once` is `on` with `once` set: it throws only for a non-function, a non-string or an empty type list, and otherwise binds as `on` does |
| `InputHub.OnceWrapsAll` | src/index.js:273-276 | every data object of a `once` call carries the once-wrapper of that call, so whichever fires first unbinds the call |
| `InputHub.SpliceMatching` | src/index.js:352-360 | the reverse splice loop leaves the list without the matches, keeping the others in order, and reports a change exactly when something matched |
| `InputHub.Hub.Off` | src/index.js:335-367 | throws for a non-function listener, `null` options and a non-string type string, changing nothing; otherwise the lists are those of `OffAll` and the invariant holds |
| `InputHub.Hub.OffTypes` | src/index.js:348-366 | the loop over the type list leaves the lists of `OffAll` |
| `InputHub.Hub.OffType` | src/index.js:349-365 | a type never bound is skipped; a bound type loses its matches; DOM calls are made only when something was removed |
| `InputHub.Hub.Unbind` | src/index.js:305-318 | the first run clears the closure's flag and takes exactly its own data object out of its type's list; a later run changes nothing |
| `InputHub.Hub.UnbindAll` | src/index.js:270-271 | running a call's closures takes exactly that call's data objects out of every list, clears exactly their `isBound` flags, and keeps the invariant |
| `InputHub.Hub.Dispatch` | src/index.js:231-233 | a DOM listener calls exactly the partition's handlers as they were when it fired, in order; afterwards every list has lost the data objects of the `once` calls among them, and exactly those calls' `isBound` flags are cleared |
| `InputHub.Hub.FireEach` | src/index.js:232 | calling the snapshot's handlers one by one keeps the hub valid, removes exactly the groups of the `once` calls among them, and clears exactly those calls' `isBound` flags |
| `InputHub.Hub.Fire` | src/index.js:273-276 | a once-wrapper removes its whole call from every list and clears the call's `isBound` flags; a plain listener changes nothing |
| `InputHub.Hub.UpdateDomBindings` | src/index.js:211-244 | a type never bound is left alone; otherwise the recorded DOM listeners become the type's non-empty partitions, and the calls made are those of the key-by-key pass, with the detach as written (no `capture`) |
| `InputHub.Hub.SyncKeys` | src/index.js:220-243 | the `OPTION_KEYS` pass over the partition of the list records exactly its non-empty partitions and returns the as-written calls |
| `InputHub.Hub.SyncKey` | src/index.js:221-242 | one key: nothing when it agrees, an attach when its partition gained handlers, the option-less detach of src/index.js:241 when it lost them |
| `InputHub.Hub.SyncEach` | src/index.js:220-243 | a pass over any distinct run of keys leaves the list's record at the resync of exactly those keys and returns the as-written attach/detach calls for them in key order |
| `InputHub.Hub.Replace` | src/index.js:364-365 | replacing a list and updating the DOM listeners keeps the invariant |
| `DomBindings.Apply` | src/index.js:236-241 | an add attaches one more closure of its (type, partition), a remove with the matching `capture` detaches one, a remove with the wrong `capture` does nothing, and nothing else changes |
| `DomBindings.UpdateKeepsAgreement` | src/index.js:211-244 | with the intended detach (passing `capture`), a DOM node holding one closure per recorded partition still does after the calls of `updateDomBindings`, for the partitions recorded then |
| `DomBindings.AsWrittenDiffersOnCapture` | src/index.js:241 | the as-written and the intended call for a key differ exactly when a capture partition loses its last handler; a pass with no such key makes the same calls either way |
| `DomBindings.UpdateKeepsAgreementAsWritten` | src/index.js:211-244 | the calls `updateDomBindings` makes as written keep the node in agreement whenever no capture partition of the type loses its last handler |
| `DomBindings.SyncCallsAreTheDifference` | src/index.js:220-243 | the calls are an add exactly for each partition that gained its first handler and a remove exactly for each that lost its last; partitions that already agree get no call |
| `DomBindings.SyncKeepsAgreement` | src/index.js:229-242 | one attach, or one detach passing the right `capture`, keeps the DOM node in agreement with the recorded partitions |
| `DomBindings.SyncCallsKeepAgreement` | src/index.js:220-243 | the intended calls for a list of distinct keys keep the node in agreement, key after key |
| `DomBindings.ResyncedMembers` | src/index.js:220-243 | after the pass, a key passed over is recorded exactly when its partition is non-empty, and the others keep their state |
| `DomBindings.ResyncedAll` | src/index.js:220-243 | after all four keys, the recorded partitions are the non-empty ones |
| `DomBindings.RebindCaptureAsWritten` | src/index.js:241 | as written, binding, unbinding and rebinding a capture listener leaves two capture closures attached |
| `DomBindings.RebindCapture` | src/index.js:236-241 | with `capture` passed on removal, the same sequence leaves one |
| `DomBindings.RebindCalls` | src/index.js:211-244 | binding a lone capture handler makes one attach, and unbinding it makes one detach |
| `DomBindings.SyncCallsInKeyOrder` | src/index.js:220 | the calls come in `OPTION_KEYS` order |
| `DomBindings.BoundPairsOfNewType` | src/index.js:215-217 | recording an empty entry for a new type attaches nothing |
| `Registry.WithoutMembers` | src/index.js:342-360 | a removal keeps exactly the data objects that are not hit |
| `Registry.WithoutUnchanged` | src/index.js:354-363 | a removal changes the list exactly when something is hit (the `hasChanged` flag) |
| `Registry.WithoutIdempotent` | src/index.js:335-367 | removing the same matches twice removes nothing more |
| `Registry.IndexOf` | src/index.js:311-314 | `indexOf` gives the first position of the data object, or -1 exactly when it is absent |
| `Registry.SpliceAt` | src/index.js:311-316 | splicing out the position of a data object, in a list without repeated identities, removes that data object and nothing else |
| `Registry.Place` | src/index.js:322-328 | a new data object goes first under lifo and last otherwise, with the old list intact behind or before it |
| `Registry.PlaceOrdersBucket` | src/index.js:322-328 | the new handler fires first in its partition under lifo and last otherwise, and no other partition changes |
| `Registry.BindThenUnbind` | src/index.js:305-328 | placing and then unbinding the data objects of one call gives the list back without that call |
| `Registry.NeededIsKeysOfEntries` | src/index.js:218-229 | the partitions that need a DOM listener are exactly those of the list's data objects |
| `Registry.OffAll` | src/index.js:348-351 | `off` never creates a list |
| `Registry.OffAllRemovesMatches` | src/index.js:335-367 | each bound type `off` names loses every match, however often it is named, and every other list is kept |
| `Registry.OffAllMembers` | src/index.js:342-360 | `off` only takes data objects away |
| `Registry.BindAll` | src/index.js:285-291 | the type loop creates a list for each type it names and removes none |
| `Registry.BindAllRoundTrip` | src/index.js:270-330 | without the call's data objects, every list is as it was before the type loop |
| `Registry.BindAllDistinct` | src/index.js:278-330 | with no type repeated, each type gets exactly its own new data object, placed by lifo |
| `Registry.BindAllUntouched` | src/index.js:278-330 | a type the call does not name keeps its list |
| `Registry.BindAllMembers` | src/index.js:278-330 | the type loop adds only the data objects the call makes, one per position |
| `Registry.OneBindingPerType` | src/index.js:266-329 | after `off` cleared the listener, placing one data object leaves exactly one with its `(listener, capture, passive)` |
| `HubState.OpenGroupKeepsRegistered` | src/index.js:270-271 | a new call keeps the invariant and owns no listed data object |
| `HubState.BindOneKeepsRegistered` | src/index.js:294-328 | binding a data object with an unused identity keeps the invariant |
| `HubState.RemoveKeepsRegistered` | src/index.js:353-364 | taking data objects out of a list keeps the invariant |
| `HubState.UnboundKeepsRegistered` | src/index.js:305-318 | running an `unbind` closure keeps the invariant |
| `HubState.UnboundTwice` | src/index.js:305-310 | a closure whose flag is cleared has no data object left to remove |
| `HubState.UnbindersCoverGroup` | src/index.js:270-271 | a call's closures reach exactly the call's data objects in each list |
| `HubState.UnbindRefsUids` | src/index.js:271 | running closures one after another removes the data objects made for each list's type |
| `HubState.UnbindAllRemovesGroup` | src/index.js:270-271 | `unbindAll` of a call removes exactly the call's data objects from every list |
| `HubState.OnceWrapperCallOpen` | src/index.js:273-276 | the once-wrapper of a listed handler belongs to a call whose `unbindAll` exists |
| `HubState.OnceWrappersOpen` | src/index.js:273-276 | every once-wrapper in a partition of a listed type belongs to a call whose `unbindAll` still exists |
| `HubState.OnceRefsOfOnceGroups` | src/index.js:271-276 | every `isBound` flag a dispatch clears belongs to one of the `once` calls it fired |
| `HubState.BindAllFresh` | src/index.js:294-302 | while the type loop runs, the identity of its next data object is unused |
| `HubState.RefsOf` | src/index.js:304-320 | the call pushes one closure per type |
| `ListSeparator.ListSeparator` | src/utils/listSeparator.js:1-22 | the one-pass loop yields the four buckets, each the in-order wrapped listeners of its flags |
| `ListSeparator.SeparatedIsPermutation` | src/utils/listSeparator.js:6-18 | every data object lands in exactly one bucket: the buckets hold the list's wrapped listeners as a multiset, and their lengths sum to the list's |
| `ListSeparator.BucketPrepend` | src/utils/listSeparator.js:6-18 | a data object in front of the list comes first in its bucket and changes no other bucket |
| `ListSeparator.BucketAppend` | src/utils/listSeparator.js:6-18 | a data object at the end comes last in its bucket and changes no other bucket |
| `ListSeparator.BucketMember` | src/utils/listSeparator.js:6-18 | a bucket holds only wrapped listeners of data objects of that bucket |
| `ListSeparator.KeyOptionsAgree` | src/index.js:225-226 | the `capture` and `passive` options read off a key's name are exactly the flags of the data objects sorted into that key |
| `ListSeparator.OptionKeysAreDistinct` | src/index.js:5 | no key of `OPTION_KEYS` comes twice |
| `ListSeparator.ListSeparatorExamples` | test/utils/listSeparator.spec.js:13-21 | the empty list gives four empty buckets, and each flag combination goes to its bucket |
| `TypeArray.TypeArray` | src/utils/typeArray.js:1-6 | throws exactly for a non-string, and otherwise yields non-empty, trimmed, separator-free names |
| `TypeArray.SplitOn` | src/utils/typeArray.js:5 | `split` gives at least one piece and no piece holds a separator |
| `TypeArray.Split` | src/index.js:208 | the hub's split, trim and filter yields only non-empty, trimmed, separator-free names |
| `TypeArray.Trim` | src/utils/typeArray.js:5 | the result neither starts nor ends with whitespace, and is the input when that is already trimmed |
| `TypeArray.TrimCutsEnds` | src/utils/typeArray.js:5 | `trim` returns a slice of the input, and everything cut off before and after it is whitespace |
| `TypeArray.Tokens` | src/utils/typeArray.js:5 | trimming and filtering yields non-empty trimmed names, no more than there are pieces |
| `TypeArray.TokensSeparatorFree` | src/utils/typeArray.js:5 | no name holds a separator |
| `TypeArray.SplitJoinRoundTrip` | src/utils/typeArray.js:5 | well-formed names joined with separators, any mix of the separator characters between them, parse back to the same names in order |
| `TypeArray.SplitOfJoin` | src/utils/typeArray.js:5 | parsing pieces joined with any mix of separator characters trims them and drops the empty ones, in order |
| `TypeArray.TokensOfTypeNames` | src/utils/typeArray.js:5 | trimming and filtering leave well-formed names alone |
| `TypeArray.LeadingSeparatorIgnored` | test/utils/typeArray.spec.js:7 | a separator at the start changes nothing |
| `TypeArray.EmptyTypeString` | test/utils/typeArray.spec.js:15 | the empty string does not throw and has no names |
| `TypeArray.TypeArraySlashes` | test/utils/typeArray.spec.js:8 | `'click/mousedown/keydown'` yields the three names in order |
| `TypeArray.TypeArrayMixed` | src/utils/typeArray.js:5 | `'touchstart mousedown/click'`, which mixes the default separators `' '` and `'/'`, yields the three names in order |
| `ReactHandlerExists.ReactHandlerExists` | src/utils/reactHandlerExists.js:6-20 | true exactly when the event is not synthetic and some node from the target up to, but not including, the current target carries the `react-<type>` marker |
| `ReactHandlerExists.CurrentTargetNotExamined` | src/utils/reactHandlerExists.js:13 | a target that is the current target finds no marker |
| `ReactHandlerExists.MarkerIsWholeToken` | src/utils/reactHandlerExists.js:11-14 | the padded `indexOf` test holds exactly when `react-<type>` is one of the class name's space-separated tokens |
| `ReactHandlerExists.ButtonMarked` | test/utils/reactHandlerExists.spec.js:7 | `button react-click` carries the click marker |
| `ReactHandlerExists.ModalMarked` | test/utils/reactHandlerExists.spec.js:8 | `modal react-keydown` carries the keydown marker |
| `ReactHandlerExists.IconUnmarked` | test/utils/reactHandlerExists.spec.js:6 | `icon` carries no marker for any type |
| `ReactHandlerExists.NoKeydownMarker` | test/utils/reactHandlerExists.spec.js:9-10 | the container and the body carry no keydown marker |
| `ReactHandlerExists.ClickBelowContainer` | test/utils/reactHandlerExists.spec.js:25-29 | a click on the icon, heard on the container, finds the button's marker |
| `ReactHandlerExists.NothingBelowButton` | test/utils/reactHandlerExists.spec.js:31-48 | a click or mousedown on the icon, heard on the button, finds no marker |
| `ReactHandlerExists.KeydownFromButton` | test/utils/reactHandlerExists.spec.js:50-54 | a keydown from the button, heard on the document, finds the modal's marker |
| `ReactHandlerExists.KeydownFromContainer` | test/utils/reactHandlerExists.spec.js:56-60 | a keydown from the container finds no marker |

## Left out

- Separators: `typeSeparator` is modelled as a set of single characters (by default
  `' '` and `'/'`). A regular expression matching longer strings, or a string separator
  of several characters, is not modelled.
- Type names that are properties of `Object.prototype` (`constructor`, `__proto__`, ...)
  are not modelled. For them `this.listeners[type]` is truthy on a fresh hub, and
  `getOppositeType` returns the inherited property of `typeOppositeMap` (for
  `'constructor'`, the `Object` function) instead of `undefined`. In the model
  `listeners` and `OppositeTypes` are maps, and these names are absent from them, so
  `Fulfilment.GetOppositeType` gives `None` for them.
- The hub's own `reactHandlerExists` (src/index.js:23-37) tests `target.matches('.react-<type>')`.
  The model uses the class-name test of src/utils/reactHandlerExists.js instead.
  `MarkerIsWholeToken` shows that this test matches whole space-separated class tokens,
  as a class selector does. Tabs and newlines inside a class name are not modelled.
- What a user listener does when called: its effects, its `this` binding, the event it
  receives and any exception it throws. `Hub.Dispatch` and `Hub.Fire` model only the
  once-wrapper's `unbindAll`.
- InputHub.Hub.Dispatch: does not model the listener of a once-wrapper throwing before `unbindAll` runs.
- The browser's capture and bubble phases, and the order in which the DOM listeners of
  different partitions fire. The DOM node is a multiset of attached closures.
- InputHub.Hub.UpdateDomBindings: returns the `addEventListener` / `removeEventListener` calls
  instead of making them on `options.domNode`. What they do to the node is
  `DomBindings.ApplyAll`. `DomBindings.UpdateKeepsAgreementAsWritten` relates the two
  only while no capture partition loses its last handler, because the detach as written
  does not remove a capture listener.
- `detect-passive-events`: the options-object form of the third argument is assumed.
  Without passive support the argument is the bare `capture` flag, which a removal
  matches in the same way.
- `memoize-one` and `listFactory`: the partition is recomputed (`ListSeparator`) on each
  read. Lists are replaced rather than changed, so the memoized result is always the
  recomputed one.
- The pluggable `savedProps` option: only the default is modelled.
- The jQuery extension (src/index.js:139-141, src/utils/extendJQuery.js).
- `getLast`, the `awaitReact` option and the prototype method count that
  test/InputHub.spec.js expects. src/index.js implements none of them; `last` and
  `previous` are modelled as fields.
- The text of JavaScript's own TypeError for a property read on `null` is taken to be V8's.
- Option values are modelled by their truthiness (`!!value`), or as absent for
  `null`/`undefined`. Listener functions are modelled by identity only.
- The `typestring`, `unbind` and `unbindAll` properties stored on each data object: the
  core never reads them.
- `isTouchEvent` is modelled as the predicate `Fulfilment.IsTouchEvent`. Nothing in the
  core calls it; its one stated property is its agreement with `Fulfilment.DeviceType`.
- InputHub.OnBindsOnce: stated for type strings that name each type once. As written, a
  type named twice (`'click click'`) gets two data objects (`Registry.BindAll` models that).

## Findings

| source | as written | input that shows it | evidently intended | confidence | as-written member | corrected member |
|---|---|---|---|---|---|---|
| src/index.js:241 | `removeEventListener(type, domListener)` passes no options, so the DOM matches the removal with `capture` false | bind a `{ capture: true }` listener to a type, unbind it, then bind it again: the capture closure is never detached, so the node holds two and every event reaches the handler twice | remove with the `capture` flag the closure was added with | not executed | `DomBindings.RebindCaptureAsWritten` | `DomBindings.RebindCapture` |

The hub's `updateDomBindings` makes the removal as written (`DomBindings.RemoveCallAsWritten`).
The corrected removal is `DomBindings.RemoveCall`; `DomBindings.UpdateKeepsAgreement`
proves the intended property for it: one DOM listener per non-empty partition.
