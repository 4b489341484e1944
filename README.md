# useCustomCursor in Dafny

A model of the React hook `useCustomCursor` (`hooks/useCustomCursor.js`). The hook drives a
custom mouse cursor. It does the following:

- On every call it checks whether it runs in a browser on a non-mobile device. If not, it
  returns a fixed position `(0, 0)` and an empty class string, and does nothing else.
- Otherwise it keeps four pieces of state: `position`, `clicked`, `linkHovered` and `hidden`.
- On mount it attaches eleven listeners to the document, plus a `mouseover`/`mouseout` pair to
  every anchor on the page.
- Its cleanup removes the eleven document listeners again.
- On every render it returns the position and a class string built with `classnames`
  (`cursor`, optionally followed by `cursor--clicked`, `cursor--hidden` and
  `cursor--link-hovered`).
- A click sets `clicked` and schedules a reset 50 ms later; a double click schedules one
  100 ms later.

The model is split into modules that follow the program's pieces:

- `Events` (`events.dfy`): points, event targets (the document or an element), the DOM event
  types the hook uses, delivered events, and the callbacks the hook registers.
  - The scanned anchors are the elements whose ids are in the `anchors` list; any other
    element id stands for any other element of the page.
  - `Foreign` callbacks stand for listeners other code on the page registered.
  - `NoHandler` is what the event tables give when no callback of the hook runs.
- `Registry` (`registry.dfy`): the DOM's listener lists.
  - `addEventListener` appends a (target, type, callback) entry unless that entry is already
    there.
  - `removeEventListener` drops the entry.
  - The class `EventRegistry` holds the list and updates it in place, one call at a time.
    Its `Valid` invariant says that no entry occurs twice, as in the DOM.
- `ClassNames` (`classnames.dfy`): the `classnames` joining rule and the hook's class string.
  `Split` cuts a class string at spaces, so that properties can be stated about its words.
- `CursorMachine` (`cursor.dfy`): the hook's state as a value, with three parts:
  - `Step`: what each handler does to the state.
  - Timers and time: the `setTimeout` callbacks are a list of pending resets, and `Advance`
    moves a logical clock and fires the resets that have come due.
  - Delivery (`Dispatch`): an event fired at a target runs that target's matching listeners.
    A bubbling event then also runs the document's matching listeners. `mouseenter` and
    `mouseleave` do not bubble.
- `CustomCursorHook` (`hook.dfy`): the hook itself.
  - `CursorHook` is a class whose fields are the four state variables, the pending timers and
    the clock. Its handler methods update the fields.
  - `AddListeners`, `RemoveListeners` and `HandleLinkHoverEvents` make the same
    `addEventListener`/`removeEventListener` calls as the source, in the same order, on an
    `EventRegistry`.
  - `UseCustomCursor` is one call of the hook including its mount effect.
  - Each method's contract ties its new state to the corresponding function of
    `CursorMachine` or `Registry`. The lemmas there state what the source promises.

Inputs the hook gets from its environment are parameters:

- browser/mobile detection: two booleans;
- `document.querySelectorAll('a')`: a list of distinct anchor ids;
- time: `Tick(dt)` advances the clock by `dt` milliseconds.

## Model

| member | source | states |
|---|---|---|
| CustomCursorHook.RenderResult | hooks/useCustomCursor.js:10-18 | Outside a browser or on a mobile device the result is position (0, 0) with an empty class string. Otherwise the result is the current position with a class string that starts with `cursor`. |
| CustomCursorHook.BypassObservable | hooks/useCustomCursor.js:10-18 | The class string is empty exactly when the hook is bypassed: a live cursor always carries `cursor`. |
| CustomCursorHook.UseCustomCursor | hooks/useCustomCursor.js:8-29 | When bypassed, no instance is created and no listener is registered. Otherwise a fresh instance starts with position (0, 0) and all flags false, the first render returns position (0, 0) and class `cursor`, and the registry becomes the mount registry `Mounted`. |
| CustomCursorHook.Bypassed | hooks/useCustomCursor.js:10 | The short-circuit test: not in a browser, or on a mobile device. `RenderResult` and `BypassObservable` state what it selects. |
| CustomCursorHook.CursorHook.constructor | hooks/useCustomCursor.js:20-23 | The state starts at position (0, 0) with `clicked`, `linkHovered` and `hidden` false and no timers pending. |
| CustomCursorHook.CursorHook.OnMouseMove | hooks/useCustomCursor.js:59-61 | The position becomes the event's client coordinates. Nothing else changes. |
| CustomCursorHook.CursorHook.OnMouseDown | hooks/useCustomCursor.js:63-65 | `clicked` becomes true. Nothing else changes. |
| CustomCursorHook.CursorHook.OnMouseUp | hooks/useCustomCursor.js:67-69 | `clicked` becomes false. Nothing else changes. |
| CustomCursorHook.CursorHook.OnClick | hooks/useCustomCursor.js:71-74 | `clicked` becomes true and one reset is appended, due 50 ms from now. |
| CustomCursorHook.CursorHook.OnDoubleClick | hooks/useCustomCursor.js:76-79 | `clicked` becomes true and one reset is appended, due 100 ms from now. |
| CustomCursorHook.CursorHook.OnMouseLeave | hooks/useCustomCursor.js:81-83 | `hidden` becomes true. Nothing else changes. |
| CustomCursorHook.CursorHook.OnMouseEnter | hooks/useCustomCursor.js:85-87 | `hidden` becomes false. Nothing else changes. |
| CustomCursorHook.CursorHook.OnLinkOver | hooks/useCustomCursor.js:91 | `linkHovered` becomes true. Nothing else changes. |
| CustomCursorHook.CursorHook.OnLinkOut | hooks/useCustomCursor.js:92 | `linkHovered` becomes false. Nothing else changes. |
| CustomCursorHook.CursorHook.Tick | hooks/useCustomCursor.js:71-79 | The clock moves by `dt`. `clicked` is cleared exactly when some pending reset has come due. Every remaining timer is still in the future. The position and the other flags are unchanged. |
| CustomCursorHook.CursorHook.Render | hooks/useCustomCursor.js:9-105 | One render: the bypass check of lines 9-18 and the class string and returned object of lines 96-105. A render repeats the bypass check. When bypassed it returns the zero result. Otherwise it returns the current position and the class string, whose words are `cursor`, then each set modifier in the order clicked, hidden, link-hovered. |
| CustomCursorHook.CursorHook.AddListeners | hooks/useCustomCursor.js:31-43 | The registry gains the eleven document listeners, added one at a time in source order. The hook's state is unchanged. |
| CustomCursorHook.CursorHook.AddPointerListeners | hooks/useCustomCursor.js:32-36 | Adds the move, enter, leave and cancel listeners in order. |
| CustomCursorHook.CursorHook.AddButtonListeners | hooks/useCustomCursor.js:37-40 | Adds the press and release listeners in order. |
| CustomCursorHook.CursorHook.AddClickListeners | hooks/useCustomCursor.js:41-42 | Adds the click and double-click listeners in order. |
| CustomCursorHook.CursorHook.RemoveListeners | hooks/useCustomCursor.js:45-57 | Removes the same eleven listeners in order. Pending timers and the hook's state are untouched. |
| CustomCursorHook.CursorHook.RemovePointerListeners | hooks/useCustomCursor.js:46-50 | Removes the move, enter, leave and cancel listeners in order. |
| CustomCursorHook.CursorHook.RemoveButtonListeners | hooks/useCustomCursor.js:51-54 | Removes the press and release listeners in order. |
| CustomCursorHook.CursorHook.RemoveClickListeners | hooks/useCustomCursor.js:55-56 | Removes the click and double-click listeners in order. |
| CustomCursorHook.CursorHook.HandleLinkHoverEvents | hooks/useCustomCursor.js:89-94 | Adds a `mouseover` and a `mouseout` listener to every scanned anchor, in scan order. The state is unchanged. |
| CustomCursorHook.CursorHook.RemoveLinkHoverEvents | hooks/useCustomCursor.js:89-94 | The corrected cleanup's second half: removes both hover listeners of every scanned anchor. |
| CustomCursorHook.CursorHook.Detach | hooks/useCustomCursor.js:45-57 | The corrected cleanup: the eleven removals of `removeEventListeners`, then the anchors' listeners. The state and timers are untouched. |
| Registry.EventRegistry.AddEventListener | hooks/useCustomCursor.js:32 | The list becomes `Add` of the old list and the entry, so an entry is never registered twice. |
| Registry.EventRegistry.RemoveEventListener | hooks/useCustomCursor.js:46 | The list becomes `Remove` of the old list and the entry: every other entry stays, in order. |
| Registry.EventRegistry.constructor | hooks/useCustomCursor.js:25-29 | The registry the hook mounts on: any list without repeats. |
| Registry.Remove | hooks/useCustomCursor.js:46-56 | `removeEventListener` on one list: the entry is no longer present, and the list does not grow. `RemoveMembers` gives membership in both directions. `RemoveNoDup` shows that the list stays free of repeats. `RemoveCount` shows that on such a list exactly one entry is dropped when it is present and none otherwise, as in the DOM. |
| Registry.RemoveCount | hooks/useCustomCursor.js:46-56 | On a list without repeats a removal shortens the list by one when the entry is present and leaves its length alone otherwise. |
| Registry.RemoveNoDup | hooks/useCustomCursor.js:46-56 | Removing keeps a list without repeats free of repeats. |
| Registry.AddAll | hooks/useCustomCursor.js:31-43 | A run of `addEventListener` calls, in order. `AddAllKeeps` and `AddAllFresh` state what it does. |
| Registry.AddAllKeeps | hooks/useCustomCursor.js:31-43 | A run of registrations keeps the old list as a prefix and adds at most one entry per call. |
| Registry.AddAllFresh | hooks/useCustomCursor.js:31-43 | Registering entries none of which is present, and no two alike, appends them in order. |
| Registry.RemoveAll | hooks/useCustomCursor.js:45-57 | A run of `removeEventListener` calls, in order. The list never grows. `RemoveAllGone`, `RemoveAllIdempotent` and `AddAllThenRemoveAll` state the rest. |
| Registry.Add | hooks/useCustomCursor.js:32-42 | Afterwards the entry is present, and the members are exactly the old ones plus the entry. The list stays duplicate-free. |
| Registry.RemoveMembers | hooks/useCustomCursor.js:46-56 | After a removal an entry is present exactly when it was present before and is not the removed one. |
| Registry.AddThenRemove | hooks/useCustomCursor.js:32-56 | Adding an absent entry and then removing it restores the list. |
| Registry.AddAllThenRemoveAll | hooks/useCustomCursor.js:31-57 | Adding a run of fresh, distinct entries and then removing the same run restores the list. |
| Registry.RemoveAllIdempotent | hooks/useCustomCursor.js:45-57 | Running the same removals a second time changes nothing, so the cleanup is safe to run twice. |
| Registry.RemoveAllGone | hooks/useCustomCursor.js:45-57 | After a run of removals none of the removed entries is left. |
| ClassNames.SplitJoin | hooks/useCustomCursor.js:96-100 | Splitting a `classnames` join of space-free names gives the names back. |
| ClassNames.ClassNameWords | hooks/useCustomCursor.js:96-100 | The class string's words are `cursor`, then each modifier whose flag is set, in key order. |
| ClassNames.ClassNameFlags | hooks/useCustomCursor.js:96-100 | Each modifier is among the words exactly when its flag is set. The word count is one plus the number of set flags. |
| ClassNames.ClassName | hooks/useCustomCursor.js:96-100 | The hook's `className`. It always begins with `cursor`; `ClassNameWords` gives its exact words. |
| ClassNames.ClassNamesOf | hooks/useCustomCursor.js:96 | The `classnames` join of a base and an object of flags. A non-empty base comes first. An empty base with no flag set gives the empty string. |
| ClassNames.Selected | hooks/useCustomCursor.js:97-99 | The names whose flag is true, in key order. There are never more names than flags. |
| ClassNames.SelectedNone | hooks/useCustomCursor.js:97-99 | No name is selected exactly when no flag is set. |
| ClassNames.ClassNameNoFlags | hooks/useCustomCursor.js:96-100 | With no flag set the class string is exactly `cursor`. |
| ClassNames.ClassNameInjective | hooks/useCustomCursor.js:96-100 | Equal class strings mean equal flags: the eight combinations are distinguishable. |
| Events.NameInjective | hooks/useCustomCursor.js:32-42 | For valid event types the type string determines the type. Matching listeners by type is therefore matching them by the string passed to `addEventListener`. |
| CursorMachine.Initial | hooks/useCustomCursor.js:20-23 | The `useState` initial values, with nothing scheduled. Its class string is `cursor`, and no advance of the clock changes it. |
| CursorMachine.Step | hooks/useCustomCursor.js:59-94 | One handler run. No handler moves the clock. Only the click and double-click handlers schedule, one reset each, after those already pending. Other code's callbacks and `NoHandler` change nothing. |
| CursorMachine.Expire | hooks/useCustomCursor.js:73-78 | The `setTimeout` callbacks that have come due fire, in scheduling order. `ExpireCursor`, `ExpireNoneDue` and `ExpireKeeps` state the result. |
| CursorMachine.Advance | hooks/useCustomCursor.js:71-79 | The clock moves by `dt`. Only `clicked` can change, and only from set to clear. No due timer is left. `AdvanceMeaning` says exactly when `clicked` clears. |
| CursorMachine.Mounted | hooks/useCustomCursor.js:25-27 | The registry after the mount effect. The listeners that were there stay first, and at most eleven plus two per anchor are added. `MountedShape` gives the exact list. |
| CursorMachine.Fire | hooks/useCustomCursor.js:73-78 | The timer callback `() => setClicked(false)` of lines 73 and 78. `ExpireCursor` shows that firing due resets clears `clicked` and changes nothing else. |
| CursorMachine.ExpireCursor | hooks/useCustomCursor.js:73-78 | Firing the due resets clears `clicked` exactly when at least one is due, and changes nothing else. |
| CursorMachine.ExpireNoneDue | hooks/useCustomCursor.js:73-78 | No timer that is due survives firing. |
| CursorMachine.ExpireKeeps | hooks/useCustomCursor.js:73-78 | The surviving timers are exactly the not-yet-due ones, with their multiplicities. |
| CursorMachine.AdvanceMeaning | hooks/useCustomCursor.js:71-79 | Advancing the clock moves `now`, clears `clicked` exactly when a reset comes due, and leaves only future timers. |
| CursorMachine.Pulse | hooks/useCustomCursor.js:71-79 | A click (or a double click) sets `clicked` and schedules one reset 50 ms (or 100 ms) on. After that delay the flag is clear. Before it, the flag stays set unless an older reset comes due. |
| CursorMachine.ResetOverridesLaterPress | hooks/useCustomCursor.js:63-74 | A press after a click does not survive the click's reset: 50 ms on, `clicked` is false. |
| CursorMachine.PressRelease | hooks/useCustomCursor.js:63-69 | Press, wait, release: `clicked` was set, ends clear, and no reset is scheduled. |
| CursorMachine.MovesEndAtLast | hooks/useCustomCursor.js:59-61 | After any run of move events the position is the last event's coordinates. Nothing else changes. |
| CursorMachine.FlagsIndependent | hooks/useCustomCursor.js:59-92 | Over any run of handlers, `hidden` changes only through the leave/enter handlers, `linkHovered` only through the anchor handlers, and the position only through the move handler. |
| CursorMachine.AllCombinationsReachable | hooks/useCustomCursor.js:59-92 | From the initial state, every combination of the three flags is reached in three handler steps, with the position still (0, 0). |
| CursorMachine.AnchorHandlerEffect | hooks/useCustomCursor.js:91-92 | An anchor's `mouseover` listener sets `linkHovered`, its `mouseout` listener clears it, and other event types do nothing there. |
| CursorMachine.DocumentListenersNoDup | hooks/useCustomCursor.js:32-42 | No two of the eleven document registrations are the same entry. |
| CursorMachine.DocumentListenersOwn | hooks/useCustomCursor.js:32-42 | The eleven entries sit on the document, are the hook's own, and none of them is among listeners other code registered. |
| CursorMachine.DocumentHandler | hooks/useCustomCursor.js:32-42 | The document's event table: for each type the hook listens for, the callback lines 32-42 pass with it, and `NoHandler` for every other type. `DocumentListenersDispatch` proves the registered listeners follow it. |
| CursorMachine.PointerDispatch | hooks/useCustomCursor.js:32-36 | Delivery to the pointer group runs the table's handler once for a pointer type and does nothing for any other type. |
| CursorMachine.ButtonDispatch | hooks/useCustomCursor.js:37-40 | Delivery to the button group runs the table's handler once for a press or release type and does nothing for any other type. |
| CursorMachine.ClickDispatch | hooks/useCustomCursor.js:41-42 | Delivery to the click group runs the table's handler once for `click` or `dblclick` and does nothing for any other type. |
| CursorMachine.AnchorPair | hooks/useCustomCursor.js:91-92 | The two entries one anchor gets: `mouseover` with the callback that sets `linkHovered`, then `mouseout` with the one that clears it. `AnchorPairDispatch` states their effect. |
| CursorMachine.AnchorListeners | hooks/useCustomCursor.js:89-94 | The entries `handleLinkHoverEvents` adds, anchor by anchor in scan order: two per anchor. `AnchorListenerAt`, `AnchorListenersNoDup` and `AnchorListenersOwn` give each entry. |
| CursorMachine.AnchorHandler | hooks/useCustomCursor.js:91-92 | An anchor's event table: `mouseover` runs its set callback, `mouseout` its clear callback, and any other type `NoHandler`. `AnchorHandlerEffect` states what each does. |
| CursorMachine.DocumentListenersDispatch | hooks/useCustomCursor.js:31-43 | An event delivered to the document's eleven listeners runs exactly the handler the document event table names for its type, once. |
| CursorMachine.AnchorPairDispatch | hooks/useCustomCursor.js:91-92 | Delivery to an anchor over one anchor's pair runs the hover handler only when the two anchors are the same. |
| CursorMachine.AnchorListenersDispatch | hooks/useCustomCursor.js:89-94 | An event at an anchor runs that anchor's hover handler once when the scan found it, and does nothing otherwise. |
| CursorMachine.AnchorListenersNoDup | hooks/useCustomCursor.js:89-94 | Distinct anchors give distinct listener entries. |
| CursorMachine.AnchorListenerAt | hooks/useCustomCursor.js:89-94 | The scan's entries come in pairs per anchor, the `mouseover` entry first and then the `mouseout` entry. |
| CursorMachine.AnchorListenersOwn | hooks/useCustomCursor.js:89-94 | Every entry of the scan is the hook's own and sits on a scanned anchor. |
| CursorMachine.MountedShape | hooks/useCustomCursor.js:25-27 | After mount the registry is what was there, then the eleven document listeners, then the anchors' listeners. |
| CursorMachine.DispatchFollowsTable | hooks/useCustomCursor.js:31-94 | Delivery over such a registry follows the reference table `Reaction`. The anchor's own listener runs first. For a bubbling event the document's listener runs next. Other code's listeners never touch the state. |
| CursorMachine.UnmountedShape | hooks/useCustomCursor.js:28 | After the cleanup the document listeners are gone. What the document had before mount is restored, and the anchors' listeners remain. |
| CursorMachine.ListenersRoundTrip | hooks/useCustomCursor.js:31-57 | `removeEventListeners` undoes `addEventListeners` on a registry that holds none of the hook's document listeners. |
| CursorMachine.AfterUnmount | hooks/useCustomCursor.js:28 | After the cleanup, only a scanned anchor's own hover listener still reacts. Every other event leaves the state alone. |
| CursorMachine.UnmountedHoverStillReacts | hooks/useCustomCursor.js:45-57 | After the cleanup as written, an event at a scanned anchor still runs that anchor's hover handler. |
| CursorMachine.ForeignInert | hooks/useCustomCursor.js:25-29 | Listeners registered by other code never change the hook's state. |
| CursorMachine.DetachRestores | hooks/useCustomCursor.js:25-29 | A complete detach after mount gives back exactly the registry the hook was mounted on. |
| CursorMachine.AfterDetach | hooks/useCustomCursor.js:25-29 | After a complete detach no event changes the hook's state. |

The eleven document registrations of lines 32-42 are the constant `CursorMachine.DocumentListeners`.
It is made of three constants in call order:

- `PointerListeners` (lines 32-36);
- `ButtonListeners` (lines 37-40);
- `ClickListeners` (lines 41-42).

The rows of `DocumentListenersNoDup`, `DocumentListenersOwn`, `PointerDispatch`, `ButtonDispatch`,
`ClickDispatch` and `DocumentListenersDispatch` state what these lists are.

## Left out

- React's rendering machinery: re-renders, state batching and the rules of hooks. Each setter is an immediate field update, and `Render` reads the fields. The bypass returns before the `useState` calls, as in the source.
- The components that consume the hook (`CustomCursor.jsx` and the styled cursor). They only style the result and position it with floating-point offsets.
- `use-mobile-detect-hook` and `process.browser`: the model takes them as the two boolean inputs of `UseCustomCursor`, `CursorHook.Render` and `RenderResult`.
- `document.querySelectorAll('a')`: the model takes it as a given list of distinct anchor ids. Elements added to the page after the scan are therefore never wired, as in the source.
- Real timers and the event loop. All resets fire in `Tick`, and in any order they reach the same state, since each one clears `clicked`. Ties between a reset and an event at the same millisecond are not modelled.
- The capture phase, `stopPropagation`, `preventDefault`, and listener options. Delivery is target first, then the document for bubbling types.
- Several instances of the hook on one page, and remounts. Every mount creates fresh arrow functions, but the `Handler` values here are one per callback and per anchor (`LinkOver(a)`, `LinkOut(a)`), whichever mount registered them. A remount after the cleanup as written is therefore a new instance whose hover listeners the model merges with the leaked ones: `Mounted` finds the leaked `mouseover`/`mouseout` entries already present and adds no second pair, where the DOM would hold one extra pair per anchor for every remount. The leak in "## Findings" is shown for one mount, not as growing with each remount.
- Render, UseCustomCursor: browser and mobile detection are inputs of each call, as in the source, which re-evaluates them on every render. The model assumes they stay constant over an instance's life. If they changed between renders, the number of React hook calls would change, which React does not support, so that case is not modelled.
- Dispatch: the page's element tree is flattened. Delivery runs the target's listeners and then, for bubbling types, the document's; the elements in between are not modelled. In a browser, a `mouseover` or `mouseout` fired at an element inside a scanned anchor (an image inside a link) bubbles through that anchor and runs its hover listener. In the model such an element is an id outside the scan, so `AnchorListenersDispatch`, `DispatchFollowsTable` and `AfterUnmount` say that no hover listener runs for it.
- Point: `clientX` and `clientY` are integers here. In the DOM they are doubles, and pointer events can carry fractions. The hook only copies them into `position`, so nothing it does depends on the difference.
- EventType: the event-type string is an enumeration, and `EventType.Name` gives the strings the source passes. `Other` stands for any type outside the thirteen named ones (`EventType.Valid`). An `Other` that spells a named type is not that type in the model. The event object keeps only `clientX`/`clientY`.
- Scheduled resets are not cancelled on unmount. The model keeps them pending (`RemoveListeners` and `Detach` leave `timers` alone), as the source does.
- AddListeners: its eleven calls are made through three group methods (pointer, button and click). The calls and their order are unchanged; the grouping only keeps each proof small. RemoveListeners is grouped the same way.
- AfterUnmount: stated over the registry that `UnmountedShape` proves the cleanup leaves, not over the cleanup's result directly.
- UnmountedHoverStillReacts: states which handler still runs. `AnchorHandlerEffect` supplies that this handler sets or clears `linkHovered`.

## Findings

| source | as written | input that shows it | evidently intended | confidence | as-written member | corrected member |
|---|---|---|---|---|---|---|
| hooks/useCustomCursor.js:45-57 | The effect's cleanup removes only the eleven document listeners. The `mouseover`/`mouseout` arrow functions attached to every anchor at lines 89-94 stay attached, and no reference to them is kept. | Mount on a page with one anchor, unmount, then fire `mouseover` at that anchor. The unmounted hook's `linkHovered` setter still runs. | Detaching removes every handler registered at attach time, so that no tracked event changes the state after unmount. | not executed | CursorMachine.UnmountedHoverStillReacts | CustomCursorHook.CursorHook.Detach |

The corrected cleanup is `Detach`. It runs `RemoveListeners` and then `RemoveLinkHoverEvents`. With it, `CursorMachine.DetachRestores` proves that the registry returns to exactly its pre-mount contents. `CursorMachine.AfterDetach` proves that no event reaches the hook any more. `RemoveListeners` stays the model of the cleanup as written.
