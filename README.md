# autocomplete.js: a Dafny model of the interaction controller

This project models the state controller of the autocomplete.js widget (v2.1.3), in both of its variants:

- `autocomplete.js` (module `Autocomplete`).
- `autocomplete-lite.js` (module `AutocompleteLite`).

Each variant is a `Widget` class. Its fields are the variables of the `Autocomplete(settings)` closure:

- `open`: whether the list or container has the class "open".
- `items`: `_currentItems`. It is an `Option` because it is undefined until the first result set arrives.
- `marks`: the selected class on each element of `_currentListEls`.
- `index`: `_currentIndex`.
- `lastInput`: in `autocomplete.js` only, modelled as a boolean.
- `lastCB`: the search token, in `autocomplete.js` only.
- `inputValue`: the attached input's `value`. It is a public field, so the user's typing is an assignment to it.

The methods are the closure functions: `_show`, `_hide`, `_search`, the search callback, `_searchCallback`, `_selectItem`, `_keyup`, `_keydown` and, in the lite variant, the row click handler.

Each method's contract has three parts:

- It preserves the object invariant `Valid()`. This includes the navigation bound `-1 <= index <= |items| - 1` and one element per item.
- It gives the complete new state through two-state predicates such as `Hidden`, `Searched`, `Installed`, `MovedUp` and `MovedDown`.
- It names the outside effects as values: the request handed to the lookup handler, the `ac-select` notification and the followed link, and a `TypeError` thrown out of a listener.

Each variant also has a `Debouncer` class. It models `_debounce` as one pending-call slot, which each call replaces.

`Common` holds the definitions both files share, which are identical in the two sources:

- The `_keyup` filter.
- Truncation to `limit`.
- The `Factory` argument guards.
- The text the DOM produces when a number or `undefined` is written into an input.

The lookup handler is an opaque asynchronous capability:

- `Search` returns the request it issues: the query and, in `autocomplete.js`, the token.
- Each time the handler answers, a separate `Callback(token, response)` or `SearchCallback(response)` call models it.

The token is the clock reading `new Date().getTime()`. It is passed in as `now`, and nothing assumes that it increases: two searches in the same millisecond share a token.

The model keeps these behaviours of the code as they are:

- A stale answer in `autocomplete.js` still calls `_hide()`. This closes the list that the newer search opened and clears `lastInput` (`StaleAnswerScenario`).
- Two searches with the same clock reading make the older answer acceptable (`SameMillisecondScenario`).
- `_search` does not reset `_currentIndex`, or the current items and marks (`Searched`).
- `_hide` does not clear the marks. A mark left from before a hide can survive on an element that is no longer shown. For this reason `Valid()` only promises that the selected position is marked.
- In `autocomplete.js`, a down arrow after a search but before the first result set reads `.length` of an undefined `_currentItems`, and this throws. In the lite variant this happens on any down arrow before the first result set. Both are modelled as `Effect.TypeError` with the state unchanged.
- In the lite variant, a callback with `false` throws (`false.slice` is not a function) instead of hiding.
- When the latest token's answer arrives after the list was hidden, it is installed but the list is not reopened.
- In the lite variant, stepping down onto the last row leaves that row unmarked, and no row is ever marked there (`StepOntoLastScenario`).

The documented design differs from the code in places, and the model follows the code:

- Selection state and the token are per `Autocomplete(settings)` closure, shared by every input that one `Factory` attaches, not per input.
- The missing-handler guard tests only `typeof handler === "undefined"`, so a `null` handler passes it.
- The value written on commit is chosen in the order raw string or number, then `value` undefined (use `text`), then `value`. For records this agrees with "value, else text".
- The lite variant ignores `value` altogether.

## Model

| member | source | states |
|---|---|---|
| Common.TriggersSearch | autocomplete.js:178-210 | `_keyup` searches for the event it is given exactly when ctrl is not held, the code is not F1–F15 (112–126), and it is not one of 9, 13, 16, 17, 19, 20, 27, 33–40, 45, 144, 145. autocomplete-lite.js:128-160 has the same filter, and there it runs on key release; autocomplete.js runs it only from the debounced `input` listener. |
| Common.Truncate | autocomplete.js:146-148 | The installed list is the first min(n, limit) items in their original order, and the whole list when it already fits. The same code is at autocomplete-lite.js:101-103. |
| Common.Factory | autocomplete.js:262-270 | A falsy input returns `false`, and this is checked before the handler. A truthy input with an undefined handler throws the fixed message. Every other pair goes on to wiring. The same guards are at autocomplete-lite.js:210-218. |
| Autocomplete.CommitText | autocomplete.js:96-102 | A record with a `value` commits that value. Otherwise a raw string commits itself, a number its decimal text, and a record its `text` ("undefined" when `text` is missing). |
| Autocomplete.Widget.constructor | autocomplete.js:15-18 | Initial state: closed, no items and no elements, index -1, `lastInput` false, no token. |
| Autocomplete.Widget.Show | autocomplete.js:67-71 | Opens the list and records the input. Nothing else changes. |
| Autocomplete.Widget.Hide | autocomplete.js:73-84 | When focus moves to an element with an href, nothing changes. Any other call closes the list, sets the index to -1 and clears `lastInput`, and keeps the items, marks and token. |
| Autocomplete.Widget.Search | autocomplete.js:157-167 | An input shorter than `minInputLength` issues no request and only hides. Otherwise the list opens, `now` becomes the latest token, and one request (input text, `now`) is issued. Items, marks and index are untouched. |
| Autocomplete.Widget.SearchCallback | autocomplete.js:145-154 | The installed list is `Truncate(list, limit)`, with one unmarked element per item and index -1. Open state, `lastInput` and token are unchanged. |
| Autocomplete.Widget.Callback | autocomplete.js:168-175 | An answer carrying the latest token with a non-empty array is installed. A stale token, `false` or an empty array installs nothing and hides. |
| Autocomplete.Widget.SelectItem | autocomplete.js:86-107 | A disabled item changes nothing and notifies nothing. Any other item writes `CommitText(item)` to the input, notifies `ac-select` with the item and its href, and hides, so the index becomes -1. |
| Autocomplete.Widget.Keyup | autocomplete.js:178-210 | Events that `TriggersSearch` rejects change nothing. All others run `Search`. In this file `_keyup` is reached only through the debounced `input` listener (autocomplete.js:298-306), never on key release. |
| Autocomplete.Widget.Keydown | autocomplete.js:212-260 | Ctrl and unhandled keys do nothing. Up is a no-op at -1; otherwise it moves one step and only the old and new marks change, and from 0 it reaches -1 with no new mark. Down with no open input searches instead; before any result set it throws; at the last index it is a no-op; otherwise it moves one step. Tab/enter at -1 does nothing, not even preventDefault; otherwise it commits the selected item. Escape always hides. The bound `-1 <= index <= |items|-1` holds throughout. |
| Autocomplete.Debouncer.constructor | autocomplete.js:20-25 | An undefined `passFirst` becomes the empty array, and nothing is pending. |
| Autocomplete.Debouncer.Call | autocomplete.js:27-32 | A call replaces whatever was pending with `passFirst` followed by its own arguments. |
| Autocomplete.Debouncer.Elapse | autocomplete.js:32-35 | When the delay elapses, `func` receives the pending arguments and the slot empties. |
| Autocomplete.DebounceLastCallWins | autocomplete.js:20-36 | Of two calls within the delay, only the second reaches `func`, once, after `passFirst`. |
| Autocomplete.StaleAnswerScenario | autocomplete.js:166-172 | After searches at two different clock readings, the first search's answer is not installed, and it leaves the list closed with `lastInput` cleared. |
| Autocomplete.SameMillisecondScenario | autocomplete.js:166-169 | After two searches at the same clock reading, the first search's answer is installed. |
| Autocomplete.LimitScenario | autocomplete.js:145-153 | With limit 2 and `minInputLength` 2 (at the default of 3 the query "ap" would not search), the answer Apple, Apricot, Banana installs exactly Apple, Apricot with index -1. |
| Autocomplete.CommitValueScenario | autocomplete.js:231-254 | Search, answer, down, enter on `{text: "Foo", value: "F"}` writes "F", notifies the item, and closes the list with index -1. |
| AutocompleteLite.ClickText | autocomplete-lite.js:80-86 | A row click writes the raw string, or `text` for a record, and "undefined" for a number or for a record without `text`. |
| AutocompleteLite.ClickIgnoresValue | autocomplete-lite.js:81-85 | What a row click writes does not depend on the record's `value`. |
| AutocompleteLite.Widget.constructor | autocomplete-lite.js:14-18 | Initial state: closed, no items and no elements, index -1. |
| AutocompleteLite.Widget.Show | autocomplete-lite.js:52-54 | Opens the container. Nothing else changes. |
| AutocompleteLite.Widget.Hide | autocomplete-lite.js:56-61 | Always sets the index to -1. It removes "open" only for no event, an event with no target, or the container as target. |
| AutocompleteLite.Widget.Search | autocomplete-lite.js:111-126 | A short input issues no query and only hides. Otherwise the container opens and the input text is handed to the handler. Items, marks and index are untouched. |
| AutocompleteLite.Widget.SearchCallback | autocomplete-lite.js:96-109 | `false` throws and changes nothing. An empty array only hides. A non-empty array installs `Truncate(list, limit)`, unmarked, with index -1, and leaves the open state as it was. |
| AutocompleteLite.Widget.Keyup | autocomplete-lite.js:128-160 | Keys that `TriggersSearch` rejects change nothing. All others run `Search`. |
| AutocompleteLite.Widget.Click | autocomplete-lite.js:77-92 | A row without a link writes `ClickText(item)` and hides. A row with a link follows it and changes no state. |
| AutocompleteLite.Widget.Keydown | autocomplete-lite.js:162-208 | Up is as in autocomplete.js. Down before any result set throws; at the last index it is a no-op; otherwise it steps, marking the new row unless it is the last one. Tab/enter at -1 does nothing; otherwise it clicks the selected row, with no preventDefault. Escape hides. The bound `-1 <= index <= |items|-1` holds throughout, and the last row is never marked. |
| AutocompleteLite.BindArgs | autocomplete-lite.js:26-35 | The unshift loop yields `bindArr` in its original order followed by the call's arguments. Without `bindArr`, the arguments are unchanged. |
| AutocompleteLite.Debouncer.constructor | autocomplete-lite.js:20-21 | Keeps `bindArr`, and nothing is pending. |
| AutocompleteLite.Debouncer.Call | autocomplete-lite.js:22-39 | A call replaces whatever was pending with `bindArr` followed by its own arguments. |
| AutocompleteLite.Debouncer.Elapse | autocomplete-lite.js:37-41 | When the delay elapses, `func` receives the pending arguments and the slot empties. |
| AutocompleteLite.DebounceLastCallWins | autocomplete-lite.js:20-42 | Of two calls within the delay, only the second reaches `func`, once, after the bound arguments. |
| AutocompleteLite.OlderAnswerScenario | autocomplete-lite.js:122-125 | With no token, the answer to the older of two searches is installed. |
| AutocompleteLite.StepOntoLastScenario | autocomplete-lite.js:181-194 | With two items, two down arrows reach index 1, and no row is marked. |
| AutocompleteLite.CommitTextScenario | autocomplete-lite.js:196-202 | Enter on the selected `{text: "Foo", value: "F"}` writes "Foo" and closes the container with index -1. |

## Left out

- `_align` in both files: viewport geometry computed from DOM measurements.
- DOM construction in `_renderItem`: `innerHTML`, classes, `<a>` versus `<div>`, the `sub` line, header rows, the `disabled` attribute and the loading row's contents. Only the per-element selected mark and what a commit writes are kept.
- The mouse path in autocomplete.js (the `mousedown` listener with its button check) that calls `_selectItem`. `SelectItem` itself is modelled and reached through `Keydown`.
- The event wiring in `Factory`:
  - in both files, focus runs `_search`;
  - in autocomplete.js, blur runs `_hide`; an `input` event runs `_search` directly for a paste or an untyped event, and otherwise goes through the debounced `_keyup`, which receives the `input` event; keydown goes to `_keydown`; there is no keyup listener;
  - in autocomplete-lite.js, keyup goes through the debounced `_keyup` with `[handler, input]` bound, and keydown goes to `_keydown`; there is no `input` listener and no blur listener, so losing focus never closes the container;
  - the shared list or container is created lazily, with its resize and click listeners.
  The `Debouncer` classes model the debounced closures on their own.
- AutocompleteLite.Widget.Click, AutocompleteLite.Widget.Keydown: a row click bubbles up to the container's own click listener (autocomplete-lite.js:225), which calls `_hide` with the row as target and so sets the index to -1 without closing. For a row without a link this repeats what the click handler already did. For a row with a link the model claims the state unchanged, leaving out that index reset; the page then follows the link.
- Real timers, `delay`, and the clock. The pending timer is the `pending` slot, and the clock reading is the `now` parameter.
- The `ac-select` event object and `window.location.assign`. They appear only as the `Selected` and `FollowLink` effects.
- The `this` context that the debounced closures forward to `func`.
- Several attached inputs. The model has one input per closure, and `lastInput` is a boolean instead of the input element.
- Settings merging with `Object.assign`. `limit` is taken as a natural number. With a negative limit, JavaScript's `slice` would count from the end, and that case is not modelled.
- Item shapes other than a string, an integer, or a record with optional string fields. Non-integer numbers and JavaScript's exponent notation for very large numbers are not modelled.
- Autocomplete.Widget.Search, AutocompleteLite.Widget.Search: the input's length is counted in characters, where JavaScript counts UTF-16 code units. The two differ for characters outside the Basic Multilingual Plane.
- AutocompleteLite.BindArgs: the `typeof args === 'undefined'` branch is not modelled, because `args` is always an array at that point.
- The lookup handler's own behaviour and failures, and `console.log`.
