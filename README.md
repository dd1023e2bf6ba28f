# Dynamic adapt and the focus-visible polyfill, in Dafny

This project models the two pieces of logic in `js/script.js`.

**DynamicAdapt.** Elements carry a `data-da="selector, breakpoint, place"` directive. At start-up, `init` does the following:

1. Reads every directive into a record.
2. Sorts the records with a "min" or "max" comparator.
3. Builds one media-query entry per distinct breakpoint string, in first-occurrence order.
4. Binds to each entry a listener holding the records of that breakpoint.
5. Calls each listener's handler once.

When its query matches, the handler does two things for each record:

- it remembers the element's index in its parent;
- it moves the element into the destination (first, last, or before the n-th child), marking it with the engine's class.

When the query stops matching, the handler puts every marked element back before the child at the remembered index, or last if there is none.

**The `:focus-visible` polyfill.** It keeps a keyboard-modality flag:

- A key press without a modifier sets it.
- A pointer press clears it.
- So does the first pointer movement after load or after the tab was hidden.
- Focus on an element adds `focus-visible` when the modality is the keyboard or the element is a text field.
- Blur removes the class, but only where the polyfill added it. The `data-focus-visible-added` attribute marks those elements.

The model is laid out as follows:

- The document is a map from each element to the ordered list of its element children, plus the set of elements carrying the engine's marker class (`Dom`). Insertion follows the DOM pre-insert steps.
- The page-level behaviour is a set of functions on values: `Adapt` (one handler call), `Startup` (what `init` computes) and `FocusVisible` (one handler per event).
- The engine object is a class. Its methods change the document step by step and are proved equal to those functions: `Engine.DynamicAdapt` for the engine, `FocusVisible.Polyfill` for the polyfill.
- `Array.prototype.sort` is modelled as a stable insertion sort (`Rules.SortRules`).

Two behaviours of the code shape the model:

- **Missing destination.** js/script.js:406-407 dereferences `destination` unguarded, so a rule without one throws when activated. The model therefore requires a destination for every record whose query matches (`Startup.Resolvable`, `Startup.DestinationsOk`, `Adapt.Ready`). It does not give such a rule any other behaviour.
- **Order of moving elements back.** `moveBack` exists to reinsert an element at the index recorded for it at js/script.js:390. The code walks the listener's records in the same order for both branches (js/script.js:388 and 394), and for two records of one parent that does not reinsert them where they were (see Findings). The model keeps the code's order as `Adapt.DeactivateAsWritten` and `Adapt.HandleAsWritten`. The corrected reverse order, `Adapt.Deactivate` and `Adapt.Handle`, is what the engine class uses.

## Model

| member | source | states |
|---|---|---|
| Text.Trim | js/script.js:345 | `trim` leaves no white space at either end, is no longer than its input and keeps no character the input lacks |
| Text.TrimStrips | js/script.js:345 | the result of `trim` is a middle part of the input with only white space before and after it |
| Text.TrimKeepsTrimmed | js/script.js:345 | trimming a string with no white space at its ends gives it back |
| Text.Split | js/script.js:346 | `split(",")` gives at least one piece, no piece contains the separator, and joining the pieces with it gives the string back |
| Text.SplitJoin | js/script.js:346 | splitting separator-free pieces joined by the separator gives exactly those pieces |
| Text.NumberValue | js/script.js:455 | the number a breakpoint string stands for in `a.breakpoint - b.breakpoint`: "" is 0, a digit string its decimal value (`DecimalValue`), anything else NaN |
| Text.CanonicalInjective | js/script.js:455 | two canonical numerals with the same value are the same string, so numeric and string equality of such breakpoints agree |
| Directive.ParseDirective | js/script.js:345-352 | every field of a parsed directive is trimmed and free of commas |
| Directive.ParseThreeFields | js/script.js:345-352 | a three-field directive yields each field trimmed; an empty breakpoint or place falls back to "767" or "last" |
| Directive.ParseTwoFields | js/script.js:345-352 | a two-field directive yields the trimmed selector and breakpoint ("767" if empty) and the place "last" |
| Directive.ParseSelectorOnly | js/script.js:345-352 | a directive without commas is a selector with breakpoint "767" and place "last" |
| Directive.ParseFormatted | js/script.js:345-352 | writing a trimmed selector, breakpoint and place with commas and parsing it gives the three fields back |
| Directive.ParsePlace | js/script.js:406-414 | "first" and "last" are the named places, and exactly the canonical numerals are child indices, with their decimal value |
| Directive.PlaceRoundTrip | js/script.js:352 | every place written as a directive field reads back as itself |
| Dom.InsertBefore | js/script.js:407 | `insertAdjacentElement` keeps every child list duplicate-free and every element under one parent; the element ends up in the container and every other element stays where it was |
| Dom.InsertBeforePosition | js/script.js:414 | inserting before a sibling puts the element immediately in front of it |
| Dom.InsertBeforeItself | js/script.js:421 | inserting an element before itself leaves the document unchanged |
| Dom.Document.InsertBeforeEnd | js/script.js:407 | `insertAdjacentElement('beforeend')` is the pre-insert with no reference child |
| Dom.Document.InsertAfterBegin | js/script.js:411 | `insertAdjacentElement('afterbegin')` is the pre-insert before the first child, if any |
| Dom.Document.InsertBeforeBegin | js/script.js:414 | `insertAdjacentElement('beforebegin')` on a child is the pre-insert before that child |
| Dom.Document.AddMarker | js/script.js:405 | `classList.add` puts the element in the marked set |
| Dom.Document.RemoveMarker | js/script.js:419 | `classList.remove` takes the element out of the marked set |
| Adapt.IndexInParent | js/script.js:428-431 | the result is -1 exactly when the element is not a child of the parent, and otherwise the index at which it sits |
| Adapt.Anchor | js/script.js:406-414 | the child `moveTo` inserts before is always one of the destination's children |
| Adapt.Target | js/script.js:406-414 | the index `moveTo` aims at is never past the end of the destination |
| Adapt.MoveToPosition | js/script.js:404-415 | `moveTo` of an element from elsewhere puts it at index 0 for "first", last for "last" or an index at or past the end, and at index k otherwise; every other list only loses the element |
| Adapt.MoveBackPosition | js/script.js:418-425 | `moveBack` puts the element at `index` when a child is there, and last otherwise (also for -1); every other list only loses the element |
| Adapt.AppendLastChild | js/script.js:423 | appending the last child again changes nothing |
| Adapt.MoveToIdempotent | js/script.js:404-415 | a second `moveTo` with the same arguments leaves the children as the first one did |
| Adapt.MoveRoundTripList | js/script.js:404-431 | when the destination is not the parent, each child list, after `moveTo` and then `moveBack` with the index taken before the move, is as it was |
| Adapt.MoveRoundTrip | js/script.js:404-431 | when the destination is not the parent, the whole document, after `moveTo` and then `moveBack` with the index taken before the move, is as it was |
| Adapt.ActivateOne | js/script.js:389-391 | one turn of the "matches" loop keeps every record wired to the document and changes no record except its index |
| Adapt.DeactivateOne | js/script.js:395-398 | one turn of the "does not match" loop keeps the document well formed and the records unchanged |
| Adapt.Activate | js/script.js:387-392 | the "matches" branch keeps the document well formed and changes records only in their indices |
| Adapt.DeactivateAsWritten | js/script.js:393-399 | the "does not match" branch in the code's order keeps the document well formed and the records unchanged |
| Adapt.Deactivate | js/script.js:393-399 | the "does not match" branch in reverse order keeps the document well formed and the records unchanged |
| Adapt.HandleAsWritten | js/script.js:386-401 | `mediaHandler` as written keeps the document well formed and changes records only in their indices |
| Adapt.Handle | js/script.js:386-401 | `mediaHandler` with the corrected "does not match" order keeps the document well formed and changes records only in their indices |
| Adapt.ExactlyOneHome | js/script.js:386-401 | in the relocation state, each element sits either in its destination or in its parent, never both and never neither |
| Adapt.ActivateOnePlaced | js/script.js:389-391 | one activation keeps "marked exactly when in the destination, otherwise in the parent" |
| Adapt.DeactivateOnePlaced | js/script.js:395-398 | one deactivation keeps that relocation state |
| Adapt.HandlePlaced | js/script.js:386-401 | the corrected `mediaHandler`, whichever branch runs, keeps that relocation state |
| Adapt.DeactivateAsWrittenPlaced | js/script.js:393-399 | the "does not match" branch in the code's order keeps that relocation state |
| Adapt.HandleAsWrittenPlaced | js/script.js:386-401 | `mediaHandler` as written, whichever branch runs, keeps that relocation state |
| Adapt.DeactivateSkipsUnmarked | js/script.js:396-398 | deactivating records whose elements are all unmarked changes nothing, in either order |
| Adapt.ActivateOneFootprint | js/script.js:389-391 | one activation marks its element, moves no other element and rewrites only its own record |
| Adapt.ActivateMarks | js/script.js:387-392 | activation marks exactly the listener's elements, in addition to what was marked |
| Adapt.ActivateMovesOnly | js/script.js:387-392 | activation leaves every element outside the listener under the parent it had |
| Adapt.ActivateKeepsOtherRules | js/script.js:387-392 | activation rewrites no record outside the listener |
| Adapt.DeactivateOneFootprint | js/script.js:395-398 | one deactivation turn unmarks its element and moves nothing else; it moves that element only when it was marked |
| Adapt.DeactivateAsWrittenMarks | js/script.js:393-399 | the "does not match" branch in the code's order unmarks exactly the listener's elements and no other |
| Adapt.DeactivateMarks | js/script.js:393-399 | the same for the corrected order |
| Adapt.DeactivateAsWrittenMovesOnly | js/script.js:393-399 | the "does not match" branch in the code's order leaves every element that is not a marked element of the listener under the parent it had |
| Adapt.DeactivateMovesOnly | js/script.js:393-399 | the same for the corrected order |
| Adapt.StepRoundTrip | js/script.js:389-398 | one record's element moved out and back restores the child lists and the marks |
| Adapt.GroupRoundTrip | js/script.js:386-401 | activating a listener's fresh records, each with a destination other than its parent, and then deactivating them in reverse order restores every child list and the marks |
| AdaptExample.SameParentNoRoundTrip | js/script.js:404-431 | with the destination equal to the parent, children 10, 11, 12 and element 12 placed "first", `moveTo` gives 12, 10, 11 and `moveBack` at the recorded index 2 gives 10, 12, 11 |
| AdaptExample.AsWrittenReordersSiblings | js/script.js:393-399 | on a page with children 10, 11, 12, where 10 and 11 both go "last", the code's deactivation order gives 11, 10, 12 back; reverse order gives the page back |
| Rules.CompareMin | js/script.js:438-456 | equal breakpoints order by place (first, then index ascending, then last) and compare 0 exactly for equal places; different numeric breakpoints order ascending |
| Rules.CompareMax | js/script.js:458-476 | the same with both orders reversed |
| Rules.MaxReversesMin | js/script.js:436-479 | the "max" comparator is the "min" comparator with its arguments swapped |
| Rules.CompareAntisymmetric | js/script.js:436-479 | swapping the arguments negates the comparator's result |
| Rules.CompareReflexive | js/script.js:436-479 | a record compares 0 with itself |
| Rules.CompareTransitive | js/script.js:436-479 | on numeric, collision-free breakpoints, "compares at most 0" is transitive |
| Rules.CanonicalBreakpointsAreNumeric | js/script.js:455 | canonical decimal breakpoints read as numbers and never collide |
| Rules.InsertSorted | js/script.js:438 | one insertion step adds exactly one record and loses none |
| Rules.InsertSortedKeepsSorted | js/script.js:438 | inserting into a sorted list keeps it sorted |
| Rules.SortRules | js/script.js:436-479 | `arraySort` returns a permutation of the records, sorted under the comparator of the mode |
| Rules.SortedIsPairwise | js/script.js:436-479 | on numeric, collision-free breakpoints, sorted neighbours mean every pair is in order |
| Media.SplitMediaQuery | js/script.js:360-373 | splitting an entry on its comma gives back the condition and the breakpoint |
| Media.Entries | js/script.js:360-362 | one entry `(<type>-width: <bp>px),<bp>` per record, in record order |
| Media.Dedup | js/script.js:363-365 | the filter keeps every entry once: no duplicates, the same entries as the input, in first-occurrence order |
| Media.Group | js/script.js:376-378 | the listener holds exactly the positions of the records with that breakpoint string, ascending |
| Media.MediaQueriesShape | js/script.js:360-365 | every entry of `mediaQueries` is some record's entry |
| Media.GroupsPartition | js/script.js:360-378 | every record is in the listener of exactly one entry, the one for its breakpoint |
| Media.GroupInPlaceOrder | js/script.js:376-378 | after sorting, a listener lists its records in place order: ascending for "min", descending for "max" |
| Startup.Record | js/script.js:344-353 | the record of a node names that node and its parent, and has a comma-free breakpoint |
| Startup.Records | js/script.js:343-355 | one record per node, in document order |
| Startup.RecordsWellFormed | js/script.js:343-355 | the records of distinct nodes are wired to the document and relocate distinct elements |
| Startup.PermutationKeepsDistinct | js/script.js:357 | reordering records keeps their elements distinct |
| Startup.SortedRecords | js/script.js:343-357 | the sorted records are a sorted permutation of the collected ones, wired to the document |
| Startup.SortedRecordsReady | js/script.js:350-357 | with every matching node's selector resolvable, every sorted record whose query matches has a destination |
| Startup.Listeners | js/script.js:369-378 | one listener per entry, each of record positions in range |
| Startup.ListenerAt | js/script.js:370-378 | listener `q` is the group of the breakpoint after the comma of entry `q`, and its match is the viewport's verdict on the condition before the comma |
| Startup.Matches | js/script.js:372 | one `matches` per entry |
| Startup.ListenerCondition | js/script.js:370-378 | a listener's records have the entry's breakpoint, and its match is the viewport's verdict on their condition |
| Startup.ListenersOk | js/script.js:369-383 | every listener is in range, and the records of every matching listener have destinations |
| Startup.ListenersSeparate | js/script.js:369-383 | different listeners hold different, unmarked elements |
| Startup.Run | js/script.js:369-383 | the first handler calls keep the document well formed and change records only in their indices |
| Startup.RunStep | js/script.js:369-383 | one more listener's handler runs on the page the earlier ones left |
| Startup.ListenStep | js/script.js:369-383 | turn `q` filters listener `q` from the current records, and its handler call extends the run by one listener |
| Startup.GroupSameRules | js/script.js:376-378 | filtering by breakpoint ignores the recorded indices, so the listener of turn `q` does not depend on earlier turns |
| Startup.MatchedIff | js/script.js:369-383 | an element is matched exactly when some matching listener holds a record of it |
| Startup.RunMarks | js/script.js:369-383 | the first round of handlers marks exactly the elements of the matching listeners |
| Startup.MatchedIsMatching | js/script.js:369-383 | the matching listeners hold exactly the elements whose breakpoint condition matches the viewport |
| Startup.StartupMarksMatching | js/script.js:369-383 | after the first round, the marked elements are those marked before plus exactly the elements whose condition matches |
| Startup.PermutationKeepsInitOk | js/script.js:357 | sorting keeps everything the listener loop relies on |
| Startup.PermutationKeepsMatching | js/script.js:357 | sorting keeps the set of matching elements |
| Startup.RecordsMatching | js/script.js:343-355 | the matching elements of the records are the nodes whose directive's condition matches |
| Startup.RunPlaced | js/script.js:369-383 | the first round of handlers keeps the relocation state |
| Startup.RecordsPlaced | js/script.js:343-357 | records of distinct, unmarked nodes that sit in their parents are wired and in the relocation state, in any order |
| Startup.InitPlaced | js/script.js:334-383 | after `init` on distinct, unmarked nodes that sit in their parents, every marked element sits in its destination and every other one in its parent |
| Startup.InitMarks | js/script.js:334-383 | after `init` on unmarked nodes, the marked elements are exactly the nodes whose breakpoint condition matches the viewport |
| Engine.TurnStep | js/script.js:369-383 | one turn of the listener loop, on values: the listener is its breakpoint's group of the current records, and the run grows by its handler call |
| Engine.DynamicAdapt.constructor | js/script.js:330-332 | a new engine has its mode and nothing else |
| Engine.DynamicAdapt.MoveTo | js/script.js:404-415 | `moveTo` marks the element and moves it as `Adapt.MovedTo` says |
| Engine.DynamicAdapt.MoveBack | js/script.js:418-425 | `moveBack` unmarks the element and moves it as `Adapt.MovedBack` says |
| Engine.DynamicAdapt.Activate1 | js/script.js:389-391 | one turn of the "matches" loop is `Adapt.ActivateOne` |
| Engine.DynamicAdapt.Deactivate1 | js/script.js:395-398 | one turn of the "does not match" loop is `Adapt.DeactivateOne` |
| Engine.DynamicAdapt.ActivateAll | js/script.js:387-392 | the "matches" loop is `Adapt.Activate` |
| Engine.DynamicAdapt.DeactivateAll | js/script.js:393-399 | the "does not match" loop, in the corrected reverse order, is `Adapt.Deactivate` |
| Engine.DynamicAdapt.MediaHandler | js/script.js:386-401 | `mediaHandler`, with the corrected "does not match" order, is `Adapt.Handle` |
| Engine.DynamicAdapt.Collect | js/script.js:343-355 | the first loop of `init` records the nodes and their records in document order |
| Engine.DynamicAdapt.ArraySort | js/script.js:436-479 | `arraySort` replaces the records by `Rules.SortRules` of them |
| Engine.DynamicAdapt.Prepare | js/script.js:337-357 | collecting and then sorting gives `Startup.SortedRecords` |
| Engine.DynamicAdapt.Register | js/script.js:370-382 | one turn of the listener loop filters the group of the entry's breakpoint and calls the handler with the entry's match |
| Engine.DynamicAdapt.Turn | js/script.js:369-383 | one turn records the listener and extends the run by its handler call |
| Engine.DynamicAdapt.Listen | js/script.js:369-383 | the listener loop records every listener and leaves the page as `Startup.Run` says |
| Engine.DynamicAdapt.Subscribe | js/script.js:359-383 | `mediaQueries` is the deduplicated entry list, the listeners are `Startup.Listeners`, and the page is the run of their first calls |
| Engine.DynamicAdapt.Init | js/script.js:334-383 | `init` leaves the sorted records, the entries, the listeners (each in range of the records) and the page after the first round of handlers; on distinct, unmarked nodes that page is in the relocation state |
| Engine.DynamicAdapt.OnChange | js/script.js:379-381 | a later change of a query calls its handler (corrected order) with the records bound at start-up, keeps the listeners in range and keeps the relocation state |
| FocusVisible.ToLower | js/script.js:241 | lower-casing keeps the length, maps every ASCII letter 'A' to 'Z' to its lower-case letter and keeps every other character |
| FocusVisible.AddFocusVisibleClass | js/script.js:86-92 | after adding, the element has the class; if it had it, nothing changes; otherwise the attribute is set too; no other element changes |
| FocusVisible.RemoveFocusVisibleClass | js/script.js:99-105 | after removing, the attribute is gone; without it nothing changes; with it the class is gone too; no other element changes |
| FocusVisible.AddIdempotent | js/script.js:86-92 | adding twice is adding once |
| FocusVisible.AddThenRemove | js/script.js:86-105 | adding then removing restores an element that had neither class nor attribute |
| FocusVisible.StepConsistent | js/script.js:86-247 | every handler keeps the attribute only on elements that have the class |
| FocusVisible.RunConsistent | js/script.js:86-247 | any sequence of events keeps the attribute only on elements that have the class |
| FocusVisible.StepKeepsAuthorClass | js/script.js:86-105 | no handler removes or tags a class the author wrote |
| FocusVisible.RunKeepsAuthorClass | js/script.js:86-105 | whatever events arrive, an author's `focus-visible` class stays, without the attribute |
| FocusVisible.PlainKeyDown | js/script.js:115-125 | a key press without meta, alt or control sets keyboard modality and gives a valid active element the class |
| FocusVisible.ModifiedKeyDown | js/script.js:116-118 | a key press with meta, alt or control changes nothing |
| FocusVisible.PointerLeavesKeyboard | js/script.js:135-137 | a pointer press clears keyboard modality and nothing else |
| FocusVisible.FocusRule | js/script.js:146-155 | a target without the class gets it exactly when it is a valid focus target (`isValidFocusTarget`) and either the modality is the keyboard or the element is an editable text input of an allowlisted type, a textarea or content-editable (`focusTriggersKeyboardModality`); the flags and every other element are unchanged |
| FocusVisible.BlurRule | js/script.js:161-181 | blur on a valid target leaves no attribute; the class stays only if the author wrote it; `hadFocusVisibleRecently` records that the target had the class |
| FocusVisible.FocusThenBlur | js/script.js:146-181 | focus then blur of an element without class or attribute leaves it so |
| FocusVisible.TabSwitchRestoresKeyboard | js/script.js:161-199 | blur of a polyfill-marked element followed by hiding the tab restores keyboard modality, so the refocus shows the class |
| FocusVisible.KeyboardPersists | js/script.js:115-247 | keyboard modality lasts until a pointer event |
| FocusVisible.PointerPersists | js/script.js:115-247 | pointer modality lasts until a plain key press or the tab being hidden |
| FocusVisible.HtmlPointerMoveIgnored | js/script.js:238-242 | a pointer move over `<html>` changes nothing |
| FocusVisible.FirstPointerMove | js/script.js:238-247 | the first pointer move elsewhere clears keyboard modality and removes the listeners, so a second one changes nothing |
| FocusVisible.Polyfill.constructor | js/script.js:15-18 | the polyfill starts in keyboard modality, with nothing recent and the initial pointer listeners installed |
| FocusVisible.Polyfill.AddClass | js/script.js:86-92 | `addFocusVisibleClass` on the element map |
| FocusVisible.Polyfill.RemoveClass | js/script.js:99-105 | `removeFocusVisibleClass` on the element map |
| FocusVisible.Polyfill.OnKeyDown | js/script.js:115-125 | the handler's new state is `Step` of the key event |
| FocusVisible.Polyfill.OnPointerDown | js/script.js:135-137 | the handler's new state is `Step` of the pointer event |
| FocusVisible.Polyfill.OnFocus | js/script.js:146-155 | the handler's new state is `Step` of the focus event |
| FocusVisible.Polyfill.OnBlur | js/script.js:161-181 | the handler's new state is `Step` of the blur event |
| FocusVisible.Polyfill.OnVisibilityChange | js/script.js:188-199 | the handler's new state is `Step` of the visibility change |
| FocusVisible.Polyfill.OnInitialPointerMove | js/script.js:238-247 | the handler's new state is `Step` of the pointer move |
| FocusVisible.Polyfill.OnTimeout | js/script.js:176-178 | the timer callback clears `hadFocusVisibleRecently` |

## Left out

- Swiper construction and `changeArrows` (js/script.js:483-533): they configure a third-party library that is not part of this model.
- `window.matchMedia` and `addListener`: a query's `matches` is a boolean input, and the viewport is a predicate on condition strings. Registering the listener is modelled as recording its group in `listeners`. A later firing is `Engine.DynamicAdapt.OnChange`.
- `document.querySelector` and `querySelectorAll`: selectors are a map from selector text to element, `nodes` is a given sequence, and `parentNode` is a map from node to parent.
- Engine.DynamicAdapt.Init requires a destination for every record whose query matches, because the code throws on a null destination (js/script.js:406-407).
- Startup.Resolve treats a selector as a key that finds an element or `null`. `document.querySelector` throws on an empty or invalid selector (js/script.js:350), so a directive such as ",767" aborts `init`; the model gives that record no destination instead.
- Directive.ParsePlace accepts only "first", "last" and canonical decimal numerals. Other place texts, such as "02" or "foo", fall under JavaScript coercions that are not modelled: `"foo" >= n`, `children["02"]` and `"a" - "b"`.
- Text.NumberValue reads only plain decimal digit strings. Signs, decimals, exponents and white space inside a breakpoint are not modelled.
- Rules.SortRules is a stable insertion sort. `Array.prototype.sort` need not be stable before ES2019, and on colliding numeric breakpoints its comparator is not a total order. Only the comparator's properties are proved for arbitrary strings.
- Text nodes are not modelled. Child lists are element children only, and `insertAdjacentElement`'s hierarchy checks are not modelled.
- Engine.DynamicAdapt.DeactivateAll moves elements back in reverse listener order, not in the code's order (see Findings). The code's order is `Adapt.DeactivateAsWritten`.
- Adapt.Handle runs the "does not match" branch in reverse listener order, not in the code's forward order (js/script.js:394-399). The code's order is `Adapt.HandleAsWritten`, which keeps the same relocation state (`Adapt.HandleAsWrittenPlaced`).
- Engine.DynamicAdapt.MediaHandler is `Adapt.Handle`, so it moves elements back in the corrected order, not the code's.
- Engine.DynamicAdapt.OnChange calls `MediaHandler`, so a later firing also moves elements back in the corrected order.
- Text.Trim: its own contract states the trimmed ends, the length bound and that no new character appears. That the result is the input minus its leading and trailing white space is the separate lemma `Text.TrimStrips`, so that the directive lemmas, which trim several strings each, do not carry that quantified fact.
- Adapt.MoveRoundTrip, Adapt.MoveRoundTripList and Adapt.GroupRoundTrip require each destination to differ from its parent. When they coincide the code does not round-trip: `moveBack` reinserts at an index taken before the element was moved within the same list (`AdaptExample.SameParentNoRoundTrip`).
- Event-listener installation and removal for the polyfill, `CustomEvent` dispatch, shadow roots, and the `js-focus-visible` tagging of the root element (js/script.js:207-229, 252-305): these are browser plumbing. Whether the initial pointer listeners are installed is kept as a flag.
- The 100 ms timer of `onBlur`: its expiry is the event `FocusVisibleTimeout`. Because `clearTimeout` cancels any earlier timer, only the latest one can fire.
- One DOM event reaching several polyfill listeners (a mousedown reaches both `onPointerDown` and `onInitialPointerMove`) is modelled as separate events in the trace.
- FocusVisible.ToLower lowercases only ASCII letters, which covers the `nodeName` comparison with "html".
- The UMD wrapper and the empty polyfill-service block (js/script.js:1-5, 315-327) contain no logic.

## Findings

| source | as written | input that shows it | evidently intended | confidence | as-written member | corrected member |
|---|---|---|---|---|---|---|
| js/script.js:393-399 | moving elements back walks the listener's records in the same order as moving them out | parent 1 has children 10, 11, 12; destination 2 is empty; 10 and 11 both have breakpoint "767" and place "last". A match followed by a non-match leaves parent 1 with 11, 10, 12 | moving back restores the parent's children exactly: walk the records in reverse, last moved out first moved back | high; proved, not executed | AdaptExample.AsWrittenReordersSiblings | Adapt.GroupRoundTrip |
