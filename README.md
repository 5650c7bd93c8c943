# Speed Tracer request details panel and event-record colours

This project models two pieces of Speed Tracer's visualisation layer and proves properties about them.

**RequestDetails** is the collapsible panel that shows the details of one captured network request. The model covers:
- its lifecycle: the panel is lazily populated, toggled open and closed, updated and refreshed;
- the collapse-transition callback;
- the content that a populate builds. That content is the hint-tree wrapper followed by three sections. Summary has nine rows; Request Headers and Response Headers each have a striped name/value table.

The DOM is abstract. The content element is the ordered list of blocks appended to it. The element's `display` style, its height style and the pillbox's style class are enums. Counters record how many populates have run and how many hint trees have been built. `TimeStampFormatter.formatMilliseconds` is a function parameter `formatMs: real -> string`. The panel holds it as a constant. Timestamps (Java `double`) are `real`.

**EventRecordColors** is the table from event-record type code to chart colour. The model builds it from the fourteen puts of the static initialiser, in order, by `PutAll`. `GetColorForType` is the lookup that falls back to light grey. The `TYPE` codes are defined outside this part of the program, so they are parameters (`TypeCodes`). They may coincide. When they do, a later put replaces an earlier one, as the map does. `GetColorForType` is a function over a table fixed at initialisation, so it answers the same for the same code at every call.

Files:
- `options.dfy`: `Option`, for Java's null.
- `java_strings.dfy`: Java's `int + ""` and `boolean + ""`, with their inverses.
- `request_details.dfy`: the panel.
- `event_record_colors.dfy`: the colour table.

Row striping: the first `next()` of an `OddEvenIterator` returns false, so row 0 (counting from 0) has no even-row class and the odd rows have it.

The panel's height is abstract: `HeightFitted` is the height fitted to the content at the last opening or tree expansion.

## Model

| member | source | states |
|---|---|---|
| `RequestDetails.OddEvenIterator.constructor` | branches/breaky/src/client/ui/src/com/google/speedtracer/client/visualizations/view/RequestDetails.java:79-80 | a fresh iterator starts in the "even" state |
| `RequestDetails.OddEvenIterator.Next` | branches/breaky/src/client/ui/src/com/google/speedtracer/client/visualizations/view/RequestDetails.java:82-84 | each call flips the state and returns the new state, so a fresh iterator answers false, true, false, … |
| `RequestDetails.FillHeaderTable` | branches/breaky/src/client/ui/src/com/google/speedtracer/client/visualizations/view/RequestDetails.java:124-135 | a null header collection gives no rows; otherwise one row per header in order, with the header's key and value, and row i has the even-row class iff i is odd (its own iterator) |
| `RequestDetails.HeaderTableUnique` | branches/breaky/src/client/ui/src/com/google/speedtracer/client/visualizations/view/RequestDetails.java:124-135 | a header table is determined by its headers alone |
| `RequestDetails.NetworkResource.constructor` | branches/breaky/src/client/ui/src/com/google/speedtracer/client/visualizations/view/RequestDetails.java:155 | the resource a panel shows: a fixed request, and hint records that may still be null |
| `RequestDetails.FormatTimeSpan` | branches/breaky/src/client/ui/src/com/google/speedtracer/client/visualizations/view/RequestDetails.java:144-147 | a span starts with '@' and is six characters longer than the formatted start and duration together |
| `RequestDetails.FormatTimeSpanParts` | branches/breaky/src/client/ui/src/com/google/speedtracer/client/visualizations/view/RequestDetails.java:144-147 | cut at the lengths of its parts, a span gives back the formatted start, then " for ", then the formatted duration end − start |
| `RequestDetails.SummaryTimings` | branches/breaky/src/client/ui/src/com/google/speedtracer/client/visualizations/view/RequestDetails.java:303-316 | the response timing is "No response" exactly when the request failed, and then the total is the request timing followed by " with an error" |
| `RequestDetails.FailedRequestTimings` | branches/breaky/src/client/ui/src/com/google/speedtracer/client/visualizations/view/RequestDetails.java:305-309 | a failed request: request timing = span(start, end), response timing = "No response", total = request timing + " with an error" |
| `RequestDetails.CompletedRequestTimings` | branches/breaky/src/client/ui/src/com/google/speedtracer/client/visualizations/view/RequestDetails.java:310-316 | otherwise: span(start, response), span(response, end), span(start, end) |
| `RequestDetails.TimingsStartAtRequestStart` | branches/breaky/src/client/ui/src/com/google/speedtracer/client/visualizations/view/RequestDetails.java:303-316 | in both cases the request timing starts "@start for ", the total begins with span(start, end), and the response timing is "No response" or span(response, end) |
| `RequestDetails.FailedTimingExample` | branches/breaky/src/client/ui/src/com/google/speedtracer/client/visualizations/view/RequestDetails.java:305-309 | failed request 10 → 50 ms: "@10ms for 40ms", "No response", "@10ms for 40ms with an error" |
| `RequestDetails.CompletedTimingExample` | branches/breaky/src/client/ui/src/com/google/speedtracer/client/visualizations/view/RequestDetails.java:310-316 | request 0 → 20 → 50 ms: "@0ms for 20ms", "@20ms for 30ms", "@0ms for 50ms" |
| `RequestDetails.ContentLengthString` | branches/breaky/src/client/ui/src/com/google/speedtracer/client/visualizations/view/RequestDetails.java:344-347 | empty exactly when the length is negative; otherwise a canonical decimal that reads back as the length, followed by " bytes" |
| `RequestDetails.FillSummaryTable` | branches/breaky/src/client/ui/src/com/google/speedtracer/client/visualizations/view/RequestDetails.java:291-324 | exactly nine rows titled URL, From Cache, Method, Http Status, Mime-type, Total Bytes, Request Timing, Response Timing, Total Timing, with the request's values and timing strings, striped by their own iterator |
| `RequestDetails.SummaryStatusReadsBack` | branches/breaky/src/client/ui/src/com/google/speedtracer/client/visualizations/view/RequestDetails.java:299-300 | the Http Status cell parses back to the status code |
| `RequestDetails.BuildContent` | branches/breaky/src/client/ui/src/com/google/speedtracer/client/visualizations/view/RequestDetails.java:361-380 | content is the tree wrapper, then the Summary header and table, the Request Headers header and table, and the Response Headers header and table |
| `RequestDetails.PopulatedSectionOrder` | branches/breaky/src/client/ui/src/com/google/speedtracer/client/visualizations/view/RequestDetails.java:368-380 | populated content has exactly the section headers Summary, Request Headers, Response Headers, in that order |
| `RequestDetails.PopulatedUnique` | branches/breaky/src/client/ui/src/com/google/speedtracer/client/visualizations/view/RequestDetails.java:354-381 | populated content is determined by the request and the wrapper, so repopulating from the same request rebuilds the same content |
| `RequestDetails.RequestDetails.constructor` | branches/breaky/src/client/ui/src/com/google/speedtracer/client/visualizations/view/RequestDetails.java:182-191 | stores the resource; the panel starts closed, with no content, wrapper or tree |
| `RequestDetails.RequestDetails.Refresh` | branches/breaky/src/client/ui/src/com/google/speedtracer/client/visualizations/view/RequestDetails.java:193-203 | without a wrapper or with null hint records, nothing changes; otherwise it creates the tree if there is none, and only then, or else refreshes the existing tree with the current records; nothing but the tree and the tree count changes |
| `RequestDetails.RequestDetails.ToggleVisibility` | branches/breaky/src/client/ui/src/com/google/speedtracer/client/visualizations/view/RequestDetails.java:210-230 | flips `isVisible` and returns the new value; closing only sets the height to 0; opening displays the element, fits its height and selects the pillbox; the content is created and populated on the first opening only |
| `RequestDetails.RequestDetails.Open` | branches/breaky/src/client/ui/src/com/google/speedtracer/client/visualizations/view/RequestDetails.java:214-228 | the opening branch: on the first opening only, builds the content with wrapper 1 and a tree exactly when there are hint records; then display block, fitted height, selected pillbox, open |
| `RequestDetails.RequestDetails.UpdateInfo` | branches/breaky/src/client/ui/src/com/google/speedtracer/client/visualizations/view/RequestDetails.java:238-241 | requires existing content; replaces the resource and repopulates from it whether the panel is open or closed, leaving the visibility state alone; one more tree is built exactly when the new hint records are non-null; the tree is the new one or none, which follows the corrected populate (lines 361-366 as written keep the old tree) |
| `RequestDetails.RequestDetails.UpdateInfoAsWritten` | branches/breaky/src/client/ui/src/com/google/speedtracer/client/visualizations/view/RequestDetails.java:238-241 | the same update over the populate as written: with null hint records the previous tree is kept |
| `RequestDetails.RequestDetails.OnTransitionEnd` | branches/breaky/src/client/ui/src/com/google/speedtracer/client/visualizations/view/RequestDetails.java:249-254 | only when the panel is still closed: display none and the default pillbox style; otherwise nothing changes |
| `RequestDetails.RequestDetails.CreateHintletTree` | branches/breaky/src/client/ui/src/com/google/speedtracer/client/visualizations/view/RequestDetails.java:270-283 | builds one new tree in the current wrapper from the current hint records |
| `RequestDetails.RequestDetails.PopulateContent` | branches/breaky/src/client/ui/src/com/google/speedtracer/client/visualizations/view/RequestDetails.java:354-381 | a new wrapper and freshly built content; a tree in the new wrapper exactly when the hint records are non-null (corrected: none otherwise); keeps every tree in the current wrapper |
| `RequestDetails.RequestDetails.PopulateContentAsWritten` | branches/breaky/src/client/ui/src/com/google/speedtracer/client/visualizations/view/RequestDetails.java:354-381 | as the code is written: same content, but with null hint records the previous tree is kept |
| `RequestDetails.OpenCloseOpen` | branches/breaky/src/client/ui/src/com/google/speedtracer/client/visualizations/view/RequestDetails.java:210-230 | three toggles of a new panel answer true, false, true, with one populate, and one tree exactly when there are hint records |
| `RequestDetails.ReopenBeforeTransitionEnd` | branches/breaky/src/client/ui/src/com/google/speedtracer/client/visualizations/view/RequestDetails.java:249-254 | a panel reopened before the collapse transition ends stays displayed and selected |
| `RequestDetails.CloseThenTransitionEnd` | branches/breaky/src/client/ui/src/com/google/speedtracer/client/visualizations/view/RequestDetails.java:249-254 | a closed panel is hidden and its pillbox deselected once the transition ends |
| `RequestDetails.StaleHintTreeAsWritten` | branches/breaky/src/client/ui/src/com/google/speedtracer/client/visualizations/view/RequestDetails.java:361-366 | with the code as written, hints that arrive after an update to a resource without hints are not shown |
| `RequestDetails.HintTreeAfterUpdate` | branches/breaky/src/client/ui/src/com/google/speedtracer/client/visualizations/view/RequestDetails.java:193-203 | with the corrected populate, the same sequence shows the new hints |
| `JavaStrings.NatToString` | branches/breaky/src/client/ui/src/com/google/speedtracer/client/visualizations/view/RequestDetails.java:346 | the decimal of a non-negative int is canonical and reads back as the number |
| `JavaStrings.IntToString` | branches/breaky/src/client/ui/src/com/google/speedtracer/client/visualizations/view/RequestDetails.java:299-300 | `int + ""` reads back as the int, with a minus sign iff it is negative |
| `JavaStrings.IntToStringInjective` | branches/breaky/src/client/ui/src/com/google/speedtracer/client/visualizations/view/RequestDetails.java:299-300 | distinct status codes print differently |
| `JavaStrings.BoolToString` | branches/breaky/src/client/ui/src/com/google/speedtracer/client/visualizations/view/RequestDetails.java:296-297 | `boolean + ""` is "true" exactly for true and "false" otherwise |
| `EventRecordColors.PutAll` | tags/v0.6/src/client/ui/src/com/google/speedtracer/client/visualizations/view/EventRecordColors.java:44-59 | after a run of puts the keys are the previous keys plus every code put |
| `EventRecordColors.ColorMap` | tags/v0.6/src/client/ui/src/com/google/speedtracer/client/visualizations/view/EventRecordColors.java:41-59 | the initialised table has exactly the fourteen registered codes as keys |
| `EventRecordColors.PutAllSnoc` | tags/v0.6/src/client/ui/src/com/google/speedtracer/client/visualizations/view/EventRecordColors.java:44-59 | one more put at the end of the run overwrites that one code and leaves the rest |
| `EventRecordColors.PutAllMatchesLastPut` | tags/v0.6/src/client/ui/src/com/google/speedtracer/client/visualizations/view/EventRecordColors.java:44-59 | the table after the puts agrees, code by code, with the last put of that code, or with the previous table when no put mentions it |
| `EventRecordColors.GetColorForType` | tags/v0.6/src/client/ui/src/com/google/speedtracer/client/visualizations/view/EventRecordColors.java:61-67 | the colour of the last put of the code, or LIGHTGREY when no put mentions it |
| `EventRecordColors.PutAllUntouched` | tags/v0.6/src/client/ui/src/com/google/speedtracer/client/visualizations/view/EventRecordColors.java:44-59 | a code that no put mentions keeps its previous presence and colour |
| `EventRecordColors.PutAllLastWins` | tags/v0.6/src/client/ui/src/com/google/speedtracer/client/visualizations/view/EventRecordColors.java:44-59 | the last put of a code decides its stored colour |
| `EventRecordColors.PutAllKeys` | tags/v0.6/src/client/ui/src/com/google/speedtracer/client/visualizations/view/EventRecordColors.java:44-59 | every key of the table was put by a registration |
| `EventRecordColors.ColorForRegisteredType` | tags/v0.6/src/client/ui/src/com/google/speedtracer/client/visualizations/view/EventRecordColors.java:61-64 | a registered code, unless a later put reuses it, gets exactly its registered colour |
| `EventRecordColors.ColorForUnregisteredType` | tags/v0.6/src/client/ui/src/com/google/speedtracer/client/visualizations/view/EventRecordColors.java:61-67 | every code no put mentions gets LIGHTGREY |
| `EventRecordColors.ColorForTypeIsRegisteredOrFallback` | tags/v0.6/src/client/ui/src/com/google/speedtracer/client/visualizations/view/EventRecordColors.java:61-67 | every code gets a colour (the lookup is total), and that colour is LIGHTGREY or the colour of one of its registrations |
| `EventRecordColors.DomEventIsOrange` | tags/v0.6/src/client/ui/src/com/google/speedtracer/client/visualizations/view/EventRecordColors.java:45 | `DomEvent.TYPE` maps to ORANGE unless a later put reuses its code |
| `EventRecordColors.TimerFiredEventIsBlue` | tags/v0.6/src/client/ui/src/com/google/speedtracer/client/visualizations/view/EventRecordColors.java:53 | `TimerFiredEvent.TYPE` maps to BLUE unless a later put reuses its code |
| `EventRecordColors.GarbageCollectEventIsBrown` | tags/v0.6/src/client/ui/src/com/google/speedtracer/client/visualizations/view/EventRecordColors.java:57 | `GarbageCollectEvent.TYPE` maps to BROWN unless `MouseHoverStyleEvent.TYPE` equals it |

## Left out

- DOM construction and CSS class names are not modelled: `createElement`, `addSectionHeader`, `createTable`, `addRowPair`'s cells, `setInnerHTML`. Only the blocks and rows they produce are modelled.
- The element's own lazy creation (`getElement` calling `createElement`) and its attachment to the parent are left out. The model assumes the element exists once it is used.
- `fixHeightOfParentRow` reads the browser's layout height. It is the abstract state `HeightFitted`.
- The expansion-change listener (RequestDetails.java:275-279) re-runs `fixHeightOfParentRow` and is not modelled. On an open panel this leaves `HeightFitted` unchanged. After closing, the element stays displayed until the collapse transition ends, so a tree expansion during the collapse would set a closed panel's height back to its content height. The model does not capture this: a closed panel keeps `HeightZero` until it is opened again.
- The constructor (RequestDetails.java:182-191) does not touch the pillbox's class or the element's style. The model assumes the pillbox starts with its default class (`PillBoxWrapper`) and the element with no display or height style (`DisplayUnset`, `HeightUnset`).
- `RequestDetails.RequestDetails.UpdateInfo`: line 356 dereferences `contentElem`, so an update before the first opening throws a null-pointer exception. The model requires existing content instead of modelling the exception. The same holds for `UpdateInfoAsWritten`.
- `RequestDetails.RequestDetails.Refresh`: neither `updateInfo` nor `refresh` re-runs `fixHeightOfParentRow`, so new content or a new tree can outgrow the fitted height of an open panel. This may be an issue in the source (not executed). The model keeps `HeightFitted` unchanged there and does not measure content.
- Event plumbing is left out: the click listener that cancels bubbling, the registration of listeners and the disposers of `ManagesEventListeners`. The transition-end callback is the method `OnTransitionEnd`.
- `HintletRecordsTree` is not part of this model. A tree is the wrapper it was built into plus the records it shows. Its `refresh(records)` is modelled as "now shows these records".
- `TimeStampFormatter.formatMilliseconds` is not part of this model. It is the parameter `formatMs`. The `double` timestamps are `real`, so their rounding is not modelled.
- The values of the `*.TYPE` constants, the `Color` class and `JsIntegerMap` are not part of this model. The codes are parameters, the colours are an enum, and the map is a Dafny `map` built by successive puts.
- `NetworkResource`'s getters are fields of a `Request` value. Only the hint records can change, because the hint engine attaches them later.
- `JavaStrings.IntToString`: Java's `int` is 32-bit. The model prints any integer, which agrees with Java on every 32-bit value. No arithmetic is done, so wrap-around never arises.

## Findings

| source | as written | input that shows it | evidently intended | confidence | as-written member | corrected member |
|---|---|---|---|---|---|---|
| branches/breaky/src/client/ui/src/com/google/speedtracer/client/visualizations/view/RequestDetails.java:361-366 | `populateContent` replaces `hintletTreeWrapper` but sets `hintletTree` only when hint records are non-null; otherwise the old tree, whose wrapper was just cleared away, is kept | open the panel on a resource with hint records; `updateInfo` with a resource whose hint records are null; hint records are later attached to it; `refresh()` refreshes the old, detached tree and the new wrapper stays empty | the tree is discarded with the old content, so that `refresh()` builds a new one in the current wrapper | medium, not executed | `RequestDetails.StaleHintTreeAsWritten` | `RequestDetails.RequestDetails.PopulateContent` |
