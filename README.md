# ChatGPT-TOC content script, modelled in Dafny

ChatGPT-TOC is a browser extension. Its content script (`content.js`) keeps a sidebar on a
ChatGPT conversation page. The sidebar holds an outline of the user's own messages.

The script works in a few steps:

- It scans the page with four user-message selectors. It keeps each element once, in
  first-seen order, and keeps only elements with a non-empty bounding box.
- It tags each scanned element with a `data-cgpt-anchor` attribute the first time it sees
  it. An element without an id also gets one.
- It turns each message into a one-line label of at most 80 characters. An empty label
  falls back to a numbered placeholder.
- It renders the count and one numbered row per message.
- It rebuilds the outline:
  - when a mutation batch adds nodes, debounced through one animation-frame slot;
  - on a 1.5 s poll;
  - on a URL change, which triggers a reboot;
  - from the refresh button.
  
  Unless forced, a rebuild is skipped when the scan's count equals the last rendered count.
- A click on a row scrolls to the message's element by id. If that fails and the item has
  a message id, the script starts a search by message id. The search stops when the target
  is found, or with an alert when its deadline passes. With neither an element nor a
  message id, the click alerts.
- The outline can be exported as Markdown.

The project has one module per concern:

| module | file | what it holds |
|---|---|---|
| `Wrappers` | wrappers.dfy | `Option` |
| `Text` | text.dfy | decimal rendering of numbers, JavaScript `trim`, whitespace collapsing (as written and as intended) |
| `Labels` | labels.dfy | the label of a message: one line, truncation, placeholder |
| `Dom` | dom.dfy | the page: a `Page` class with element records, document order, selector results, visibility; `getElementById`, the message-id query |
| `Scanner` | scanner.dfy | `queryUserMessages`: the insertion-ordered set and the visibility filter |
| `Tagger` | tagger.dfy | `normalizeItem` and the tagging it does in place |
| `Render` | render.dfy | `buildList` as strings: the count label and the rows |
| `Export` | export.dfy | the Markdown text of `exportMarkdown` |
| `Locate` | locate.dfy | the click handler and `autoScrollToMessageId` as a `Locator` class over a state machine |
| `Engine` | engine.dfy | the script's state (`lastCount`, timers, observers, the frame slot) as an `Engine` class with one method per callback |

The page is a `Page` object whose element records are a map that tagging updates in place.
The script's module-level variables are fields of the `Engine` class. Timers, observers and
animation frames are not simulated in time. Each callback is a method that the environment
calls. A cleared interval or a cancelled frame is one whose callback is never called again.
Live counts show that clearing a slot before refilling it keeps at most one of each running.

## Model

| member | source | states |
|---|---|---|
| Text.Decimal | content.js:95 | the number in a template literal is a non-empty digit string, with a leading zero only for 0 |
| Text.DecimalRoundTrip | content.js:95 | reading the digits back gives the number |
| Text.DecimalInjective | content.js:66-67 | distinct numbers render as distinct strings |
| Text.Trim | content.js:70 | `trim` is empty exactly for all-whitespace input, never longer, and neither end is whitespace |
| Text.TrimSplit | content.js:70 | the trimmed text is the contiguous middle; everything cut before and after it is whitespace |
| Text.TrimKeepsText | content.js:70 | trimming removes whitespace only; the other characters stay, in order |
| Text.TrimAroundSpace | content.js:70 | trimming two words joined by one space trims only the outer ends and keeps the space |
| Text.CollapseSpaces | content.js:70 | collapsing runs of `\s` never lengthens, is empty only for empty input, and keeps whether the text starts with whitespace (what happens between words is stated by `CollapseSpacesSeparatesWords`) |
| Text.CollapseSpacesShape | content.js:70 | after collapsing, the only whitespace is the space, and no two whitespace characters are adjacent |
| Text.CollapseSpacesKeepsText | content.js:70 | collapsing keeps every non-whitespace character, in order |
| Text.CollapseSpacesAppend | content.js:70 | text ending in a word collapses independently of what follows it |
| Text.CollapseSpacesRun | content.js:70 | a run of whitespace followed by a word or by nothing collapses to a single space |
| Text.CollapseSpacesSeparatesWords | content.js:70 | any run of whitespace between two words becomes exactly one space, and both sides collapse as they would alone |
| Text.CollapseSpacesJoinsLines | content.js:70 | two words on two lines become two words separated by one space |
| Text.ReplaceBackslashS | content.js:70 | the pattern as written never lengthens the text and leaves text without a backslash unchanged |
| Text.ReplaceBackslashSKeepsLineBreaks | content.js:70 | under the pattern as written, a line break between two words survives |
| Text.ReplaceBackslashSReplacesTypedEscape | content.js:70 | under the pattern as written, a literal backslash followed by `s` between words becomes a space |
| Labels.Truncate | content.js:71 | a line over 80 characters keeps its first 77 plus an ellipsis; shorter lines are unchanged; empty stays empty |
| Labels.Fallback | content.js:75 | the placeholder is the prefix followed by digits that read back as the 1-based position |
| Labels.OneLine | content.js:70 | the collapsed and trimmed text neither starts nor ends with whitespace (the space between words is stated by `OneLineSeparatesWords`) |
| Labels.OneLineKeepsText | content.js:70 | the one-line text keeps all of the message's non-whitespace characters, in order |
| Labels.OneLineSpaces | content.js:70 | the one-line text holds no whitespace but single spaces |
| Labels.OneLineEmpty | content.js:70 | the one-line text is empty exactly when the message is all whitespace |
| Labels.OneLineSeparatesWords | content.js:70 | two words with any run of whitespace between them become one line with exactly one space between them |
| Labels.Label | content.js:69-75 | the label is never empty; it is the placeholder for a blank message, the line itself up to 80 characters, else 77 characters and an ellipsis |
| Labels.LabelSingleLine | content.js:70-75 | no label holds a line feed |
| Dom.Page.GetElementById | content.js:98 | returns the first element in document order with that id, or none; never matches the empty id |
| Dom.Page.FirstHolderFound | content.js:98 | when the first element in document order holds the id, the lookup returns it, whichever later elements hold the same id |
| Dom.Page.QueryMessageId | content.js:171 | returns the first element in document order whose `data-message-id` equals the target exactly, or none |
| Scanner.Dedup | content.js:53-54 | the set keeps exactly the elements it was given, each once |
| Scanner.KeepVisible | content.js:55-58 | the filter keeps exactly the visible elements, never more than it was given |
| Scanner.DedupInFirstSeenOrder | content.js:53-54 | the set's elements come in the order of their first occurrence |
| Scanner.KeepVisibleInFirstSeenOrder | content.js:55-58 | filtering keeps the first-seen order |
| Scanner.KeepVisibleNoDuplicates | content.js:55-58 | filtering introduces no repetition |
| Scanner.Scan | content.js:46-59 | the scan has no repetitions and holds exactly the visible elements that some selector matched |
| Scanner.ScanProperties | content.js:46-59 | the scan has no repetitions; it holds exactly the visible elements some selector matched, in first-seen order across the selectors; it is no longer than all the matches together |
| Scanner.AddMatches | content.js:54 | one selector's `forEach` extends the insertion-ordered set by that selector's new elements |
| Scanner.CollectMatches | content.js:53-54 | the nested loops build the first-occurrence order of all selector results |
| Scanner.QueryUserMessages | content.js:46-59 | the method returns the scan: visible page elements with no repetitions |
| Tagger.AnchorValue | content.js:66 | the anchor value is the prefix followed by digits that read back as the 1-based position |
| Tagger.DefaultId | content.js:67 | the default id is its prefix followed by digits that read back as the 1-based position |
| Tagger.FreshTagsDistinct | content.js:66-67 | different scan positions give different anchor values and different default ids |
| Tagger.Tag | content.js:65-68 | an element with an anchor is untouched; otherwise it gets the anchor for its position and keeps its id, or gets the default id when it has none; its text and message id are unchanged |
| Tagger.TagIdempotent | content.js:65 | an element keeps the tag from its first scan, whatever position it has later |
| Tagger.DefaultIdRepeatsAcrossScans | content.js:65-67 | as written: an element tagged at position 0 by one scan, and an element without an id found at position 0 by a later scan, get the same default id, so both rows carry it |
| Tagger.FreshDefaultId | content.js:67 | corrected: the chosen default id is at the scan position or later, no element holds it, and it is the position's own id whenever that one is free |
| Tagger.TagInDocument | content.js:65-68 | corrected: tags like the code, except that an element without an id gets a default id no element of the document holds |
| Tagger.TagInDocumentAgrees | content.js:67 | where the position's own default id is free, the corrected tagging equals the tagging as written |
| Tagger.RawText | content.js:69 | the text is `innerText` when that is non-empty, else `textContent`; it is empty exactly when both are |
| Tagger.Normalize | content.js:61-76 | the item's label is the label of the element's raw text at its position, non-empty and one line; its id is the id the element has after tagging, non-empty unless the element was already tagged; its message id is the attribute or "" |
| Tagger.TagAll | content.js:133 | tagging the scan element by element changes records only, never the set of elements |
| Tagger.TagAllTagsScan | content.js:133 | after tagging, every scanned element carries an anchor, and no element's text or message id has changed |
| Tagger.NormalizeAll | content.js:133 | the mapping gives one item per scanned element, each label on one line |
| Tagger.TagAllElsewhere | content.js:133 | elements outside the scan keep their records |
| Tagger.TagAllAt | content.js:133 | the k-th scanned element ends up tagged as position k |
| Tagger.NormalizeAllAt | content.js:133 | item k is derived from the k-th scanned element's record as it was before the rebuild |
| Tagger.TagAllIdempotent | content.js:133 | tagging the same scan twice leaves the records as the first pass left them |
| Tagger.NormalizeItems | content.js:133 | the in-place loop tags each scanned element in turn and returns one item per element |
| Render.Rows | content.js:91-95 | one row per item, in order, row k being "k+1. label" |
| Render.RowShape | content.js:95 | a row is decimal digits, a period and a space, then the label; it holds a line feed exactly when the label does |
| Render.CountLabelShape | content.js:85 | the count label is decimal digits between parentheses |
| Render.RowsSingleLine | content.js:119 | rows of one-line labels are one line each |
| Render.BuildList | content.js:78-95 | the view shows the count label and one row per item in order, or "(0)" and the empty state |
| Render.RowRoundTrip | content.js:95 | a row reads back as its position and its label |
| Render.CountRoundTrip | content.js:85 | the count label reads back as the number of items |
| Export.JoinSplitRoundTrip | content.js:120 | lines without line feeds, joined by line feeds, split back into the same lines |
| Export.Join | content.js:120 | joining nothing gives the empty string, and a character in neither the parts nor the separator is not in the result |
| Export.MarkdownAsWritten | content.js:120 | with the escapes as written, rows without line feeds give an export that is a single line |
| Export.Markdown | content.js:120 | with real line breaks, one or more rows without line feeds give the heading, a blank line, then exactly the rows |
| Export.MarkdownAsWrittenIsOneLine | content.js:120 | the export as written is one single line, whatever the number of rows |
| Locate.Dispatch | content.js:96-110 | a click scrolls to the element found by id; failing that, it searches by message id if there is one; otherwise it alerts. The three cases are exhaustive and exclusive |
| Locate.RowJumpsToEarlierNamesake | content.js:96-99 | as written: after those two scans, a click on the later element's row scrolls to the earlier element |
| Locate.Step | content.js:175-201 | every search event keeps the search consistent: found exactly when highlighted, never both found and alerted, observer and interval alive exactly while unresolved |
| Locate.RunConsistent | content.js:168-202 | any sequence of events keeps the search consistent |
| Locate.ResolvedIsFinal | content.js:175-201 | once found or alerted, later events change neither the outcome nor the highlight nor the scroll count |
| Locate.DeadlineResolves | content.js:195-201 | after the deadline fires, the search has either highlighted or alerted, never both, and nothing is left running |
| Locate.DeadlinePassedStays | content.js:195-201 | the deadline fires at most once |
| Locate.NoHitTimesOut | content.js:175-201 | with no mutation notification that finds the target, the deadline ends in the alert |
| Locate.FoundAfterTwoSteps | content.js:175-193 | a target appearing after two scroll steps is highlighted and the later deadline does not alert |
| Locate.Locator.constructor | content.js:173-195 | a new search is unresolved, with its observer, interval and deadline armed |
| Locate.Locator.OnMutation | content.js:175-185 | the observer callback performs the search step for a mutation carrying the re-query's result |
| Locate.Locator.OnScrollTick | content.js:188-193 | the interval callback performs the scroll-tick step |
| Locate.Locator.OnDeadline | content.js:195-201 | the timeout callback performs the deadline step |
| Engine.BurstLeavesOnePending | content.js:140-145 | notifications alone schedule no rebuild; a frame is pending exactly if one was already or some batch added nodes |
| Engine.BurstCoalesces | content.js:140-145 | a burst of notifications followed by the frame gives at most one `rebuild()`, and exactly one if anything was added |
| Engine.TenNotificationsOneRebuild | content.js:140-145 | ten notifications, five adding a node, then the frame: one rebuild |
| Engine.AnyAdded | content.js:141 | the definition of `mutations.some(m => m.addedNodes.length)`, each record given by its number of added nodes |
| Engine.DebounceStep | content.js:140-145 | a notification never rebuilds and never drops a pending frame; the frame leaves the slot empty and rebuilds exactly when one was pending |
| Engine.ExportedLines | content.js:119-120 | items with one-line labels export as the heading, a blank line and one line per row |
| Engine.Engine.constructor | content.js:6-8 | at injection nothing is rendered, `lastCount` is -1, and no timer or observer is armed |
| Engine.Engine.Rebuild | content.js:127-136 | the scan's count is recorded. If the rebuild is not forced and the count is unchanged, nothing else changes. Otherwise the scanned elements are tagged, the items are derived from them, and one new view showing them is rendered. The invariant ties `lastCount` to the last rendering |
| Engine.Engine.Redraw | content.js:132-135 | past the count gate: the count is recorded, the scan is tagged, its items become the list, and one view of them is appended |
| Engine.Engine.RebuildTwice | content.js:127-132 | two unforced rebuilds of an unchanged page render at most once |
| Engine.Engine.OnMutations | content.js:140-145 | a batch with added nodes (`AnyAdded`) leaves exactly one frame pending; other batches change nothing; this is one debounce step. It is called only while an observer is attached |
| Engine.Engine.OnFrame | content.js:144 | a pending frame fires once and runs an unforced rebuild; otherwise nothing happens |
| Engine.Engine.ObserveMutations | content.js:138-148 | each call attaches one more observer |
| Engine.Engine.StartPolling | content.js:162-165 | after the call exactly one polling interval runs |
| Engine.Engine.OnPoll | content.js:164 | a live poll runs an unforced rebuild |
| Engine.Engine.WatchUrlChanges | content.js:150-153 | the watcher remembers the current location, and exactly one URL-watch interval runs |
| Engine.Engine.StartWatching | content.js:207-211 | the first boot's tail attaches one observer and leaves one poll and one URL watch running |
| Engine.Engine.Boot | content.js:204-212 | a forced rebuild; only the first boot arms the observer, the watcher and the poller, while a reboot leaves them as they were |
| Engine.Engine.OnUrlTick | content.js:153-159 | on a changed location the watcher records it and reboots, changing no timer; otherwise nothing happens |
| Engine.Engine.Click | content.js:96-110 | a row click performs the dispatch for its item, and only the message-id case starts a fresh search |
| Engine.Engine.ExportMarkdown | content.js:116-120 | the export tags the scan like a rebuild (without the count gate) and produces the heading, a blank line and one line per numbered row |
| Engine.Start | content.js:214-218 | after start-up one render exists, one observer, one poll and one URL watch are armed, and `lastCount` is the scan's count |

## Left out

- DOM construction and styling are not modelled: `ensureSidebar`, the sidebar markup, the
  toggle button, `classList` changes, and removing the highlight 1.5 s later. The rendered
  view is modelled as strings.
- Scrolling is an effect: `scrollIntoView`, `scrollBy` and the 400 px step. A scroll tick
  only counts steps.
- Timer periods (800 ms, 1500 ms, 200 ms, 6000 ms) are not modelled; the environment decides
  the order of callbacks. As a result, `Engine.Engine.OnPoll` and `Engine.Engine.OnUrlTick`
  state what one firing does, not when it fires.
- The clipboard write, `alert`, `prompt` and `console.debug` are I/O; the export returns the
  text it would copy.
- CSS selector matching, `closest` and the bounding-box geometry are inputs. `Page.matches`
  holds each selector's result and `Page.visible` holds the elements with a positive width and
  height. Every scanned element matches a user-message selector, and `closest` includes the
  element itself, so the container is always the scanned element.
- `innerText` is taken as given; layout-dependent text extraction is not modelled.
- Lengths are counted in Unicode characters. JavaScript counts UTF-16 code units, which
  differ for characters outside the Basic Multilingual Plane.
- `CSS.escape` is taken to make the attribute selector an exact comparison.
- Waiting for `DOMContentLoaded` is not modelled: `Engine.Start` is the boot once the
  document is ready.
- `getChatContainer` is not modelled. The choice between the chat container and the window
  only changes which element scrolls and what the search observes.
- Engine.Engine.Rebuild: a reboot does not reset `lastCount`, and there is no generation
  counter guarding stale callbacks. The code has neither, and the model follows the code.
- Tagger.Tag: default ids are unique only within one scan, as in the code. The rebuild, the
  export and the click handler keep the code's choice, so the model describes what a click
  does when two elements share a default id. The document-unique choice is
  `Tagger.TagInDocument`, which nothing else in the model calls.
- Locate.NoHitTimesOut: the search re-queries only on a mutation notification. A target that
  is already on the page when the search starts is not found until something mutates. This
  is how the code behaves.

## Findings

| source | as written | input that shows it | evidently intended | confidence | as-written member | corrected member |
|---|---|---|---|---|---|---|
| content.js:70 | the regular expression literal `/\\s+/g` matches a backslash followed by one or more `s`, so whitespace is never collapsed | a message "a", line feed, "b" keeps its line break in the label | `/\s+/g`: each run of whitespace becomes one space | high, not executed | Text.ReplaceBackslashSKeepsLineBreaks | Text.CollapseSpacesJoinsLines |
| content.js:120 | inside the template literal, `\\n` is a backslash followed by `n`, so the export has no line breaks | any export: heading and rows end up on one line separated by the two characters `\n` | real line breaks: heading, blank line, one row per line | high, not executed | Export.MarkdownAsWrittenIsOneLine | Export.Markdown |
| content.js:67 | the fallback id `cgpt-anchor-{index+1}` is built from the position in the current scan, so it is unique only within that scan | the message `a` is visible alone and gets `cgpt-anchor-1`; an earlier message `x` without an id becomes visible and gets `cgpt-anchor-1` too; a click on the row of `a` scrolls to `x` | an identifier unique in the document: a candidate that `getElementById` does not already find | medium, not executed | Locate.RowJumpsToEarlierNamesake | Tagger.TagInDocument |

For the first two rows, the rest of the model uses the corrected behaviour. Labels are built
with `Text.CollapseSpaces`, and `Engine.Engine.ExportMarkdown` produces `Export.Markdown`. For
the third row, the rest of the model keeps the code's default ids (see `Tagger.Tag` under
"Left out").
