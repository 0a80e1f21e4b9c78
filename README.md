# Click-to-jot canvas and daily summary, modelled in Dafny

This project models two pieces of client-side logic of a personal activity
tracker.

The **click-to-jot canvas** (`Cache.tsx`) is a surface where a click on empty
space asks the record store for a new note with an empty title and body and,
when the store answers, places the note's box at the click position. Its state
is an ordered list of entries (a stored record joined with a position) and an
`isCreating` flag. The model is the class `CacheCanvas.Canvas`; its click
handler is split at its one `await` into `BeginCreate` (the guards, setting the
flag and issuing the request) and `CompleteCreate` (the continuation that
either appends the new entry or leaves the list alone, and clears the flag).
The continuation keeps the list captured at click time (`PendingCreate`), as
the handler's closure does, so title or body edits made while the request is in
flight are overwritten on success. The list transforms are pure functions in
`CacheEntries`; what the canvas displays is the projection `CacheRender.Render`.

The **daily summary** (`Daily.tsx`) renders durations as `"Xh Ym"` or `"Ym"`,
sums the durations of the day's activities, counts the activities per category
(a loop that updates a dictionary, `Daily.CategoryCounts`), shows the number of
distinct categories, looks up a colour per category with a gray fallback and
renders the heading date from day-name and month-name tables. Numbers are
turned into text by `Text.NatToDecimal`, whose partner `Text.DecimalValue`
shows that no information is lost; this gives injectivity of the duration and
date texts.

The asynchronous store call is a parameter: `BeginCreate` returns the request
it would send, and `CompleteCreate` takes the store's outcome as an
`Option<Record>` (`None` for a thrown error). Whether the click target lies
inside an existing entry box is the boolean `insideBox`. The `Date` accessors of
the heading are inputs (`day`, `month`, `date`, `year`).

Title and body edits are local only (the code has no commit, debounce or
retry), a failed creation is only logged to the console, and identities are
not checked for uniqueness.

## Model

| member | source | states |
|---|---|---|
| CacheEntries.Place | frontend/src/components/Cache.tsx:38 | the new entry carries the returned record's id, title, body and timestamp and the click's x and y |
| CacheEntries.SetTitle | frontend/src/components/Cache.tsx:46-50 | same length; every entry keeps id, body, timestamp, x and y; the title becomes the new value exactly on entries whose id matches; other entries are untouched |
| CacheEntries.SetBody | frontend/src/components/Cache.tsx:52-56 | same length; every entry keeps id, title, timestamp, x and y; the body becomes the new value exactly on entries whose id matches; other entries are untouched |
| CacheEntries.SetTitleKeepsIds | frontend/src/components/Cache.tsx:46-50 | a title edit keeps the sequence of identities, hence the order of the entries |
| CacheEntries.SetBodyKeepsIds | frontend/src/components/Cache.tsx:52-56 | a body edit keeps the sequence of identities, hence the order of the entries |
| CacheEntries.SetTitleLastWins | frontend/src/components/Cache.tsx:46-50 | two title edits of the same id equal the later one alone |
| CacheEntries.SetBodyLastWins | frontend/src/components/Cache.tsx:52-56 | two body edits of the same id equal the later one alone |
| CacheEntries.SetTitleIdempotent | frontend/src/components/Cache.tsx:46-50 | applying the same title edit twice equals applying it once |
| CacheEntries.SetBodyIdempotent | frontend/src/components/Cache.tsx:52-56 | applying the same body edit twice equals applying it once |
| CacheEntries.TitleAndBodyEditsCommute | frontend/src/components/Cache.tsx:46-56 | a title edit and a body edit give the same list in either order |
| CacheEntries.TitleEditsOfDistinctIdsCommute | frontend/src/components/Cache.tsx:46-50 | title edits of two different ids give the same list in either order |
| CacheEntries.SuccessDropsEditsMadeDuringCreation | frontend/src/components/Cache.tsx:38 | appending to the click-time list loses a title edit made to an existing entry while the request was in flight |
| CacheRender.Boxes | frontend/src/components/Cache.tsx:87-97 | one box per entry, in list order, keyed by the entry's id and anchored at its own x and y, showing its timestamp, title and body |
| CacheRender.Render | frontend/src/components/Cache.tsx:75-85 | the placeholder shows exactly when the list is empty and no creation is pending; "Creating..." shows exactly when one is; never both |
| CacheRender.BoxesConcat | frontend/src/components/Cache.tsx:87-97 | the boxes of a concatenation are the boxes of its parts in order (render order is insertion order) |
| CacheRender.AppendedEntryRendersLast | frontend/src/components/Cache.tsx:87-97 | after an append the old boxes are unchanged, the one new box is last at the click position, and the placeholder is hidden |
| CacheCanvas.Canvas.View | frontend/src/components/Cache.tsx:70-97 | the displayed state: the placeholder exactly when there are no entries and nothing pending, "Creating..." exactly while a creation is pending, one box per entry in list order at the entry's x and y |
| CacheCanvas.Canvas.constructor | frontend/src/components/Cache.tsx:11-12 | the canvas starts with no entries, not creating, showing the placeholder |
| CacheCanvas.Canvas.BeginCreate | frontend/src/components/Cache.tsx:14-33 | a request is issued exactly when the click is outside every box and no creation is pending; it has empty title and body, sets the flag and records the current list and the click position; otherwise nothing changes; the list never changes here |
| CacheCanvas.Canvas.CompleteCreate | frontend/src/components/Cache.tsx:30-43 | on success the list is the click-time list followed by exactly one entry with the record's fields at the click position, and that box renders last; on failure the list is unchanged; the flag is cleared either way |
| CacheCanvas.Canvas.TitleChange | frontend/src/components/Cache.tsx:46-50 | the list becomes SetTitle of the old list; the flag and pending creation are unchanged |
| CacheCanvas.Canvas.BodyChange | frontend/src/components/Cache.tsx:52-56 | the list becomes SetBody of the old list; the flag and pending creation are unchanged |
| CacheCanvas.EditDuringSuccessfulCreation | frontend/src/components/Cache.tsx:30-50 | from any idle canvas, click, edit of an existing entry's title while in flight, success: that entry keeps its click-time value, so the edit is lost, and the new entry follows at the end |
| CacheCanvas.EditDuringFailedCreation | frontend/src/components/Cache.tsx:30-50 | the same run with a failed request: the list is the edited list, so the edit is kept |
| CacheCanvas.EditDuringCreationScenario | frontend/src/components/Cache.tsx:14-56 | click, click inside a box, click, click while pending, edit, success: two requests with empty fields, two dropped clicks, the edit shown at once and overwritten by the success |
| Text.NatToDecimal | frontend/src/components/Daily.tsx:48 | a number renders as a nonempty string of decimal digits with no leading zero |
| Text.DecimalRoundTrip | frontend/src/components/Daily.tsx:48 | reading the digits back gives the number |
| Text.NatToDecimalInjective | frontend/src/components/Daily.tsx:48 | distinct numbers give distinct digit strings |
| Daily.SplitDuration | frontend/src/components/Daily.tsx:45-47 | hours*60 + mins equals the minutes and mins is below 60 |
| Daily.SplitDurationUnique | frontend/src/components/Daily.tsx:45-47 | that pair of hours and minutes is the only one |
| Daily.FormatDuration | frontend/src/components/Daily.tsx:45-49 | below an hour the text is "<minutes>m"; from an hour on it is "<hours>h <mins>m" |
| Daily.FormatDurationInjective | frontend/src/components/Daily.tsx:45-49 | distinct durations render as distinct texts |
| Daily.HoursTextHasH | frontend/src/components/Daily.tsx:48 | the text contains 'h' exactly when the duration is an hour or more |
| Daily.SumDurations | frontend/src/components/Daily.tsx:51 | the reduce never goes below its starting value and stays there exactly when every duration is 0 |
| Daily.TotalDuration | frontend/src/components/Daily.tsx:51 | the total is 0 exactly when every activity lasts 0 minutes (so for an empty day); its other properties are in SumDurationsOffset, TotalDurationAppend and TotalDurationConcat |
| Daily.SumDurationsOffset | frontend/src/components/Daily.tsx:51 | the reduce's accumulator only offsets the total |
| Daily.TotalDurationEmpty | frontend/src/components/Daily.tsx:51 | the total of no activities is 0 |
| Daily.TotalDurationAppend | frontend/src/components/Daily.tsx:51 | appending an activity adds exactly its duration |
| Daily.TotalDurationConcat | frontend/src/components/Daily.tsx:51 | the total of a concatenation is the sum of the totals |
| Daily.CountMapAppend | frontend/src/components/Daily.tsx:53-56 | one step of the reduce: the next activity's category count goes up by one, starting from 0 when absent |
| Daily.CategoryCounts | frontend/src/components/Daily.tsx:53-56 | the keys are exactly the occurring categories (others are absent, not zero); each value is that category's number of activities, at least 1; the result is CountMap, whose values sum to the number of activities (CountsSumToLength) |
| Daily.CountsSumToLength | frontend/src/components/Daily.tsx:53-56 | the counts of the dictionary sum to the number of activities |
| Daily.CategoryCount | frontend/src/components/Daily.tsx:94 | the "Categories" figure is the number of distinct categories, at most the number of activities, and 0 exactly when there are none |
| Daily.CategoriesBound | frontend/src/components/Daily.tsx:94 | there are never more distinct categories than activities |
| Daily.ColorFor | frontend/src/components/Daily.tsx:112 | a known category gets its table colour; the gray fallback is returned exactly for categories missing from the table |
| Daily.ColorTable | frontend/src/components/Daily.tsx:20-26 | the colour of each of the five known categories, and the gray fallback for every other string |
| Daily.FormatDate | frontend/src/components/Daily.tsx:29-34 | the heading starts with the day's name and ", " and ends with the year's digits; that the indices are in bounds is NameTables, that the text is unambiguous is FormatDateInjective |
| Daily.NameTables | frontend/src/components/Daily.tsx:29-33 | seven day names and twelve month names, so every day index 0..6 and month index 0..11 is in bounds; the names are distinct and free of the heading's separators |
| Daily.FormatDateInjective | frontend/src/components/Daily.tsx:29-33 | different day, month, day-of-month or year give different heading texts |

## Left out

- The store call `createCacheEntry` is not part of this model: its outcome is the parameter of `CompleteCreate`, and nothing is assumed about identity or timestamp generation.
- `CacheCanvas.Canvas.CompleteCreate` requires a pending creation: the continuation only exists after `BeginCreate` issued a request.
- The DOM test `target.closest('.cache-entry-box')` is the boolean `insideBox`; `stopPropagation` on the inputs is covered by the same flag.
- React's state closures are taken to hold the latest rendered state when a handler runs, except for the click handler's continuation, which keeps its click-time list as the code does.
- Console logging of the created record and of errors is left out; it changes no state.
- `formatTimestamp`, `formatTime` and the `Date` accessors are locale and clock formatting; `FormatDate` takes the day index, month index, day of month and year as inputs, and years are nonnegative.
- Rendering details (JSX, CSS classes, the `translate(-50%, -50%)` centring, the loading and "No activities recorded" screens of the daily view) are left out; only the placeholder conditions, box order and anchors are modelled.
- Coordinates and durations are integers and durations are nonnegative; fractional values, floating-point sums and JavaScript's `%` on negative numbers are not modelled.
- Category names are plain dictionary keys: JavaScript objects also inherit keys such as `toString` from their prototype, which this model does not capture in `ColorFor` or `CategoryCounts`.
- No commit of edits, debounce, retry or backoff is modelled, because the code has none; edits only change local state.
- `AddActivityForm.tsx`, `DailyWrapper.tsx` and `App.tsx` (form submission over HTTP, fetching a day's activities, navigation, routing) are not part of this model.
