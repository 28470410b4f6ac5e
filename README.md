# Project journal and unread-activity engine, modelled in Dafny

The system is a map-based tracker of survey devices ("points", rows of the `assets` table) and
tunnels. Each device has a journal (`point_comments`). Each user has read marks (`updates_read`).
From these the system computes an unread-activity feed. The front end scores every project with
a "chance" ring that depends on the size of its journal.

This model covers:

- **The backend's route handlers**, as methods of the class `Backend.Database`. Its fields
  `assets`, `comments`, `marks` and the two id sequences are the tables. Each method returns the
  route's answer, or the 400/403/404 the route gives, with the guards in the route's order.
  `Valid()` is the invariant every route keeps:
  - journal ids are unique and below their sequence;
  - every entry belongs to an existing device;
  - every device row has one of the two storage shapes.
- **The pure rules the routes apply**:
  - storage normalisation (module `Devices`);
  - comment-body validation, listing order, lookup, edit and removal (module `Journal`);
  - the unread feed and its read marks (module `Feed`).
- **The front end's pure helpers**:
  - chance, ring colour, status label and colour (module `Chance`);
  - the project list's filtering, ordering, search and per-status counts (modules `ProjectList`
    and `StatusTally`).
- **The front end's list state**, as classes in module `Panels`:
  - the updates panel;
  - the journal panel;
  - the table of journal sizes;
  - the acquired/lost switches.

  The answers of the server come in as method parameters.

JavaScript's own semantics are in module `Js`:

- `Number(x)` that may not be finite becomes `Coerced<T>`;
- `||` on numbers and strings;
- `trim` over the ECMAScript white-space set;
- `length` in UTF-16 code units;
- `String(n)` of an integer;
- `includes`.

Sorting and filtering (`Array.prototype.sort`, `Array.prototype.filter`) are generic in module
`Sorting`.

## Model

| member | source | states |
|---|---|---|
| Devices.ParseInStorage | backend/index.js:126-128 | with strict equality: a boolean counts as its value, a number only when it is 1, a string only when it is "true" or "1", null and objects never |
| Devices.NormalizedWarehouse | backend/index.js:130-133 | a missing name gives ""; otherwise the result is no longer than the input, empty exactly when the input is all white, has no white at either end and no lower-case ASCII letter |
| Js.TrimBlank | backend/index.js:132 | trimming gives the empty string exactly when the text is all white |
| Devices.NormalizeStorage | backend/index.js:140-168 | every accepted body yields one of the two consistent storage shapes. In storage: accepted exactly when the trimmed, upper-cased warehouse (default GEO_BB) is one of the four known ones, else a 400 for the warehouse. Otherwise: accepted exactly when lat and lng are finite, and they are kept, else a 400 for the coordinates |
| Devices.NormalizeStorageRoundTrip | backend/index.js:135-168 | sending back the columns of a consistent row gives the same columns |
| Devices.WarehouseNamesNormal | backend/index.js:8 | the four known warehouse names are their own normal form |
| Devices.WarehouseNameLenient | backend/index.js:143-154 | `" serwis "` is accepted as warehouse SERWIS |
| Devices.BlankWarehouseIsDefault | backend/index.js:148 | a blank warehouse name puts the device in GEO_BB |
| Devices.UnknownWarehouseRejected | backend/index.js:149-153 | an unknown warehouse is a 400 even after upper-casing |
| Devices.NewAsset | backend/index.js:310-316 | a create request is accepted exactly when its storage is; the name is the trimmed title, else name, else "Nowe urządzenie"; the priority is off; a storage failure is passed on |
| Devices.NewAssetFields | backend/index.js:313-314 | a new row's status is the trimmed status, "tachimetr" when none is given; its notes are `note`, else `notes`, untrimmed |
| Devices.UpdateRejection | backend/index.js:358-365 | a blank trimmed title-or-name is a 400 "name required" before storage is looked at; otherwise the request is refused exactly when its storage is |
| Devices.UpdatedAsset | backend/index.js:358-360 | the updated row has the trimmed, non-empty name, status (default "tachimetr") and notes, the normalised storage, and the old priority |
| Devices.BlankTitleHidesName | backend/index.js:358-363 | a title made of blanks is refused although a name is given |
| Devices.PriorityFlag | backend/index.js:267-272 | the priority route accepts exactly a JSON boolean and takes its value |
| Http.Failure.Status | backend/index.js:354 | every refusal answers 400, 403 or 404 |
| Backend.Database.constructor | backend/index.js:56-75 | empty tables satisfy the invariant |
| Backend.Database.CreatePoint | backend/index.js:307-348 | on success the row NewAsset describes is stored under the next id, which was free, and the id counter advances by one; on failure nothing changes, the counter included; the invariant is kept |
| Backend.Database.UpdatePoint | backend/index.js:351-407 | guard order: bad id, name and storage guards, then 404 for a missing row; on success only that row changes, and its priority flag is kept |
| Backend.Database.SetPriority | backend/index.js:262-305 | guard order: bad id, non-boolean flag, missing row; on success only the flag of that row changes |
| Backend.Database.DeletePoint | backend/index.js:410-426 | with a finite id, the device's journal and every user's read marks on it are removed even when the device is missing; the answer is 404 exactly when no row was deleted; the invariant is kept |
| Backend.Database.StoreAsset | backend/index.js:367-385 | overwriting a row with a consistent one changes that row only and keeps the invariant |
| Backend.Database.ListComments | backend/index.js:432-457 | bad id is 400, a missing device 404, otherwise exactly the device's entries, newest first |
| Backend.Database.AddComment | backend/index.js:459-493 | guard order: id, then empty or over-long body, then missing device; on success one new, unedited entry by the caller with the trimmed body and the next id is appended and the id counter advances by one; on failure the entries and the counter are unchanged |
| Backend.Database.EditComment | backend/index.js:495-540 | guard order: ids, body, missing entry (matched by both ids) 404, foreign author 403; on success the row with that comment id gets the new body and is marked edited |
| Backend.Database.DeleteComment | backend/index.js:542-580 | guard order: ids, missing entry 404, foreign author 403; on success exactly the entries matching both ids are gone |
| Backend.Database.RecentUpdates | backend/index.js:586-630 | the answer is Feed.Recent for the limit clamped to 1..100, 30 when not finite |
| Backend.Database.MarkAllRead | backend/index.js:632-675 | inserts min(limit, number of unread keys) marks, all taken from the unread keys; the limit is clamped to 1..500, 300 when not finite; older marks keep their time; when the clamped limit covers every unread key, afterwards none is left and the feed is empty, so an immediate repeat inserts 0 |
| Backend.Database.MarkRead | backend/index.js:680-709 | a kind other than "points" is a 400, then non-finite ids are a 400; otherwise the key is inserted or its time refreshed; the device and entry need not exist |
| Backend.TablesDelete | backend/index.js:415-419 | removing a device together with its journal keeps the invariant |
| Backend.TablesAppend | backend/index.js:481-486 | appending an entry under the next id on an existing device keeps the invariant |
| Backend.TablesEdit | backend/index.js:527-533 | editing a body keeps the invariant |
| Backend.TablesRemove | backend/index.js:569-572 | removing one entry keeps the invariant |
| Backend.ChooseBatch | backend/index.js:649-661 | the `unread … limit` subquery: a scan in table order picks min(k, unread) keys, all of them unread |
| Backend.UnreadKeysPrefix | backend/index.js:649-661 | the unread keys of a prefix of the table are unread keys of the whole table |
| Journal.CheckBody | backend/index.js:465-473 | a body is accepted exactly when its trimmed form is non-empty and at most 5000 UTF-16 units; the trimmed form is stored; empty and too long are told apart |
| Journal.CheckBodyStable | backend/index.js:465 | a stored body passes the check again unchanged |
| Journal.BodyLengthBoundary | backend/index.js:470-473 | 5000 characters are accepted, 5001 are refused as too long |
| Journal.ListFor | backend/index.js:444-450 | exactly the device's entries, sorted newest first and by id within a time |
| Journal.ListOrderDetermined | backend/index.js:448 | with unique ids, any other arrangement of those entries in that order is the same list |
| Journal.FindComment | backend/index.js:511-519 | finds an entry exactly when one matches both ids; the entry found does |
| Journal.Edited | backend/index.js:528-531 | the edited row has the new body, is marked edited with a fresh time, and is otherwise the old row |
| Journal.EditComments | backend/index.js:527-533 | every row with the comment id is edited, all other rows are unchanged, in place |
| Journal.RemoveComment | backend/index.js:569-572 | exactly the rows matching both ids are removed, the rest keep their order, and no match is left |
| Journal.RemoveCommentsOf | backend/index.js:415 | exactly the device's entries are removed, the rest keep their order |
| Journal.SubsequenceKeepsDistinct | backend/index.js:415 | removing rows keeps ids unique |
| Feed.ClampLimit | backend/index.js:588-591 | a finite limit is clamped to 1..max, a non-finite one gives the default |
| Feed.JoinedFeed | backend/index.js:596-609 | the feed rows are exactly the entries whose device exists, each tagged with kind "points" and the device's name |
| Feed.UnreadFeed | backend/index.js:610-619 | the unread feed is exactly the joined rows without a mark of this user |
| Feed.Recent | backend/index.js:595-621 | min(limit, unread) unread rows, newest first, and no unread row left out is newer than one kept |
| Feed.UnreadUntilAcknowledged | backend/index.js:610-621 | an unread entry newer than every other heads the feed, and once its key is marked it is gone |
| Feed.OtherUsersUnaffected | backend/index.js:615 | a mark of one user leaves another user's feed unchanged |
| Feed.MarkOne | backend/index.js:694-699 | the key is present afterwards with the new time; every other mark is kept |
| Feed.UnreadKeys | backend/index.js:641-661 | the read-all candidates are the keys of entries without a mark, with no join to devices |
| Feed.InsertKeys | backend/index.js:662-666 | inserting with `do nothing` adds the new keys with the current time and keeps every existing mark's time |
| Feed.ReadAllClearsFeed | backend/index.js:632-675 | marking the whole candidate set leaves no candidate and an empty feed |
| Feed.ReadAllWithinLimit | backend/index.js:650-666 | a batch drawn from the candidates and as large as they are is all of them, so marking it leaves no candidate and an empty feed |
| Feed.FullSubset | backend/index.js:650-666 | a subset as large as its superset is the superset |
| Feed.CandidatesUnderIntegrity | backend/index.js:595-661 | when every entry's device exists, the read-all candidates are exactly the keys of the unread feed |
| Feed.RemoveMarksOf | backend/index.js:416 | exactly the marks of kind "points" on the device are removed, for every user; the others keep their time |
| Chance.CountedEntries | frontend/src/App.jsx:266-268 | the counted journal size is the number clamped to 0..4; NaN and negatives count 0, +∞ counts 4 |
| Chance.ChanceFromJournalCount | frontend/src/App.jsx:265-269 | the chance lies in 50..90: 50, plus 10 per entry, capped at 90; non-numbers give 50 |
| Chance.ChanceByCount | frontend/src/App.jsx:267 | 0…4+ entries give 50, 60, 70, 80, 90 |
| Chance.ChanceMonotone | frontend/src/App.jsx:265-269 | a larger journal never gives a lower chance |
| Chance.ProjectChance | frontend/src/App.jsx:271-274 | an acquired project has chance 100, any other its journal's chance |
| Chance.ClampPercent | frontend/src/App.jsx:180 | the ring value is the number clamped to 0..100, non-numbers 0 |
| Chance.RingColor | frontend/src/App.jsx:179-184 | green exactly from 80, yellow exactly from 60 to below 80, red exactly below 60 |
| Chance.RingOfProject | frontend/src/App.jsx:179-184 | acquired or 3+ entries is green, 1-2 is yellow, an empty journal is red |
| Chance.StatusLabel | frontend/src/App.jsx:67-72 | the three named statuses label themselves, everything else is "planowany" |
| Chance.StatusColor | frontend/src/App.jsx:74-79 | blue exactly for statuses that are not one of the three named ones |
| Chance.LabelAndColourAgree | frontend/src/App.jsx:67-79 | the colour of a status is the colour of its label, labels are fixed points, and two statuses share a colour exactly when they share a label |
| ProjectList.EffectiveStatus | frontend/src/App.jsx:1940 | a missing status reads as "planowany" |
| ProjectList.ByPriorityThenIdDesc | frontend/src/App.jsx:1931-1936 | priority rows come before others, then higher ids first; zero exactly for the same priority and id |
| ProjectList.ComparatorAntisymmetric | frontend/src/App.jsx:1931-1936 | swapping the arguments negates the comparison |
| ProjectList.FilteredItems | frontend/src/App.jsx:1938-1950 | exactly the items whose status is not switched off, as a permutation of the filtered list, priority first and by descending id |
| ProjectList.Visible | frontend/src/App.jsx:1940 | `!== false`: a status missing from the switches is shown, a present one is shown exactly when its switch is on, and an item without status follows the "planowany" switch |
| ProjectList.AllStatusesShown | frontend/src/App.jsx:1940 | with no status switched off, every item is shown |
| ProjectList.FilteredProjects | frontend/src/App.jsx:1952-1956 | a permutation of the visible points tagged "point" followed by the visible tunnels tagged "tunnel", re-sorted priority first and by descending id |
| ProjectList.Search | frontend/src/App.jsx:1958-1968 | a blank query keeps the list; any other keeps, in order, exactly the rows whose lower-cased label or decimal id contains the trimmed, lower-cased query |
| ProjectList.SearchFindsId | frontend/src/App.jsx:1963-1966 | searching for a row's id finds that row |
| StatusTally.Counts | frontend/src/App.jsx:1970-1981 | (corrected tally) the counts sum to the number of points and tunnels; each status seen or preset has exactly the number of items with it; keys are the four presets followed by new statuses, each once |
| StatusTally.CountInto | frontend/src/App.jsx:1972-1975 | the loop over one list leaves the tally its specification function describes |
| StatusTally.TallyKeys | frontend/src/App.jsx:1974 | counting keeps every key and adds one for each status met |
| StatusTally.TallyCount | frontend/src/App.jsx:1974 | the count under a status grows by the number of items with that status |
| StatusTally.TallySum | frontend/src/App.jsx:1974 | the counts grow in total by the number of items |
| StatusTally.TallyDistinct | frontend/src/App.jsx:1974 | counting keeps the keys distinct |
| StatusTally.CountsAsWritten | frontend/src/App.jsx:1970-1981 | (as written) in the model's insertion order of properties, the four preset statuses stay first and each item adds at most one property |
| StatusTally.AsWrittenAgreesOffPrototype | frontend/src/App.jsx:1970-1981 | away from the inherited names `__proto__` and the Object.prototype methods, the code counts exactly as the corrected tally |
| StatusTally.ConstructorStatusNotCounted | frontend/src/App.jsx:1974 | an item with status "constructor" stores the string "function Object() { [native code] }1" and no count |
| StatusTally.ProtoStatusNotCounted | frontend/src/App.jsx:1974 | an item with status "__proto__" leaves the tally unchanged |
| StatusTally.CountsSeeInheritedNames | frontend/src/App.jsx:1970-1981 | the corrected tally counts either item once |
| Panels.FeedKey | frontend/src/App.jsx:962 | a panel key starts with the row's kind followed by a colon |
| Panels.FeedKeyInjective | frontend/src/App.jsx:962 | with colon-free kinds, two rows share a panel key exactly when they are the same entry |
| Panels.WithoutEntry | frontend/src/App.jsx:965 | the rows left after acknowledging keep their order and none is the acknowledged entry |
| Panels.WithoutEntryDropsOnlyIt | frontend/src/App.jsx:965 | no other entry is dropped |
| Panels.UpdatesPanel.Load | frontend/src/App.jsx:925-938 | the panel lists the rows the server sent |
| Panels.UpdatesPanel.MarkRead | frontend/src/App.jsx:961-970 | the row leaves the list at once and its expansion flag is forgotten |
| Panels.UpdatesPanel.MarkAllRead | frontend/src/App.jsx:941-946 | an empty list is left alone; otherwise the list and the expansion flags are cleared at once |
| Panels.SizeChanged | frontend/src/App.jsx:1766-1771 | one project's size is set to the number (NaN as 0), every other size and kind is kept |
| Panels.SizeOf | frontend/src/App.jsx:3621-3623 | the size a ring is drawn from is never NaN, and 0 for a project with no report |
| Panels.RingAfterReport | frontend/src/App.jsx:3754-3758 | after a panel reports n entries, the project's ring shows the chance of n entries |
| Panels.OtherRingsKept | frontend/src/App.jsx:1766-1771 | a report for one project leaves every other project's size unchanged |
| Panels.JournalSizes.Change | frontend/src/App.jsx:1766-1771 | the new table is SizeChanged of the old one |
| Panels.DraftBody | frontend/src/App.jsx:368-369 | a blank draft sends nothing; a sent body is non-empty and already trimmed |
| Panels.DraftPassesUnlessTooLong | frontend/src/App.jsx:368-369 | what the panel sends is refused by the server only for its length |
| Panels.ReplaceEntry | frontend/src/App.jsx:411-415 | the row with the saved entry's id is replaced by it, every other row kept in place |
| Panels.ReplaceKeepsIds | frontend/src/App.jsx:411-415 | with unique ids, an edit keeps the ids and the saved entry is in the list exactly when its id was |
| Panels.DropEntry | frontend/src/App.jsx:442-448 | exactly the rows with the deleted id go, the rest keep their order |
| Panels.DropEntryCount | frontend/src/App.jsx:442-448 | a delete removes as many rows as carry that id; with unique ids, at most one |
| Panels.JournalPanel.Load | frontend/src/App.jsx:340-357 | without an entity nothing happens; otherwise the fetched entries replace the list and their number is reported |
| Panels.JournalPanel.AddEntry | frontend/src/App.jsx:366-395 | without an entity nothing happens; otherwise the created entry goes on top and the new size is reported |
| Panels.JournalPanel.EditEntry | frontend/src/App.jsx:397-425 | without an entity nothing happens; otherwise the edited row is replaced and editing ends, with no size report |
| Panels.JournalPanel.RemoveEntry | frontend/src/App.jsx:427-455 | without an entity nothing happens; otherwise the row goes, the new size is reported, and an edit of that row is abandoned |
| Panels.ChanceAfterAdd | frontend/src/App.jsx:381-385 | one more entry raises the chance by ten, up to 90 |
| Panels.CheckAcquired | frontend/src/App.jsx:1608-1613 | ticking "acquired" clears "lost", unticking leaves it |
| Panels.CheckLost | frontend/src/App.jsx:1622-1627 | ticking "lost" clears "acquired", unticking leaves it |
| Panels.ClicksKeepExclusive | frontend/src/App.jsx:1604-1632 | whatever the clicks, the two switches are never both on |
| Panels.LastTickWins | frontend/src/App.jsx:1604-1632 | the switch ticked last is the one that is on |
| Panels.OutcomeForm.ToggleAcquired | frontend/src/App.jsx:1608-1613 | the form's new state is CheckAcquired of the old one |
| Panels.OutcomeForm.ToggleLost | frontend/src/App.jsx:1622-1627 | the form's new state is CheckLost of the old one |
| Panels.FirstRing | frontend/src/App.jsx:111 | a polygon has an outer ring exactly when its first entry is present |
| Panels.OuterRingsMembership | frontend/src/App.jsx:113-118 | a ring is drawn for a multipolygon exactly when it is the outer ring of one of its polygons |
| Panels.OuterRings | frontend/src/App.jsx:106-121 | no geometry or another type draws nothing, a polygon at most one ring |
| Panels.ExtractOuterRings | frontend/src/App.jsx:106-121 | the loop collects exactly OuterRings of the geometry |
| Js.TrimIsInfix | backend/index.js:132 | `trim` removes white space at both ends and nothing else: the result is a slice whose cut-off ends are white and whose own ends are not |
| Js.TrimIdempotent | backend/index.js:465 | trimming twice is trimming once |
| Js.IntToStringInjective | frontend/src/App.jsx:412 | two integers have the same decimal string exactly when they are equal |
| Sorting.Sort | frontend/src/App.jsx:1942 | the sorted list is a permutation of the input and ordered by the comparator |
| Sorting.Filter | frontend/src/App.jsx:1940 | each value occurs as often as in the input when it passes, else not at all, in input order |

## Left out

- Authentication, CORS, the schema set-up, the login and asset-listing routes, and every route not
  listed above. They do not belong to the journal engine.
- Database failures and the 500 answers they cause: the model's tables never fail.
- Concurrency between requests and the transactions of the database. Every route is one atomic step.
- Ids and limits that are finite but not integers: such a `Number(...)` reaches SQL unchanged and
  the database's coercion decides. The model takes finite values as integers.
- Floating point: chance and ring values are real numbers, and `NaN` and `±∞` are explicit cases
  of `Js.JsNumber`. Rounding is not modelled.
- `toUpperCase`/`toLowerCase`: only ASCII and the Polish letters are mapped. A Unicode
  normalisation or full case table is not modelled.
- `String(v)` of a body or a warehouse that is not a string (numbers, objects): request text
  fields are strings or absent in the model.
- `created_at` and `updated_at` come from the database clock. They are parameters (`now`). A new
  entry's `updated_at` is None because its column default is not part of this model.
- `Feed.Recent`: rows with equal creation times may come in either order. `ORDER BY created_at
  DESC` has no tie-break, so the contract fixes only the times of the rows returned.
- `Backend.Database.MarkAllRead`: when the limit is smaller than the number of unread keys, the
  contract says only that some batch of the right size is taken from them. `LIMIT` without
  `ORDER BY` lets the database pick. The method itself scans in table order (`Backend.ChooseBatch`).
- `StatusTally.CountsAsWritten`: the order in which a JavaScript object enumerates its keys is not
  modelled. Such an object lists array-index keys (a status such as "7") first, in ascending
  order, before the others in insertion order. The model keeps insertion order only. `counts` is
  only ever read by key (frontend/src/App.jsx:3419), so the order has no effect on what is shown.
- `Panels.JournalPanel`: a panel without an entity is modelled by the id 0. The source's
  `!entityId` guard (frontend/src/App.jsx:341, 366, 397, 430) also holds for null, undefined and
  NaN; these all fall under the same unbound case.
- `Sorting.Sort`: it is a stable insertion sort. `Array.prototype.sort` is also stable, but the
  contract states only ordering and permutation.
- The panels' network calls, the error reload of `markRead`/`markAllRead`, the 401 handling, the
  busy and error flags, `window.confirm`, `localStorage`, the "show 14 days" filter and all
  rendering. The server's answer is a method parameter; a failed request is not modelled.
- `Panels.UpdatesPanel.MarkAllRead`: auto-closing the panel after a successful request is not
  modelled.
- The JSON answers' field renaming (`title` = `name`, `note` = `notes`). The model works on the rows.

Where the behaviour described for the system differs from the code, the model follows the code:

- deleting a device also deletes every user's read marks on it (backend/index.js:416);
- the single read mark checks only that the ids are finite numbers, not that they are positive or
  that the entry exists (backend/index.js:686-691);
- the read-all candidates do not join to devices (backend/index.js:642-648), so entries of missing
  devices are marked too (`Feed.CandidatesUnderIntegrity` says when the two sets agree).

## Findings

| source | as written | input that shows it | evidently intended | confidence | as-written member | corrected member |
|---|---|---|---|---|---|---|
| frontend/src/App.jsx:1970-1981 | `c[st] = (c[st] \|\| 0) + 1` on a plain object literal also finds the members an object inherits from Object.prototype | one point with status "constructor" stores the string "function Object() { [native code] }1" and counts nothing; status "__proto__" is not counted at all | each item is counted once under its status, so the counts sum to the number of items. The legend reads only `counts[s.key] ?? 0` for the four preset statuses (frontend/src/App.jsx:45-50, 3419), so the wrong entries stay inside the `counts` object and never change what the legend shows | not executed | StatusTally.CountsAsWritten, StatusTally.ConstructorStatusNotCounted | StatusTally.Counts |
