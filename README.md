# Chronicle activity journal — a Dafny model of its bookkeeping

This project models the in-memory bookkeeping of the Chronicle activity
journal. The journal is a single-page app: a day's records (an id, a name, an
`HH:MM` time, an optional description and a creation instant), kept sorted by
time. The journal syncs them to a remote store and mirrors them into a
local-storage backup slot. Three parts of it are modelled:

- **The controller** of `src/App.tsx`: the authoritative list, its flags and
  the handlers that change them. This is the class `Controller.Chronicle`.
  Its fields are the React state variables. The backup slot
  `chronicle_activities` is the field `backup`.
  - The handlers' list computations are pure functions in module `Timeline`:
    the id filter, the stable sort by time, and the upsert that combines them.
  - `localeCompare` on times is modelled in `TimeOrder` as lexicographic
    order. It is proved to agree with chronological order on well-formed
    `HH:MM` strings.
- **The insight selector** of `src/services/geminiService.ts`: a pure
  threshold function on the number of records that picks one of four canned
  insights. The texts are kept exactly.
- **The record editor** of `src/components/ActivityModal.tsx`: the class
  `Editor.ActivityEditor`. It covers the prefill/reset effect, including the
  zero-padded `HH:MM` default, and the submit guard built on `trim`.

The outside world enters as parameters:

| input | parameter |
|---|---|
| the remote store's list on load | `remote` |
| the store's accept/reject answer on save and delete | `storeOk` |
| `window.confirm` | `confirmed` |
| the random id of a create (`Math.random`) | `freshId` |
| `Date.now()` | `now` |
| `new Date()` hours and minutes | `hours`, `minutes` |
| the random variant index of the selector | `pick` ∈ {0, 1} |

The records as saved by the editor always carry all three of name, time and
description. So the merge `{ ...selectedActivity, ...data }` replaces exactly
those three fields; this is `Controller.Merge`.

The comment at src/App.tsx:26 calls the slot a fallback for an empty store
or a first run. As written, the code never restores it (see "## Findings").
The class `Controller.Chronicle` follows the code as written:
- its constructor performs the first render's backup write;
- its `LoadData` reads the slot after that write.

`Controller.OpenAsWritten` is that opening sequence. The corrected opening,
which reads the slot before the first write, is `Controller.Mount` and
`Controller.OpenRestoring`.

## Model

| member | source | states |
|---|---|---|
| TimeOrder.LexLe | src/App.tsx:30 | the `localeCompare` comparator on times, as character-code lexicographic order; it has no contract of its own, and the LexLe lemmas below and LexLeIsChronological state its properties |
| TimeOrder.LexLeReflexive | src/App.tsx:74 | the time comparison is reflexive |
| TimeOrder.LexLeTotal | src/App.tsx:74 | any two times are comparable, so the sort comparator is a total preorder |
| TimeOrder.LexLeTransitive | src/App.tsx:74 | the time comparison is transitive |
| TimeOrder.LexLeAntisymmetric | src/App.tsx:74 | two times that compare both ways are equal |
| TimeOrder.MinuteOfDay | src/components/ActivityModal.tsx:25-28 | a well-formed `HH:MM` denotes a minute of the day, below 1440 |
| TimeOrder.LexLeIsChronological | src/App.tsx:30 | on well-formed `HH:MM` times, the string order used by `localeCompare` holds exactly when the first time is not later in the day than the second (both directions) |
| Timeline.RemoveId | src/App.tsx:87 | the `filter(a => a.id !== id)` result is no longer than the input and holds only input records whose id differs |
| Timeline.KeepId | src/App.tsx:73 | the records carrying an id, all of them with that id, no more than the list holds |
| Timeline.Insert | src/App.tsx:74 | one insertion step of the stable sort adds exactly the inserted record to the multiset |
| Timeline.SortByTime | src/App.tsx:30 | the sort by time is a permutation of its input |
| Timeline.InsertSorted | src/App.tsx:74 | inserting into a time-sorted list keeps it sorted |
| Timeline.SortByTimeSorted | src/App.tsx:30 | the result of the sort is in non-decreasing time order |
| Timeline.SortByTimeOfSorted | src/App.tsx:74 | sorting a list that is already in time order returns it unchanged |
| Timeline.AtTime | src/App.tsx:74 | the records with a given time, in list order: no more than the list holds, all with that time (a reference selection for stability) |
| Timeline.AtTimeAppend | src/App.tsx:74 | selecting by time distributes over concatenation |
| Timeline.InsertStable | src/App.tsx:74 | an insertion step puts the new record after every record with the same time and keeps their order |
| Timeline.SortByTimeStable | src/App.tsx:30 | the sort is stable: for every input and every time, the records with that time come out in their input order |
| Timeline.Upsert | src/App.tsx:72-74 | `[...prev.filter(a => a.id !== x.id), x].sort(byTime)`; it has no contract of its own, and UpsertSpec, UpsertStable and UpsertUnique state its properties |
| Timeline.UpsertStable | src/App.tsx:73-74 | the saved record comes after the remaining records with the same time, which keep their order |
| Timeline.UpsertSpec | src/App.tsx:72-74 | after an accepted save the list is sorted by time; it holds exactly one record with the saved id, and that record is the saved one; every record with another id occurs as often as before; and the length grows by one when the id was absent and stays the same when it was present once |
| Timeline.RemoveIdCount | src/App.tsx:87 | the delete filter keeps each record with another id exactly as often as before, and drops every record with the id |
| Timeline.KeepIdCount | src/App.tsx:73 | the records with an id occur as often as in the list, and no others |
| Timeline.SplitById | src/App.tsx:73 | the kept and removed records of an id together account for the whole list |
| Timeline.RemoveIdLeavesNone | src/App.tsx:87 | after the filter no record carries the removed id |
| Timeline.RemoveIdAbsent | src/App.tsx:87 | filtering out an id that no record carries returns the list unchanged |
| Timeline.RemoveIdIdempotent | src/App.tsx:87 | filtering twice is filtering once |
| Timeline.RemoveIdAppend | src/App.tsx:73-74 | the filter distributes over concatenation, so survivors keep their relative order |
| Timeline.RemoveIdSorted | src/App.tsx:87 | filtering a time-sorted list keeps it sorted |
| Timeline.UniqueIdsByCount | src/App.tsx:73-74 | "all ids are pairwise different" holds exactly when no id is carried by two records |
| Timeline.KeepIdOfPermutation | src/App.tsx:74 | reordering a list does not change how many records carry an id |
| Timeline.KeepIdAppend | src/App.tsx:74 | selecting by id distributes over concatenation |
| Timeline.KeepIdOfRemoveId | src/App.tsx:73 | filtering out one id leaves the records of every other id as they were |
| Timeline.RemoveIdUnique | src/App.tsx:87 | a delete keeps ids unique |
| Timeline.UpsertUnique | src/App.tsx:72-74 | a save keeps ids unique |
| Timeline.UpsertOrderExample | src/App.tsx:72-74 | saving 09:00 and then 08:00 into an empty list gives the 08:00 record first |
| InsightSelector.AnalyzeActivities | src/services/geminiService.ts:8-60 | the result is null exactly for an empty list; otherwise it is one of the four canned insights, with exactly three suggestions |
| InsightSelector.AnalyzeThresholds | src/services/geminiService.ts:17-59 | six or more records give the dense insight; three to five give variant `pick` of the two balanced ones; one or two give the formative one |
| InsightSelector.AnalyzePickMatters | src/services/geminiService.ts:29-48 | the random pick changes the answer exactly when the count is between 3 and 5 |
| InsightSelector.AnalyzeReadsOnlyCount | src/services/geminiService.ts:14-59 | two lists of the same length with the same pick give the same answer |
| Editor.TrimStart | src/components/ActivityModal.tsx:36 | the leading-whitespace trim returns a suffix; all it drops is white space; what remains does not start with white space |
| Editor.TrimEnd | src/components/ActivityModal.tsx:36 | the trailing-whitespace trim returns a prefix; all it drops is white space; what remains does not end with white space |
| Editor.Trim | src/components/ActivityModal.tsx:36 | `s.trim()`; it has no contract of its own, and TrimStart, TrimEnd and TrimNonEmptyIff state its properties |
| Editor.TrimNonEmptyIff | src/components/ActivityModal.tsx:36 | `s.trim()` is non-empty exactly when `s` has a character that is not white space |
| Editor.DecimalString | src/components/ActivityModal.tsx:26-27 | `String(n)` is a non-empty string of decimal digits, one digit long exactly when `n < 10` |
| Editor.DecimalRoundTrip | src/components/ActivityModal.tsx:26-27 | reading back the digits `String(n)` writes gives `n` |
| Editor.PadStart | src/components/ActivityModal.tsx:26-27 | `padStart(width, fill)` has length max(width, \|s\|), ends with `s`, and is `fill` before it |
| Editor.TwoDigitString | src/components/ActivityModal.tsx:26-27 | `String(n).padStart(2, '0')`; it has no contract of its own, and TwoDigits states its properties |
| Editor.ClockTime | src/components/ActivityModal.tsx:26-28 | the create-mode default `${hours}:${minutes}`; it has no contract of its own, and ClockTimeWellFormed states its properties |
| Editor.TwoDigits | src/components/ActivityModal.tsx:26-27 | below 100, the padded string is two digits that read back as the number |
| Editor.ClockTimeWellFormed | src/components/ActivityModal.tsx:25-28 | for hours 0..23 and minutes 0..59 the default time has length 5 with `:` at index 2, is a well-formed `HH:MM`, and denotes that minute of the day |
| Editor.DescriptionText | src/components/ActivityModal.tsx:21 | `description \|\| ''` is the description when present and `''` otherwise |
| Editor.ActivityEditor.constructor | src/components/ActivityModal.tsx:13-15 | the three fields start empty |
| Editor.ActivityEditor.Reset | src/components/ActivityModal.tsx:17-30 | in edit mode the fields become the record's name, time and description (or `''`); in create mode name and description become `''` and time the zero-padded clock reading |
| Editor.ActivityEditor.Submit | src/components/ActivityModal.tsx:34-40 | a draft is handed on exactly when both name and time have a visible character, and it is exactly the current three fields |
| Controller.Merge | src/App.tsx:57-58 | an edit keeps the selected record's id and timestamp and takes the editor's name, time and description |
| Controller.Create | src/App.tsx:59-66 | a create takes the fresh id and the current instant, and the editor's name, time and description |
| Controller.LoadedList | src/App.tsx:19-36 | a non-empty remote list is adopted as is; otherwise a saved slot is adopted sorted by time, as a permutation of what was saved; with no slot the list stays as it was |
| Controller.SavedRecord | src/App.tsx:57-67 | the edited record when one is selected, else the created one; it has no contract of its own, and Merge and Create state the two cases |
| Controller.Mount | src/App.tsx:19-36 | the corrected opening list, with the slot read before the first write; it has no contract of its own, and MountRestoresBackup states its properties |
| Controller.MountAsWritten | src/App.tsx:19-41 | the opening list as written, where the slot already holds `[]` when it is read; it has no contract of its own, and MountAsWrittenIgnoresBackup states its properties |
| Controller.MountAsWrittenIgnoresBackup | src/App.tsx:19-41 | as written, the opening list is the remote list whatever the backup slot held |
| Controller.MountRestoresBackup | src/App.tsx:23-31 | reading the slot before it is overwritten, an empty remote list opens the journal with the saved records, sorted and as a permutation, and a sorted backup exactly as saved |
| Controller.BackupLostExample | src/App.tsx:19-41 | with an empty remote store and one saved record, the code as written opens with an empty list, where the corrected opening shows that record |
| Controller.Chronicle.Mirrored | src/App.tsx:39-41 | the backup effect as an invariant: the slot holds exactly the current list; the constructor establishes it and every handler that changes the list keeps it; it has no contract of its own |
| Controller.Chronicle.constructor | src/App.tsx:10-41 | the initial state of lines 10-16: empty list, loading, not syncing, modal closed, nothing selected, no insight, not analysing; the first render's backup write of lines 39-41 stores that empty list over the slot |
| Controller.Chronicle.LoadWith | src/App.tsx:20-34 | `loadData` when the slot read returns a given content: the list becomes the load result for the remote list and that content; loading ends false; the backup mirrors the list |
| Controller.Chronicle.LoadData | src/App.tsx:19-36 | `loadData` as written: the list becomes the load result for the remote list and the slot's current content; loading ends false; the backup mirrors the list |
| Controller.OpenAsWritten | src/App.tsx:9-41 | the opening as written, the first render and then `loadData`: the journal opens with exactly the remote list whatever the slot held, not loading, mirrored |
| Controller.OpenRestoring | src/App.tsx:19-36 | the corrected opening, reading the slot before the first write: the journal opens with the corrected opening list; on an empty remote list it holds the saved records, sorted by time and as a permutation; not loading, mirrored |
| Controller.Chronicle.HandleAddClick | src/App.tsx:43-46 | nothing is selected and the modal opens |
| Controller.Chronicle.HandleEditClick | src/App.tsx:48-51 | the record is selected and the modal opens |
| Controller.Chronicle.CloseModal | src/App.tsx:235 | the modal closes |
| Controller.Chronicle.HandleSave | src/App.tsx:53-80 | an accepted save makes the list the upsert of the edited or created record; a rejected save leaves the list unchanged; syncing ends false either way and the backup mirrors the list |
| Controller.Chronicle.HandleDelete | src/App.tsx:82-93 | an unconfirmed delete changes nothing; a confirmed, accepted delete filters the id out so no record carries it; a confirmed delete ends with syncing false; the backup mirrors the list |
| Controller.Chronicle.HandleAnalyze | src/App.tsx:95-100 | the insight becomes the selector's answer for the current list; analysing ends false |
| Controller.Chronicle.DismissInsight | src/App.tsx:221 | the insight becomes null |
| Controller.Chronicle.SubmitEditor | src/components/ActivityModal.tsx:34-40 | a valid submit saves the editor's fields and closes the modal whatever the store answers; an invalid one changes nothing and leaves the modal open |
| Controller.DeleteUpdatesList | src/App.tsx:83-87 | after an accepted delete: no record carries the id; every other record occurs as often as before; sortedness and unique ids are kept; deleting an absent id changes nothing; deleting twice is deleting once |
| Controller.EditKeepsIdentity | src/App.tsx:57-74 | saving an edit of the single record with an id keeps the length; that id still has one record, with the editor's fields and the original timestamp |

## Left out

- The remote store (`src/services/supabaseService.ts`) is network I/O. Its list becomes the `remote` parameter and its answers become `storeOk`. "Fetch failed" and "empty store" are the same empty `remote`, as in the code.
- JSON serialisation of the backup slot is not modelled; the slot holds the list itself. A slot whose `JSON.parse` throws would leave `isLoading` true; the model cannot express that.
- `Math.random`, `Date.now`, `new Date()` and the 1.8-second `setTimeout` delay of the selector are parameters (`freshId`, `now`, `hours`/`minutes`, `pick`) or dropped. A random id that collides with an existing one is handled as the code handles it, as an upsert.
- `window.confirm` is the `confirmed` parameter. `alert` has no effect on the state and is left out.
- Overlapping asynchronous saves and deletes are not modelled; each handler runs to completion. This is concurrency.
- `localeCompare` is modelled as code-point lexicographic order. Locale-specific collation of non-`HH:MM` strings is not modelled.
- The white-space set of `trim` is the ECMAScript one as listed in `Editor.IsWhitespace`.
- The keystroke `onChange` handlers and all JSX rendering and styling are not modelled. Neither is `src/components/TimelineItem.tsx`, whose only logic is the layout parity `index % 2`.
- Controller.Chronicle.HandleSave: states the new list as `Upsert(old list, saved record)`. Its sortedness, the single record with the saved id and the other records left untouched are proved once about `Upsert` in Timeline.UpsertSpec.

## Findings

| source | as written | input that shows it | evidently intended | confidence | as-written member | corrected member |
|---|---|---|---|---|---|---|
| src/App.tsx:19-41 | the backup effect runs on the first render with the initial empty list and overwrites the slot; `loadData` reads the slot only after its fetch is awaited, so it reads `[]` and the saved backup is never restored | empty remote store, slot holding one record `a1` "Coffee" at 07:30: the journal opens empty | on an empty remote result the journal opens with the backup saved by the previous session, sorted by time | high, not executed | Controller.OpenAsWritten | Controller.OpenRestoring |

The as-written half is `Controller.OpenAsWritten`: the constructor's backup write followed by `Controller.Chronicle.LoadData`. `Controller.MountAsWrittenIgnoresBackup` and `Controller.BackupLostExample` restate it on values. The corrected half is `Controller.OpenRestoring`, whose contract proves the backup is restored, backed by `Controller.MountRestoresBackup`.
