# Turf slot engine — a verified Dafny model

This project models the slot engine of the turf booking backend. A turf is a
bookable pitch. Each turf has a configured slot length (`slotDurationMinutes`)
and an idle buffer (`bufferMinutes`). An administrator generates the slots of
one turf for one date from a daily window such as `"06:00"`–`"22:00"`. Clients
then list that date's slots in start-time order. Administrators can also
override a slot's status or delete a slot.

The model has four modules.

- `Lexicographic` (`lexicographic.dfy`): the string order the store uses when
  it sorts `startTime` ascending. The module proves that this order is
  reflexive, total and transitive.
- `Clock` (`clock.dfy`): the `"HH:MM"` helpers inside the generator loop.
  - `Parse` reads `hours * 60 + minutes`.
  - `Format` writes `String(n).padStart(2, "0")` for the hours and for the
    minutes, joined by a colon.
  - Reading a formatted value gives back its minutes.
  - For any time before 100:00, the string order of formatted times is their
    minute order.
- `TimeGrid` (`timegrid.dfy`): the grid of slots for a window.
  - `Grid` is the reference definition of the grid.
  - `GenerateGrid` is the `while (true)` loop of the generator. It is proved
    to produce exactly `Grid`.
  - Lemmas state the grid's properties: slot length, window bounds,
    maximality, spacing, order and count.
- `Slots` (`slots.dfy`): the persisted slot collection as the class `SlotStore`
  with the controller's four operations. Each operation returns a
  `Response` (`Ok`, `BadRequest` for 400, `NotFound` for 404).
  - The store invariant: slot ids are unique. Within one turf and date, start
    strings are unique too.
  - Every operation proves that it keeps the invariant and states what it
    leaves unchanged.

Modelling choices:

- The turf collection is a parameter of `GenerateSlots`: a map from turf id to
  the two configuration fields that generation reads.
- Store ids are naturals, handed out from a counter.
- A query parameter is `Option<string>`. An absent or empty parameter counts
  as missing, as JavaScript's falsiness check does.

## Model

| member | source | states |
|---|---|---|
| Clock.DecimalValue | turf_backend/src/controllers/slotController.js:48-53 | the number a run of digits denotes, leading zeros allowed, as `parseInt` and `Number` read it; the inverse of `Decimal` by Decimal's ensures, and used by ParseShape |
| Clock.Decimal | turf_backend/src/controllers/slotController.js:58-60 | `String(n)`: a non-empty run of digits whose decimal value is `n` |
| Clock.PadStart2 | turf_backend/src/controllers/slotController.js:58-60 | `padStart(2, "0")`: the result is at least two characters long, ends with the input, and everything in front of it is '0' |
| Clock.Parse | turf_backend/src/controllers/slotController.js:48-53 | the definition: hours times sixty plus minutes, for "digits:digits"; described by ParseFormat, ParseShape and ShapeIsCanonical |
| Clock.Format | turf_backend/src/controllers/slotController.js:58-60 | the definition: hours and minutes each padded to two digits, joined by a colon; described by ParseFormat, FormatShape and FormatOrder |
| Clock.ParseFormat | turf_backend/src/controllers/slotController.js:52-60 | every formatted time is readable ("digits:digits"), and reading it gives back exactly the minutes it was formatted from |
| Clock.FormatCanonical | turf_backend/src/controllers/slotController.js:58-60 | for any time before 100:00, the formatted string is canonical: reading it and formatting again gives the same string |
| Clock.FormatShape | turf_backend/src/controllers/slotController.js:58-60 | before 100:00 a formatted time is exactly five characters: two hour digits, a colon, two minute digits |
| Clock.ParseShape | turf_backend/src/controllers/slotController.js:52-53 | a zero-padded "HH:MM" string is readable and reads as 60 times its two hour digits plus its two minute digits |
| Clock.ShapeIsCanonical | turf_backend/src/controllers/slotController.js:58-60 | every zero-padded "HH:MM" string with minutes up to 59 is exactly what formatting its own value writes, so the round trip also holds from the string side |
| Clock.CanonicalShape | turf_backend/src/controllers/slotController.js:58-60 | conversely, every string that formatting writes for a time before 100:00 has the zero-padded "HH:MM" shape |
| Clock.FormatOrder | turf_backend/src/controllers/slotController.js:20 | for times before 100:00, one formatted time sorts at or before another as a string exactly when its minutes are at most the other's |
| Lexicographic.StrLe | turf_backend/src/controllers/slotController.js:20 | the ascending string comparison of the sort: the empty string first, otherwise the first characters decide and equal ones pass to the rest; described by StrLeTotal, StrLeTransitive and FormatOrder |
| Lexicographic.StrLeTotal | turf_backend/src/controllers/slotController.js:20 | any two strings are comparable in the ascending string sort |
| Lexicographic.StrLeTransitive | turf_backend/src/controllers/slotController.js:20 | the ascending string sort is transitive |
| TimeGrid.Gap | turf_backend/src/controllers/slotController.js:75-80 | the idle time added after a slot: the buffer when it is positive, otherwise none; used by GridFrom and described by GridSpacing |
| TimeGrid.GridFrom | turf_backend/src/controllers/slotController.js:51-81 | the definition of the minute grid the loop computes: stop at or past the end or when the next slot overruns it, otherwise emit the slot and advance by the duration plus the positive buffer; described by the Grid lemmas below |
| TimeGrid.Grid | turf_backend/src/controllers/slotController.js:43-81 | the definition: the minute grid labelled with the caller's start string first and formatted times after; described by GridTimes, GridProperties and GridCanonical |
| TimeGrid.Label | turf_backend/src/controllers/slotController.js:67-79 | the labels of a minute grid: one per span, the caller's raw start first and formatted times elsewhere; described by LabelAt and GridTimes |
| TimeGrid.GenerateGrid | turf_backend/src/controllers/slotController.js:43-81 | the generator loop: terminates when the duration and buffer together advance the cursor, and returns exactly the reference grid `Grid` |
| TimeGrid.GridSlotLength | turf_backend/src/controllers/slotController.js:57-69 | every slot ends exactly the configured duration after it starts |
| TimeGrid.GridInWindow | turf_backend/src/controllers/slotController.js:53-62 | a start at or after the end gives no slots; the first slot starts at the window start; every slot lies inside the window and may end exactly at its end |
| TimeGrid.GridMaximal | turf_backend/src/controllers/slotController.js:55-62 | generation stops only when the next candidate starts at or after the end or would overrun it, so nothing that fits is dropped |
| TimeGrid.GridSpacing | turf_backend/src/controllers/slotController.js:72-80 | each slot starts at the previous one's end plus the buffer when the buffer is positive, and at the previous end exactly otherwise |
| TimeGrid.GridOrdered | turf_backend/src/controllers/slotController.js:72-80 | for any two slots, the earlier one ends no later than the later one starts, and the start times strictly increase |
| TimeGrid.GridCount | turf_backend/src/controllers/slotController.js:51-62 | n slots fit in the window with their n-1 gaps: `n*duration + (n-1)*max(buffer,0) <= end - start` |
| TimeGrid.GridTimes | turf_backend/src/controllers/slotController.js:47-72 | the first slot's start is the caller's raw string; every later start and every end is the formatted minute value; each reads back as the minute grid's value |
| TimeGrid.GridProperties | turf_backend/src/controllers/slotController.js:47-81 | read back as minutes, the strings satisfy the same bounds: a start at or after the end gives no slots, each slot lasts the duration, lies in the window, and is spaced by the buffer |
| TimeGrid.GridStartsDistinct | turf_backend/src/controllers/slotController.js:64-72 | no two generated slots share a start string |
| TimeGrid.GridCanonical | turf_backend/src/controllers/slotController.js:60-79 | when the caller's start is itself zero-padded "HH:MM" and the window ends before 100:00, every start and end string is zero-padded "HH:MM" |
| TimeGrid.GridSortedByStart | turf_backend/src/controllers/slotController.js:20-81 | under the same conditions the generated slots already come in ascending string order of their start times |
| TimeGrid.BackToBackExample | turf_backend/src/controllers/slotController.js:47-81 | 360 to 600 minutes (06:00 to 10:00) with one-hour slots and no buffer gives four back-to-back minute spans |
| TimeGrid.BufferedExample | turf_backend/src/controllers/slotController.js:75-80 | the same window with a 15-minute buffer gives three minute spans; a fourth would overrun the end |
| Slots.ForPair | turf_backend/src/controllers/slotController.js:15-18 | the slots of one turf on one date, as the query's filter selects them; described by Keep's ensures, QueryExact and RegeneratedPair |
| Slots.ExceptPair | turf_backend/src/controllers/slotController.js:40 | the store after `deleteMany` of one turf and date: every other slot, in order; described by Keep's ensures, KeepAppend, RegeneratedPair and RegeneratedOthers |
| Slots.RemoveId | turf_backend/src/controllers/slotController.js:119 | the store after `findByIdAndDelete`: every slot whose id differs; described by RemoveIdAt and RemoveAbsentId |
| Slots.Keep | turf_backend/src/controllers/slotController.js:15-18 | a slot is in the result exactly when it is in the input and satisfies the condition, and no slot occurs more often than in the input; order is stated by KeepAppend and KeepAll |
| Slots.KeepAppend | turf_backend/src/controllers/slotController.js:15-18 | filtering a concatenation is the concatenation of the filtered parts, so kept slots keep their relative order |
| Slots.KeepAll | turf_backend/src/controllers/slotController.js:15-18 | when every slot satisfies the condition, the filter returns the input unchanged, order included |
| Slots.KeepNone | turf_backend/src/controllers/slotController.js:15-18 | when no slot satisfies the condition, the filter returns nothing |
| Slots.KeepKeep | turf_backend/src/controllers/slotController.js:15-40 | filtering what a first filter kept, by a condition that implies the first, is filtering once |
| Slots.SortByStart | turf_backend/src/controllers/slotController.js:20 | the result is sorted ascending by `startTime` and is a permutation of the input |
| Slots.SortedIsChronological | turf_backend/src/controllers/slotController.js:20 | when every start time is zero-padded "HH:MM", sorting by the string puts the slots in time-of-day order |
| Slots.UnpaddedStartMisorders | turf_backend/src/controllers/slotController.js:20-67 | a raw first start "6:00" is earlier in the day than "07:00" but sorts after it as a string |
| Slots.QueryExact | turf_backend/src/controllers/slotController.js:15-20 | the sorted query result contains a slot exactly when that slot is stored with the requested turf and date |
| Slots.IndexOf | turf_backend/src/controllers/slotController.js:100-101 | the lookup by id finds a position exactly when some slot has the id, and that slot's id is the id asked for |
| Slots.Records | turf_backend/src/controllers/slotController.js:64-70 | the definition of the inserted records: one per grid slot, same start and end, the request's turf and date, AVAILABLE, no blocker, ids counted up from the next free id; described by RecordsFresh |
| Slots.Patched | turf_backend/src/controllers/slotController.js:100-104 | the definition of a record after the override: the target's status and blocker replaced, any other record unchanged; used by PatchedAt and UpdateSlotStatus |
| Slots.RegeneratedPair | turf_backend/src/controllers/slotController.js:40-83 | after the delete and the insert, the slots of the regenerated turf and date are exactly the inserted records |
| Slots.RegeneratedOthers | turf_backend/src/controllers/slotController.js:40-83 | the delete and the insert leave the slots of every other turf or date unchanged |
| Slots.RecordsFresh | turf_backend/src/controllers/slotController.js:64-70 | every new record has the request's turf and date, status AVAILABLE, no blocker and a fresh id, and no two of them clash |
| Slots.Regenerated | turf_backend/src/controllers/slotController.js:40-83 | regeneration keeps ids and (turf, date, start) unique, gives the pair exactly the new records, and leaves every other pair unchanged |
| Slots.KeepKeyed | turf_backend/src/controllers/slotController.js:40 | deleting any records keeps the store's keys unique |
| Slots.RemoveIdAt | turf_backend/src/controllers/slotController.js:119 | removing by an id that is present drops exactly the one record at its position and keeps the rest in order |
| Slots.RemoveAbsentId | turf_backend/src/controllers/slotController.js:119-122 | removing an id no slot has leaves every record in place |
| Slots.PatchedAt | turf_backend/src/controllers/slotController.js:100-104 | the override at the target's position changes that record's status and blocker only; every other record stays as it was, and keys stay unique |
| Slots.Missing | turf_backend/src/controllers/slotController.js:9 | the falsiness test on a query parameter: absent or empty; GetSlotsByDate's ensures give 400 exactly when either parameter is missing |
| Slots.SlotStore.GetSlotsByDate | turf_backend/src/controllers/slotController.js:7-22 | 400 with "turfId and date are required" exactly when either parameter is missing or empty; otherwise exactly the slots of that turf and date, sorted ascending by start |
| Slots.SlotStore.GenerateSlots | turf_backend/src/controllers/slotController.js:31-89 | unknown turf: 404 "Turf not found" and the store unchanged; otherwise the pair's slots become the generated grid's records, `count` is the grid's length, the id counter advances by `count`, every other pair is untouched, and the invariant holds |
| Slots.SlotStore.UpdateSlotStatus | turf_backend/src/controllers/slotController.js:98-110 | 404 "Slot not found" exactly when no slot has the id; otherwise only the target's status and blocker change, and the updated slot is returned |
| Slots.SlotStore.DeleteSlot | turf_backend/src/controllers/slotController.js:119-123 | 404 "Slot not found" exactly when no slot has the id; otherwise exactly that slot is removed and the rest stay in order |

## Left out

- Exceptions that become HTTP 500 are not modelled. These include an invalid
  id that cannot be cast and a failed store call.
- TimeGrid.GenerateGrid: the times must be `ValidTime`, two non-empty runs
  of digits around the only colon; anything else is excluded by
  precondition. The code is laxer and less safe.
  - The end is read with `parseInt` on the first two colon-separated fields
    (lines 48-49), so `"10:00:00"` or `"10:00am"` reads as 600.
  - The start is read with `Number` on the first two fields (line 52): extra
    fields are ignored (`"06:00:00"` is 360), and an empty minute field is
    0 (`"06:"` is 360).
  - An end such as `"10"`, `"10:xx"` or `""`, or a start such as `"6"` or
    `"6am"`, reads as `NaN`. Then neither test at lines 55 and 62 is ever
    true, the `while (true)` loop never breaks and keeps pushing slots
    (labelled `"NaN:NaN"` when the start is `NaN`), and the delete at line
    40 has already removed the date's slots.
  - With `endTime` missing, line 48 throws after that delete. With
    `endTime` present but `startTime` missing or not a string, line 52
    throws after it. Either way the request loses the date's slots and
    answers 500.
- TimeGrid.GenerateGrid: a negative duration is excluded by precondition, as
  is a zero duration with no positive buffer, where the loop never advances.
  A zero duration with a positive buffer does terminate, producing
  zero-length slots, and is modelled.
- Slots.SlotStore.GenerateSlots: the malformed-time precondition holds only
  when the turf exists. The 404 path needs no valid times.
- Slots.SortedIsChronological: needs every start string zero-padded "HH:MM"
  before 100:00. The first slot's start is the caller's raw string, so a
  start like `"6:00"` sorts after `"07:00"` in the query
  (`UnpaddedStartMisorders`).
- Clock.FormatOrder: holds only before 100:00. From 100 hours on, a
  three-digit hour breaks agreement between string order and time order.
- Slots.Turf: the duration and buffer are whole numbers. A fractional value
  would make the code write times such as `"06:30.5"`, which is not
  modelled.
- Time arithmetic is on unbounded naturals. The code uses floating-point
  numbers that are exact for every time of day, so no rounding is modelled.
- Slots.SlotStore.UpdateSlotStatus: sets `status` and `blockedBy` to the
  request's values, where an omitted `blockedBy` is `None`. The model's
  status is always one of AVAILABLE, BOOKED and BLOCKED. The code's update
  does not run the schema's enum validation, so it stores any string the
  request sends, and an omitted `status` is nulled or dropped from the
  update the same way as an omitted `blockedBy`. Neither is modelled.
- Loading referenced turf fields (`populate`) is not modelled. It loads
  display fields only.
- Slots.SlotStore.GetSlotsByDate: the order among slots with equal start
  strings is not fixed by the model. The store invariant rules such pairs out
  within one turf and date.
- Concurrent requests are not modelled, and the store's operations are taken
  to be atomic.
- The date is an opaque string, matched by equality. The store keeps a
  calendar date, so two spellings of one day are one date to `find` and
  `deleteMany` at lines 15 and 40, but two dates to `ForPair` and
  `ExceptPair`.
- Authentication, routing and the turf and venue controllers are not part of
  this model, nor is booking. No booking controller is in the modelled code.
