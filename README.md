# ForgeSiteDiary core, modelled in Dafny

ForgeSiteDiary is a construction-site daily log. This project models the four pieces of its
logic that are not rendering or storage glue, and proves what they promise:

- **Item rollover** (`rollover.dfy`, module `Rollover`). `ShouldRollover` is the per-type
  rule. Each of the five item types has one terminal status, and an unknown type never rolls.
  `RolloverItems` is the pure filter-and-map that carries the open items of one day-entry to
  the next. Each carried item gets a fresh id, the new day-entry id, a one-hop
  `rolledFromItemId`, a shared timestamp and no `closedAt`. The id generator is injected as
  `freshId: nat -> Uuid`: the k-th carried item gets `freshId(k)`, because the map calls the
  generator once per carried item, in order. `KeptPositions` is an independent description of
  which inputs must survive, and the lemmas tie the filter to it: the output is exactly the
  qualifying inputs, in order. Inputs are Dafny values, so neither the input list nor its
  items can be modified.
- **Daily-entry table** (`daily_entry_store.dfy`, module `DailyEntryStore`). The class
  `DailyEntryTable` holds the module-level `dailyEntries` array as a `seq` and the `loaded`
  flag. The pure functions `AfterLoad`, `GetOrCreate` and `Update` specify its methods; the
  lemmas about those functions cover uniqueness per (job, day), idempotence of find-or-create
  and the shallow-merge update.
- **Priority summary** (`priority_summary.dfy`, module `PrioritySummary`). A loop over the
  item list fills four counters. Each counter is proved equal to a count of the items
  satisfying a predicate. "Due before now" is the caller's predicate `beforeNow`.
- **UUID text** (`uuid.dfy`, module `Uuid`). This is the `getRandomValues` branch of `uuid()`.
  It forces the version and variant bits in place in a 16-byte array, as section 4.4 of
  RFC 4122 requires for version 4. It then renders the 8-4-4-4-12 lowercase hex text. A
  decoder is proved inverse to the renderer in both directions.

`domain.dfy` (module `Domain`) holds the item datatypes of `src/types/domain.ts`. Optional
properties are `Option` values, and `ItemType` has an extra `Unknown(tag)` constructor. Records
are untyped at run time, so the fail-closed default branch of `shouldRollover` is reachable.

`RolloverItems` copies `status` unchanged, as the spread at `src/lib/rollover/rollover.ts:28`
does; only the fields overridden at lines 29-34 change. Output ids are fresh only if the id
supply is: `RolledIdsAreFresh` proves them pairwise distinct and distinct from every input id
under the hypothesis that `freshId` is injective and avoids the input ids.

## Model

| member | source | states |
|---|---|---|
| `Rollover.ShouldRollover` | src/lib/rollover/rollover.ts:3-18 | true exactly when the item's type has a terminal status and the item is not in it; never true for an unknown type |
| `Rollover.ShouldRolloverTable` | src/lib/rollover/rollover.ts:4-16 | the rule table: task/done, material/delivered, issue/resolved, delay/closed, email/sent, and the fail-closed default for any other type |
| `Rollover.Carried` | src/lib/rollover/rollover.ts:25 | the filter returns no more items than it is given, and only input items that satisfy the predicate |
| `Rollover.KeptPositionsExact` | src/lib/rollover/rollover.ts:25 | the reference positions are increasing and are exactly the indices of the qualifying inputs |
| `Rollover.CarriedSelects` | src/lib/rollover/rollover.ts:25 | the filter's k-th output is the input at the k-th qualifying position: exactly the qualifying inputs, in their original order |
| `Rollover.CarriedAllQualify` | src/lib/rollover/rollover.ts:25 | a list whose items all qualify passes through the filter unchanged |
| `Rollover.RolloverItems` | src/lib/rollover/rollover.ts:20-36 | one output per qualifying input, in order, never more than the input and none for an empty input; each has the k-th fresh id, the new day-entry id, `rolledFromItemId` = its source's id (an earlier lineage is overwritten), `createdAt` = `updatedAt` = the given timestamp, no `closedAt`, every other field copied, and is itself still open |
| `Rollover.RolledIdsAreFresh` | src/lib/rollover/rollover.ts:29 | with an injective id supply that avoids the input ids, output ids are pairwise distinct and collide with no input id |
| `Rollover.RolledBatchRollsAgain` | src/lib/rollover/rollover.ts:27-35 | rolling a rolled batch carries all of it, and the second generation's lineage points at the first generation's ids (one hop only) |
| `Rollover.RolloverScenario` | src/lib/rollover/rolloverTest.ts:9-47 | the self-test fixture: of items 1 (open task), 2 (ordered material) and 3 (done task), rolling to `day2` gives two items rolled from 1 and 2, in that order, with their titles, `day2` and fresh ids |
| `PrioritySummary.CalculatePrioritySummary` | src/lib/domain/prioritySummary.ts:11-40 | `critical` and `high` count the non-done items of that priority; `ordered` counts the non-done materials with status ordered; `overdue` counts the non-done items with a non-empty due date before now |
| `PrioritySummary.SummaryBounds` | src/lib/domain/prioritySummary.ts:21-37 | every counter, and `critical + high` together, is at most the number of non-done items |
| `PrioritySummary.DoneItemsCountNothing` | src/lib/domain/prioritySummary.ts:22 | done items contribute to no counter; an empty list gives all four counters at 0 |
| `PrioritySummary.TerminalButNotDoneStillCounts` | src/lib/domain/prioritySummary.ts:22-24 | an item in any status other than done, including delivered, resolved, closed or sent, still adds one to the critical counter if its priority is critical, and to the high counter if it is high |
| `PrioritySummary.CountSnoc` | src/lib/domain/prioritySummary.ts:21-37 | one more item raises a counter by one exactly when it satisfies that counter's test |
| `Uuid.ByteToHexDigits` | src/lib/domain/uuid.ts:18 | `toString(16).padStart(2, "0")` gives exactly two lowercase digits, high nibble first |
| `Uuid.Stamp` | src/lib/domain/uuid.ts:15-16 | byte 6 gets version nibble 4 and keeps its low nibble; byte 8 gets variant bits 10 and keeps its low 6 bits; the other 14 bytes are unchanged |
| `Uuid.StampIdempotent` | src/lib/domain/uuid.ts:15-16 | forcing the bits twice is forcing them once |
| `Uuid.SetVersionAndVariant` | src/lib/domain/uuid.ts:15-16 | the in-place update leaves the array holding the stamped bytes |
| `Uuid.JoinLayout` | src/lib/domain/uuid.ts:19-25 | the concatenation has length 36, dashes at 8, 13, 18 and 23, and the pair of byte k at its fixed position |
| `Uuid.FormatLayout` | src/lib/domain/uuid.ts:18-25 | the rendering puts every dash and each byte's two digits where they belong |
| `Uuid.FormatWellFormed` | src/lib/domain/uuid.ts:18-25 | the rendering has 36 characters, dashes at the four fixed positions and lowercase hex digits everywhere else |
| `Uuid.Decode` | src/lib/domain/uuid.ts:19-25 | the decoder accepts exactly the well-formed texts and yields 16 bytes |
| `Uuid.DecodeFormat` | src/lib/domain/uuid.ts:18-25 | decoding a rendering gives back the rendered bytes |
| `Uuid.FormatDecode` | src/lib/domain/uuid.ts:18-25 | rendering the decoded bytes gives back any well-formed text |
| `Uuid.UuidFromRandomBytes` | src/lib/domain/uuid.ts:10-26 | the result is well formed, has `4` at index 14 and one of `8`, `9`, `a`, `b` at index 19, and decodes to the random bytes with only the version and variant bits forced |
| `DailyEntryStore.AsEntry` | src/lib/domain/dailyEntryStore.ts:30-31 | a record that passed the shape check keeps its string id, jobId and date |
| `DailyEntryStore.LoadedEntries` | src/lib/domain/dailyEntryStore.ts:27-33 | loading keeps no more entries than there are stored records |
| `DailyEntryStore.LoadedEntriesAppend` | src/lib/domain/dailyEntryStore.ts:28-33 | the loader works record by record: loading a concatenation is concatenating the loads |
| `DailyEntryStore.LoadedEntriesAllShaped` | src/lib/domain/dailyEntryStore.ts:28-33 | well-shaped records are all kept, in order |
| `DailyEntryStore.LoadedEntriesFromShaped` | src/lib/domain/dailyEntryStore.ts:30-31 | every loaded entry comes from a stored record whose id, jobId and date are strings |
| `DailyEntryStore.LoadedEntriesDropsMalformed` | src/lib/domain/dailyEntryStore.ts:30 | a record failing the shape check contributes nothing |
| `DailyEntryStore.FindIndex` | src/lib/domain/dailyEntryStore.ts:75 | `findIndex` returns the first index satisfying the test, or -1 exactly when none does |
| `DailyEntryStore.GetOrCreate` | src/lib/domain/dailyEntryStore.ts:52-69 | with an entry for the job and today, the first such entry is returned and the table is unchanged; otherwise one blank entry (given id, job, today, empty summaries, given timestamp) is appended and returned |
| `DailyEntryStore.GetOrCreateCounts` | src/lib/domain/dailyEntryStore.ts:54-67 | the count of entries for (job, today) becomes 1 if it was 0 and is otherwise unchanged; every other (job, date) count is unchanged |
| `DailyEntryStore.GetOrCreatePreservesUniqueDays` | src/lib/domain/dailyEntryStore.ts:54-67 | a table with one entry per (job, date) keeps that property |
| `DailyEntryStore.GetOrCreateIdempotent` | src/lib/domain/dailyEntryStore.ts:54-67 | a second call on the same day returns the same entry and leaves the table unchanged, whatever id and time it gets |
| `DailyEntryStore.MergeEmptyPatch` | src/lib/domain/dailyEntryStore.ts:78 | an empty patch leaves the entry as it was |
| `DailyEntryStore.MergeIdempotent` | src/lib/domain/dailyEntryStore.ts:78 | applying a patch twice is applying it once |
| `DailyEntryStore.MergeCompose` | src/lib/domain/dailyEntryStore.ts:78 | two successive patches act as their combined spread |
| `DailyEntryStore.MergeOverwritesKeys` | src/lib/domain/dailyEntryStore.ts:78 | a patch carrying `id`, `jobId` or `date`, each on its own, overwrites that field: key fields are not protected |
| `DailyEntryStore.Update` | src/lib/domain/dailyEntryStore.ts:72-81 | no entry with the id: result undefined and table unchanged; otherwise only the first index with the id is replaced by its merge with the patch, which is returned, and length and all other indices are unchanged |
| `DailyEntryStore.UpdateMissingId` | src/lib/domain/dailyEntryStore.ts:75-76 | an id not in the table gives undefined and an unchanged table |
| `DailyEntryStore.DailyEntryTable.constructor` | src/lib/domain/devStore.ts:11 | the table starts empty and not loaded |
| `DailyEntryStore.DailyEntryTable.EnsureLoaded` | src/lib/domain/dailyEntryStore.ts:13-37 | the first call replaces, not appends, the table with the well-shaped stored records when storage yields a parsed array, and leaves it as it was otherwise; the flag is set; later calls change nothing |
| `DailyEntryStore.DailyEntryTable.GetOrCreateTodayEntry` | src/lib/domain/dailyEntryStore.ts:49-70 | loads once, then the new table and the returned entry are those of `GetOrCreate` on the loaded table |
| `DailyEntryStore.DailyEntryTable.UpdateDailyEntry` | src/lib/domain/dailyEntryStore.ts:72-81 | loads once, then the new table and the result are those of `Update` on the loaded table |
| `DailyEntryStore.SecondCallSameDay` | src/lib/domain/dailyEntryStore.ts:14-15 | on one table, the second call on the same day ignores what storage now holds, returns the first call's entry and leaves the table as it was |

## Left out

- Storage I/O: `isBrowser`, `localStorage` reads and writes, `JSON.parse` and `JSON.stringify`
  and the swallowed exceptions are not modelled (`src/lib/domain/dailyEntryStore.ts:9-24,34-47`).
  The loader takes what storage yields as `stored`. `None` covers no browser, no stored
  text, an empty text, a parse error and a non-array. `save` writes only to storage, so the
  in-memory model omits it.
- Stored records: an object's properties other than `id`, `jobId` and `date` are taken to
  be strings, as `save` writes them. A tampered record with a non-string summary is not
  representable.
- Patches: a `Partial<DailyEntry>` property set explicitly to `undefined` would overwrite
  as `undefined`. A `Patch` can only carry or omit a property.
- Aliasing: `find` returns a reference into the array, which a caller could mutate later.
  The model returns entry values, so such a mutation is not captured.
- Randomness: `crypto.randomUUID` (rollover ids and daily-entry ids) and
  `crypto.getRandomValues` become the parameters `freshId`, `newId` and `random`.
- `uuid()`'s branch that calls `crypto.randomUUID` directly (`src/lib/domain/uuid.ts:5-7`) and its
  last-resort branch built on `Math.random`, `Date.now` and `performance.now`
  (`src/lib/domain/uuid.ts:28-42`): these are a foreign call and floating point with a clock;
  only the byte-based branch is modelled.
- Dates: `todayLocalDate` and `nowISO` (`src/lib/domain/dates.ts`) are parameters, `today` and
  `now`. The overdue test's `new Date(...)` parsing and comparison becomes the predicate
  `beforeNow`.
- `calculatePrioritySummary` reads the global `items` array; the model passes the list in.
- `rolloverTest.ts` clears and fills the global item store. Only its fixture is modelled,
  by `RolloverScenario`.
- Item statuses are the twelve of the `ItemStatus` union. A stored status outside it is not
  representable; an unknown type is.
- Page rendering, seed data and the bare store arrays of `devStore.ts` are not part of this
  model. The arrays become the state of `DailyEntryTable` and function parameters.
