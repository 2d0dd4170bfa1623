# Interview-slot booking engine, modelled in Dafny

This project models the booking core of the Hirely server.

- **Slot lifecycle** (`server/src/routes/slots.js`). A slot is Open, Reserved or CheckedIn. Three routes move it between states: reserve, check-in and cancel. Each route makes one atomic conditional update against the slot store. Only when that update matches nothing does it read the slot again, to choose the error it reports.
- **Block generator** (`server/src/routes/blocks.js`). It validates the slot length and the time window, then stores the block. It computes the half-open sequence of slot start instants and takes a contiguous id range from a persisted counter. It then stores one Open slot per instant. If anything fails after that, it deletes the block and every slot tagged with its blockId.
- **Legacy in-memory routes** (`server/routes/slots.js`). An earlier reserve/cancel over a module-level array whose elements are updated in place.

## Files

- `records.dfy` (module `Records`): the slot document of the Slot schema, the block record, and the slot states. It also holds the per-slot invariant and what the schema accepts on save.
- `database.dfy` (module `Database`): class `Db`, the store. It holds the slot collection as a `map<int, Slot>` keyed by the unique slot id, the blocks keyed by blockId, and the `slotId` counter. Each method is one atomic store operation: `findOne`, `exists`, `findOneAndUpdate` with a filter and a `$set`, `save`, `deleteMany`, `deleteOne`, and the `$inc` upsert.
- `slot_routes.dfy` (module `SlotRoutes`): the lifecycle as a state machine over the whole store (functions `Reserve`, `CheckIn`, `Cancel`, `Get`, `List`). The route handlers (`HandleReserve`, `HandleCheckIn`, `HandleCancel`) do the conditional update and then the disambiguating read against a `Db`. Each handler is proved to give exactly the state machine's reply and new store.
- `blocks.dfy` (module `Blocks`): the slot-time loop, the id allocator, the slot loop with its catch block, and the whole `POST /api/blocks` route. Store failures that the store's contents cannot explain enter as a `Fault` parameter: a failing `block.save()`, a failing counter update, or a failing `slot.save()` at index k. This lets the rollback paths be verified.
- `legacy_slots.dfy` (module `LegacySlots`): class `LegacyStore` over an `array<LegacySlot>`, with its reserve/cancel specified by functions on the array's contents.
- `scenarios.dfy` (module `Scenarios`): concrete requests traced through the model on a fresh store.

Behaviours the model keeps exactly as the code has them:
- A window with `startTime >= endTime` is rejected (400). It does not create an empty block. Every accepted window therefore yields at least one slot.
- A missing or empty candidate name is its own error, NameRequired. In the new routes it is checked after the id parse and before any store access. In the legacy routes it is checked after the existence and reserved checks.
- The check-in route can, as written, fall through its error checks and answer success with a null slot (`server/src/routes/slots.js:96-112`). `SlotRoutes.HandleCheckIn` models that fall-through as the reply `NullSlot`, and its postcondition proves the reply is never `NullSlot`. When the update and the re-read see the same store, the fall-through cannot be reached.
- The Slot schema in `server/src/models/Slot.js` declares no `blockId` path, but the block route writes one and deletes by it. The model keeps `blockId` on the slot, as the route intends.

## Model

| member | source | states |
|---|---|---|
| Records.Validate | server/src/models/Slot.js:9-12 | a slot document is accepted exactly when its required `time` is present, and is stored with the fields it was given |
| Database.WithoutBlock | server/src/routes/blocks.js:90 | `deleteMany({ blockId })` keeps exactly the slots not tagged with that block, unchanged |
| Database.RollbackRestores | server/src/routes/blocks.js:88-93 | when no earlier slot carries the tag, deleting the tag after inserting tagged slots under fresh ids gives back the slot store exactly as it was |
| Database.Db.FindOne | server/src/routes/slots.js:97 | returns the stored slot with that id, or nothing exactly when the id is absent |
| Database.Db.Exists | server/src/routes/slots.js:62 | true exactly when a slot with that id is stored |
| Database.Db.FindOneAndUpdate | server/src/routes/slots.js:55-59 | one atomic step: if the slot exists and matches the filter, the `$set` is applied to it alone and the new document is returned; otherwise nothing changes and nothing is returned |
| Database.Db.SaveBlock | server/src/routes/blocks.js:51 | an error raised before or instead of the insert (validation, a write error) leaves the blocks unchanged; otherwise a blockId already stored is refused as a duplicate key without change, and a fresh one is stored |
| Database.Db.SaveSlot | server/src/routes/blocks.js:73 | validation first, then the unique id, then store failure; only a valid document under a fresh id that hits no failure is stored, and only under its id |
| Database.Db.DeleteSlotsOfBlock | server/src/routes/blocks.js:90 | removes every slot tagged with the blockId and nothing else |
| Database.Db.DeleteBlock | server/src/routes/blocks.js:91 | deleting by this request's `_id` removes the block under that blockId only when this request stored it; otherwise nothing is removed, even when an older block holds the blockId |
| Database.Db.IncrementCounter | server/src/routes/blocks.js:9-13 | the counter, a missing one counting as 0, grows by exactly `count`, and the new value is returned |
| SlotRoutes.SortedKeysComplete | server/src/routes/slots.js:8 | the sorted key sequence lists every key of the set, and exactly as many entries as there are keys |
| SlotRoutes.SortedKeysAscending | server/src/routes/slots.js:8 | the sorted key sequence is strictly ascending |
| SlotRoutes.List | server/src/routes/slots.js:8 | every entry of `Slot.find().sort({ id: 1 })` is a stored slot; `ListIsSortedById` proves the order and that each slot appears |
| SlotRoutes.ListIsSortedById | server/src/routes/slots.js:8 | the listing has one entry per stored slot, each equal to the stored slot, in strictly ascending id order |
| SlotRoutes.Get | server/src/routes/slots.js:18-32 | a non-numeric id gives InvalidId without reading the store; an absent id gives NotFound; otherwise the stored slot unchanged |
| SlotRoutes.Reserve | server/src/routes/slots.js:41-67 | succeeds iff the id is numeric, the name non-empty and the slot Open; otherwise InvalidId, then NameRequired (even for an absent id), then NotFound, then AlreadyReserved, each with the store unchanged; success sets only `reserved`, the name and `checkedIn := false` on that slot (id, time and blockId kept), no other slot changes, and the invariant `checkedIn ⇒ reserved`, `¬reserved ⇒ no name ∧ ¬checkedIn` is preserved |
| SlotRoutes.CheckIn | server/src/routes/slots.js:81-106 | succeeds iff the slot exists and is Reserved; otherwise InvalidId, NotFound, NotReserved for an Open slot, AlreadyCheckedIn for a checked-in one, each with the store unchanged; success sets only `checkedIn` on that slot; the invariant is preserved |
| SlotRoutes.Cancel | server/src/routes/slots.js:121-142 | succeeds iff the slot exists and is Reserved or CheckedIn; otherwise InvalidId, NotFound, or NotReserved for an Open slot, each with the store unchanged; success makes it Open with no name (id, time and blockId kept), nothing else changes; the invariant is preserved |
| SlotRoutes.HandleReserve | server/src/routes/slots.js:43-72 | the name check, the conditional update and the `exists` read yield exactly the reply and store of `Reserve`: NameRequired before the lookup, then NotFound, then AlreadyReserved |
| SlotRoutes.HandleCheckIn | server/src/routes/slots.js:83-112 | the conditional update and the re-read yield exactly `CheckIn`'s reply and store, errors in the order NotFound, NotReserved, AlreadyCheckedIn; the null-slot fall-through is never taken |
| SlotRoutes.HandleCancel | server/src/routes/slots.js:123-147 | the conditional update and the re-read yield exactly `Cancel`'s reply and store: NotFound, then NotReserved |
| SlotRoutes.ReserveRace | server/src/routes/slots.js:55-66 | of two reserves of one Open slot, the first wins, the second gets AlreadyReserved with the store unchanged, and the name is the winner's |
| SlotRoutes.CancelThenReserve | server/src/routes/slots.js:130-134 | after a successful cancel, a reserve of the same slot succeeds and leaves it not checked in under the new name |
| SlotRoutes.CheckInTwice | server/src/routes/slots.js:104-106 | a second check-in right after a successful one fails with AlreadyCheckedIn and changes nothing |
| SlotRoutes.CheckInOpenSlot | server/src/routes/slots.js:101-103 | checking in an unreserved slot fails with NotReserved and changes nothing |
| Blocks.CeilDivBounds | server/src/routes/blocks.js:54-57 | the ceiling quotient k satisfies (k-1)·b < a ≤ k·b |
| Blocks.CeilDivUnique | server/src/routes/blocks.js:54-57 | any k with (k-1)·b < a ≤ k·b is the ceiling quotient |
| Blocks.GenerateSlotTimes | server/src/routes/blocks.js:54-57 | the loop yields start + i·step for each i, every value before the end, and ⌈(end−start)/step⌉ values when start < end |
| Blocks.BatchByIdHolds | server/src/routes/blocks.js:60-76 | the stored batch holds exactly the ids startId … startId+count−1, slot i an Open slot of the block at start + i·step |
| Blocks.BatchWithinWindow | server/src/routes/blocks.js:54-76 | an accepted window gives at least one slot, the first at the start, ids consecutive, every instant in the half-open window, every slot Open, tagged and consistent |
| Blocks.BatchIncreasing | server/src/routes/blocks.js:63-76 | the created slots are in strictly ascending id and time order |
| Blocks.SlotFieldsFor | server/src/routes/blocks.js:64-71 | the intended slot fields validate to an Open slot with that id, block tag and instant |
| Blocks.SlotFieldsAsWritten | server/src/routes/blocks.js:64-71 | the slot document as the route builds it, after the schema drops the undeclared `slotDateTime` and `blockId`, keeps the id, carries no tag, and is refused by schema validation |
| Blocks.AsWrittenSlotNeverValidates | server/src/routes/blocks.js:67 | the fields as written never pass schema validation, whatever the id and instant |
| Blocks.AllocateSlotIds | server/src/routes/blocks.js:8-17 | returns old+1, a missing counter counting as 0, and advances the counter by exactly `count`; the `\|\| count` fallback never changes the result |
| Blocks.AllocateTwice | server/src/routes/blocks.js:8-17 | successive allocations hand out adjacent, disjoint ranges, and the counter only grows |
| Blocks.HandleAsWritten | server/src/routes/blocks.js:84-93 | the catch block as written: a duplicate key, whichever save raised it, is answered as a blockId conflict without cleanup, and every other error is cleaned up |
| Blocks.Handle | server/src/routes/blocks.js:83-93 | the intended catch block: a blockId conflict exactly for a duplicate key raised by `block.save()`; any failure of `block.save()` is reported without cleanup; every later failure is cleaned up |
| Blocks.Recover | server/src/routes/blocks.js:83-95 | a conflict, or a failure with nothing to clean, leaves the store alone; a cleanup deletes every slot tagged with the blockId and the block only if this request stored it, and answers a server error |
| Blocks.AsWrittenSlotIdClash | server/src/routes/blocks.js:84-86 | traced through the store, reachable once line 67 writes `time` (as written, validation fails first and the request is cleaned up with a 500): slot 1 stored and no counter, the new block's first slot save clashes, the catch block as written answers BlockIdConflict and keeps the new block, while the intended one cleans up |
| Blocks.AsWrittenBlockSaveFailure | server/src/routes/blocks.js:88-93 | traced through the store: a failed `block.save()` under a blockId an older block holds (its tagged slots written by a route with line 67 corrected, or by another writer), and the catch block as written deletes that older block's slots while the block stays; the intended one reports the failure without cleanup |
| Blocks.SaveSlots | server/src/routes/blocks.js:60-82 | with no slot-save failure, slot i is stored as an Open slot with id startId+i at instant i and the reply lists them in order; on a failure at any index the slots are exactly as before and the block is removed |
| Blocks.FillBlock | server/src/routes/blocks.js:51-82 | once the block is stored: success adds its ⌈(end−start)/(len·60000)⌉ Open slots with ids right above the counter and advances the counter by that count; a failed allocation or slot save removes the block, restores the slots and keeps the store invariant |
| Blocks.BatchKeepsValid | server/src/routes/blocks.js:59-76 | a batch stored under the ids right above the counter, with the counter advanced past it, keeps every slot id at or below the counter and every tag naming a stored block |
| Blocks.CreateBlock | server/src/routes/blocks.js:21-97 | an invalid length or window, a failed block save, or a taken blockId changes nothing. Success stores the block, ⌈(end−start)/(len·60000)⌉ Open slots with consecutive ids above the old counter, and the counter advanced by that count. Any other failure restores blocks and slots exactly; an advanced counter is not reclaimed |
| Blocks.CreateTwoBlocks | server/src/routes/blocks.js:59-60 | two successive block creations never hand out the same slot id |
| LegacySlots.InitialSlots | server/routes/slots.js:5-9 | ids 1, 2, 3; only id 3 is reserved, for "Tom"; reserved exactly when named |
| LegacySlots.FindIndex | server/routes/slots.js:21 | the position of the first slot with that id, or none when no slot has it (a non-numeric id matches none) |
| LegacySlots.Reserve | server/routes/slots.js:17-45 | NotFound, then AlreadyReserved, then NameRequired, each with the array unchanged; success sets `reserved` and the name on that slot only, length and order kept; `reserved ⇔ name ≠ null` is preserved |
| LegacySlots.Cancel | server/routes/slots.js:50-64 | NotFound, then NotReserved, each with the array unchanged; success releases that slot and clears its name only; the invariant is preserved |
| LegacySlots.FindIndexAfterUpdate | server/routes/slots.js:39-40 | updating a slot in place without touching its id leaves every lookup's result unchanged |
| LegacySlots.CancelThenReserve | server/routes/slots.js:59-60 | after a successful cancel, reserving the same id under a non-empty name succeeds |
| LegacySlots.LegacyStore.constructor | server/routes/slots.js:5-9 | the array starts with the initial three slots |
| LegacySlots.LegacyStore.HandleList | server/routes/slots.js:12-14 | returns the array as it is |
| LegacySlots.LegacyStore.HandleReserve | server/routes/slots.js:17-47 | the `find` and the two in-place field assignments give exactly `Reserve`'s reply and contents |
| LegacySlots.LegacyStore.HandleCancel | server/routes/slots.js:50-65 | the `find` and the two in-place field assignments give exactly `Cancel`'s reply and contents |
| Scenarios.HourBlockThenReserveTwice | server/src/routes/blocks.js:54-76 | a 10:00-11:00 window with 20-minute slots gives exactly three slots, 1, 2, 3 at 10:00, 10:20, 10:40; reserving slot 1 for "Tom" succeeds, and repeating it gives AlreadyReserved |
| Scenarios.ReserveTwice | server/src/routes/slots.js:55-66 | the same reserve sent twice for an Open slot: the first succeeds under the name, the repeat gets AlreadyReserved |
| Scenarios.DuplicateBlockId | server/src/routes/blocks.js:84-86 | a second block under a taken blockId gets BlockIdConflict; the slot store after it equals the store before it, with the first block's two slots, and the first block stays |

## Findings

| source | as written | input that shows it | evidently intended | confidence | as-written member | corrected member |
|---|---|---|---|---|---|---|
| server/src/routes/blocks.js:67 | the slot's instant is passed as `slotDateTime`, a path the Slot schema does not declare, so it is dropped and the required `time` path (server/src/models/Slot.js:9-12) is missing | a block from 10:00 to 11:00 with 20-minute slots and a fresh blockId: the first `slot.save()` fails validation, the block is rolled back and the answer is 500 | the instant is stored under `time`, and every slot save can succeed | high, not executed | Blocks.SlotFieldsAsWritten, Blocks.AsWrittenSlotNeverValidates | Blocks.SlotFieldsFor |
| server/src/routes/blocks.js:84-86 | every error with code 11000 is answered as a blockId clash, with no cleanup. This includes a slot-id clash raised by `slot.save()` after the block was stored | reachable once line 67 writes `time` (as written, every slot save fails validation first and is cleaned up with a 500): no counter document yet while a slot with id 1 is already stored, the first slot save clashes, the answer is 409 "blockId already exists", and the new block stays stored | only a clash raised by `block.save()` is a blockId conflict; a later clash is rolled back like any other failure | medium, not executed | Blocks.AsWrittenSlotIdClash | Blocks.Handle |
| server/src/routes/blocks.js:88 | `block?._id` is set by `new Block(...)` (line 34) whether or not `block.save()` succeeded, so the cleanup also runs after a failed block save, and `Slot.deleteMany({ blockId })` removes the slots of whichever block holds that blockId | block "B" stored with slots tagged "B" (written by a route with line 67 corrected, or by another writer of the collection, since this route as written stores no slots); a second request for "B" whose `block.save()` fails with an error other than 11000 (a validation or write error): the answer is 500 and the older block's slots are deleted while that block stays | clean up only after this request's block was stored; a failed block save changes nothing | medium, not executed | Blocks.AsWrittenBlockSaveFailure | Blocks.Handle |

`Blocks.CreateBlock` uses the corrected slot fields and the corrected catch block. Under the store invariant `Db.Valid`, no slot id lies above the counter, so a slot-id clash cannot happen at all. The third finding depends on the tag being kept on the slots (see the strict-mode line under "## Left out"); where the tag filter is stripped instead, the same cleanup deletes every slot.

## Left out

- Blocks.CreateBlock: requires the store invariant `Db.Valid`. That is: slots are keyed by id, no slot id lies above the counter, and every block tag names a stored block. The route itself checks none of this. Without it, a fresh id range could clash with an existing slot (the second finding), and the rollback could also delete older slots that carry the same tag.
- Blocks.CreateTwoBlocks: requires `Db.Valid`, for the same reason.
- HTTP plumbing (Express routers, status codes, JSON bodies, messages, console logging) and the entry points `server/index.js` and `server/src/index.js` are not part of this model. Replies are datatypes whose constructors name the error kinds.
- The 500 answers of the slot routes come from exceptions raised by the store. The model's store operations always complete, so these answers are not modelled.
- Concurrency: each `findOneAndUpdate`, `$inc`, insert and delete is one atomic step of a sequential model. Races between requests are not modelled. `ReserveRace` covers two reserves only in sequence. The two cleanup deletes run under `Promise.all` in the source; here they are two sequential steps.
- Request parsing: `parseInt` is modelled only as numeric (`Some(n)`) or not (`None`). The legacy routes compare with NaN, which matches no slot, so a non-numeric id there gives NotFound. Dates are integer milliseconds and `slotLength` an integer number of minutes. Unparseable dates, fractional lengths and non-numeric strings that slip past `!slotLength || slotLength <= 0` are not modelled. A fractional length below 1/60000 of a minute adds less than one millisecond per step, which `new Date(...)` truncates away, so the loop at `server/src/routes/blocks.js:54-57` never ends once the block is saved; the model's integer lengths cannot express this.
- The Block schema is not part of this model. A `block.save()` failure other than a blockId clash (validation, a write error) enters as the fault `BlockSaveFails`, and takes precedence over a clash.
- Which document shape the MongoDB driver returns from `findOneAndUpdate` (`result.value` or the document itself) cannot be told from the source. The model takes the intended contract: the counter's new value is returned. Where the driver returns the document itself, `result.value` is undefined, every allocation starts at id 1, and the slot-id clash of the second finding follows from the second block on.
- The Slot schema has no `blockId` path. Under strict mode that tag is dropped on save. What the cleanup's `deleteMany({ blockId })` then does depends on the Mongoose version, which the source does not fix: with `strictQuery` off (the default from Mongoose 7) the filter matches no slots and nothing is deleted; with `strictQuery` following `strict` (the default in Mongoose 6) the undeclared path is stripped from the filter and every slot in the collection is deleted. The model stores the tag and filters by it, as the route intends.
- A failure of the cleanup deletes themselves (best-effort rollback) is not modelled. Both deletes always complete.
- The schema's `time` is a string path; the model stores the instant as integer milliseconds.
