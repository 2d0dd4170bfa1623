/**
 * The block generator of server/src/routes/blocks.js: validate the request,
 * store the block, compute the half-open sequence of slot start instants,
 * take a contiguous id range from the counter, store one Open slot per
 * instant, and on a failure after the block was stored delete the block and
 * every slot tagged with its blockId. Failures of the store that the model
 * cannot derive from the store's own contents enter as a Fault parameter.
 */
module Blocks {
  import opened Records
  import opened Database

  const MsPerMinute: int := 60000

  /** The request body; instants are in milliseconds, `slotLength` in minutes (None when absent). */
  datatype Request = Request(
    blockId: string,
    interviewerName: string,
    startTime: int,
    endTime: int,
    slotLength: Option<int>)

  /** Store failures that are not a unique-index clash, by the step that raises them. */
  datatype Fault = NoFault | BlockSaveFails | AllocationFails | SlotSaveFailsAt(index: nat)

  datatype BlockError =
    | SlotLengthInvalid  // 400
    | WindowInvalid      // 400
    | BlockIdConflict    // 409
    | ServerError        // 500

  datatype BlockReply = Created(block: Block, slots: seq<Slot>) | Rejected(error: BlockError)

  /* ---------- Arithmetic of the time window ---------- */

  function CeilDiv(a: nat, b: nat): nat
    requires b > 0
  {
    (a + b - 1) / b
  }

  lemma MulMonotone(x: int, y: int, b: int)
    requires x <= y && b >= 0
    ensures x * b <= y * b
  {
    assert y * b - x * b == (y - x) * b;
  }

  /** CeilDiv(a, b) is the least k with a <= k * b. */
  lemma CeilDivBounds(a: nat, b: nat)
    requires b > 0
    ensures (CeilDiv(a, b) - 1) * b < a <= CeilDiv(a, b) * b
  {
    var q := CeilDiv(a, b);
    var r := (a + b - 1) % b;
    assert a + b - 1 == q * b + r;
    assert (q - 1) * b == q * b - b;
  }

  /** Any k with (k - 1) * b < a <= k * b is CeilDiv(a, b). */
  lemma CeilDivUnique(a: nat, b: nat, k: int)
    requires b > 0
    requires (k - 1) * b < a <= k * b
    ensures k == CeilDiv(a, b)
  {
    var q := CeilDiv(a, b);
    CeilDivBounds(a, b);
    if k < q {
      MulMonotone(k, q - 1, b);
    } else if k > q {
      MulMonotone(q, k - 1, b);
    }
  }

  /**
   * The slot-time loop: starting at `start`, push the current instant and
   * advance by `step` while it is before `end`.
   */
  method GenerateSlotTimes(start: int, end: int, step: int) returns (times: seq<int>)
    requires step > 0
    ensures |times| == if start < end then CeilDiv(end - start, step) else 0
    ensures forall i | 0 <= i < |times| :: times[i] == start + i * step
    ensures forall i | 0 <= i < |times| :: times[i] < end
  {
    times := [];
    var current := start;
    while current < end
      invariant current == start + |times| * step
      invariant forall i | 0 <= i < |times| :: times[i] == start + i * step && times[i] < end
      invariant |times| > 0 ==> current - step < end
      decreases end - current
    {
      times := times + [current];
      current := current + step;
    }
    if start < end {
      CeilDivUnique(end - start, step, |times|);
    }
  }

  /* ---------- Slots of a block ---------- */

  function OpenSlot(id: int, blockId: string, time: int): Slot {
    Slot(id, Some(blockId), time, false, None, false)
  }

  /** The `count` slots of a block, in order: consecutive ids from `firstId`, instants `step` apart. */
  function Batch(firstId: int, blockId: string, start: int, step: int, count: nat): seq<Slot> {
    seq(count, i requires 0 <= i < count => OpenSlot(firstId + i, blockId, start + i * step))
  }

  /** The same slots as stored, keyed by id. */
  function BatchById(firstId: int, blockId: string, start: int, step: int, count: nat): map<int, Slot> {
    if count == 0 then map[]
    else
      BatchById(firstId, blockId, start, step, count - 1)
        [firstId + count - 1 := OpenSlot(firstId + count - 1, blockId, start + (count - 1) * step)]
  }

  /** The keyed batch holds exactly the ids [firstId, firstId + count), each slot under its own id. */
  lemma {:induction false} BatchByIdHolds(firstId: int, blockId: string, start: int, step: int, count: nat)
    ensures forall id :: id in BatchById(firstId, blockId, start, step, count) <==> firstId <= id < firstId + count
    ensures forall id | id in BatchById(firstId, blockId, start, step, count) ::
              BatchById(firstId, blockId, start, step, count)[id] == OpenSlot(id, blockId, start + (id - firstId) * step)
  {
    if count > 0 {
      BatchByIdHolds(firstId, blockId, start, step, count - 1);
      var m0 := BatchById(firstId, blockId, start, step, count - 1);
      var last := firstId + count - 1;
      var m := BatchById(firstId, blockId, start, step, count);
      assert m == m0[last := OpenSlot(last, blockId, start + (last - firstId) * step)];
      forall id ensures id in m <==> firstId <= id < firstId + count {
        assert id in m <==> id in m0 || id == last;
      }
      forall id | id in m ensures m[id] == OpenSlot(id, blockId, start + (id - firstId) * step) {
        if id != last {
          assert m[id] == m0[id];
        }
      }
    }
  }

  /** Ids below the batch's first id never clash with the next id of the batch. */
  lemma NextIdFresh(before: map<int, Slot>, firstId: int, blockId: string, start: int, step: int, count: nat)
    requires forall k | k in before :: k < firstId
    ensures firstId + count !in before + BatchById(firstId, blockId, start, step, count)
  {
    BatchByIdHolds(firstId, blockId, start, step, count);
  }

  /** Deleting the block's slots after part of its batch was stored gives back the earlier slots. */
  lemma BatchRollback(before: map<int, Slot>, firstId: int, blockId: string, start: int, step: int, count: nat)
    requires forall k | k in before :: k < firstId && before[k].blockId != Some(blockId)
    ensures WithoutBlock(before + BatchById(firstId, blockId, start, step, count), blockId) == before
  {
    BatchByIdHolds(firstId, blockId, start, step, count);
    RollbackRestores(before, BatchById(firstId, blockId, start, step, count), blockId);
  }

  /** Storing the next slot of a batch extends both views of the batch by that slot. */
  lemma BatchStep(before: map<int, Slot>, firstId: int, blockId: string, start: int, step: int, count: nat)
    ensures var next := OpenSlot(firstId + count, blockId, start + count * step);
            && (before + BatchById(firstId, blockId, start, step, count))[firstId + count := next]
               == before + BatchById(firstId, blockId, start, step, count + 1)
            && Batch(firstId, blockId, start, step, count + 1) == Batch(firstId, blockId, start, step, count) + [next]
  {
    var next := OpenSlot(firstId + count, blockId, start + count * step);
    UnionUpdate(before, BatchById(firstId, blockId, start, step, count), firstId + count, next);
    BatchSnoc(firstId, blockId, start, step, count);
  }

  lemma NothingTaggedNothingDeleted(slots: map<int, Slot>, bid: string)
    requires forall k | k in slots :: slots[k].blockId != Some(bid)
    ensures WithoutBlock(slots, bid) == slots
  {
    var r := WithoutBlock(slots, bid);
    forall k | k in slots ensures k in r && r[k] == slots[k] {
      assert slots[k].blockId != Some(bid);
    }
    assert r.Keys == slots.Keys;
  }

  lemma UnionUpdate(a: map<int, Slot>, b: map<int, Slot>, k: int, v: Slot)
    ensures (a + b)[k := v] == a + b[k := v]
  {
  }

  lemma BatchSnoc(firstId: int, blockId: string, start: int, step: int, count: nat)
    ensures Batch(firstId, blockId, start, step, count + 1)
            == Batch(firstId, blockId, start, step, count) + [OpenSlot(firstId + count, blockId, start + count * step)]
  {
  }

  lemma CeilDivPositive(a: nat, b: nat)
    requires a > 0 && b > 0
    ensures CeilDiv(a, b) >= 1
  {
    CeilDivBounds(a, b);
  }

  /**
   * The slots of an accepted window: at least one; the first starts at the
   * window's start; ids are consecutive from `firstId`; every instant lies
   * in the half-open window; every slot is Open, tagged with the block and
   * consistent.
   */
  lemma BatchWithinWindow(firstId: int, blockId: string, start: int, end: int, step: int)
    requires step > 0 && start < end
    ensures var b := Batch(firstId, blockId, start, step, CeilDiv(end - start, step));
            && |b| >= 1 && b[0].time == start
            && (forall i | 0 <= i < |b| ::
                  && b[i].id == firstId + i && start <= b[i].time < end
                  && b[i].blockId == Some(blockId) && IsOpen(b[i]) && Consistent(b[i]))
  {
    var n := CeilDiv(end - start, step);
    var b := Batch(firstId, blockId, start, step, n);
    CeilDivPositive(end - start, step);
    CeilDivBounds(end - start, step);
    forall i | 0 <= i < n ensures start <= b[i].time < end {
      assert b[i].time == start + i * step;
      MulMonotone(0, i, step);
      MulMonotone(i, n - 1, step);
    }
  }

  /** Later slots of a batch have larger ids and later instants. */
  lemma BatchIncreasing(firstId: int, blockId: string, start: int, step: int, count: nat)
    requires step > 0
    ensures var b := Batch(firstId, blockId, start, step, count);
            forall i, j | 0 <= i < j < |b| :: b[i].id < b[j].id && b[i].time < b[j].time
  {
    var b := Batch(firstId, blockId, start, step, count);
    forall i, j | 0 <= i < j < count ensures b[i].id < b[j].id && b[i].time < b[j].time {
      assert b[i] == OpenSlot(firstId + i, blockId, start + i * step);
      assert b[j] == OpenSlot(firstId + j, blockId, start + j * step);
      LaterInstant(start, step, i, j);
    }
  }

  lemma LaterInstant(start: int, step: int, i: int, j: int)
    requires step > 0 && i < j
    ensures start + i * step < start + j * step
  {
    MulMonotone(i + 1, j, step);
  }

  /* ---------- Slot documents ---------- */

  /** The fields the generator intends for one slot: the instant under the schema's `time` path. */
  function SlotFieldsFor(id: int, blockId: string, time: int): (f: SlotFields)
    ensures Validate(f) == Some(OpenSlot(id, blockId, time))
  {
    SlotFields(id, Some(blockId), Some(time), false, None, false)
  }

  /**
   * The fields as the route writes them and the Slot schema keeps them: the
   * instant goes under `slotDateTime` and the tag under `blockId`, paths the
   * schema does not declare, so strict mode drops both and the required
   * `time` is missing.
   */
  function SlotFieldsAsWritten(id: int, blockId: string, time: int): (f: SlotFields)
    ensures f.id == id && f.blockId.None?
    ensures Validate(f).None?
  {
    SlotFields(id, None, None, false, None, false)
  }

  /** As written, no slot document passes validation, so every slot save fails. */
  lemma AsWrittenSlotNeverValidates(id: int, blockId: string, time: int)
    ensures Validate(SlotFieldsAsWritten(id, blockId, time)) == None
    ensures Validate(SlotFieldsFor(id, blockId, time)).Some?
  {
  }

  /* ---------- Id allocation ---------- */

  /**
   * `allocateSlotIds(count)`: one atomic `$inc` of the counter (created on
   * first use), then `endSeq - count + 1` where `endSeq` is the new value, or
   * `count` when that value is 0. Returns the first id of the range
   * [old + 1, old + count], old being 0 for a missing counter.
   */
  method AllocateSlotIds(db: Db, count: nat) returns (startId: int)
    modifies db`counter
    ensures startId == old(db.CounterValue()) + 1
    ensures db.counter == Some(old(db.CounterValue()) + count)
  {
    var after := db.IncrementCounter(count);
    var endSeq := if after != 0 then after else count;
    startId := endSeq - count + 1;
  }

  /** Successive allocations hand out adjacent, disjoint ranges, and the counter only grows. */
  method AllocateTwice(db: Db, m: nat, n: nat) returns (first: int, second: int)
    modifies db`counter
    ensures first == old(db.CounterValue()) + 1
    ensures second == first + m
    ensures db.CounterValue() == old(db.CounterValue()) + m + n
  {
    first := AllocateSlotIds(db, m);
    second := AllocateSlotIds(db, n);
  }

  /* ---------- Failure handling ---------- */

  datatype Stage = AtBlockSave | AtAllocation | AtSlotSave

  /**
   * What the catch block does: answer 409 without cleanup, answer 500
   * without cleanup, or clean up and answer 500.
   */
  datatype Handling = ReportConflict | ReportFailure | CleanUp

  /**
   * The catch block as written: every duplicate-key error is taken for a
   * blockId clash, and every other error is cleaned up, because `block._id`
   * is set by `new Block(...)` whether or not `block.save()` succeeded.
   */
  function HandleAsWritten(status: SaveStatus): (h: Handling)
    requires status != Saved
    ensures h == ReportConflict <==> status == DuplicateKey
    ensures h != ReportFailure
  {
    if status == DuplicateKey then ReportConflict else CleanUp
  }

  /**
   * The intended catch block: a failed `block.save()` stored nothing, so it
   * is reported without cleanup (409 for a blockId clash, 500 otherwise);
   * every later failure is cleaned up.
   */
  function Handle(status: SaveStatus, stage: Stage): (h: Handling)
    requires status != Saved
    ensures h == ReportConflict <==> status == DuplicateKey && stage == AtBlockSave
    ensures h == CleanUp <==> stage != AtBlockSave
  {
    if stage != AtBlockSave then CleanUp
    else if status == DuplicateKey then ReportConflict
    else ReportFailure
  }

  /**
   * The catch block: `Slot.deleteMany({ blockId })` and
   * `Block.deleteOne({ _id })`, one after the other; `saved` tells whether
   * this request's block document was stored.
   */
  method Recover(db: Db, bid: string, h: Handling, saved: bool) returns (reply: BlockReply)
    modifies db`slots, db`blocks
    ensures h == ReportConflict ==>
              reply == Rejected(BlockIdConflict) && db.slots == old(db.slots) && db.blocks == old(db.blocks)
    ensures h == ReportFailure ==>
              reply == Rejected(ServerError) && db.slots == old(db.slots) && db.blocks == old(db.blocks)
    ensures h == CleanUp ==>
              && reply == Rejected(ServerError)
              && db.slots == WithoutBlock(old(db.slots), bid)
              && db.blocks == if saved then old(db.blocks) - {bid} else old(db.blocks)
  {
    if h == ReportConflict {
      return Rejected(BlockIdConflict);
    }
    if h == ReportFailure {
      return Rejected(ServerError);
    }
    db.DeleteSlotsOfBlock(bid);
    db.DeleteBlock(bid, saved);
    reply := Rejected(ServerError);
  }

  /**
   * The catch block as written, traced through the store with the slot
   * fields of line 67 corrected (as written, validation fails first, and the
   * request is cleaned up and answered 500). A slot with id 1 is already
   * stored while the counter document is missing, so the first slot of a
   * new block is saved under id 1 and clashes. The duplicate key is
   * answered as a blockId conflict and the new block stays stored; the
   * intended catch block cleans up instead.
   */
  method AsWrittenSlotIdClash() returns (status: SaveStatus, reply: BlockReply, kept: bool, intended: Handling)
    ensures status == DuplicateKey
    ensures reply == Rejected(BlockIdConflict)
    ensures kept
    ensures intended == CleanUp
  {
    var db := new Db();
    db.slots := map[1 := OpenSlot(1, "A", 0)];
    var b := Block("B", "Ann", 0, 3600000, 20);
    var saved := db.SaveBlock(b, false);
    var startId := AllocateSlotIds(db, 3);
    status := db.SaveSlot(SlotFieldsFor(startId, b.blockId, b.startTime), false);
    reply := Recover(db, b.blockId, HandleAsWritten(status), true);
    kept := b.blockId in db.blocks;
    intended := Handle(status, AtSlotSave);
  }

  /**
   * The catch block as written after a failed `block.save()` under a
   * blockId an older block already holds. The older block's tagged slots
   * cannot come from this route as written (its slot saves all fail); they
   * come from a route with line 67 corrected, or from another writer of the
   * collection. The cleanup runs anyway, and
   * `deleteMany({ blockId })` removes the older block's slots while the
   * older block itself stays. The intended catch block changes nothing.
   */
  method AsWrittenBlockSaveFailure() returns (status: SaveStatus, reply: BlockReply, slotsLeft: nat,
                                              keptBlock: Block, intended: Handling)
    ensures status == OtherFailure
    ensures reply == Rejected(ServerError)
    ensures slotsLeft == 0
    ensures keptBlock.interviewerName == "Ann"
    ensures intended == ReportFailure
  {
    var db := new Db();
    var older := Block("B", "Ann", 0, 3600000, 30);
    db.blocks := map["B" := older];
    db.slots := map[1 := OpenSlot(1, "B", 0), 2 := OpenSlot(2, "B", 1800000)];
    var b := Block("B", "Bob", 0, 7200000, 15);
    status := db.SaveBlock(b, true);
    reply := Recover(db, b.blockId, HandleAsWritten(status), status == Saved);
    assert db.slots == map[] by {
      assert forall k | k in db.slots :: false;
    }
    slotsLeft := |db.slots|;
    keptBlock := db.blocks["B"];
    intended := Handle(status, AtBlockSave);
  }

  /* ---------- The route ---------- */

  /** `!slotLength || slotLength <= 0` rejects a missing, zero or negative length. */
  predicate ValidLength(slotLength: Option<int>) {
    slotLength.Some? && slotLength.value > 0
  }

  predicate Accepted(req: Request) {
    ValidLength(req.slotLength) && req.startTime < req.endTime
  }

  function Step(req: Request): int
    requires ValidLength(req.slotLength)
  {
    req.slotLength.value * MsPerMinute
  }

  function SlotCount(req: Request): nat
    requires Accepted(req)
  {
    CeilDiv(req.endTime - req.startTime, Step(req))
  }

  function BlockOf(req: Request): Block
    requires ValidLength(req.slotLength)
  {
    Block(req.blockId, req.interviewerName, req.startTime, req.endTime, req.slotLength.value)
  }

  /** No fault strikes any of the `n` steps of a request. */
  predicate Succeeds(fault: Fault, n: nat) {
    fault == NoFault || (fault.SlotSaveFailsAt? && fault.index >= n)
  }

  /** The save of one of the first `n` slots fails. */
  predicate SlotSaveFails(fault: Fault, n: nat) {
    fault.SlotSaveFailsAt? && fault.index < n
  }

  /**
   * The slot loop and its catch block: store one Open slot per instant with
   * consecutive ids from `startId`; on the first failure delete every slot
   * tagged with the block and the block itself.
   */
  method SaveSlots(db: Db, block: Block, startId: int, step: int, slotTimes: seq<int>, fault: Fault)
    returns (reply: BlockReply)
    requires forall i | 0 <= i < |slotTimes| :: slotTimes[i] == block.startTime + i * step
    requires KeyedById(db.slots)
    requires forall k | k in db.slots :: k < startId && db.slots[k].blockId != Some(block.blockId)
    modifies db`slots, db`blocks
    ensures !SlotSaveFails(fault, |slotTimes|) ==>
              && reply == Created(block, Batch(startId, block.blockId, block.startTime, step, |slotTimes|))
              && db.slots == old(db.slots) + BatchById(startId, block.blockId, block.startTime, step, |slotTimes|)
              && db.blocks == old(db.blocks)
    ensures SlotSaveFails(fault, |slotTimes|) ==>
              && reply == Rejected(ServerError)
              && db.slots == old(db.slots)
              && db.blocks == old(db.blocks) - {block.blockId}
  {
    var bid := block.blockId;
    var nextId := startId;
    var createdSlots: seq<Slot> := [];
    for i := 0 to |slotTimes|
      invariant nextId == startId + i
      invariant createdSlots == Batch(startId, bid, block.startTime, step, i)
      invariant db.slots == old(db.slots) + BatchById(startId, bid, block.startTime, step, i)
      invariant db.blocks == old(db.blocks)
      invariant fault.SlotSaveFailsAt? ==> fault.index >= i
    {
      NextIdFresh(old(db.slots), startId, bid, block.startTime, step, i);
      assert slotTimes[i] == block.startTime + i * step;
      var fields := SlotFieldsFor(nextId, bid, slotTimes[i]);
      var saved := db.SaveSlot(fields, fault == SlotSaveFailsAt(i));
      if saved != Saved {
        BatchRollback(old(db.slots), startId, bid, block.startTime, step, i);
        reply := Recover(db, bid, Handle(saved, AtSlotSave), true);
        return;
      }
      BatchStep(old(db.slots), startId, bid, block.startTime, step, i);
      createdSlots := createdSlots + [Validate(fields).value];
      nextId := nextId + 1;
    }
    reply := Created(block, createdSlots);
  }

  /**
   * `POST /api/blocks`. Invalid input changes nothing; a taken blockId
   * changes nothing; success stores the block, its slots and the advanced
   * counter; any other failure restores the blocks and slots exactly, while
   * a counter that was advanced keeps its new value.
   */
  method CreateBlock(db: Db, req: Request, fault: Fault) returns (reply: BlockReply)
    requires db.Valid()
    modifies db
    ensures db.Valid()
    ensures !ValidLength(req.slotLength) ==> reply == Rejected(SlotLengthInvalid) && unchanged(db)
    ensures ValidLength(req.slotLength) && req.startTime >= req.endTime ==>
              reply == Rejected(WindowInvalid) && unchanged(db)
    ensures Accepted(req) && fault == BlockSaveFails ==> reply == Rejected(ServerError) && unchanged(db)
    ensures Accepted(req) && req.blockId in old(db.blocks) && fault != BlockSaveFails ==>
              reply == Rejected(BlockIdConflict) && unchanged(db)
    ensures Accepted(req) && req.blockId !in old(db.blocks) && Succeeds(fault, SlotCount(req)) ==>
              var first := old(db.CounterValue()) + 1;
              && reply == Created(BlockOf(req), Batch(first, req.blockId, req.startTime, Step(req), SlotCount(req)))
              && db.blocks == old(db.blocks)[req.blockId := BlockOf(req)]
              && db.slots == old(db.slots) + BatchById(first, req.blockId, req.startTime, Step(req), SlotCount(req))
              && db.counter == Some(old(db.CounterValue()) + SlotCount(req))
    ensures Accepted(req) && req.blockId !in old(db.blocks) && !Succeeds(fault, SlotCount(req)) ==>
              && reply == Rejected(ServerError)
              && db.blocks == old(db.blocks) && db.slots == old(db.slots)
              && db.counter == if fault.SlotSaveFailsAt? then Some(old(db.CounterValue()) + SlotCount(req))
                               else old(db.counter)
  {
    if req.slotLength.None? || req.slotLength.value <= 0 {
      return Rejected(SlotLengthInvalid);
    }
    var slotLength := req.slotLength.value;
    var block := Block(req.blockId, req.interviewerName, req.startTime, req.endTime, slotLength);
    if !(req.startTime < req.endTime) {
      return Rejected(WindowInvalid);
    }
    var bid := block.blockId;

    var status := db.SaveBlock(block, fault == BlockSaveFails);
    if status != Saved {
      reply := Recover(db, bid, Handle(status, AtBlockSave), false);
      return;
    }
    assert bid !in old(db.blocks);
    assert db.blocks - {bid} == old(db.blocks);
    reply := FillBlock(db, block, fault);
  }

  /**
   * The part of `POST /api/blocks` after `block.save()` succeeded: the slot
   * times, the id range and the slot loop, with the catch block on failure.
   */
  method FillBlock(db: Db, block: Block, fault: Fault) returns (reply: BlockReply)
    requires block.slotLength > 0 && block.startTime < block.endTime
    requires fault != BlockSaveFails
    requires db.Valid() && block.blockId in db.blocks
    requires forall k | k in db.slots :: db.slots[k].blockId != Some(block.blockId)
    modifies db
    ensures db.Valid()
    ensures var step := block.slotLength * MsPerMinute;
            var n := CeilDiv(block.endTime - block.startTime, step);
            var first := old(db.CounterValue()) + 1;
            Succeeds(fault, n) ==>
              && reply == Created(block, Batch(first, block.blockId, block.startTime, step, n))
              && db.blocks == old(db.blocks)
              && db.slots == old(db.slots) + BatchById(first, block.blockId, block.startTime, step, n)
              && db.counter == Some(old(db.CounterValue()) + n)
    ensures var n := CeilDiv(block.endTime - block.startTime, block.slotLength * MsPerMinute);
            !Succeeds(fault, n) ==>
              && reply == Rejected(ServerError)
              && db.blocks == old(db.blocks) - {block.blockId} && db.slots == old(db.slots)
              && db.counter == if fault.SlotSaveFailsAt? then Some(old(db.CounterValue()) + n)
                               else old(db.counter)
  {
    var bid := block.blockId;
    var step := block.slotLength * MsPerMinute;
    var slotTimes := GenerateSlotTimes(block.startTime, block.endTime, step);

    if fault == AllocationFails {
      NothingTaggedNothingDeleted(db.slots, bid);
      reply := Recover(db, bid, Handle(OtherFailure, AtAllocation), true);
      RemovedBlockKeepsValid(old(db.slots), old(db.blocks), old(db.CounterValue()), db.CounterValue(), bid);
      return;
    }
    var startId := AllocateSlotIds(db, |slotTimes|);
    reply := SaveSlots(db, block, startId, step, slotTimes, fault);
    if reply.Created? {
      BatchKeepsValid(old(db.slots), db.blocks, old(db.CounterValue()), bid, block.startTime, step, |slotTimes|);
    } else {
      RemovedBlockKeepsValid(old(db.slots), old(db.blocks), old(db.CounterValue()), db.CounterValue(), bid);
    }
  }

  /** Storing a batch whose ids follow the counter, with the counter advanced past it, keeps the invariant. */
  lemma BatchKeepsValid(slots: map<int, Slot>, blocks: map<string, Block>, counter: nat,
                        blockId: string, start: int, step: int, count: nat)
    requires StoreValid(slots, blocks, counter) && blockId in blocks
    ensures StoreValid(slots + BatchById(counter + 1, blockId, start, step, count), blocks, counter + count)
  {
    var batch := BatchById(counter + 1, blockId, start, step, count);
    var after := slots + batch;
    BatchByIdHolds(counter + 1, blockId, start, step, count);
    forall k | k in after
      ensures after[k].id == k && k <= counter + count
      ensures after[k].blockId.Some? ==> after[k].blockId.value in blocks
    {
      if k in batch {
        assert after[k] == OpenSlot(k, blockId, start + (k - counter - 1) * step);
      } else {
        assert after[k] == slots[k];
      }
    }
  }

  /** Removing a block no slot is tagged with, and advancing the counter, keeps the invariant. */
  lemma RemovedBlockKeepsValid(slots: map<int, Slot>, blocks: map<string, Block>, counter: nat, counter': nat,
                               blockId: string)
    requires StoreValid(slots, blocks, counter) && counter <= counter'
    requires forall k | k in slots :: slots[k].blockId != Some(blockId)
    ensures StoreValid(slots, blocks - {blockId}, counter')
  {
  }

  /**
   * Two block creations one after the other never hand out the same slot
   * id, whatever faults strike either of them.
   */
  method CreateTwoBlocks(db: Db, first: Request, second: Request, f1: Fault, f2: Fault)
    returns (r1: BlockReply, r2: BlockReply)
    requires db.Valid()
    modifies db
    ensures db.Valid()
    ensures r1.Created? && r2.Created? ==>
              forall i, j | 0 <= i < |r1.slots| && 0 <= j < |r2.slots| :: r1.slots[i].id < r2.slots[j].id
  {
    r1 := CreateBlock(db, first, f1);
    ghost var mid := db.CounterValue();
    r2 := CreateBlock(db, second, f2);
    if r1.Created? && r2.Created? {
      assert forall i | 0 <= i < |r1.slots| :: r1.slots[i].id <= mid;
      assert forall j | 0 <= j < |r2.slots| :: r2.slots[j].id > mid;
    }
  }
}
