/**
 * The persistence layer the routes talk to: the slot collection keyed by the
 * unique slot id, the block collection keyed by the unique blockId, and the
 * `slotId` counter document. Each method is one atomic store operation.
 */
module Database {
  import opened Records

  /** The state part of a conditional update's filter (`{ id, reserved?, checkedIn? }`). */
  datatype Filter = Filter(reserved: Option<bool>, checkedIn: Option<bool>)

  predicate Matches(f: Filter, s: Slot) {
    && (f.reserved.Some? ==> s.reserved == f.reserved.value)
    && (f.checkedIn.Some? ==> s.checkedIn == f.checkedIn.value)
  }

  /** A `$set` document over the mutable fields; None leaves a field as it is. */
  datatype SetUpdate = SetUpdate(
    reserved: Option<bool>,
    candidateName: Option<Option<string>>,
    checkedIn: Option<bool>)

  function Apply(u: SetUpdate, s: Slot): (r: Slot)
    ensures r.id == s.id && r.blockId == s.blockId && r.time == s.time
  {
    s.(reserved := if u.reserved.Some? then u.reserved.value else s.reserved,
       candidateName := if u.candidateName.Some? then u.candidateName.value else s.candidateName,
       checkedIn := if u.checkedIn.Some? then u.checkedIn.value else s.checkedIn)
  }

  /** Outcome of an insert: stored, refused by a unique index (code 11000), or any other error. */
  datatype SaveStatus = Saved | DuplicateKey | OtherFailure

  /** The slot store after `deleteMany({ blockId: bid })`. */
  function WithoutBlock(slots: map<int, Slot>, bid: string): (r: map<int, Slot>)
    ensures forall k | k in r :: k in slots && r[k] == slots[k] && r[k].blockId != Some(bid)
    ensures forall k | k in slots && slots[k].blockId != Some(bid) :: k in r
  {
    map k | k in slots && slots[k].blockId != Some(bid) :: slots[k]
  }

  /**
   * Deleting the slots of a block that had none before undoes the insertion
   * of its slots: the compensating delete restores the slot store exactly.
   */
  lemma RollbackRestores(before: map<int, Slot>, added: map<int, Slot>, bid: string)
    requires forall k | k in before :: before[k].blockId != Some(bid)
    requires forall k | k in added :: added[k].blockId == Some(bid) && k !in before
    ensures WithoutBlock(before + added, bid) == before
  {
    var r := WithoutBlock(before + added, bid);
    forall k | k in before ensures k in r && r[k] == before[k] {
      assert k !in added;
    }
    forall k | k in r ensures k in before {
      if k in added {
        assert false;
      }
    }
    assert r.Keys == before.Keys;
  }

  /**
   * The store invariant the block generator relies on: slots are keyed by
   * id, no slot id lies above the counter (so fresh ranges never collide),
   * and every block tag names a stored block.
   */
  ghost predicate StoreValid(slots: map<int, Slot>, blocks: map<string, Block>, counter: nat) {
    && KeyedById(slots)
    && (forall k | k in slots :: k <= counter)
    && (forall k | k in slots && slots[k].blockId.Some? :: slots[k].blockId.value in blocks)
  }

  class Db {
    var slots: map<int, Slot>
    var blocks: map<string, Block>
    /** The `seq` field of the counter document; None until the first upsert creates it. */
    var counter: Option<nat>

    /** The counter's value, a missing document counting as 0. */
    function CounterValue(): nat
      reads this
    {
      if counter.Some? then counter.value else 0
    }

    /** The store invariant `StoreValid` on this store's collections and counter. */
    ghost predicate Valid()
      reads this
    {
      StoreValid(slots, blocks, CounterValue())
    }

    constructor ()
      ensures Valid()
      ensures slots == map[] && blocks == map[] && counter == None
    {
      slots, blocks, counter := map[], map[], None;
    }

    /** `Slot.findOne({ id })`. */
    method FindOne(id: int) returns (r: Option<Slot>)
      ensures r.Some? <==> id in slots
      ensures r.Some? ==> r.value == slots[id]
    {
      r := if id in slots then Some(slots[id]) else None;
    }

    /** `Slot.exists({ id })`. */
    method Exists(id: int) returns (b: bool)
      ensures b <==> id in slots
    {
      b := id in slots;
    }

    /**
     * `Slot.findOneAndUpdate({ id, ...filter }, { $set: update }, { new: true })`:
     * one atomic step that applies the update only when the filter matches and
     * returns the updated document, or None and no change.
     */
    method FindOneAndUpdate(id: int, filter: Filter, update: SetUpdate) returns (r: Option<Slot>)
      modifies this`slots
      ensures id in old(slots) && Matches(filter, old(slots)[id]) ==>
                r == Some(Apply(update, old(slots)[id])) && slots == old(slots)[id := r.value]
      ensures !(id in old(slots) && Matches(filter, old(slots)[id])) ==>
                r == None && slots == old(slots)
    {
      if id in slots && Matches(filter, slots[id]) {
        var s := Apply(update, slots[id]);
        slots := slots[id := s];
        r := Some(s);
      } else {
        r := None;
      }
    }

    /**
     * `block.save()`: `fails` stands for an error raised before or instead of
     * the insert (schema validation, a write error); otherwise the unique
     * index on blockId refuses a second block with the same id.
     */
    method SaveBlock(b: Block, fails: bool) returns (status: SaveStatus)
      modifies this`blocks
      ensures fails ==> status == OtherFailure && blocks == old(blocks)
      ensures !fails && b.blockId in old(blocks) ==> status == DuplicateKey && blocks == old(blocks)
      ensures !fails && b.blockId !in old(blocks) ==> status == Saved && blocks == old(blocks)[b.blockId := b]
    {
      if fails {
        status := OtherFailure;
      } else if b.blockId in blocks {
        status := DuplicateKey;
      } else {
        blocks := blocks[b.blockId := b];
        status := Saved;
      }
    }

    /**
     * `slot.save()`: schema validation first, then the unique index on id,
     * then `fails` for any other error of the store.
     */
    method SaveSlot(f: SlotFields, fails: bool) returns (status: SaveStatus)
      modifies this`slots
      ensures Validate(f).None? ==> status == OtherFailure && slots == old(slots)
      ensures Validate(f).Some? && f.id in old(slots) ==> status == DuplicateKey && slots == old(slots)
      ensures Validate(f).Some? && f.id !in old(slots) && fails ==> status == OtherFailure && slots == old(slots)
      ensures Validate(f).Some? && f.id !in old(slots) && !fails ==>
                status == Saved && slots == old(slots)[f.id := Validate(f).value]
    {
      var doc := Validate(f);
      if doc.None? {
        status := OtherFailure;
      } else if f.id in slots {
        status := DuplicateKey;
      } else if fails {
        status := OtherFailure;
      } else {
        slots := slots[f.id := doc.value];
        status := Saved;
      }
    }

    /** `Slot.deleteMany({ blockId: bid })`. */
    method DeleteSlotsOfBlock(bid: string)
      modifies this`slots
      ensures slots == WithoutBlock(old(slots), bid)
    {
      slots := WithoutBlock(slots, bid);
    }

    /**
     * `Block.deleteOne({ _id })`, the `_id` being that of the block document
     * this request built. That document is the one stored under bid exactly
     * when this request's save succeeded (`stored`); otherwise the delete
     * matches nothing, even when an older block holds bid.
     */
    method DeleteBlock(bid: string, stored: bool)
      modifies this`blocks
      ensures blocks == if stored then old(blocks) - {bid} else old(blocks)
    {
      if stored {
        blocks := blocks - {bid};
      }
    }

    /**
     * `findOneAndUpdate({ _id: 'slotId' }, { $inc: { seq: count } },
     * { upsert: true, returnDocument: 'after' })`: one atomic increment that
     * creates the document when it is missing; returns the new `seq`.
     */
    method IncrementCounter(count: nat) returns (after: nat)
      modifies this`counter
      ensures counter == Some(old(CounterValue()) + count)
      ensures after == old(CounterValue()) + count
    {
      after := CounterValue() + count;
      counter := Some(after);
    }
  }
}
