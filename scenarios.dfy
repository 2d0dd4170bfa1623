/**
 * Concrete requests traced through the model on a fresh store.
 */
module Scenarios {
  import opened Records
  import opened Database
  import SlotRoutes
  import Blocks

  /** 10:00 on 1 January 1970 (UTC), in milliseconds. */
  const TenAm: int := 36000000

  /**
   * A 10:00-11:00 block of 20-minute slots gets three slots, at 10:00, 10:20
   * and 10:40, with ids 1, 2, 3 and no other; reserving slot 1 for "Tom"
   * succeeds, and the same request again is refused with AlreadyReserved.
   */
  method HourBlockThenReserveTwice() returns (count: nat, times: seq<int>, ids: seq<int>, first: SlotRoutes.Reply, again: SlotRoutes.Reply)
    ensures count == 3
    ensures times == [TenAm, TenAm + 1200000, TenAm + 2400000]
    ensures ids == [1, 2, 3]
    ensures first.Done? && first.slot.candidateName == Some("Tom") && first.slot.reserved && !first.slot.checkedIn
    ensures again == SlotRoutes.Failed(SlotRoutes.AlreadyReserved)
  {
    var db := new Db();
    var req := Blocks.Request("B1", "Ann", TenAm, TenAm + 3600000, Some(20));
    assert Blocks.SlotCount(req) == 3;
    var reply := Blocks.CreateBlock(db, req, Blocks.NoFault);
    count := |reply.slots|;
    times := [reply.slots[0].time, reply.slots[1].time, reply.slots[2].time];
    ids := [reply.slots[0].id, reply.slots[1].id, reply.slots[2].id];
    Blocks.BatchByIdHolds(1, "B1", TenAm, 20 * Blocks.MsPerMinute, 3);
    assert 1 in db.slots && StateOf(db.slots[1]) == Open;
    first, again := ReserveTwice(db, 1, "Tom");
  }

  /** The same reserve sent twice for an Open slot: the first succeeds, the repeat is refused. */
  method ReserveTwice(db: Db, id: int, name: string) returns (first: SlotRoutes.Reply, again: SlotRoutes.Reply)
    requires id in db.slots && StateOf(db.slots[id]) == Open && name != ""
    modifies db`slots
    ensures first.Done? && first.slot.candidateName == Some(name) && first.slot.reserved && !first.slot.checkedIn
    ensures again == SlotRoutes.Failed(SlotRoutes.AlreadyReserved)
  {
    first := SlotRoutes.HandleReserve(db, Some(id), Some(name));
    again := SlotRoutes.HandleReserve(db, Some(id), Some(name));
  }

  /**
   * A second block under a blockId already taken is refused with
   * BlockIdConflict; the first block and its slots are untouched and no
   * slot is added.
   */
  method DuplicateBlockId() returns (reply: Blocks.BlockReply, before: map<int, Slot>, after: map<int, Slot>,
                                     slotCount: nat, kept: Block)
    ensures reply == Blocks.Rejected(Blocks.BlockIdConflict)
    ensures after == before
    ensures slotCount == |after| == 2
    ensures kept.interviewerName == "Ann"
  {
    var db := new Db();
    var req := Blocks.Request("B1", "Ann", TenAm, TenAm + 3600000, Some(30));
    assert Blocks.SlotCount(req) == 2;
    var created := Blocks.CreateBlock(db, req, Blocks.NoFault);
    Blocks.BatchByIdHolds(1, "B1", TenAm, 30 * Blocks.MsPerMinute, 2);
    assert db.slots.Keys == {1, 2};
    before := db.slots;
    var clash := Blocks.Request("B1", "Bob", TenAm, TenAm + 7200000, Some(15));
    reply := Blocks.CreateBlock(db, clash, Blocks.NoFault);
    after := db.slots;
    slotCount := |after|;
    kept := db.blocks["B1"];
  }
}
