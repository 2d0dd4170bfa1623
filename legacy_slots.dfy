/**
 * The earlier in-memory slot routes of server/routes/slots.js: a module-level
 * array of three slots, searched with `find`; reserve and cancel assign the
 * found element's `reserved` and `candidateName` in place.
 */
module LegacySlots {
  import opened Records

  /** A slot of the in-memory array; `time` is a time-of-day label. */
  datatype LegacySlot = LegacySlot(id: int, time: string, reserved: bool, candidateName: Option<string>)

  datatype LegacyError =
    | NotFound         // 404
    | AlreadyReserved  // 400
    | NameRequired     // 400
    | NotReserved      // 400

  datatype LegacyReply = Done(slot: LegacySlot) | Failed(error: LegacyError)

  /** A reply together with the array contents it leaves behind. */
  datatype Outcome = Outcome(reply: LegacyReply, slots: seq<LegacySlot>)

  /** A slot is reserved exactly when it carries a candidate name. */
  predicate Consistent(s: LegacySlot) {
    s.reserved <==> s.candidateName.Some?
  }

  predicate AllConsistent(slots: seq<LegacySlot>) {
    forall i | 0 <= i < |slots| :: Consistent(slots[i])
  }

  /** The array's initial contents: ids 1, 2, 3, only the last reserved, for "Tom". */
  function InitialSlots(): (r: seq<LegacySlot>)
    ensures |r| == 3 && AllConsistent(r)
    ensures forall i | 0 <= i < |r| :: r[i].id == i + 1 && (r[i].reserved <==> i == 2)
    ensures r[2].candidateName == Some("Tom")
  {
    [ LegacySlot(1, "10:00 AM", false, None),
      LegacySlot(2, "11:00 AM", false, None),
      LegacySlot(3, "1:00 PM", true, Some("Tom")) ]
  }

  /**
   * `slots.find(s => s.id == slotID)`: the position of the first slot with
   * that id. A non-numeric id parses to NaN, which equals no id.
   */
  function FindIndex(slots: seq<LegacySlot>, id: Option<int>): (r: Option<nat>)
    ensures r.Some? ==> r.value < |slots| && id == Some(slots[r.value].id)
    ensures r.Some? ==> forall j | 0 <= j < r.value :: id != Some(slots[j].id)
    ensures r.None? ==> forall j | 0 <= j < |slots| :: id != Some(slots[j].id)
  {
    if |slots| == 0 then None
    else if id == Some(slots[0].id) then Some(0)
    else
      match FindIndex(slots[1..], id)
      case None => None
      case Some(j) => Some(j + 1)
  }

  /**
   * Reserve: NotFound, then AlreadyReserved, then NameRequired; otherwise
   * the found slot becomes reserved under the name and nothing else changes.
   */
  function Reserve(slots: seq<LegacySlot>, id: Option<int>, name: Option<string>): (o: Outcome)
    ensures |o.slots| == |slots|
    ensures FindIndex(slots, id).None? ==> o == Outcome(Failed(NotFound), slots)
    ensures FindIndex(slots, id).Some? && slots[FindIndex(slots, id).value].reserved ==>
              o == Outcome(Failed(AlreadyReserved), slots)
    ensures FindIndex(slots, id).Some? && !slots[FindIndex(slots, id).value].reserved && !Named(name) ==>
              o == Outcome(Failed(NameRequired), slots)
    ensures o.reply.Done? <==>
              FindIndex(slots, id).Some? && !slots[FindIndex(slots, id).value].reserved && Named(name)
    ensures o.reply.Done? ==>
              var i := FindIndex(slots, id).value;
              && o.slots == slots[i := slots[i].(reserved := true, candidateName := name)]
              && o.reply.slot == o.slots[i]
    ensures o.reply.Failed? ==> o.slots == slots
    ensures AllConsistent(slots) ==> AllConsistent(o.slots)
  {
    match FindIndex(slots, id)
    case None => Outcome(Failed(NotFound), slots)
    case Some(i) =>
      if slots[i].reserved then Outcome(Failed(AlreadyReserved), slots)
      else if !Named(name) then Outcome(Failed(NameRequired), slots)
      else
        var s := slots[i].(reserved := true, candidateName := name);
        Outcome(Done(s), slots[i := s])
  }

  /**
   * Cancel: NotFound, then NotReserved; otherwise the found slot is released
   * and its name cleared, and nothing else changes.
   */
  function Cancel(slots: seq<LegacySlot>, id: Option<int>): (o: Outcome)
    ensures |o.slots| == |slots|
    ensures FindIndex(slots, id).None? ==> o == Outcome(Failed(NotFound), slots)
    ensures FindIndex(slots, id).Some? && !slots[FindIndex(slots, id).value].reserved ==>
              o == Outcome(Failed(NotReserved), slots)
    ensures o.reply.Done? <==> FindIndex(slots, id).Some? && slots[FindIndex(slots, id).value].reserved
    ensures o.reply.Done? ==>
              var i := FindIndex(slots, id).value;
              && o.slots == slots[i := slots[i].(reserved := false, candidateName := None)]
              && o.reply.slot == o.slots[i]
    ensures o.reply.Failed? ==> o.slots == slots
    ensures AllConsistent(slots) ==> AllConsistent(o.slots)
  {
    match FindIndex(slots, id)
    case None => Outcome(Failed(NotFound), slots)
    case Some(i) =>
      if !slots[i].reserved then Outcome(Failed(NotReserved), slots)
      else
        var s := slots[i].(reserved := false, candidateName := None);
        Outcome(Done(s), slots[i := s])
  }

  /** Reserving after a successful cancel of the same id succeeds under the new name. */
  lemma CancelThenReserve(slots: seq<LegacySlot>, id: int, name: string)
    requires Cancel(slots, Some(id)).reply.Done?
    requires name != ""
    ensures var o := Reserve(Cancel(slots, Some(id)).slots, Some(id), Some(name));
            o.reply.Done? && o.reply.slot.candidateName == Some(name)
  {
    var c := Cancel(slots, Some(id));
    var i := FindIndex(slots, Some(id)).value;
    FindIndexAfterUpdate(slots, Some(id), i, c.slots[i]);
  }

  /** Updating a slot in place without changing its id leaves every `find` result as it was. */
  lemma {:induction false} FindIndexAfterUpdate(slots: seq<LegacySlot>, id: Option<int>, i: nat, s: LegacySlot)
    requires i < |slots| && s.id == slots[i].id
    ensures FindIndex(slots[i := s], id) == FindIndex(slots, id)
  {
    if |slots| > 0 && i > 0 {
      assert slots[i := s][1..] == slots[1..][i - 1 := s];
      FindIndexAfterUpdate(slots[1..], id, i - 1, s);
    }
  }

  /** The in-memory store: the module-level `slots` array. */
  class LegacyStore {
    var slots: array<LegacySlot>

    constructor ()
      ensures fresh(slots)
      ensures slots[..] == InitialSlots()
    {
      var initial := InitialSlots();
      slots := new LegacySlot[|initial|](i requires 0 <= i < |initial| => initial[i]);
    }

    /** `GET /`: the array exactly as it is. */
    method HandleList() returns (r: seq<LegacySlot>)
      ensures r == slots[..]
    {
      r := slots[..];
    }

    /** `POST /reserve/:id`. */
    method HandleReserve(id: Option<int>, name: Option<string>) returns (reply: LegacyReply)
      modifies slots
      ensures Outcome(reply, slots[..]) == Reserve(old(slots[..]), id, name)
    {
      var found := FindIndex(slots[..], id);
      if found.None? {
        return Failed(NotFound);
      }
      var i := found.value;
      if slots[i].reserved {
        return Failed(AlreadyReserved);
      }
      if !Named(name) {
        return Failed(NameRequired);
      }
      slots[i] := slots[i].(reserved := true);
      slots[i] := slots[i].(candidateName := name);
      reply := Done(slots[i]);
    }

    /** `POST /cancel/:id`. */
    method HandleCancel(id: Option<int>) returns (reply: LegacyReply)
      modifies slots
      ensures Outcome(reply, slots[..]) == Cancel(old(slots[..]), id)
    {
      var found := FindIndex(slots[..], id);
      if found.None? {
        return Failed(NotFound);
      }
      var i := found.value;
      if !slots[i].reserved {
        return Failed(NotReserved);
      }
      slots[i] := slots[i].(reserved := false);
      slots[i] := slots[i].(candidateName := None);
      reply := Done(slots[i]);
    }
  }
}
