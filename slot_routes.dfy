/**
 * The slot routes of server/src/routes/slots.js. The functions state the
 * slot lifecycle as a state machine over the whole store (Open, Reserved,
 * CheckedIn; transitions reserve, check-in, cancel). The Handle methods do
 * what the route handlers do against the store: one atomic conditional update,
 * and only when it matched nothing, a second read to choose the error. Each
 * handler is proved to produce exactly the outcome the state machine gives.
 */
module SlotRoutes {
  import opened Records
  import opened Database

  datatype SlotError =
    | InvalidId         // 400: the id parameter is not numeric
    | NameRequired      // 400: missing or empty candidate name
    | NotFound          // 404
    | AlreadyReserved   // 400
    | NotReserved       // 400
    | AlreadyCheckedIn  // 400

  /**
   * A route's answer: the slot it returns, or an error. NullSlot is the
   * success response whose `slot` is null, which the check-in handler would
   * send if it ever fell through its error checks.
   */
  datatype Reply = Done(slot: Slot) | NullSlot | Failed(error: SlotError)

  /** A reply together with the store it leaves behind. */
  datatype Outcome = Outcome(reply: Reply, store: map<int, Slot>)

  /* ---------- Listing: `Slot.find().sort({ id: 1 })` ---------- */

  lemma NonEmptyHasMember(ks: set<int>)
    requires ks != {}
    ensures exists x :: x in ks
  {
    if forall x :: x !in ks {
      assert false;
    }
  }

  ghost function MinKey(ks: set<int>): (m: int)
    requires ks != {}
    ensures m in ks
    ensures forall z | z in ks :: m <= z
    decreases |ks|
  {
    NonEmptyHasMember(ks);
    var x :| x in ks;
    var rest := ks - {x};
    assert forall z | z in ks :: z == x || z in rest;
    if rest == {} then x
    else
      var y := MinKey(rest);
      if x < y then x else y
  }

  /** The keys of a set, smallest first. */
  ghost function SortedKeys(ks: set<int>): (r: seq<int>)
    ensures forall i | 0 <= i < |r| :: r[i] in ks
    decreases |ks|
  {
    if ks == {} then []
    else
      var m := MinKey(ks);
      var rest := SortedKeys(ks - {m});
      assert forall i | 1 <= i < |rest| + 1 :: ([m] + rest)[i] == rest[i - 1];
      [m] + rest
  }

  /** `SortedKeys` lists every key of the set exactly once. */
  lemma {:induction false} SortedKeysComplete(ks: set<int>)
    ensures |SortedKeys(ks)| == |ks|
    ensures forall k | k in ks :: k in SortedKeys(ks)
    decreases |ks|
  {
    if ks != {} {
      var m := MinKey(ks);
      var others := ks - {m};
      SortedKeysComplete(others);
      assert SortedKeys(ks) == [m] + SortedKeys(others);
      assert forall k | k in ks :: k == m || k in others;
    }
  }

  /** `SortedKeys` is in strictly ascending order. */
  lemma {:induction false} SortedKeysAscending(ks: set<int>)
    ensures forall i, j | 0 <= i < j < |SortedKeys(ks)| :: SortedKeys(ks)[i] < SortedKeys(ks)[j]
    decreases |ks|
  {
    if ks != {} {
      var m := MinKey(ks);
      var others := ks - {m};
      SortedKeysAscending(others);
      var rest := SortedKeys(others);
      var r := SortedKeys(ks);
      assert r == [m] + rest;
      forall i, j | 0 <= i < j < |r| ensures r[i] < r[j] {
        assert r[j] == rest[j - 1] && rest[j - 1] in others;
        if i > 0 {
          assert r[i] == rest[i - 1];
        }
      }
    }
  }

  /** `Slot.find().sort({ id: 1 })`: the stored slots in ascending key order. */
  ghost function List(store: map<int, Slot>): (r: seq<Slot>)
    ensures forall i | 0 <= i < |r| :: r[i] in store.Values
  {
    var ks := SortedKeys(store.Keys);
    seq(|ks|, i requires 0 <= i < |ks| => store[ks[i]])
  }

  /** The listing holds every stored slot, once each, in ascending id order. */
  lemma ListIsSortedById(store: map<int, Slot>)
    requires KeyedById(store)
    ensures var r := List(store);
            && |r| == |store|
            && (forall i | 0 <= i < |r| :: r[i].id in store && store[r[i].id] == r[i])
            && (forall k | k in store :: store[k] in r)
            && (forall i, j | 0 <= i < j < |r| :: r[i].id < r[j].id)
  {
    SortedKeysComplete(store.Keys);
    SortedKeysAscending(store.Keys);
    var ks := SortedKeys(store.Keys);
    var r := List(store);
    assert |r| == |store|;
    forall i | 0 <= i < |r| ensures r[i] == store[ks[i]] && r[i].id == ks[i] {
      assert ks[i] in store;
    }
    ListHasEveryKey(store, ks, r);
  }

  lemma ListHasEveryKey(store: map<int, Slot>, ks: seq<int>, r: seq<Slot>)
    requires forall k | k in store :: k in ks
    requires |r| == |ks|
    requires forall i | 0 <= i < |r| :: ks[i] in store && r[i] == store[ks[i]]
    ensures forall k | k in store :: store[k] in r
  {
    forall k | k in store ensures store[k] in r {
      var i :| 0 <= i < |ks| && ks[i] == k;
      assert r[i] == store[k];
    }
  }

  /* ---------- Get: `GET /:id` ---------- */

  /** A non-numeric id is refused before the store is read; otherwise the stored slot or NotFound. */
  function Get(store: map<int, Slot>, id: Option<int>): (r: Reply)
    ensures id.None? ==> r == Failed(InvalidId)
    ensures id.Some? && id.value !in store ==> r == Failed(NotFound)
    ensures id.Some? && id.value in store ==> r == Done(store[id.value])
  {
    match id
    case None => Failed(InvalidId)
    case Some(k) => if k in store then Done(store[k]) else Failed(NotFound)
  }

  /* ---------- The lifecycle as a state machine ---------- */

  /**
   * Reserve: the id must be numeric, then the name non-empty, then the slot
   * must exist and be Open. Success moves it to Reserved under that name.
   */
  function Reserve(store: map<int, Slot>, id: Option<int>, name: Option<string>): (o: Outcome)
    ensures o.store.Keys == store.Keys
    ensures forall k | k in store && (o.reply.Failed? || id != Some(k)) :: o.store[k] == store[k]
    ensures o.reply.Done? <==> id.Some? && Named(name) && id.value in store && StateOf(store[id.value]) == Open
    ensures id.None? ==> o == Outcome(Failed(InvalidId), store)
    ensures id.Some? && !Named(name) ==> o == Outcome(Failed(NameRequired), store)
    ensures id.Some? && Named(name) && id.value !in store ==> o == Outcome(Failed(NotFound), store)
    ensures id.Some? && Named(name) && id.value in store && StateOf(store[id.value]) != Open ==>
              o == Outcome(Failed(AlreadyReserved), store)
    ensures o.reply.Done? ==> o.reply.slot == o.store[id.value] && StateOf(o.reply.slot) == Reserved
                              && o.reply.slot == store[id.value].(reserved := true, candidateName := name, checkedIn := false)
    ensures StoreInvariant(store) ==> StoreInvariant(o.store)
  {
    if id.None? then Outcome(Failed(InvalidId), store)
    else if !Named(name) then Outcome(Failed(NameRequired), store)
    else if id.value !in store then Outcome(Failed(NotFound), store)
    else if store[id.value].reserved then Outcome(Failed(AlreadyReserved), store)
    else
      var s := store[id.value].(reserved := true, candidateName := name, checkedIn := false);
      Outcome(Done(s), store[id.value := s])
  }

  /**
   * Check-in: the slot must exist, be reserved and not yet checked in, with
   * the errors in that order. Success moves Reserved to CheckedIn.
   */
  function CheckIn(store: map<int, Slot>, id: Option<int>): (o: Outcome)
    ensures o.store.Keys == store.Keys
    ensures forall k | k in store && (o.reply.Failed? || id != Some(k)) :: o.store[k] == store[k]
    ensures o.reply.Done? <==> id.Some? && id.value in store && StateOf(store[id.value]) == Reserved
    ensures id.None? ==> o == Outcome(Failed(InvalidId), store)
    ensures id.Some? && id.value !in store ==> o == Outcome(Failed(NotFound), store)
    ensures id.Some? && id.value in store && StateOf(store[id.value]) == Open ==>
              o == Outcome(Failed(NotReserved), store)
    ensures id.Some? && id.value in store && StateOf(store[id.value]) == CheckedIn ==>
              o == Outcome(Failed(AlreadyCheckedIn), store)
    ensures o.reply.Done? ==> o.reply.slot == o.store[id.value] && StateOf(o.reply.slot) == CheckedIn
                              && o.reply.slot == store[id.value].(checkedIn := true)
    ensures StoreInvariant(store) ==> StoreInvariant(o.store)
  {
    if id.None? then Outcome(Failed(InvalidId), store)
    else if id.value !in store then Outcome(Failed(NotFound), store)
    else if !store[id.value].reserved then Outcome(Failed(NotReserved), store)
    else if store[id.value].checkedIn then Outcome(Failed(AlreadyCheckedIn), store)
    else
      var s := store[id.value].(checkedIn := true);
      Outcome(Done(s), store[id.value := s])
  }

  /**
   * Cancel: the slot must exist and be reserved (checked in or not).
   * Success moves it back to Open, clearing the name.
   */
  function Cancel(store: map<int, Slot>, id: Option<int>): (o: Outcome)
    ensures o.store.Keys == store.Keys
    ensures forall k | k in store && (o.reply.Failed? || id != Some(k)) :: o.store[k] == store[k]
    ensures o.reply.Done? <==> id.Some? && id.value in store && StateOf(store[id.value]) != Open
    ensures id.None? ==> o == Outcome(Failed(InvalidId), store)
    ensures id.Some? && id.value !in store ==> o == Outcome(Failed(NotFound), store)
    ensures id.Some? && id.value in store && StateOf(store[id.value]) == Open ==>
              o == Outcome(Failed(NotReserved), store)
    ensures o.reply.Done? ==> o.reply.slot == o.store[id.value] && IsOpen(o.reply.slot)
                              && o.reply.slot == store[id.value].(reserved := false, candidateName := None, checkedIn := false)
    ensures StoreInvariant(store) ==> StoreInvariant(o.store)
  {
    if id.None? then Outcome(Failed(InvalidId), store)
    else if id.value !in store then Outcome(Failed(NotFound), store)
    else if !store[id.value].reserved then Outcome(Failed(NotReserved), store)
    else
      var s := store[id.value].(reserved := false, candidateName := None, checkedIn := false);
      Outcome(Done(s), store[id.value := s])
  }

  /* ---------- The route handlers ---------- */

  /** `POST /reserve/:id`. */
  method HandleReserve(db: Db, id: Option<int>, name: Option<string>) returns (reply: Reply)
    modifies db`slots
    ensures Outcome(reply, db.slots) == Reserve(old(db.slots), id, name)
    ensures old(db.Valid()) ==> db.Valid()
  {
    if id.None? {
      return Failed(InvalidId);
    }
    if !Named(name) {
      return Failed(NameRequired);
    }
    var slot := db.FindOneAndUpdate(id.value, Filter(Some(false), None),
                                    SetUpdate(Some(true), Some(name), Some(false)));
    if slot.None? {
      var present := db.Exists(id.value);
      if !present {
        return Failed(NotFound);
      }
      return Failed(AlreadyReserved);
    }
    reply := Done(slot.value);
  }

  /**
   * `POST /checkin/:id`. When the conditional update misses and the re-read
   * slot is reserved and not checked in, the handler falls through to a
   * success reply carrying a null slot; the postcondition shows that this
   * never happens when the update and the read see the same store.
   */
  method HandleCheckIn(db: Db, id: Option<int>) returns (reply: Reply)
    modifies db`slots
    ensures Outcome(reply, db.slots) == CheckIn(old(db.slots), id)
    ensures old(db.Valid()) ==> db.Valid()
    ensures reply != NullSlot
  {
    if id.None? {
      return Failed(InvalidId);
    }
    var slot := db.FindOneAndUpdate(id.value, Filter(Some(true), Some(false)),
                                    SetUpdate(None, None, Some(true)));
    if slot.None? {
      var existing := db.FindOne(id.value);
      if existing.None? {
        return Failed(NotFound);
      }
      if !existing.value.reserved {
        return Failed(NotReserved);
      }
      if existing.value.checkedIn {
        return Failed(AlreadyCheckedIn);
      }
    }
    reply := if slot.Some? then Done(slot.value) else NullSlot;
  }

  /** `POST /cancel/:id`. */
  method HandleCancel(db: Db, id: Option<int>) returns (reply: Reply)
    modifies db`slots
    ensures Outcome(reply, db.slots) == Cancel(old(db.slots), id)
    ensures old(db.Valid()) ==> db.Valid()
  {
    if id.None? {
      return Failed(InvalidId);
    }
    var slot := db.FindOneAndUpdate(id.value, Filter(Some(true), None),
                                    SetUpdate(Some(false), Some(None), Some(false)));
    if slot.None? {
      var existing := db.FindOne(id.value);
      if existing.None? {
        return Failed(NotFound);
      }
      return Failed(NotReserved);
    }
    reply := Done(slot.value);
  }

  /* ---------- Properties of the lifecycle ---------- */

  /** Two reserves of one Open slot in either order: the first wins, the second sees AlreadyReserved. */
  lemma ReserveRace(store: map<int, Slot>, id: int, first: string, second: string)
    requires id in store && StateOf(store[id]) == Open
    requires first != "" && second != ""
    ensures var o1 := Reserve(store, Some(id), Some(first));
            var o2 := Reserve(o1.store, Some(id), Some(second));
            o1.reply.Done? && o2.reply == Failed(AlreadyReserved)
            && o2.store == o1.store && o2.store[id].candidateName == Some(first)
  {
  }

  /** Cancel followed by reserve on the same slot always succeeds, leaving it not checked in. */
  lemma CancelThenReserve(store: map<int, Slot>, id: int, name: string)
    requires Cancel(store, Some(id)).reply.Done?
    requires name != ""
    ensures var o := Reserve(Cancel(store, Some(id)).store, Some(id), Some(name));
            o.reply.Done? && !o.store[id].checkedIn && o.store[id].candidateName == Some(name)
  {
  }

  /** A second consecutive check-in fails with AlreadyCheckedIn and changes nothing. */
  lemma CheckInTwice(store: map<int, Slot>, id: int)
    requires CheckIn(store, Some(id)).reply.Done?
    ensures var o1 := CheckIn(store, Some(id));
            CheckIn(o1.store, Some(id)) == Outcome(Failed(AlreadyCheckedIn), o1.store)
  {
  }

  /** Checking in an Open slot fails with NotReserved and changes nothing. */
  lemma CheckInOpenSlot(store: map<int, Slot>, id: int)
    requires id in store && !store[id].reserved
    ensures CheckIn(store, Some(id)) == Outcome(Failed(NotReserved), store)
  {
  }
}
