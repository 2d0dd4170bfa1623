/**
 * Records shared by the slot routes and the block generator: the slot
 * document of the Slot schema (server/src/models/Slot.js), the block record,
 * the per-slot lifecycle invariant, and what the schema accepts on save.
 */
module Records {

  datatype Option<+T> = None | Some(value: T)

  /**
   * A stored slot document. `time` is the scheduled instant in milliseconds
   * since the epoch. `blockId` is the tag the block generator writes (None
   * for a slot that no block created).
   */
  datatype Slot = Slot(
    id: int,
    blockId: Option<string>,
    time: int,
    reserved: bool,
    candidateName: Option<string>,
    checkedIn: bool)

  /** The three lifecycle states of a slot. */
  datatype SlotState = Open | Reserved | CheckedIn

  function StateOf(s: Slot): SlotState {
    if !s.reserved then Open else if s.checkedIn then CheckedIn else Reserved
  }

  /** A candidate name passes the routes' `!name` guard only when present and non-empty. */
  predicate Named(name: Option<string>) {
    name.Some? && name.value != ""
  }

  /**
   * The per-slot invariant: a checked-in slot is reserved, an unreserved slot
   * has no candidate and is not checked in, and a reserved slot has a name.
   */
  predicate Consistent(s: Slot) {
    && (s.checkedIn ==> s.reserved)
    && (!s.reserved ==> s.candidateName.None? && !s.checkedIn)
    && (s.reserved ==> Named(s.candidateName))
  }

  /** The state a slot is created in. */
  predicate IsOpen(s: Slot) {
    !s.reserved && s.candidateName.None? && !s.checkedIn
  }

  /** The slot collection is keyed by the slot's own (unique) `id` field. */
  ghost predicate KeyedById(store: map<int, Slot>) {
    forall k | k in store :: store[k].id == k
  }

  ghost predicate StoreInvariant(store: map<int, Slot>) {
    && KeyedById(store)
    && forall k | k in store :: Consistent(store[k])
  }

  /** A block as the block generator constructs it; `slotLength` is in minutes. */
  datatype Block = Block(
    blockId: string,
    interviewerName: string,
    startTime: int,
    endTime: int,
    slotLength: int)

  /**
   * The fields handed to the Slot constructor, after the schema's strict mode
   * has dropped every path it does not declare. `time` is None when the
   * caller supplied the instant under some other name.
   */
  datatype SlotFields = SlotFields(
    id: int,
    blockId: Option<string>,
    time: Option<int>,
    reserved: bool,
    candidateName: Option<string>,
    checkedIn: bool)

  /**
   * Schema validation on save: `time` is a required path, so a document
   * without it is refused; otherwise the document is stored as given.
   */
  function Validate(f: SlotFields): (r: Option<Slot>)
    ensures r.Some? <==> f.time.Some?
    ensures r.Some? ==> r.value.id == f.id && r.value.blockId == f.blockId
                        && r.value.time == f.time.value && r.value.reserved == f.reserved
                        && r.value.candidateName == f.candidateName && r.value.checkedIn == f.checkedIn
  {
    match f.time
    case None => None
    case Some(t) => Some(Slot(f.id, f.blockId, t, f.reserved, f.candidateName, f.checkedIn))
  }
}
