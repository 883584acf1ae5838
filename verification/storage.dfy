/**
 The single `localStorage` entry under the key "chat-messages". Its content is
 represented by what `JSON.parse` makes of the stored string; serialising a
 list and parsing it back is taken to be lossless.
 */
module Storage {
  import opened Messages

  /** The slot: no entry, the empty string (falsy, so never parsed), a string
      `JSON.parse` rejects, valid JSON that is not an array, or an array. */
  datatype Slot = Absent | EmptyString | Malformed | NonArray | JsonArray(items: seq<Message>)

  /** What the load effect produces: the list to show and the slot afterwards. */
  datatype Loaded = Loaded(messages: seq<Message>, slot: Slot)

  /** `JSON.stringify(messages)` as stored in the slot. */
  function Serialize(messages: seq<Message>): Slot {
    JsonArray(messages)
  }

  /** The mount-time load effect. Only a parsed array yields messages; only a
      parse failure changes the slot, and then by removing it. */
  function Load(slot: Slot): (r: Loaded)
    ensures slot.JsonArray? ==> r.messages == slot.items
    ensures !slot.JsonArray? ==> r.messages == []
    ensures r.slot != slot <==> slot.Malformed?
    ensures r.slot != slot ==> r.slot == Absent
  {
    match slot
    case Absent => Loaded([], slot)
    case EmptyString => Loaded([], slot)
    case Malformed => Loaded([], Absent)
    case NonArray => Loaded([], slot)
    case JsonArray(items) => Loaded(items, slot)
  }

  /** The save effect. A refused write (quota exceeded or storage
      unavailable) is reported and swallowed: the slot keeps its old content. */
  function Save(slot: Slot, messages: seq<Message>, writeOk: bool): (r: Slot)
    ensures writeOk ==> Load(r) == Loaded(messages, r)
    ensures !writeOk ==> r == slot
  {
    if writeOk then Serialize(messages) else slot
  }

  /** Loading from what a load left behind gives the same list and slot:
      discarding a corrupt entry is a one-time repair. */
  lemma LoadStable(slot: Slot)
    ensures Load(Load(slot).slot) == Load(slot)
  {
  }

  /** Saving a list and loading it back yields that list, whatever the slot
      held before. */
  lemma LoadAfterSave(slot: Slot, messages: seq<Message>)
    ensures Load(Save(slot, messages, true)).messages == messages
  {
  }
}
