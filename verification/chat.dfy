/** The parts of a dnd5e chat message that the hook reads. Every field the
    script reaches through optional chaining is an `Option`; a collection the
    script defaults to an empty list is a plain sequence, absent meaning
    empty. */
module Chat {
  import opened Wrappers

  /** Roll-evaluation context data; carried to the new roll unchanged. */
  type RollData = map<string, string>

  /** One rolled value of a die term. `value` is `None` when the result does
      not convert to a finite number; `active` is `None` when unset. */
  datatype DieResult = DieResult(active: Option<bool>, value: Option<int>)

  datatype Die = Die(faces: int, results: seq<DieResult>)

  datatype Roll = Roll(formula: string, dice: seq<Die>, data: RollData)

  datatype Speaker = Speaker(
    actor: Option<string>,
    scene: Option<string>,
    token: Option<string>,
    alias: Option<string>)

  /** The system's roll flags of a message. */
  datatype RollFlags = RollFlags(rollType: Option<string>)

  /** The system's item flags of a message: the item's uuid. */
  datatype ItemFlags = ItemFlags(uuid: Option<string>)

  /** The system's (dnd5e) flags of a message. */
  datatype Dnd5eFlags = Dnd5eFlags(
    messageType: Option<string>,
    roll: Option<RollFlags>,
    item: Option<ItemFlags>)

  datatype MessageFlags = MessageFlags(dnd5e: Option<Dnd5eFlags>)

  datatype Message = Message(
    id: string,
    flags: Option<MessageFlags>,
    speaker: Option<Speaker>,
    rolls: seq<Roll>,
    flavor: Option<string>)

  /** The system flags of a message, if it has any. */
  function Dnd5eOf(m: Message): Option<Dnd5eFlags> {
    match m.flags
    case None => None
    case Some(f) => f.dnd5e
  }

  /** The alias the message is spoken under, if any. */
  function SpeakerAlias(m: Message): Option<string> {
    match m.speaker
    case None => None
    case Some(s) => s.alias
  }
}
