/** Decides whether a chat message is a dnd5e damage roll worth inspecting
    (scripts/gwf-d12-rue.js, `isDnd5eDamageMessage`). */
module Qualifier {
  import opened Wrappers
  import opened Chat

  const MessageTypeRoll: string := "roll"
  const RollTypeDamage: string := "damage"

  /** The roll type recorded in a message's system flags, if any. */
  function RollTypeOf(d: Dnd5eFlags): Option<string> {
    match d.roll
    case None => None
    case Some(rf) => rf.rollType
  }

  /** Early returns in the order of the script: missing dnd5e flags, wrong
      message type, wrong roll type. Fails closed on any absent field. */
  predicate IsDnd5eDamageMessage(m: Message)
    ensures IsDnd5eDamageMessage(m) <==>
              && m.flags.Some?
              && m.flags.value.dnd5e.Some?
              && m.flags.value.dnd5e.value.messageType == Some(MessageTypeRoll)
              && m.flags.value.dnd5e.value.roll.Some?
              && m.flags.value.dnd5e.value.roll.value.rollType == Some(RollTypeDamage)
  {
    match Dnd5eOf(m)
    case None => false
    case Some(d) =>
      if d.messageType != Some(MessageTypeRoll) then false
      else if RollTypeOf(d) != Some(RollTypeDamage) then false
      else true
  }

  /** Only the dnd5e classification fields matter: speaker, rolls, flavor,
      id and the item reference can be anything. */
  lemma OnlyClassificationMatters(m: Message, m': Message)
    requires Dnd5eOf(m).Some? <==> Dnd5eOf(m').Some?
    requires Dnd5eOf(m).Some? ==>
               && Dnd5eOf(m).value.messageType == Dnd5eOf(m').value.messageType
               && RollTypeOf(Dnd5eOf(m).value) == RollTypeOf(Dnd5eOf(m').value)
    ensures IsDnd5eDamageMessage(m) == IsDnd5eDamageMessage(m')
  {
  }
}
