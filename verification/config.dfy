/** The three fixed settings of the house rule: whose rolls, which die, and
    the highest result that may be rerolled. */
module Config {

  const ActorName: string := "Rue"
  const DieFaces: int := 12
  const Low: int := 2
}
