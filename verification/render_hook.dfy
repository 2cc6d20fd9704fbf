/** The body of the `renderChatMessage` hook as a pure decision
    (scripts/gwf-d12-rue.js, lines 103-134): a chain of silent early returns
    ending in at most one reroll button, bound to the first roll that both
    mentions `d12` and rolled low on a d12. */
module RenderHook {
  import opened Wrappers
  import opened Config
  import opened Chat
  import opened Directories
  import opened Qualifier
  import opened ActorResolver
  import opened RollInspector
  import opened FormulaRewriter

  /** The host's answers about the logged-in user: whether it holds owner
      permission on a given actor, and whether it is a GM account. */
  datatype Session = Session(ownsActor: Actor -> bool, isGM: bool)

  /** What the hook does to the rendered message. */
  datatype Decision = NoButton | AttachButton(rollIndex: nat)

  /** `/d12/.test(formula)`: the text `d12` occurs anywhere. */
  function ContainsD12(s: string): (b: bool)
    ensures b <==> exists i :: D12At(s, i)
    decreases |s|
  {
    if |s| < 3 then false
    else if D12At(s, 0) then true
    else
      D12InTail(s);
      ContainsD12(s[1..])
  }

  /** A roll the button may target. */
  predicate IsTarget(r: Roll) {
    ContainsD12(r.formula) && HasLowD12(r)
  }

  /** The scan of the `for` loop from index i on; -1 when nothing qualifies. */
  function FirstTargetFrom(rolls: seq<Roll>, i: nat): (t: int)
    requires i <= |rolls|
    ensures -1 <= t < |rolls|
    ensures t >= 0 ==> i <= t && IsTarget(rolls[t]) && forall j :: i <= j < t ==> !IsTarget(rolls[j])
    ensures t == -1 <==> forall j :: i <= j < |rolls| ==> !IsTarget(rolls[j])
    decreases |rolls| - i
  {
    if i == |rolls| then -1
    else if IsTarget(rolls[i]) then i
    else FirstTargetFrom(rolls, i + 1)
  }

  /** The smallest index of a target roll, or -1 when there is none. */
  function SelectTarget(rolls: seq<Roll>): (t: int)
    ensures -1 <= t < |rolls|
    ensures t >= 0 ==> IsTarget(rolls[t]) && forall j :: 0 <= j < t ==> !IsTarget(rolls[j])
    ensures t == -1 <==> forall j :: 0 <= j < |rolls| ==> !IsTarget(rolls[j])
  {
    FirstTargetFrom(rolls, 0)
  }

  /** The actor is Rue by name, or the message's speaker alias is Rue. */
  predicate IsRueMessage(actor: Actor, m: Message) {
    actor.name == ActorName || SpeakerAlias(m) == Some(ActorName)
  }

  /** `decorated` is whether the rendered message already holds a button. */
  function RenderChatMessage(m: Message, w: World, session: Session, decorated: bool): (d: Decision)
    ensures d.AttachButton? <==>
              && IsDnd5eDamageMessage(m)
              && ResolveActor(m, w).Some?
              && IsRueMessage(ResolveActor(m, w).value, m)
              && session.ownsActor(ResolveActor(m, w).value)
              && !session.isGM
              && (exists j :: 0 <= j < |m.rolls| && IsTarget(m.rolls[j]))
              && !decorated
    ensures d.AttachButton? ==>
              && d.rollIndex < |m.rolls|
              && IsTarget(m.rolls[d.rollIndex])
              && forall j :: 0 <= j < d.rollIndex ==> !IsTarget(m.rolls[j])
  {
    if !IsDnd5eDamageMessage(m) then NoButton
    else
      match ResolveActor(m, w)
      case None => NoButton
      case Some(actor) =>
        if actor.name != ActorName && SpeakerAlias(m) != Some(ActorName) then NoButton
        else if !session.ownsActor(actor) then NoButton
        else if session.isGM then NoButton
        else if |m.rolls| == 0 then NoButton
        else
          var t := SelectTarget(m.rolls);
          if t == -1 then NoButton
          else if decorated then NoButton
          else AttachButton(t)
  }

  /** A message that is not a dnd5e damage roll never gets a button. */
  lemma NonDamageMessageGetsNoButton(m: Message, w: World, session: Session, decorated: bool)
    requires !IsDnd5eDamageMessage(m)
    ensures RenderChatMessage(m, w, session, decorated) == NoButton
  {
  }

  /** A user without owner permission on the resolved actor never gets a
      button, whatever the rolls show. */
  lemma NonOwnerGetsNoButton(m: Message, w: World, session: Session, decorated: bool)
    requires ResolveActor(m, w).Some? && !session.ownsActor(ResolveActor(m, w).value)
    ensures RenderChatMessage(m, w, session, decorated) == NoButton
  {
  }

  /** A GM account never gets a button. */
  lemma GmGetsNoButton(m: Message, w: World, session: Session, decorated: bool)
    requires session.isGM
    ensures RenderChatMessage(m, w, session, decorated) == NoButton
  {
  }

  /** Rendering a message that already carries the button adds no second
      one. */
  lemma RerenderAddsNoSecondButton(m: Message, w: World, session: Session)
    ensures RenderChatMessage(m, w, session, true) == NoButton
  {
  }

  /** Without an active low d12 result in any roll, no button appears. */
  lemma NoLowD12MeansNoButton(m: Message, w: World, session: Session, decorated: bool)
    requires forall j :: 0 <= j < |m.rolls| ==> !HasLowD12(m.rolls[j])
    ensures RenderChatMessage(m, w, session, decorated) == NoButton
  {
  }

  /** The first target wins: rolls appended after it never move the
      selection. */
  lemma LaterRollsDoNotMoveTarget(rolls: seq<Roll>, more: seq<Roll>)
    requires SelectTarget(rolls) >= 0
    ensures SelectTarget(rolls + more) == SelectTarget(rolls)
  {
    var t := SelectTarget(rolls);
    var t' := SelectTarget(rolls + more);
    assert (rolls + more)[t] == rolls[t];
  }

  /** With two qualifying rolls the button targets the first. */
  lemma TwoQualifyingRollsPickFirst(a: Roll, b: Roll)
    requires IsTarget(a) && IsTarget(b)
    ensures SelectTarget([a, b]) == 0
  {
  }

  /** A roll that rolled low on a d12 is still skipped when its formula
      text does not mention `d12`, wherever it stands among the rolls. */
  lemma FormulaPrefilterApplies(rolls: seq<Roll>, j: nat)
    requires j < |rolls| && !ContainsD12(rolls[j].formula)
    ensures SelectTarget(rolls) != j
  {
  }
}
