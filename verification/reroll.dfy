/** What the button's click handler asks the host to roll and publish
    (scripts/gwf-d12-rue.js, lines 67-86): the rewritten formula with the
    original roll data, the original speaker, an annotated flavor text and
    flags that link back to the source message. */
module Reroll {
  import opened Wrappers
  import opened Chat
  import opened FormulaRewriter
  import opened RollInspector
  import opened Directories
  import opened RenderHook

  const DefaultFlavor: string := "Damage Roll"
  const FlavorNote: string := " | GWF reroll once on d12 results 1\U{2013}2"
  const FlagScope: string := "gwf-d12-rue"

  /** The flags stored under the script's own scope on the new message. */
  datatype RerollFlags = RerollFlags(scope: string, sourceMessageId: string, applied: bool)

  /** The new roll and the message options passed to `toMessage`. */
  datatype RerollRequest = RerollRequest(
    formula: string,
    data: RollData,
    speaker: Option<Speaker>,
    flavor: string,
    flags: RerollFlags)

  /** A missing roll at `rollIndex` ends the handler with nothing to
      publish. */
  function RerollFor(m: Message, rollIndex: int): (r: Option<RerollRequest>)
    ensures r.Some? <==> 0 <= rollIndex < |m.rolls|
    ensures r.Some? ==>
              var base := m.rolls[rollIndex];
              var flavor := r.value.flavor;
              // each d12 not followed by a letter gains `ro<=2`, nothing else changes
              && r.value.formula == Annotated(base.formula, 0)
              // the result offers no further reroll-once match
              && (forall i :: !MatchAt(r.value.formula, i))
              && r.value.data == base.data
              && r.value.speaker == m.speaker
              // the original flavor (or the default when absent), then the note
              && |FlavorNote| <= |flavor|
              && flavor[|flavor| - |FlavorNote|..] == FlavorNote
              && flavor[..|flavor| - |FlavorNote|] == m.flavor.GetOr(DefaultFlavor)
              && r.value.flags == RerollFlags(FlagScope, m.id, true)
  {
    if !(0 <= rollIndex < |m.rolls|) then None
    else
      var base := m.rolls[rollIndex];
      var formula := AddRerollOnceToD12(base.formula);
      RewriteInsertsModifierAfterEachMatch(base.formula);
      RewriteLeavesNoMatch(base.formula);
      var flavor := m.flavor.GetOr(DefaultFlavor) + FlavorNote;
      assert flavor[|flavor| - |FlavorNote|..] == FlavorNote;
      assert flavor[..|flavor| - |FlavorNote|] == m.flavor.GetOr(DefaultFlavor);
      Some(RerollRequest(formula, base.data, m.speaker, flavor, RerollFlags(FlagScope, m.id, true)))
  }

  /** Every button the hook attaches has a roll to reroll, provided the
      message the click handler reads is the one the hook rendered: for that
      message the handler's missing-roll exit is not taken. */
  lemma AttachedButtonHasRoll(m: Message, w: World, session: Session, decorated: bool)
    requires RenderChatMessage(m, w, session, decorated).AttachButton?
    ensures RerollFor(m, RenderChatMessage(m, w, session, decorated).rollIndex).Some?
  {
  }

  /** An empty flavor is kept (only a missing flavor is replaced by the default). */
  lemma EmptyFlavorIsKept(m: Message, i: int)
    requires 0 <= i < |m.rolls| && m.flavor == Some("")
    ensures RerollFor(m, i).Some? && RerollFor(m, i).value.flavor == FlavorNote
  {
  }

  /** A target whose only d12 already carries a letter modifier is rerolled
      with its formula unchanged: the pre-filter accepts `2d12kh`, the
      rewrite leaves it alone. */
  lemma ModifiedD12IsRerolledUnchanged(m: Message, r: Roll)
    requires r.formula == "2d12kh" && m.rolls == [r]
    requires r.dice == [Die(12, [DieResult(None, Some(1)), DieResult(None, Some(7))])]
    ensures SelectTarget(m.rolls) == 0
    ensures RerollFor(m, 0).Some? && RerollFor(m, 0).value.formula == r.formula
  {
    assert D12At(r.formula, 1);
    assert IsLowResult(r.dice[0].results[0]);
    LetterBlocksMatch(r.formula);
  }
}
