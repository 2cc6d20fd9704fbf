/** Decides whether a roll actually rolled low on the configured die
    (scripts/gwf-d12-rue.js, `hasLowD12`). */
module RollInspector {
  import opened Wrappers
  import opened Config
  import opened Chat

  /** A result qualifies when it is not explicitly inactive and its value is
      a finite number no greater than the threshold. */
  predicate IsLowResult(r: DieResult) {
    && r.active != Some(false)
    && r.value.Some?
    && r.value.value <= Low
  }

  /** Some die with the configured face count carries a qualifying result. */
  ghost predicate LowResultOnTargetDie(dice: seq<Die>) {
    exists i, j :: 0 <= i < |dice| && dice[i].faces == DieFaces
                   && 0 <= j < |dice[i].results| && IsLowResult(dice[i].results[j])
  }

  /** The inner loop over one die's results. */
  function AnyLowResult(results: seq<DieResult>): (b: bool)
    ensures b <==> exists j :: 0 <= j < |results| && IsLowResult(results[j])
  {
    if |results| == 0 then false
    else if IsLowResult(results[0]) then true
    else
      assert forall j :: 1 <= j < |results| ==> results[j] == results[1..][j - 1];
      AnyLowResult(results[1..])
  }

  /** The outer loop over the dice, skipping dice of any other face count. */
  function AnyLowOnTargetDie(dice: seq<Die>): (b: bool)
    ensures b <==> LowResultOnTargetDie(dice)
  {
    if |dice| == 0 then false
    else if dice[0].faces == DieFaces && AnyLowResult(dice[0].results) then true
    else
      assert forall i :: 1 <= i < |dice| ==> dice[i] == dice[1..][i - 1];
      AnyLowOnTargetDie(dice[1..])
  }

  function HasLowD12(roll: Roll): (b: bool)
    ensures b <==> LowResultOnTargetDie(roll.dice)
  {
    AnyLowOnTargetDie(roll.dice)
  }

  /** Inserting a die of another face count anywhere never changes the
      answer. */
  lemma OtherDiceIgnored(roll: Roll, k: nat, d: Die)
    requires k <= |roll.dice| && d.faces != DieFaces
    ensures HasLowD12(roll.(dice := roll.dice[..k] + [d] + roll.dice[k..])) == HasLowD12(roll)
  {
    var dice := roll.dice;
    var dice' := dice[..k] + [d] + dice[k..];
    if LowResultOnTargetDie(dice) {
      var i, j :| 0 <= i < |dice| && dice[i].faces == DieFaces
                  && 0 <= j < |dice[i].results| && IsLowResult(dice[i].results[j]);
      var i' := if i < k then i else i + 1;
      assert dice'[i'] == dice[i];
    }
    if LowResultOnTargetDie(dice') {
      var i', j :| 0 <= i' < |dice'| && dice'[i'].faces == DieFaces
                   && 0 <= j < |dice'[i'].results| && IsLowResult(dice'[i'].results[j]);
      var i := if i' < k then i' else i' - 1;
      assert dice[i] == dice'[i'];
    }
  }

  /** Inserting an explicitly inactive result into any die never changes
      the answer. */
  lemma InactiveResultsIgnored(roll: Roll, i: nat, k: nat, res: DieResult)
    requires i < |roll.dice| && k <= |roll.dice[i].results| && res.active == Some(false)
    ensures var die := roll.dice[i];
            var die' := die.(results := die.results[..k] + [res] + die.results[k..]);
            HasLowD12(roll.(dice := roll.dice[i := die'])) == HasLowD12(roll)
  {
    var dice := roll.dice;
    var die := dice[i];
    var die' := die.(results := die.results[..k] + [res] + die.results[k..]);
    var dice' := dice[i := die'];
    if LowResultOnTargetDie(dice) {
      var a, j :| 0 <= a < |dice| && dice[a].faces == DieFaces
                  && 0 <= j < |dice[a].results| && IsLowResult(dice[a].results[j]);
      if a == i {
        var j' := if j < k then j else j + 1;
        assert dice'[a].results[j'] == dice[a].results[j];
      } else {
        assert dice'[a] == dice[a];
      }
    }
    if LowResultOnTargetDie(dice') {
      var a, j' :| 0 <= a < |dice'| && dice'[a].faces == DieFaces
                   && 0 <= j' < |dice'[a].results| && IsLowResult(dice'[a].results[j']);
      if a == i {
        assert j' != k;
        var j := if j' < k then j' else j' - 1;
        assert dice[a].results[j] == dice'[a].results[j'];
      } else {
        assert dice[a] == dice'[a];
      }
    }
  }

  /** A result that is unset, rather than explicitly inactive, still counts;
      a 1 on a d12 qualifies, a 3 does not. */
  lemma ResultScenarios(roll: Roll)
    requires roll.dice == [Die(12, [DieResult(None, Some(3)), DieResult(None, Some(1))])]
    ensures HasLowD12(roll)
    ensures !HasLowD12(roll.(dice := [Die(12, [DieResult(Some(false), Some(1)), DieResult(Some(true), Some(3))])]))
    ensures !HasLowD12(roll.(dice := [Die(8, [DieResult(Some(true), Some(1))])]))
  {
    assert IsLowResult(roll.dice[0].results[1]);
  }
}
