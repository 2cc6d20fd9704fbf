# GWF d12 reroll for Rue — Dafny model

This project models the decision kernel of a Foundry VTT module. The module watches chat messages from the dnd5e system. When the character "Rue" makes a damage roll in which a twelve-sided die landed on 1 or 2, it offers a one-click "reroll once" button. The button rerolls the formula with the modifier `ro<=2` added to every `d12` term and publishes the result as a new chat message.

The module's code is one script, `scripts/gwf-d12-rue.js`. Around DOM and host plumbing it holds a small pure kernel, modelled here as pure functions over immutable datatypes:

- `Config`: the fixed actor name `"Rue"`, die face count 12 and threshold 2.
- `Chat`, `Directories`: the fields of a chat message, roll, die term and result that the script reads, and the actor, scene and token directories of the world. Every field the script reaches through optional chaining is an `Option`. A collection the script defaults to an empty list, or a directory the host may lack, is a plain sequence or map, where absent means empty.
- `Qualifier`: `isDnd5eDamageMessage`.
- `ItemUuid`: `actorIdFromItemUuid`. The regular expression `^Actor\.([^.]+)\.Item\.` is written out as string parsing.
- `ActorResolver`: `getActorForMessage`. It tries three steps in order, and an early return is final even when its lookup fails.
- `RollInspector`: `hasLowD12`.
- `FormulaRewriter`: `addRerollOnceToD12`, the global replace of `d12(?![a-zA-Z])` by `d12ro<=2`.
- `RenderHook`: the `renderChatMessage` hook body. It is a chain of silent early returns that either attaches one button bound to a roll index or attaches nothing.
- `Reroll`: the click handler's new formula, roll data, speaker, flavor text and traceability flags.

The rewriter follows the code, which contradicts its own comment in one case. The comment at scripts/gwf-d12-rue.js:51-52 says other dice are left untouched. But the code's lookahead blocks a match only when an ASCII letter follows, so a digit does not block it: `1d120` becomes `1d12ro<=20` (`FormulaRewriter.DigitDoesNotBlockMatch`). For the same reason, a `d12` that already carries a letter modifier is not rewritten. So a target roll `2d12kh` is rerolled with its formula unchanged (`Reroll.ModifiedD12IsRerolledUnchanged`).

The rewrite cannot be inverted on all strings, because `d12` and `d12ro<=2` both rewrite to `d12ro<=2`. Its round trip is stated in two ways:

- per character: the output is the input with `ro<=2` inserted after each match and nowhere else (`Annotated`);
- by erasure: deleting every `ro<=2` that follows a `d12` restores any formula that did not already contain `d12ro<=2`.

## Model

| member | source | states |
|---|---|---|
| `Qualifier.IsDnd5eDamageMessage` | scripts/gwf-d12-rue.js:9-15 | true exactly when `flags.dnd5e` is present, its message type is `"roll"` and its roll type is `"damage"`; any absent field gives false |
| `Qualifier.OnlyClassificationMatters` | scripts/gwf-d12-rue.js:9-15 | two messages that agree on the dnd5e message type and roll type are classified alike, whatever their other fields |
| `ItemUuid.DotIndex` | scripts/gwf-d12-rue.js:21 | the greedy group `[^.]+` ends at the first `.`: no `.` before the index, a `.` at it unless at the end |
| `ItemUuid.ActorIdFromUuid` | scripts/gwf-d12-rue.js:21-22 | returns `Some(id)` exactly when the uuid is `Actor.` + id + `.Item.` + anything, with id non-empty and free of `.`; every other shape gives `None` |
| `ItemUuid.UniqueActorId` | scripts/gwf-d12-rue.js:21 | at most one actor id fits a given uuid |
| `ItemUuid.BuildThenParse` | scripts/gwf-d12-rue.js:21-22 | parsing `Actor.<id>.Item.<rest>` gives back `id` for every valid id and any rest |
| `ItemUuid.ItemActorId` | scripts/gwf-d12-rue.js:17-23 | an absent uuid gives `None`; otherwise the result is `Some` exactly when some actor id fits the uuid, and the id it returns fits |
| `ItemUuid.ExampleUuid` | scripts/gwf-d12-rue.js:19-22 | the uuid in the script's comment yields `Nrh2UoJky0POpiu9` |
| `ItemUuid.EmptyIdRejected` | scripts/gwf-d12-rue.js:21-22 | `Actor..Item.x` gives `None`: the id must be non-empty |
| `ItemUuid.OtherCollectionRejected` | scripts/gwf-d12-rue.js:21-22 | `Actor.abc.Token.x` gives `None`: `.Item.` must follow the id |
| `ItemUuid.PrefixMustStartUuid` | scripts/gwf-d12-rue.js:21-22 | `Scene.s.Actor.abc.Item.x` gives `None`: the pattern is anchored at the start |
| `ActorResolver.ResolveActor` | scripts/gwf-d12-rue.js:25-35 | an item-linked message resolves through the actor directory alone; otherwise a speaker actor id does; otherwise the result is present exactly when the speaker's token in the chosen scene carries an actor, and is that actor |
| `ActorResolver.TokenActorIsReturned` | scripts/gwf-d12-rue.js:32-34 | with no item link and no speaker actor id, the actor of the speaker's token in the chosen scene is returned |
| `ActorResolver.ItemLinkIsFinal` | scripts/gwf-d12-rue.js:26-27 | an item-link id unknown to the actor directory gives no actor, with no fall-through |
| `ActorResolver.ItemLinkIgnoresFallbacks` | scripts/gwf-d12-rue.js:26-34 | with an item link, changing the speaker, the scene directory or the canvas scene never changes the result |
| `ActorResolver.SpeakerLinkIgnoresScenes` | scripts/gwf-d12-rue.js:29-34 | with a speaker actor id and no item link, the scenes are never consulted |
| `ActorResolver.SpeakerLinkIsFinal` | scripts/gwf-d12-rue.js:29-30 | a speaker actor id unknown to the directory gives no actor, with no fall-through |
| `ActorResolver.EmptySpeakerActorFallsThrough` | scripts/gwf-d12-rue.js:30-34 | an empty speaker actor id is falsy, so resolution goes to the token |
| `ActorResolver.UnknownSceneUsesCanvas` | scripts/gwf-d12-rue.js:32 | a speaker scene id the directory lacks falls back to the canvas scene |
| `ActorResolver.ItemUuidScenario` | scripts/gwf-d12-rue.js:25-27 | item uuid `Actor.ABC123.Item.XYZ789` resolves to actor `ABC123` |
| `ActorResolver.SpeakerScenario` | scripts/gwf-d12-rue.js:29-30 | no item reference and speaker actor `DEF456` resolves to actor `DEF456` |
| `RollInspector.AnyLowResult` | scripts/gwf-d12-rue.js:41-45 | true exactly when some result is not explicitly inactive and has a finite value of at most 2 |
| `RollInspector.AnyLowOnTargetDie` | scripts/gwf-d12-rue.js:39-47 | true exactly when some 12-faced die has such a result |
| `RollInspector.HasLowD12` | scripts/gwf-d12-rue.js:37-48 | true exactly when some die with 12 faces has a result whose active flag is not false and whose value is finite and at most 2 |
| `RollInspector.OtherDiceIgnored` | scripts/gwf-d12-rue.js:40 | inserting a die of another face count anywhere never changes the answer |
| `RollInspector.InactiveResultsIgnored` | scripts/gwf-d12-rue.js:42 | inserting an explicitly inactive result into any die never changes the answer |
| `RollInspector.ResultScenarios` | scripts/gwf-d12-rue.js:40-44 | an unset active flag still counts; inactive 1s, 3s and low results on a d8 do not |
| `FormulaRewriter.AddRerollOnceToD12` | scripts/gwf-d12-rue.js:50-54 | the left-to-right global replace of the pattern; it carries no contract of its own, and its behaviour is stated by `RewriteInsertsModifierAfterEachMatch`, `EraseUndoesRewrite` and `RewriteIsIdempotent` |
| `FormulaRewriter.RewriteInsertsModifierAfterEachMatch` | scripts/gwf-d12-rue.js:53 | every character of the formula is kept in order, and `ro<=2` is inserted right after each `d12` not followed by an ASCII letter, and nowhere else |
| `FormulaRewriter.EraseUndoesRewrite` | scripts/gwf-d12-rue.js:53 | deleting every inserted `ro<=2` restores the formula, for any formula not already spelling `d12ro<=2` |
| `FormulaRewriter.RewriteLeavesNoMatch` | scripts/gwf-d12-rue.js:53 | after one pass every `d12` in the result is followed by an ASCII letter |
| `FormulaRewriter.NoMatchMeansUnchanged` | scripts/gwf-d12-rue.js:53 | a formula with no match is returned unchanged |
| `FormulaRewriter.RewriteIsIdempotent` | scripts/gwf-d12-rue.js:53 | rewriting twice equals rewriting once |
| `FormulaRewriter.MatchedTermIsRewritten` | scripts/gwf-d12-rue.js:53 | a `d12` after a `d`-free prefix and before a non-letter gains exactly `ro<=2`, and the text around it is kept when the rewrite leaves the text after it unchanged |
| `FormulaRewriter.MixedFormula` | scripts/gwf-d12-rue.js:50-54 | `1d12 + 2d8 + 3` becomes `1d12ro<=2 + 2d8 + 3`: the d8 term and the constant are kept |
| `FormulaRewriter.LetterBlocksMatch` | scripts/gwf-d12-rue.js:53 | `2d12kh` is left unchanged, because a letter follows the `d12` |
| `FormulaRewriter.UpperCaseIsNotMatched` | scripts/gwf-d12-rue.js:53 | `1D12` is left unchanged, because the match is case-sensitive |
| `FormulaRewriter.DigitDoesNotBlockMatch` | scripts/gwf-d12-rue.js:53 | `1d120` becomes `1d12ro<=20` |
| `RenderHook.ContainsD12` | scripts/gwf-d12-rue.js:123 | true exactly when the text `d12` occurs somewhere in the formula |
| `RenderHook.FirstTargetFrom` | scripts/gwf-d12-rue.js:120-127 | returns the smallest index from i on whose roll mentions `d12` and rolled low on a d12, or -1 exactly when there is none |
| `RenderHook.SelectTarget` | scripts/gwf-d12-rue.js:119-128 | returns the smallest qualifying roll index, always in bounds, or -1 exactly when no roll qualifies |
| `RenderHook.RenderChatMessage` | scripts/gwf-d12-rue.js:104-131 | a button is attached exactly when the message qualifies, an actor resolves, the actor or the speaker alias is Rue, the user owns the actor, the user is not GM, some roll is a target and no button is present; it targets the first qualifying roll |
| `RenderHook.NonDamageMessageGetsNoButton` | scripts/gwf-d12-rue.js:104 | a message that is not a dnd5e damage roll never gets a button |
| `RenderHook.NonOwnerGetsNoButton` | scripts/gwf-d12-rue.js:113 | a user without owner permission on the resolved actor never gets a button |
| `RenderHook.GmGetsNoButton` | scripts/gwf-d12-rue.js:114 | a GM account never gets a button |
| `RenderHook.RerenderAddsNoSecondButton` | scripts/gwf-d12-rue.js:131 | rendering a message that already holds the button attaches nothing |
| `RenderHook.NoLowD12MeansNoButton` | scripts/gwf-d12-rue.js:119-128 | if no roll has an active low d12 result, no button is attached |
| `RenderHook.LaterRollsDoNotMoveTarget` | scripts/gwf-d12-rue.js:121-126 | rolls appended after a found target never change the selection |
| `RenderHook.TwoQualifyingRollsPickFirst` | scripts/gwf-d12-rue.js:121-126 | of two qualifying rolls, the first is selected |
| `RenderHook.FormulaPrefilterApplies` | scripts/gwf-d12-rue.js:123 | a roll whose formula text lacks `d12` is never selected, at any position in the message's rolls |
| `Reroll.RerollFor` | scripts/gwf-d12-rue.js:67-86 | a request exists exactly for an in-bounds index; its formula is the original with `ro<=2` after each match and no match left; data and speaker are carried over; the flavor is the original (or `Damage Roll`) followed by the note; the flags name the source message and mark the reroll applied |
| `Reroll.AttachedButtonHasRoll` | scripts/gwf-d12-rue.js:68-69 | for every button the hook attaches, the click handler finds the roll it targets, when it reads the same message the hook rendered |
| `Reroll.EmptyFlavorIsKept` | scripts/gwf-d12-rue.js:74 | an empty flavor is kept rather than replaced by the default |
| `Reroll.ModifiedD12IsRerolledUnchanged` | scripts/gwf-d12-rue.js:53 | a target `2d12kh` passes the `d12` pre-filter but its reroll formula equals the original |

## Left out

- Button construction, placement next to `.dice-total`, click wiring and the button's disable/re-enable around the click (lines 56-66, 91, 95-100): these are UI. The model's `decorated` input stands for the duplicate-button lookup.
- `Hooks.on` registration: this is host event plumbing. The hook body is the function `RenderHook.RenderChatMessage` of its inputs.
- `new Roll(...).evaluate` and `toMessage`: these are asynchronous calls into the host's dice engine and chat subsystem. The model builds only the formula, data and message options passed to them (`Reroll.RerollRequest`), so the caught failure path, the console log and the error notification (lines 87-89) are not modelled.
- `testUserPermission` and `game.user.isGM`: these belong to the host's permission model and are opaque inputs (`RenderHook.Session`).
- `Number(...)` and `Number.isFinite`: a result value is an `Option<int>`, where `None` stands for a value that does not convert to a finite number. Fractional values are not modelled.
- The `if (!roll)` guard of `hasLowD12` (line 38) cannot fire in the typed model, because every roll in a message's sequence is present. A missing die or result behaves like a die of another face count or a result with no value, and both are representable.
- The separate `rolls.length` gate (line 117) is subsumed: `RenderHook.RenderChatMessage` states the button condition as "some roll is a target", which already needs a roll.
- Reroll.AttachedButtonHasRoll: assumes the message is unchanged between the render that chose the roll index and the click. The click handler re-reads the message's rolls (lines 68-69), and the model has no notion of the message changing in between.
