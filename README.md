# Darts scorer engine in Dafny

This project models the scoring engine of a darts scorer with three game
variants: Half-It, Cricket and 501. It has three parts.

- **Rule catalog** (`game_types.dfy`, module `GameTypes`). It holds:
  - the roster bounds 1..8;
  - the twelve Half-It rounds, with their kinds and input maxima;
  - the seven Cricket targets and their point values;
  - the generator of 501 rounds;
  - the table of known 501 checkouts.

  `decimal.dfy` (module `Decimal`) covers two string conversions:
  - `Number(id)`, which the Half-It calculator in `GameContext.tsx` uses to
    read a numbered round's face value out of its id;
  - `${n}`, which the 501 round generator uses to write a round number.
- **Score calculators and reducer** (`game_context.dfy`, module
  `GameContext`, with properties in `game_context_proofs.dfy`, module
  `GameContextProofs`):
  - The game state is an immutable value. `Reduce` is the reducer over the
    five actions `ADD_PLAYER`, `REMOVE_PLAYER`, `UPDATE_SCORE`, `RESET_GAME`
    and `SET_GAME_MODE`.
  - The source runs two parts step by step, and those are methods proved
    equal to their specifying functions:
    - `CalculateCricketScore` is the loop over the targets.
    - `ApplyUpdateScore` writes one slot, records the marks, then rescores
      every player in turn. Its Half-It branch is the corrected one from
      "## Findings", not the branch as the source writes it.
  - `GameReducer` is the dispatching method.
  - The id that `crypto.randomUUID` would generate for a new player is a
    parameter (`freshId`).
- **501 derived views** (`five_hundred_one.dfy`, module `FiveHundredOneCard`):
  - the checkout suggestion for a remaining score;
  - the number of rounds the card shows;
  - the remaining score;
  - the winner.

The model follows the code, with one exception. The Half-It branch of
`UPDATE_SCORE` never stores the recomputed total (see "## Findings").
`UpdateHalfItAsWritten` models that branch as written. `UpdateScoreState`,
`ApplyUpdateScore`, `Reduce` and `GameReducer` use the corrected branch,
which does store it. Everywhere else, where the code differs from what a
darts player might expect, the code decides:

- A Half-It total is the plain sum of the slot scores. A miss adds 0 and
  halves nothing (`HalfItMissKeepsTotal`).
- The doubles and triples rounds multiply their input by 2 and 3.
- `RESET_GAME` returns to Half-It mode.
- `REMOVE_PLAYER` does not rescore Cricket: the players it keeps are the
  same records.
- Mode 501 uses the Cricket branch of `UPDATE_SCORE`:
  - each of its seven slots sets the marks of the matching Cricket target;
  - totals are Cricket totals;
  - completion is the Cricket rule.
- Completion is decided from the updated player alone.
- There is no bust rule in 501. The remaining score may go negative, and the
  checkout suggestion then gives nothing.

## Model

| member | source | states |
|---|---|---|
| `GameTypes.RosterBounds` | src/types/game.ts:1-2 | The roster is bounded by MinPlayers = 1 ≤ MaxPlayers = 8 |
| `GameTypes.HalfItLayout` | src/types/game.ts:34-47 | There are 12 Half-It rounds. Doubles, triples, the exact 41 and the bull sit at positions 2, 5, 8 and 11. Every round's maxInput is 9, 180, 180, 1 or 3 according to its kind |
| `GameTypes.NumberRoundFace` | src/types/game.ts:35-45 | Every numbered round's id is a decimal face value from 13 to 20, and its label equals its id |
| `GameTypes.NumberRoundsAscend` | src/types/game.ts:35-45 | The numbered rounds come in strictly increasing face order |
| `GameTypes.CricketCatalog` | src/types/game.ts:50-75 | There are 7 distinct targets, and exactly the targets have point values. Numbered targets score their face value and the bull scores 25 |
| `GameTypes.CreateRound` | src/types/game.ts:77-84 | Round `i` has the id `round` followed by the decimal for i+1, written without a leading zero. Its label is `Round ` followed by the same digits. It has the 501 kind and maxInput 180 |
| `GameTypes.CreateRoundIdsDistinct` | src/types/game.ts:77-84 | Rounds generated at different positions have different ids |
| `Decimal.NatToStringRoundTrip` | src/types/game.ts:79-80 | The number written into a round id by the template literal reads back as that number |
| `Decimal.NatToStringCanonical` | src/types/game.ts:79-80 | A digit string that is "0" or has a non-zero first digit is exactly what the template literal writes for its value. So the `CreateRound` contract fixes the id text, not only its value |
| `GameTypes.CheckoutTableSound` | src/types/game.ts:87-94 | Every listed checkout is three darts whose values (treble 3n, double 2n, bull 50) add up to its key, and the last dart is a double or the bull |
| `GameContext.HalfItRoundScore` | src/context/GameContext.tsx:20-42 | An empty slot scores 0 and a non-negative input never scores below 0. The exact round scores 41 exactly when the input is 1, and 0 otherwise |
| `GameContextProofs.HalfItRoundScoreTable` | src/context/GameContext.tsx:24-41 | The per-round score by kind: the input times the round's face value (13..20), times 2, times 3, 41-or-0, or times 25 |
| `GameContextProofs.HalfItTotalNonNegative` | src/context/GameContext.tsx:116-120 | With no negative input, the total is never negative |
| `GameContextProofs.HalfItTotalSlotUpdate` | src/context/GameContext.tsx:116-120 | Writing one slot changes the total by exactly the change in that slot's score |
| `GameContextProofs.HalfItFillNeverLowers` | src/context/GameContext.tsx:116-120 | Filling an empty slot with a non-negative input never lowers the total |
| `GameContextProofs.HalfItMissKeepsTotal` | src/context/GameContext.tsx:116-120 | Entering a miss (0) in an empty slot leaves the total unchanged, so nothing is halved |
| `GameContextProofs.HalfItTotalOfEmptySlots` | src/context/GameContext.tsx:81-86 | A player whose slots are all empty has a Half-It total of 0, which matches the 0 a new player starts with |
| `GameContext.TargetPoints` | src/context/GameContext.tsx:50-67 | A target adds points exactly when the player has more than 3 marks there and some other player (by id) has no marks map or fewer than 3 marks there. It then adds (marks − 3) × the target's points, and otherwise 0 |
| `GameContext.CalculateCricketScore` | src/context/GameContext.tsx:44-71 | The loop over the targets returns the player's Cricket score: 0 without a marks map, otherwise the sum of the targets' points |
| `GameContextProofs.CricketScoreNonNegative` | src/context/GameContext.tsx:44-71 | A Cricket total is never negative |
| `GameContextProofs.ClosedBoardScoresZero` | src/context/GameContext.tsx:52-66 | When no target is open for a player, that player scores 0 however many marks they hold |
| `GameContextProofs.LonePlayerScoresZero` | src/context/GameContext.tsx:54-58 | A player with no one of a different id on the roster scores 0 |
| `GameContextProofs.CricketOpenThenClosed` | src/context/GameContext.tsx:50-67 | With 4 marks on 20 against an opponent's 1, the player scores 20. Once the opponent has 3 there, the player scores 0 |
| `GameContext.CricketScoreSameMarks` | src/context/GameContext.tsx:129-131 | A Cricket total depends only on ids and marks maps, so totals already rewritten earlier in the loop do not change later scores |
| `GameContext.FindIndex` | src/context/GameContext.tsx:107-108 | Returns -1 exactly when no player has the id. Otherwise it returns the first position holding that id |
| `GameContext.AddPlayerState` | src/context/GameContext.tsx:75-94 | On a full roster (8 players) the state is unchanged. Otherwise the existing players stay as they are and one player is appended with the fresh id, the given name and all-empty slots (12 in Half-It, 7 otherwise). Its total is 0, and it has an empty marks map in Cricket mode only. Mode, round and completion are unchanged |
| `GameContext.WithoutPlayer` | src/context/GameContext.tsx:101 | The filter keeps no player with the removed id and never grows the roster |
| `GameContext.WithoutPlayerMembers` | src/context/GameContext.tsx:101 | The filter keeps exactly the player records whose id differs, unchanged |
| `GameContext.RemovePlayerState` | src/context/GameContext.tsx:96-103 | With at most 1 player the state is unchanged. Otherwise the roster is filtered. Mode, round and completion are unchanged |
| `GameContextProofs.RemovePlayerEffect` | src/context/GameContext.tsx:96-103 | With distinct ids, the roster is unchanged when no player has the id. Otherwise exactly that one player is dropped, and the others keep their order and their records, totals included |
| `GameContextProofs.RemoveKeepsMinimumRoster` | src/context/GameContext.tsx:97-101 | With distinct ids, removing never takes a roster of at least 1 player below 1 |
| `GameContext.RecordMarks` | src/context/GameContext.tsx:123-125 | Sets the marks on the slot's target, creating the marks map if it is absent. Every other target's marks and every other field stay as they were |
| `GameContext.Rescored` | src/context/GameContext.tsx:127-131 | Rescoring changes only totals: ids, names, slots and marks stay. Afterwards every total equals that player's Cricket score against the rescored roster itself, so no total is stale |
| `GameContext.UpdateScoreState` | src/context/GameContext.tsx:105-145 | An unknown player id leaves the state unchanged. Mode and round never change |
| `GameContextProofs.UpdateScoreHalfIt` | src/context/GameContext.tsx:107-137 | This states the corrected Half-It branch from "## Findings", not the code as written (see `UpdateHalfItAsWritten`). Only the chosen slot of the chosen player changes, and that player's stored total becomes the sum of its slot scores. Every other player is unchanged. The game is complete exactly when that player has filled every slot |
| `GameContextProofs.UpdateScoreCricket` | src/context/GameContext.tsx:121-138 | In Cricket and 501 modes the chosen slot is written and the marks on the slot's target become the input, or 0 for an empty input. Any other target is recorded in the marks map exactly when it was recorded before, with the same marks. No other id, name, slot or marks map changes. Every total equals the player's Cricket score against the new roster. The game is complete exactly when every recorded mark of the updated player is at least 3 |
| `GameContext.UpdateHalfItAsWritten` | src/context/GameContext.tsx:110-120 | In the Half-It branch as written, the updated player's stored total keeps its old value |
| `GameContext.ApplyUpdateScore` | src/context/GameContext.tsx:105-145 | The step-by-step update (write the slot, record the marks, rescore each player in turn) yields exactly the state `UpdateScoreState` specifies. Its Half-It branch is the corrected one from "## Findings" |
| `GameContext.Reduce` | src/context/GameContext.tsx:73-159 | Only `RESET_GAME` and `SET_GAME_MODE` change the round, and they set it to 0. Both empty the roster and clear completion. Reset goes to Half-It mode and `SET_GAME_MODE m` goes to m. No other action changes the mode |
| `GameContext.GameReducer` | src/context/GameContext.tsx:73-159 | Dispatching an action yields exactly the state `Reduce` specifies |
| `GameContextProofs.InitialStateWellFormed` | src/context/GameContext.tsx:13-18 | The initial state has no players, round 0, is not complete, is in Half-It mode and is well formed |
| `GameContextProofs.AddPlayerKeepsWellFormed` | src/context/GameContext.tsx:75-94 | When the new id differs from every existing id, ADD_PLAYER keeps the state well formed. The appended player has slots sized for the mode and a marks map exactly in Cricket mode |
| `GameContextProofs.RemovePlayerKeepsWellFormed` | src/context/GameContext.tsx:96-103 | REMOVE_PLAYER keeps the state well formed. The filtered roster keeps distinct ids and holds only players of the old roster |
| `GameContextProofs.UpdateScoreKeepsWellFormed` | src/context/GameContext.tsx:105-139 | When the slot index is within the mode's slots, the update is within range for the named player. UPDATE_SCORE then keeps the state well formed |
| `GameContextProofs.ReducePreservesWellFormed` | src/context/GameContext.tsx:73-159 | Given a fresh id for new players and an update slot within the mode's slots, every action keeps the state well formed. Well formed means: at most 8 players, distinct ids, slots sized for the mode, no marks maps in Half-It, and a marks map for every player in Cricket |
| `GameContextProofs.ReduceKeepsHalfItTotals` | src/context/GameContext.tsx:115-120 | In the corrected reducer, every action keeps each Half-It player's stored total equal to the sum of its slot scores |
| `GameContextProofs.HalfItTotalStaleAsWritten` | src/context/GameContext.tsx:110-120 | As written: after Ann scores 3 on round "13", her slot shows 3 and her slot scores sum to 39, but her stored total stays 0 |
| `GameContextProofs.HalfItTotalStoredCorrected` | src/context/GameContext.tsx:115-120 | In the corrected reducer the same update stores the total 39 |
| `FiveHundredOneCard.CheckoutSuggestion` | src/components/FiveHundredOneScoreCard.tsx:20-31 | Above 170 or below 2 there is no suggestion. A listed score gets its listed darts. An unlisted even score from 2 to 40 gets the double of half the score. Anything else gets nothing |
| `FiveHundredOneCard.CheckoutFinishesExactly` | src/components/FiveHundredOneScoreCard.tsx:20-31 | Every suggestion is 1 to 3 darts worth exactly the remaining score and ends on a double or the bull |
| `FiveHundredOneCard.CheckoutExamples` | src/components/FiveHundredOneScoreCard.tsx:20-31 | 170 gives T20 T20 Bull, 160 gives T20 T20 D20 and 40 gives D20. 171, 169, 41, 1 and −9 give nothing |
| `FiveHundredOneCard.PlayerCheckoutReachesZero` | src/components/FiveHundredOneScoreCard.tsx:258-267 | The remaining score shown is 501 minus the player's total. The darts suggested under it bring that player's total to exactly 501 |
| `FiveHundredOneCard.LastFilledAfter` | src/components/FiveHundredOneScoreCard.tsx:43-48 | The inner fold returns −1 or the position of a filled slot, and every later slot is empty |
| `FiveHundredOneCard.MaxFilledAfter` | src/components/FiveHundredOneScoreCard.tsx:42-50 | The outer fold returns the largest last-filled position over the players, or −1 |
| `FiveHundredOneCard.VisibleRounds` | src/components/FiveHundredOneScoreCard.tsx:53-56 | The card shows at least one round. The rounds have distinct ids, and round i has the 501 kind and the id `round` followed by i+1. The rounds reach one past every filled slot of every player |
| `FiveHundredOneCard.RoundHorizon` | src/components/FiveHundredOneScoreCard.tsx:41-56 | At least one round is shown. Every filled slot lies before the last round shown, and the round before the last holds some player's filled slot. With nothing filled, exactly one round is shown |
| `FiveHundredOneCard.HorizonPassesLastSlot` | src/components/FiveHundredOneScoreCard.tsx:41-56 | Once a seven-slot player fills the last slot, the card offers an eighth round, which is beyond the slots players have |
| `FiveHundredOneCard.WinnerIndex` | src/components/FiveHundredOneScoreCard.tsx:285-287 | On a non-empty roster the winner has the highest total, and every later player has a strictly lower total, so a tie goes to the last tied player |

## Findings

| source | as written | input that shows it | evidently intended | confidence | as-written member | corrected member |
|---|---|---|---|---|---|---|
| src/context/GameContext.tsx:110-128 | In Half-It mode the new total is stored on the copy `player`. Only the Cricket branch (line 128) puts that copy back into `updatedPlayers`, so the roster keeps the original player object. That object shows the new slot, because the copy shares its `inputs` array, but it keeps its old total. | Half-It mode, one player Ann with all slots empty; `UPDATE_SCORE` for Ann, slot 0 (round "13"), input 3 | Ann's stored total becomes 39, the sum of her slot scores | high; not executed | `GameContextProofs.HalfItTotalStaleAsWritten` | `GameContextProofs.ReduceKeepsHalfItTotals` |

`UpdateScoreState`, and with it `Reduce`, use the corrected Half-It branch.
`UpdateHalfItAsWritten` is the branch as written.

## Left out

- React plumbing is left out: the context, `useReducer`, `GameProvider` and `useGame`. It carries the state and has no logic of its own.
- `crypto.randomUUID` is a foreign call. The id it would give is the `freshId` parameter. Distinct ids are assumed where a lemma needs them (`ActionAllowed`).
- All rendering is left out: tables, tooltips, modals, colours, the App, AppBar and Logo components, and the Half-It and Cricket score cards. Their winner `reduce` is the same as the one modelled from the 501 card.
- The registration form's name check (trimmed, non-empty, roster below 8) is left out. The reducer itself does not check names, and neither does the model.
- The input fields' clamping to `0..maxInput` is left out. The reducer accepts any integer, and so does the model. Lemmas that need non-negative inputs assume them (`NonNegativeInputs`).
- Aliasing with the previous snapshot is left out. The slot write goes through an `inputs` array shared with the old state, and the `forEach` writes totals onto player objects shared with it. Only the new state value is modelled. The old one is not.
- `UPDATE_SCORE` with a slot index outside the player's slots is left out: JavaScript grows a sparse array, and under Cricket rules it writes the key `"undefined"`. `UpdateInRange` excludes it. The 501 card does reach it, as `HorizonPassesLastSlot` shows: it offers an eighth round to players who have seven slots.
- The reducer's `default` branch is left out. Dafny's closed action type cannot reach it.
- The winner banner appears only when `isGameComplete` is set. That condition is presentation and is left out; `WinnerIndex` models the choice of winner itself.
