# Square Fruit game engine, in Dafny

Square Fruit is a maths game for children. A square board of hidden
numbers is dealt. The game sets a target and an operation: addition,
subtraction, or multiplication by a times table. The player selects the
squares that make the target. A correct selection is celebrated, then
revealed, and a new target is set. A board that is fully revealed unlocks a
reward image.

This project models the engine behind that game as pure Dafny functions:
- the reducer `gameReducer`, which maps a state and an action to the next
  state;
- the board dealer `createBoard`, as a function and also as an array method
  that sorts in place;
- the reward picker `selectBackgroundImage`, and its second copy in
  reward-helpers;
- the target generator `generateTarget`, with `selectOperation` and
  `pickRandom`;
- the answer checker `checkAnswer`;
- the arithmetic helpers `calculateTarget` and `randomInt`.

Randomness becomes explicit input. `RandomInt(min, max, draw)` reduces a
natural-number draw into the set of values `randomInt(min, max)` can
return. Covering lemmas show that every value of that set is reached by
some draw, for `min <= max` and for the inverted span `max < min` alike. One reducer step takes its draws as an `Entropy` value:
- one draw per board square;
- one draw for the reward image;
- one draw each for the operation, square, times table and pair target,
  plus the multiplication swap order.

On top of the functions, the project proves:
- the invariants the reducer keeps (`GameInvariants`): no image is unlocked
  twice; the playing screen always has a session; selections fit the
  operation and name hidden squares; a fully revealed board is complete;
  an unfinished session's target can always be met by the hidden squares;
- concrete runs of the reducer (`GameScenarios`): a whole 2 x 2 addition
  session played from `START_GAME` to its completing reveal, and a single
  `REVEAL_SQUARES` step from one hand-built subtraction state that ends the
  session early.

The code is followed where it differs from the usual description of the
game. `if (!target) return null` in src/lib/target-generation.ts:51 also
rejects a genuine target of 0, and a subtraction between two equal values
has target 0. Whenever the operation is subtraction (fixed, or drawn in
mixed mode) and the pair target drawn is 0, which any two hidden squares of
equal value can produce however many squares are hidden, the generator
returns nothing. The model states this in the absence condition of
`GenerateTarget` and in `ZeroTargetIsRejected`. Its consequences follow the
code:
- at `START_GAME` (src/contexts/game-context.tsx:144-145) the start is
  rejected and the state is left unchanged, as `ReduceStartGame` states;
- at `REVEAL_SQUARES` (src/contexts/game-context.tsx:228-230) the session
  completes with squares still hidden and without unlocking its image, as
  `ReduceRevealSquares` states.

`EqualPairNoTarget` proves this for the case of the last two hidden squares,
and `EqualLastPairEndsWithoutReward` exhibits it from one state that satisfies
every invariant. In the same way, a times table of 0 is rejected
(`!timesTable`).

## Model

| member | source | states |
|---|---|---|
| GameHelpers.RandomInt | src/lib/game-helpers.ts:1-2 | the result lies in `[min, max]`, or in `[max + 1, min]` when `max < min` (the floor of a non-positive span) |
| GameHelpers.RandomIntCovers | src/lib/game-helpers.ts:1-2 | every value `v` of `[min, max]` is returned for some draw, namely `v - min` |
| GameHelpers.RandomIntCoversInverted | src/lib/game-helpers.ts:1-2 | when `max < min`, every value `v` of `[max + 1, min]` is returned for some draw, namely `v - max - 1` |
| GameHelpers.CalculateTarget | src/lib/game-helpers.ts:4-12 | addition gives the sum, subtraction the non-negative distance, multiplication the product |
| GameHelpers.CalculateTargetSymmetric | src/lib/game-helpers.ts:4-12 | the order of the two operands never changes the target |
| AnswerValidation.CheckAnswer | src/lib/answer-validation.ts:1-21 | with a table, exactly one value whose product with the table is the target; otherwise exactly two values whose distance (subtraction) or sum (any other operation) is the target; both directions |
| AnswerValidation.CheckAnswerOrderIndependent | src/lib/answer-validation.ts:16-20 | two values are accepted in either order |
| AnswerValidation.CheckAnswerNeedsSelectionSize | src/lib/answer-validation.ts:7-18 | an accepted selection has one value with a table and two otherwise |
| GameTypes.MaxSelections | src/contexts/game-context.tsx:183 | the cap is 1 exactly for multiplication, and 2 otherwise |
| AnswerValidation.AcceptedAnswerFillsCap | src/contexts/game-context.tsx:183-189 | when a multiplication carries a table, an accepted selection has exactly `MaxSelections` values, so only the check at the cap can succeed |
| TargetGeneration.PickRandom | src/lib/target-generation.ts:11 | nothing exactly for the empty list; otherwise a member of the list |
| TargetGeneration.PickRandomCovers | src/lib/target-generation.ts:11 | every element of a non-empty list is picked by some draw |
| TargetGeneration.Available | src/lib/target-generation.ts:26 | the result holds only hidden squares of the board and every hidden square |
| TargetGeneration.AvailableOfOne | src/lib/target-generation.ts:26 | a one-square board keeps its square exactly when it is hidden |
| TargetGeneration.AvailableConcat | src/lib/target-generation.ts:26 | the filter distributes over concatenation, so it keeps the board's order and counts each hidden square once |
| TargetGeneration.AvailableEmptyIffAllRevealed | src/lib/target-generation.ts:26-27 | no square is available exactly when every square is revealed |
| TargetGeneration.SelectOperation | src/lib/target-generation.ts:13-19 | a fixed mode is its own operation; mixed mode with one square is multiplication and with two squares is never multiplication |
| TargetGeneration.SelectOperationCovers | src/lib/target-generation.ts:13-19 | in mixed mode every operation the count allows is chosen by some draw |
| TargetGeneration.PairTargets | src/lib/target-generation.ts:46-48 | one target per unordered pair: `n * (n - 1) / 2` of them |
| TargetGeneration.PairTargetsSound | src/lib/target-generation.ts:46-48 | each pairwise target is the target of two squares at distinct positions |
| TargetGeneration.PairTargetsComplete | src/lib/target-generation.ts:46-48 | the target of every pair of distinct positions is among the pairwise targets |
| TargetGeneration.GenerateTarget | src/lib/target-generation.ts:21-59 | nothing without hidden squares; the operation is the selected one; a multiplication uses a selected non-zero table and a hidden square's value times it; otherwise at least two hidden squares, no table, no swap, a non-zero pairwise target; and nothing exactly when no square is hidden, or a multiplication picks no table or table 0, or an addition or subtraction has fewer than two hidden squares or picks the pairwise target 0 |
| TargetGeneration.MultiplicationSolvable | src/lib/target-generation.ts:31-41 | a hidden value times the table can be met by selecting that square |
| TargetGeneration.PairSolvable | src/lib/target-generation.ts:44-58 | a pairwise target can be met by selecting two squares |
| TargetGeneration.GenerateTargetSolvable | src/lib/target-generation.ts:21-59 | every target the generator returns is accepted by `checkAnswer` for some selection of hidden squares |
| TargetGeneration.ZeroTargetIsRejected | src/lib/target-generation.ts:50-51 | a picked pairwise target of 0 makes the generator return nothing |
| TargetGeneration.EqualPairNoTarget | src/lib/target-generation.ts:13-51 | exactly two hidden squares of equal value give no target whenever the operation selected is subtraction, fixed or drawn in mixed mode |
| BoardSetup.FreshBoard | src/lib/board-setup.ts:5-9 | `boardSize * boardSize` hidden squares, square `i` with id `i` and the `i`-th random value |
| BoardSetup.SortByValue | src/lib/board-setup.ts:12 | the stable sort by value keeps the length and is a permutation; `SortSorted` and `SortStable` prove the order |
| BoardSetup.SortSorted | src/lib/board-setup.ts:12 | sorting by value yields ascending values |
| BoardSetup.SortStable | src/lib/board-setup.ts:12 | sorting a board whose ids are in order yields ascending values with ids ascending among equal values (stability) |
| BoardSetup.Board | src/lib/board-setup.ts:4-13 | `createBoard` as the reducer calls it: `boardSize * boardSize` squares, a permutation of the dealt board; `BoardProperties` states the rest |
| BoardSetup.SortKeepsSquares | src/lib/board-setup.ts:12 | sorting keeps the length, the squares and the set of ids |
| BoardSetup.BoardProperties | src/lib/board-setup.ts:4-13 | `boardSize * boardSize` hidden squares with ids exactly `0 .. n - 1`, no id twice, and values in `[1, maxNumber]`; square `i` has id `i` unless sorted; the sorted board (size over 6, numbers over 12) is ascending, stable and a permutation of the dealt one |
| BoardSetup.DistinctIdsPermuted | src/lib/board-setup.ts:12 | reordering a board whose ids are distinct keeps them distinct |
| BoardSetup.InsertLast | src/lib/board-setup.ts:12 | one pass of the in-place insertion: the prefix becomes the stable insertion of the next square, the rest is untouched |
| BoardSetup.SortByValueInPlace | src/lib/board-setup.ts:12 | the array ends as the stable sort by value of its old contents |
| BoardSetup.CreateBoard | src/lib/board-setup.ts:4-13 | a new array holding exactly the board `Board` deals, sorted in place when required |
| BoardSetup.ImageUrlInjective | src/lib/board-setup.ts:25 | distinct image numbers have distinct paths |
| Decimal.IntToStringRoundTrip | src/lib/board-setup.ts:25 | the decimal rendering of an integer inside the path reads back as that integer |
| BoardSetup.Unseen | src/lib/board-setup.ts:19 | every unseen image is in the catalogue and not unlocked |
| BoardSetup.UnseenComplete | src/lib/board-setup.ts:19 | every catalogue image that is not unlocked is unseen |
| BoardSetup.UnseenNonEmpty | src/lib/board-setup.ts:19-20 | some image is unseen exactly when some catalogue image is not unlocked |
| BoardSetup.SelectBackgroundImage | src/lib/board-setup.ts:15-27 | an unseen image whenever one exists; a catalogue image for a non-empty catalogue; 1 for an empty one; the path `/assets/<n>.png` |
| BoardSetup.SelectBackgroundImageCoversUnseen | src/lib/board-setup.ts:19-21 | every unseen image is chosen by some draw |
| BoardSetup.SelectBackgroundImagePicksUnseen | src/lib/board-setup.ts:19-21 | while some image is unseen, the image is the unseen one at the drawn index |
| BoardSetup.SelectBackgroundImagePicksAny | src/lib/board-setup.ts:19-21 | once no image is unseen, the image is the catalogue's at the drawn index |
| BoardSetup.SelectBackgroundImageRecycles | src/lib/board-setup.ts:20-21 | once all images are unlocked, every catalogue image is chosen by some draw |
| RewardHelpers.SelectBackgroundImage | src/lib/reward-helpers.ts:3-15 | the same promises as the board-setup copy |
| RewardHelpers.AgreesWithBoardSetup | src/lib/reward-helpers.ts:3-15 | for the same draw both copies choose the same image and path |
| GameContext.Find | src/contexts/game-context.tsx:172 | a found square is the first square of the board with that id; nothing found means no square has that id |
| GameContext.SelectedValues | src/contexts/game-context.tsx:190-192 | when every id names a square, the values of those squares in selection order |
| GameContext.Remove | src/contexts/game-context.tsx:178 | exactly the ids other than the removed one remain, and the length drops by the number of times it occurred, so a deselect frees its slot |
| GameContext.RemoveOfOne | src/contexts/game-context.tsx:178 | a single id is kept exactly when it is not the removed one |
| GameContext.RemoveConcat | src/contexts/game-context.tsx:178 | the filter distributes over concatenation, so the surviving ids keep their order |
| GameContext.CompleteGame | src/contexts/game-context.tsx:106-112 | the session is complete on the given board with nothing selected or celebrating, and every other field is kept |
| GameContext.MarkRevealed | src/contexts/game-context.tsx:211-213 | ids and values kept; a square is revealed exactly when it was or its id is celebrating |
| GameContext.ReduceStartGame | src/contexts/game-context.tsx:132-160 | rejected (state unchanged) without needed tables or a first target; otherwise playing a fresh session on the dealt board, nothing selected, not complete, the generator's target, which can be met, and an unseen reward image when one exists |
| GameContext.ReduceToggleSquare | src/contexts/game-context.tsx:168-205 | no-op unless a running session and a hidden square; deselects a selected id; ignores a full selection; grows a selection below the cap; at the cap keeps and celebrates a correct selection or clears a wrong one; nothing but the two lists changes |
| GameContext.Unlock | src/contexts/game-context.tsx:217-222 | the old list is a prefix, the image is present, nothing else is added, the length grows by one exactly when the image was absent (so the result is the source's `includes`-then-append for every input), and a duplicate-free list stays duplicate-free |
| GameContext.ReduceRevealSquares | src/contexts/game-context.tsx:207-239 | reveals the celebrating squares and clears both lists; a fully revealed board completes and unlocks; otherwise a next target that can be met, or completion without unlocking when there is none |
| GameContext.GameReducer | src/contexts/game-context.tsx:118-247 | configuration actions update only their field; exit shows the configuration screen; restart also drops the session; reset clears the unlocked images; start, toggle and reveal are handed to their reducers |
| GameInvariants.StartKeepsValid | src/contexts/game-context.tsx:132-160 | starting keeps the state invariant |
| GameInvariants.ToggleKeepsValid | src/contexts/game-context.tsx:168-205 | toggling keeps the state invariant |
| GameInvariants.RevealKeepsValid | src/contexts/game-context.tsx:207-239 | revealing keeps the state invariant |
| GameInvariants.GameReducerKeepsValid | src/contexts/game-context.tsx:118-247 | every action keeps the state invariant |
| GameInvariants.InitialStateValid | src/contexts/game-context.tsx:264-269 | the initial state satisfies the invariant |
| GameInvariants.RevealedStaysRevealed | src/contexts/game-context.tsx:168-239 | outside a start, squares keep their ids and values and revealed squares stay revealed |
| GameInvariants.UnlockedImagesOnlyGrow | src/contexts/game-context.tsx:118-247 | only a progress reset removes unlocked images |
| GameInvariants.CompletionUnlocksOnce | src/contexts/game-context.tsx:215-225 | completing the board leaves its image unlocked exactly once |
| GameScenarios.OnesTarget | src/lib/target-generation.ts:44-58 | when at least two squares are hidden and all of them hold 1, every draw in addition mode gives the target 2 |
| GameScenarios.CorrectPair | src/contexts/game-context.tsx:183-198 | in an addition session with target 2 and no table, toggling two distinct hidden squares that both hold 1 celebrates them, changing nothing else |
| GameScenarios.ClearFirstPair | src/contexts/game-context.tsx:132-239 | start, a correct pair and a reveal on the board of ones leave a valid session with target 2 |
| GameScenarios.ClearLastPair | src/contexts/game-context.tsx:168-225 | from a valid state playing the 2 x 2 board of ones with squares 0 and 1 revealed, addition target 2 and nothing selected, toggling squares 2 and 3 celebrates them, and the reveal completes the session on a fully revealed board with its image unlocked exactly once |
| GameScenarios.AdditionSessionCompletes | src/contexts/game-context.tsx:118-247 | a 2 x 2 addition session of ones, for any draws, runs start, pair, reveal, pair, reveal to a complete, fully revealed board with its image unlocked exactly once |
| GameScenarios.EqualLastPairEndsWithoutReward | src/contexts/game-context.tsx:227-231 | for one concrete valid subtraction session on a 2 x 2 board (values 2, 7, 5, 5, the pair 2 and 7 celebrating), the reveal that leaves the two 5s hidden completes the session, with squares hidden and no image unlocked, for any draws |

## Left out

- `GameProvider`, the `useGameContext` hook and React state management are left out. They hold the reducer's state and dispatch actions (src/contexts/game-context.tsx:253-337); the state a dispatch sees is the reducer's argument.
- Local-storage persistence is left out. It is I/O, outside the reducer. On mount it reads the stored configuration, defaults a missing `selectedTimesTables`, and replays non-default settings as configuration actions (src/contexts/game-context.tsx:284-312). It also reads the stored unlocked images (line 278) but never dispatches them into the state. The state's list therefore starts empty, as in `INITIAL_STATE` (line 266), and the write after every change (line 321) replaces the stored progress with it. So progress is not restored across reloads, and the model's empty initial list is faithful to that.
- `toast.error` on a wrong answer is left out. It is a notification with no effect on the state.
- The celebration delay is left out. The delay between a correct answer and `REVEAL_SQUARES` is owned by the UI; here the reveal is simply the next action.
- `Math.random()` and floating point are replaced by natural-number draws. `RandomInt` returns exactly the values `randomInt` can return, with no probabilities.
- `GameHelpers.RandomInt`: the model does not capture the uniform distribution, only the range and the fact that every value of it, inverted span included, can occur.
- The `default` branch of the reducer (src/contexts/game-context.tsx:244-245) is not modelled. The action datatype has no other cases.
- The null-session branch of `updateGame` (src/contexts/game-context.tsx:101-104) is not modelled separately. Both of its callers have already returned when there is no session, so it is never taken.
- `randomNumberFromRange`, which src/lib/reward-helpers.ts imports, is not defined in src/lib/game-helpers.ts; it is modelled by the same oracle as `randomInt`.
- `Decimal.IntToString`: numbers are rendered into image paths as integers only. Fractions and exponent notation are not modelled because image numbers are integers.
- Numbers are unbounded integers. JavaScript doubles lose precision beyond 2^53, which the game's ranges (at most 100 times 12) never reach.
- The UI components are left out: the configuration sliders, the board grid, the equation display, the reward gallery and the completion screen.
