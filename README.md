# TCM diagnosis quiz: game controller model

A Dafny model of the core of a single-player quiz game. The player sees a
generated clinical case in Traditional Chinese Medicine: face, tongue, pulse and
complaint. They pick the right diagnosis among four options. Score, lives and
streak are tracked across rounds.

The model covers:

- **Game controller** (`app.dfy`, module `Game`): the top-level component's
  state as a class `App`. Its fields are `gameState`, `currentCase`, `stats`,
  `selectedOption` and `loading`. There is one method per handler:
  `LoadNewCase` (split at the `await` into `BeginLoad` and `SettleLoad`),
  `HandleStartGame`, `HandleAnswer` and `HandleNext`. The request for a case is
  not modelled. Its outcome, a case or a failure, is a parameter (`Fetch`) of
  the handlers that load. `Valid()` is the controller invariant that every
  handler keeps.
- **Scoring rules** (`game_rules.dfy`, module `GameRules`): the stats a game
  starts from and the update that the answer handler hands to `setStats`.
  Correct: +100 plus 10 × the previous streak, and streak +1. Wrong: −1 life
  and the streak resets. Also the end-of-game test and the number of life
  indicators drawn. `Play` folds the update over a sequence of answers. The
  lemmas about it describe whole games: lives lost equal wrong answers, the
  streak is the run of correct answers since the last miss, and `k` correct
  answers earn `RunPoints`.
- **Answer panel** (`options_panel.dfy`, module `OptionsPanel`): the option
  list is the distractors followed by the right diagnosis, reordered in place.
  The buttons are labelled A, B, C, … by position and submit their own option.
- **Avatar face colour** (`patient_view.dfy`, module `PatientView`): the
  keyword cascade as written (the last matching test wins), proved equal to a
  first-match precedence function.
- **Configuration and fallback case** (`constants.dfy`, `types.dfy`): initial
  lives, base points, and the static fallback case with its well-formedness.

Behaviour of the code worth noting:

- A failed load returns to the menu and keeps the previously stored case. The
  selected answer is cleared before the request is made, not when it settles.
- The code has no request token. A late response would be adopted, and the
  model has no concurrent requests.
- Stored lives are never clamped. Only the life indicators are clamped at 0.
- Only the fallback case is known to be well formed (3 distinct distractors,
  none equal to the right answer). Cases from the generator are not checked, so
  `WellFormedCase` is not part of the controller invariant.
- The case service returns the fallback case for every failure inside its
  `try` block. Reading the credential happens before that block, so a failure
  there rejects the request. That is the path that reaches the controller's
  failure branch (`FetchFailed` in the model).

## Model

| member | source | states |
|---|---|---|
| Constants.ConfiguredValues | constants.ts:1-2 | A game starts with 3 lives, and a correct answer is worth 100 base points. |
| Constants.FallbackWellFormed | constants.ts:22-23 | The fallback case has exactly 3 distractors. They are pairwise distinct, and none equals the right diagnosis. |
| GameRules.FreshStatsValid | App.tsx:36-37 | Start/retry stats are score 0, lives 3, streak 0. They satisfy the stats invariant, and the game is not over. |
| GameRules.Answered | App.tsx:45-58 | Correct: lives unchanged, streak +1, and the score grows by the next term of the streak series (100 + 10 × previous streak). Wrong: lives −1, streak 0, score unchanged. Both keep the stats invariant and never lower the score. |
| GameRules.LifeIndicators | App.tsx:133 | The number of hearts drawn is the lives when they are non-negative and 0 otherwise. It is 0 exactly when lives are ≤ 0, and it never exceeds the initial lives. |
| GameRules.GameIsOver | App.tsx:63 | "Next" ends the game exactly when the header draws no life indicator. |
| GameRules.FreshStats | App.tsx:37 | The start/retry stats satisfy the stats invariant, and the game is not over. |
| GameRules.StreakBonusExamples | App.tsx:47-58 | A correct answer at streak 0 adds 100. At streak 2 it adds 120 and gives streak 3. A wrong answer with 1 life and streak 5 leaves 0 lives, streak 0, and a game that is over. |
| GameRules.RunPointsAtLeastBase | App.tsx:50 | From a non-negative streak, k correct answers earn at least 100·k points. |
| GameRules.InvariantBounds | App.tsx:48-58 | In reachable stats, score and streak are non-negative, and the score is at least 100 × the streak. |
| GameRules.PlayKeepsInvariant | App.tsx:48-58 | Any sequence of answers keeps the stats invariant and never lowers the score. |
| GameRules.LivesCountMisses | App.tsx:53-58 | After any sequence of answers, lives have dropped by exactly the number of wrong ones. |
| GameRules.StreakCountsTrailingHits | App.tsx:48-58 | After any sequence of answers, the streak is the number of correct answers since the last wrong one. With no wrong answer it is the old streak plus the number of answers. |
| GameRules.ScoreOfRun | App.tsx:48-52 | k correct answers in a row add RunPoints(streak, k) to the score and k to the streak, and leave the lives unchanged. |
| GameRules.ThreeCorrectFromFresh | App.tsx:37-52 | Three correct answers from fresh stats give score 330, streak 3 and the initial lives. |
| GameRules.GameOverAfterInitialLivesMisses | App.tsx:53-64 | A fresh game is over exactly when at least as many wrong answers as initial lives have been given. |
| Game.IsCorrect | App.tsx:45 | With no case on screen no answer is correct. With a case on screen an answer is correct if and only if it is that case's diagnosis. |
| Game.ExactlyOneOptionScores | App.tsx:45 | On the panel of a well-formed case, in any order, exactly one option scores as correct. |
| Game.App.constructor | App.tsx:12-16 | The component starts on the menu with fresh stats, no case, no selection and not loading. |
| Game.App.BeginLoad | App.tsx:20-22 | Loading sets the loading flag, enters LOADING and clears the selection. Stats and case are unchanged. |
| Game.App.SettleLoad | App.tsx:23-33 | On success the fetched case is stored and the state is PLAYING. On failure the state is MENU and the old case is kept. Either way stats are unchanged and loading ends. |
| Game.App.LoadNewCase | App.tsx:19-34 | Loading a case ends with no selection, loading false and stats unchanged. On success it is PLAYING on the fetched case; on failure it is MENU with the old case. |
| Game.App.HandleStartGame | App.tsx:36-39 | Start/retry resets the stats to score 0, lives 3, streak 0 whatever they were, then loads a case. |
| Game.App.HandleAnswer | App.tsx:41-60 | An answer is recorded as the selection and the state is FEEDBACK. The stats are updated by the scoring rule, with the answer counted as correct only if a case is on screen and the answer is its diagnosis. With no case on screen the answer is scored as wrong. |
| Game.App.HandleNext | App.tsx:62-68 | The state becomes GAME_OVER if and only if lives are ≤ 0, and nothing else changes then. Otherwise a new case is loaded. Stats never change. |
| Game.PlaySession | App.tsx:36-68 | Every load in this session returns the fallback case. For any answer sequence, driving the controller (start, then answer and "next" until game over) leaves stats equal to the fold `Play` of the answers given. Lives equal the initial lives minus the misses. The game-over screen is reached exactly when the misses reach the initial lives. The session stops at the miss that takes the last life, so stored lives end at exactly 0; otherwise every answer is played. |
| Game.PlayThreeCorrectRounds | App.tsx:36-68 | Driving the controller through start and three correct answers with "next" ends in PLAYING with score 330, 3 lives and streak 3. |
| Game.PlayUntilGameOver | App.tsx:36-68 | Three wrong answers lead "next" to GAME_OVER with score 0, lives 0 and streak 0. A retry then restores fresh stats even when its load fails. |
| OptionsPanel.Shuffle | components/OptionsPanel.tsx:14 | The in-place reorder leaves a permutation (multiset-equal) of the array. |
| OptionsPanel.ShuffledOptions | components/OptionsPanel.tsx:12-15 | The options are a permutation of the distractors followed by the right diagnosis. Their number is the distractor count + 1, and the right diagnosis is among them. |
| OptionsPanel.OptionLabel | components/OptionsPanel.tsx:32 | The label at position i is the UTF-16 code unit 'A' + i. |
| OptionsPanel.Buttons | components/OptionsPanel.tsx:19-23 | There is one button per option, in order. Button i shows option i with label OptionLabel(i), and its disabled flag is the panel's. |
| OptionsPanel.AllOptions | components/OptionsPanel.tsx:13 | The candidate list has the distractors plus one entry. It contains the right diagnosis, and its multiset is the distractors' plus the right diagnosis once. |
| OptionsPanel.OnClick | components/OptionsPanel.tsx:23 | Clicking button i passes exactly option i to the selection handler. |
| OptionsPanel.LabelsInOrder | components/OptionsPanel.tsx:19-32 | Labels strictly increase with position, so they are distinct. |
| OptionsPanel.FourLabels | components/OptionsPanel.tsx:32 | A four-option panel is labelled A, B, C, D. |
| OptionsPanel.WellFormedOptionsDistinct | components/OptionsPanel.tsx:13-14 | For a well-formed case, any reordering of its options has 4 distinct entries and holds the right diagnosis exactly once. |
| OptionsPanel.FallbackOptionsDistinct | constants.ts:22-23 | The options built from the fallback case are 4 distinct answers, with the right diagnosis exactly once. |
| PatientView.FaceTone | components/PatientView.tsx:11-16 | The colour is always one of the six classes. 紫 gives purple whatever else is present. 黑/暗 without 紫 give dark. 黄 without 黑/暗/紫 gives sallow. Pale comes exactly from 白/萎 without the later keywords. Red comes exactly from 红/赤 with none of the others. The default comes exactly when no keyword is present. |
| PatientView.AvatarFaceColor | components/PatientView.tsx:9-16 | The cascade of overwriting tests gives exactly the precedence function FaceTone. |
| PatientView.FallbackFaceIsPale | constants.ts:17 | The fallback patient's face is drawn pale. |

## Left out

- The case service (`services/geminiService.ts`) is not part of this model. Its network call, credential lookup, JSON parsing and simulated delay are I/O. The handlers take the service's outcome as a `Fetch` parameter.
- The typing animation (`components/DialogueBox.tsx`) and the card frame (`components/PixelCard.tsx`) are timer-driven or presentational. All markup and styling is left out for the same reason. This includes the feedback text that compares the selection with the right diagnosis, and the zero-padded score.
- OptionsPanel.Shuffle: the source sorts with a random comparator. The model permutes by swaps at freely chosen positions. Only the permutation property is claimed, not the distribution of orders.
- OptionsPanel.ShuffledOptions: the reorder is memoised once per case in the source. Memoisation across re-renders is not modelled.
- React state batching, re-render timing and effects are left out. Each handler is modelled as one atomic step, except that loading is split at its `await`.
- OptionsPanel.OptionLabel: the label is modelled as a UTF-16 code unit (a number), not a character, because code units in the surrogate range are not Dafny characters.
- GameRules.Answered: scores and lives are JavaScript numbers (doubles). The model uses unbounded integers, which agree with doubles below 2^53.
- Console logging of errors and warnings is left out.
