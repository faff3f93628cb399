# Towers of Hanoi — a Dafny model of the game engine and its bookkeeping

This project models the logic of a browser Towers of Hanoi game written in
TypeScript and React, and proves properties of that model. It covers:

- the game-logic hook: the initial board, the legality rule, and moves
  together with the move counter and the completion flag (`Engine`);
- the hint service's stricter legality rule, its checks on the decoded
  hint record, and the disk fix-up on a returned hint (`Hints`);
- the leaderboard, which keeps each player's best result, sorts by
  (moves, time) and cuts to a limit (`Ranking`);
- the dynamic-difficulty bookkeeping: a ten-game history, a skill level
  clamped to 1..5, and the mapping from skill to difficulty (`Skill`);
- the game screen's handlers: the time display, select-then-move by two
  clicks, reset, and changing the disk count (`GameView`, with the whole
  numbers it prints in `Decimal`);
- the earlier revision of the game screen (`LegacyGameView`);
- moving a disk by dragging (`DragAndDrop`);
- the start form (`StartScreen`) and the leaderboard heading
  (`LeaderboardView`);
- the shared shapes: towers, game state, moves, results, player records,
  and the mode and difficulty enumerations (`GameTypes`).

Everything is pure functions over immutable values. A React state update is
a function from the old screen state to the new one.

JavaScript behaviour that matters here is written out:

- Reading the top of an empty tower yields `undefined`, modelled as
  `Cell.Undefined`. `pop()` on an empty array returns it and pushing it makes
  it an element.
- `!toDisk` holds for `undefined` and for `0`.
- Every `<` comparison with `undefined` is false.
- `trim` removes exactly the ECMAScript white-space and line-terminator code
  points.
- `slice(0, n)` with a negative `n` counts back from the end.
- JSON numbers are reals, so a fractional tower index is possible.
- Indexing the towers array outside 0..2 throws a TypeError in the code, so
  the model requires an index in range wherever the code reads a tower.

The earlier screen imports its own copy of the game-logic hook
(towers-of-hanoi/src/hooks/useGameLogic.ts), which is not part of this model.
The model assumes that copy behaves like src/hooks/useGameLogic.ts and runs the
earlier screen on `Engine` through `GameView.View`.

The earlier screen's `handleDiskClick` (towers-of-hanoi/src/components/Game.tsx:34-46) and
`handleDiskCountChange` (towers-of-hanoi/src/components/Game.tsx:54-58) are the same
as the current screen's. They are modelled once, by `GameView.HandleDiskClick`
and `GameView.HandleDiskCountChange`. Only the earlier reset differs, and it is
modelled separately.

## Behaviour kept as written

The model keeps these behaviours of the code:

- **The win check reads the board as it was before the move**
  (src/hooks/useGameLogic.ts:48). After the seven optimal moves of a
  three-disk game every disk is on the goal tower but the game is not yet
  complete. Only the next legal move sets the flag. `Engine.ThreeDiskOptimalGame`
  proves this.
- **The hook's legality rule accepts a move out of an empty tower onto an
  empty tower.** That move pushes `undefined` and counts a move. The hint
  service's own rule refuses it. `Hints.RulesCompared` proves that, over a
  stacked destination, the two rules differ only when both towers are empty.
  Once a tower is topped by `undefined`, the hook accepts every move onto it
  and the service refuses every one (`Hints.UndefinedTopSplitsRules`). A selection that has gone
  stale reaches this case from the user interface. Changing the disk count
  keeps the pending selection (`GameView.StaleSelectionAfterCountChange`,
  `GameView.StaleSelectionReachable`).
- **An empty tower also accepts a move onto itself.** The move pushes
  `undefined` onto that tower and counts a move
  (`Engine.EmptySelfMovePushesUndefined`). A stale selection on an emptied
  tower, followed by a click on the same tower, reaches it.
- **The earlier screen's reset does not restart the game.** It sets the disk
  count to the value it already has, and React does not re-run the
  initialisation effect for an unchanged value.
- **Undo is described but not implemented.** Only its props are declared
  (src/types/game.ts:66-67), so it is not modelled.

## Model

| member | source | states |
|---|---|---|
| GameTypes.DifficultyOf | src/types/game.ts:23-29 | a difficulty has numeric value n exactly when 3 <= n <= 7, and the one returned has value n |
| GameTypes.DifficultyValuesRoundTrip | src/types/game.ts:23-29 | every difficulty's value lies in 3..7 and maps back to that same difficulty, so the values tell the difficulties apart |
| GameTypes.GameModeTagsDistinct | src/types/game.ts:17-21 | two game modes have the same string value exactly when they are the same mode |
| GameTypes.InitialTowerIsFullStack | src/hooks/useGameLogic.ts:22-25 | the initial tower has n cells and is strictly decreasing from the bottom; it holds each of the disks 1..n exactly once and nothing else |
| Engine.Initialize | src/hooks/useGameLogic.ts:21-29 | the effect produces a legal n-disk board with towers 1 and 2 empty, zero moves and the game not complete; the selection is not touched |
| Engine.IsValidMove | src/hooks/useGameLogic.ts:31-35 | an empty destination, or one topped by `undefined` or by disk 0, accepts anything, even from an empty source; a destination topped by a non-zero disk accepts exactly a source whose top is a smaller disk (an empty source never); in particular, from an empty source onto a stacked tower the rule holds iff the destination is empty |
| Engine.MoveDisk | src/hooks/useGameLogic.ts:37-54 | an illegal move changes nothing; a legal move counts one move; between different towers it pops the source, pushes that cell on the destination and leaves the third tower as it was; a legal move from a tower onto itself pops that tower and pushes the popped cell back (`undefined` on an empty tower), leaving the others as they were; the flag is set iff it was set or the goal tower held diskCount cells before the move; the flag is never cleared and the selection is untouched |
| Engine.SameTowerRefused | src/hooks/useGameLogic.ts:32-34 | a move from a tower onto itself is refused when its top is a non-zero disk |
| Engine.EmptyOntoEmptyAccepted | src/hooks/useGameLogic.ts:32-34 | the rule accepts a move whose source and destination are both empty |
| Engine.LargerOntoSmallerRefused | src/hooks/useGameLogic.ts:31-54 | disk 3 onto disk 2 is refused, and the move leaves the state unchanged |
| Engine.EmptySourceMovePushesUndefined | src/hooks/useGameLogic.ts:38-45 | a move from an empty tower onto an empty tower pushes `undefined`, counts a move, and adds exactly one `undefined` cell to the board |
| Engine.EmptySelfMovePushesUndefined | src/hooks/useGameLogic.ts:31-45 | an empty tower accepts a move onto itself, which leaves `[undefined]` on that tower, keeps the others and counts a move |
| Engine.TransferConserves | src/hooks/useGameLogic.ts:39-44 | popping a non-empty source and pushing onto the destination keeps the multiset of cells on the board |
| Engine.MovePreservesStacking | src/hooks/useGameLogic.ts:37-54 | a move out of a non-empty tower keeps every cell on the board and keeps every tower strictly decreasing, whether or not it is legal |
| Engine.CompletionReadsPreMoveBoard | src/hooks/useGameLogic.ts:47-51 | the legal move that brings the goal tower to diskCount cells leaves the game not complete |
| Engine.ThreeDiskOptimalGame | src/hooks/useGameLogic.ts:21-54 | from the initial three-disk board, the seven optimal moves put 3, 2, 1 on the goal tower with seven moves counted and the flag unset; one further legal move sets it |
| Hints.Coalesce | src/services/aiService.ts:86-87 | `a ?? b` is b when a is null or undefined, and a otherwise |
| Hints.ParseReply | src/services/aiService.ts:83-106 | a record is accepted iff it decoded and both indices (long name, else short name) are numbers in [0, 2] that differ; an accepted record carries exactly those two indices and `disk ?? null` as its disk |
| Hints.ShortNamesAreFallback | src/services/aiService.ts:86-87 | with `fromTower` absent and `toTower` null, the `from` and `to` values are used |
| Hints.IsValidHintMove | src/services/aiService.ts:19-29 | an empty source is refused; a non-empty source onto an empty target is accepted; between two non-empty towers the rule holds iff the moving disk is smaller than the target's top |
| Hints.RulesCompared | src/services/aiService.ts:19-29 | with a stacked destination, the service's rule and the hook's rule differ exactly when both towers are empty (the hook accepts, the service refuses); on an empty source the service always refuses |
| Hints.UndefinedTopSplitsRules | src/services/aiService.ts:25-28 | onto a destination topped by `undefined` the hook's rule accepts every move and the service's rule refuses every one |
| Hints.HintRuleImpliesEngineRule | src/services/aiService.ts:19-29 | every move the service's rule accepts, the hook's rule accepts too, on any board |
| Hints.GetNextMove | src/services/aiService.ts:66-80 | no hint when parsing fails; a hint is returned iff both parsed indices are whole and the service's rule accepts the move; a returned hint has in-range, distinct, legal indices matching the parsed ones, and its disk is the source's actual top |
| Hints.ReturnedHintIsPlayable | src/services/aiService.ts:69-72 | playing a returned hint through the hook counts a move and pushes the hint's disk onto its target; a stacked board stays stacked with the same disks |
| Hints.FractionalIndexYieldsNoHint | src/services/aiService.ts:89-102 | a fractional index in range passes the parser but yields no hint |
| Ranking.FindPlayer | src/services/gameService.ts:56 | the lookup finds a position holding the player's entry, and finds none iff the player has no entry |
| Ranking.GroupingStep | src/services/gameService.ts:55-63 | one step of the reduction keeps the invariant: one entry per player, for exactly the players seen so far, each its player's first best result |
| Ranking.BestPerPlayerSpec | src/services/gameService.ts:54-64 | after the reduction every player with results has exactly one entry; every entry belongs to such a player and is strictly better than that player's earlier results and no worse than the later ones, so the earlier of two tied results is kept |
| Ranking.BestPerPlayerOrder | src/services/gameService.ts:54-64 | the grouped entries come out in the order their players' first results appear, as `Object.values` lists the keys of the grouping object |
| Ranking.SortByRankSpec | src/services/gameService.ts:67-73 | the sort returns a permutation of its input, ordered by (moves, time), and keeps the input order among entries with equal (moves, time) |
| Ranking.SlicePrefix | src/services/gameService.ts:74 | `slice(0, end)` is a prefix of length min(end, n) for end >= 0, and of length max(n + end, 0) for end < 0 |
| Ranking.GetLeaderboardSpec | src/services/gameService.ts:31-79 | the leaderboard has at most limitCount entries, one per player, sorted by (moves, time), and each entry is its player's first best input result; entries tied on (moves, time) are listed in the order their players were first seen |
| Ranking.UnlistedPlayerOutranked | src/services/gameService.ts:54-74 | if a player with results is missing from the leaderboard, the board is full, no listed entry is beaten by any of that player's results, and every listed entry tied with one of them belongs to a player seen earlier |
| Ranking.SamePlayerKeepsFewerMoves | src/services/gameService.ts:54-74 | of two results of one player (10 moves in 50 s, then 8 moves in 60 s) only the 8-move result is listed |
| Skill.PushRecent | src/services/gameService.ts:117-120 | the new history has 1..10 entries (one more than before, up to 10); it is headed by the new result, followed by the old history's first entries, so the oldest result drops off a full history |
| Skill.HistoryIsLastTenNewestFirst | src/services/gameService.ts:117-120 | after any sequence of games from an empty record, the history is exactly the last (at most ten) results, newest first |
| Skill.AverageWithinBounds | src/services/gameService.ts:122-125 | the average of a non-empty history lies between the smallest and the largest efficiency |
| Skill.SkillLevel | src/services/gameService.ts:127-130 | the skill level lies in 1..5; it is floor(5 * avg) when that is in range, and 1 or 5 when it falls below or above |
| Skill.SkillLevelMonotone | src/services/gameService.ts:127-130 | a higher average never gives a lower skill level |
| Skill.CalculateNewDifficulty | src/services/gameService.ts:139-148 | skill levels 1..5 select the difficulty with skill + 2 disks (Easy..Master); any other value selects Easy |
| Skill.UpdatePlayerStats | src/services/gameService.ts:112-137 | the record written keeps id and name, stores the pushed history, and has a skill level in 1..5 computed from the new history's (never empty) average; its difficulty has skill + 2 disks |
| Skill.PerfectHistoryGivesMaster | src/services/gameService.ts:117-137 | when every efficiency is 1.0 the skill level is 5 and the difficulty Master |
| Skill.ThreeGameExample | src/services/gameService.ts:117-137 | efficiencies 0.9, 0.8 and 0.7 average 0.8, which gives skill level 4 and Expert (doubles give 4.000000000000001 for five times the average, whose floor is also 4) |
| GameView.SetDiskCount | src/components/Game.tsx:31-42 | setting the count to its current value changes nothing; a new value re-initialises the hook's board for it; time, dialog and selection are kept |
| GameView.FormatTime | src/components/Game.tsx:44-49 | the display always ends in "s", and under a minute it is the number followed by "s" |
| GameView.FormatTimeMinutes | src/components/Game.tsx:46-48 | from a minute on, the display is "{m}m {s}s" with m >= 1, 0 <= s < 60 and 60m + s equal to the time |
| GameView.FormatTimeRoundTrip | src/components/Game.tsx:44-49 | every non-negative time reads back unchanged from its display |
| GameView.HandleDiskClick | src/components/Game.tsx:64-76 | with nothing selected, a click on a non-empty tower selects it and its top disk, and a click on an empty tower changes nothing; with a selection, any click makes the hook's move from the selected tower to the clicked one and clears the selection, legal or not |
| GameView.ClickPairIsMove | src/components/Game.tsx:64-76 | a click on a non-empty tower s followed by a click on t is exactly the hook's move from s to t, with nothing left selected |
| GameView.ClickPreservesLegalBoard | src/components/Game.tsx:64-76 | from a legal board with a live selection, any click keeps the board legal and the selection live |
| GameView.HandleReset | src/components/Game.tsx:78-86 | the synchronous part of reset zeroes the time, hides the dialog, clears the selection and sets the count to 0, which empties the board unless the count already was 0 |
| GameView.ResetRestartsGame | src/components/Game.tsx:78-86 | reset followed by its deferred step gives a fresh game with the same disk count: initial tower, zero moves, not complete, zero time, no dialog, nothing selected |
| GameView.HandleDiskCountChange | src/components/Game.tsx:88-92 | the new count is set, with zero time and no dialog; a different count starts a fresh board; the selection is left as it was |
| GameView.StaleSelectionAfterCountChange | src/components/Game.tsx:88-92 | a selection on tower 1 or 2 survives a count change; the next click on the other empty tower pushes `undefined`, counts a move and leaves the board unstacked |
| GameView.StaleSelectionReachable | src/components/Game.tsx:64-76 | from the first screen, three clicks (0, 1, 1) give a legal board with a live selection on tower 1, the situation of the previous row |
| LegacyGameView.HandleReset | towers-of-hanoi/src/components/Game.tsx:48-52 | the earlier reset zeroes the time and hides the dialog; count, board, move counter and selection stay as they were |
| LegacyGameView.ResetsCompared | towers-of-hanoi/src/components/Game.tsx:48-52 | for a game in progress, the earlier reset keeps the board, moves and selection, while the current reset with its deferred step restarts from the initial tower with no moves |
| DragAndDrop.TargetTowerInRange | src/hooks/useDragAndDrop.ts:57-60 | a release at an offset x with 0 <= x < width maps to tower 0, 1 or 2, by thirds of the width in order; an offset at or beyond the width is outside the lemma |
| DragAndDrop.DragStart | src/hooks/useDragAndDrop.ts:23-41 | on an empty tower nothing changes; otherwise its top disk becomes the dragged disk and the selection, and dragging starts at the press point |
| DragAndDrop.DragMove | src/hooks/useDragAndDrop.ts:43-52 | moving the pointer changes no state |
| DragAndDrop.DragEnd | src/hooks/useDragAndDrop.ts:54-73 | outside a drag nothing changes; otherwise the drag ends and the dragged disk and selection are cleared, and the hook's move is made only when the target differs from the source; the target tower is an input, and `DragAndDrop.TargetTowerInRange` gives its range for a release inside the canvas |
| DragAndDrop.DragMatchesMove | src/hooks/useDragAndDrop.ts:23-73 | dragging the top of a non-empty tower s onto a different tower t is exactly the hook's move from s to t, the same as the two-click protocol |
| DragAndDrop.DropOnSourceIsNoMove | src/hooks/useDragAndDrop.ts:62-64 | dropping a disk back on its own tower leaves board and move counter unchanged and clears the selection |
| DragAndDrop.DragPreservesLegalBoard | src/hooks/useDragAndDrop.ts:54-73 | ending a drag of a live disk keeps a legal board legal |
| StartScreen.Trim | src/components/SplashScreen.tsx:29 | the trimmed name is a contiguous piece of the input with only whitespace around it; it is empty exactly when the input is all whitespace, and otherwise begins and ends with a non-whitespace character |
| StartScreen.TrimIdempotent | src/components/SplashScreen.tsx:36 | trimming a trimmed name changes nothing |
| StartScreen.HandleStart | src/components/SplashScreen.tsx:28-39 | nothing starts iff the name is all whitespace, and then the error message is set; otherwise the form is unchanged and the settings carry the mode, the trimmed name, and a difficulty exactly in normal mode |
| StartScreen.StartedNameIsClean | src/components/SplashScreen.tsx:34-38 | the name handed over is non-empty with no surrounding whitespace, and entering it again starts the same game |
| StartScreen.EmptyFormRefused | src/components/SplashScreen.tsx:23-31 | starting from the untouched form only shows "Please enter your name" |
| LeaderboardView.GetDifficultyName | src/components/Leaderboard.tsx:24-38 | the heading is the difficulty's own name when the number is a difficulty's value, and "Unknown" otherwise |
| LeaderboardView.DifficultyNamesDistinct | src/components/Leaderboard.tsx:24-38 | "Unknown" appears exactly outside 3..7, and the five names differ, so the heading determines the disk count |
| LeaderboardView.NameOfDifficulty | src/components/Leaderboard.tsx:24-38 | the name shown for a difficulty's disk count is that difficulty's name |

## Left out

- Firestore reads and writes in `saveGameResult`, `getLeaderboard`, `getPlayerStats`, `getOrCreatePlayer` and `updatePlayerStats`: remote I/O. The fetched result list and the player record read are inputs, and the record to write is the output.
- The query filters on difficulty and game mode in `getLeaderboard` are evaluated by the database. Only the reduction, sort and slice on the fetched list are modelled.
- The `catch` that turns any failure of `getLeaderboard` into an empty list covers database failures only, which the model has none of.
- `getOrCreatePlayer`'s default record (skill 1, Easy, no games) is a database write; it is not modelled.
- `completedAt` and the document ids: opaque values, carried as an integer and a string.
- The request to the completion endpoint and `JSON.parse`: the reply arrives as the decoded record, or as "did not decode". The catch in `getNextMove` becomes `None`.
- `Object.values` lists integer-like keys (such as a player called "42") before other keys, in numeric order. The model keeps all players in first-seen order.
- Ranking.BestPerPlayerSpec: names that collide with inherited object properties (`__proto__`, `constructor`) behave differently on a plain object. The model treats every name as an ordinary key.
- Skill.UpdatePlayerStats: efficiencies are exact reals, not IEEE doubles. Rounding in the sum and in `avg * 5` is not modelled. It can change the skill level at a boundary. For efficiencies 1.0, 0.8 and 0.6, the code computes 3.9999999999999996 and writes skill 3 (Hard), while the model gives exactly 4 (Expert).
- Decimal.IntToString: `${n}` switches to exponent notation at 10^21. The model prints all digits.
- Audio playback (the sound service and the older sound helper): side effects only.
- Canvas drawing and the mapping from the pointer to a canvas point: the release point arrives as canvas coordinates. Only the column computation is modelled, and the tower under a press is an input.
- DragAndDrop.TargetTowerInRange: the offset `clientX - rect.left` is in CSS pixels of the element's border box, while the divisor is `canvas.width`. With a border, or with CSS scaling, an offset can reach the width and give tower 3, and the code then fails with a TypeError. The lemma covers only offsets below the width. `DragEnd` takes the target tower as an input.
- The one-second timer, the effect that opens the win dialog, and the `setTimeout` scheduling of the deferred reset step: asynchronous. The deferred step is a separate function, `GameView.ResetTimeout`, applied with nothing in between.
- Undo: only its props are declared. No implementation exists to model.
- Presentation: Material UI markup, the controls, the dialogs, notifications and the application shell.
