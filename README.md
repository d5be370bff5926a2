# Snake Clash, modelled in Dafny

A model of the simulation engine of Snake Clash, a browser game for one or two
players that can also be played against a computer snake. The model covers
everything the game decides; it draws nothing. The game has these parts:

- **The grid.** The field is 30 x 30 cells. A snake is a list of segments, head
  first, that moves one cell per tick in one of four directions. It may not turn
  straight back.
- **Growth.** A snake grows by keeping its tail for as many ticks as it is owed
  segments.
- **Food.** There are three kinds: normal, speed and super. Super food is worth
  3 points and 3 segments; the others are worth 1 of each.
- **Spawning.** A new food goes on a random free cell. After 1000 occupied
  samples the search settles for the centre cell.
- **Speed.** Each meal shortens the tick interval by 2 ms, down to 50 ms. Each
  round restarts it at 120 ms.
- **The computer snake.** It rules out unsafe moves. It scores the rest by
  distance to the nearest food, distance from the walls and open cells nearby,
  plus a random term, and takes the best.
- **A tick.** The computer steers, every snake moves, and the live snakes eat.
  Then the snakes that crashed die: into a wall, into themselves, or into any
  other snake. Extra food may appear. Finally the round is judged.
- **Winning.** In two-player modes, a sole survivor wins the round. The first to
  3 rounds wins the match, and two dead snakes make a draw. In one-player mode
  the game is over when the snake dies.

`Math.random()` is not called. A game session holds a stream of draws,
`random: nat -> Draw`, and a cursor `drawn` into it:

- A draw `u < 2^53` stands for the number `u / 2^53`.
- Every use of `Math.random()` in the game takes the next draw and moves the
  cursor on.
- `Math.floor(Math.random() * n)` becomes `u * n / 2^53`.
- The thresholds 0.92, 0.82 and 0.02 become exact integer comparisons.
- The computer snake's score is kept multiplied by `10 * 2^53`. That makes every
  term an integer and does not change any comparison between scores.

Modules:

- `Geometry`: cells, directions and segment membership.
- `Randomness`: draws.
- `Foods`: the food table and the kind of a new food.
- `Spawner`: the free-cell search and runs of spawns.
- `Snakes`: the `Snake` class.
- `Ai`: the computer snake's move choice.
- `Rules`: the food scan, the speed-up and the judging of a round, all on values.
- `Game`: the `Game` class, which owns the session state and runs `initRound`,
  `tick`, `checkRoundEnd`, `startRound` and `startGame`.

The methods of `Snake` and `Game` change their fields in place. Most are proved
against a function or predicate of the old state:

- `Update`, `MovePhase` and `Move` against `Advanced`;
- `Feed` against `Scan`, and `EatPhase` against `Feast`;
- `SpawnFoods` and `InitRound` against `SpawnRun`;
- `CheckRoundEnd` against `Judge`;
- `PickEmptyCell` against `EmptyCell` and `FirstFreeOrCentre`;
- `ChooseAmong`, `AiDecide` and `AiPhase` against `ChosenBy` and `AiChoice`.

`SetDirection`, `Grow` and the other small steps state their effect directly.
The lemmas beside those functions state what the game promises:

- The food count stays the same while snakes eat.
- A dead snake gains nothing.
- The interval is clamped to 50 ms.
- New food is on the grid. It avoids every snake and every earlier food,
  unless the search falls back to the centre. A food that replaces one eaten
  during a tick is spawned clear of the other foods, but the model proves only
  that it avoids the snakes' bodies.
- The computer snake never reverses.
- Two heads that meet both crash.

## Model

| member | source | states |
|---|---|---|
| Geometry.Opposite | snake-clash/game.js:16-21 | the opposite direction is the negated unit vector |
| Geometry.ReverseIsOpposite | snake-clash/game.js:72 | the vector-sum test `dir + newDir == 0` holds exactly for the opposite direction, and never for a direction itself |
| Geometry.Step | snake-clash/game.js:81-84 | one step moves to a different cell, exactly one unit along one axis |
| Geometry.Centre | snake-clash/game.js:386 | the fallback cell `(floor(COLS/2), floor(ROWS/2))` is on the grid |
| Geometry.Occupies | snake-clash/game.js:116-121 | the segment scan finds a match exactly when the cell is in the list |
| Randomness.Below | snake-clash/game.js:381-382 | `Math.floor(Math.random() * n)` is an index below `n` |
| Randomness.BelowIsFloor | snake-clash/game.js:381-382 | the integer form is the floor of `(u / 2^53) * n` |
| Foods.Value | snake-clash/game.js:227-231 | a super food is worth 3 points; normal and speed foods are worth 1 |
| Foods.GrowAmount | snake-clash/game.js:233-236 | a super food adds 3 segments; the others add 1 |
| Foods.GrowMatchesValue | snake-clash/game.js:227-236 | every kind grows its eater by exactly the points it scores, and at least 1 |
| Foods.SpawnKind | snake-clash/game.js:391-394 | super above 0.92, speed in (0.82, 0.92], normal at or below 0.82, each as an iff |
| Foods.SpawnKindMonotone | snake-clash/game.js:391-394 | a larger draw never gives a less valuable kind |
| Spawner.Sample | snake-clash/game.js:381-382 | a sampled cell (x from one draw, y from the next) is on the grid |
| Spawner.SearchFrom | snake-clash/game.js:379-386 | the search after `a` rejected samples; `Spawner.SearchFromIsFirstFree` states its result |
| Spawner.EmptyCell | snake-clash/game.js:368-387 | `getRandomEmptyCell` on a cursor; `Spawner.EmptyCellIsFirstFree` and `Spawner.EmptyCellFreeOrFallback` state its result |
| Spawner.SearchFromIsFirstFree | snake-clash/game.js:379-386 | once the first `a` samples were occupied, the search gives the first free sample or the centre after 1000 |
| Spawner.EmptyCellIsFirstFree | snake-clash/game.js:368-387 | `getRandomEmptyCell` gives the first unoccupied sample and the cursor after it, or the centre once all 1000 samples are occupied |
| Spawner.EmptyCellFreeOrFallback | snake-clash/game.js:379-386 | the cell is on the grid and free unless it is the centre; the search uses between 1 and 2000 draws |
| Spawner.PickEmptyCell | snake-clash/game.js:379-386 | the `while (attempts < 1000)` loop returns the first free sample, or the centre after 1000 occupied ones |
| Spawner.Spawned | snake-clash/game.js:389-395 | `spawnFood` on a cursor: a free cell, then one more draw for the kind; `Spawner.SpawnedOnFreeCell` states its result |
| Spawner.SpawnedOnFreeCell | snake-clash/game.js:389-395 | a spawned food is on a free cell of the grid (or the centre), and its kind comes from the draw after the search |
| Spawner.SpawnWithSpawnsFree | snake-clash/game.js:389-395 | `spawnFood` always places off the occupied cells (or on the centre) and moves the cursor on |
| Spawner.PlacedSnoc | snake-clash/game.js:395 | pushing a food that avoids the bodies and the earlier foods keeps the list placed |
| Spawner.PlacedOnGrid | snake-clash/game.js:389-396 | every food of a placed list is on the grid |
| Spawner.SpawnRun | snake-clash/game.js:416 | the foods and the cursor after `n` spawns in a row, each seeing the foods before it; `Spawner.SpawnRunLength` and `Spawner.SpawnRunPlaces` state them |
| Spawner.SpawnRunLength | snake-clash/game.js:416 | `n` spawns give `n` foods and use at least `n` draws |
| Spawner.SpawnRunPlaces | snake-clash/game.js:368-377 | each food of a run avoids every body and every food spawned before it, unless it is on the centre |
| Snakes.Advanced | snake-clash/game.js:80-92 | the body after one advance of `update`; what it promises is stated by `Snakes.AdvancedShape` |
| Snakes.AdvancedShape | snake-clash/game.js:80-92 | after an advance the head is one step on and the old body follows it; the length grows by 1 exactly when growth is owed |
| Snakes.Run | snake-clash/game.js:76-93 | the body and owed growth after one advance per direction of a list; `Snakes.RunGrowth` states its length and growth |
| Snakes.RunGrowth | snake-clash/game.js:88-97 | after `n` advances the body is longer by `min(n, growCount)`, and that much less growth is owed |
| Snakes.Snake.constructor | snake-clash/game.js:55-68 | 3 segments: the head at the start cell and each later one a step back against `dir`; `dir == nextDir`, alive, no owed growth |
| Snakes.Snake.SetDirection | snake-clash/game.js:70-74 | a reverse request leaves `nextDir` unchanged, any other request sets it; nothing else changes |
| Snakes.Snake.Update | snake-clash/game.js:76-93 | a dead snake is unchanged; a live one takes `nextDir`, advances one cell, keeps its tail exactly while growth is owed, and its body is never empty |
| Snakes.Snake.Grow | snake-clash/game.js:95-97 | owed growth rises by the amount |
| Snakes.Snake.Head | snake-clash/game.js:99-101 | `headPos` returns a segment of the body, the first |
| Snakes.Snake.HitsWall | snake-clash/game.js:103-106 | true exactly when the head is outside `[0,COLS) x [0,ROWS)` |
| Snakes.Snake.CheckSelfCollision | snake-clash/game.js:108-114 | true exactly when the head equals `body[i]` for some `i >= 1` |
| Snakes.Snake.CheckCollisionWith | snake-clash/game.js:116-122 | true exactly when the head is on any segment of the other snake, its head included |
| Ai.NearestDist | snake-clash/game.js:278-282 | the running minimum of the Manhattan distances to the foods, nothing for no food; `Ai.NearestDistIsMinimum` states it |
| Ai.NearestDistIsMinimum | snake-clash/game.js:278-282 | the scan finds the least Manhattan distance to a food, and finds nothing (Infinity) exactly when there is no food |
| Ai.NearestFoodDist | snake-clash/game.js:278-282 | the loop computes that running minimum |
| Ai.WallDist | snake-clash/game.js:286 | the distance is the least of the four wall distances; on the grid it is in `[0, 15)` |
| Ai.OpenCount | snake-clash/game.js:290-303 | the on-grid cells of the 5 x 5 window off the snake's own body, counted column by column; `Ai.OpenCountBound` and `Ai.OpenSpaces` state it |
| Ai.ColumnCountBound | snake-clash/game.js:292-302 | a column of the window holds at most as many open cells as it has rows |
| Ai.WindowCountBound | snake-clash/game.js:291-303 | each column added holds at most 5 open cells |
| Ai.OpenCountBound | snake-clash/game.js:290-303 | at most 25 cells of the window are open |
| Ai.OpenInColumn | snake-clash/game.js:292-302 | the inner `dy` loop counts the open cells of one column |
| Ai.OpenSpaces | snake-clash/game.js:290-304 | the double loop counts the on-grid cells of the 5 x 5 window that are off the snake's own body (at most 25) |
| Ai.Candidate | snake-clash/game.js:250-272 | a direction is kept when it is not the reverse and leads on-grid and off both bodies; `Ai.Blocked` proves the pruning tests reject exactly the others |
| Ai.Survivors | snake-clash/game.js:249-272 | the kept directions in loop order; `Ai.SurvivorsAreCandidates` states its members |
| Ai.SurvivorsAreCandidates | snake-clash/game.js:249-272 | a direction survives exactly when it is not the reverse and leads on-grid and off both bodies |
| Ai.BaseScore | snake-clash/game.js:275-304 | the scaled score of a cell before the random term; `Ai.BaseScoreFinite` and `Ai.ScoreCandidate` state it |
| Ai.BaseScoreFinite | snake-clash/game.js:275-283 | a score is finite exactly when some food exists |
| Ai.Scores | snake-clash/game.js:274-307 | the survivors' scores, one draw each in order; `Ai.ScoresLength`, `Ai.ScoresSnoc` and `Ai.ScoresFinite` state them |
| Ai.ScoresLength | snake-clash/game.js:274-307 | every survivor gets one score |
| Ai.SurvivorsSnoc | snake-clash/game.js:249-272 | one more candidate adds itself to the survivors exactly when it survives |
| Ai.ScoresSnoc | snake-clash/game.js:274-307 | one more survivor adds its score, drawn with the next draw |
| Ai.ScoresFinite | snake-clash/game.js:278-283 | no survivor scores finitely exactly when there is no survivor or no food |
| Ai.IsFirstBest | snake-clash/game.js:309-312 | position `m` holds a finite score above every earlier one and at least every later one, as the strict `>` update leaves it; `Ai.FirstBestUnique` and `Ai.FirstBestExists` state it |
| Ai.ChosenBy | snake-clash/game.js:243-315 | the choice is `dir` when no survivor scores and otherwise the survivor at the first best position; `Ai.ChooseAmong` and `Ai.TrackDone` state it |
| Ai.FirstBestUnique | snake-clash/game.js:309-312 | the strict `score > bestScore` update picks one well-defined position |
| Ai.FirstBestExists | snake-clash/game.js:309-312 | when some score is finite, a first best survivor exists |
| Ai.FirstBestAppend | snake-clash/game.js:309-312 | a new score takes over exactly when it beats the best so far |
| Ai.NoneScoredAppend | snake-clash/game.js:244-245 | starting from `-Infinity`, the first finite score becomes the best |
| Ai.Blocked | snake-clash/game.js:250-272 | the pruning tests reject a candidate exactly when it is not safe |
| Ai.ScoreCandidate | snake-clash/game.js:274-307 | the computed score is the scaled `-dist + 0.5*wallDist + 0.3*openSpaces + 2*rand`, `-Infinity` exactly when there is no food |
| Ai.TrackSkip | snake-clash/game.js:250-272 | a pruned candidate changes neither the best nor the draws |
| Ai.TrackScore | snake-clash/game.js:274-312 | a survivor uses one draw and becomes the best exactly when it beats the best so far |
| Ai.TrackDone | snake-clash/game.js:313-315 | after the last candidate the choice is the first best survivor, or `dir` when none scored |
| Ai.ChooseAmong | snake-clash/game.js:244-313 | the choice loop returns `dir` when no survivor scores finitely, else the first survivor with the highest score; one draw per survivor |
| Ai.AiChoice | snake-clash/game.js:242-316 | the choice of `aiDecide` from a given state: the first best survivor, never the reverse, and a safe candidate or `dir`; `Ai.AiDecide` computes it |
| Ai.AiDecide | snake-clash/game.js:242-316 | the requested direction is never the reverse; it is a safe candidate or the current `dir`; it is the first best survivor, and it falls back to `dir` exactly when no survivor scores, that is, none survives or there is no food |
| Rules.NextSpeed | snake-clash/game.js:477 | `max(MIN_SPEED, speed - SPEED_INCREMENT)`: never below 50, never above the old interval, exactly 2 less while above 52 |
| Rules.SpeedAfter | snake-clash/game.js:477 | the interval after `n` speed-ups; `Rules.SpeedAfterIsClamped` states its value |
| Rules.SpeedAfterIsClamped | snake-clash/game.js:477 | `n` meals give `max(50, speed - 2n)`, which stays between 50 and the starting interval |
| Rules.Kept | snake-clash/game.js:463-475 | the foods the scan leaves in place, in order; `Rules.KeptEatenLength`, `Rules.KeptEatenMembers` and `Rules.ScanFoods` state them |
| Rules.Eaten | snake-clash/game.js:463-475 | the foods on the head, which the scan eats; `Rules.KeptEatenMembers` and `Rules.ScanGains` state them |
| Rules.KeptEatenLength | snake-clash/game.js:463-475 | the foods kept and the foods eaten account for the whole list |
| Rules.KeptEatenMembers | snake-clash/game.js:463-475 | the kept foods are exactly those off the head; the eaten ones exactly those on it |
| Rules.TotalsAgree | snake-clash/game.js:466-472 | the growth a snake gains equals the points it scores, at least one per food |
| Rules.PrefixStep | snake-clash/game.js:463 | the backward scan over index `i - 1` extends the kept or the eaten foods by that food |
| Rules.Scan | snake-clash/game.js:463-483 | one snake's backward scan over the foods; `Rules.ScanFoods`, `Rules.ScanGains` and `Game.ScanBounds` state its result |
| Rules.AfterMeal | snake-clash/game.js:473-477 | the table after one food is spliced out and replaced and the interval shortened; `Rules.FoodsAfterEat` uses it |
| Rules.MealGain | snake-clash/game.js:466-472 | the growth and points of the food eaten added to the snake's; `Rules.GainsAfterEat` uses it |
| Rules.ScanUnfold | snake-clash/game.js:463-483 | one index of the scan: a food off the head is skipped; a food on the head is eaten and replaced |
| Rules.FoodsAfterSkip | snake-clash/game.js:463-464 | the food-list invariant holds across a food left in place |
| Rules.JoinSpawn | snake-clash/game.js:473-474 | a replacement pushed to the end joins the replacements after it |
| Rules.FoodsAfterEat | snake-clash/game.js:464-477 | the food-list invariant holds across a food spliced out and replaced |
| Rules.FoodsAfterScan | snake-clash/game.js:463-483 | the food-list invariant holds for the whole scan |
| Rules.ScanFoods | snake-clash/game.js:463-483 | the count of foods stays the same; the uneaten foods keep their order; each eaten food is replaced by one spawned food, placed off every body |
| Rules.ScanInBounds | snake-clash/game.js:463-483 | the scan keeps every food on the grid |
| Rules.TotalsSnoc | snake-clash/game.js:466-472 | one more eaten food adds its growth and value |
| Rules.GainsAfterSkip | snake-clash/game.js:463-464 | the gains invariant holds across a food left in place |
| Rules.GainsAfterEat | snake-clash/game.js:464-477 | the gains invariant holds across a food eaten |
| Rules.GainsAfterScan | snake-clash/game.js:463-483 | the gains invariant holds for the whole scan |
| Rules.ScanGains | snake-clash/game.js:463-483 | the snake gains the growth and the value of exactly the foods on its head, and the interval speeds up once per food |
| Rules.Judge | snake-clash/game.js:534-564 | one player: game over exactly when the snake is dead. Two players: both alive goes on and both dead is a draw, each with round scores unchanged. A sole survivor gets exactly +1 and wins the match exactly when it reaches 3 |
| Rules.MatchBounded | snake-clash/game.js:551-563 | round scores never exceed 3, reach 3 only with a match win, and rise by at most 1 per tick |
| Game.BodyCellsOfMembers | snake-clash/game.js:369-374 | a cell is covered exactly when it lies on some snake's body |
| Game.AliveOf | snake-clash/game.js:544 | the alive flags of the snakes, in order |
| Game.HeadsOf | snake-clash/game.js:460-462 | each snake's head, or nothing for a dead snake |
| Game.GainsOf | snake-clash/game.js:466-472 | each snake's owed growth and the score in its slot |
| Game.Feast | snake-clash/game.js:459-484 | the eating phase yields one gain per snake |
| Game.FeastBounds | snake-clash/game.js:459-484 | eating keeps the food count and every food on the grid; the interval only falls, and never below 50; gains only rise; a dead snake gains nothing |
| Game.ScanBounds | snake-clash/game.js:463-483 | one live snake's scan keeps the number of foods and keeps them on the grid; the interval stays between 50 and its old value; the cursor, the growth and the points never fall |
| Game.Crashed | snake-clash/game.js:491-493 | the wall and self tests of the death loop; `Game.Game.DeathPhase` and `Game.Game.Cull` state their effect |
| Game.HitsOther | snake-clash/game.js:496-500 | the test against the other snakes' bodies, head included; `Game.Game.DeathPhase` states its effect |
| Game.ExtraFoodDrawn | snake-clash/game.js:515 | the `0.02` threshold on one draw; `Game.Game.ExtraFood` states its effect |
| Game.HeadOnCrashesBoth | snake-clash/game.js:495-512 | two heads on one cell both crash in the death loop, so the head-on check finds nothing left to kill |
| Game.Game.OccupiedCells | snake-clash/game.js:369-377 | the occupied set is every body segment and every food cell |
| Game.Game.SpawnFood | snake-clash/game.js:389-396 | one food is pushed at the end: the first free sample (or the centre) with the kind from the next draw |
| Game.Game.Lineup | snake-clash/game.js:398-413 | the start of a round: 3-segment bodies, the first from `(5, 15)` heading right, the second from `(24, 15)` heading left and steered by the AI only in versus-AI mode; all alive, no owed growth, `nextDir == dir` |
| Game.Game.ResetRound | snake-clash/game.js:398-413 | new snakes in the `Lineup` positions; no food, 120 ms, round active |
| Game.Game.InitRound | snake-clash/game.js:398-419 | new snakes in the `Lineup` positions, 120 ms, round active, plus exactly 3 foods from three spawns in a row, each off the snakes and the earlier foods unless on the centre |
| Game.Game.SpawnFoods | snake-clash/game.js:416 | `n` consecutive spawns are the spawn run of length `n` |
| Game.Game.SpawnNext | snake-clash/game.js:416 | one more spawn extends the run by one |
| Game.Game.Feed | snake-clash/game.js:462-483 | a live snake's backward scan over the foods is `Scan` on the old state; only its score slot changes |
| Game.Game.FeedStep | snake-clash/game.js:463-464 | one index of the scan, eaten or skipped |
| Game.Game.Eat | snake-clash/game.js:464-477 | the food is spliced out and one food spawned; growth and score rise by the food's amounts; the interval becomes `max(50, speed - 2)` |
| Game.Game.Distinct | snake-clash/game.js:404-412 | the two snakes of a round are different objects |
| Game.Game.AiPhase | snake-clash/game.js:447-452 | only a live AI snake is steered, by `aiDecide` against the other snake; the first player's direction is untouched |
| Game.Game.MovePhase | snake-clash/game.js:454-457 | each live snake advances as `update` says; dead ones stay put |
| Game.Game.EatPhase | snake-clash/game.js:459-484 | the eating phase is `Feast` on the old state, each snake scoring into its own slot (slot 0 in one-player mode) |
| Game.Game.EatStep | snake-clash/game.js:460-484 | one snake's turn extends `Feast` by that snake |
| Game.Game.DeathPhase | snake-clash/game.js:486-502 | a snake stays alive exactly when it was alive and did not hit a wall, itself, or any other snake's body |
| Game.Game.CrashTest | snake-clash/game.js:487-501 | the death test of one snake |
| Game.Game.HeadOnPhase | snake-clash/game.js:504-512 | two live snakes with the same head cell both die; nothing else changes |
| Game.Game.ExtraFood | snake-clash/game.js:514-517 | below 2 foods one is always spawned. Below 5, one is spawned exactly when a draw falls under 0.02, and that draw is taken only then. At 5 or more nothing happens |
| Game.Game.CheckRoundEnd | snake-clash/game.js:534-564 | the verdict and the new round scores are `Judge` on the alive flags; the round stops unless play goes on |
| Game.Game.Tick | snake-clash/game.js:444-524 | paused or between rounds, nothing changes. Otherwise the first snake, and a second one not steered by the AI, move in the `nextDir` they had before the tick; an AI snake moves in the `AiChoice` for the state before the tick. Every snake advances, is alive exactly when it did not crash, and meeting heads both die; the verdict is `Judge`, the interval never rises, scores never fall, and the session invariant holds |
| Game.Game.Play | snake-clash/game.js:447-523 | one tick of a running round, with the guarantees of `Tick` |
| Game.Game.Settle | snake-clash/game.js:459-523 | eating, deaths, extra food and the verdict keep the invariant; a snake dies exactly when it crashed; bodies and directions stay as the move left them; owed growth never falls |
| Game.Game.Fare | snake-clash/game.js:459-512 | eating, then deaths: a snake is alive exactly when it was alive and did not crash, bodies and directions are unchanged, the interval never rises, and no score or owed growth falls |
| Game.Game.Finish | snake-clash/game.js:514-523 | extra food (at most one added, 3 to 5 on the grid), then the verdict of `Judge`; the snakes are untouched |
| Game.Game.Restock | snake-clash/game.js:514-517 | the extra-food step adds at most one food and keeps 3 to 5 foods on the grid |
| Game.Game.Advance | snake-clash/game.js:447-457 | after the AI and move steps every snake has advanced in its new direction: the old `nextDir` for the first snake and for a player-steered second one, the `AiChoice` of the old state for an AI snake, with one draw per survivor; the foods, scores and interval are unchanged |
| Game.Game.Steer | snake-clash/game.js:447-452 | in a running round, the first snake and a player-steered second one keep `nextDir`; an AI snake requests its `AiChoice` from the draws at the old cursor, which moves on by one draw per survivor; the session invariant holds |
| Game.Game.Move | snake-clash/game.js:454-457 | every snake of a running round advances in its `nextDir`, paying out one owed segment |
| Game.Game.Dine | snake-clash/game.js:459-484 | eating keeps the food count, keeps the foods on the grid, never raises the interval and never lowers a score or the owed growth; bodies and directions are unchanged |
| Game.Game.Graze | snake-clash/game.js:459-484 | the bounds of `Dine`, drawn from `Game.Game.EatPhase` and `Game.FeastBounds`: same food count, foods on the grid, the interval never rises, and no score or owed growth falls |
| Game.Game.Cull | snake-clash/game.js:486-512 | after the death and head-on steps a snake is alive exactly when it was alive and did not crash; bodies, directions and owed growth are unchanged |
| Game.Game.constructor | snake-clash/game.js:587-597 | `startGame`: both score tables at `[0, 0]`, then a running round with new snakes in the `Lineup` positions and 3 foods at 120 ms; `paused` starts false, as the global at snake-clash/game.js:43 does |
| Game.Game.StartRound | snake-clash/game.js:566-585 | `startRound` gives a valid, running round with new snakes in the `Lineup` positions and 3 foods at 120 ms |

## Left out

- Rendering (`draw`, `drawEyes`, `roundRect`, `drawStar`, `drawGrid`, `render`) is drawing only, and colours are not modelled.
- The DOM is not modelled: `updateScoreboard`, `showMessage`, `showGameOver`, the menus and the button handlers.
- The `keydown` listener is not modelled. Its effect on play is a `SetDirection` call, or a flip of `paused`, which `Tick` takes as it finds it.
- Timers are not modelled: the `setInterval` rescheduling after a meal, the countdown in `startRound`, and the `setTimeout` calls that start the next round or show the game-over screen. Only the interval value `speed` is kept.
- `Date.now` in `Food.spawnTime` is not modelled. It is used only for animation.
- `Math.random()` is replaced by a stream of exact draws `u / 2^53`.
- Floating-point rounding in the computer snake's score is not modelled. The scaled integer score compares exactly, whereas the game's `0.5` and `0.3` products and its sum of doubles compare up to rounding.
- The game finds the computer snake's opponent with `snakes.find(s => s !== snake)`. The model uses the other of the two snakes, which is the same object because the two snakes are distinct (`Distinct`).
- In one-player mode the game scores into slot 0 and in other modes into the snake's index. The model keeps both branches, and the two agree because the only snake of a one-player round has index 0.
- The head-on check at snake-clash/game.js:505-512 can never kill anyone. Once the death loop has run, two heads on the same cell have each hit the other snake's body (`HeadOnCrashesBoth`). The model keeps the check as written.
- The `foods.length < 2` case of the extra-food step is modelled, but no reachable state has fewer than 3 foods on the grid.
- Game.Game.Tick: states the food list, the scores and the interval after a tick only as bounds, and does not state each snake's `growCount` after the tick. The exact effect of eating, growth included, is stated by `Game.Game.EatPhase` (as `Feast`), the payout of one owed segment by `Game.Game.MovePhase`, and the extra food by `Game.Game.ExtraFood`.
- Game.Game.Play: states the foods, scores and interval only as bounds and does not state `growCount`, as `Game.Game.Tick` does.
- Game.Game.StartRound: states the snakes of the new round and the number of foods, not which foods are spawned; `Game.Game.InitRound` states that.
- Game.Game.constructor: states the snakes of the first round and the number of foods, not which foods are spawned; `Game.Game.InitRound` states that.
- Rules.ScanFoods: a replacement food is stated to be on the grid and off every body (or on the centre), not off the foods that remain, although `AfterMeal` spawns it clear of them.
- Game.Game.Settle: states the foods, scores, interval and `growCount` only as bounds; `Game.Game.EatPhase` states them exactly.
- Game.Game.Finish: states only that at most one food is added, within 3 to 5 on the grid, as `Game.Game.Restock` does; `Game.Game.ExtraFood` states exactly when.
- Game.Game.Fare: states the foods, scores, interval and `growCount` only as bounds, as `Game.Game.Settle` does.
- Game.Game.Restock: states only that at most one food is added, within 3 to 5 on the grid. `Game.Game.ExtraFood` states exactly when.
- Game.Game.Dine: states only bounds; `Game.Game.EatPhase` states the exact result.
- Game.Game.Graze: states only bounds, as `Game.Game.Dine` does; `Game.Game.EatPhase` states the exact result.
