# Aiden mini-games: a verified model of the game logic

Aiden is a collection of small learning games for children. This project models the integer core of five of them, together with the progress store they share:

- **Math test**: ten arithmetic questions with a streak bonus.
- **Missing number**: an equation with one number hidden.
- **Combo**: pick numbers that add up to a target.
- **Maze**: a square maze that grows every level.
- **Merge fruit**: equal fruits merge into the next, larger fruit.

The store keeps:
- the settings (sound on/off and a difficulty);
- one high score per game;
- a log of the ten most recent results.

The project states and proves properties of each game's logic:
- what the problem generators can hand out;
- how answers are scored;
- what the delayed continuations that end a session record;
- that the maze generator always produces a spanning tree;
- that fruit merges keep the world well formed, and keep its total mass once each pair is checked to be still in the world.

Where the code as written misses what it evidently intends, the model keeps both behaviours. The as-written one comes with a counterexample, and the corrected one with the intended property. The section "Findings" lists them. For example, a '-' problem of the missing-number game as written shows a false equation, and merge fruit's collision handler as written can create mass.

## Modelling conventions

- Every random draw `Math.floor(Math.random() * n)` is a parameter required to be below `n`, with one exception. The maze generator's neighbour choice (`Maze.tsx:50`) has an `n` that is known only inside the loop. There, `MazeGrid.GenerateMaze` takes a function `draws` from step to draw, and `MazeGrid.Advance` picks neighbour `draw % n`, so every choice is still covered.
- Every shuffle `sort(() => Math.random() - 0.5)` is an index permutation `order`, so every arrangement is covered.
- The option loop's endless random stream is a finite sequence of draws. The loop stops early when the draws run out, and the generators then return `None`. `AnswerOptions.FillCompletes` shows which draws are enough to finish.
- The 800 ms `setTimeout` continuation of a quiz answer is a `Timeout` value. It holds what the closure captured and waits in a `pending` queue. `Continue` fires the oldest one.
- `generateMaze` works in place on an `array2<Cell>`. A ghost grid value mirrors the array, and the invariants are stated over that value.
- Merge fruit's refs and state form the class `MergeFruit.FruitGame`. Its methods update the class's fields.
- The store and the three quiz sessions are values, and each action returns a new value, as the source's state setters do.

## Model

| member | source | states |
|---|---|---|
| Common.Permute | src/components/games/MathTest.tsx:74 | the shuffled list holds the elements at the permuted positions: same length, same multiset |
| Common.PermuteDistinct | src/components/games/Missing.tsx:71 | shuffling distinct options keeps them distinct and keeps exactly the same values |
| Common.PermutePreservesMultiset | src/components/games/Combo.tsx:34 | reading a list through any permutation of its indices keeps its multiset of elements |
| Store.Initial | src/lib/store.ts:36-53 | the default store: sound on, difficulty normal, every high score 0, no recent games |
| Store.UpdateSettings | src/lib/store.ts:41-44 | each field given in the partial settings replaces the current one; absent fields, high scores and the log are unchanged |
| Store.HighScores.Set | src/lib/store.ts:59 | the entry of the named game takes the new value; every other game's entry is unchanged |
| Store.UpdateHighScore | src/lib/store.ts:55-63 | the game's high score becomes the larger of the old one and the offer; other games, settings and log unchanged; a score that does not beat the record leaves the state identical |
| Store.AddGameResult | src/lib/store.ts:68-72 | the new result goes first, the old entries follow shifted by one, and the log length is min(old + 1, 10) |
| Store.RecordSession | src/components/games/MathTest.tsx:139-144 | a finished session offers its score as high score and logs it: the high score becomes the maximum and the log starts with that result |
| Store.RecentGamesBounded | src/lib/store.ts:70 | however many results are added, the log never exceeds ten entries and starts with the last result added |
| Store.FullLogDropsOldest | src/lib/store.ts:70 | adding to a full log drops exactly the oldest entry |
| Store.HighScoresMonotone | src/lib/store.ts:55-63 | over any run of updates no high score goes down, and each final high score is at least every score offered for that game |
| Store.UpdateHighScoreIdempotent | src/lib/store.ts:55-63 | offering the same score twice changes nothing the second time |
| AnswerOptions.FillFrom | src/components/games/MathTest.tsx:59-67 | the option set stays well formed (the answer first, distinct, at most four, the others positive, not the answer and within answer-5..answer+4), and options already present are kept |
| AnswerOptions.BuildOptions | src/components/games/MathTest.tsx:59-67 | the `while (options.size < 4)` loop computes exactly the option set `Fill` defines; it stops with four options or with the draws used up |
| AnswerOptions.ProgressPossible | src/components/games/MathTest.tsx:61-65 | for a non-negative answer and fewer than four options, some draw adds a new admissible option, so the loop can always finish |
| AnswerOptions.FillCompletes | src/components/games/Missing.tsx:56-63 | draws containing 6, 7, 8 and 9, in any order and among any others, give four options |
| MathTest.Operators | src/components/games/MathTest.tsx:23-26 | the operators are distinct and start with + and -; × is offered exactly above easy and ÷ exactly on hard |
| MathTest.Operands | src/components/games/MathTest.tsx:34-57 | every in-range draw builds operands in the operator's bounds with the correct answer, which is never negative |
| MathTest.OperandsCover | src/components/games/MathTest.tsx:34-57 | conversely, every operand triple within bounds comes from some draw |
| MathTest.DivisionExact | src/components/games/MathTest.tsx:50-54 | a division problem has a non-zero divisor, no remainder, and the answer as its exact quotient |
| MathTest.GenerateProblem | src/components/games/MathTest.tsx:22-76 | a generated problem uses the drawn operator, fits its bounds, and has four distinct admissible options including the answer; it exists exactly when the option loop completes |
| MathTest.HandleAnswer | src/components/games/MathTest.tsx:116-159 | ignored without a problem or while feedback shows; otherwise it counts the answer, adds 10 (20 from a streak of three) for a correct one, resets the streak on a wrong one, and queues the continuation with the captured values |
| MathTest.Continue | src/components/games/MathTest.tsx:135-158 | the tenth answer's continuation ends the session and records its final score; an earlier one shows the next problem and clears the feedback |
| MathTest.Restart | src/components/games/MathTest.tsx:161-167 | score, streak and count back to zero, game running, a fresh problem, no feedback; a queued continuation stays queued |
| MathTest.Start | src/components/games/MathTest.tsx:82-97 | a mounted session starts at zero with the first problem and nothing queued |
| MathTest.AnswerThenContinue | src/components/games/MathTest.tsx:135-144 | the final score the continuation records equals the running score after that answer, and the store's high score and log then hold it |
| MathTest.ReplayBounds | src/components/games/MathTest.tsx:123-125 | a run of answers scores between 10 and 20 points per correct answer and nothing for wrong ones |
| MathTest.HandleAnswerReplays | src/components/games/MathTest.tsx:119-131 | one answer moves score and streak exactly as one step of the replay fold |
| MathTest.PerfectSession | src/components/games/MathTest.tsx:123-125 | ten correct answers score 170 with a streak of 10 |
| MathTest.ReplayStreak | src/components/games/MathTest.tsx:123 | from a streak of three on, each correct answer is worth 20 |
| MathTest.ShownCorrectOvercounts | src/components/games/MathTest.tsx:178 | as written, the game-over message claims 17 correct answers out of 10 after a perfect session |
| MathTest.CorrectCountBounded | src/components/games/MathTest.tsx:178 | the number of correct answers never exceeds the answers given nor the count shown from the score |
| Missing.MakeTriple | src/components/games/Missing.tsx:27-35 | both branches build positive numbers with num1 + num2 = result, within the branch's bounds |
| Missing.Hide | src/components/games/Missing.tsx:38-53 | exactly the chosen slot is hidden and the other two show their true values |
| Missing.MinusLabelMisstates | src/components/games/Missing.tsx:68 | as written, the displayed equation is true exactly for the '+' branch: every '-' problem shows a false equation |
| Missing.Displayed | src/components/games/Missing.tsx:68 | the corrected display shows the same three numbers and a true equation under its sign |
| Missing.Equation | src/components/games/Missing.tsx:27-35 | corrected display: the equation the corrected generator shows holds under its sign, and its three numbers are positive |
| Missing.Pose | src/components/games/Missing.tsx:38-71 | exactly the chosen slot of the given triple is hidden and the answer is its value; the four options are distinct and admissible and include the answer; the problem exists exactly when the option loop completes |
| Missing.GenerateProblem | src/components/games/Missing.tsx:21-73 | as written: the triple num1 + num2 = result is shown in build order with one slot hidden; the shown equation is true exactly for '+', so a '-' problem shows a false one; the answer is the hidden value and at least 1; four distinct admissible options include it |
| Missing.GenerateProblemCorrected | src/components/games/Missing.tsx:21-73 | with the '-' branch shown as result - num1 = num2, filling the hidden slot with the answer always gives a true equation; options as in the as-written generator |
| Missing.HandleAnswer | src/components/games/Missing.tsx:111-150 | ignored without a problem or while feedback shows; otherwise a correct answer adds 10, and the continuation is queued with the captured values |
| Missing.Continue | src/components/games/Missing.tsx:127-149 | the tenth answer's continuation ends the session and records the final score; an earlier one shows the next problem |
| Missing.Restart | src/components/games/Missing.tsx:152-157 | score and count back to zero, a fresh problem, no feedback; a queued continuation stays queued |
| Missing.AnswerThenContinue | src/components/games/Missing.tsx:127-136 | the recorded final score equals the running score after that answer |
| Missing.ReplayFlat | src/components/games/Missing.tsx:116-118 | a run scores exactly 10 per correct answer, so at most 10 per answer |
| Missing.HandleAnswerReplays | src/components/games/Missing.tsx:114-125 | one answer moves the score exactly as one step of the replay fold |
| Combo.Drawn | src/components/games/Combo.tsx:23-26 | the loop pushes one number per draw, each the draw plus one |
| Combo.GenerateProblem | src/components/games/Combo.tsx:18-38 | the shown numbers are a shuffle of the drawn ones, each in 1..maxNum; the target is the sum of the first 2 or 3 numbers of the other shuffle, so it lies between that count and count × maxNum |
| Combo.SumBounds | src/components/games/Combo.tsx:31 | numbers in 1..m sum to between their count and count × m |
| Combo.TargetReachable | src/components/games/Combo.tsx:29-34 | some 2 or 3 distinct positions of the shown numbers sum to the target |
| Combo.Remove | src/components/games/Combo.tsx:83 | the filter keeps every index except the removed one, keeps distinctness, and is the identity when the index is absent |
| Combo.Toggle | src/components/games/Combo.tsx:81-86 | the toggled index changes membership and no other index does; distinct selections stay distinct |
| Combo.ToggleTwice | src/components/games/Combo.tsx:81-86 | toggling twice restores the selected set, and the very same list when the index was unselected |
| Combo.RemoveAppended | src/components/games/Combo.tsx:83-85 | filtering out an index just appended gives back the selection |
| Combo.ToggleNumber | src/components/games/Combo.tsx:78-88 | ignored while feedback shows; otherwise only the selection changes, by a toggle |
| Combo.CheckAnswer | src/components/games/Combo.tsx:90-129 | ignored without a problem, with nothing selected or while feedback shows; otherwise the pick is correct exactly when its sum is the target, scores 10 + 2 per number, and queues the continuation |
| Combo.Continue | src/components/games/Combo.tsx:105-128 | round 8's continuation ends the session and records the final score; an earlier one moves to the next round with an empty selection |
| Combo.Restart | src/components/games/Combo.tsx:131-136 | score 0, round 1, a fresh problem, nothing selected; a queued continuation stays queued |
| Combo.GeneratedRoundWinnable | src/components/games/Combo.tsx:90-99 | every generated round can be won: selecting the positions the target came from is judged correct and earns 10 + 2 per number |
| Combo.CheckThenContinue | src/components/games/Combo.tsx:105-113 | the recorded final score equals the running score after that answer |
| MazeGrid.Fresh | src/components/games/Maze.tsx:20-31 | the initial grid has the requested shape, every cell with four walls and unvisited |
| MazeGrid.NewGrid | src/components/games/Maze.tsx:20-31 | the nested loops fill a fresh array that holds the initial grid |
| MazeGrid.UnvisitedNeighbours | src/components/games/Maze.tsx:44-48 | the list holds in-grid unvisited neighbours only, and every one of them |
| MazeGrid.Neighbours | src/components/games/Maze.tsx:44-48 | reading the four neighbours from the array gives exactly that list |
| MazeGrid.Carve | src/components/games/Maze.tsx:54-59 | carving keeps the grid's shape |
| MazeGrid.CarveChanges | src/components/games/Maze.tsx:54-59 | a carve opens the two facing walls of the current and next cell, marks the next cell visited, and changes nothing else |
| MazeGrid.CarveInPlace | src/components/games/Maze.tsx:54-59 | the in-place wall removal and visit leave the array holding the carved grid |
| MazeGrid.CarvedSymmetric | src/components/games/Maze.tsx:54-57 | removing a wall on both sides keeps neighbouring walls in agreement |
| MazeGrid.CarvedBoundary | src/components/games/Maze.tsx:54-57 | a carve between two in-grid cells never opens the outer wall |
| MazeGrid.OpenAfterCarve | src/components/games/Maze.tsx:54-57 | after a carve, exactly the walls open before plus the one between the two cells are open |
| MazeGrid.CarvedClosed | src/components/games/Maze.tsx:59-60 | cells finished before a carve stay finished, with the new cell pushed |
| MazeGrid.PopClosed | src/components/games/Maze.tsx:61-63 | popping a cell with no unvisited neighbour keeps every off-stack visited cell finished |
| MazeGrid.StartSearch | src/components/games/Maze.tsx:34-37 | the origin is visited and pushed, and the search invariant holds with w × h − 1 cells unvisited and no wall removed |
| MazeGrid.PushKeeps | src/components/games/Maze.tsx:50-60 | a carve into an unvisited neighbour keeps the search invariant with one more removed wall, one fewer unvisited cell, and the new cell's parent recorded |
| MazeGrid.PopKeeps | src/components/games/Maze.tsx:61-63 | popping keeps the search invariant |
| MazeGrid.Advance | src/components/games/Maze.tsx:39-64 | one iteration keeps the search invariant and decreases 2 × unvisited + stack height, so the loop terminates |
| MazeGrid.SearchDoneVisited | src/components/games/Maze.tsx:39 | when the stack is empty every cell is visited |
| MazeGrid.PathFromOrigin | src/components/games/Maze.tsx:59-60 | following recorded parents gives a walk through open walls from the origin to the cell |
| MazeGrid.SearchDoneReachable | src/components/games/Maze.tsx:39 | when the stack is empty every cell is reachable from the origin |
| MazeGrid.CellsSize | src/components/games/Maze.tsx:20-31 | a w × h grid has w × h cells |
| MazeGrid.GenerateMaze | src/components/games/Maze.tsx:18-67 | the maze has every cell visited, neighbouring walls in agreement, the outer wall intact, exactly w × h − 1 removed walls, and every cell reachable from (0, 0): a spanning tree |
| MazeGame.MazeSize | src/components/games/Maze.tsx:81-84 | the side is the difficulty's base plus level − 1, at least 5 |
| MazeGame.MazeSizeGrows | src/components/games/Maze.tsx:81-84 | each level is one cell wider, and harder settings are larger |
| MazeGame.Target | src/components/games/Maze.tsx:238-250 | each key moves to an adjacent cell |
| MazeGame.LevelScore | src/components/games/Maze.tsx:213 | an arrival scores between 20 and 100 points plus 10 per level |
| MazeGame.LevelScoreMonotone | src/components/games/Maze.tsx:213 | fewer moves never score less, and from 40 moves on the score is the floor |
| MazeGame.MovePlayer | src/components/games/Maze.tsx:188-235 | ignored before the first maze and after the game ends; a move keeps the maze and difficulty, either stays or steps to the adjacent cell with one more move, never lowers the score, and raises the level by at most one |
| MazeGame.MoveFollowsWalls | src/components/games/Maze.tsx:188-207 | a move changes the position exactly when the wall on that side is down, by one step; a blocked move changes nothing; only finishing the last level touches the store |
| MazeGame.EdgeGuardRedundant | src/components/games/Maze.tsx:204 | with the outer wall intact the grid-edge guard never fires |
| MazeGame.StepIsMove | src/components/games/Maze.tsx:238-250 | every step of a walk through open walls is some key press |
| MazeGame.ArrivalScores | src/components/games/Maze.tsx:211-234 | reaching the exit adds the level score; level 5 ends the game and records the total, lower levels go up a level |
| MazeGame.MoveKeepsLevel | src/components/games/Maze.tsx:188-235 | a move never lowers the score, raises the level by at most one to at most 5, and otherwise keeps the state consistent |
| MazeGame.OverIsFinal | src/components/games/Maze.tsx:189 | once the game is over no move changes anything |
| MazeGame.Snapshot | src/components/games/Maze.tsx:67 | copying the generated array gives exactly the grid it holds |
| MazeGame.InitMaze | src/components/games/Maze.tsx:88-94 | a new well-carved maze of the level's size, the player at (0, 0), moves reset, all else unchanged |
| MazeGame.Press | src/components/games/Maze.tsx:238-250 | a key press is the move, followed on a level-up by a new maze of the new size |
| MazeGame.Restart | src/components/games/Maze.tsx:252-257 | score 0, level 1, game running, a new well-carved level-1 maze with the player at the start |
| MazeGame.Start | src/components/games/Maze.tsx:74-79 | before the first maze: level 1, score 0, game running |
| MergeFruit.TierTable | src/components/games/MergeFruit.tsx:13-24 | ten tiers, radius 15 + 5 per tier, and each score from the third tier on is the sum of the two before |
| MergeFruit.Label | src/components/games/MergeFruit.tsx:92 | a label is `fruit-` followed by a non-empty decimal numeral |
| MergeFruit.ParseIndex | src/components/games/MergeFruit.tsx:73-74 | a name yields a tier only when it starts with `fruit-` followed by a digit |
| MergeFruit.LabelRoundTrip | src/components/games/MergeFruit.tsx:73-74 | parsing the label `fruit-<n>` gives back n |
| MergeFruit.LabelInjective | src/components/games/MergeFruit.tsx:73 | equal labels mean equal tiers, so the label check compares tiers |
| MergeFruit.Segment | src/components/games/MergeFruit.tsx:74 | `split('-')` takes the longest dash-free prefix |
| MergeFruit.LeadingDigits | src/components/games/MergeFruit.tsx:74 | `parseInt` reads the longest digit prefix |
| MergeFruit.Merge | src/components/games/MergeFruit.tsx:73-98 | as written, a pair changes the arena exactly when both labels are the same fruit below the watermelon; it then adds a body of the next tier with a fresh identity and raises the score |
| MergeFruit.CollideAsWritten | src/components/games/MergeFruit.tsx:67-112 | as written, an event never lowers the score and hands out at most one identity per pair |
| MergeFruit.MergeKeepsOk | src/components/games/MergeFruit.tsx:84-95 | as written, one pair keeps the world well formed even when its bodies are already gone |
| MergeFruit.CollideAsWrittenKeepsOk | src/components/games/MergeFruit.tsx:67-112 | as written, a whole event keeps the world well formed |
| MergeFruit.MergeGuarded | src/components/games/MergeFruit.tsx:73-98 | corrected: a pair changes the arena exactly when its bodies are distinct, both still in the world, and the same fruit below the watermelon, and then it merges as written |
| MergeFruit.Collide | src/components/games/MergeFruit.tsx:67-112 | corrected: a guarded event never lowers the score and hands out at most one identity per pair |
| MergeFruit.MergeGuardedKeeps | src/components/games/MergeFruit.tsx:73-98 | a guarded pair of two present equal fruits below the watermelon becomes one fruit of the next tier and wins that tier's score; any other pair changes nothing; the world stays well formed and keeps its mass |
| MergeFruit.MergePresent | src/components/games/MergeFruit.tsx:76-98 | merging two present fruits of one tier removes both, adds one of the next tier, keeps the mass, and adds the new tier's score |
| MergeFruit.CollideKeepsMass | src/components/games/MergeFruit.tsx:67-112 | a whole guarded collision event keeps the world well formed and its mass, and never lowers the score |
| MergeFruit.ThreeCherries | src/components/games/MergeFruit.tsx:67-112 | as written, three cherries in one event become two strawberries; guarded, a strawberry and a cherry |
| MergeFruit.MaxIndex | src/components/games/MergeFruit.tsx:236 | the next fruit is drawn from the first 2, 3 or 4 tiers |
| MergeFruit.Clamp | src/components/games/MergeFruit.tsx:310 | the clamped position is in range, and equals the pointer when the pointer is in range |
| MergeFruit.GameOverOutcome | src/components/games/MergeFruit.tsx:198-207 | the game is over afterwards; an already-over game leaves the store alone, otherwise the score is recorded |
| MergeFruit.GameOverIdempotent | src/components/games/MergeFruit.tsx:198-199 | a second game over changes nothing |
| MergeFruit.StaleGameOver | src/components/games/MergeFruit.tsx:186-196 | as written, the memoised render calls the first render's handler: it records 0 whatever the score, and records again on every overflow |
| MergeFruit.FruitGame.constructor | src/components/games/MergeFruit.tsx:35-45 | the state before the first game: empty world, score 0, tier 0 next, the drop at the middle, dropping allowed, not playing |
| MergeFruit.FruitGame.StartGame | src/components/games/MergeFruit.tsx:249-261 | an empty world, score 0, playing, the first fruit from the first three tiers, dropping allowed |
| MergeFruit.FruitGame.DropFruit | src/components/games/MergeFruit.tsx:220-246 | ignored before the start or during the cooldown; otherwise the next fruit joins the world (its mass added), a new next fruit is drawn, and the cooldown begins |
| MergeFruit.FruitGame.CooldownElapsed | src/components/games/MergeFruit.tsx:243-245 | the timer only re-enables dropping |
| MergeFruit.FruitGame.HandleMove | src/components/games/MergeFruit.tsx:304-313 | without a canvas, before the game starts, nothing changes; otherwise the drop position is the pointer clamped to the next fruit's walls: the pointer itself when in range, the nearer wall otherwise |
| MergeFruit.FruitGame.HandleCollisionsAsWritten | src/components/games/MergeFruit.tsx:67-112 | as written: the world becomes the unguarded collision result, stays well formed, and the score never drops |
| MergeFruit.FruitGame.HandleCollisions | src/components/games/MergeFruit.tsx:67-112 | corrected: the world becomes the guarded collision result, keeping the mass and never lowering the score |
| MergeFruit.FruitGame.HandleGameOver | src/components/games/MergeFruit.tsx:198-207 | the game ends; the first call records the current score, a later call leaves the store alone |

## Left out

- Rendering, sound, confetti, navigation and the back-button listener are outside the game logic. `GameShell` and its `onGameOverClose` are not part of this model either.
- Merge fruit's physics engine is left out: gravity, positions, velocities, radii as geometry, and the timing of collisions. Floating-point arithmetic goes with it: the pointer's offset and the drop position are integers here, where the source uses floating-point pixels. The world is the sequence of fruit bodies, and which pairs collide is a parameter of the collision handlers.
- MergeFruit.FruitGame.HandleCollisions: runs the corrected rule of `Collide`, which merges a pair only while both its bodies are in the world, so it keeps the mass. The source's handler as written is modelled by `HandleCollisionsAsWritten` over `CollideAsWritten`, which keeps the world well formed but not its mass (see Findings).
- The render loop's overflow test (a fruit above the drop line after one second) is left out, being physics. The overflow is modelled by the call of `HandleGameOver` itself, which reads the `gameOver` field as the handler does. The loop's own stale `gameOver` check is left out too.
- Randomness: every draw and shuffle is a parameter (see the conventions above). Timestamps (`new Date().toISOString()`) are a `now` string parameter.
- Local-storage persistence of the store is left out.
- `parseInt` is modelled only on the labels the game itself writes: a digit prefix after `fruit-`. Leading whitespace, signs and other radices cannot occur in those labels.
- Merge fruit's `label` field is called `name` in `Body`, and each body gets an explicit identity `id` to stand for object identity.
- The drop position is clamped only when the pointer moves, as in the source. It is not re-clamped when a drop changes the next fruit, so `HandleMove`'s bound holds for the fruit that was next at the time of the move.
- MergeFruit.FruitGame.StartGame: the previous engine's bodies are dropped (the world is emptied) rather than the engine being cleared and recreated.
- Maze: each neighbour the generator collects is modelled by its position rather than by the cell object. The cell object is read back from the array.
- Maze: the window between a level-up and the effect that regenerates the maze is not modelled. `MazeGame.Press` runs the move and the regeneration as one step.
- Maze: `handleRestart` first calls `initMaze` with the old level's size, and the level effect then replaces that maze. `MazeGame.Restart` models only the final state, a level-1 maze.
- The quiz continuations are not cancelled by a restart (faithful to the source). The interleavings of a stale continuation with a new session are not analysed beyond `Restart` keeping the queue.
- The mount effect's first `nextProblem` is the `first` argument of `MathTest.Start`. Settings changes that regenerate a problem are not modelled.
- AnswerOptions.BuildOptions: the random stream is finite, so the loop can stop before four options exist. The source's loop instead runs until it has four. `AnswerOptions.FillCompletes` states when the finite stream is enough.
- MathTest.Operands: the source's unreachable `default` case of the operator switch is left out, because the operator type has only four values.

## Findings

| source | as written | input that shows it | evidently intended | confidence | as-written member | corrected member |
|---|---|---|---|---|---|---|
| src/components/games/MathTest.tsx:178 | the game-over message reports `Math.floor(score / 10)` correct answers, but a correct answer after a streak of three is worth 20 | ten correct answers: score 170, message "17 of 10 correct" | report the number of correct answers | not executed | MathTest.ShownCorrectOvercounts | MathTest.CorrectCountBounded |
| src/components/games/MergeFruit.tsx:67-112 | every pair of one `collisionStart` event is merged, even when an earlier pair of the same event already removed one of its bodies | cherries c0, c1, c2 with pairs (c0, c1) and (c0, c2) in one event: three cherries become two strawberries | merge a pair only while both its bodies are still in the world | not executed | MergeFruit.ThreeCherries | MergeFruit.CollideKeepsMass |
| src/components/games/MergeFruit.tsx:186-196 | `render` is memoised with no dependencies, so its timer calls the `handleGameOver` of the first render, which sees score 0 and a running game | a game that overflows with score 50: the result 0 is recorded, and a second overflow records another 0 | end the game once and record the current score | not executed | MergeFruit.StaleGameOver | MergeFruit.FruitGame.HandleGameOver |
| src/components/games/Missing.tsx:68 | the '-' branch builds num1 + num2 = result but shows the sign '-' between num1 and num2 | result draw 3 and first-operand draw 1: the problem shows "2 - 3 = 5" | show the subtraction result - num1 = num2 | not executed | Missing.MinusLabelMisstates | Missing.GenerateProblemCorrected |
