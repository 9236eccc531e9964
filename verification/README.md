# Minesweeper: verified models

This project models three parts of the Minesweeper repository in Dafny and proves what they are for.

**The exact mine-probability engine** (`src/analyze.c`, with the recursive reference of
`archive/minesweeper_bot/ms_solver.py`). `Constraints` builds the constraints of the revealed numbers,
`UnionFind` and `Components` split the frontier, `ComponentSolver` enumerates a component with an explicit stack
(`Effort` counts its nodes), `Classes` and `Compaction` say which components there are and which remain,
`Convolution` and `Weights` combine the components, and `Analyze.ScenarioAnalyze` puts everything together.
The reference is one definition: `Placements.Worlds`, the assignments of the hidden cells that satisfy every
constraint and have the given number of mines. The main theorem is that every reported probability equals
`Posterior.Chance`, a quotient of two counts of such assignments. `Truth` relates that to the real board.

**The board engine** (`linux/ms_core.c`, which shares its code with `src/minesweeper.c`, and
`archive/server/sim_engine.py`). `Boards` and `Rules` say what each action does to a board as a value; the flood is
defined by reachability, not by recursion. `GameEngine.Game` is the C engine on arrays changed in place, with the
two-button pointer; `SimEngine.SimBoard` is the simulator. Both are proved against the same rules. `Play` proves the
invariant of whole runs, `Endings` when and how a game is won or lost, `Randomness` what the random numbers decide,
`Parity` that both engines agree on every guarded script, `Predictor` that the analyzer's
prediction equals the move.

**Protocol and arithmetic pieces**: the admission gates (`Gate`), the telemetry queue and send buffer
(`Telemetry`), the custom-seed generator (`CustomSeed`), streaming SHA-256 and HMAC (`Sha256`), and requested games
on a shared stream (`Requests`).

`dafny verify dfyconfig.toml` checks everything.

## What the proofs found

- The analyzer weighs with the full mine count, also when cells are flagged (src/analyze.c:611). The real placement
  is among the counted assignments exactly when no flag stands on a mine and none lies beside a number whose
  constraint is kept: `Truth.TruthCounted`, `Truth.FlaggedMineMissed`.
- The explicit-stack search counts every solution twice against its budget, the recursion of the Python solver once
  (`RecursiveSolver.NodesAndCalls`). With the same budget, and given the same cells in the same order, the first gives
  up on components that the second solves, for instance 26 cells in four constraints of at most eight:
  `HardCase.BudgetsPart`.
- After a component over the budget is dropped, later results are written to other components' cells
  (src/analyze.c:473-515, src/analyze.c:656-672), exactly when a dropped component precedes a solved one:
  `Compaction.LinedUp`, `HardCase.DropHappens`.
- The Linux client uses a zero board seed as it is; the Windows client and the simulators replace it
  (src/minesweeper.c:1695-1708, linux/ms_core.c:640-661). They start alike if and only if the seed is not zero:
  `Parity.SeedsAgree`.
- After a game has ended its pointer can be armed again, although ending it lets go (linux/ms_core.c:364-373,
  linux/ms_core.c:431-449): `Endings.EndLetsGo`, `Endings.ArmedAfterEnd`. The board is not affected.
- A click on a cell that was flagged before the game started is ignored by the interface and starts the game in the
  scripting interface and in the simulator: `Rules.ClicksAgree`, `Rules.ClicksDiffer`.
- The threaded admission gate can leave a permit idle while the next ticket sleeps, if and only if it has more than
  one permit: `Gate.StallIff`. The event-loop gate cannot.
- A drained telemetry batch of exactly 16383 bytes does not fit even an empty send buffer and is dropped whole:
  `Telemetry.IdleLoss`, `Telemetry.IdleLossHappens`.
- A client can return a broadcast game in place of its own. It returns exactly the games that were played if and only
  if each broadcast outcome that arrives for its pending game equals the outcome that its reply brings next:
  `Requests.RequestSurvives`. Boards, count and loss report are right in any case.

## Model

| member | source | states |
|---|---|---|
| SearchSpec.Pruned | src/analyze.c:201-215 | when a constraint's counters show it can no longer be met, no assignment that extends the current path satisfies it |
| SearchSpec.SeenLeaf | src/analyze.c:176-188 | a leaf counts exactly one solution, and one that was not counted before |
| SearchSpec.SeenAll | src/analyze.c:171-243 | when the stack is empty, the counted assignments are all the solutions, by total and by total with a given cell a mine |
| Search.MemberLists | src/analyze.c:124-135 | each cell's list names exactly the constraints that contain it, once each |
| Search.OrderCells | src/analyze.c:137-147 | the exchange loop yields a permutation sorted by falling membership count, ties by index |
| Search.Feasible | src/analyze.c:201-215 | accepts a value exactly when every constraint of the cell can still be met; otherwise names one that cannot |
| Search.Adjust | src/analyze.c:216-221 | changes the two counters of exactly the cell's constraints, by the given amounts, and no others (undo is the same call with opposite amounts) |
| Search.CountLeaf | src/analyze.c:176-188 | tables that hold the counts of a set of solutions hold, afterwards, the counts of that set plus the new one |
| ComponentSolver.ApplyKeeps | src/analyze.c:216-229 | applying a feasible value and descending keeps the invariant: counters, assignment and counted solutions match the stack |
| ComponentSolver.SkipKeeps | src/analyze.c:211-214 | skipping an infeasible value loses no solution |
| ComponentSolver.UndoKeeps | src/analyze.c:230-240 | undoing restores every counter and the assignment of the path without the top value |
| ComponentSolver.LeafKeeps | src/analyze.c:176-188 | counting a leaf keeps tables equal to the counts of the solutions before the search position |
| ComponentSolver.PopKeeps | src/analyze.c:194-200 | finishing a frame moves the position without losing or repeating a solution |
| ComponentSolver.CompSolve | src/analyze.c:93-262 | S[t] is the number of solutions of the component with t mines and T[li][t] of those with a mine at cell li; the loop ends, and it succeeds if and only if the nodes it takes are within the budget |
| Search.OrderUnique | src/analyze.c:137-147 | there is only one such order, so the order in which the cells are assigned, and with it the cost of the search, is a function of the component |
| Effort.NodesAre | src/analyze.c:166-243 | the nodes a search takes: the partial placements of one, two, ... cells in search order that leave every constraint satisfiable on its own, and once more the solutions |
| ComponentSolver.CostBound | src/analyze.c:166-170 | the nodes of a component of m cells are at most 3 * 2^m - 2, as many as without pruning |
| Effort.NineteenFit | src/analyze.c:166-170 | every component of m cells fits the budget by that bound if and only if m <= 19 |
| RecursiveSolver.NodesAndCalls | archive/minesweeper_bot/ms_solver.py:240-268 | the nodes of the explicit stack are the calls of the recursion, less the first one, plus the solutions |
| HardCase.BudgetsPart | src/analyze.c:166-243 | so they can part at the budget: a component of 26 linked cells, in four constraints of at most eight cells, takes 1641856 calls and 2070605 nodes |
| RecursiveSolver.SolveComponent | archive/minesweeper_bot/ms_solver.py:194-268 | the recursive reference yields the same numbers (absent keys are zero), and succeeds if and only if the calls it takes are within the budget |
| Truth.SolversAgree | archive/minesweeper_bot/ms_solver.py:240-268 | both solvers' tables are equal entry by entry, whatever orders they assign cells in |
| Truth.TablesBalance | src/analyze.c:182-185 | for every total t, the T entries of all cells add up to t times S[t] |
| UnionFind.Forest.Find | src/analyze.c:64-70 | returns the root of its argument; path halving changes no root and the walk ends |
| UnionFind.Forest.Union | src/analyze.c:72-76 | merges exactly the two classes of its arguments |
| UnionFind.UniteAll | src/analyze.c:405-408 | after all unions two cells share a root if and only if a chain of constraints links them |
| Components.CollectFrontier | src/analyze.c:409-421 | lists each cell of some constraint exactly once, in order of first appearance |
| Components.NumberRoots | src/analyze.c:434-447 | numbers the roots that occur, each once and in order of first appearance, and maps every frontier cell to the number of its root |
| Components.SortByComponent | src/analyze.c:448-466 | groups the frontier: each range of the result holds exactly the cells of one component |
| Components.SelectCons | src/analyze.c:480-499 | picks exactly the constraints whose first cell has the component's root |
| Components.SplitCorrect | src/analyze.c:423-499 | the pieces partition the frontier, every constraint lies in exactly one piece, and cells share a piece if and only if constraints link them |
| Classes.PieceIsPart | src/analyze.c:434-499 | piece i, with the order of its cells and constraints, is component i of a description without union-find: the class of the i-th cell of the frontier that no earlier one is linked to, last cell first |
| Classes.PartsDecompose | src/analyze.c:423-499 | those components decompose the constraints |
| Constraints.Visibility | src/analyze.c:357-366 | hidden means neither open nor flagged, and the count is the number of such cells |
| Constraints.OneConstraint | src/analyze.c:369-395 | a number gives a constraint if and only if it is shown on a safe, unflagged cell with a hidden neighbour and its hidden neighbours can hold what its flags leave; the constraint names exactly those neighbours and that rest |
| Constraints.BuildConstraints | src/analyze.c:368-395 | collects the kept constraints of all cells in cell order; an assignment to the hidden cells satisfies them if and only if, with the flags taken for mines, every such number is surrounded by as many mines as it shows |
| Constraints.Snapshot.KeptFits | src/analyze.c:368-395 | that is so on every snapshot: no number is forgotten and none is misread |
| Convolution.ConvInto | src/analyze.c:271-279 | the array loop writes the mathematical convolution and leaves the rest of the buffer alone |
| Convolution.ConvAssoc | src/analyze.c:562-588 | convolution is associative |
| Convolution.ConvComm | src/analyze.c:271-279 | convolution is commutative |
| Convolution.LeaveOneOut | src/analyze.c:650-657 | prefix times suffix is the convolution of all other components, and with the component put back the overall distribution |
| Convolution.ReplaceOne | src/analyze.c:650-672 | convolving the leave-one-out product with another distribution is the overall product with that component replaced |
| Binomial.ChooseFact | src/analyze.c:79-83 | the binomial used for the weights is n! / (k! (n-k)!) |
| Binomial.Absorb | src/analyze.c:641-646 | k C(n,k) = n C(n-1,k-1) |
| Binomial.FreeCount | src/analyze.c:604-626 | n unconstrained cells have C(n,k) assignments with k mines |
| Binomial.FreeMineCount | src/analyze.c:641-646 | C(n-1,k-1) of those have a mine at a given cell |
| Binomial.PolySplit | src/analyze.c:562-602 | solution counts of independent groups of cells convolve |
| Placements.Split | src/analyze.c:562-602 | the number of solutions of the union with k mines is the sum of products of the parts' numbers |
| Weights.Normalise | src/analyze.c:501-506 | each count divided by the component's total, or zero when there is no solution |
| Weights.PrefixProducts | src/analyze.c:562-573 | every prefix entry is the convolution of the distributions before it |
| Weights.SuffixProducts | src/analyze.c:574-587 | every suffix entry is the convolution of the distributions from it on |
| Weights.FreeWeights | src/analyze.c:604-626 | weights are binomials of the free cells over the largest one on the achievable totals, or all one when none is possible |
| Weights.Normaliser | src/analyze.c:628-633 | the two accumulated sums are the weighted total and the weighted expectation of the frontier mines |
| Weights.CellNumerator | src/analyze.c:658-672 | the nested loops, with their skips, compute the full double sum |
| Posterior.PrefixPoly | src/analyze.c:562-602 | the running product of the component distributions is, up to a positive constant, the solution counts of all those components together |
| Posterior.WeighPoly | src/analyze.c:604-633 | weighting frontier counts by binomials counts all assignments of frontier and free cells with exactly the given number of mines |
| Posterior.NumeratorIsConv | src/analyze.c:658-672 | the double loop over own and other mine counts is the weighted sum of the convolution |
| Posterior.CellExact | src/analyze.c:650-672 | numerator over normaliser is the fraction of consistent assignments with a mine at the cell |
| FreeCells.FreeExact | src/analyze.c:640-647 | (mines - E) / n_free is that fraction for every free cell |
| FreeCells.UniformExact | src/analyze.c:679-690 | with no constraint mines / n_hidden is that fraction |
| FreeCells.ChanceRange | src/analyze.c:718-723 | a chance lies in [0,1], is 0 (1) exactly when the cell is a mine in no (every) assignment, so the clamps never act |
| FreeCells.MassConserved | src/analyze.c:628-674 | exact chances over all hidden cells add up to the number of mines |
| Frontier.FallbackIff | src/analyze.c:615-639 | the fallback weights occur exactly on boards that no assignment satisfies |
| Frontier.FrontierCellExact | src/analyze.c:650-672 | every frontier cell gets its true posterior probability from the values the loops compute |
| Frontier.FreeCellExact | src/analyze.c:640-647 | every free cell gets its true posterior probability |
| Analyze.ScenarioAnalyze | src/analyze.c:323-740 | exactly the components whose nodes exceed the budget are dropped; whenever no dropped one precedes a solved one, each hidden cell's reported probability is its true posterior under the remaining constraints, so under all constraints when every component fits; a fallback is taken only if no assignment fits the remaining constraints (what the constraints say: Constraints.Snapshot.KeptFits, Truth.CountsExplanations) |
| ComponentSolver.CostlyIsLarge | src/analyze.c:166-170 | a component over the budget has at least twenty cells |
| Compaction.RemainingFrontier | src/analyze.c:507-513 | the frontier that remains is the old one without the cells of the dropped components, which become free cells |
| Compaction.PickedDecompose | src/analyze.c:473-515 | the solved components decompose the remaining constraints |
| Compaction.LinedUp | src/analyze.c:656-672 | with the offsets of the sorted cells, every result is written to the cells of its own component if and only if no dropped component precedes a solved one |
| HardCase.DropHappens | src/analyze.c:473-515 | it can fail: of two components, in constraints of at most eight cells, the first is over the budget and the second is not, and then the second result is written to other cells |
| Truth.ReportBalances | src/analyze.c:697-723 | the reported probabilities lie in [0,1] and add up to exactly the number of mines |
| Truth.TruthSatisfies | src/analyze.c:368-395 | the real placement satisfies every kept constraint if and only if no wrong flag lies beside a number whose constraint is kept |
| Truth.TruthCounted | src/analyze.c:611 | the real placement is among the counted assignments if and only if no flag stands on a mine (the mine total is not reduced by flags) and none lies beside a number whose constraint is kept |
| Truth.FlaggedMineMissed | src/analyze.c:611 | it can fail: after any first click with a mine on the board, flagging a mine leaves a running board whose real placement is not counted |
| Truth.RightFlagsCounted | src/analyze.c:611 | with every flag on a mine: if and only if no cell is flagged |
| Truth.NoFlagsConsistent | src/analyze.c:634-639 | on a running board without flags some assignment is consistent, so no fallback is taken |
| Truth.CountsExplanations | src/analyze.c:368-395 | on a running board without flags the counted assignments are exactly the mine placements that explain everything visible: the right number of mines, none on an open cell, and every open cell shows how many lie around it |
| Truth.ReportFair | src/analyze.c:640-674 | so there, when every component fits, a closed cell is reported with the share of those placements that mine it, and the real placement is one of them |
| Deduce.DeduceAll | archive/minesweeper_bot/ms_solver.py:117-157 | a cell is reported safe (a mine) if and only if one constraint needs none (all) of its cells there, or one lies inside another whose need is the same (as much more as it has more cells); every satisfying assignment leaves the safe cells empty and fills the mines |
| Deduce.DeducedChance | archive/minesweeper_bot/ms_solver.py:117-157 | on a consistent board a deduced safe (mine) cell has chance exactly 0 (1), and no cell is deduced both |
| Truth.DeducedReported | src/analyze.c:650-674 | the probability pass reports exactly 0 (1) for a cell deduced safe (a mine) |
| Grid.Dim.AroundIs | linux/ms_core.c:121-124 | the scanned square of a cell is exactly the cells at most one row and one column away, on the board |
| Grid.Dim.AroundSymmetric | linux/ms_core.c:155-168 | lying in each other's square is mutual |
| Placement.NeverStuck | src/minesweeper.c:193-210 | any number of draws reaches the stuck state exactly from seed zero |
| Placement.PoolSize | linux/ms_core.c:175-187 | the pool has all cells but those of the clicked square, or on a tiny board all but the clicked cell |
| Placement.DrawFacts | linux/ms_core.c:188-193 | for every stream the shrinking draw picks min(need, pool) different pool cells with one random number each |
| Placement.WithoutEntry | linux/ms_core.c:189-190 | a draw moves the last entry of the pool to the drawn place and no other |
| Placement.PlacesAll | linux/ms_core.c:170-196 | whenever a cell can stay free, exactly the asked number of mines is placed with that many draws, off the clicked cell, and off its whole square if enough other cells exist |
| Randomness.OneToOne | linux/ms_core.c:126-133 | the generator is one-to-one on its states: every state comes from exactly one |
| Randomness.WordOnto | linux/ms_core.c:188 | every number below 2^64 is the value of a state |
| Randomness.WordUnique | linux/ms_core.c:188 | and of one state only |
| Randomness.PickIsRemainder | linux/ms_core.c:188 | the picked index is the remainder of the random number by the pool's size |
| Randomness.PoolInOrder | linux/ms_core.c:175-187 | the pool lists its cells in board order |
| Randomness.PoolIs | linux/ms_core.c:175-187 | the pool holds the cells off the clicked square or, when too few cells lie off it, all but the clicked one |
| Randomness.FirstDrawn | linux/ms_core.c:187-193 | the first number mines the pool's cell at its remainder, and later draws leave that mine alone |
| Randomness.EveryCellDrawn | linux/ms_core.c:187-193 | every cell of a pool of at most 2^64 cells is drawn first from some state |
| Randomness.AnyCellMayBeMined | linux/ms_core.c:170-196 | after a first click some seed mines a cell if and only if it lies off the clicked square or, when too few cells lie off it, is not the clicked cell |
| Randomness.SeedOneMines | linux/ms_core.c:126-196 | worked out: seed 1, 10 mines on 8x8, a first click in the corner mine cell 25 (index 21 of a pool of 60) |
| Boards.RegionSafe | linux/ms_core.c:204-219 | everything reachable from a safe closed cell is closed, unflagged and safe |
| Flood.WinTest | linux/ms_core.c:217-218 | the open count equals cells minus mines exactly when every safe cell is open |
| Flood.RevealPlaying | linux/ms_core.c:204-219 | every reveal keeps counters, numbers and verdict consistent, and does nothing after the end |
| Flood.ExtendsRegion | linux/ms_core.c:204-219 | a board closed under opening the neighbours of zeros, with only reachable cells added, has exactly the region open |
| Flood.OpensIsReveal | linux/ms_core.c:204-219 | no other board has the properties that the recursion establishes |
| GameEngine.Game.EndGameLose | linux/ms_core.c:221-230 | ends a game that is not over as lost: every mine is shown, no other cell is opened, and pending presses are let go |
| GameEngine.Game.EndGameWin | linux/ms_core.c:232-245 | flags exactly the unflagged mines and counts them |
| GameEngine.Game.RevealCell | linux/ms_core.c:204-219 | recursion on shared arrays opens exactly the cells reachable through closed unflagged cells whose non-final members show 0, adds their number, never opens a mine, and wins iff all safe cells are open, even when the win falls deep in the recursion |
| GameEngine.Game.ComputeAdj | linux/ms_core.c:155-168 | every cell gets the number of mines in its square, centre included |
| GameEngine.Game.PlaceMines | linux/ms_core.c:170-196 | the array draw is the specified draw, followed by the numbers |
| GameEngine.Game.DoChord | linux/ms_core.c:255-271 | with as many flags around as the number says, the square is revealed position by position; otherwise nothing happens |
| GameEngine.Game.CycleMark | linux/ms_core.c:273-290 | none to flag to question mark (if enabled) to none, with the flag count following, and nothing after the end |
| GameEngine.Game.ClickAt | linux/ms_core.c:375-386 | board and pointer become what a click means: unchanged off the board, after the end and on open or flagged cells, otherwise mines drawn if need be and the region opened; ending the game lets go of the pointer |
| GameEngine.Game.ScriptClickAt | linux/ms_core.c:1076-1079 | as a click, but a flagged cell still starts the game |
| GameEngine.Game.MarkAt | linux/ms_core.c:388-394 | only a closed cell's mark and the flag count change, and only while the game runs |
| GameEngine.Game.ChordCell | linux/ms_core.c:396-406 | nothing unless the cell is an open number with as many flags around; then its whole square is revealed, and the game may end in the middle |
| GameEngine.Game.PointerDown | linux/ms_core.c:409-452 | left opens, right marks, the second button arms a chord or a press, the face only presses; nothing else changes |
| GameEngine.Game.PointerUp | linux/ms_core.c:454-490 | the first of two buttons completes the armed chord or press, the pointer is let go, and the face restarts a game that is not over |
| GameEngine.Game.PointerCancel | linux/ms_core.c:492-497 | lets go of everything and touches nothing else |
| GameEngine.Game.Reset | linux/ms_core.c:304-340 | a fresh board of the given size, count and seed, on new storage |
| Rules.SteadyMeans | linux/ms_core.c:204-289 | between actions: flags is the number of flags, opened the number of open safe cells, the verdict says what the cells say |
| Rules.FirstClickRunning | linux/ms_core.c:247-252 | the first click places exactly the mines with as many random numbers and misses them |
| Rules.FirstClickSafe | linux/ms_core.c:375-386 | an unflagged first click never loses and opens its whole unflagged in-bounds neighbourhood (given enough other cells) |
| Rules.MarksCycle | linux/ms_core.c:273-290 | marks go round in two or three steps, depending on the question-mark setting, and come back to the same board |
| Rules.MarkDoes | linux/ms_core.c:388-394 | marking moves the mark of a closed cell on by one, with the flag count, and does nothing anywhere else or after the end |
| Rules.BlankMeans | linux/ms_core.c:304-340 | in a new game nothing is open, marked, mined or counted |
| Rules.ClicksAgree | linux/ms_core.c:1076-1079 | interface click and script click agree if and only if the game has started or the cell is unflagged |
| Rules.ClicksDiffer | linux/ms_core.c:1076-1079 | they differ on any flagged cell of a new game |
| Endings.ClickEnds | linux/ms_core.c:375-386 | a click on a running board loses if and only if its cell is closed, unflagged and a mine, and then every mine is shown and nothing else changes; on a safe, closed, unflagged cell it opens exactly what is reachable and wins if and only if every safe cell is then open, flagging the mines; anywhere else it does nothing |
| Endings.FirstNeverLoses | linux/ms_core.c:247-252 | the click that starts the game never loses it, flagged or not, through the interface or a script; on an unflagged cell it opens what is reachable |
| Endings.ChordEnds | linux/ms_core.c:255-271 | a chord on an open number with as many flags around loses if and only if its square holds a closed, unflagged mine, in whatever order its cells are revealed; a loss keeps the marks and shows every mine, and otherwise exactly what its cells reach is opened; with another number of flags it does nothing |
| Endings.EndLetsGo | linux/ms_core.c:221-245 | the action that ends a game leaves no pressed cell and no chord anchor |
| Endings.ArmedAfterEnd | linux/ms_core.c:364-452 | after the end the pointer is armed again by exactly the presses on an open number and, with the other button down, on a closed unflagged cell |
| Play.StepGood | linux/ms_core.c:364-498 | every action keeps the invariant, and a finished board changes only by a new game |
| Play.RunGood | linux/ms_core.c:364-498 | so does every sequence of actions |
| Play.WholeRun | linux/ms_core.c:204-289 | after any run from a fresh game: counters exact, no mine open and some safe cell closed while playing, won iff all safe cells are open (then every mine is flagged), lost shows every mine, a pending chord anchor is a revealed number |
| Play.PressMeans | linux/ms_core.c:417-449 | a single-button press does exactly what the click and mark commands do |
| Play.ChordGesture | linux/ms_core.c:454-476 | both buttons down over a revealed number, in either order, then one up, is the chord command there |
| Play.PressGesture | linux/ms_core.c:471-479 | with one button down, the other one over a closed, unflagged cell only presses it; one up is then the click command there |
| Play.FaceGesture | linux/ms_core.c:481-490 | pressing and releasing the face button restarts a game that is not over with its preset, and otherwise leaves the board alone |
| Play.PresetOf | linux/ms_core.c:31-35 | 8x8 with 10 mines, 16x16 with 40, 16x30 with 99: every preset leaves nine cells to spare |
| SimRules.AroundTally | archive/server/sim_engine.py:189-200 | leaving out the centre changes a count by exactly the centre |
| SimEngine.SimBoard.Reset | archive/server/sim_engine.py:92-109 | a fresh board whose seed zero is replaced by the fixed constant |
| SimEngine.SimBoard.ComputeAdj | archive/server/sim_engine.py:189-200 | every cell gets the number of mines around it, centre left out |
| SimEngine.SimBoard.PlaceMines | archive/server/sim_engine.py:202-222 | the same draw with the simulator's numbers |
| SimEngine.SimBoard.RevealCell | archive/server/sim_engine.py:248-268 | the recursion that skips the centre has the same effect as the one that does not |
| SimEngine.SimBoard.Click | archive/server/sim_engine.py:270-275 | the same effect on the board as the C script click, from the simulator's own numbers |
| SimEngine.SimBoard.Flag | archive/server/sim_engine.py:277-291 | the mark cycle and flag count, on any cell of the board |
| SimEngine.SimBoard.Chord | archive/server/sim_engine.py:293-315 | compares flags without the centre and reveals the square without it |
| Parity.RegionAgrees | archive/server/sim_engine.py:248-268 | both engines reach the same cells although their numbers differ under mines |
| Parity.SeedsAgree | archive/server/sim_engine.py:22-32 | new games agree with the zero-seed replacement always, and without it if and only if the seed is not zero |
| Parity.AgreeClick | src/minesweeper.c:337-353 | a click keeps the two engines in agreement |
| Parity.AgreeChordAt | src/minesweeper.c:391-407 | a chord on a revealed number keeps them in agreement |
| Parity.StepsAgree | src/minesweeper.c:193-271 | one guarded command keeps mines, open cells, marks, counts, verdict and generator equal, and numbers equal on safe cells |
| Parity.SimRunSteady | archive/server/sim_engine.py:182-315 | the simulator by itself keeps the invariant of the game for every guarded script |
| Parity.ScriptsAgree | archive/server/sim_engine.py:182-315 | so does every guarded script, from any pair of agreeing boards |
| Predictor.FloodRoom | src/analyze.c:284-312 | the stack never holds a cell twice, so every push has room |
| Predictor.FloodReveals | src/analyze.c:284-312 | returns exactly the number of cells reachable from the clicked one |
| Predictor.PredictionHolds | linux/ms_core.c:204-219 | that number is exactly the increase of the open count that the real move causes, and names the cells it opens |
| Gate.AdmissionGate.Acquire | archive/ms/sim-server/hub.js:194-205 | granted if and only if a permit is free; otherwise the ticket joins the end of the line |
| Gate.AdmissionGate.Release | archive/ms/sim-server/hub.js:207-219 | admits exactly the longest-waiting ticket, or frees a permit when nobody waits; held plus free stays the limit |
| Gate.WaiterAdmitted | archive/ms/sim-server/hub.js:185-220 | the ticket at position p is admitted by exactly the (p+1)-th release, whatever arrives in between |
| Gate.ThreadsFair | archive/server/ms_server.py:583-602 | for every schedule: held plus free is the limit, the waiting tickets are those not yet admitted, admissions are in ticket order |
| Gate.StallIff | archive/server/ms_server.py:590-602 | a free permit can be left unused while the next ticket sleeps if and only if the limit exceeds one |
| Telemetry.BatchLines | linux/ms_net.c:447-458 | counting line breaks in a batch counts its lines |
| Telemetry.DrainGoesOn | linux/ms_net.c:222-238 | the drain takes lines exactly while they fit |
| Telemetry.Session.QueuePush | linux/ms_net.c:155-172 | a full queue loses its oldest line, which is counted |
| Telemetry.Session.QueueDrain | linux/ms_net.c:222-238 | takes the longest fitting run of lines from the front, in order |
| Telemetry.Session.SendbufAppend | linux/ms_net.c:415-427 | appends text and line break, or counts the lines as dropped exactly when they do not fit |
| Telemetry.Session.FlushSendbuf | linux/ms_net.c:429-445 | hands over exactly the bytes that the socket takes until it refuses, without skipping or repeating any; lines count as sent if and only if that empties the buffer, and the connection is given up if and only if the socket failed or closed |
| Telemetry.Session.FlushPending | linux/ms_net.c:447-458 | moves the drained lines, or loses the whole batch exactly when it does not fit, and then flushes |
| Telemetry.Session.Teardown | linux/ms_net.c:1017-1029 | what the buffer holds at a disconnect counts as dropped |
| Telemetry.Session.Run | linux/ms_net.c:155-458 | every run of pushes, control lines, flushes and disconnects keeps the accounts |
| Telemetry.Session.Accounts | linux/ms_net.c:155-458 | queued so far = sent + dropped + waiting + in the buffer; the bytes on the wire are a prefix of whole lines in queueing order, none twice |
| Telemetry.IdleLoss | linux/ms_net.c:447-458 | a drained batch overflows an idle send buffer if and only if it has exactly 16383 bytes |
| Telemetry.IdleLossHappens | linux/ms_net.c:447-458 | lines that make up such a batch exist |
| Telemetry.FlushSends | linux/ms_net.c:447-458 | through an idle buffer and a willing socket a waiting queue sends a batch of at least one line, in order, after what the peer already has, unless the batch has exactly 16383 bytes, and then counts it as dropped |
| CustomSeed.Numeral | linux/ms_core.c:573-578 | the digits of the text, at most the first 159, in order |
| CustomSeed.MulDigits | linux/ms_core.c:546-556 | the digit loop computes the product modulo the digits written, with the rest in the carry |
| CustomSeed.StrMul | linux/ms_core.c:546-563 | in-place decimal multiplication is exact and leaves no leading zero |
| CustomSeed.CutDigits | linux/ms_core.c:592-605 | cutting off digits divides by a power of ten |
| CustomSeed.FewSteps | linux/ms_core.c:595-605 | at most eleven steps are taken; the cap of 32 is never reached |
| CustomSeed.SeedFits | linux/ms_core.c:590-612 | a generated seed fits 64 bits |
| CustomSeed.SeedUnique | linux/ms_core.c:592-612 | value, step count and truncation are determined by the numeral's value |
| CustomSeed.SeedStable | linux/ms_core.c:592-612 | generating again from the result takes no step and cuts nothing |
| CustomSeed.Generate | linux/ms_core.c:564-613 | for every text the seed is floor(v 2^(k(k+1)/2) / 10^e) with exactly 19 digits (zero for value zero), k the least sufficient step count |
| Sha256.ZeroCountLeast | linux/ms_sha256.c:86-94 | the zero bytes are the least number that leaves room for the length, as section 5.1.1 of FIPS 180-4 asks |
| Sha256.BigEndianValue | linux/ms_sha256.c:92-94 | the eight length bytes, read with the first one weighing most, are the number modulo 2^64 |
| Sha256.PaddedForm | linux/ms_sha256.c:84-95 | a padded message is the message, a byte 0x80, fewer than 64 zero bytes and its bit length, in whole blocks |
| Sha256.PaddingOneToOne | linux/ms_sha256.c:84-95 | different messages shorter than 2^61 bytes have different padded forms |
| Sha256.Context.Update | linux/ms_sha256.c:72-82 | absorbs the concatenation, however it is cut |
| Sha256.Context.Final | linux/ms_sha256.c:84-101 | the digest is the fold of the compression function over the padded message; the padding loop ends |
| Sha256.HashParts | linux/ms_sha256.c:72-108 | for every split of a message into updates the digest is that of the whole |
| Sha256.HmacSha256 | linux/ms_sha256.c:110-128 | H(opad || H(ipad || m)) with the key hashed or zero-filled to a block, as section 2 of RFC 2104 defines |
| Sha256.BlockKeyIs | linux/ms_sha256.c:114-121 | every key counts as 64 bytes: the key, or the digest of a longer one, and zero bytes after it |
| Sha256.SameKey | linux/ms_sha256.c:110-128 | two keys within a block count as the same if and only if they differ in zero bytes at the end |
| Sha256.LongKey | linux/ms_sha256.c:110-128 | a key longer than a block has the MACs of its digest |
| Sha256.PadsApart | linux/ms_sha256.c:110-128 | inner and outer key block differ in every byte, and either gives the key back |
| Requests.HandleRequest | archive/server/ms_server.py:844-938 | on a connection that dies after any number of lines: a client without credentials is refused, an ill-formed request gets nothing, any other gets the reply (three lines per game played, the loss report if asked for, the count) as far as the connection takes it |
| Requests.ReplySays | archive/server/ms_server.py:890-938 | the lines of a reply: a notice if it waits; for the i-th game three lines that all name the requested difficulty and the requested seed, or else the seed drawn for run i, with the game this seed plays in run i; an `until` request's first loss or that there was none; the number of games, which is the asked one unless an `until` request meets a loss, and that ends it |
| Requests.ClientRequest | archive/server/ms_analyze.py:89-137 | returns the games announced to this client and closed by a matching outcome, in order, with the loss report, or that it was refused or cut off |
| Requests.RequestSurvives | archive/server/ms_server.py:903-938 | for every interleaving with broadcasts the client returns as many games as `reqdone` says, of the boards that were played, in order, with the right loss report; they are exactly the games played if and only if every broadcast outcome that arrives for the pending game equals the one the reply brings next |
| Requests.AnswerAsRequested | archive/server/ms_analyze.py:98-131 | so the i-th game returned is of the requested difficulty and seed, or of the seed drawn for run i, and with harmless broadcasts is the one this seed plays in run i |
| Requests.BroadcastSteals | archive/server/ms_analyze.py:107-117 | otherwise some returned game is a broadcast one, different from the game that was played in its place |
| Requests.StolenMixHarm | archive/server/ms_analyze.py:107-117 | a broadcast between announcement and outcome is such a case if and only if its game differs |
| Requests.BroadcastsIgnored | archive/server/ms_analyze.py:98-131 | without a broadcast of a pending game the client reads, line by line, what any reply alone would give |
| Requests.CutReplyTimesOut | archive/server/ms_analyze.py:98-137 | a client whose reply is cut off anywhere returns nothing |

## Left out

- Floating-point rounding, `lgamma` and `exp`: probabilities are exact reals and weights exact binomials; dividing by the largest weight cancels.
- The 900-cell and 512-constraint capacities and every allocation failure: sizes are unbounded.
- Analyze.ScenarioAnalyze: when a dropped component precedes a solved one, the report has the values that the misplaced results give, and nothing is said of them.
- Analyze.ScenarioAnalyze: the fair guesses of inconsistent boards are one outcome without a value, and the sorted scenario list with its predicted openings is left out (the prediction itself is `Predictor.FloodReveals`).
- Weights.FreeWeights: a total that the distribution excludes gets the weight the source gives it, which is not zero; it is always multiplied by zero.
- Deduce.DeducedChance: the dictionary form of the probability pass in Python (archive/minesweeper_bot/ms_solver.py:284-369) is not modelled; `Truth.DeducedReported` is about its array form in C.
- Deduce.DeduceAll: constraints are lists without repetition and results are sets, in place of frozen sets; the filter on hidden cells is left out because kept constraints mention hidden cells only.
- RecursiveSolver.SolveComponent: the recursion state is an object with arrays in place of captured local lists.
- GameEngine.Game.RevealCell: the scan of the square is a method of its own, and so are the loops of mine counting, drawing and flag counting.
- GameEngine.Game.Reset: the seed is a parameter; slots, overrides and the clock that choose it, the timer, pause and metrics are left out.
- GameEngine.Game.PointerUp: restarting a custom board from the face button is excluded, since the source then reads past its preset table.
- SimEngine.SimBoard.Click: boards with fewer mines than cells, as the C engine's clamp (linux/ms_core.c:1042-1049) and every preset have; the simulator does not clamp.
- SimEngine.SimBoard.Chord: required to follow the first click; chording or marking without the guards of a script is left out.
- The JavaScript engine and solver (`archive/ms/core/sim-engine.js`, `archive/ms/core/solver.js`): third copies of the same rules.
- Gate.ThreadsFair: wake-ups happen only after a release; a condition variable that wakes on its own would only add looks.
- Telemetry.Session.QueuePush: lines contain no line break or terminator, as the producer formats them, and copying a line never fails.
- The HTTP telemetry session, authentication state and the receive side: the accounts are those of a raw-TCP session.
- CustomSeed.Generate: the hash of a text that is not a numeral is a parameter together with its decimal digits, and digits are numbers in place of characters.
- Sha256.Context.Final: the compression function, its initial value and the byte form of a hash value are parameters; the length field is the message length in bits modulo 2^64.
- Requests.HandleRequest: parsing, the cost estimate that makes a request heavy, the simulation and the database are parameters or left out.
- The per-client queues of `RequestWorkers` (archive/ms/sim-server/hub.js), the broadcast producer and the hub's client table.
- Move choice and its tie-breaking, drawing, dialogs, the terminal, sockets, files, the admin server and diagnostics.
