# Gomoku decision logic in Dafny

This project models the decision-making core of a Python Gomoku program: an
N × N board whose cells are empty, black or white, and the agents that choose
the next stone. Every model is proved against its contract. The project covers:

- **The line-pattern evaluator** (`calc`, `evaluate_line`, `evaluate_color`,
  `evaluation_state`, the ±20 % noise). It lives in `line_evaluation.dfy`.
- **The candidate-move generators.** These are the border-adjacency scan
  (`find_shared_border_cells`), the neighbour, offensive and defensive score
  grids, and the heap-based top-k selection behind `mixed_heuristic`. They
  live in `candidate_moves.dfy`.
- **The game object** (`src/Gomuko.py`). It holds the board, the player to
  move, the game-over flag, the winner and the statistics counters. It is
  modelled with `make_move`, `check_win`, `get_valid_moves`,
  `track_opportunities` and the "potential win spot" window scan in
  `gomoku.dfy`.
- **The agents:**
  - the depth-limited minimax agent (`minimax.dfy`);
  - the multi-heuristic best-first search agent (`multiastar.dfy`);
  - the Monte Carlo tree search agent with its node tree (`mcts.dfy`);
  - the Q-learning agent with its symmetry-reduced state key and its
    temporal-difference update (`qlearning.dfy`);
  - the random agent (`random_agent.dfy`).
- **The agent factory** (`factory.dfy`).

Shared vocabulary lives in `board.dfy`: cells, positions, directions,
placement, the row-major empty-cell list, rays, five-in-a-row windows and the
"five through a cell" test. `outcomes.dfy` holds `Option` and a `Result` whose
error side names the Python exception the source would raise.
`five_scan.dfy` holds the whole-board five-in-a-row scan, which the Q-learning
and best-first agents carry in identical copies.

Each source file keeps its own form:

- **Loops become methods with invariants, proved against a reference
  function.** For example, `evaluate_line` is `EvaluateLine` against the left
  fold `LineScore`, and `get_top_k_moves` is `GetTopKMoves` against the jittered
  order of the positive cells.
- **Objects whose fields the source updates in place become classes.** These
  are the game (`Game.Gomoku`), the MCTS tree (`Mcts.Tree`), the Q-learning
  agent and the best-first agent's heuristic index.
- **Pure code stays functions and lemmas.** This covers `calc`, the factory,
  the random agent and the board canonicalisation.

Boards are values (`seq<seq<Cell>>`), so the source's row copies and deep
copies are snapshots. The minimax agent's `_apply_move` and `_undo_move` write
into an `array2`.

Randomness is a parameter, in one of three forms:

- **Jitter oracles.** `random.uniform` jitter is a real per cell, or per
  evaluation, that is assumed to lie in [-0.2, 0.2].
- **Pick indices.** `random.choice` in the random and Q-learning agents is an
  index supplied by the caller.
- **Nondeterministic choice.** `random.sample` and the roll-out choices of the
  MCTS agent are `:|` inside methods, so every proved property holds for every
  draw.

UCB1 (`np.log`, `np.sqrt`) is an uninterpreted function argument.

## Behaviour the code fixes

Where a reader might expect otherwise, the model states what the code does at
the cited line:

- **Half-open four.** `calc` gives a half-open four 10000 × 0.25 × 0.5 = 1250
  for the acting colour (125 for the other). The `else` at
  src/Agents/AgentsUtils.py:339 belongs to `if sequence == 3`, so a four takes
  both the half-open and the side factor. `LineEvaluation.LineScoreFours` and
  `LineEvaluation.HalfOpenFour` state these values.
- **Neighbour density.** `num_of_neighbors` counts every occupied neighbour,
  whatever its colour (src/Agents/AgentsUtils.py:113).
- **Q-learning update timing.** `make_move` sets `last_state`/`last_action` and
  calls `update_q_table` at once on the same board
  (src/Agents/qlearningagent.py:44-46). The update therefore uses the current
  key as the successor state.
- **Q-learning opening move.** When exactly one stone is on the board, the code
  plays (4, 4) if it is free and the first empty cell otherwise
  (src/Agents/qlearningagent.py:35-36). On a board of size 4 or less, (4, 4)
  is out of range and the code raises `IndexError`.
- **Exploration.** `make_move` never explores: `epsilon` is forced to 0
  because `LEARNING_MODE` is false (src/Agents/qlearningagent.py:7, 16).
- **Zero-visit children in UCB1.** The code divides by the child's visits with
  no special case. The model proves that every child reached by selection has
  been visited (`Mcts.Tree.Visited`, kept by `Mcts.MctsAgent.RunSimulations`),
  so the division is never by zero.
- **No move.** Not every strategy returns a move:
  - The MCTS agent raises `ValueError` when the root has no child. It raises
    `IndexError` when a roll-out's opponent finds no candidate.
  - The best-first agent fails on `[][0]` or `None[0]`.

  The model returns these as `Raised` results.
- **Best-first successor cost.** `a_star_search` prices a successor with the
  heuristic chosen before the index advanced. It ignores the `step_cost` that
  `get_successors` computes with the advanced index.

## Model

| member | source | states |
|---|---|---|
| BoardModel.EmptyCellsSpec | src/Gomuko.py:84-86 | the empty-cell comprehension lists exactly the empty cells of the board, in strictly increasing row-major order (so without repetition) |
| BoardModel.NoEmptyCellsIffFull | src/Agents/randomagent.py:15-18 | the list of empty cells is empty exactly when every cell is occupied |
| BoardModel.WinThroughIffWindow | src/Gomuko.py:128-154 | the "placed cell plus up to four on each side reaches five" test holds exactly when some five-cell window in one of the four directions contains the cell and holds only that colour; it then implies a five anywhere on the board |
| BoardModel.CountAfterPlace | src/Gomuko.py:66-75 | writing a cell changes the count of a cell value by the removed and the added occurrence only |
| LineEvaluation.ProductsMatchTable | src/Agents/AgentsUtils.py:322-347 | the float-product computation of `calc` (written with reals and truncation) equals the integer table for every run length, block count, side and gap flag |
| LineEvaluation.Calc | src/Agents/AgentsUtils.py:322-347 | `calc` always lies between 0 and 100000 |
| LineEvaluation.CalcCurrentDominates | src/Agents/AgentsUtils.py:344-346 | the acting colour never scores less than the other colour for the same run |
| LineEvaluation.CalcGapNeverRaises | src/Agents/AgentsUtils.py:327-330 | a credited gap never raises the score of a run |
| LineEvaluation.CalcBlockingNeverRaises | src/Agents/AgentsUtils.py:323-340 | more blocked ends never raise the score of a run |
| LineEvaluation.EvaluateLine | src/Agents/AgentsUtils.py:289-319 | the scanning loop (run length, block count, gap flag) computes the left fold of the scan step, and the result is never negative |
| LineEvaluation.LineScoreWithoutColor | src/Agents/AgentsUtils.py:289-319 | a line with no stone of the colour scores 0 |
| LineEvaluation.LineScoreSolid | src/Agents/AgentsUtils.py:317-318 | a line of five or more stones of the colour scores 100000 |
| LineEvaluation.AtMostOneGapPerRun | src/Agents/AgentsUtils.py:300-307 | a second gap inside a run closes the run: after it the run length is 0 and the gap flag is clear |
| LineEvaluation.LineScoreFours | src/Agents/AgentsUtils.py:289-347 | an open four scores 10000, a half-open four 1250 for the acting colour and 125 for the other, a split four 5000 |
| LineEvaluation.HalfOpenFour | src/Agents/AgentsUtils.py:334-340 | a four blocked on one side gets both the 0.25 and the 0.5 factor |
| LineEvaluation.GapFlagCarriesOver | src/Agents/AgentsUtils.py:310-313 | the gap flag is not cleared when an opponent stone ends a run, so a later four is halved |
| LineEvaluation.DiagAt | src/Agents/AgentsUtils.py:283-285 | the k-th diagonal (`np.diag`) holds the cells (i, i+k) for k at least 0 and (i-k, i) below |
| LineEvaluation.AntiDiagMirrors | src/Agents/AgentsUtils.py:285 | the k-th diagonal of the left-right mirror (`np.diag(np.fliplr(board), k)`) is the k-th anti-diagonal of the board |
| LineEvaluation.ScoreRowsAndCols | src/Agents/AgentsUtils.py:276-280 | the row-and-column loop sums the line score of every row and every column |
| LineEvaluation.ScoreDiagonals | src/Agents/AgentsUtils.py:283-285 | the diagonal loop sums the line score of the diagonals with offsets from -size+5 to size-5, of the board and of its left-right mirror |
| LineEvaluation.EvaluateColor | src/Agents/AgentsUtils.py:270-286 | `evaluate_color` is the sum over rows, columns and both diagonal families, with the acting flag "colour is the current colour", and is never negative |
| LineEvaluation.ColorScoreAbsent | src/Agents/AgentsUtils.py:270-286 | a colour with no stone on the board scores 0 |
| LineEvaluation.EvaluationStateSigns | src/Agents/AgentsUtils.py:264-267 | `evaluation_state` is 0 on a board without stones, never negative when only the perspective colour has stones and never positive when only the other colour has stones |
| LineEvaluation.AddRandomNoise | src/Agents/AgentsUtils.py:256-257 | for a jitter in [-0.2, 0.2] the noisy score keeps the sign of the score and stays within 20 % of it after truncation toward zero |
| CandidateMoves.CheckNeighbors | src/Agents/AgentsUtils.py:51-55 | the neighbour loop answers whether some in-bounds offset cell is occupied |
| CandidateMoves.FindSharedBorderCells | src/Agents/AgentsUtils.py:13-75 | every result is an empty cell, results are distinct and at most 255 (the parameter is ignored); with border cells present the result has min(255, count) border cells and is exactly the border cells when there are at most 255; with none it has min(2, empty count) cells, all without occupied neighbours |
| CandidateMoves.BorderSpec | src/Agents/AgentsUtils.py:28-61 | the border list holds exactly the empty cells with an occupied neighbour within the distance, the other list exactly the remaining empty cells, both in row-major order |
| CandidateMoves.EmptyIsBorderOrLone | src/Agents/AgentsUtils.py:28-61 | every empty cell lands in exactly one of the two lists |
| CandidateMoves.NumOfNeighbors | src/Agents/AgentsUtils.py:106-115 | the neighbour count is the number of occupied cells of the 8-ring, between 0 and 8 |
| CandidateMoves.NeighborScoreSpec | src/Agents/AgentsUtils.py:117-122 | a cell's neighbour score is between 0 and 8, and positive exactly for an empty cell with an occupied 8-neighbour |
| CandidateMoves.NeighborsHeuristic | src/Agents/AgentsUtils.py:101-124 | the grid holds the neighbour score of every cell (0 on occupied cells) and the flag is true exactly when the board has no stone |
| CandidateMoves.RunScore | src/Agents/AgentsUtils.py:149 | `int(10 ** (consec - 1))` is positive exactly when the run is non-empty |
| CandidateMoves.WalkRun | src/Agents/AgentsUtils.py:136-140 | the while-walk counts the consecutive target stones from the start cell along the direction |
| CandidateMoves.SequenceFoundInDirection | src/Agents/AgentsUtils.py:131-149 | the direction score is the run score of the stones on both sides of the cell |
| CandidateMoves.EvaluatePosition | src/Agents/AgentsUtils.py:151-156 | the position score sums the direction scores over the four directions |
| CandidateMoves.PositionScorePositive | src/Agents/AgentsUtils.py:131-156 | a position score is positive exactly when a target stone is adjacent in one of the eight directions |
| CandidateMoves.OffensiveHeuristic | src/Agents/AgentsUtils.py:127-163 | the grid holds the own-colour position score on empty cells and 0 on occupied ones |
| CandidateMoves.DefensiveHeuristic | src/Agents/AgentsUtils.py:166-203 | the grid holds the opponent-colour position score on empty cells and 0 on occupied ones |
| CandidateMoves.CombinedPositive | src/Agents/AgentsUtils.py:239-241 | the combined score is never negative, and positive exactly for the border cells at distance 1 |
| CandidateMoves.CombineScores | src/Agents/AgentsUtils.py:237-241 | the loop builds the grid of (offensive + defensive) × neighbour scores |
| CandidateMoves.CombineRow | src/Agents/AgentsUtils.py:239-241 | one pass of the inner loop fills row `i` with its products and leaves the other rows as they were |
| CandidateMoves.CombinedGridPositives | src/Agents/AgentsUtils.py:211-215 | the cells pushed on the heap are exactly the border cells at distance 1, in row-major order |
| CandidateMoves.PushPositive | src/Agents/AgentsUtils.py:211-215 | one heap entry (negated jittered score, cell) is pushed per positive cell, in row-major order |
| CandidateMoves.PopMin | src/Agents/AgentsUtils.py:219-221 | a pop removes the least entry in the (key, row, col) tuple order and keeps the others |
| CandidateMoves.GetTopKMoves | src/Agents/AgentsUtils.py:206-223 | the result has min(k, positives) positive cells (none for k at most 0), strictly in descending jittered score with ties to the smaller cell, and every positive cell left out ranks after every chosen one |
| CandidateMoves.MixedHeuristic | src/Agents/AgentsUtils.py:226-245 | a stone-free board gives only the centre (n/2, n/2); otherwise the top k border cells by jittered combined score, in that order |
| FiveScan.HasFiveInARow | src/Agents/qlearningagent.py:211-221 | the inner walk reports five exactly when five consecutive cells from the start along the direction hold the colour |
| FiveScan.FiveFrom | src/Agents/qlearningagent.py:228-245 | the four guarded checks from one start cell miss no five that starts there |
| FiveScan.ScanForFive | src/Agents/qlearningagent.py:208-247 | the whole-board scan is true exactly when the colour has five consecutive stones in a row, column or diagonal |
| Game.WalkSide | src/Gomuko.py:135-147 | each side walk counts the same-colour stones next to the cell, capped at 4 |
| Game.CountThrough | src/Gomuko.py:133-149 | the per-direction count is 1 plus the two capped side walks |
| Game.ContiguityNotChecked | src/Gomuko.py:211-220 | `is_valid_continuous_sequence` holds exactly when the window has four opponent stones and one empty cell: the second test adds nothing |
| Game.GapCompletesFive | src/Gomuko.py:180-183 | in an accepted window `line.index(None)` is the one empty cell and the other four hold the opponent |
| Game.FirstEmpty | src/Gomuko.py:182 | `line.index(None)` is the first empty position of the window |
| Game.ScanSection | src/Gomuko.py:177-207 | each of the four section loops appends the gap of every accepted window, in scan order |
| Game.ScanSectionLine | src/Gomuko.py:179-183 | one pass of a section's inner loop appends, in order, the gaps of the accepted windows at that outer index |
| Game.SectionSpotsSound | src/Gomuko.py:177-207 | every spot a section reports is the gap of a window of that direction holding four opponent stones |
| Game.SectionSpotsComplete | src/Gomuko.py:177-207 | every such gap is reported by its section |
| Game.FindPotentialWinSpots | src/Gomuko.py:173-209 | a cell is in the list exactly when it is the single empty cell of some row, column, diagonal or anti-diagonal window with four opponent stones |
| Game.WinSpotCompletesFive | src/Gomuko.py:173-220 | every spot is empty, and the opponent's stone there completes five in a row |
| Game.Gomoku.constructor | src/Gomuko.py:12-34 | a fresh 15 × 15 empty board, black to move, not over, no winner, all counters 0 |
| Game.Gomoku.GetValidMoves | src/Gomuko.py:84-86 | the result holds exactly the empty cells, in row-major order |
| Game.Gomoku.AppendEmptyInRow | src/Gomuko.py:86 | scanning one row appends that row's empty cells, left to right, to the cells found in earlier rows |
| Game.Gomoku.CheckWin | src/Gomuko.py:128-154 | true exactly when a line through the cell has five of its colour; the winner is recorded only then and only when data is collected |
| Game.Gomoku.PlaceStone | src/Gomuko.py:66-75 | the mover's stone is written, only the mover's step counter grows and the turn passes; the step counters stay equal to the stone counts |
| Game.Gomoku.SettleGame | src/Gomuko.py:77-78 | the game is over exactly when it already was, the move wins or the board is full |
| Game.Gomoku.MakeMove | src/Gomuko.py:58-83 | an occupied cell changes nothing; an empty one is placed, counted, the turn flips, game-over and winner follow the win and full-board tests, and the block counters stay |
| Game.Gomoku.TrackOpportunities | src/Gomuko.py:156-171 | with no threat nothing changes; otherwise exactly one of the mover's counters grows: blocks when the move is a threat spot, missed otherwise; the other colour's counters stay |
| Game.NoMovesIffFull | src/Gomuko.py:77 | no valid move exactly when the board is full |
| Game.ThreatIffSpots | src/Gomuko.py:163 | the spot list is non-empty exactly when some threat spot exists |
| QLearning.RotateAt | src/Agents/qlearningagent.py:49-50 | `np.rot90` moves cell (j, n-1-i) to (i, j) |
| QLearning.ReflectAt | src/Agents/qlearningagent.py:52-53 | `np.fliplr` moves cell (i, n-1-j) to (i, j) |
| QLearning.RotateFour | src/Agents/qlearningagent.py:49-50 | four quarter turns give back the board |
| QLearning.ReflectTwice | src/Agents/qlearningagent.py:52-53 | two reflections give back the board |
| QLearning.RotateAfterReflect | src/Agents/qlearningagent.py:49-53 | turning a mirrored board equals mirroring the board turned three times |
| QLearning.LexTotal | src/Agents/qlearningagent.py:65 | the serialisation order compares any two keys |
| QLearning.LexAntisymmetric | src/Agents/qlearningagent.py:65 | two keys each at most the other are equal |
| QLearning.LexTransitive | src/Agents/qlearningagent.py:65 | the serialisation order is transitive |
| QLearning.MinKeyIsMin | src/Agents/qlearningagent.py:65 | `min` returns one of the keys and it is at most every key |
| QLearning.TransformationsAreImages | src/Agents/qlearningagent.py:58-63 | the loop collects the eight images R^k and flip(R^k) for k = 0..3 |
| QLearning.MinimalIsSmallestImage | src/Agents/qlearningagent.py:55-67 | the minimal representation is the serialisation of one of the eight images and at most every image's |
| QLearning.InvariantUnderRotation | src/Agents/qlearningagent.py:55-67 | a quarter turn does not change the minimal representation |
| QLearning.InvariantUnderReflection | src/Agents/qlearningagent.py:55-67 | a reflection does not change the minimal representation |
| QLearning.DihedralInvariance | src/Agents/qlearningagent.py:69-72 | all eight rotation and reflection images of a board get the same state key |
| QLearning.CheckWin | src/Agents/qlearningagent.py:208-247 | `check_win` is true exactly when the player has five consecutive stones in a row, column or diagonal |
| QLearning.CountSequence | src/Agents/qlearningagent.py:195-206 | the count is the number of consecutive player stones from the start cell along the direction (0 when the start cell is not the player's) |
| QLearning.EvaluateSequences | src/Agents/qlearningagent.py:163-178 | the loop sums 100/10/5/1 for runs of at least 5/4/3/2 over every cell and direction |
| QLearning.EvaluateThreats | src/Agents/qlearningagent.py:180-193 | the loop sums -20/-10/-5 for runs of 4/3/2 over every cell and direction |
| QLearning.RewardSigns | src/Agents/qlearningagent.py:163-193 | the sequence total is never negative and the threat total never positive |
| QLearning.NoStonesNoReward | src/Agents/qlearningagent.py:163-193 | a player without stones gets 0 from both totals |
| QLearning.CalculateSmarterReward | src/Agents/qlearningagent.py:144-161 | 1000 on the player's five, -1000 on the opponent's, else the sequence total minus the opponent's threat total (the code as written) |
| QLearning.ThreatsRaiseReward | src/Agents/qlearningagent.py:157-159 | subtracting the threat total never lowers the reward |
| QLearning.WhitePairRewardsBlack | src/Agents/qlearningagent.py:144-193 | on a 2 × 2 board with a white pair, black's reward as written is +5 |
| QLearning.CalculateIntendedReward | src/Agents/qlearningagent.py:144-161 | the corrected reward: 1000 and -1000 on a five, else the sequence total plus the threat penalties, never above the sequence total |
| QLearning.NoFiveOnSmallBoard | src/Agents/qlearningagent.py:223-247 | a board smaller than 5 never has a five |
| QLearning.WithRow | src/Agents/qlearningagent.py:119-123 | creating a row adds the key, keeps every stored row and makes a new row empty |
| QLearning.MaxValueUnique | src/Agents/qlearningagent.py:130 | `max(values, default=...)` has one value |
| QLearning.MaxStored | src/Agents/qlearningagent.py:130 | the loop computes the maximum stored value, or the default for an empty row |
| QLearning.TdUpdateWritesOneValue | src/Agents/qlearningagent.py:119-133 | the update adds the two rows and changes no stored value but Q[s][a] |
| QLearning.TdUpdateValue | src/Agents/qlearningagent.py:128-133 | Q[s][a] becomes cur + alpha × (reward + gamma × maxFuture - cur), with defaults for missing entries |
| QLearning.OpeningMoveIsEmpty | src/Agents/qlearningagent.py:35-36 | the opening answer exists exactly on boards larger than 4 and is an empty cell |
| QLearning.MaxOverMoves | src/Agents/qlearningagent.py:39-40 | the maximum of the stored values over the moves, or the default with no move |
| QLearning.BestMoves | src/Agents/qlearningagent.py:41 | exactly the moves whose stored value equals the maximum |
| QLearning.ChooseGreedy | src/Agents/qlearningagent.py:39-42 | with moves present, the choice is one of them with a maximal stored value; none exactly when there is no move |
| QLearning.QLearningAgent.constructor | src/Agents/qlearningagent.py:11-23 | the parameters are stored, epsilon is 0 outside learning mode, the table is the loaded one and nothing is pending |
| QLearning.QLearningAgent.ApplyUpdate | src/Agents/qlearningagent.py:119-133 | the table receives exactly the temporal-difference update |
| QLearning.QLearningAgent.UpdateQTable | src/Agents/qlearningagent.py:110-139 | without a pending state and action nothing changes; otherwise the update with the noisy evaluation as reward, then the pending pair is cleared and the counter grows |
| QLearning.QLearningAgent.Exploit | src/Agents/qlearningagent.py:38-47 | the move is an empty cell with a maximal stored value, exactly when the board is not full, followed by the immediate update on the same key |
| QLearning.QLearningAgent.MakeMove | src/Agents/qlearningagent.py:25-47 | with one stone on the board, the opening answer without touching the pending pair; otherwise the greedy answer and update, and `random.choice` fails on a full board |
| RandomAgent.PassesOnlyWhenFull | src/Agents/randomagent.py:15-18 | the agent answers `None` exactly when the board is full |
| RandomAgent.MovesAreEmptyCells | src/Agents/randomagent.py:15-17 | an answer is an empty cell, and every empty cell can be the answer |
| AgentFactory.Lower | src/Agents/agentsFactory.py:21 | lowering keeps the length and lowers each ASCII letter |
| AgentFactory.CaseInsensitive | src/Agents/agentsFactory.py:21-48 | two kind names that lower to the same string build the same agent or both fail |
| AgentFactory.LoweredKindSameAgent | src/Agents/agentsFactory.py:21-51 | passing the lowered name builds the same agent |
| AgentFactory.UnknownKindRaises | src/Agents/agentsFactory.py:52-53 | construction fails exactly for unknown kinds, with `ValueError("Unknown agent type: ...")` |
| AgentFactory.Defaults | src/Agents/agentsFactory.py:25-51 | the defaults: depth 4/1/2/4, colour "black", alpha 0.2, gamma 0.9, epsilon 0.3, initial value 0.1, 100 simulations and 10 steps |
| AgentFactory.GivenOverridesDefault | src/Agents/agentsFactory.py:26-49 | a given colour, depth or simulation count is the one used |
| MultiAStar.HeuristicSchedule | src/Agents/multiastaragent.py:20 | ten copies of heuristic 3 followed by heuristics 2 and 4 |
| MultiAStar.RoundRobin | src/Agents/multiastaragent.py:32-33 | after twelve calls the heuristic index is back where it was |
| MultiAStar.FirstCycle | src/Agents/multiastaragent.py:32-33 | the first twelve calls use the list in order |
| MultiAStar.Heuristic3Order | src/Agents/multiastaragent.py:130-133 | heuristic 3 orders boards by the opponent's non-acting score, reversed for white |
| MultiAStar.Heuristic3Signs | src/Agents/multiastaragent.py:130-133 | heuristic 3 is never negative for black, never positive for white, and 0 without opponent stones |
| MultiAStar.IsGoalState | src/Agents/multiastaragent.py:73-110 | a goal exactly when the player has five consecutive stones |
| MultiAStar.HeuristicCost | src/Agents/multiastaragent.py:130-140 | heuristic 2 gives 100000 on the opponent's five, else heuristic 3 taken for the opponent; heuristic 4 gives 100000 on the player's five, else heuristic 3 for the player |
| MultiAStar.GetSuccessors | src/Agents/multiastaragent.py:112-128 | one successor per empty cell in row-major order, each the board plus the player's stone there |
| MultiAStar.PopMin | src/Agents/multiastaragent.py:12-13 | a pop takes a node of least score and keeps the rest |
| MultiAStar.FirstMoveIsEmpty | src/Agents/multiastaragent.py:65 | the first move of a legal path is an empty cell of the start board |
| MultiAStar.Extend | src/Agents/multiastaragent.py:65-68 | a child node's path is the parent's plus the move, its board the parent's plus the stone, its cost the parent's plus the heuristic |
| MultiAStar.PushSuccessors | src/Agents/multiastaragent.py:61-68 | every pushed node is reachable from the start by a legal path one longer than its parent's |
| MultiAStar.AStarSearch | src/Agents/multiastaragent.py:37-71 | a returned path is legal and at most the budget long, and either its board holds the player's five or the whole budget of expansions was spent; it is empty exactly when the start is a goal or the budget is 0; `None` means no sequence of the player's moves from the start makes five (the search expanded the start and every successor of what it expanded); a full board with budget and no goal gives `None` |
| MultiAStar.ExhaustedMeansNoFive | src/Agents/multiastaragent.py:46-71 | when the frontier empties, the visited boards hold the start and every successor of each, and none holds five, so no legal sequence of the player's moves reaches five |
| MultiAStar.MultiAStarAgent.constructor | src/Agents/multiastaragent.py:18-23 | the heuristic index starts at 0 |
| MultiAStar.MultiAStarAgent.MakeMove | src/Agents/multiastaragent.py:28-35 | the index advances modulo 12; an answer is an empty cell; an empty path raises `IndexError`; the `None` failure happens only when no sequence of the agent's moves makes five; a full board fails |
| Minimax.Pick | src/Agents/minimaxagent.py:30-57 | the selection loop finds a move exactly when there are moves, and it is one of them |
| Minimax.PickFirstBest | src/Agents/minimaxagent.py:39-41 | the picked score is the maximum (minimum) and every earlier move scores strictly less (more) |
| Minimax.PlyValue | src/Agents/minimaxagent.py:30-57 | at an inner node the value is the best child score, taken by the first row-major child attaining it |
| Minimax.ValueMove | src/Agents/minimaxagent.py:19-22 | at the depth limit or on a full board the value is (`evaluation_state`, (-1, -1)); otherwise the move is an empty cell |
| Minimax.ApplyMove | src/Agents/minimaxagent.py:59-62 | exactly the cell at the move takes the symbol |
| Minimax.UndoMove | src/Agents/minimaxagent.py:64-66 | exactly the cell at the move becomes empty |
| Minimax.UndoAfterApply | src/Agents/minimaxagent.py:59-66 | applying then undoing on an empty cell restores the board |
| Minimax.CheckLine | src/Agents/minimaxagent.py:69-79 | true exactly when five consecutive symbol cells start at the cell |
| Minimax.IsWinner | src/Agents/minimaxagent.py:68-88 | true exactly when the symbol has five consecutive stones in some direction |
| Minimax.IsFree | src/Agents/minimaxagent.py:94-97 | free exactly when the place is an in-bounds empty cell |
| Minimax.MinimaxAgent.constructor | src/Agents/minimaxagent.py:6-9 | colour and depth are stored |
| Minimax.MinimaxAgent.Search | src/Agents/minimaxagent.py:17-28 | the recursion computes the depth-limited minimax value and move |
| Minimax.MinimaxAgent.ChildRun | src/Agents/minimaxagent.py:34-37 | a child is searched on a copy holding the ply's stone |
| Minimax.MinimaxAgent.MaxEvaluation | src/Agents/minimaxagent.py:30-42 | the loop keeps the first strictly larger child score and its move |
| Minimax.MinimaxAgent.MinEvaluation | src/Agents/minimaxagent.py:44-57 | the loop keeps the first strictly smaller child score and its move, with the opponent's stone |
| Minimax.MinimaxAgent.MakeMove | src/Agents/minimaxagent.py:14-15 | the move of the search from depth 0 as maximiser: (-1, -1) at depth 0 or on a full board, else an empty cell |
| Mcts.MakeMoveOnBoard | src/Agents/MCTSAgent.py:48-51 | an empty cell takes the colour, an occupied one is unchanged, no other cell changes |
| Mcts.SecondMoveIgnored | src/Agents/MCTSAgent.py:48-51 | a second placement on the same cell changes nothing |
| Mcts.CheckWinOnBoard | src/Agents/MCTSAgent.py:54-78 | true exactly when some line through the cell has five of the colour |
| Mcts.FindLegalMovesAllBoard | src/Agents/MCTSAgent.py:177-186 | exactly the empty cells, in row-major order |
| Mcts.FirstMax | src/Agents/MCTSAgent.py:36 | `max` with a key returns the first position of a maximal key |
| Mcts.RootOnPath | src/Agents/MCTSAgent.py:173-174 | the parent links of every node lead to the root |
| Mcts.BackpropagatedPath | src/Agents/MCTSAgent.py:166-174 | after backpropagation from a node, the root has one more visit and every non-root node has been visited |
| Mcts.ExpandKeepsShape | src/Agents/MCTSAgent.py:153-164 | expansion keeps the tree well formed: children after their parents, parent links matching children, boards one stone apart |
| Mcts.ExpandKeepsChildren | src/Agents/MCTSAgent.py:162-163 | after expansion every child index is larger than its parent's and links back to it |
| Mcts.ExpandKeepsEdges | src/Agents/MCTSAgent.py:157-162 | after expansion every node's board is its parent's plus the parent's stone at its move |
| Mcts.Tree.constructor | src/Agents/MCTSAgent.py:132-140 | a root with the board and player, no children, no visits, and untried moves that are empty (border cells when some exist) |
| Mcts.Tree.BestChild | src/Agents/MCTSAgent.py:146-151 | the first child with a maximal UCB1 key; every child has been visited |
| Mcts.Tree.MostVisitedChild | src/Agents/MCTSAgent.py:36 | the first child with the most visits |
| Mcts.Tree.Select | src/Agents/MCTSAgent.py:80-86 | the descent ends at a node with untried moves or without children |
| Mcts.Tree.Expand | src/Agents/MCTSAgent.py:153-164 | the last untried move is removed and exactly one child is appended, holding the parent's board plus the parent's stone and the parent's player; the parent's board is untouched |
| Mcts.Tree.Backpropagate | src/Agents/MCTSAgent.py:166-174 | the node and every ancestor through the root gain a visit and the result; no other node changes |
| Mcts.MctsAgent.constructor | src/Agents/MCTSAgent.py:9-14 | the defaults 2, 2 and 1.41 |
| Mcts.PlayOut | src/Agents/MCTSAgent.py:96-123 | at most the step budget of placements on a copy, each on an empty cell by the alternating side, recorded move by move and board by board from the node's board; no placement before the last makes five, and the roll-out stops right after the one that does; the agent side with no candidate is a draw on a full board; the opponent with no candidate fails on a full board |
| Mcts.RollStep | src/Agents/MCTSAgent.py:101-123 | one turn of the roll-out: with no candidate the board is full and the game stops (a draw for the agent side); otherwise the chosen empty cell gets the mover's stone, extends the record by one, and the game stops exactly when that stone makes five |
| Mcts.MoverParity | src/Agents/MCTSAgent.py:97 | the mover of the n-th placement alternates, starting with the opponent of the node's player |
| Mcts.PlayMove | src/Agents/MCTSAgent.py:112-118 | one placement on an empty cell and the win test through it |
| Mcts.AgentTurn | src/Agents/MCTSAgent.py:101-111 | the agent's roll-out move is an empty cell, a border cell when the board has stones and border cells exist; none only on a full board |
| Mcts.OpponentTurn | src/Agents/MCTSAgent.py:113-116 | the opponent's roll-out move is an empty cell, a border cell when some exist; none only on a full board |
| Mcts.ChooseMove | src/Agents/MCTSAgent.py:101-116 | the roll-out move of either side is an empty cell, and there is none only on a full board |
| Mcts.NoCandidatesMeansFull | src/Agents/MCTSAgent.py:105-109 | no border cell and no sampled cell means the board is full |
| Mcts.MctsAgent.SimulateMove | src/Agents/MCTSAgent.py:88-125 | 0 on a draw, the noisy evaluation of the final board for the root player otherwise, `IndexError` when the opponent has no candidate; the final board is reached by a record of legal alternating placements in which only the last can make five |
| Mcts.PrepareLeaf | src/Agents/MCTSAgent.py:29-31 | selection and expansion keep the tree well formed and the root's board and visits |
| Mcts.MctsAgent.RunSimulations | src/Agents/MCTSAgent.py:28-33 | after the loop the root has exactly the number of simulations as visits, every non-root node is visited and the root board is unchanged; a failed roll-out stops with its error |
| Mcts.MctsAgent.Simulate | src/Agents/MCTSAgent.py:29-33 | one pass of the loop keeps the tree well formed and the root board; when the roll-out succeeds the root gains exactly one visit and every node stays visited; otherwise the error is the empty-choice `IndexError` |
| Mcts.MctsAgent.MakeMove | src/Agents/MCTSAgent.py:16-37 | an answer is an empty cell (a border cell when some exist); no simulation raises `ValueError` from `max` |

## Left out

- Drawing, window scheduling and closing, the welcome screen, the human agent,
  `start_game`, `get_filename` and the data-analysis scripts are UI, timers,
  files and plotting. The game object keeps only its board, turn, flags and
  counters.
- `make_agent_move` is not modelled as one member. It asks the agent to move,
  calls `track_opportunities` when data is collected, then calls `make_move`.
  `Game.Gomoku.TrackOpportunities` and `Game.Gomoku.MakeMove` model its two
  effects; the agent call is the agents' own `MakeMove`.
- `get_type` only returns a constant name. `RandomAgent.TypeName` and
  `Mcts.TypeName` keep two of them; the others have no behaviour to prove.
- `print`, `print_2d_array`, `save_q_table` and `load_q_table` are console and
  file I/O. The loaded table is a constructor argument of the Q-learning
  agent.
- The AlphaBeta and Expectimax agents and the agent base class are not part of
  this model. The factory only names them in its configuration.
- `bounding_box_heuristic` is unused and uses a different cell encoding.
  `count_adjacent_cells` of the Q-learning agent is never called.
- Floating point is modelled as `real`. This covers Q-values, alpha, gamma and
  the jitter. `calc`'s products are real products followed by truncation.
  UCB1 is an uninterpreted function.
- `hash` and `tostring` are modelled as a serialisation of the board into
  integers under the lexicographic order, with the key taken to be that
  serialisation. Python's per-process hash seed and numpy's object-array
  bytes have no meaning worth modelling.
- Boards are assumed square (`IsSquare`), as every caller builds them.
  `str.lower` is modelled on ASCII letters only.
- The evaluation is the fixed `evaluation_function`. The MCTS agent's
  `evaluation_fn` override is not modelled.
- Randomness is an oracle or nondeterministic choice, and no distribution is
  modelled. Q-learning's random tie-break is an index into the tied moves.
- CandidateMoves.FindSharedBorderCells: the order of `random.sample`'s
  answer and its distribution are not stated, only its members and size.
- Game.FindPotentialWinSpots: states membership, not the order or the
  multiplicity of the list. `ScanSection` gives each section's exact list.
- Game.Gomoku.MakeMove: `make_move` also schedules the next turn or closes the
  window, which is left out.
- Game.Gomoku.MakeMove: requires an in-bounds cell, but `make_agent_move`
  passes on whatever the agent answers (src/Gomuko.py:110-126). A depth-0
  minimax agent on a non-full board answers `(-1, -1)`
  (`Minimax.MinimaxAgent.MakeMove`). Python's negative indexing then writes
  the bottom-right cell, and `check_win` walks from the cell (-1, -1) off the
  board. This negative-index move is not modelled.
- Mcts.AgentTurn: requires a non-empty board. On a 0 × 0 board the source
  would pick the centre (0, 0) and fail on indexing. No game uses such a
  board.
- Mcts.ChooseMove: requires a non-empty board on the agent's turn, for the
  same reason.
- Mcts.Tree.Select: states where the descent stops, not the path taken.
  `BestChild` states each step's choice.
- Mcts.MctsAgent.RunSimulations: after a failed roll-out it states only that
  the tree is well formed. It does not state that every node is visited,
  because the failed node has just been expanded.
- Mcts.MctsAgent.MakeMove: states that the answer is legal and which errors
  are possible. It does not tie the answer to the visit counts: the tree is
  local to the call, and `MostVisitedChild` states that choice.
- Mcts.Tree: nodes live in a list and refer to each other by index. Python
  object identity and aliasing are not modelled. Backpropagation recurses
  along parent indices.
- MultiAStar.AStarSearch: requires a non-negative budget. With a negative
  budget the source never reaches 0 and searches until the frontier is empty.
  The heap's order among equal scores is not modelled: any least-score node
  may be popped.
- MultiAStar.AStarSearch: requires a non-empty board, because
  `get_successors` reads `board[0]`.
- MultiAStar.GetSuccessors: requires that the board has no five. Its early
  return at src/Agents/multiastaragent.py:125-126 only fires on a goal board,
  and the search never expands one.
- MultiAStar.MultiAStarAgent.MakeMove: does not state that the path is
  optimal for the heuristic, only that it is legal, when the search gives
  up, and which errors occur.
- MultiAStar.AStarSearch: does not state which path is returned when the
  budget runs out, beyond its legality and length: that depends on the
  heuristic's costs and the heap order.
- Minimax.ApplyMove: requires an in-bounds move. Python's negative indices
  would write from the other end, but the search only applies legal moves.
- Minimax.MinimaxAgent.MaxEvaluation: the `maximizingPlayer` argument is
  dropped, since it is always true there. MinEvaluation likewise.
- QLearning.QLearningAgent.MakeMove: when the board has exactly one stone and
  is 4 × 4 or smaller, the source's `board[4][4]` raises `IndexError`, which
  the model returns as an error.
- LineEvaluation.AddRandomNoise: the bounds hold for a jitter within
  [-0.2, 0.2]. Outside that range nothing is stated.

## Findings

| source | as written | input that shows it | evidently intended | confidence | as-written member | corrected member |
|---|---|---|---|---|---|---|
| src/Agents/qlearningagent.py:159 | `reward -= self.evaluate_threats(board, opponent)`, but `evaluate_threats` already returns a non-positive penalty, so the opponent's threats raise the reward (`update_q_table` calls `evaluation_function` instead, so the agent's updates are unaffected) | a 2 × 2 board with two white stones on the top row: black's reward is +5 instead of -5 | add the penalty (`reward += ...`), so threats lower the reward | not executed | QLearning.WhitePairRewardsBlack, QLearning.ThreatsRaiseReward | QLearning.CalculateIntendedReward |
