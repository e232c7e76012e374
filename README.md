# Frozen lake: value iteration, policy iteration and Q-learning in Dafny

This project models a small reinforcement-learning repository: a 7×7 "frozen lake" grid world and three algorithms that solve it, plus the similarity measure used to compare their policies.

**The grid world (`lake.dfy`, module `Lake`).**
- The goal is (0,0), there are seven trap cells, and the start is (6,6).
- The rewards are goal 10, hole −10 and frozen 0.
- A deterministic move is clamped at the walls. An action is one of the four labels `up`, `down`, `left`, `right`, or any other label, which moves nowhere.
- `FrozenLake` is a class: the reward grid is an `array2<real>` filled at construction, and `state` is the mutable current cell.

**Shared machinery.**
- `rows.dfy`, module `Rows`: a Q row or policy row is the four values for up, down, left and right, in that order. `FirstArgMax` is Python's `max(d, key=d.get)`, which returns the first maximal key.
- `bellman.dfy`, module `Bellman`:
  - the look-ahead `reward + γ·V[next]`;
  - a specification of one in-place (Gauss–Seidel), row-major sweep over the non-terminal cells, for either the optimality backup or the expected backup under a policy;
  - the running `delta`;
  - the stopping rule of a loop of sweeps.
- `greedy.dfy`, module `Greedy`: one-hot policy extraction on the first best action, and the "no choice changed" test.
- `iteration.dfy`, module `Iteration`: a loop of rounds, each of which returns the next state and a stop flag, run under a budget of rounds. It is the shape of the main loop of policy iteration (`for` over `max_iterations` with a `break` on a stable round).

**The algorithms.**
- `value_iteration.dfy`, `policy_iteration.dfy` and `qlearning.dfy` model the three solver classes as Dafny classes. Their `V`, `Q` and `policy` dictionaries are `map` fields that the methods reassign.
- The constructors' loops that fill the tables are map comprehensions (`ConstantValues`, `ConstantRows`).
- The sweep, improvement, episode and training loops are `while` loops, proved against recursive specification functions (`ValuesAfter`, `ImproveSweep`, `EpisodeFrom`, `TrainFrom`). The policy-extraction loops are `while` loops proved against map-comprehension closed forms (`GreedyUpTo`, `GreedyActionsUpTo`).
- The counting loop of the similarity measure is a `while` loop proved against a closed form: the sizes of the sets of counted and agreeing states.
- Each probe of the environment saves and restores the lake's `state`, and the contracts say so.
- `comparison.dfy`, module `Comparison`, models the counting loop of `calculate_policy_similarity`.

Random draws (the exploration test and the random action of Q-learning) are parameters: two oracles `draws: nat -> real` and `picks: nat -> ActionIndex`, indexed by the global step count.

`policy_improvement` has a docstring that promises True when the policy changed. The code returns `policy_stable`, which is True when no choice changed. The model follows the code.

## Model

| member | source | states |
|---|---|---|
| Lake.FrozenLake.constructor | src/FrozenLake.py:5-19 | grid size, goal (0,0), trap list, start (6,6) and action list are the source's; the current state is the start; every grid cell holds its reward |
| Lake.FrozenLake.CreateGrid | src/FrozenLake.py:24-33 | the returned n×n array holds −10 on every trap, 10 on the goal and 0 elsewhere (traps are written after the goal) |
| Lake.CellRewardSchedule | src/FrozenLake.py:27-33 | a cell reads −10 exactly when it is in the trap list, 10 exactly when it is the goal, 0 exactly when it is neither |
| Lake.IsTrapIsMembership | src/FrozenLake.py:9 | the cell-by-cell trap test is membership in the trap list |
| Lake.FrozenLake.Reset | src/FrozenLake.py:35-38 | the current state becomes the start and is returned |
| Lake.FrozenLake.Step | src/FrozenLake.py:40-58 | the new state is the clamped move from the old one and is stored and returned; the reward is the grid value of the new cell; `finish` holds exactly when the new cell is the goal or in the trap list |
| Lake.Parse | src/FrozenLake.py:44-51 | a label names a listed action exactly when it is one of `up`, `down`, `left`, `right`, and then the action's index names that label; any other label is kept as it is |
| Lake.Label | src/FrozenLake.py:44-51 | the label of an action is one of the four recognised labels exactly when the action is listed |
| Lake.ParseLabel | src/FrozenLake.py:44-51 | parsing the label of an action gives the action back, and the label of a parsed label is that label |
| Lake.CellReward | src/FrozenLake.py:27-33 | defines the reward a cell holds after construction: hole for a trap, else goal reward for the goal, else frozen (its schedule is stated by `Lake.CellRewardSchedule`) |
| Lake.Move | src/FrozenLake.py:44-51 | a move from inside the grid stays inside the grid |
| Lake.MoveClamps | src/FrozenLake.py:44-53 | the move is the one-cell shift when it stays inside the grid, else no move; a label other than the four never moves; the cell changes exactly when the action is listed and the shifted cell is inside the grid |
| Lake.MoveIsUnitStep | src/FrozenLake.py:44-51 | a listed action changes exactly one coordinate by exactly 1 in its own direction, or leaves the cell unchanged at the matching wall |
| Lake.Probe | src/ValueIteration.py:75-82 | a probe of cell s returns the clamped move, its reward and the terminal test, and restores the lake's current state |
| Lake.StartIsNotTerminal | src/FrozenLake.py:8-11 | the start is neither goal nor trap and lies inside the smallest grid |
| Lake.ReplayScript | test/testFrozenlake.py:11-14 | from a fresh 7×7 lake, up, right, right, down, right, up visit (5,6),(5,6),(5,6),(6,6),(6,6),(5,6), each with reward 0 and not done |
| Rows.RowMax | src/Qlearning.py:60 | defines `max(row.values())` as the left fold of max over the entries in key order (its meaning is stated by `Rows.RowMaxIsMax`) |
| Rows.RowMaxIsMax | src/ValueIteration.py:70-92 | the largest entry of a row bounds every entry and is attained by one |
| Rows.FirstArgMax | src/ValueIteration.py:124 | defines `max(d, key=d.get)`: keys scanned in order, the best replaced only by a strictly larger entry (its meaning is stated by `Rows.FirstArgMaxIsFirstMax`) |
| Rows.FirstArgMaxIsFirstMax | src/ValueIteration.py:124 | the chosen key attains the row's maximum and no earlier key does, as Python's `max(d, key=d.get)` picks it |
| Rows.FirstMaxIsUnique | src/ValueIteration.py:124 | there is only one first maximal key |
| Rows.FirstArgMaxAttainsMax | src/ValueIteration.py:124 | the chosen key's value is the row's maximum |
| Rows.FirstArgMaxOfOneHot | src/PolicyIteration.py:97 | the most probable action of a one-hot row is its hot action |
| Rows.Dot | src/PolicyIteration.py:58-72 | defines the sum of `policy[s][a] * value(a)` accumulated from 0 in key order (its values are stated by `Rows.DotOneHot`, `Rows.DotUniform` and `PolicyIter.PolicyIteration.ExpectedBackup`) |
| Rows.DotOneHot | src/PolicyIteration.py:72 | the expectation under a one-hot row is the hot action's entry |
| Rows.DotUniform | src/PolicyIteration.py:25 | the expectation under the uniform ¼ row is the mean of the four entries |
| Bellman.ConstantValues | src/ValueIteration.py:22-25 | the table has exactly the grid cells as keys, each with the given value |
| Bellman.ConstantRows | src/ValueIteration.py:28-31 | the table has exactly the grid cells as keys, each with the given row |
| Bellman.Lookahead | src/ValueIteration.py:73-86 | defines the look-ahead of one action: the reward of the cell the clamped move reaches plus γ times that cell's value (the probes are tied to it by `ValueIter.ValueIteration.ProbeAction`) |
| Bellman.LookaheadRowFromEntries | src/ValueIteration.py:73-86 | entry a of a cell's look-ahead row is the reward of the move plus γ times the value of the cell it reaches |
| Bellman.SweepCountStops | src/ValueIteration.py:51-104 | a loop of sweeps stops after the first sweep whose delta passes the test or that reaches the budget, and makes at least one and at most max(1, budget) sweeps |
| Bellman.SweepCountFrom | src/ValueIteration.py:53-104 | when none of the sweeps already made met the rule, the count reached is the first sweep that meets it |
| Bellman.StopsAtIsUnique | src/ValueIteration.py:102-104 | the loop stops at exactly one sweep count |
| Bellman.SweepKeepsValue | src/ValueIteration.py:62-64 | a sweep leaves the value of every cell it has not backed up, goal and traps included, as it was |
| Bellman.SweepKeepsRow | src/ValueIteration.py:62-64 | a sweep leaves the Q row of every cell it has not backed up as it was |
| Bellman.SweepBacksUp | src/ValueIteration.py:58-92 | every swept cell holds the backup of the row it saw in place: new values of earlier cells, old values of later ones |
| Bellman.SweepRowsBackUp | src/ValueIteration.py:73-86 | every swept cell's Q row is the look-ahead row it saw in place |
| Bellman.DeltaIsLargestChange | src/ValueIteration.py:55-95 | part way through a sweep, the running delta is 0 or the largest change among the cells swept so far |
| Bellman.DeltaOfIsLargestChange | src/ValueIteration.py:55-95 | a sweep's delta is non-negative, bounds the change of every swept cell, and is 0 or attained by one |
| Bellman.SweepsKeepTerminalValue | src/ValueIteration.py:62-64 | goal and trap cells keep their value through any number of sweeps |
| Bellman.SweepsKeepTerminalRow | src/ValueIteration.py:62-64 | goal and trap cells keep their Q row through any number of optimality sweeps |
| Greedy.GreedyPolicyIsGreedy | src/ValueIteration.py:115-128 | each swept cell's policy row is one-hot on the first action of largest Q; goal and trap rows are unchanged |
| Greedy.GreedyIsDeterministic | src/PolicyIteration.py:115-119 | a greedy policy is one-hot on every swept cell |
| Greedy.SameChoicesIffUnchanged | src/PolicyIteration.py:121-125 | for a deterministic policy, no choice changes exactly when the greedy policy is the old policy |
| Greedy.GreedyPolicyIdempotent | src/PolicyIteration.py:97-123 | making a policy greedy again over the same Q changes no choice and gives the same policy |
| ValueIter.ValueIteration.constructor | src/ValueIteration.py:5-37 | V is 0 for every cell; Q and the policy are all-zero rows for every cell |
| ValueIter.ValueIteration.ProbeAction | src/ValueIteration.py:75-85 | the action value is reward + γ·V[next] of the probed move, and the lake's state is restored |
| ValueIter.ValueIteration.BackupActions | src/ValueIteration.py:70-89 | Q[s] becomes the look-ahead row of s, the result is its largest entry, and nothing else changes |
| ValueIter.ValueIteration.ProcessCell | src/ValueIteration.py:60-95 | one cell of a sweep: terminal cells are skipped; otherwise V[s], Q[s] and delta are as the sweep specification steps them |
| ValueIter.ValueIteration.SweepRow | src/ValueIteration.py:58-95 | one row of the sweep moves the tables and delta from column 0 of row i to column 0 of row i+1 of the specification |
| ValueIter.ValueIteration.SweepCell | src/ValueIteration.py:59-95 | one column step of the sweep, as in the specification |
| ValueIter.ValueIteration.SweepGrid | src/ValueIteration.py:55-95 | one whole in-place sweep leaves V, Q and delta as the sweep specification gives them |
| ValueIter.ValueIteration.NextSweep | src/ValueIteration.py:53-95 | after sweep k+1, V and Q are the k+1-st sweep's tables and delta is that sweep's delta |
| ValueIter.ValueIteration.Run | src/ValueIteration.py:39-109 | V and Q are the tables after the sweep the stopping rule (`delta < seuil` or the budget) picks; the policy is then greedy over Q; the lake's state is unchanged; the three tables are returned |
| ValueIter.ValueIteration.WriteOneHot | src/ValueIteration.py:127-128 | the policy row of s becomes one-hot on the given action and nothing else changes |
| ValueIter.ValueIteration.CalculateOptimalPolicy | src/ValueIteration.py:111-128 | the policy becomes the greedy policy of Q (goal and trap rows untouched), and V and Q are unchanged |
| ValueIter.ValueIteration.PolicyRow | src/ValueIteration.py:116-128 | one row of the extraction loop takes the policy from the start to the end of row i of the specification |
| ValueIter.ValueIteration.PolicyCell | src/ValueIteration.py:117-128 | one cell of the extraction: a swept cell gets the one-hot row of its first best action, a terminal cell is skipped |
| ValueIter.SweepConsistent | src/ValueIteration.py:73-92 | after every sweep, each swept cell's Q row is the look-ahead it saw in place, and its value is that row's maximum |
| ValueIter.RunStopsConverged | src/ValueIteration.py:51-104 | at least one sweep is made; a run that stops before its budget does so after a sweep that moved every swept cell by less than seuil |
| ValueIter.RunPolicyAttainsValue | src/ValueIteration.py:92-128 | after a run and extraction, each swept cell's policy is one-hot on an action whose Q value is the cell's value |
| ValueIter.RunKeepsTerminalCells | src/ValueIteration.py:62-121 | goal and trap cells keep their value, their Q row and their policy row through the run and the extraction |
| PolicyIter.PolicyIteration.constructor | src/PolicyIteration.py:5-37 | the policy gives ¼ to each action in every cell; V is 0 and Q all-zero rows for every cell |
| PolicyIter.PolicyIteration.ProbeAction | src/PolicyIteration.py:61-69 | the action value is reward + γ·V[next] of the probed move, and the lake's state is restored |
| PolicyIter.PolicyIteration.ExpectedBackup | src/PolicyIteration.py:58-72 | the sum accumulated from 0 over the four actions is the expectation of the look-ahead row under the cell's policy row |
| PolicyIter.PolicyIteration.EvaluateCell | src/PolicyIteration.py:53-78 | one cell of an evaluation sweep: terminal cells are skipped; otherwise V[s] and delta are as the expected-backup sweep steps them |
| PolicyIter.PolicyIteration.SweepCell | src/PolicyIteration.py:52-78 | one column step of an evaluation sweep, as in the specification |
| PolicyIter.PolicyIteration.SweepRow | src/PolicyIteration.py:51-78 | one row of an evaluation sweep, as in the specification |
| PolicyIter.PolicyIteration.SweepGrid | src/PolicyIteration.py:49-78 | one whole in-place expected-backup sweep leaves V and delta as the specification gives them; policy and Q unchanged |
| PolicyIter.PolicyIteration.NextSweep | src/PolicyIteration.py:48-78 | after sweep k+1, V is that sweep's table and delta its delta |
| PolicyIter.PolicyIteration.PolicyEvaluation | src/PolicyIteration.py:39-78 | V becomes the table after the first sweep whose delta is at most theta (the fuel bounds the sweeps); policy and Q are unchanged |
| PolicyIter.EvaluationSweepInPlace | src/PolicyIteration.py:54-75 | after every evaluation sweep, each swept cell holds the policy-weighted sum of the look-ahead row it saw in place, and goal and trap cells keep their value |
| PolicyIter.EvaluationConverged | src/PolicyIteration.py:46-78 | evaluation makes at least one sweep; if it stops before its fuel, its last sweep moved every swept cell by at most theta |
| PolicyIter.EvaluateDeterministic | src/PolicyIteration.py:72 | under a one-hot policy the expected backup is the look-ahead of the policy's action |
| PolicyIter.EvaluateUniform | src/PolicyIteration.py:25-72 | under the starting ¼ policy the expected backup is the mean of the four look-aheads |
| PolicyIter.PolicyIteration.ImproveActions | src/PolicyIteration.py:100-112 | Q[s] becomes the look-ahead row of s against the current V, and nothing else changes |
| PolicyIter.PolicyIteration.WriteOneHot | src/PolicyIteration.py:118-119 | the policy row of s becomes one-hot on the given action and nothing else changes |
| PolicyIter.PolicyIteration.ImproveCell | src/PolicyIteration.py:92-123 | one cell of improvement: terminal cells skipped; otherwise Q[s] is the look-ahead row, the policy row is one-hot on its first argmax, and the flag is cleared when the old most probable action differs |
| PolicyIter.PolicyIteration.ImproveStep | src/PolicyIteration.py:91-123 | one column step of the improvement loop, as in the specification |
| PolicyIter.PolicyIteration.ImproveRow | src/PolicyIteration.py:90-123 | one row of the improvement loop, as in the specification |
| PolicyIter.PolicyIteration.PolicyImprovement | src/PolicyIteration.py:80-125 | Q is the improved table, the policy is greedy over it, and the result is true exactly when no cell's first most probable action changed |
| PolicyIter.ImproveSweepWhole | src/PolicyIteration.py:87-125 | the improvement loop gives the improved Q, the greedy policy over it, and a flag that says whether no choice changed |
| PolicyIter.ImproveSweepUpTo | src/PolicyIteration.py:90-123 | part way through the improvement loop, the tables and flag have their closed form at that point |
| PolicyIter.ImproveTwiceIsStable | src/PolicyIteration.py:97-123 | a second improvement against the same V reports stable and changes neither Q nor the policy |
| PolicyIter.PolicyIteration.EvaluateAndImprove | src/PolicyIteration.py:135-139 | one round of the main loop: evaluation, then improvement, as the round specification gives them |
| PolicyIter.PolicyIteration.Run | src/PolicyIteration.py:127-148 | the tables are those of the rounds the loop makes (up to max_iterations, stopping after the first stable round), and they are returned |
| PolicyIter.Round | src/PolicyIteration.py:135-139 | one round on values: evaluation, then improvement against the new V, and the stable flag; the tables keep covering the grid (what a round yields is stated by `PolicyIter.RoundIsGreedy` and `PolicyIter.StableIffUnchanged`) |
| PolicyIter.RunFrom | src/PolicyIteration.py:127-148 | the rounds of the main loop on values, stopping after the first stable round or the budget; the tables keep covering the grid (how it ends is stated by `PolicyIter.RunEndsStable` and `PolicyIter.RunEndsDeterministic`) |
| PolicyIter.RoundIsGreedy | src/PolicyIteration.py:93-119 | after a round each swept cell is one-hot on the first best look-ahead against the new V; goal and trap rows are unchanged |
| PolicyIter.StableIffUnchanged | src/PolicyIteration.py:121-125 | a round's policy is deterministic, and from a deterministic policy a round reports stable exactly when the policy did not change |
| PolicyIter.RunEndsDeterministic | src/PolicyIteration.py:134-148 | when at least one round is made, the final policy is deterministic |
| Iteration.After | src/PolicyIteration.py:134-139 | defines the state after j rounds made one after the other (its use is stated by `PolicyIter.TablesAfter`) |
| Iteration.Loop | src/PolicyIteration.py:134-146 | defines the state a loop ends on: rounds are made until one reports stop or the budget is spent (tied to the run by `PolicyIter.RunIsLoop`) |
| Iteration.Made | src/PolicyIteration.py:134-146 | a loop with budget left makes at least one round and at most its budget of rounds |
| Iteration.AfterKeeps | src/PolicyIteration.py:134-139 | a property every round keeps holds after any number of rounds |
| Iteration.LoopIsLastRound | src/PolicyIteration.py:134-146 | a loop ends on the result of its last round, made on the state after all earlier rounds |
| Iteration.LoopGoesOnBeforeLastRound | src/PolicyIteration.py:134-146 | every round before the last reported go on |
| Iteration.LoopStopsEarlyOnStop | src/PolicyIteration.py:134-146 | a loop that makes fewer rounds than its budget ends because its last round reported stop |
| PolicyIter.RoundStep | src/PolicyIteration.py:136-139 | on tables that cover the grid, a step of the loop is `Round` |
| PolicyIter.RunIsLoop | src/PolicyIteration.py:127-148 | the run on values is the loop of rounds, round for round |
| PolicyIter.AfterCovers | src/PolicyIteration.py:134-139 | the tables after any number of rounds still cover the grid |
| PolicyIter.TablesAfter | src/PolicyIteration.py:134-139 | the tables after j rounds made one after the other; they keep covering the grid |
| PolicyIter.RoundsMade | src/PolicyIteration.py:134-146 | a run with budget left makes at least one round and at most max_iterations − i |
| PolicyIter.RunIsLastRound | src/PolicyIteration.py:134-148 | the run's result is the result of its last round, made on the tables after all earlier rounds |
| PolicyIter.RunEarlierRoundsUnstable | src/PolicyIteration.py:134-146 | every round of the run before its last reported unstable |
| PolicyIter.RunEndsEarlyOnStable | src/PolicyIteration.py:134-146 | a run that makes fewer rounds than its budget ends on a round that reported stable |
| PolicyIter.RunEndsStable | src/PolicyIteration.py:134-148 | with m the rounds made (1 ≤ m ≤ max_iterations): the result is that of round m, made on the tables after the m − 1 rounds before it; each of those m − 1 rounds reported unstable; if m is below the budget, round m reported stable |
| QLearn.QLearning.constructor | src/Qlearning.py:5-27 | Q holds 0.0 for every cell and action |
| QLearn.EpsilonGreedy | src/Qlearning.py:39-44 | a draw below epsilon gives the oracle's action; otherwise the first action of largest Q |
| QLearn.NoExplorationIsGreedy | src/Qlearning.py:39-44 | with epsilon 0 the choice is always the first best action |
| QLearn.QLearning.ChooseAction | src/Qlearning.py:29-44 | the result is one of the four actions, chosen as `EpsilonGreedy` says, and greedy when the draw is not below epsilon |
| QLearn.TdValue | src/Qlearning.py:63 | defines `current + α·(reward + γ·maxNext − current)` (its meaning is stated by `QLearn.TdValueBetween`) |
| QLearn.TdValueBetween | src/Qlearning.py:63 | for α in [0,1] the new value lies between the old value and the target; it is the target when α is 1 and the old value exactly when α is 0 or the old value is the target |
| QLearn.TdUpdate | src/Qlearning.py:63 | the update keeps the table's keys |
| QLearn.TdUpdateChangesOneEntry | src/Qlearning.py:63 | the update writes Q[state][action] and leaves every other entry alone |
| QLearn.QLearning.UpdateQValue | src/Qlearning.py:46-63 | Q[state][action] becomes current + α·(reward + γ·max Q[next] − current) and nothing else changes; `done` plays no part |
| QLearn.QLearning.TakeStep | src/Qlearning.py:78-88 | one step of an episode: choose, step the lake, update, as the training-step specification gives it |
| QLearn.QLearning.RunEpisode | src/Qlearning.py:74-88 | an episode from `reset` that steps until a step reports done (or the fuel runs out), as the episode specification gives it |
| QLearn.QLearning.Train | src/Qlearning.py:65-97 | numEpisodes episodes from the start; Q and the lake's state are those of the training specification; nothing is returned |
| QLearn.TrainingStep | src/Qlearning.py:78-88 | one step of an episode on values: the epsilon-greedy choice, the clamped move, the TD update of the cell it leaves, and done when the new cell is goal or trap; the table keeps covering the grid and the position stays inside it (the class method `QLearn.QLearning.TakeStep` is proved against it) |
| QLearn.EpisodeFrom | src/Qlearning.py:77-88 | the steps of an episode until one reports done or the fuel runs out; the table keeps covering the grid and the position stays inside it (its stopping and the rows it never touches are stated by `QLearn.EpisodeEndsOnDone` and `QLearn.EpisodeKeepsTerminalRows`) |
| QLearn.TrainFrom | src/Qlearning.py:65-97 | the given number of episodes, each from the start; the table keeps covering the grid and the position stays inside it (the rows it never touches are stated by `QLearn.TrainingKeepsTerminalRows`) |
| QLearn.EpisodeEndsOnDone | src/Qlearning.py:77-88 | an episode takes at least one and at most fuel steps, and it ends before its fuel only on a step that reaches the goal or a trap |
| QLearn.EpisodeKeepsTerminalRows | src/Qlearning.py:77-88 | an episode never updates the Q row of the goal or a trap |
| QLearn.TrainingKeepsTerminalRows | src/Qlearning.py:72-88 | training never updates the Q row of the goal or a trap, because every episode starts on the non-terminal start cell |
| QLearn.GreedyActions | src/Qlearning.py:106-111 | every cell, goal and traps included, maps to a listed action that is the first of largest Q |
| QLearn.QLearning.GetOptimalPolicy | src/Qlearning.py:99-111 | the returned policy is the greedy action of every cell |
| QLearn.QLearning.PolicyRow | src/Qlearning.py:107-110 | one row of the extraction loop, as in the specification |
| Comparison.CountOneMore | test/AlgorithmsComparison.py:115-125 | visiting one more state adds it to the counted states unless it is goal or trap, and to the agreeing states when both first argmaxes agree |
| Comparison.CountState | test/AlgorithmsComparison.py:115-125 | the loop body keeps both counts equal to the sizes of the counted and agreeing states visited so far, with same ≤ total |
| Comparison.Similarity | test/AlgorithmsComparison.py:101-127 | defines the similarity as 100·(agreeing states)/(counted states) over the non-terminal keys of policy1, or 0 when none is counted (its range and symmetry are stated by the lemmas below) |
| Comparison.CalculatePolicySimilarity | test/AlgorithmsComparison.py:101-127 | the result is 100·(agreeing states)/(counted states) over the non-terminal keys of policy1, or 0 when none is counted |
| Comparison.SimilarityBounds | test/AlgorithmsComparison.py:127 | the similarity lies in [0, 100] and is 0 when no non-terminal state is visited |
| Comparison.PercentBounds | test/AlgorithmsComparison.py:127 | a share of at most all counted states is a percentage; all of them give 100 and none give 0 |
| Comparison.SimilarityToSelf | test/AlgorithmsComparison.py:119-127 | a policy compared with itself gives 100 when at least one non-terminal state is present |
| Comparison.SimilaritySymmetric | test/AlgorithmsComparison.py:115-125 | over the same key set the similarity does not depend on the order of the two policies |

## Left out

- Printing, progress messages, Q-table dumps and all of `Affichage` are not modelled.
- Floating point is not modelled: values are Dafny `real`, so there is no rounding and no IEEE-754 special value.
- The `-inf` that starts `best_action_value` and the `inf` that starts evaluation's `delta` are not modelled as values. The model takes the first action's value as the start of the maximum, and it always makes the first evaluation sweep, which is what those starting values achieve.
- PolicyIter.PolicyIteration.PolicyEvaluation: the source loops `while delta > theta` with no bound. The model stops after at most `fuel` sweeps, so an evaluation that has not converged within the fuel is cut short. That it eventually converges needs a contraction argument and is not proved.
- QLearn.QLearning.RunEpisode: the source loops until `done` with no bound. The model stops an episode after at most `fuel` steps, and that episodes end is not proved.
- QLearn.QLearning.Train inherits that per-episode fuel bound.
- PolicyIter.PolicyIteration.EvaluateAndImprove inherits the evaluation fuel bound of `PolicyEvaluation`: its evaluation stops after at most `fuel` sweeps.
- PolicyIter.PolicyIteration.Run inherits the same evaluation fuel bound in every round.
- PolicyIter.PolicyIteration.Run returns the values of the three tables. The source returns the live `self.policy`, `self.V` and `self.Q` dictionaries, so its caller holds aliases that later updates of the object would change; the model has no such aliasing.
- ValueIter.ValueIteration.Run returns the values of the three tables. The source returns the live `self.V`, `self.policy` and `self.Q` dictionaries, so its caller holds aliases; the model has no such aliasing.
- QLearn.QLearning.UpdateQValue requires that `state` and `next_state` are grid cells and that the action is one of the four. The source raises `KeyError` at `self.Q[state][action]` or `self.Q[next_state]` otherwise; that error path is not modelled, and every caller in the source passes such arguments.
- Comparison.CalculatePolicySimilarity requires `Comparable`: every counted state of policy1 has a row in policy2. The source raises `KeyError` at `policy2[state]` otherwise; that error path is not modelled.
- Comparison.Similarity requires `Comparable` for the same reason.
- QLearn.QLearning.ChooseAction: numpy's global random generator is not modelled. The exploration draw and the random action come from oracles indexed by the step count, so the model reads a random action on every step, where the source draws one only when it explores.
- Grid sizes below 7 are not modelled. The constructor requires `size >= 7`, because a smaller grid makes `_create_grid` index outside the array (trap (0,6)) and raise.
- Comparison.CalculatePolicySimilarity: the source visits `policy1`'s keys in dictionary order. The model visits them in an unspecified order, and the result does not depend on the order.
- Comparison.CalculatePolicySimilarity: the source returns the integer 0 when nothing is counted. The model returns `0.0`.
- The other functions of the comparison script and the test scripts under `test/` are not part of this model. They are plotting, timing and harness code.
