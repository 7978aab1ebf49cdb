# Value iteration over finite MDPs, modelled in Dafny

The repository solves finite Markov decision processes by value iteration. This project models its
core in Dafny and proves properties of the model:

- **`solver.py`** (modules `ValueTables`, `Solver`) — the current engine.
  - `ValueIterator.iterate` is one sweep of Bellman backups. The five subclasses (`ClassicVI`,
    `RandomVI`, `EmpiricalVI`, `CyclicVI`, `RandomCyclicVI`) choose the visited states and the update
    rule: `AFTER_SWEEP` writes a copy of the table, `DURING_SWEEP` writes the live table.
  - The per-state win counters feed `EmpiricalVI.get_empirical_prob`.
  - `Solver.solve` is the convergence loop that records one delta and one duration per sweep.
- **`mdp.py`** (module `MdpModels`) — the two MDP instances.
  - TicTacToe over 9-character boards holds every board `itertools.product` yields. It defines
    `winner`, `tie` and `condition`, the pawn choice of `actions`, and `transition`, which spreads
    probability uniformly over the opponent's replies.
  - GridWorld on an n-by-n grid memoises its action lists. Its reward cell is the corner
    `(0, n - 1)`.
  - Both use the list helpers `find_indices` and `replace_char`.
- **`value_iteration_deprecated.py`** (module `DeprecatedVI`) — the first engine generation.
  - One object per discipline holds `gamma = 0.9` and `sample_rate`.
  - Its `run(V_new)` sweeps a game's dictionary table `V`. The snapshot engines finish with
    `game.V = copy.deepcopy(V_new)`; the in-place engines write `game.V` directly.
  - `VISimulation.simulate` repeats `run` until the delta drops below `theta`.
- **`value_iteration.py`** (module `DenseVI`) — the dense-matrix engines.
  - They read `rewards[s]` and `probs[s][s_next][a]` over index states.
  - The value list `V` is an `array<real>`, so the classic engine's `game.V = V_new` is a reference
    assignment that aliases the game to the scratch list.
  - The sampling engines sum only over the sampled states.
- **`game.py`** (module `Game`) — game data and the interactive board.
  - The constant data of `SimpleGame`.
  - The interactive 3x3 `TicTacToe` board, with `mark`, `_is_over` and `__str__`.
  - `Player`.
- **`Text`** — the decimal rendering of integers used by the display strings.
- **`Wrappers`** — `Option` and `Result`.

Each sweep method is proved against a specification function of the old state. Both engine
generations follow this pattern:
- `DeprecatedVI.SnapshotPass`, `DeprecatedVI.InPlacePass`, `DenseVI.SnapshotFold` and
  `DenseVI.InPlaceFold` specify the sweeps.
- `Solver.Sweep` specifies `iterate`.

Lemmas then relate these functions to a reference definition:
- For the engines over maps and for the solver, this is the Bellman backup `ValueTables.Backup`
  and the largest absolute change `ValueTables.MaxAbsDiff`.
- For the dense engines, it is the dense backup `DenseVI.DenseBackup` and the largest change over
  the visited states (`DenseVI.SnapshotFoldDelta`, and `DenseVI.LargestChange` for the in-place
  sweeps over distinct states).

Behaviour modelled as the code has it, including where it departs from the design description:
- **The value floor is 0.** Every backup starts `max_val` (or `max_cost`) at 0. A state without
  actions therefore backs up to 0, not to its reward (`ValueTables.BackupNoActions`). Negative
  backups are clipped to 0.
- **`steps = n` runs n + 1 sweeps.** `Solver.solve` loops while `step <= steps`. In threshold mode
  it stops at the first delta at most the threshold (`deltas[-1] > threshold` is the guard).
  `simulate` stops at the first delta strictly below `theta`.
- **`EmpiricalVI` does not sample actions.** It multiplies the discounted future of every action by
  `counter[last key] / total`; the loop `for (action, count) in counter.items()` shadows the
  argument `action`. A state with no history gets 1.
- **The policy comes from the last sweep.** It is the tie-preserving list `A` of the last call of
  `iterate`, computed against the table before that sweep.
- **Deltas of the sampling engines cover every state.** The snapshot `RandomValueIteration` of
  `value_iteration_deprecated.py` measures every state against `V_new`, including unsampled ones
  whose `V_new` entry is stale. `solver.py` measures the delta over every state of the table.
- **The sample size truncates.** It is `int(sample_rate * len(states))`, truncated toward zero
  (`ValueTables.Trunc`). An out-of-range size makes `random.sample`'s error an `Err` result.
- **The opponent is always `"O"`.** `TicTacToe.__init__` sets it that way, so with player `"O"` a
  loss is never reported (`MdpModels.PlayerONeverLoses`).
- **In `_is_over` the last check wins.** Each `&=` loop restarts from `True`, so the check that runs
  last decides. The column check never decides, and a completed column is missed
  (`Game.ColumnWinMissed`).
- **The dense engines alias and stall.**
  - The dense `ClassicValueIteration` leaves `game.V` bound to `V_new`.
  - The dense `RandomValueIteration` ends with `V = V_new`, which rebinds a local name only. That
    engine therefore never changes `game.V` (`DenseVI.RandomLeavesValues`,
    `DenseVI.RandomStalls`).

Inputs that the code takes from the environment become parameters:
- the samples `random.sample` returns, as sequences of distinct indices;
- the wall-clock durations of the sweeps, as a function `elapsed(i)`;
- the bound on threshold-mode sweeps, as `fuel`.

## Model

| member | source | states |
|---|---|---|
| Solver.Iterator.Rule | solver.py:87-145 | `ClassicVI`, `RandomVI` and `EmpiricalVI` update after the sweep; `CyclicVI` and `RandomCyclicVI` update during it |
| Solver.NameInjective | solver.py:107-109 | distinct iterators have distinct `name`s; `RandomVI` names differ in `k` |
| Solver.GetStates | solver.py:87-141 | fails exactly for `RandomVI` with `k` outside `0..len(states)`; deterministic iterators return the state list itself; `RandomVI` returns `k` states; `RandomCyclicVI` visits every state |
| Solver.Increment | solver.py:63 | `counter[a] += 1` adds one to `a`, changes no other count, and appends `a` to the key order only when it is new |
| Solver.Store | solver.py:63 | writing a state's counter changes that state's counter only |
| Solver.SumCountsAtLeast | solver.py:122-124 | the accumulated `total` is at least the count of any key it sums |
| Solver.RatioInUnit | solver.py:125 | a positive count over a total at least as large lies in (0, 1] |
| Solver.EmpiricalProbOf | solver.py:118-125 | the empirical weight lies in (0, 1], and is 1 for every iterator but `EmpiricalVI` and for a state without history |
| Solver.EmpiricalProb | solver.py:118-125 | the counting loop returns the empirical weight of the state's counter, whatever the action argument |
| Solver.ScanNext | solver.py:59-65 | one action appends its cost and raises `max_cost` to at least that cost |
| Solver.ScanNextKeepsMax | solver.py:59-62 | one more action keeps `max_cost` the 0-floored maximum of the costs so far |
| Solver.ScanActions | solver.py:49-65 | after the action loop, `max_cost` is non-negative, at least every cost, and either 0 or one of the costs |
| Solver.ScanNextCounts | solver.py:59-63 | one action raises its own win count by one exactly when its cost is at least the running `max_cost`, and changes no other count |
| Solver.ScanCountsGrow | solver.py:51-63 | win counts never decrease, and only scanned actions gain wins |
| Solver.Best | solver.py:67 | `max(costs, default=(0, ...))[0]` is a largest cost, or 0 when there is none |
| Solver.Filter | solver.py:70 | keeps exactly the actions whose cost equals the given value |
| Solver.TiesAreMaximal | solver.py:67-71 | `A[state]` holds exactly the actions of maximal cost, ties included, and is empty only without actions |
| Solver.ScanExtends | solver.py:51-65 | the scan of one more action appends its cost and takes the new maximum |
| Solver.ScanStep | solver.py:51-65 | the scan of j + 1 actions is the scan of j followed by one step |
| Solver.ScanCostsAreQ | solver.py:53-57 | outside `EmpiricalVI`, each recorded cost is the Bellman q-value of its action |
| Solver.ScanIsBellman | solver.py:50-59 | outside `EmpiricalVI`, `max_cost` equals the reference backup over the actions |
| Solver.EmpiricalCostScales | solver.py:56-57 | `EmpiricalVI` keeps the reward and scales the discounted future by a weight in (0, 1] |
| Solver.CostOfAction | solver.py:53-57 | the successor loop computes the action's cost under the current counter |
| Solver.ScanOne | solver.py:51-65 | one pass of the action loop advances the scan by one action and stores the counter |
| Solver.BackupState | solver.py:49-71 | the action loop yields the scan's costs, `max_cost` and updated counter |
| Solver.SweepTurn | solver.py:48-77 | one state of the sweep keeps every counter well formed |
| Solver.Sweep | solver.py:41-83 | the sweep keeps the table's key set and well-formed counters |
| Solver.SweepStepReady | solver.py:48-77 | before each visited state, its successors are in the table it reads |
| Solver.SweepExtends | solver.py:48-77 | sweeping one more state is one more turn on the previous sweep |
| Solver.Iterate | solver.py:41-83 | `iterate` fails exactly when `get_states` fails, and otherwise returns the sweep over the drawn states |
| Solver.SweepOne | solver.py:48-77 | one loop turn extends the swept prefix by one state |
| Solver.SweptStart | solver.py:42-44 | before the loop, both tables are `V_0`, `A` is empty and the counters are as given |
| Solver.SweptAll | solver.py:79-83 | after the loop, the returned table (`V` or `V_copy` by update rule), `A` and the counters are the whole sweep |
| Solver.SweepStates | solver.py:42-83 | the loop over the visited states returns the specified sweep |
| Solver.SweepLast | solver.py:71-77 | the last visited state is the only entry the last turn writes; its value is non-negative and it gains a policy entry |
| Solver.SweepLeavesUnvisited | solver.py:48-77 | unvisited states keep their value, and the policy holds exactly the visited states |
| Solver.SweepNonNegative | solver.py:74-77 | a non-negative table stays non-negative |
| Solver.SnapshotSweepIsBellman | solver.py:76-77 | under `ClassicVI` and `RandomVI`, each visited state gets the reference backup of the pre-sweep table |
| Solver.InPlaceSweepIsGaussSeidel | solver.py:73-74 | under the cyclic iterators, the i-th visited state is backed up against the table already updated for the earlier ones |
| Solver.DeltaFromVisited | solver.py:175 | the delta is 0 or the change of a visited state |
| Solver.Zeros | solver.py:159 | the initial table maps every state to 0 |
| Solver.Times | solver.py:180-181 | `time_each_step[i]` is the duration of sweep i |
| Solver.AboveExtends | solver.py:167 | a delta above the threshold lets the threshold loop continue |
| Solver.BeforeAppend | solver.py:170-185 | appending a sweep leaves the earlier loop states unchanged, and the new loop state is its output |
| Solver.RunExtends | solver.py:170-185 | appending the next `iterate` call and its delta keeps the trace a run of the loop |
| Solver.RunDeltasNonNegative | solver.py:175-176 | every recorded delta is non-negative |
| Solver.SolveStep | solver.py:170-176 | one pass calls `iterate` on the carried tables and measures the delta over all states; it fails on a bad sample size or an empty state list |
| Solver.Advance | solver.py:168-185 | one pass appends one delta and one duration and carries the new table, policy and counters |
| Solver.RunSolve | solver.py:157-192 | fails exactly when both or neither of `steps` and `threshold` is given; `steps = n` runs n + 1 sweeps (none for negative n); threshold mode stops at the first delta at most the threshold; the results are the loop's |
| Solver.Solver.constructor | solver.py:148-155 | the solver stores its iterator, MDP and gamma, and every result field starts empty |
| Solver.Solver.Solve | solver.py:157-192 | on success, it stores the values, policies, deltas and times the loop carried over its sweeps, each sweep being `iterate` on the previous tables; n + 1 sweeps for `steps = n`; in threshold mode it stops at the first delta at most the threshold, all earlier ones above it; deltas and values are non-negative; each error comes from its cause, and on an error nothing changes |
| ValueTables.SuccSumScales | solver.py:57 | the successor sum is linear in the empirical weight |
| ValueTables.MaxQ | value_iteration_deprecated.py:24-31 | `max_val` is non-negative, at least every q-value, and either 0 or one of them |
| ValueTables.BackupNoActions | value_iteration_deprecated.py:24-32 | a state without actions backs up to 0, whatever its reward |
| ValueTables.MaxAbsDiff | solver.py:175 | the delta is non-negative, bounds every change, and is 0 or one of the changes |
| ValueTables.MaxAbsDiffUnchanged | solver.py:175 | only states whose values differ can set the delta |
| ValueTables.Trunc | value_iteration_deprecated.py:46 | `int()` truncates toward zero |
| ValueTables.Pick | solver.py:101 | a sample lists the states at the drawn positions, in draw order |
| ValueTables.FullSampleCoversAll | solver.py:141 | a sample of size `len(states)` draws every position |
| ValueTables.FullSamplePermutes | solver.py:141 | such a sample visits exactly the states of a full sweep, each as often as the full sweep does (the same multiset) |
| ValueTables.FullSampleMultiset | solver.py:141 | a full sample picks a permutation of the states |
| Text.NatToString | solver.py:109 | a natural number prints as decimal digits with no leading zero |
| Text.IntToString | game.py:104 | printing an integer starts with a minus sign exactly when it is negative |
| Text.ParseNatToString | solver.py:109 | reading back the printed digits gives the number |
| Text.NatToStringInjective | solver.py:109 | different naturals print differently |
| Text.IntToStringInjective | game.py:104 | different integers print differently |
| MdpModels.Indices | mdp.py:23-28 | exactly the positions holding the item, in increasing order |
| MdpModels.IndicesCount | mdp.py:57-59 | there are as many blank positions as `count` reports |
| MdpModels.FindIndices | mdp.py:23-28 | the `enumerate` loop collects exactly the matching positions, in order |
| MdpModels.SliceBound | mdp.py:31 | a slice bound is clipped to the string |
| MdpModels.ReplaceChar | mdp.py:30-31 | writes the character at an index inside the string, and appends it at an index past the end |
| MdpModels.ReplaceCharInRange | mdp.py:30-31 | inside the string, the length is kept and only the given cell changes |
| MdpModels.Prefixed | mdp.py:137 | prefixes one mark to every board, in order |
| MdpModels.AllBoardsCount | mdp.py:137 | the product yields 3^n boards |
| MdpModels.AllBoardsSound | mdp.py:137 | each enumerated board has n cells, each `X`, `O` or `-` |
| MdpModels.AllBoardsComplete | mdp.py:137 | every board of n marks is enumerated |
| MdpModels.AllBoardsExactly | mdp.py:121-139 | `generate_states` yields exactly the 3^n boards of n marks |
| MdpModels.UnreachableBoardsAreStates | mdp.py:126-139 | with the validity filter switched off, unreachable boards are states too |
| MdpModels.NewTicTacToe | mdp.py:43-47 | the opponent is `"O"` whatever the player, and the states are all 9-cell boards of marks |
| MdpModels.WinnerCells | mdp.py:142-161 | `winner` compares the three column slices, the three row slices and both diagonals |
| MdpModels.LineMakesWinner | mdp.py:142-161 | a line held by the player makes `winner` true |
| MdpModels.WinnerHasLine | mdp.py:142-161 | when `winner` is true, some line is held |
| MdpModels.WinnerIffLine | mdp.py:142-161 | `winner` holds exactly when some column, row or diagonal is all the player's |
| MdpModels.TieLeavesOneBlank | mdp.py:163-175 | a tie on a board of marks leaves exactly one blank |
| MdpModels.Condition | mdp.py:178-192 | `condition` never answers `INVALID` |
| MdpModels.ConditionPriority | mdp.py:178-192 | WIN exactly for a player win; LOSE exactly for an opponent win without a player win; TIE exactly for a tie; CONTINUE otherwise |
| MdpModels.PlayerONeverLoses | mdp.py:43-47 | with player `"O"`, LOSE is never reported |
| MdpModels.MarkEach | mdp.py:67-69 | one board per position, each with the mark written there |
| MdpModels.Actions | mdp.py:50-72 | the method computes the action list of the state |
| MdpModels.ActionsFillBlanks | mdp.py:56-72 | during a game there is one action per blank, in cell order, each placing the pawn in that blank |
| MdpModels.Transition | mdp.py:75-96 | the method computes the successor list of the state and action |
| MdpModels.FinishedGameLoops | mdp.py:78-80 | a finished game stays put with probability 1 |
| MdpModels.TransitionFillsBlanks | mdp.py:86-92 | during a game there is one successor per blank of the action, each with the opponent's mark there |
| MdpModels.SharesSumToOne | mdp.py:96 | n shares of 1/n add up to 1 |
| MdpModels.TransitionSumsToOne | mdp.py:96 | a non-empty successor list has probabilities summing to 1 |
| MdpModels.Reward | mdp.py:99-114 | 1 exactly for a player win, -1 exactly for LOSE, 0 exactly for TIE or CONTINUE |
| MdpModels.Share | mdp.py:119 | `1 / n` is positive and n of them make 1 |
| MdpModels.Uniform | mdp.py:119 | maps exactly the listed actions, each to `1 / len` |
| MdpModels.DistinctKeys | mdp.py:119 | without duplicates, the comprehension has one key per action |
| MdpModels.Prob | mdp.py:117-119 | `prob` maps exactly the state's actions, each to `1 / len(actions)` |
| MdpModels.ProbIsDistribution | mdp.py:117-119 | the actions are distinct keys, each with mass 1/len of the key count |
| MdpModels.TicTacToeClosed | mdp.py:75-96 | for player `X` or `O`, every successor of every action is a state, so no lookup misses |
| MdpModels.GridStatesExactly | mdp.py:202 | the grid has n·n states: exactly the pairs with both coordinates in 0..n-1 |
| MdpModels.MovesExactly | mdp.py:210-221 | each direction is offered exactly when the move stays on the grid, and none twice |
| MdpModels.GridWorld.constructor | mdp.py:199-204 | the grid's states are the row-major pairs, `V` is zero on them, and the action memo starts empty |
| MdpModels.GridWorld.Actions | mdp.py:206-225 | returns the on-grid moves, cached or not, and memoises them for the state |
| MdpModels.GridWorld.Transition | mdp.py:227-240 | the four directions give one successor with probability 1.0; any other string gives `None` |
| MdpModels.GridWorld.Reward | mdp.py:242-247 | 1 exactly in the corner `(0, n - 1)`, 0 elsewhere |
| MdpModels.GridWorld.Prob | mdp.py:250-252 | `prob` is uniform over the state's moves, which it memoises |
| MdpModels.MovesStayInGrid | mdp.py:227-240 | every legal move leads to an adjacent cell that is a state |
| MdpModels.GridProbIsDistribution | mdp.py:250-252 | each legal move gets 1/len of the mass, over len distinct keys |
| MdpModels.OneRewardingState | mdp.py:242-247 | on a non-empty grid, the corner is the only rewarding state |
| DeprecatedVI.NamesDistinct | value_iteration_deprecated.py:19-85 | the four `__str__` labels differ |
| DeprecatedVI.SnapshotPass | value_iteration_deprecated.py:21-58 | the snapshot sweep keeps the scratch keys and yields a non-negative delta |
| DeprecatedVI.InPlacePass | value_iteration_deprecated.py:67-104 | the in-place sweep keeps the table's keys and yields a non-negative delta |
| DeprecatedVI.SnapshotWrites | value_iteration_deprecated.py:47-57 | a sampled visited state holds its backup against the old table; every other key keeps its `V_new` value |
| DeprecatedVI.SnapshotDelta | value_iteration_deprecated.py:47-58 | the delta is the largest change between the old table and `V_new`, stale entries included |
| DeprecatedVI.InPlaceUnpicked | value_iteration_deprecated.py:92-104 | the in-place sweep changes no state outside the sample |
| DeprecatedVI.InPlaceKeepsEarlier | value_iteration_deprecated.py:69-80 | over distinct states, later turns leave earlier states' entries as written |
| DeprecatedVI.InPlaceDelta | value_iteration_deprecated.py:69-80 | over distinct states, the delta is the largest change between the tables before and after |
| DeprecatedVI.Step | value_iteration_deprecated.py:21-105 | `run` fails exactly on an out-of-range sample size; snapshot engines leave `game.V` equal to `V_new`; in-place engines ignore `V_new` and keep the keys; the delta is non-negative |
| DeprecatedVI.ClassicBacksUpAll | value_iteration_deprecated.py:21-36 | `ClassicVI` backs every state up against the old table, and its delta is the largest change |
| DeprecatedVI.RandomBacksUpSampled | value_iteration_deprecated.py:42-61 | `RandomVI` backs up exactly the sampled states; the others take their `V_new` value; the delta is the largest difference |
| DeprecatedVI.InPlaceChangesSampled | value_iteration_deprecated.py:67-105 | over distinct states, in-place engines change only sampled states; the delta is the largest change, 0 or set by a sampled state |
| DeprecatedVI.StepKeepsReady | value_iteration_deprecated.py:111-121 | a successful `run` leaves the tables ready for the next one, given that every successor is a state or a key of `V_new` for the snapshot engines |
| DeprecatedVI.ValueIteration.constructor | value_iteration_deprecated.py:9-12 | stores the game and sample rate, with gamma fixed at 0.9 |
| DeprecatedVI.ValueIteration.ActionValue | value_iteration_deprecated.py:26-28 | the successor loop computes the action's q-value |
| DeprecatedVI.ValueIteration.BackupValue | value_iteration_deprecated.py:24-31 | the action loop computes the 0-floored Bellman backup |
| DeprecatedVI.ValueIteration.SnapshotSweep | value_iteration_deprecated.py:47-58 | the snapshot loop computes the specified pass |
| DeprecatedVI.ValueIteration.InPlaceSweep | value_iteration_deprecated.py:92-104 | the in-place loop leaves `game.V` and delta as the specified pass |
| DeprecatedVI.ValueIteration.Run | value_iteration_deprecated.py:21-105 | `run` returns the step's delta and leaves `game.V` as the step specifies; an error changes nothing |
| DeprecatedVI.ZeroGrid | value_iteration_deprecated.py:114-115 | `V_new` maps the 25 cells of the 5x5 grid to 0 |
| DeprecatedVI.ChainExtends | value_iteration_deprecated.py:116-121 | a further successful sweep extends the trace |
| DeprecatedVI.Advance | value_iteration_deprecated.py:116-121 | one loop turn calls `run` and extends the trace, or fails, leaving `game.V` unchanged |
| DeprecatedVI.Simulate | value_iteration_deprecated.py:111-121 | at most `max_iter` sweeps; every delta but the last is at least `theta`; it stops at `max_iter` or the first delta below `theta`; the deltas are the sweeps' results; a failed run leaves `game.V` unchanged |
| DenseVI.MaxOver | value_iteration.py:17-22 | `max_val` is non-negative, at least every action's value, and either 0 or one of them |
| DenseVI.SnapshotFold | value_iteration.py:13-44 | the snapshot sweep keeps the list length and yields a non-negative delta |
| DenseVI.InPlaceFold | value_iteration.py:46-77 | the in-place sweep keeps the list length and yields a non-negative delta |
| DenseVI.SnapshotFoldWrites | value_iteration.py:34-41 | each visited index holds its backup against the old list; others keep the scratch value |
| DenseVI.SnapshotFoldDelta | value_iteration.py:34-42 | the delta is the largest change of a visited state, or 0 when none is visited |
| DenseVI.InPlaceFoldUnvisited | value_iteration.py:66-77 | unvisited indices keep their value |
| DenseVI.InPlaceFoldKeepsEarlier | value_iteration.py:67-76 | over distinct states, each visited state holds the backup computed against the list as it stood when the sweep reached it |
| DenseVI.InPlaceFoldKeepsAt | value_iteration.py:67-76 | the same for the `k`-th visited state |
| DenseVI.InPlaceFoldLaterTurn | value_iteration.py:67-75 | over distinct states, the last turn neither overwrites an earlier visited state nor changes the list it found on arrival |
| DenseVI.InPlaceFoldDelta | value_iteration.py:67-77 | over distinct states, the delta is the largest change the sweep makes at a visited state, or 0 when none is visited |
| DenseVI.LargestChangeExtend | value_iteration.py:74-75 | writing a state not visited before and raising the maximum by its change keeps the delta the largest change |
| DenseVI.VisitDistinct | value_iteration.py:66 | over distinct states, a sample visits distinct states |
| DenseVI.DenseStep | value_iteration.py:13-77 | fails exactly on an out-of-range sample size; `ClassicVI` leaves `game.V` equal to `V_new`; `RandomVI` leaves `game.V` unchanged; in-place engines ignore `V_new` |
| DenseVI.RandomLeavesValues | value_iteration.py:43 | `V = V_new` does not change `game.V` |
| DenseVI.SnapshotStep | value_iteration.py:13-44 | snapshot engines write the backups of the visited states, summed over them alone, and report the largest change |
| DenseVI.InPlaceStep | value_iteration.py:46-77 | in-place engines change only the visited states; over distinct states each visited state holds its backup on arrival and the delta is the largest change, or 0 |
| DenseVI.DenseValueIteration.constructor | value_iteration.py:5-7 | stores the game and the sample rate |
| DenseVI.DenseValueIteration.ActionValue | value_iteration.py:19-21 | the successor loop computes the reward plus the discounted expectation |
| DenseVI.DenseValueIteration.BackupValue | value_iteration.py:17-22 | the action loop computes the dense backup |
| DenseVI.DenseValueIteration.SnapshotSweep | value_iteration.py:34-42 | the snapshot loop computes the specified fold |
| DenseVI.DenseValueIteration.InPlaceSweep | value_iteration.py:67-76 | the in-place loop computes the specified fold |
| DenseVI.DenseValueIteration.Run | value_iteration.py:13-77 | `run` returns the step's delta and leaves `V` and `V_new` as specified; after `ClassicVI`, `game.V` is `V_new` itself |
| DenseVI.Zeros | value_iteration.py:86-88 | a fresh list of five zeros |
| DenseVI.RandomStalls | value_iteration.py:28-44 | under `RandomVI`, every sweep starts from the initial table |
| DenseVI.DenseStepKeepsReady | value_iteration.py:87-94 | the table a sweep leaves is ready for the next draw |
| DenseVI.DenseAdvance | value_iteration.py:88-91 | one loop turn makes a fresh `V_new`, calls `run` and extends the trace |
| DenseVI.DenseSimulate | value_iteration.py:83-94 | at most `max_iter` sweeps, stopping at the first delta below `theta`; the deltas are the sweeps' results; a failed run leaves `game.V` and its contents unchanged |
| Game.NewSimpleGame | game.py:23-35 | five states, actions, rewards and values, and a 5x5 transition table with two entries per cell |
| Game.SimpleGameStochastic | game.py:26-34 | every action out of a state other than 2 distributes mass 1; state 2 sends none; rewards are -1, except 10 in state 2; gamma is 0.9 |
| Game.Player.ToString | game.py:103-104 | `str(player)` starts with `"Player "` |
| Game.PlayerLabelsDiffer | game.py:103-104 | players with different names print differently |
| Game.LastCheckSound | game.py:72-96 | whenever `_is_over` reports the end, the mark owns a full line |
| Game.ColumnWinMissed | game.py:73-81 | a completed column is not reported: the column result is always overwritten |
| Game.Rendered | game.py:44-52 | the board prints as three rows of three marks, each followed by a newline |
| Game.Board.constructor | game.py:38-42 | a new board is all blanks, with all nine positions remaining and the game not over |
| Game.Board.ToString | game.py:44-52 | the loops produce the rendered board |
| Game.Board.IsOver | game.py:72-96 | the result and `is_over` are the last check that runs; the free cells are untouched |
| Game.Board.Mark | game.py:54-70 | refuses a finished game, an out-of-range cell or a taken cell, changing nothing; otherwise writes the mark, drops the cell and reports a win, a tie or continue |
| Game.TieMeansFull | game.py:67-68 | with the free cells tracked, `"Tie."` comes only on a full board |

## Left out

- Plotting and printing (`plot_delta`, `plot_time`, the `print` and `plt` calls of both simulations), and the module-level scripts: output only.
- Wall-clock time: `time.time()` becomes the parameter `elapsed(i)`, the duration of sweep i.
- The distribution of `random.sample`: a sample is an input, any sequence of distinct positions of the requested size.
- Floating point: values, probabilities and deltas are exact `real`s, so rounding in sums and the `1.0 / len` shares is not modelled.
- `copy.deepcopy`: tables are values, so a copy is the value itself.
- The abstract base classes, and the `Game` base class accessors of `game.py`: interfaces without behaviour of their own.
- The dense game: `value_iteration.py` reads `game.states`, `game.actions`, `game.rewards[s]`, `game.probs`, `game.gamma` and a list `game.V`, and `SimpleGame` supplies none of `rewards[s]`, `probs` or `V` in that form. The dense engines are modelled on that interface (`DenseVI.Dense`).
- Solver.RunSolve: threshold mode is bounded by `fuel` sweeps, and running out is an `Err(FuelExhausted)` the source does not have, because the source loop need not terminate.
- Solver.Solver.Solve: inherits the `fuel` bound of `Solver.RunSolve`.
- Solver.Iterate: requires every successor to be a state, so the `KeyError` a missing successor raises is not modelled.
- DeprecatedVI.ValueIteration.Run: requires more keys than a sweep reads, so a `KeyError` is not modelled. `game.V` must hold every state and every successor of every state, including states a sampling engine leaves unsampled. For `RandomVI`, `V_new` must hold every state, although only the unsampled states are read from it before they are written.
- DeprecatedVI.Simulate: requires the keys of every sweep to be present whatever `max_iter`, `theta` and the draws are, so a run that stops before it would read a missing key is not modelled.
- DenseVI.InPlaceStep: the backup-on-arrival and largest-change facts are stated for distinct states; over repeated states only the unvisited entries are described.
- DenseVI.DenseValueIteration.Run: requires every index the sweep reads to be in range, so an `IndexError` is not modelled; negative Python indices are not modelled either.
- MdpModels.Actions: requires a 9-character board, the length every state has; `winner` indexes cells 0 to 8, and other strings are not modelled.
- MdpModels.ReplaceChar: the contract states the in-range and past-the-end cases only. The body also follows Python's slices for negative indices, but no contract describes that.
- MdpModels.ProbIsDistribution: requires that neither mark is the blank, so that the actions are distinct keys.
- The `func` argument of `condition`: it is used only by commented-out prints.
- Game.Player.ToString: the name is an integer (`Player(1, "O")`); other name types are not modelled.
- Game.Board.Mark: a mark is one character, and the player is passed as a `Player` value.
- Draw order within `RandomCyclicVI`: a full-size sample is proved to visit every state (`ValueTables.FullSamplePermutes`), and sweep results depend on the given order.
