# Local-search engine and problem moves, in Dafny

This project models the sequential core of the `local_search` teaching package, a
framework of local-search algorithms (hill climbing, simulated annealing) that run over
pluggable problems (graph colouring, the travelling salesman, magic squares, a polygon
avatar) and a test "sum" problem.

- **Problem** (`problem.dfy`): a problem as the algorithms see it is a goal (an integer
  objective and a MIN/MAX direction) and a move generator, given by the states its
  available moves lead to. `Improvement` is the sign-normalised difference that every
  algorithm compares states with. `validate_data` and `asdict` are modelled too.
- **Naming** (`camel_to_snake.dfy`): the class-name to registry-key conversion.
- **MoveGenerator** (`move_generator.dfy`): the default `random_moves`, which returns
  the available moves in the order of a random sample without replacement.
- **ClimbRules** (`climb_rules.dfy`): the four hill-climbing selection rules (best, worst,
  first, random). Each rule has a specification function for what its loop ends with,
  lemmas saying what that result means, and a method with the source's loop proved to
  compute it.
- **HillClimbing** (`hill_climbing.dfy`): the search engine's state machine as a class,
  with these fields:
  - the best state and the best objective;
  - the steps since the last improvement;
  - the subscribers;
  - the escape counter and the escape weights.

  `NextState` is one call of `next_state`. Every subscriber hook call is recorded, in
  order, in `notifications`. Random draws are parameters.
- **SimulatedAnnealing** (`simulated_annealing.dfy`): the temperature schedule, the
  counter of optima found and the heat and restart resets.
- **GraphColoringState / Goals / Moves / Problem**: covers these parts of the graph-colouring problem:
  - colouring equality;
  - the per-colour counters and the three objectives;
  - the change-colour and Kempe-chain moves and their enumeration;
  - the adjacency built from the edge list;
  - the greedy initial colouring;
  - `cost_for`.

  `GraphColoringProblem._bad_edges` and `_color_classes` are the same loops as the goal
  base class's. `GraphColoringGoals.BadEdges` and `GraphColoringGoals.ColorClasses`
  model both.
- **TravelingSalesman** (`tsp.dfy`): covers the following:
  - the 2-opt move and its index ranges;
  - the two- and three-edge swaps;
  - the cyclic edge list;
  - route equality;
  - the initial route;
  - the `asdict`/`from_dict` round trip.
- **LimitedAvatarPolygon** (`polygon.dfy`): the polygon's in-place colour change modulo
  256 and its vertex shift, over `Color` and `Vertex` objects.
- **MagicSquareMoves** (`magic_square.dfy`): the enumeration of swaps by
  `permutations(range(n), 4)` with its filter.
- **BoundedHistory** (`history.dfy`): the bounded `History` buffer.
- **MockSumProblem** (`mock.dfy`): the test "sum" problem.

Python's list indexing accepts negative indices, which count from the end. The model
writes this out wherever the source indexes with a value it does not control
(`Slot`, `InRange`). An index error is modelled as `None` where the source can raise
it for inputs its callers pass.

## Model

| member | source | states |
|---|---|---|
| Problem.GoalType.Value | local_search/problems/base/goal.py:5-7 | MIN has a negative value and MAX a positive one, each of magnitude 1 |
| Problem.Improvement | local_search/problems/base/problem.py:46-53 | positive exactly when the new state's objective is lower (MIN) or higher (MAX) than the old one's; zero exactly when the objectives are equal |
| Problem.ImprovementOfItself | local_search/problems/base/problem.py:51-53 | a state does not improve on itself |
| Problem.ImprovementAntisymmetric | local_search/problems/base/problem.py:51-53 | improvement(a, b) is minus improvement(b, a) |
| Problem.ImprovementAdditive | local_search/problems/base/problem.py:51-53 | improvements add up along a chain of three states |
| Problem.ValidateData | local_search/problems/base/problem.py:98-107 | passes exactly when every constructor parameter is a key of the data; otherwise reports exactly the missing parameters, never none |
| Problem.AsDict | local_search/problems/base/problem.py:88-96 | exactly the keys name, goal_name and move_generator_name, each the snake-case name of its class and free of capitals |
| Naming.InsertUnderscores | local_search/helpers/camel_to_snake.py:5 | the substitution lengthens the text by one underscore per capital letter |
| Naming.Substitute | local_search/helpers/camel_to_snake.py:5 | the first character is kept as it is, capital or not, and one underscore is added per capital after it |
| Naming.LowerAll | local_search/helpers/camel_to_snake.py:5 | `lower()` keeps the length, lowers each character and leaves no capital |
| Naming.CamelToSnake | local_search/helpers/camel_to_snake.py:4-5 | the result has no capital, and its length grows by the number of capitals after the first character |
| Naming.InsertUnderscoresNoUpper | local_search/helpers/camel_to_snake.py:5 | text without capitals gets no underscore |
| Naming.CamelToSnakeOfLowercase | local_search/helpers/camel_to_snake.py:4-5 | a name already in snake case comes back unchanged |
| Naming.CamelToSnakeIdempotent | local_search/helpers/camel_to_snake.py:4-5 | converting twice equals converting once |
| Naming.CamelToSnakeExample | local_search/helpers/camel_to_snake.py:4-5 | "TwoOpt" becomes "two_opt" |
| MoveGenerator.Sample | local_search/problems/base/move_generator.py:19-20 | sampling without replacement yields as many elements as draws, a sub-multiset of the pool, and the whole pool when every element is drawn |
| MoveGenerator.RandomMoves | local_search/problems/base/move_generator.py:19-20 | the default random_moves is finite and yields every available move exactly once (same multiset), in a drawn order |
| MoveGenerator.SampleFirstAlways | local_search/problems/base/move_generator.py:20 | drawing the first remaining move every time keeps the original order |
| ClimbRules.BestFoldIsFirstMaximum | local_search/algorithms/hill_climbing/best_choice_hill_climbing.py:16-24 | steepest ascent returns the state or an improving neighbour, never a worse state; no neighbour improves on the result; on ties the first neighbour seen is kept |
| ClimbRules.BestFoldAtLocalOptimum | local_search/algorithms/hill_climbing/best_choice_hill_climbing.py:17-24 | with no improving neighbour the state is returned unchanged |
| ClimbRules.ClimbBest | local_search/algorithms/hill_climbing/best_choice_hill_climbing.py:16-24 | the loop computes the steepest-ascent choice |
| ClimbRules.WorstFoldIsFirstMinimum | local_search/algorithms/hill_climbing/worst_choice_hill_climbing.py:15-23 | a choice exists exactly when some neighbour improves; it is an improving neighbour that every improving neighbour is at least as good as; on ties the first one seen is kept |
| ClimbRules.ClimbWorst | local_search/algorithms/hill_climbing/worst_choice_hill_climbing.py:15-26 | the loop computes the least improving neighbour, or the state when none improves |
| ClimbRules.FirstImproving | local_search/algorithms/hill_climbing/first_choice_hill_climbing.py:17-19 | the position of an improving neighbour such that no earlier neighbour improves, or the end when none does |
| ClimbRules.ClimbFirst | local_search/algorithms/hill_climbing/first_choice_hill_climbing.py:16-20 | returns the first improving neighbour and stops producing neighbours there, or returns the state after producing them all |
| ClimbRules.RandomChoiceOf | local_search/algorithms/hill_climbing/random_choice_hill_climbing.py:15-19 | the one drawn neighbour is returned exactly when it improves, else the state; the result is never worse |
| ClimbRules.ClimbNeverWorsens | tests/test_hill_climbing.py:68-72 | no rule returns a state worse than its input or outside the neighbourhood, and none produces more neighbours than there are |
| HillClimbing.NeighbourEventsLength | local_search/algorithms/subscribable_algorithm.py:47-51 | the log has one entry per neighbour per subscriber, and entry k·|subscribers| + j announces neighbour k to subscriber j: neighbours in the order produced, subscribers in registration order |
| HillClimbing.WalkCompose | local_search/algorithms/subscribable_algorithm.py:40-45 | a perturbation of d1 then d2 moves is the d2-move walk from where d1 ends |
| HillClimbing.WalkStep | local_search/algorithms/subscribable_algorithm.py:42-44 | every perturbation step goes to one of the available moves of the current state |
| HillClimbing.EmptyPerturbation | local_search/algorithms/subscribable_algorithm.py:40-45 | a perturbation of size 0 returns the best state itself |
| HillClimbing.EscapeOutcome | local_search/algorithms/hill_climbing/hill_climbing.py:47-55 | gives up exactly when the counter exceeds a non-negative maximum; otherwise returns the restart state or the best state perturbed by exactly the configured number of moves |
| HillClimbing.UnlimitedEscapes | local_search/algorithms/hill_climbing/hill_climbing.py:47-50 | with the default maximum of -1 escaping never gives up |
| HillClimbing.Neighbourhood | local_search/algorithms/hill_climbing/random_choice_hill_climbing.py:15-16 | the random rule looks at exactly one drawn neighbour |
| HillClimbing.HillClimbing.constructor | local_search/algorithms/hill_climbing/hill_climbing.py:30-37 | escape weights come from the configuration (or hill climbing's default); counters zero, no best state, no subscriber; the stored configuration is the engine's default when none is given |
| HillClimbing.HillClimbing.Subscribe | local_search/algorithms/subscribable_algorithm.py:106-107 | the subscriber is appended after all earlier ones |
| HillClimbing.HillClimbing.Notify | local_search/algorithms/subscribable_algorithm.py:92-104 | one event reaches every subscriber in registration order |
| HillClimbing.HillClimbing.AnnounceNeighbours | local_search/algorithms/subscribable_algorithm.py:47-51 | each neighbour produced is announced, in order, before the next one |
| HillClimbing.HillClimbing.Perturb | local_search/algorithms/subscribable_algorithm.py:40-45 | starts from the best state and applies exactly the drawn number of moves |
| HillClimbing.HillClimbing.EscapeLocalOptimum | local_search/algorithms/hill_climbing/hill_climbing.py:47-55 | the escape counter grows by exactly 1 per call and the result is the escape outcome |
| HillClimbing.HillClimbing.FindNextState | local_search/algorithms/hill_climbing/hill_climbing.py:39-41 | the next state is the rule's climb result, and exactly the neighbours it produced are announced |
| HillClimbing.HillClimbing.UpdateAlgorithmState | local_search/algorithms/subscribable_algorithm.py:81-90 | a strictly better state becomes the best one with its objective and resets the step count; otherwise the step count grows by 1 and the best state stays |
| HillClimbing.HillClimbing.NextState | local_search/algorithms/subscribable_algorithm.py:62-79 | the first call records and announces the state as best; when stuck the escape result is used and no rule runs; a produced state updates the bookkeeping and is announced; no state leaves best and steps unchanged and announces the solution |
| HillClimbing.HillClimbing.RecordFirst | local_search/algorithms/subscribable_algorithm.py:63-65 | with no best state yet the given state becomes the best and is announced once; otherwise the best state and the notifications are unchanged |
| HillClimbing.HillClimbing.Move | local_search/algorithms/subscribable_algorithm.py:67-71 | a stuck search counts one escape, takes the escape outcome and announces nothing; any other search takes the rule's climb result, announces exactly the neighbours it produced and leaves the escape count alone |
| HillClimbing.HillClimbing.Conclude | local_search/algorithms/subscribable_algorithm.py:73-77 | a produced state updates the best state, objective and step count as `_update_algorithm_state` does and is announced; no state leaves them unchanged and announces the given state as the solution |
| SimulatedAnnealing.CoolBounds | local_search/algorithms/simulated_annealing.py:51-53 | one update never goes below the floor and, from above the floor with a non-negative step, never heats |
| SimulatedAnnealing.CoolTimesMonotone | local_search/algorithms/simulated_annealing.py:51-53 | along repeated updates the temperature never rises and stays within [floor, initial temperature] |
| SimulatedAnnealing.SimulatedAnnealing.constructor | local_search/algorithms/simulated_annealing.py:38-41 | the temperature starts at the configured initial temperature and the counters at zero |
| SimulatedAnnealing.SimulatedAnnealing.UpdateTemperature | local_search/algorithms/simulated_annealing.py:51-53 | the temperature becomes max(T - c*T, T_min) |
| SimulatedAnnealing.SimulatedAnnealing.HeatUp | local_search/algorithms/simulated_annealing.py:86-89 | back to the initial temperature, step count reset, the same state returned |
| SimulatedAnnealing.SimulatedAnnealing.RestartFrom | local_search/algorithms/simulated_annealing.py:81-84 | the step count is reset and the shuffled state returned |
| SimulatedAnnealing.SimulatedAnnealing.OnOptimumState | local_search/algorithms/simulated_annealing.py:71-79 | the counter grows by 1; the result is None exactly when the counter exceeds the repeats or the strategy is Terminate; Heat and Restart reset as their methods do |
| GraphColoringState.EqualsReflexive | local_search/problems/graph_coloring_problem/state.py:17-20 | a colouring equals itself |
| GraphColoringState.EqualsSymmetric | local_search/problems/graph_coloring_problem/state.py:20 | equality is symmetric |
| GraphColoringState.EqualsComparesColours | local_search/problems/graph_coloring_problem/state.py:20 | for equal lengths, equal exactly when the colours agree position by position, whatever the idx fields |
| GraphColoringState.EqualsPrefix | local_search/problems/graph_coloring_problem/state.py:20 | because of zip a colouring equals every prefix of itself |
| GraphColoringState.EqualsNotTransitive | local_search/problems/graph_coloring_problem/state.py:20 | so equality is not transitive: [0] equals [], [] equals [1], [0] does not equal [1] |
| GraphColoringGoals.NumColorsBounds | local_search/problems/graph_coloring_problem/goals/goal.py:25-28 | the number of distinct colours is at most the number of vertices and at least 1 when there is one |
| GraphColoringGoals.NumColorsRoundRobin | local_search/problems/graph_coloring_problem/goals/goal.py:28 | colouring vertex i with i mod k uses exactly k colours |
| GraphColoringGoals.ColorClasses | local_search/problems/graph_coloring_problem/goals/goal.py:40-46 | the loop computes the class sizes |
| GraphColoringGoals.ClassesCount | local_search/problems/graph_coloring_problem/goals/goal.py:43-46 | entry c is the number of vertices whose colour lands in counter c |
| GraphColoringGoals.ClassesSum | local_search/problems/graph_coloring_problem/goals/goal.py:43-46 | the class sizes add up to the number of vertices |
| GraphColoringGoals.ClassesPermutation | local_search/problems/graph_coloring_problem/goals/goal.py:43-46 | class sizes depend only on the multiset of colours |
| GraphColoringGoals.BadEdges | local_search/problems/graph_coloring_problem/goals/goal.py:30-38 | the loop computes the bad-edge counters |
| GraphColoringGoals.BadCount | local_search/problems/graph_coloring_problem/goals/goal.py:34-38 | entry c of the bad-edge counters is the number of edges whose two ends share a colour that lands in counter c |
| GraphColoringGoals.BadEdgesSum | local_search/problems/graph_coloring_problem/goals/goal.py:34-38 | the counters add up to the number of monochrome edges, at most the number of edges; all are zero exactly when no edge is monochrome |
| GraphColoringGoals.BadEdgesOneColour | local_search/problems/graph_coloring_problem/goals/goal.py:34-38 | with every vertex of colour c, counter c holds every edge and the rest are zero |
| GraphColoringGoals.SumSquaresNonNegative | local_search/problems/graph_coloring_problem/goals/max_classes.py:10 | a sum of squares is non-negative |
| GraphColoringGoals.FeasibilityWithoutBadEdges | local_search/problems/graph_coloring_problem/goals/min_feasible.py:13 | with zero bad-edge counters the feasibility sum is minus the sum of squared class sizes |
| GraphColoringGoals.GoalTypes | local_search/problems/graph_coloring_problem/goals/min_feasible.py:15-16 | MinFeasible and MinColors minimise, MaxClasses maximises |
| GraphColoringGoals.MinFeasibleWithoutBadEdges | local_search/problems/graph_coloring_problem/goals/min_feasible.py:10-13 | without monochrome edges the MinFeasible objective is minus the sum of squared class sizes |
| GraphColoringGoals.MaxClassesNonNegative | local_search/problems/graph_coloring_problem/goals/max_classes.py:8-10 | the MaxClasses objective is non-negative |
| GraphColoringGoals.MaxClassesPermutation | local_search/problems/graph_coloring_problem/goals/max_classes.py:8-10 | the MaxClasses objective does not change when the vertices' colours are permuted |
| GraphColoringGoals.MinColorsBounds | local_search/problems/graph_coloring_problem/goals/min_colors.py:8-9 | the MinColors objective lies between 1 and the number of vertices, for any non-empty colouring |
| GraphColoringGoals.ClassesOnlyColours | local_search/problems/graph_coloring_problem/goals/goal.py:43-46 | class sizes depend only on the colour at each position |
| GraphColoringGoals.BadOnlyColours | local_search/problems/graph_coloring_problem/goals/goal.py:34-38 | bad-edge counters depend only on the colour at each position |
| GraphColoringGoals.ObjectiveOnlyColours | local_search/problems/graph_coloring_problem/goals/min_feasible.py:10-13 | each of the three objectives depends only on the colour at each position |
| GraphColoringMoves.ChangeColorMake | local_search/problems/graph_coloring_problem/moves/change_color.py:15-18 | the chosen vertex takes the colour and keeps its idx; every other vertex is unchanged; the source colouring is a separate value |
| GraphColoringMoves.ChangeColorUndo | local_search/problems/graph_coloring_problem/moves/change_color.py:15-18 | changing back to the old colour restores the colouring |
| GraphColoringMoves.MovesFor | local_search/problems/graph_coloring_problem/moves/change_color.py:35-38 | for one vertex, exactly one move per used colour other than its own |
| GraphColoringMoves.AvailableMoves | local_search/problems/graph_coloring_problem/moves/change_color.py:32-38 | exactly the (idx, c) with c a used colour other than idx's own; idx ascending, no repeat; n * (colours - 1) moves (KempeChain.available_moves, kempe_chain.py:54-60, is the same loop) |
| GraphColoringMoves.RecolourNeighbours | local_search/problems/graph_coloring_problem/moves/kempe_chain.py:27-30 | the neighbours of one chain vertex that had the new colour take the old colour and join the new links |
| GraphColoringMoves.RecolourRound | local_search/problems/graph_coloring_problem/moves/kempe_chain.py:25-31 | one round recolours exactly the chain's neighbours that had the new colour, and they become the chain |
| GraphColoringMoves.KempeChain | local_search/problems/graph_coloring_problem/moves/kempe_chain.py:19-39 | the loop computes make: recolour idx, then run the rounds (bounded by fuel) |
| GraphColoringMoves.KempeShape | local_search/problems/graph_coloring_problem/moves/kempe_chain.py:24-32 | the chain keeps the length and every idx field |
| GraphColoringMoves.KempeTwoColours | local_search/problems/graph_coloring_problem/moves/kempe_chain.py:24-32 | a vertex that changes goes from one of the two chain colours to the other |
| GraphColoringMoves.KempeLocal | local_search/problems/graph_coloring_problem/moves/kempe_chain.py:26-30 | only vertices reachable from the chain within the rounds run change |
| GraphColoringMoves.KempeMakeLocal | local_search/problems/graph_coloring_problem/moves/kempe_chain.py:35-39 | make changes only vertices near idx, only between its old and new colour, keeping idx fields |
| GraphColoringMoves.KempeFreshColour | local_search/problems/graph_coloring_problem/moves/kempe_chain.py:35-39 | when no neighbour has the new colour, make recolours idx alone and no neighbour shares its colour |
| GraphColoringMoves.KempeTriangleNeverEnds | local_search/problems/graph_coloring_problem/moves/kempe_chain.py:24-32 | on a triangle coloured 0, 1, 0, recolouring vertex 0 to 1 never empties the chain |
| GraphColoringMoves.StartConflicts | local_search/problems/graph_coloring_problem/moves/kempe_chain.py:35-37 | after make recolours idx in a proper colouring, every clash has idx as an end and the new colour |
| GraphColoringMoves.RoundConflicts | local_search/problems/graph_coloring_problem/moves/kempe_chain.py:24-31 | on a symmetric graph, if every clash touches the chain in its new colour, then after one round every clash touches the new chain in the swapped colour |
| GraphColoringMoves.RoundsProper | local_search/problems/graph_coloring_problem/moves/kempe_chain.py:24-32 | rounds that empty the chain leave a proper colouring: no two neighbours share a colour |
| GraphColoringMoves.KempeMakeProper | local_search/problems/graph_coloring_problem/moves/kempe_chain.py:35-39 | on a symmetric, well-formed graph, make applied to a proper colouring gives a proper colouring of the same length, so no neighbour of idx shares its colour |
| GraphColoringMoves.HitUnchanged | local_search/problems/graph_coloring_problem/moves/kempe_chain.py:26-30 | in a chain run from a proper colouring, a vertex a round recolours is never idx and still has its original colour, so each vertex is recoloured at most once |
| GraphColoringMoves.RoundKeepsColour | local_search/problems/graph_coloring_problem/moves/kempe_chain.py:24-31 | one round keeps idx at the requested colour, every changed vertex swapped between the two chain colours, and the chain's vertices in the colour sought |
| GraphColoringMoves.RoundsKeepColour | local_search/problems/graph_coloring_problem/moves/kempe_chain.py:24-32 | rounds that empty the chain leave idx with the requested colour |
| GraphColoringMoves.KempeMakeKeepsColour | local_search/problems/graph_coloring_problem/moves/kempe_chain.py:35-39 | from a proper colouring, a finished make leaves vertex idx with the requested colour (line 37 is never undone by the chain) |
| GraphColoringProblem.CreateGraph | local_search/problems/graph_coloring_problem/problem.py:35-46 | the loop builds the adjacency and the dict's insertion order |
| GraphColoringProblem.GraphOfMeaning | local_search/problems/graph_coloring_problem/problem.py:35-46 | the vertices are exactly the endpoints, listed once each in insertion order; u is a neighbour of v exactly when some edge joins them in either direction |
| GraphColoringProblem.GraphOfSymmetric | local_search/problems/graph_coloring_problem/problem.py:35-46 | u is a neighbour of v exactly when v is a neighbour of u |
| GraphColoringProblem.VertexCount | local_search/problems/graph_coloring_problem/problem.py:24-25 | n_vertices is the number of distinct endpoints |
| GraphColoringProblem.FreeColours | local_search/problems/graph_coloring_problem/problem.py:52-55 | the remaining colours are range(n) without the neighbours' colours, ascending; IndexError when a neighbour has no position |
| GraphColoringProblem.FindInitialSolution | local_search/problems/graph_coloring_problem/problem.py:48-57 | the loops compute the greedy colouring, IndexError when there is no vertex |
| GraphColoringProblem.PaintSmallest | local_search/problems/graph_coloring_problem/problem.py:52-56 | the vertex gets the smallest colour in [0, n) that no neighbour has; every other vertex is unchanged |
| GraphColoringProblem.GreedyProper | local_search/problems/graph_coloring_problem/problem.py:48-57 | on a simple graph the greedy colouring succeeds, gives colours in [0, n), keeps idx == position, and adjacent vertices differ |
| GraphColoringProblem.InitialSolutionFeasible | local_search/problems/graph_coloring_problem/problem.py:48-57 | for a loop-free edge list over vertices 0..n-1 the initial colouring has no bad edge and its MinFeasible objective is minus the sum of squared class sizes |
| GraphColoringProblem.EdgesSeparatedProper | local_search/problems/graph_coloring_problem/problem.py:35-46 | a colouring without monochrome edges is proper on the built graph |
| GraphColoringProblem.ProperSeparatesEdges | local_search/problems/graph_coloring_problem/problem.py:35-46 | a colouring proper on the built graph has no monochrome edge |
| GraphColoringProblem.KempeKeepsFeasible | local_search/problems/graph_coloring_problem/moves/kempe_chain.py:35-39 | on a loop-free edge list over vertices 0..n-1, a Kempe move from a colouring with no bad edge gives colours in range, no bad edge, and the MinFeasible objective minus the sum of squared class sizes |
| GraphColoringProblem.CostFor | local_search/problems/graph_coloring_problem/problem.py:72-75 | cost_for equals the MinFeasible objective |
| TravelingSalesman.Reverse | local_search/problems/traveling_salesman_problem/moves/two_opt.py:16 | reversed keeps the length and reads the list back to front |
| TravelingSalesman.ReversePermutes | local_search/problems/traveling_salesman_problem/moves/two_opt.py:16 | reversing keeps the multiset |
| TravelingSalesman.TwoOpt | local_search/problems/traveling_salesman_problem/moves/two_opt.py:15-17 | the length is kept, positions outside [i1, i2) are unchanged and the segment is reversed |
| TravelingSalesman.TwoOptPermutes | local_search/problems/traveling_salesman_problem/moves/two_opt.py:16 | a 2-opt move permutes the route |
| TravelingSalesman.TwoOptInvolution | local_search/problems/traveling_salesman_problem/moves/two_opt.py:16 | applying the same move twice restores the route |
| TravelingSalesman.TwoOptMoves | local_search/problems/traveling_salesman_problem/moves/two_opt.py:21-24 | the moves are exactly the pairs 1 <= i1 < i2 <= len-2, in lexicographic order |
| TravelingSalesman.TwoOptKeepsDepot | local_search/problems/traveling_salesman_problem/moves/two_opt.py:21-24 | every available move keeps the first and last entries and permutes the route |
| TravelingSalesman.RandRange | local_search/problems/traveling_salesman_problem/moves/two_opt.py:28-29 | randrange(a, b) draws from [a, b), and fails (ValueError) exactly when the range is empty |
| TravelingSalesman.RandomTwoOptMove | local_search/problems/traveling_salesman_problem/moves/two_opt.py:26-30 | a move is drawn (no ValueError) exactly when the route has at least four entries, and then 1 <= i1 < i2 <= len(route) - 2 |
| TravelingSalesman.RandomTwoOptMoveAvailable | local_search/problems/traveling_salesman_problem/moves/two_opt.py:26-30 | every random move is an available move |
| TravelingSalesman.AvailableTwoOptDrawn | local_search/problems/traveling_salesman_problem/moves/two_opt.py:26-30 | every available move can be drawn |
| TravelingSalesman.SwapTwoEdges | local_search/problems/traveling_salesman_problem/moves.py:13-16 | the copy has the entries at a.end and b.end exchanged |
| TravelingSalesman.SwapTwoEdgesEffect | local_search/problems/traveling_salesman_problem/moves.py:13-16 | only the two positions change, the route is permuted, and equal positions leave it unchanged |
| TravelingSalesman.Loops | local_search/problems/traveling_salesman_problem/moves.py:29 | the loop count is zero exactly when no start equals its end |
| TravelingSalesman.RotateEnds | local_search/problems/traveling_salesman_problem/moves.py:28-32 | the loop rotates the ends at most three times, stopping after the first rotation made with no loop |
| TravelingSalesman.SwapEdges | local_search/problems/traveling_salesman_problem/moves.py:34-36 | the swaps keep the length and the multiset |
| TravelingSalesman.SwapThreeEdges | local_search/problems/traveling_salesman_problem/moves.py:23-38 | the rotation then the three swaps; the result permutes the route |
| TravelingSalesman.EdgesCycle | local_search/problems/traveling_salesman_problem/state.py:20-25 | exactly len(route) edges, edge i joins entry i to entry i+1 mod len, and the last closes the cycle |
| TravelingSalesman.EdgesVisitEachEntry | local_search/problems/traveling_salesman_problem/state.py:20-25 | the starts and the ends of the edges are each a permutation of the route |
| TravelingSalesman.RouteEquals | local_search/problems/traveling_salesman_problem/state.py:27-32 | true exactly when the other route agrees on every index of this one; IndexError exactly when the other is a proper prefix; false against None |
| TravelingSalesman.RouteEqualsReflexive | local_search/problems/traveling_salesman_problem/state.py:27-32 | a route equals itself |
| TravelingSalesman.NonDepot | local_search/problems/traveling_salesman_problem/problem.py:39-40 | the indices of the points other than the depot, ascending, each once |
| TravelingSalesman.RandomState | local_search/problems/traveling_salesman_problem/problem.py:38-43 | the route starts and ends at the depot |
| TravelingSalesman.RandomStateLength | local_search/problems/traveling_salesman_problem/problem.py:38-43 | with the depot among the points the route has len(points) + 1 entries |
| TravelingSalesman.RandomStateVisitsOnce | local_search/problems/traveling_salesman_problem/problem.py:38-43 | between the depots every other point appears exactly once |
| TravelingSalesman.RandomStateMiddle | local_search/problems/traveling_salesman_problem/problem.py:38-43 | between the depots there are only point indices other than the depot |
| TravelingSalesman.PointsToPairs | local_search/problems/traveling_salesman_problem/problem.py:84 | each point becomes its (x, y) pair |
| TravelingSalesman.PairsToPoints | local_search/problems/traveling_salesman_problem/problem.py:90-91 | each pair becomes the point with those coordinates |
| TravelingSalesman.TspAsDict | local_search/problems/traveling_salesman_problem/problem.py:80-86 | the depot and every point as its (x, y) pair, in order (the name keys merged in are the base asdict's) |
| TravelingSalesman.TspRoundTrip | local_search/problems/traveling_salesman_problem/problem.py:80-92 | from_dict of asdict, with "name" removed, rebuilds the same points and depot and the registry names of the goal and move generator |
| LimitedAvatarPolygon.Channel | local_search/problems/limited_avatar_problem/models/polygon.py:12-16 | a channel after a change lies in [0, 255] and differs from the sum by a multiple of 256 |
| LimitedAvatarPolygon.ChannelZero | local_search/problems/limited_avatar_problem/models/polygon.py:12-16 | a zero change keeps a channel in [0, 255] |
| LimitedAvatarPolygon.ChannelInverse | local_search/problems/limited_avatar_problem/models/polygon.py:12-16 | changing by d then by -d restores a channel in [0, 255] |
| LimitedAvatarPolygon.ShiftInverse | local_search/problems/limited_avatar_problem/models/polygon.py:18-20 | shifting by d then by -d restores the coordinates |
| LimitedAvatarPolygon.Polygon.constructor | local_search/problems/limited_avatar_problem/models/polygon.py:8-10 | the polygon holds the given vertex objects and colour object |
| LimitedAvatarPolygon.Polygon.ChangeColor | local_search/problems/limited_avatar_problem/models/polygon.py:12-16 | every channel of the colour object moves by the diff modulo 256, even when the diff is the colour object itself |
| LimitedAvatarPolygon.Polygon.ChangeCoords | local_search/problems/limited_avatar_problem/models/polygon.py:18-20 | the vertex object at the (possibly negative) index is shifted and every other vertex object is unchanged; an index outside the list (IndexError) reports failure and changes no vertex |
| MagicSquareMoves.Permutations4 | local_search/problems/magic_square/move_generator.py:11 | exactly the quadruples of four different values of [0, n), each once, in lexicographic order |
| MagicSquareMoves.MovesOf | local_search/problems/magic_square/move_generator.py:10-12 | a swap is produced exactly for a kept quadruple |
| MagicSquareMoves.AvailableMovesMeaning | local_search/problems/magic_square/move_generator.py:9-12 | (a, b) swaps with (c, d) exactly when a, b, c, d are different values of [0, n) and d > b; the d == b half of the filter never applies |
| MagicSquareMoves.AvailableMovesSwapDifferentCells | local_search/problems/magic_square/move_generator.py:10-12 | the two cells of a move are different, in different columns |
| MagicSquareMoves.NoMovesBelowFour | local_search/problems/magic_square/move_generator.py:9-12 | a square of fewer than four rows has no move |
| BoundedHistory.AppendedEffect | genetic_algorithms/helpers/history.py:6-10 | when not full the item goes at the end and the rest stays; when full it replaces index 0 and the length stays |
| BoundedHistory.AppendedBounded | genetic_algorithms/helpers/history.py:6-10 | with a positive maximum size the length never exceeds it |
| BoundedHistory.AppendedSizeZero | genetic_algorithms/helpers/history.py:6-10 | with maximum size 0 the buffer grows with every append |
| BoundedHistory.History.constructor | genetic_algorithms/helpers/history.py:2-4 | an empty buffer of the given maximum size |
| BoundedHistory.History.Append | genetic_algorithms/helpers/history.py:6-10 | the items become the appended list, and the size bound is kept |
| BoundedHistory.History.Get | genetic_algorithms/helpers/history.py:12-13 | an index in [-len, len) gives an item and any other index gives None (Python's IndexError); a non-negative index reads from the front, a negative one from the end |
| BoundedHistory.History.Iterate | genetic_algorithms/helpers/history.py:15-16 | iteration yields the items in stored order |
| BoundedHistory.History.IsFull | genetic_algorithms/helpers/history.py:18-19 | in a well-formed buffer with a positive maximum size, full exactly when it holds that many items |
| MockSumProblem.Objective | tests/mock.py:38-39 | a^2 + b^2 is never negative |
| MockSumProblem.MockGoal.Type | tests/mock.py:45-54 | MockGoalMax maximises and MockGoalMin minimises |
| MockSumProblem.Trunc | tests/mock.py:27 | int() of a float truncates toward zero |
| MockSumProblem.SuboptimalStateShape | tests/mock.py:26-28 | for a non-negative sum the suboptimal state is a quarter of it, rounded down, and the rest |
| MockSumProblem.HalfOf | tests/mock.py:32 | int(0.5 * sum) is half the sum rounded down |
| MockSumProblem.OptimalStateMin | tests/mock.py:31-33 | for MIN no state with the same sum has a lower objective than the optimal state |
| MockSumProblem.OptimalStateMax | tests/mock.py:31-33 | for MAX no state with non-negative parts has a higher objective than (0, sum) |
| MockSumProblem.Make | tests/mock.py:71-72 | the new state keeps the sum and takes the new a |
| MockSumProblem.MovesFrom | tests/mock.py:62-63 | one move per value of the range, in ascending order |
| MockSumProblem.AvailableMovesRange | tests/mock.py:61-63 | the moves propose new a ascending over [max(0, a-2), min(sum, a+2)), exactly those; each made state keeps the sum |
| MockSumProblem.RandomState | tests/mock.py:83-85 | a state with parts summing to sum and a in [0, sum], or ValueError exactly when the sum is negative |
| MockSumProblem.MockProblem | tests/mock.py:78-81 | the goal is the sum objective in the mock goal's direction; neighbour i is the state that available move i makes, one neighbour per move |

## Left out

- Randomness is not modelled as probability. Each `random` call is a parameter: `random.choices`, `random.shuffle`, `random.sample`, `random.randrange` and the state `shuffle()` returns. The escape strategy may be any one with a positive weight.
- Python dict and set iteration order is not modelled, except where the code depends on it. A set is iterated in an arbitrary order, and the methods are proved for every order. The graph's dict keeps its insertion order, which the greedy colouring depends on.
- The acceptance step of simulated annealing (`_find_next_state` with `math.exp` and `choices`) is not modelled. It refers to names the module does not define: `_is_cost_better_or_same`, `_is_in_optimal_state` and the `is_stochastic` argument. It also leaves no deterministic behaviour to state. As written, the module cannot be imported: local_search/algorithms/simulated_annealing.py:8 imports `OptimizationStrategy` from `subscribable_algorithm`, which does not define it. Even with that import removed, the class could not be created: `Algorithm` is an ABC whose `escape_local_optimum` is abstract (local_search/algorithms/algorithm.py:22-26), and `SimulatedAnnealing` does not implement it, so `SimulatedAnnealing(...)` raises TypeError and no search runs. The model states the class's methods as they are written.
- SimulatedAnnealing.SimulatedAnnealing.constructor: the model does not include the engine constructor call. That call passes `algorithm_config=`, which the engine's `__init__` does not accept, so it raises TypeError. The model also omits `**kwargs`.
- SimulatedAnnealing.CoolTimesMonotone: no closed form `T0 * (1 - c)^k` of the schedule is stated; the model states only the bounds and monotonicity.
- Floating point is modelled as exact reals. This covers the temperature, the escape weights and `0.25 * sum` in the mock problem.
- Python's big integers need no wrap-around. The only modular arithmetic is the explicit `% 256` of the polygon colour.
- HillClimbing.HillClimbing.Perturb: the draws must name available moves. The source raises StopIteration when a state has no move, and that crash is not modelled.
- HillClimbing.HillClimbing.NextState: the draws for the random rule and for the escape must be usable ones, as in Perturb.
- HillClimbing.HillClimbing.Move: the same draw requirements as NextState.
- HillClimbing.HillClimbing.constructor: the configuration, when given, must be an `HCConfig`. Without one, the engine stores its own default, which has no `escape_perturbation_size`. A perturbation escape then fails, and `EscapeDrawsValid` rules that case out.
- The engine's `best_obj` is recorded only when a strictly better state arrives. The first call records no `best_obj`, and the model follows the code here.
- The subscriber objects and their reactions are outside the model. They are external code and are recorded only as a log of hook calls. The algorithm monitor, the visualisations, the solvers, the CLI and the benchmark file parsing are not part of this model.
- The registry side effects of `__init_subclass__` (the `algorithms`, `problems`, `goals` and `move_generators` dicts) are not modelled. Only the key each class gets, `CamelToSnake`, is modelled.
- Naming.CamelToSnake: only the ASCII letters 'A'..'Z' count as capitals. The pattern `[A-Z]` also matches only those, but `str.lower()` also lowers non-ASCII letters, which the model leaves unchanged.
- Problem.ValidateData: the set of constructor parameters is given. It is not read from the class signature by `inspect`.
- `Problem.from_dict` (the base dispatch through the registry) is modelled only through its effect on the dict: TravelingSalesman.TspFromDict receives the dict with "name" removed. TravelingSalesman.TspFromDict requires exactly the keys `asdict` produces; other keys would make `cls(**data)` raise TypeError.
- `random_moves` of `ChangeColor` and `KempeChain` is not modelled. These are infinite generators. `ChangeColor.random_moves` passes an int to `set.difference`, which raises TypeError. Both draw a second index instead of using the `idx` they computed.
- GraphColoringMoves.KempeChain: the rounds run at most `fuel` times, and the result is None when the chain is still non-empty then. The source has no bound. GraphColoringMoves.KempeTriangleNeverEnds shows an input on which the loop never ends.
- GraphColoringMoves.KempeChain: also requires `idx` to be a vertex of the graph and a position in `0 <= idx < len(coloring)`, and the graph to be well formed. In the source, a vertex missing from the graph raises KeyError at `self.graph[c]`, a neighbour beyond the colouring raises IndexError, and a negative `idx` counts from the end. None of these error paths is modelled.
- GraphColoringMoves.KempeMake: requires `0 <= idx < len(col)`, so the negative Python indices and the IndexError of `new_coloring[self.idx]` are not modelled. The function also skips chain vertices missing from the graph, where the source raises KeyError; only KempeChain, which requires `idx in graph`, matches the source there.
- GraphColoringMoves.AvailableMoves: `n` must be at most the colouring's length. A generator built with a larger `n_vertices` raises IndexError.
- `GraphColoringProblem.__init__` is not modelled as a whole. It looks the move generator up in the registry of `local_search/problems/graph_coloring_problem/move_generator.py`, which holds only `change_color_mg`. The names that `moves/change_color.py` and `moves/kempe_chain.py` register therefore raise KeyError there, and `change_color_mg` builds the older generator, which offers every (idx, colour) pair with both in `range(n_vertices)`. That older generator is not part of this model. Even on that path the constructor raises TypeError: after `_find_initial_solution` has run, problem.py:29 calls `super().__init__(initial_solution, move_generator)` without the `goal` argument that the base `Problem.__init__` requires (local_search/problems/base/problem.py:23). The model builds the graph and the initial colouring as separate functions.
- `local_search/problems/graph_coloring_problem/models/edge.py` is not part of this model, and `Edge` is modelled as a pair of endpoints.
- `local_search/problems/limited_avatar_problem/models/color.py` and `models/vertex.py` are not part of this model, and `Color` and `Vertex` are modelled as plain classes with the fields the polygon uses.
- GraphColoringGoals.BadEdges: colours and endpoints must be valid list indices; the IndexError for others is not modelled. Negative indices count from the end, as in Python.
- GraphColoringGoals.ColorClasses: colours must be valid list indices, as in BadEdges.
- GraphColoringProblem.GreedyProper: the graph must be simple, and its vertices must be exactly 0..n-1, each listed once. The source raises IndexError or colours wrongly otherwise. GraphColoringProblem.InitialSolutionFeasible assumes the same of the edge list.
- TravelingSalesman.TwoOpt: requires 0 <= i1 <= i2 <= len(route). Python's slice clamping for other indices is not modelled; every generated move satisfies the bound.
- TravelingSalesman.SwapTwoEdges: the edge ends must be valid list indices, and the IndexError for others is not modelled. Edge values are used as route positions, as in the source.
- TravelingSalesman.SwapThreeEdges: every `start + 1` and `end` must be a valid position. The IndexError for others is not modelled.
- TravelingSalesman.EdgesCycle: the route must not be empty; the IndexError on `route[0]` is not modelled.
- The TSP goals (distance), the avatar problems other than the polygon, the magic-square state and its swap move, and the genetic-algorithm package other than `History` are not part of this model.
- MockSumProblem.OptimalStateMin and MockSumProblem.OptimalStateMax state optimality only for a non-negative sum. For MAX, states with a negative part can score higher.
- MockSumProblem.MockProblem: the mock problem's `from_dict`, `from_benchmark` and the `MockState.__eq__` record equality are not modelled. Dafny's datatype equality is the same relation.
