# Scenario reduction, modelled in Dafny

This project models the two routines of `notebooks/utils.py` that reduce a
set of stochastic-optimisation scenarios, and proves properties of the model.

- `get_reduced_scenarios` does a greedy forward selection.
  - It builds the matrix of absolute cost differences.
  - It picks the scenario whose column sum is smallest, taking the first
    label on a tie.
  - It then runs `scenarios - 1` more rounds. Each round drops the previous
    pick's row and column. It floors every surviving row by that row's
    distance to the previous pick, re-sums the columns over the surviving
    rows and picks again.
- `get_redistributed_probabilities` does three things.
  - It gives every scenario outside the reduced set a reduced scenario of
    nearest cost as its representative. Each reduced scenario represents
    itself.
  - It moves the probability of every scenario onto its representative.
  - It leaves zero probability on all the other scenarios.

How the model is laid out:

- A scenario is its label `0..N-1`, its position in the cost list.
- The pandas index of a table is an ascending label sequence.
  - `Labels.Without` models `drop`, which keeps the order of the remaining
    labels.
  - The distance matrix stays `N x N`, indexed by label. A dropped label's
    row and column are left in place. A later reduce step may still floor the
    dropped columns of surviving rows, but no score or pick ever uses them.
- Costs and probabilities are `real`.
- Both routines are imperative in the source, so each is modelled as a
  `method` with loops.
  - Each method is proved against pure specification functions:
    `Selection.Step`, `Selection.Iterate` and `Selection.ReducedScenarios`
    for the selection, `Redistribution.IsNearest` and
    `Redistribution.MassOf` for the redistribution.
  - The properties are then proved as lemmas about those functions.

## Model

| member | source | states |
|---|---|---|
| Labels.Without | notebooks/utils.py:59 | After dropping the labels `ys` from an index `xs`, a label remains exactly when it is in `xs` and not in `ys`. The result is never longer than `xs`. |
| Labels.DropAt | notebooks/utils.py:59 | Dropping the label at position `p` of an index with no repeats removes exactly that position. Every other label stays, in order, and the index is one shorter. |
| Labels.DropFromIndex | notebooks/utils.py:59 | Dropping a present label from an ascending index of labels below `n` leaves an ascending index of labels below `n`, one shorter. |
| Distance.Build | notebooks/utils.py:35-38 | Computes the `N x N` matrix of absolute cost differences, where `N = len(costs)`. Its contract says the result is square of side `N`; `Distance.BuildIsDistance` states its entries. |
| Distance.BuildIsDistance | notebooks/utils.py:35-38 | Entry `(i, j)` is `abs(costs[i] - costs[j])`. The built matrix is non-negative, has a zero diagonal, is symmetric and satisfies the triangle inequality. |
| Distance.FlooredRow | notebooks/utils.py:62-68 | Computes row `j` with every entry replaced by the smaller of itself and `d[j][s]`, the row's distance to the last pick `s`. It has no contract of its own; `Distance.ReduceStepFloors` states what it does to the matrix. |
| Distance.ReduceStep | notebooks/utils.py:62-68 | Computes one reduce step: the rows of the surviving labels become their floored rows, and every other row is left as it was. Its contract says the result is still square of the same side. |
| Distance.ReduceStepFloors | notebooks/utils.py:62-68 | A reduce step never raises an entry. On a surviving row `j`, every entry becomes the smaller of itself and `d[j][s]`, so it never exceeds `d[j][s]`. Dropped rows are unchanged. |
| Distance.ReduceStepKeepsDistanceShape | notebooks/utils.py:62-68 | A reduce step keeps every entry non-negative and the diagonal zero. |
| Distance.ReduceStepBreaksSymmetry | notebooks/utils.py:59-68 | Counterexample with costs `0, 1, 2, 10` and pick `1`: entry `(2, 3)` becomes `1` while `(3, 2)` stays `8`, so the matrix is no longer symmetric. |
| Selection.ColSum | notebooks/utils.py:46 | Computes the sum of column `k` over the given rows, the score of scenario `k`. The sum is non-negative whenever the matrix is. |
| Selection.Scores | notebooks/utils.py:75 | Computes the score of every active label, in the order of the active labels, so there is one score per active label. |
| Selection.FirstArgmin | notebooks/utils.py:50 | The result indexes a minimum of the scores, and every earlier position holds a strictly larger score. |
| Selection.Pick | notebooks/utils.py:46-50 | The picked scenario is one of the active labels. |
| Selection.PickIsFirstMinimum | notebooks/utils.py:75-79 | The pick's column sum over the active rows is minimal among the active labels. Every smaller active label has a strictly larger sum. |
| Selection.First | notebooks/utils.py:35-52 | Computes the state before the loop: the built matrix, every label active, and the one first pick. The state is well formed, and it has `N` labels and one pick. |
| Selection.Rounds | notebooks/utils.py:54 | Computes the number of loop rounds, `scenarios - 1`, or none when `scenarios < 1`. Rounds plus the first pick always give `max(scenarios, 1)` picks. |
| Selection.Step | notebooks/utils.py:54-83 | One round keeps the state well formed. It removes one active label and adds one pick. |
| Selection.Iterate | notebooks/utils.py:54-83 | After `r` rounds there are `r` fewer active labels and `r` more picks, and the state is still well formed. |
| Selection.StepKeepsPicksApart | notebooks/utils.py:56-81 | A round keeps the picks distinct. Every pick but the last is out of the active labels, because a pick's column is dropped before the next pick. |
| Selection.IterateKeepsPicksApart | notebooks/utils.py:54-83 | Any number of rounds keeps the picks distinct, and every pick but the last is dropped. |
| Selection.ReducedScenarios | notebooks/utils.py:35-84 | The selection returns `max(scenarios, 1)` labels, all distinct and all below `len(costs)`. |
| Selection.AllScenariosKept | notebooks/utils.py:54-84 | Asking for `len(costs)` scenarios returns every label. |
| Selection.FloorRows | notebooks/utils.py:62-68 | The row-by-row floor loop produces exactly the reduce step of the previous matrix. |
| Selection.NextRound | notebooks/utils.py:56-81 | One pass of the loop body (drop, floor, rescore, pick) produces exactly the next state of `Step`. |
| Selection.RunRounds | notebooks/utils.py:54-83 | The loop's picks are those of `Iterate` after the given number of rounds. |
| Selection.GetReducedScenarios | notebooks/utils.py:35-84 | The method returns `ReducedScenarios(costs, scenarios)`. |
| Selection.EqualCostsKeepFirstLabels | notebooks/utils.py:46-50 | With all costs equal, every score ties in every round, and the result is the first labels `0, 1, ..., max(scenarios, 1) - 1`. |
| Selection.SpreadCostsFirstPick | notebooks/utils.py:46-50 | For costs `0, 1, 2, 10`, the columns `0, 1, 2, 3` sum to `13, 11, 11, 27` over all rows, and the first pick is `1`, the first label of the tie. |
| Selection.SpreadCostsSecondPick | notebooks/utils.py:59-79 | After dropping `1` and flooring, columns `0, 2, 3` sum to `10, 9, 2` over rows `0, 2, 3`, and the second pick is `3`. |
| Selection.SpreadCostsExample | notebooks/utils.py:35-84 | For costs `0, 1, 2, 10` and two scenarios, the result is `[1, 3]`. |
| Redistribution.InitialProbabilities | notebooks/utils.py:118 | Computes the starting probability column: the given list when it is non-empty, else `1/N` for every scenario. It always has one entry per scenario. |
| Redistribution.DefaultIsUniform | notebooks/utils.py:118 | With no probabilities, or an empty list, every scenario starts at `1/N`, and these sum to one. |
| Redistribution.GivenIsKept | notebooks/utils.py:118 | A given probability list of length `N` is the initial probability column. |
| Redistribution.MassOf | notebooks/utils.py:133 | Computes the total probability of the scenarios whose representative is `i`. With non-negative probabilities it lies between zero and the total probability. |
| Redistribution.MassAgree | notebooks/utils.py:133 | The mass at `i` depends only on the probabilities of the scenarios that `i` represents. |
| Redistribution.MassOfSelf | notebooks/utils.py:127-133 | When every scenario represents itself, the mass at `i` is its own probability. |
| Redistribution.MassOverAll | notebooks/utils.py:131-135 | When every representative is one of the distinct labels `R`, the masses at `R` add up to the total probability. |
| Redistribution.Conservation | notebooks/utils.py:131-135 | A column that holds each represented mass at the distinct labels `R` and zero elsewhere sums to the initial total. |
| Redistribution.IsNearest | notebooks/utils.py:122-125 | Holds when `r` is a reduced scenario and no reduced scenario is nearer in cost to scenario `i`. It is the specification of the representative search, with no contract of its own. |
| Redistribution.NearestRepresentative | notebooks/utils.py:122-125 | The result is a reduced scenario, and no reduced scenario is nearer in cost to `i`. |
| Redistribution.AssignNearest | notebooks/utils.py:121-125 | Each unassigned scenario gets a nearest reduced scenario, and every other entry is unchanged. |
| Redistribution.Representatives | notebooks/utils.py:116-127 | Reduced scenarios represent themselves. Every other scenario is represented by a nearest reduced scenario, so every representative is reduced. |
| Redistribution.AllReducedIsIdentity | notebooks/utils.py:116-127 | When every label is reduced, every scenario represents itself. |
| Redistribution.Accumulate | notebooks/utils.py:131-134 | Non-reduced entries are unchanged. With distinct reduced labels, each one ends with the initial mass it represents. When every scenario represents itself, nothing changes. |
| Redistribution.Redistribute | notebooks/utils.py:131-135 | Non-reduced scenarios end with zero. With distinct reduced labels, each one holds its represented initial mass and the total is conserved. With the identity representation, the column is unchanged. |
| Redistribution.GetRedistributedProbabilities | notebooks/utils.py:112-137 | The costs are kept. Reduced scenarios represent themselves; the others get a nearest reduced scenario and probability zero. With distinct reduced labels, each one holds its represented initial mass and the total is conserved. If every label is reduced, the representatives are the identity and the probabilities are unchanged. |

## Left out

- The probability-weighted scoring branch of the selection (notebooks/utils.py:42-44, 71-73) is not modelled. What it computes depends on how numpy broadcasting combines with pandas label alignment there. Only the unweighted scoring is modelled.
- Floating point is not modelled. Costs and probabilities are exact reals, with no rounding and no NaN. The NaN placeholder of the representative column is the constant `Redistribution.Unassigned`.
- The pandas DataFrame plumbing is not modelled. The returned frame is `Redistribution.ScenarioTable`, one sequence per column. Its representative column holds integer labels, where the frame holds floats.
- Dropped rows and columns are not removed from the model's matrix. They stay in place. A later reduce step may still floor the dropped columns of surviving rows, but no score or pick ever uses those entries.
- Inputs on which the source raises an exception are excluded by preconditions:
  - an empty cost list;
  - more scenarios than costs;
  - an empty or out-of-range reduced list;
  - a probability list whose length is neither zero nor `N`.
- Redistribution.NearestRepresentative: the contract promises only some nearest reduced scenario. The source sorts with an unstable sort, so it does not fix which of several equidistant scenarios wins. The loop takes the first one in the order of the reduced list.
- Redistribution.GetRedistributedProbabilities: its mass and conservation clauses assume the reduced list has no repeats. With a repeated label, the source's accumulation loop visits that label twice. On the second visit the label gets its current mass plus the probabilities of the other scenarios it represents once more, because those are set to zero only at line 135, after the loop. For example, reduced `[0, 0]` with probabilities `[0.5, 0.5]` leaves `1.5` on label 0, not `1.0` or `2.0`. The method models that loop as written.
- Optimality with respect to the Kantorovich distance is not modelled. The greedy selection is a heuristic, and no optimality is claimed.

Where the code differs from what one might assume:

- `scenarios` may equal `len(costs)`. Every label is then returned (`Selection.AllScenariosKept`).
- When `scenarios < 1`, the loop does not run and one label is returned (`Selection.Rounds`).
- The matrix is symmetric only as built. After a reduce step it is in general not symmetric (`Distance.ReduceStepBreaksSymmetry`).
