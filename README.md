# Graph partitioning as an Ising objective

This project models `ising/graph_partition.py`, a module that converts a graph-partitioning instance into Ising form. The instance is given as an adjacency matrix. The Ising form is a list of weighted two-node Z-Z interaction terms plus a constant shift. The module also has two helpers that score and complement a 0/1 partition assignment.

- `GraphPartition` (`graph_partition.dfy`) models `get_operator`. The method `GetOperator` runs the source's two loop nests, each as its own method. `EdgeTerms` emits one -0.5 term per nonzero strict-lower-triangle entry, adding 0.5 to the shift each time. `BalanceTerms` emits one +1 term per ordered pair of distinct nodes, adding 1 to the shift once per node. `GetOperator` concatenates the two lists and adds the two shifts. Its result is proved equal to the loop-shaped reference functions `OperatorTerms` and `OperatorShift`. Lemmas then describe the result independently: which pairs appear, in what order, how many terms there are, what the shift is, and the Hamiltonian identity. That identity says the terms plus the shift evaluate, at every ±1 spin vector, to H_A + H_B. H_A is the number of cut edges. H_B is defined as Σ_i s_i · (Σ_j s_j), the sum of all pairwise products, and `BalancePenaltyIsSquare` proves it equals (Σ s_i)².
- `PartitionSolution` (`partition_solution.dfy`) models `objective_value` as the sum over all (i, j) of `[w[i][j] != 0] * x_i * (1 - x_j)`. It models `get_graph_solution` as the elementwise `1 - x`. It also connects the two to the operator: at the spins `s = 1 - 2x` of a 0/1 assignment, the operator's value is `objective_value` plus (n - 2·#ones)².

A term is `Term(coef, i, j)`. The Qiskit `Pauli` of the source is a Z mask with bits i and j set, so the term's support is `{i, j}`. The weight matrix is `seq<seq<real>>`, and only its `!= 0` test matters. Coefficients and the shift are `real`. They are all multiples of 1/2, so they are exact. Spins are `real` values ±1. The product `coef * s_i * s_j` is evaluated as `coef` when the two spins agree and `-coef` when they differ. `TermValueIsProduct` proves this is the product.

The edge block reads only the strict lower triangle, `W[i][j]` with j < i, and writes each term's support as (i, j). `OperatorReadsStrictLower` states that nothing else of the matrix is read. For a symmetric matrix this is the same as one term per nonzero upper-triangle entry, that is, one per undirected edge; `SymmetricEdgeCount` proves it.

## Model

| member | source | states |
|---|---|---|
| `GraphPartition.GetOperator` | ising/graph_partition.py:31-75 | The two loop nests produce exactly the reference term list and shift. The list has #(nonzero strict-lower entries) + n(n-1) terms. The shift is 0.5 × #(nonzero strict-lower entries) + n. |
| `GraphPartition.EdgeTerms` | ising/graph_partition.py:55-63 | The first loop nest returns exactly the reference edge-term list. Its shift is 0.5 times the number of terms it emitted. |
| `GraphPartition.BalanceTerms` | ising/graph_partition.py:65-74 | The second loop nest returns exactly the reference balance-term list. Its shift is n, one per diagonal (i, i) pair skipped. |
| `GraphPartition.GetGraphPartitionQubitOps` | ising/graph_partition.py:151-156 | The deprecated alias returns exactly what `get_operator` returns. |
| `GraphPartition.EdgeRowsShape` | ising/graph_partition.py:55-63 | The first loop nest over rows [0, m) emits, in strictly increasing row-major order, one term per nonzero entry (i, j) with j < i < m. Each such term has coefficient -0.5. Its pair set is exactly those entries and its length is their number. |
| `GraphPartition.BalanceRowsShape` | ising/graph_partition.py:65-72 | The second loop nest over rows [0, m) emits, in strictly increasing row-major order, one +1 term for each ordered pair (i, j) with i != j, i < m and j < n. Its pair set is exactly those pairs and its length is m(n-1). |
| `GraphPartition.OperatorEdgeTerms` | ising/graph_partition.py:55-62 | The first #(nonzero strict-lower entries) terms of the result are the edge terms. Each has coefficient -0.5, satisfies j < i < n and has W[i][j] != 0. They are in row-major order and cover every such entry once. |
| `GraphPartition.OperatorBalanceTerms` | ising/graph_partition.py:65-72 | The remaining n(n-1) terms each have coefficient +1 and two distinct indices below n. They are in row-major order and cover every ordered pair of distinct nodes once. |
| `GraphPartition.OperatorTermCount` | ising/graph_partition.py:55-72 | The total term count is #(nonzero strict-lower entries) + n(n-1). |
| `GraphPartition.OperatorShiftCountsEdges` | ising/graph_partition.py:53-74 | The shift is 0.5 per nonzero strict-lower entry plus 1 per node. |
| `GraphPartition.OperatorTermsTwoLocal` | ising/graph_partition.py:56-71 | Every emitted term acts on exactly two distinct nodes, both in [0, n). |
| `GraphPartition.OperatorReadsStrictLower` | ising/graph_partition.py:55-57 | Two matrices with the same size and the same zero pattern on the strict lower triangle give the same terms and the same shift. So the diagonal, the upper triangle and weight magnitudes are never consulted. |
| `GraphPartition.ZeroMatrixOperator` | ising/graph_partition.py:51-75 | The n×n zero matrix yields n(n-1) terms, all with coefficient +1, and shift n. |
| `GraphPartition.TermValueIsProduct` | ising/graph_partition.py:58-62 | At a ±1 spin vector, a term's value is coef · s_i · s_j. |
| `GraphPartition.EdgeBlockIdentity` | ising/graph_partition.py:55-63 | The edge terms plus their 0.5-per-term shift evaluate to H_A. H_A is the number of pairs j < i with W[i][j] != 0 whose spins differ. |
| `GraphPartition.BalanceBlockIdentity` | ising/graph_partition.py:65-74 | The balance terms plus the shift of 1 per node evaluate to H_B = (Σ s_i)². |
| `GraphPartition.BalancePenaltyIsSquare` | ising/graph_partition.py:41 | At a ±1 spin vector, Σ_i s_i · (Σ_j s_j) = (Σ_j s_j)². |
| `GraphPartition.IsingIdentity` | ising/graph_partition.py:38-75 | For every ±1 spin vector, Σ coef · s_i · s_j + shift = H_A + H_B. |
| `GraphPartition.IsingHamiltonian` | ising/graph_partition.py:38-75 | In product form: for every ±1 spin vector, Σ coef · s_i · s_j over the terms plus the shift equals the number of cut edges plus (Σ s_i)². |
| `GraphPartition.SymmetricEdgeCount` | ising/graph_partition.py:40-63 | For a symmetric matrix, the edge block has one term per nonzero upper-triangle entry. The total term count is that number plus n(n-1), and the shift is 0.5 per such entry plus n. |
| `GraphPartition.TwoNodeExample` | ising/graph_partition.py:31-75 | For [[0,1],[1,0]] the terms are (-0.5,{1,0}), (1,{0,1}), (1,{1,0}) and the shift is 2.5. The value at spins (+1,-1) is 1. |
| `PartitionSolution.GraphSolution` | ising/graph_partition.py:94-103 | The result has the input's length and holds 1 - x_k at every position. |
| `PartitionSolution.GraphSolutionInvolution` | ising/graph_partition.py:103 | Complementing twice returns the original vector. |
| `PartitionSolution.GraphSolutionFlipsSides` | ising/graph_partition.py:103 | A 0/1 vector maps to a 0/1 vector in which every entry is flipped. |
| `PartitionSolution.ObjectiveValue` | ising/graph_partition.py:78-91 | objective_value is the sum over all (i, j) of [w[i][j] != 0] · x_i · (1 - x_j), added row by row. For a 0/1 assignment it equals the number of ordered pairs (i, j) with x_i = 1, x_j = 0 and w[i][j] != 0. |
| `PartitionSolution.ObjectiveValueIgnoresMagnitude` | ising/graph_partition.py:90-91 | For any x, two matrices with the same zero pattern give the same value. |
| `PartitionSolution.ObjectiveValueIgnoresDiagonal` | ising/graph_partition.py:89-91 | For a 0/1 assignment, matrices that agree off the diagonal give the same value. |
| `PartitionSolution.ObjectiveValueOneSided` | ising/graph_partition.py:89-91 | An all-0 or all-1 assignment scores 0. |
| `PartitionSolution.ObjectiveValueBounds` | ising/graph_partition.py:89-91 | For a 0/1 assignment, 0 ≤ value ≤ the number of nonzero off-diagonal entries. |
| `PartitionSolution.ObjectiveValueIsCutSize` | ising/graph_partition.py:89-91 | For symmetric w and a 0/1 assignment, the value equals the number of unordered edges {i, j}, i != j, whose endpoints are on different sides. |
| `PartitionSolution.ObjectiveValueComplement` | ising/graph_partition.py:89-103 | For symmetric w and a 0/1 assignment, the assignment and its complement score the same. |
| `PartitionSolution.EdgePenaltyIsObjectiveValue` | ising/graph_partition.py:78-91 | For symmetric w, H_A at the spins s = 1 - 2x of a 0/1 assignment equals objective_value(x, w). |
| `PartitionSolution.BalanceOfAssignment` | ising/graph_partition.py:41 | H_B at the spins of a 0/1 assignment is (n - 2·#ones)². |
| `PartitionSolution.BalancedIffNoPenalty` | ising/graph_partition.py:36-41 | For a 0/1 assignment, H_B is 0 exactly when the two sides have equal size. |
| `PartitionSolution.OddSizeBalancePenalty` | ising/graph_partition.py:36-41 | For an odd number of nodes, H_B at the spins of any 0/1 assignment is at least 1. It is exactly 1 when the two sides differ by one node. |
| `PartitionSolution.OperatorScoresAssignment` | ising/graph_partition.py:38-41 | For symmetric w and a 0/1 assignment, the operator plus the shift at spins 1 - 2x equals objective_value(x, w) + (n - 2·#ones)². |
| `PartitionSolution.FourCycleExample` | ising/graph_partition.py:89-91 | On the 4-cycle 0-1-2-3-0 with x = [1,1,0,0] the value is 2. |

## Left out

- `random_graph`, `parse_gset_format`, `sample_most_likely` and `get_gset_result` (ising/graph_partition.py:106-148) are not modelled. They only forward to a `.common` module that is not part of this model, and they emit a deprecation warning. Their targets involve randomness and file I/O.
- The deprecation warnings and the logger (ising/graph_partition.py:20-28, 153-155) are side effects with no logic.
- Qiskit's `Pauli` and `WeightedPauliOperator` are not modelled. The operator is the `pauli_list` handed to its constructor, as a `seq<Term>`. Any merging, simplification or reordering the library may apply is not captured.
- numpy's dtypes and broadcasting are not modelled. `objective_value` takes an integer vector and an n×n matrix of the same size. Its float result is the exact integer sum, and the shift is an exact `real`, not a float.
- `GraphPartition.GetOperator`: it requires a square matrix, the documented adjacency-matrix shape. The source reads only entries with j < i, so it would also accept any 2-D array with n rows and at least n-1 columns.
- `PartitionSolution.ObjectiveValueIsCutSize`, `PartitionSolution.EdgePenaltyIsObjectiveValue` and `PartitionSolution.OperatorScoresAssignment` are stated for symmetric matrices and 0/1 assignments. For other inputs the source's directional count is not a cut size.
- `PartitionSolution.ObjectiveValueComplement` is proved for 0/1 assignments only, through the cut size. For a symmetric matrix the invariance also holds for every integer vector, because swapping the summation indices maps Σ m_ij · x_i · (1 - x_j) onto the complement's sum. The model does not prove that general case.
