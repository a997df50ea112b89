/** Scoring and reading back a 0/1 partition assignment: objective_value
    (the directional cut count) and get_graph_solution (the complement). */
module PartitionSolution {
  import opened GraphPartition

  /** A 0/1 assignment: x[k] says on which side node k lies. */
  predicate IsBinary(x: seq<int>) {
    forall k :: 0 <= k < |x| ==> x[k] == 0 || x[k] == 1
  }

  // ---------------------------------------------------------------------
  // get_graph_solution

  /** 1 - x, entry by entry. */
  function GraphSolution(x: seq<int>): (r: seq<int>)
    ensures |r| == |x|
    ensures forall k :: 0 <= k < |x| ==> r[k] == 1 - x[k]
  {
    if x == [] then [] else [1 - x[0]] + GraphSolution(x[1..])
  }

  /** Complementing twice gives back the assignment. */
  lemma GraphSolutionInvolution(x: seq<int>)
    ensures GraphSolution(GraphSolution(x)) == x
  {
    var r := GraphSolution(GraphSolution(x));
    assert |r| == |x|;
    assert forall k :: 0 <= k < |x| ==> r[k] == x[k];
  }

  /** A 0/1 assignment is mapped to a 0/1 assignment in which every node has
      changed side. */
  lemma GraphSolutionFlipsSides(x: seq<int>)
    requires IsBinary(x)
    ensures IsBinary(GraphSolution(x))
    ensures forall k :: 0 <= k < |x| ==> (GraphSolution(x)[k] == 1 <==> x[k] == 0)
  {
  }

  // ---------------------------------------------------------------------
  // objective_value: np.sum(where(w != 0, 1, 0) * outer(x, 1 - x))

  /** Entry (i, j) of the masked outer product. */
  function Contribution(x: seq<int>, w: Matrix, i: nat, j: nat): int
    requires i < |x| && j < |x|
  {
    if HasEdge(w, i, j) then x[i] * (1 - x[j]) else 0
  }

  /** Row i, columns [0, k), of the masked outer product, added up. */
  function RowValue(x: seq<int>, w: Matrix, i: nat, k: nat): int
    requires i < |x| && k <= |x|
  {
    if k == 0 then 0 else RowValue(x, w, i, k - 1) + Contribution(x, w, i, k - 1)
  }

  /** Rows [0, m) of the masked outer product, added up. */
  function RowsValue(x: seq<int>, w: Matrix, m: nat): int
    requires m <= |x|
  {
    if m == 0 then 0 else RowsValue(x, w, m - 1) + RowValue(x, w, m - 1, |x|)
  }

  /** The value objective_value returns for assignment x and matrix w: the
      masked outer product summed row by row.  For a 0/1 assignment it counts
      the ordered pairs (i, j) with x_i = 1, x_j = 0 and w[i][j] != 0. */
  function ObjectiveValue(x: seq<int>, w: Matrix): (r: int)
    requires IsSquare(w) && |x| == |w|
    ensures IsBinary(x) ==> r == |CrossPairs(x, w, |x|)|
  {
    if IsBinary(x) then
      RowsValueCounts(x, w, |x|);
      RowsValue(x, w, |x|)
    else
      RowsValue(x, w, |x|)
  }

  /** Ordered pairs (i, j), i among the first m rows, with x_i = 1, x_j = 0
      and w[i][j] != 0. */
  ghost function CrossPairs(x: seq<int>, w: Matrix, m: nat): set<NodePair> {
    set i, j | 0 <= i < m && 0 <= j < |x| && i < |x| && x[i] == 1 && x[j] == 0 && HasEdge(w, i, j) :: (i, j)
  }

  /** The same, restricted to row i and columns [0, k). */
  ghost function RowCrossPairs(x: seq<int>, w: Matrix, i: nat, k: nat): set<NodePair>
    requires i < |x| && k <= |x|
  {
    set j | 0 <= j < k && x[i] == 1 && x[j] == 0 && HasEdge(w, i, j) :: (i, j)
  }

  /** The nonzero off-diagonal entries of w. */
  ghost function OffDiagonalEdges(w: Matrix): set<NodePair> {
    set i, j | 0 <= i < |w| && 0 <= j < |w| && i != j && HasEdge(w, i, j) :: (i, j)
  }

  /** The unordered edges {i, j}, written with j < i, whose endpoints lie on
      different sides. */
  ghost function CutEdges(x: seq<int>, w: Matrix): set<NodePair>
    requires |x| == |w|
  {
    set i, j | 0 <= j < i < |w| && HasEdge(w, i, j) && x[i] != x[j] :: (i, j)
  }

  lemma ContributionIsIndicator(x: seq<int>, w: Matrix, i: nat, j: nat)
    requires IsBinary(x) && i < |x| && j < |x|
    ensures Contribution(x, w, i, j) == if x[i] == 1 && x[j] == 0 && HasEdge(w, i, j) then 1 else 0
  {
    assert x[i] == 0 || x[i] == 1;
    assert x[j] == 0 || x[j] == 1;
  }

  lemma {:induction false} RowValueCounts(x: seq<int>, w: Matrix, i: nat, k: nat)
    requires IsBinary(x) && i < |x| && k <= |x|
    ensures RowValue(x, w, i, k) == |RowCrossPairs(x, w, i, k)|
  {
    if k > 0 {
      RowValueCounts(x, w, i, k - 1);
      ContributionIsIndicator(x, w, i, k - 1);
      var prev := RowCrossPairs(x, w, i, k - 1);
      if x[i] == 1 && x[k - 1] == 0 && HasEdge(w, i, k - 1) {
        assert RowCrossPairs(x, w, i, k) == prev + {(i, k - 1)};
        assert (i, k - 1) !in prev;
      } else {
        assert RowCrossPairs(x, w, i, k) == prev;
      }
    } else {
      assert RowCrossPairs(x, w, i, 0) == {};
    }
  }

  lemma CrossPairsSplit(x: seq<int>, w: Matrix, m: nat)
    requires 0 < m <= |x|
    ensures CrossPairs(x, w, m) == CrossPairs(x, w, m - 1) + RowCrossPairs(x, w, m - 1, |x|)
    ensures CrossPairs(x, w, m - 1) !! RowCrossPairs(x, w, m - 1, |x|)
  {
    forall p | p in CrossPairs(x, w, m)
      ensures p in CrossPairs(x, w, m - 1) + RowCrossPairs(x, w, m - 1, |x|)
    {
      if p.0 < m - 1 {
        assert p in CrossPairs(x, w, m - 1);
      } else {
        assert p in RowCrossPairs(x, w, m - 1, |x|);
      }
    }
  }

  lemma {:induction false} RowsValueCounts(x: seq<int>, w: Matrix, m: nat)
    requires IsBinary(x) && m <= |x|
    ensures RowsValue(x, w, m) == |CrossPairs(x, w, m)|
  {
    if m > 0 {
      RowsValueCounts(x, w, m - 1);
      RowValueCounts(x, w, m - 1, |x|);
      RowsValueStep(x, w, m);
    } else {
      assert CrossPairs(x, w, 0) == {};
    }
  }

  lemma RowsValueStep(x: seq<int>, w: Matrix, m: nat)
    requires 0 < m <= |x|
    requires RowsValue(x, w, m - 1) == |CrossPairs(x, w, m - 1)|
    requires RowValue(x, w, m - 1, |x|) == |RowCrossPairs(x, w, m - 1, |x|)|
    ensures RowsValue(x, w, m) == |CrossPairs(x, w, m)|
  {
    CrossPairsSplit(x, w, m);
    DisjointUnionCard(CrossPairs(x, w, m - 1), RowCrossPairs(x, w, m - 1, |x|));
  }

  /** Only whether an entry is zero matters, not its magnitude. */
  lemma {:induction false} ObjectiveValueIgnoresMagnitude(x: seq<int>, w: Matrix, v: Matrix)
    requires IsSquare(w) && IsSquare(v) && |x| == |w| == |v|
    requires forall i, j :: 0 <= i < |w| && 0 <= j < |w| ==> (w[i][j] == 0.0 <==> v[i][j] == 0.0)
    ensures ObjectiveValue(x, w) == ObjectiveValue(x, v)
  {
    RowsValueAgree(x, w, v, |x|);
  }

  lemma {:induction false} RowsValueAgree(x: seq<int>, w: Matrix, v: Matrix, m: nat)
    requires IsSquare(w) && IsSquare(v) && |x| == |w| == |v| && m <= |x|
    requires forall i, j :: 0 <= i < |w| && 0 <= j < |w| ==> (w[i][j] == 0.0 <==> v[i][j] == 0.0)
    ensures RowsValue(x, w, m) == RowsValue(x, v, m)
  {
    if m > 0 {
      RowsValueAgree(x, w, v, m - 1);
      RowValueAgree(x, w, v, m - 1, |x|);
    }
  }

  lemma {:induction false} RowValueAgree(x: seq<int>, w: Matrix, v: Matrix, i: nat, k: nat)
    requires IsSquare(w) && IsSquare(v) && |x| == |w| == |v| && i < |x| && k <= |x|
    requires forall i, j :: 0 <= i < |w| && 0 <= j < |w| ==> (w[i][j] == 0.0 <==> v[i][j] == 0.0)
    ensures RowValue(x, w, i, k) == RowValue(x, v, i, k)
  {
    if k > 0 {
      RowValueAgree(x, w, v, i, k - 1);
      assert HasEdge(w, i, k - 1) == HasEdge(v, i, k - 1);
    }
  }

  /** For a 0/1 assignment the diagonal never contributes: matrices that
      agree off the diagonal score alike. */
  lemma ObjectiveValueIgnoresDiagonal(x: seq<int>, w: Matrix, v: Matrix)
    requires IsSquare(w) && IsSquare(v) && |x| == |w| == |v| && IsBinary(x)
    requires forall i, j :: 0 <= i < |w| && 0 <= j < |w| && i != j ==> w[i][j] == v[i][j]
    ensures ObjectiveValue(x, w) == ObjectiveValue(x, v)
  {
    assert CrossPairs(x, w, |x|) == CrossPairs(x, v, |x|);
  }

  /** Putting every node on the same side scores 0. */
  lemma ObjectiveValueOneSided(x: seq<int>, w: Matrix, side: int)
    requires IsSquare(w) && |x| == |w|
    requires side == 0 || side == 1
    requires forall k :: 0 <= k < |x| ==> x[k] == side
    ensures ObjectiveValue(x, w) == 0
  {
    assert CrossPairs(x, w, |x|) == {};
  }

  /** For a 0/1 assignment the score lies between 0 and the number of
      nonzero off-diagonal entries. */
  lemma ObjectiveValueBounds(x: seq<int>, w: Matrix)
    requires IsSquare(w) && |x| == |w| && IsBinary(x)
    ensures 0 <= ObjectiveValue(x, w) <= |OffDiagonalEdges(w)|
  {
    SubsetCard(CrossPairs(x, w, |x|), OffDiagonalEdges(w));
  }

  lemma DisjointUnionCard(a: set<NodePair>, b: set<NodePair>)
    requires a !! b
    ensures |a + b| == |a| + |b|
  {
    assert a * b == {};
  }

  lemma {:induction false} SubsetCard(a: set<NodePair>, b: set<NodePair>)
    requires a <= b
    ensures |a| <= |b|
    decreases |b|
  {
    if a != {} {
      var p :| p in a;
      SubsetCard(a - {p}, b - {p});
    }
  }

  // ---------------------------------------------------------------------
  // Symmetric matrices: the directional count is the cut size

  /** Crossing pairs below the diagonal: edges cut with the 1-side first. */
  ghost function LowerCross(x: seq<int>, w: Matrix): set<NodePair>
    requires |x| == |w|
  {
    set i, j | 0 <= j < i < |w| && HasEdge(w, i, j) && x[i] == 1 && x[j] == 0 :: (i, j)
  }

  /** Crossing pairs above the diagonal. */
  ghost function UpperCross(x: seq<int>, w: Matrix): set<NodePair>
    requires |x| == |w|
  {
    set i, j | 0 <= i < j < |w| && HasEdge(w, i, j) && x[i] == 1 && x[j] == 0 :: (i, j)
  }

  /** Edges below the diagonal cut with the 0-side first. */
  ghost function LowerReverse(x: seq<int>, w: Matrix): set<NodePair>
    requires |x| == |w|
  {
    set i, j | 0 <= j < i < |w| && HasEdge(w, i, j) && x[i] == 0 && x[j] == 1 :: (i, j)
  }

  lemma CrossPairsHalves(x: seq<int>, w: Matrix)
    requires IsSquare(w) && |x| == |w| && IsBinary(x)
    ensures CrossPairs(x, w, |x|) == LowerCross(x, w) + UpperCross(x, w)
    ensures LowerCross(x, w) !! UpperCross(x, w)
  {
    forall p | p in CrossPairs(x, w, |x|)
      ensures p in LowerCross(x, w) + UpperCross(x, w)
    {
      if p.1 < p.0 {
        assert p in LowerCross(x, w);
      } else {
        assert p in UpperCross(x, w);
      }
    }
  }

  lemma CutEdgesHalves(x: seq<int>, w: Matrix)
    requires IsSquare(w) && |x| == |w| && IsBinary(x)
    ensures CutEdges(x, w) == LowerCross(x, w) + LowerReverse(x, w)
    ensures LowerCross(x, w) !! LowerReverse(x, w)
  {
    forall p | p in CutEdges(x, w)
      ensures p in LowerCross(x, w) + LowerReverse(x, w)
    {
      if x[p.0] == 1 {
        assert p in LowerCross(x, w);
      } else {
        assert p in LowerReverse(x, w);
      }
    }
  }

  lemma UpperMirrorsReverse(x: seq<int>, w: Matrix)
    requires IsSymmetric(w) && |x| == |w|
    ensures UpperCross(x, w) == Mirror(LowerReverse(x, w))
  {
    forall p | p in UpperCross(x, w) ensures p in Mirror(LowerReverse(x, w)) {
      assert HasEdge(w, p.1, p.0);
      assert Swap(p) in LowerReverse(x, w);
      assert Swap(Swap(p)) == p;
    }
    forall p | p in Mirror(LowerReverse(x, w)) ensures p in UpperCross(x, w) {
      var q :| q in LowerReverse(x, w) && Swap(q) == p;
      assert HasEdge(w, p.0, p.1);
    }
  }

  /** For symmetric w and a 0/1 assignment, objective_value is the number of
      unordered edges {i, j}, i != j, whose endpoints lie on different sides:
      each such edge is counted once, from its 1-side to its 0-side. */
  lemma ObjectiveValueIsCutSize(x: seq<int>, w: Matrix)
    requires IsSymmetric(w) && |x| == |w| && IsBinary(x)
    ensures ObjectiveValue(x, w) == |CutEdges(x, w)|
  {
    CrossPairsHalves(x, w);
    CutEdgesHalves(x, w);
    DisjointUnionCard(LowerCross(x, w), UpperCross(x, w));
    DisjointUnionCard(LowerCross(x, w), LowerReverse(x, w));
    UpperMirrorsReverse(x, w);
    MirrorCard(LowerReverse(x, w));
  }

  /** For symmetric w, a 0/1 assignment and its complement score alike. */
  lemma ObjectiveValueComplement(x: seq<int>, w: Matrix)
    requires IsSymmetric(w) && |x| == |w| && IsBinary(x)
    ensures ObjectiveValue(GraphSolution(x), w) == ObjectiveValue(x, w)
  {
    var y := GraphSolution(x);
    GraphSolutionFlipsSides(x);
    ObjectiveValueIsCutSize(x, w);
    ObjectiveValueIsCutSize(y, w);
    assert CutEdges(y, w) == CutEdges(x, w);
  }

  // ---------------------------------------------------------------------
  // From assignments to spins: s_k = 1 - 2 x_k

  function SpinsOf(x: seq<int>): (s: seq<real>)
    ensures |s| == |x|
  {
    seq(|x|, k requires 0 <= k < |x| => 1.0 - 2.0 * (x[k] as real))
  }

  /** The number of nodes on side 1 among the first k. */
  function Ones(x: seq<int>, k: nat): int
    requires k <= |x|
  {
    if k == 0 then 0 else Ones(x, k - 1) + x[k - 1]
  }

  lemma SpinsOfBinary(x: seq<int>)
    requires IsBinary(x)
    ensures IsSpinVector(SpinsOf(x))
    ensures forall i, j :: 0 <= i < |x| && 0 <= j < |x| ==> (SpinsOf(x)[i] != SpinsOf(x)[j] <==> x[i] != x[j])
  {
  }

  lemma {:induction false} SpinSumOfAssignment(x: seq<int>, k: nat)
    requires k <= |x|
    ensures SpinSum(SpinsOf(x), k) == (k - 2 * Ones(x, k)) as real
  {
    if k > 0 {
      SpinSumOfAssignment(x, k - 1);
    }
  }

  /** For symmetric w, the edge penalty H_A at the spins of a 0/1 assignment
      is the objective_value of that assignment. */
  lemma EdgePenaltyIsObjectiveValue(x: seq<int>, w: Matrix)
    requires IsSymmetric(w) && |x| == |w| && IsBinary(x)
    ensures EdgePenalty(w, SpinsOf(x)) == ObjectiveValue(x, w)
  {
    ObjectiveValueIsCutSize(x, w);
    SpinsOfBinary(x);
    assert CutPairs(w, SpinsOf(x)) == CutEdges(x, w);
  }

  /** The objective built by get_operator, evaluated at the spins of a 0/1
      assignment, is its cut size plus the squared difference of the two
      sides' sizes, (n - 2 * #ones)^2. */
  lemma OperatorScoresAssignment(x: seq<int>, w: Matrix)
    requires IsSymmetric(w) && |x| == |w| && IsBinary(x)
    ensures Eval(OperatorTerms(w), SpinsOf(x)) + OperatorShift(w)
         == ObjectiveValue(x, w) as real
          + ((|x| - 2 * Ones(x, |x|)) * (|x| - 2 * Ones(x, |x|))) as real
  {
    SpinsOfBinary(x);
    IsingIdentity(w, SpinsOf(x));
    EdgePenaltyIsObjectiveValue(x, w);
    BalanceOfAssignment(x);
    CombineScores(Eval(OperatorTerms(w), SpinsOf(x)) + OperatorShift(w), EdgePenalty(w, SpinsOf(x)),
      ObjectiveValue(x, w), BalancePenalty(SpinsOf(x)), (|x| - 2 * Ones(x, |x|)) * (|x| - 2 * Ones(x, |x|)));
  }

  /** H_B at the spins of a 0/1 assignment is (n - 2 * #ones)^2. */
  lemma BalanceOfAssignment(x: seq<int>)
    requires IsBinary(x)
    ensures BalancePenalty(SpinsOf(x))
         == ((|x| - 2 * Ones(x, |x|)) * (|x| - 2 * Ones(x, |x|))) as real
  {
    var s := SpinsOf(x);
    SpinsOfBinary(x);
    BalancePenaltyIsSquare(s);
    SpinSumOfAssignment(x, |x|);
    SquareAsReal(|x| - 2 * Ones(x, |x|), SpinSum(s, |s|));
  }

  lemma SquareAsReal(d: int, r: real)
    requires r == d as real
    ensures r * r == (d * d) as real
  {
  }

  lemma CombineScores(value: real, penalty: int, objective: int, balance: real, square: int)
    requires value == penalty as real + balance
    requires penalty == objective && balance == square as real
    ensures value == objective as real + square as real
  {
  }

  /** The balance penalty vanishes exactly when both sides have n/2 nodes. */
  lemma BalancedIffNoPenalty(x: seq<int>)
    requires IsBinary(x)
    ensures BalancePenalty(SpinsOf(x)) == 0.0 <==> |x| == 2 * Ones(x, |x|)
  {
    var d := |x| - 2 * Ones(x, |x|);
    BalanceOfAssignment(x);
    SquareZero(d);
  }

  /** With an odd number of nodes the two sides can never be equal: the
      balance penalty is at least 1, and it is exactly 1 when the sides
      differ by one node. */
  lemma OddSizeBalancePenalty(x: seq<int>)
    requires IsBinary(x) && |x| % 2 == 1
    ensures BalancePenalty(SpinsOf(x)) >= 1.0
    ensures BalancePenalty(SpinsOf(x)) == 1.0
        <==> (|x| == 2 * Ones(x, |x|) + 1 || |x| == 2 * Ones(x, |x|) - 1)
  {
    var d := |x| - 2 * Ones(x, |x|);
    assert d != 0;
    BalanceOfAssignment(x);
    NonzeroSquare(d);
  }

  lemma NonzeroSquare(d: int)
    requires d != 0
    ensures d * d >= 1
    ensures d * d == 1 <==> d == 1 || d == -1
  {
    if d > 1 {
      assert d * d >= 2 * d;
    } else if d < -1 {
      assert d * d == (-d) * (-d);
      assert (-d) * (-d) >= 2 * (-d);
    }
  }

  lemma SquareZero(d: int)
    ensures d * d == 0 <==> d == 0
  {
    if d != 0 {
      if d > 0 {
        assert d * d >= d;
      } else {
        assert d * d == (-d) * (-d);
        assert (-d) * (-d) >= -d;
      }
    }
  }

  /** The four-node cycle 0-1-2-3-0 with sides {0, 1} and {2, 3}: two edges
      (1-2 and 3-0) are cut. */
  lemma FourCycleExample()
    ensures ObjectiveValue([1, 1, 0, 0], [[0.0, 1.0, 0.0, 1.0], [1.0, 0.0, 1.0, 0.0],
                                          [0.0, 1.0, 0.0, 1.0], [1.0, 0.0, 1.0, 0.0]]) == 2
  {
    var x := [1, 1, 0, 0];
    var w := [[0.0, 1.0, 0.0, 1.0], [1.0, 0.0, 1.0, 0.0], [0.0, 1.0, 0.0, 1.0], [1.0, 0.0, 1.0, 0.0]];
    assert RowValue(x, w, 0, 4) == 1;
    assert RowValue(x, w, 1, 4) == 1;
    assert RowValue(x, w, 2, 4) == 0;
    assert RowValue(x, w, 3, 4) == 0;
  }
}
