/** The graph-partitioning objective in Ising form.

    An adjacency matrix is turned into a list of weighted two-node Z-Z
    interaction terms and a constant shift.  The terms come in two blocks:
    the edge (cut) penalty H_A = sum over edges of (1 - Zi*Zj)/2 and the
    balance penalty H_B = (sum_i Zi)^2 = sum_i Zi^2 + sum_{i != j} Zi*Zj.
 */
module GraphPartition {

  /** A dense adjacency matrix; entry w[i][j] != 0 means an edge i-j. */
  type Matrix = seq<seq<real>>

  /** A pair of node indices, ordered lexicographically below. */
  type NodePair = (int, int)

  predicate IsSquare(w: Matrix) {
    forall i :: 0 <= i < |w| ==> |w[i]| == |w|
  }

  /** True when w has a nonzero entry at (i, j); false outside the matrix. */
  predicate HasEdge(w: Matrix, i: int, j: int) {
    0 <= i < |w| && 0 <= j < |w[i]| && w[i][j] != 0.0
  }

  /** One Z-Z interaction: coef * Z_i * Z_j.  The Pauli of the source is a
      Z-mask with bits i and j set and no X bits; its support is {i, j}. */
  datatype Term = Term(coef: real, i: nat, j: nat) {
    function Ends(): NodePair { (i, j) }
    function Support(): set<nat> { {i, j} }
  }

  /** Row-major (lexicographic) strict order on node pairs. */
  predicate Before(p: NodePair, q: NodePair) {
    p.0 < q.0 || (p.0 == q.0 && p.1 < q.1)
  }

  /** The terms' index pairs strictly increase in row-major order. */
  predicate RowMajor(ts: seq<Term>) {
    forall a, b :: 0 <= a < b < |ts| ==> Before(ts[a].Ends(), ts[b].Ends())
  }

  /** The set of index pairs the terms act on. */
  ghost function TermPairs(ts: seq<Term>): set<NodePair> {
    set t | t in ts :: t.Ends()
  }

  // ---------------------------------------------------------------------
  // Reference definitions that follow the two loop nests of get_operator

  /** First loop nest, row i, columns j in [0, k): one -0.5 term per edge. */
  function EdgeRow(w: Matrix, i: nat, k: nat): seq<Term> {
    if k == 0 then []
    else EdgeRow(w, i, k - 1) + (if HasEdge(w, i, k - 1) then [Term(-0.5, i, k - 1)] else [])
  }

  /** First loop nest, rows [0, m), each row i scanning columns j < i. */
  function EdgeRows(w: Matrix, m: nat): seq<Term> {
    if m == 0 then [] else EdgeRows(w, m - 1) + EdgeRow(w, m - 1, m - 1)
  }

  /** Second loop nest, row i, columns j in [0, k): a +1 term for j != i. */
  function BalanceRow(i: nat, k: nat): seq<Term> {
    if k == 0 then []
    else BalanceRow(i, k - 1) + (if i != k - 1 then [Term(1.0, i, k - 1)] else [])
  }

  /** Second loop nest, rows [0, m), each row scanning all n columns. */
  function BalanceRows(n: nat, m: nat): seq<Term> {
    if m == 0 then [] else BalanceRows(n, m - 1) + BalanceRow(m - 1, n)
  }

  /** The pauli_list that get_operator hands to its operator. */
  function OperatorTerms(w: Matrix): seq<Term> {
    EdgeRows(w, |w|) + BalanceRows(|w|, |w|)
  }

  /** The shift that get_operator returns: 0.5 per edge term, 1 per node. */
  function OperatorShift(w: Matrix): real {
    0.5 * (|EdgeRows(w, |w|)| as real) + |w| as real
  }

  // ---------------------------------------------------------------------
  // Independent descriptions of what the terms should be

  /** The strict-lower-triangle edges (i, j), j < i < m, of the matrix. */
  ghost function EdgePairs(w: Matrix, m: nat): set<NodePair> {
    set i, j | 0 <= j < i < m && HasEdge(w, i, j) :: (i, j)
  }

  /** All ordered pairs of distinct nodes among the first m rows of n nodes. */
  ghost function OffDiagonalPairs(n: nat, m: nat): set<NodePair> {
    set i, j | 0 <= i < m && 0 <= j < n && i != j :: (i, j)
  }

  /** w and v have the same zero pattern on the strict lower triangle. */
  predicate SameLowerPattern(w: Matrix, v: Matrix) {
    |w| == |v| &&
    forall i, j :: 0 <= j < i < |w| ==> (HasEdge(w, i, j) <==> HasEdge(v, i, j))
  }

  // ---------------------------------------------------------------------
  // get_operator

  /** Builds the interaction terms and constant shift, as get_operator does:
      first the edge-penalty terms, then the balance-penalty terms, each
      loop nest appending to the same list and adding to the same shift. */
  method GetOperator(w: Matrix) returns (terms: seq<Term>, shift: real)
    requires IsSquare(w)
    ensures terms == OperatorTerms(w)
    ensures shift == OperatorShift(w)
    ensures |terms| == |EdgePairs(w, |w|)| + |w| * (|w| - 1)
    ensures shift == 0.5 * (|EdgePairs(w, |w|)| as real) + |w| as real
  {
    var edgeTerms, edgeShift := EdgeTerms(w);
    var balanceTerms, balanceShift := BalanceTerms(|w|);
    terms, shift := edgeTerms + balanceTerms, edgeShift + balanceShift;
    assert terms == OperatorTerms(w) && shift == OperatorShift(w);
    OperatorTermCount(w);
    OperatorShiftCountsEdges(w);
  }

  /** The first loop nest: for i < n and j < i, a nonzero w[i][j] appends a
      -0.5 term on {i, j} and adds 0.5 to the shift. */
  method EdgeTerms(w: Matrix) returns (terms: seq<Term>, shift: real)
    requires IsSquare(w)
    ensures terms == EdgeRows(w, |w|)
    ensures shift == 0.5 * (|terms| as real)
  {
    terms, shift := [], 0.0;
    for i := 0 to |w|
      invariant terms == EdgeRows(w, i)
      invariant shift == 0.5 * (|terms| as real)
    {
      assert EdgeRows(w, i + 1) == EdgeRows(w, i) + EdgeRow(w, i, i);
      for j := 0 to i
        invariant terms == EdgeRows(w, i) + EdgeRow(w, i, j)
        invariant shift == 0.5 * (|terms| as real)
      {
        assert EdgeRow(w, i, j + 1)
            == EdgeRow(w, i, j) + (if HasEdge(w, i, j) then [Term(-0.5, i, j)] else []);
        if w[i][j] != 0.0 {
          terms := terms + [Term(-0.5, i, j)];
          shift := shift + 0.5;
        }
      }
    }
  }

  /** The second loop nest: for every ordered pair (i, j) of nodes, i != j
      appends a +1 term on {i, j} and i == j adds 1 to the shift. */
  method BalanceTerms(n: nat) returns (terms: seq<Term>, shift: real)
    ensures terms == BalanceRows(n, n)
    ensures shift == n as real
  {
    terms, shift := [], 0.0;
    for i := 0 to n
      invariant terms == BalanceRows(n, i)
      invariant shift == i as real
    {
      assert BalanceRows(n, i + 1) == BalanceRows(n, i) + BalanceRow(i, n);
      for j := 0 to n
        invariant terms == BalanceRows(n, i) + BalanceRow(i, j)
        invariant shift == i as real + (if i < j then 1.0 else 0.0)
      {
        assert BalanceRow(i, j + 1)
            == BalanceRow(i, j) + (if i != j then [Term(1.0, i, j)] else []);
        if i != j {
          terms := terms + [Term(1.0, i, j)];
        } else {
          shift := shift + 1.0;
        }
      }
    }
  }

  /** get_graph_partition_qubitops is a deprecated alias of get_operator. */
  method GetGraphPartitionQubitOps(w: Matrix) returns (terms: seq<Term>, shift: real)
    requires IsSquare(w)
    ensures terms == OperatorTerms(w) && shift == OperatorShift(w)
  {
    terms, shift := GetOperator(w);
  }

  // ---------------------------------------------------------------------
  // Ordering and counting of term lists

  /** Every pair of a comes before every pair of b. */
  predicate AllBefore(a: seq<Term>, b: seq<Term>) {
    forall s, t :: s in a && t in b ==> Before(s.Ends(), t.Ends())
  }

  lemma RowMajorAppend(a: seq<Term>, b: seq<Term>)
    requires RowMajor(a) && RowMajor(b) && AllBefore(a, b)
    ensures RowMajor(a + b)
  {
    forall x, y | 0 <= x < y < |a + b|
      ensures Before((a + b)[x].Ends(), (a + b)[y].Ends())
    {
      if y < |a| {
      } else if x >= |a| {
        assert (a + b)[x] == b[x - |a|] && (a + b)[y] == b[y - |a|];
      } else {
        assert (a + b)[x] in a && (a + b)[y] in b;
      }
    }
  }

  /** Terms of rows below r come before the terms of row r. */
  lemma RowsBefore(a: seq<Term>, b: seq<Term>, r: int)
    requires forall s :: s in a ==> s.i < r
    requires forall t :: t in b ==> t.i == r
    ensures AllBefore(a, b)
  {
  }

  /** Terms of row t.i in columns below t.j come before t. */
  lemma ColumnsBefore(a: seq<Term>, t: Term)
    requires forall s :: s in a ==> s.i == t.i && s.j < t.j
    ensures AllBefore(a, [t])
  {
  }

  lemma TermPairsSingle(t: Term)
    ensures TermPairs([t]) == {t.Ends()}
  {
    assert t in [t];
  }

  lemma TermPairsAppend(a: seq<Term>, b: seq<Term>)
    ensures TermPairs(a + b) == TermPairs(a) + TermPairs(b)
  {
  }

  /** A row-major term list never repeats a pair: it has as many distinct
      pairs as terms. */
  lemma {:induction false} RowMajorCard(ts: seq<Term>)
    requires RowMajor(ts)
    ensures |TermPairs(ts)| == |ts|
  {
    if ts != [] {
      var init, last := ts[..|ts| - 1], ts[|ts| - 1];
      assert ts == init + [last];
      assert TermPairs(ts) == TermPairs(init) + {last.Ends()};
      assert RowMajor(init);
      assert last.Ends() !in TermPairs(init) by {
        forall t | t in init ensures t.Ends() != last.Ends() {
          var a :| 0 <= a < |init| && init[a] == t;
          assert Before(ts[a].Ends(), ts[|ts| - 1].Ends());
        }
      }
      RowMajorCard(init);
    }
  }

  // ---------------------------------------------------------------------
  // The edge block

  /** The strict-lower edges of row i among columns [0, k). */
  ghost function EdgeRowPairs(w: Matrix, i: nat, k: nat): set<NodePair> {
    set j | 0 <= j < k && HasEdge(w, i, j) :: (i, j)
  }

  lemma {:induction false} EdgeRowTerms(w: Matrix, i: nat, k: nat)
    ensures forall t :: t in EdgeRow(w, i, k) ==>
      t.coef == -0.5 && t.i == i && t.j < k && HasEdge(w, t.i, t.j)
  {
    if k > 0 {
      var c := k - 1;
      assert EdgeRow(w, i, k) == EdgeRow(w, i, c) + (if HasEdge(w, i, c) then [Term(-0.5, i, c)] else []);
      EdgeRowTerms(w, i, c);
    }
  }

  lemma {:induction false} EdgeRowOrdered(w: Matrix, i: nat, k: nat)
    ensures RowMajor(EdgeRow(w, i, k))
  {
    if k > 0 {
      var c := k - 1;
      var prev := EdgeRow(w, i, c);
      if HasEdge(w, i, c) {
        var t := Term(-0.5, i, c);
        assert EdgeRow(w, i, k) == prev + [t];
        EdgeRowOrdered(w, i, c);
        EdgeRowTerms(w, i, c);
        ColumnsBefore(prev, t);
        RowMajorAppend(prev, [t]);
      } else {
        assert EdgeRow(w, i, k) == prev;
        EdgeRowOrdered(w, i, c);
      }
    }
  }

  lemma {:induction false} EdgeRowCovers(w: Matrix, i: nat, k: nat)
    ensures TermPairs(EdgeRow(w, i, k)) == EdgeRowPairs(w, i, k)
  {
    if k > 0 {
      var c := k - 1;
      var prev := EdgeRow(w, i, c);
      if HasEdge(w, i, c) {
        var t := Term(-0.5, i, c);
        assert EdgeRow(w, i, k) == prev + [t];
        assert EdgeRowPairs(w, i, k) == EdgeRowPairs(w, i, c) + {(i, c)};
        TermPairsSingle(t);
        EdgeRowCovers(w, i, c);
        TermPairsAppend(prev, [t]);
      } else {
        assert EdgeRow(w, i, k) == prev;
        assert EdgeRowPairs(w, i, k) == EdgeRowPairs(w, i, c);
        EdgeRowCovers(w, i, c);
      }
    }
  }

  lemma EdgePairsSplit(w: Matrix, r: nat, m: nat)
    requires m == r + 1
    ensures EdgePairs(w, m) == EdgePairs(w, r) + EdgeRowPairs(w, r, r)
  {
    forall p | p in EdgePairs(w, m)
      ensures p in EdgePairs(w, r) + EdgeRowPairs(w, r, r)
    {
      if p.0 < r {
        assert p in EdgePairs(w, r);
      } else {
        assert p in EdgeRowPairs(w, r, r);
      }
    }
  }

  /** Every term of the first loop nest over rows [0, m) has coefficient
      -0.5 and sits on a nonzero entry (i, j) with j < i < m. */
  lemma {:induction false} EdgeRowsTerms(w: Matrix, m: nat)
    ensures forall t :: t in EdgeRows(w, m) ==>
      t.coef == -0.5 && t.j < t.i < m && HasEdge(w, t.i, t.j)
  {
    if m > 0 {
      var r := m - 1;
      assert EdgeRows(w, m) == EdgeRows(w, r) + EdgeRow(w, r, r);
      EdgeRowsTerms(w, r);
      EdgeRowTerms(w, r, r);
    }
  }

  /** The first loop nest emits its terms in strictly increasing row-major
      order. */
  lemma {:induction false} EdgeRowsOrdered(w: Matrix, m: nat)
    ensures RowMajor(EdgeRows(w, m))
  {
    if m > 0 {
      var r := m - 1;
      var prev, row := EdgeRows(w, r), EdgeRow(w, r, r);
      assert EdgeRows(w, m) == prev + row;
      EdgeRowsOrdered(w, r);
      EdgeRowOrdered(w, r, r);
      EdgeRowsTerms(w, r);
      EdgeRowTerms(w, r, r);
      RowsBefore(prev, row, r);
      RowMajorAppend(prev, row);
    }
  }

  /** The first loop nest over rows [0, m) covers exactly the nonzero
      strict-lower entries of those rows. */
  lemma {:induction false} EdgeRowsCovers(w: Matrix, m: nat)
    ensures TermPairs(EdgeRows(w, m)) == EdgePairs(w, m)
  {
    if m > 0 {
      var r := m - 1;
      var prev, row := EdgeRows(w, r), EdgeRow(w, r, r);
      assert EdgeRows(w, m) == prev + row;
      EdgePairsSplit(w, r, m);
      EdgeRowsCovers(w, r);
      EdgeRowCovers(w, r, r);
      TermPairsAppend(prev, row);
    }
  }

  /** The first loop nest emits, in row-major order, exactly one -0.5 term
      for each nonzero strict-lower entry of rows [0, m). */
  lemma EdgeRowsShape(w: Matrix, m: nat)
    ensures forall t :: t in EdgeRows(w, m) ==>
      t.coef == -0.5 && t.j < t.i < m && HasEdge(w, t.i, t.j)
    ensures RowMajor(EdgeRows(w, m))
    ensures TermPairs(EdgeRows(w, m)) == EdgePairs(w, m)
    ensures |EdgeRows(w, m)| == |EdgePairs(w, m)|
  {
    EdgeRowsTerms(w, m);
    EdgeRowsOrdered(w, m);
    EdgeRowsCovers(w, m);
    RowMajorCard(EdgeRows(w, m));
  }

  // ---------------------------------------------------------------------
  // The balance block

  /** The ordered pairs (i, j), j != i, of row i among columns [0, k). */
  ghost function BalanceRowPairs(i: nat, k: nat): set<NodePair> {
    set j | 0 <= j < k && j != i :: (i, j)
  }

  lemma {:induction false} BalanceRowTerms(i: nat, k: nat)
    ensures forall t :: t in BalanceRow(i, k) ==>
      t.coef == 1.0 && t.i == i && t.j < k && t.j != i
  {
    if k > 0 {
      var c := k - 1;
      assert BalanceRow(i, k) == BalanceRow(i, c) + (if i != c then [Term(1.0, i, c)] else []);
      BalanceRowTerms(i, c);
    }
  }

  lemma {:induction false} BalanceRowOrdered(i: nat, k: nat)
    ensures RowMajor(BalanceRow(i, k))
  {
    if k > 0 {
      var c := k - 1;
      var prev := BalanceRow(i, c);
      if i != c {
        var t := Term(1.0, i, c);
        assert BalanceRow(i, k) == prev + [t];
        BalanceRowOrdered(i, c);
        BalanceRowTerms(i, c);
        ColumnsBefore(prev, t);
        RowMajorAppend(prev, [t]);
      } else {
        assert BalanceRow(i, k) == prev;
        BalanceRowOrdered(i, c);
      }
    }
  }

  lemma {:induction false} BalanceRowCovers(i: nat, k: nat)
    ensures TermPairs(BalanceRow(i, k)) == BalanceRowPairs(i, k)
  {
    if k > 0 {
      var c := k - 1;
      var prev := BalanceRow(i, c);
      if i != c {
        var t := Term(1.0, i, c);
        assert BalanceRow(i, k) == prev + [t];
        assert BalanceRowPairs(i, k) == BalanceRowPairs(i, c) + {(i, c)};
        TermPairsSingle(t);
        BalanceRowCovers(i, c);
        TermPairsAppend(prev, [t]);
      } else {
        assert BalanceRow(i, k) == prev;
        assert BalanceRowPairs(i, k) == BalanceRowPairs(i, c);
        BalanceRowCovers(i, c);
      }
    }
  }

  /** Row i has a term for every column but the diagonal one. */
  lemma {:induction false} BalanceRowLength(i: nat, k: nat)
    ensures |BalanceRow(i, k)| == if i < k then k - 1 else k
  {
    if k > 0 {
      var c := k - 1;
      assert |BalanceRow(i, k)| == |BalanceRow(i, c)| + (if i != c then 1 else 0);
      BalanceRowLength(i, c);
    }
  }

  lemma OffDiagonalSplit(n: nat, r: nat, m: nat)
    requires m == r + 1 && m <= n
    ensures OffDiagonalPairs(n, m) == OffDiagonalPairs(n, r) + BalanceRowPairs(r, n)
  {
    forall p | p in OffDiagonalPairs(n, m)
      ensures p in OffDiagonalPairs(n, r) + BalanceRowPairs(r, n)
    {
      if p.0 < r {
        assert p in OffDiagonalPairs(n, r);
      } else {
        assert p in BalanceRowPairs(r, n);
      }
    }
  }

  /** Every term of the second loop nest over rows [0, m) has coefficient +1
      and two distinct indices, the first below m and the second below n. */
  lemma {:induction false} BalanceRowsTerms(n: nat, m: nat)
    ensures forall t :: t in BalanceRows(n, m) ==>
      t.coef == 1.0 && t.i < m && t.j < n && t.i != t.j
  {
    if m > 0 {
      var r := m - 1;
      assert BalanceRows(n, m) == BalanceRows(n, r) + BalanceRow(r, n);
      BalanceRowsTerms(n, r);
      BalanceRowTerms(r, n);
    }
  }

  /** The second loop nest emits its terms in strictly increasing row-major
      order. */
  lemma {:induction false} BalanceRowsOrdered(n: nat, m: nat)
    ensures RowMajor(BalanceRows(n, m))
  {
    if m > 0 {
      var r := m - 1;
      var prev, row := BalanceRows(n, r), BalanceRow(r, n);
      assert BalanceRows(n, m) == prev + row;
      BalanceRowsOrdered(n, r);
      BalanceRowOrdered(r, n);
      BalanceRowsTerms(n, r);
      BalanceRowTerms(r, n);
      RowsBefore(prev, row, r);
      RowMajorAppend(prev, row);
    }
  }

  /** The second loop nest over rows [0, m) covers exactly the ordered pairs
      (i, j), i != j, i < m, j < n. */
  lemma {:induction false} BalanceRowsCovers(n: nat, m: nat)
    requires m <= n
    ensures TermPairs(BalanceRows(n, m)) == OffDiagonalPairs(n, m)
  {
    if m > 0 {
      var r := m - 1;
      var prev, row := BalanceRows(n, r), BalanceRow(r, n);
      assert BalanceRows(n, m) == prev + row;
      OffDiagonalSplit(n, r, m);
      BalanceRowsCovers(n, r);
      BalanceRowCovers(r, n);
      TermPairsAppend(prev, row);
    }
  }

  /** The second loop nest over rows [0, m) emits m * (n - 1) terms. */
  lemma {:induction false} BalanceRowsLength(n: nat, m: nat)
    requires m <= n
    ensures |BalanceRows(n, m)| == m * (n - 1)
  {
    if m > 0 {
      var r := m - 1;
      assert |BalanceRows(n, m)| == |BalanceRows(n, r)| + |BalanceRow(r, n)|;
      BalanceRowsLength(n, r);
      BalanceRowLength(r, n);
    }
  }

  /** The second loop nest over rows [0, m) emits, in row-major order, one +1
      term for each ordered pair (i, j), i != j, i < m, j < n: m * (n - 1)
      terms. */
  lemma BalanceRowsShape(n: nat, m: nat)
    requires m <= n
    ensures forall t :: t in BalanceRows(n, m) ==>
      t.coef == 1.0 && t.i < m && t.j < n && t.i != t.j
    ensures RowMajor(BalanceRows(n, m))
    ensures TermPairs(BalanceRows(n, m)) == OffDiagonalPairs(n, m)
    ensures |BalanceRows(n, m)| == m * (n - 1)
  {
    BalanceRowsTerms(n, m);
    BalanceRowsOrdered(n, m);
    BalanceRowsCovers(n, m);
    BalanceRowsLength(n, m);
  }

  // ---------------------------------------------------------------------
  // Properties of get_operator's result

  /** The list starts with the edge terms: coefficient -0.5, one per nonzero
      strict-lower entry (j < i), in row-major order and no other. */
  lemma OperatorEdgeTerms(w: Matrix)
    requires IsSquare(w)
    ensures |EdgePairs(w, |w|)| <= |OperatorTerms(w)|
    ensures forall a :: 0 <= a < |EdgePairs(w, |w|)| ==>
      var t := OperatorTerms(w)[a];
      t.coef == -0.5 && t.j < t.i < |w| && w[t.i][t.j] != 0.0
    ensures RowMajor(OperatorTerms(w)[..|EdgePairs(w, |w|)|])
    ensures TermPairs(OperatorTerms(w)[..|EdgePairs(w, |w|)|]) == EdgePairs(w, |w|)
  {
    var e := EdgeRows(w, |w|);
    assert OperatorTerms(w)[..|e|] == e;
    forall a | 0 <= a < |e| ensures OperatorTerms(w)[a] in e {
      assert OperatorTerms(w)[a] == e[a];
    }
    EdgeRowsShape(w, |w|);
  }

  /** After the edge terms come only terms of coefficient +1, one per ordered
      pair of distinct nodes, in row-major order. */
  lemma OperatorBalanceTerms(w: Matrix)
    ensures |EdgePairs(w, |w|)| <= |OperatorTerms(w)|
    ensures forall a :: |EdgePairs(w, |w|)| <= a < |OperatorTerms(w)| ==>
      var t := OperatorTerms(w)[a];
      t.coef == 1.0 && t.i != t.j && t.i < |w| && t.j < |w|
    ensures RowMajor(OperatorTerms(w)[|EdgePairs(w, |w|)|..])
    ensures TermPairs(OperatorTerms(w)[|EdgePairs(w, |w|)|..]) == OffDiagonalPairs(|w|, |w|)
  {
    var e, b := EdgeRows(w, |w|), BalanceRows(|w|, |w|);
    assert OperatorTerms(w)[|e|..] == b;
    forall a | |e| <= a < |e| + |b| ensures OperatorTerms(w)[a] in b {
      assert OperatorTerms(w)[a] == b[a - |e|];
    }
    EdgeRowsShape(w, |w|);
    BalanceRowsTerms(|w|, |w|);
    BalanceRowsOrdered(|w|, |w|);
    BalanceRowsCovers(|w|, |w|);
  }

  /** Total term count: (#nonzero strict-lower entries) + n * (n - 1). */
  lemma OperatorTermCount(w: Matrix)
    ensures |OperatorTerms(w)| == |EdgePairs(w, |w|)| + |w| * (|w| - 1)
  {
    EdgeRowsShape(w, |w|);
    BalanceRowsLength(|w|, |w|);
  }

  /** The shift is 0.5 per nonzero strict-lower entry plus 1 per node. */
  lemma OperatorShiftCountsEdges(w: Matrix)
    ensures OperatorShift(w) == 0.5 * (|EdgePairs(w, |w|)| as real) + |w| as real
  {
    EdgeRowsShape(w, |w|);
  }

  /** Every term acts on exactly two distinct nodes, both in [0, n). */
  lemma OperatorTermsTwoLocal(w: Matrix)
    ensures forall t :: t in OperatorTerms(w) ==>
      t.i != t.j && t.i < |w| && t.j < |w| && |t.Support()| == 2
  {
    EdgeRowsShape(w, |w|);
    BalanceRowsTerms(|w|, |w|);
  }

  /** Only the zero pattern of the strict lower triangle is read: the
      diagonal, the upper triangle and the weights' magnitudes never matter. */
  lemma {:induction false} OperatorReadsStrictLower(w: Matrix, v: Matrix)
    requires SameLowerPattern(w, v)
    ensures OperatorTerms(w) == OperatorTerms(v)
    ensures OperatorShift(w) == OperatorShift(v)
  {
    EdgeRowsAgree(w, v, |w|);
  }

  lemma {:induction false} EdgeRowsAgree(w: Matrix, v: Matrix, m: nat)
    requires SameLowerPattern(w, v) && m <= |w|
    ensures EdgeRows(w, m) == EdgeRows(v, m)
  {
    if m > 0 {
      EdgeRowsAgree(w, v, m - 1);
      EdgeRowAgree(w, v, m - 1, m - 1);
    }
  }

  lemma {:induction false} EdgeRowAgree(w: Matrix, v: Matrix, i: nat, k: nat)
    requires SameLowerPattern(w, v) && k <= i < |w|
    ensures EdgeRow(w, i, k) == EdgeRow(v, i, k)
  {
    if k > 0 {
      EdgeRowAgree(w, v, i, k - 1);
    }
  }

  /** The n x n zero matrix. */
  function ZeroMatrix(n: nat): (z: Matrix)
    ensures |z| == n && IsSquare(z)
  {
    seq(n, _ => seq(n, _ => 0.0))
  }

  /** For the zero matrix: no edge terms, n * (n - 1) terms of coefficient +1
      and shift n. */
  lemma ZeroMatrixOperator(n: nat)
    ensures |OperatorTerms(ZeroMatrix(n))| == n * (n - 1)
    ensures forall t :: t in OperatorTerms(ZeroMatrix(n)) ==> t.coef == 1.0
    ensures OperatorShift(ZeroMatrix(n)) == n as real
  {
    var z := ZeroMatrix(n);
    assert EdgePairs(z, n) == {};
    OperatorShiftCountsEdges(z);
    OperatorTermCount(z);
    EdgeRowsShape(z, n);
    BalanceRowsTerms(n, n);
  }

  // ---------------------------------------------------------------------
  // Symmetric matrices: the strict lower triangle mirrors the upper one

  predicate IsSymmetric(w: Matrix) {
    IsSquare(w) && forall i, j :: 0 <= i < |w| && 0 <= j < |w| ==> w[i][j] == w[j][i]
  }

  /** The strict-upper-triangle edges (i, j), i < j < n, of the matrix. */
  ghost function UpperEdges(w: Matrix): set<NodePair> {
    set i, j | 0 <= i < j < |w| && HasEdge(w, i, j) :: (i, j)
  }

  function Swap(p: NodePair): NodePair {
    (p.1, p.0)
  }

  ghost function Mirror(a: set<NodePair>): set<NodePair> {
    set p | p in a :: Swap(p)
  }

  lemma {:induction false} MirrorCard(a: set<NodePair>)
    ensures |Mirror(a)| == |a|
    decreases |a|
  {
    if a != {} {
      var p :| p in a;
      MirrorCard(a - {p});
      assert Mirror(a) == Mirror(a - {p}) + {Swap(p)};
      assert Swap(p) !in Mirror(a - {p});
    }
  }

  lemma UpperMirrorsLower(w: Matrix)
    requires IsSymmetric(w)
    ensures UpperEdges(w) == Mirror(EdgePairs(w, |w|))
  {
    forall p | p in UpperEdges(w) ensures p in Mirror(EdgePairs(w, |w|)) {
      assert HasEdge(w, p.1, p.0);
      assert Swap(p) in EdgePairs(w, |w|);
      assert Swap(Swap(p)) == p;
    }
    forall p | p in Mirror(EdgePairs(w, |w|)) ensures p in UpperEdges(w) {
      var q :| q in EdgePairs(w, |w|) && Swap(q) == p;
      assert HasEdge(w, p.0, p.1);
    }
  }

  /** For a symmetric matrix, reading the strict lower triangle counts every
      undirected edge {i, j}, i != j, once: the edge block has one term per
      nonzero upper-triangle entry, and the shift is 0.5 per such entry plus
      1 per node. */
  lemma SymmetricEdgeCount(w: Matrix)
    requires IsSymmetric(w)
    ensures |EdgeRows(w, |w|)| == |UpperEdges(w)|
    ensures |OperatorTerms(w)| == |UpperEdges(w)| + |w| * (|w| - 1)
    ensures OperatorShift(w) == 0.5 * (|UpperEdges(w)| as real) + |w| as real
  {
    UpperMirrorsLower(w);
    MirrorCard(EdgePairs(w, |w|));
    EdgeRowsShape(w, |w|);
    OperatorTermCount(w);
    OperatorShiftCountsEdges(w);
  }

  // ---------------------------------------------------------------------
  // Evaluation at a spin vector

  predicate IsSpinVector(s: seq<real>) {
    forall k :: 0 <= k < |s| ==> s[k] == 1.0 || s[k] == -1.0
  }

  /** The spin of node k (0 for an index outside the vector). */
  function Spin(s: seq<real>, k: nat): real {
    if k < |s| then s[k] else 0.0
  }

  /** coef * s_i * s_j for spins s_i, s_j in {+1, -1}: the product of the
      two spins is +1 when they agree and -1 when they differ. */
  function TermValue(t: Term, s: seq<real>): real {
    if Spin(s, t.i) == Spin(s, t.j) then t.coef else -t.coef
  }

  /** The value of sum_t coef_t * s[i_t] * s[j_t]. */
  function Eval(ts: seq<Term>, s: seq<real>): real {
    if ts == [] then 0.0 else Eval(ts[..|ts| - 1], s) + TermValue(ts[|ts| - 1], s)
  }

  /** TermValue is the product coef * s_i * s_j at every spin vector. */
  lemma TermValueIsProduct(t: Term, s: seq<real>)
    requires IsSpinVector(s) && t.i < |s| && t.j < |s|
    ensures TermValue(t, s) == t.coef * s[t.i] * s[t.j]
  {
    assert s[t.i] == 1.0 || s[t.i] == -1.0;
    assert s[t.j] == 1.0 || s[t.j] == -1.0;
  }

  /** The first k spins added up. */
  function SpinSum(s: seq<real>, k: nat): real
    requires k <= |s|
  {
    if k == 0 then 0.0 else SpinSum(s, k - 1) + s[k - 1]
  }

  /** Edges of the strict lower triangle whose endpoints have opposite spins. */
  ghost function CutPairs(w: Matrix, s: seq<real>): set<NodePair>
    requires |s| == |w|
  {
    set i, j | 0 <= j < i < |w| && HasEdge(w, i, j) && s[i] != s[j] :: (i, j)
  }

  /** H_A: the number of edges cut by the spin assignment. */
  ghost function EdgePenalty(w: Matrix, s: seq<real>): nat
    requires |s| == |w|
  {
    |CutPairs(w, s)|
  }

  /** H_B: the squared imbalance (sum_i s_i)^2. */
  function BalancePenalty(s: seq<real>): real {
    SignedSum(s, |s|, SpinSum(s, |s|))
  }

  lemma {:induction false} EvalAppend(a: seq<Term>, b: seq<Term>, s: seq<real>)
    ensures Eval(a + b, s) == Eval(a, s) + Eval(b, s)
  {
    if b != [] {
      var init := b[..|b| - 1];
      EvalAppend(a, init, s);
      assert (a + b)[..|a + b| - 1] == a + init;
      assert (a + b)[|a + b| - 1] == b[|b| - 1];
    } else {
      assert a + b == a;
    }
  }

  /** The terms whose two spins differ, in list order. */
  function CutTerms(ts: seq<Term>, s: seq<real>): seq<Term> {
    if ts == [] then []
    else
      var t := ts[|ts| - 1];
      CutTerms(ts[..|ts| - 1], s) + (if Spin(s, t.i) != Spin(s, t.j) then [t] else [])
  }

  lemma {:induction false} CutTermsShape(ts: seq<Term>, s: seq<real>)
    requires RowMajor(ts)
    ensures RowMajor(CutTerms(ts, s))
    ensures forall t :: t in CutTerms(ts, s) <==> t in ts && Spin(s, t.i) != Spin(s, t.j)
  {
    if ts != [] {
      var init, t := ts[..|ts| - 1], ts[|ts| - 1];
      assert ts == init + [t];
      CutTermsShape(init, s);
      forall u | u in CutTerms(init, s) ensures Before(u.Ends(), t.Ends()) {
        var a :| 0 <= a < |init| && init[a] == u;
        assert ts[a] == u;
      }
      RowMajorAppend(CutTerms(init, s), [t]);
    }
  }

  /** Each -0.5 term plus its 0.5 of shift counts 1 exactly when its two
      spins differ: (1 - s_i*s_j)/2. */
  lemma {:induction false} EdgeBlockEval(ts: seq<Term>, s: seq<real>)
    requires IsSpinVector(s)
    requires forall t :: t in ts ==> t.coef == -0.5 && t.i < |s| && t.j < |s|
    ensures Eval(ts, s) + 0.5 * (|ts| as real) == |CutTerms(ts, s)| as real
  {
    if ts != [] {
      var init, t := ts[..|ts| - 1], ts[|ts| - 1];
      EdgeBlockEval(init, s);
      assert t in ts;
      assert s[t.i] == 1.0 || s[t.i] == -1.0;
      assert s[t.j] == 1.0 || s[t.j] == -1.0;
    }
  }

  lemma {:induction false} EvalSnoc(ts: seq<Term>, t: Term, s: seq<real>)
    ensures Eval(ts + [t], s) == Eval(ts, s) + TermValue(t, s)
  {
    assert (ts + [t])[..|ts|] == ts;
  }

  /** x if the spin is +1, -x if it is -1: the product spin * x. */
  function Signed(spin: real, x: real): real {
    if spin == 1.0 then x else -x
  }

  /** Row i of the balance block evaluates to s_i * (s_0 + ... + s_{k-1}),
      less s_i * s_i = 1 once the diagonal column i has been passed. */
  lemma {:induction false} BalanceRowEval(s: seq<real>, i: nat, k: nat)
    requires IsSpinVector(s) && i < |s| && k <= |s|
    ensures Eval(BalanceRow(i, k), s) == Signed(s[i], SpinSum(s, k)) - (if i < k then 1.0 else 0.0)
  {
    if k > 0 {
      var c := k - 1;
      var prev := BalanceRow(i, c);
      assert SpinSum(s, k) == SpinSum(s, c) + s[c];
      assert s[i] == 1.0 || s[i] == -1.0;
      assert s[c] == 1.0 || s[c] == -1.0;
      if i != c {
        var t := Term(1.0, i, c);
        assert BalanceRow(i, k) == prev + [t];
        assert TermValue(t, s) == Signed(s[i], s[c]);
        BalanceRowEval(s, i, c);
        EvalSnoc(prev, t, s);
      } else {
        assert BalanceRow(i, k) == prev;
        BalanceRowEval(s, i, c);
      }
    }
  }

  /** sum over i < m of s_i * total. */
  function SignedSum(s: seq<real>, m: nat, total: real): real
    requires m <= |s|
  {
    if m == 0 then 0.0 else SignedSum(s, m - 1, total) + Signed(s[m - 1], total)
  }

  lemma {:induction false} SignedSumFactor(s: seq<real>, m: nat, total: real)
    requires IsSpinVector(s) && m <= |s|
    ensures SignedSum(s, m, total) == SpinSum(s, m) * total
  {
    if m > 0 {
      SignedSumFactor(s, m - 1, total);
      assert s[m - 1] == 1.0 || s[m - 1] == -1.0;
      Distribute(total, SpinSum(s, m - 1), s[m - 1]);
    }
  }

  lemma Distribute(a: real, x: real, y: real)
    ensures (x + y) * a == x * a + y * a
  {
  }

  /** Rows [0, m) of the balance block evaluate to
      (s_0 + ... + s_{m-1}) * (s_0 + ... + s_{n-1}) - m. */
  lemma {:induction false} BalanceRowsEval(s: seq<real>, m: nat)
    requires IsSpinVector(s) && m <= |s|
    ensures Eval(BalanceRows(|s|, m), s) == SignedSum(s, m, SpinSum(s, |s|)) - m as real
  {
    if m > 0 {
      var k := m - 1;
      var prev, row, total := BalanceRows(|s|, k), BalanceRow(k, |s|), SpinSum(s, |s|);
      assert BalanceRows(|s|, m) == prev + row;
      assert SignedSum(s, m, total) == SignedSum(s, k, total) + Signed(s[k], total);
      BalanceRowsEval(s, k);
      BalanceFullRowEval(s, k);
      EvalAppend(prev, row, s);
      AddRow(Eval(prev, s), Eval(row, s), SignedSum(s, k, total), Signed(s[k], total), m);
    } else {
      assert BalanceRows(|s|, 0) == [];
    }
  }

  /** A whole row i of the balance block: s_i * (s_0 + ... + s_{n-1}) - 1. */
  lemma BalanceFullRowEval(s: seq<real>, i: nat)
    requires IsSpinVector(s) && i < |s|
    ensures Eval(BalanceRow(i, |s|), s) == Signed(s[i], SpinSum(s, |s|)) - 1.0
  {
    BalanceRowEval(s, i, |s|);
  }

  lemma AddRow(prev: real, row: real, signedPrev: real, signedRow: real, m: nat)
    requires m > 0
    requires prev == signedPrev - (m - 1) as real && row == signedRow - 1.0
    ensures prev + row == (signedPrev + signedRow) - m as real
  {
  }

  /** The edge block with its 0.5-per-term share of the shift evaluates to
      H_A, the number of cut edges. */
  lemma EdgeBlockIdentity(w: Matrix, s: seq<real>)
    requires IsSquare(w) && |s| == |w| && IsSpinVector(s)
    ensures Eval(EdgeRows(w, |w|), s) + 0.5 * (|EdgeRows(w, |w|)| as real) == EdgePenalty(w, s) as real
  {
    var e := EdgeRows(w, |w|);
    EdgeRowsShape(w, |w|);
    EdgeBlockEval(e, s);
    CutTermsShape(e, s);
    var c := CutTerms(e, s);
    RowMajorCard(c);
    forall p | p in CutPairs(w, s) ensures p in TermPairs(c) {
      assert p in EdgePairs(w, |w|);
      var t :| t in e && t.Ends() == p;
      assert t in c;
    }
    assert TermPairs(c) == CutPairs(w, s);
  }

  /** The balance block with the shift's 1 per node evaluates to H_B. */
  lemma BalanceBlockIdentity(s: seq<real>)
    requires IsSpinVector(s)
    ensures Eval(BalanceRows(|s|, |s|), s) + |s| as real == BalancePenalty(s)
  {
    BalanceRowsEval(s, |s|);
  }

  lemma BalancePenaltyIsSquare(s: seq<real>)
    requires IsSpinVector(s)
    ensures BalancePenalty(s) == SpinSum(s, |s|) * SpinSum(s, |s|)
  {
    SignedSumFactor(s, |s|, SpinSum(s, |s|));
  }

  /** The Hamiltonian identity: at any spin vector, the terms plus the shift
      evaluate to H_A + H_B, the number of cut edges plus (sum_i s_i)^2. */
  lemma IsingIdentity(w: Matrix, s: seq<real>)
    requires IsSquare(w) && |s| == |w| && IsSpinVector(s)
    ensures Eval(OperatorTerms(w), s) + OperatorShift(w)
         == EdgePenalty(w, s) as real + BalancePenalty(s)
  {
    EvalAppend(EdgeRows(w, |w|), BalanceRows(|w|, |w|), s);
    EdgeBlockIdentity(w, s);
    BalanceBlockIdentity(s);
  }

  /** sum_t coef_t * s[i_t] * s[j_t], written with products. */
  function ProductEval(ts: seq<Term>, s: seq<real>): real {
    if ts == [] then 0.0
    else
      var t := ts[|ts| - 1];
      ProductEval(ts[..|ts| - 1], s) + t.coef * Spin(s, t.i) * Spin(s, t.j)
  }

  lemma {:induction false} ProductEvalIsEval(ts: seq<Term>, s: seq<real>)
    requires IsSpinVector(s)
    requires forall t :: t in ts ==> t.i < |s| && t.j < |s|
    ensures ProductEval(ts, s) == Eval(ts, s)
  {
    if ts != [] {
      var k := |ts| - 1;
      var prev, t := ts[..k], ts[k];
      assert ProductEval(ts, s) == ProductEval(prev, s) + t.coef * Spin(s, t.i) * Spin(s, t.j);
      assert Eval(ts, s) == Eval(prev, s) + TermValue(t, s);
      assert forall u :: u in prev ==> u in ts;
      ProductEvalIsEval(prev, s);
      TermValueIsProduct(t, s);
    }
  }

  /** The Hamiltonian H = H_A + H_B in one statement: at every spin vector,
      sum_t coef_t * s_i * s_j + shift equals the number of cut edges plus
      (sum_i s_i)^2. */
  lemma IsingHamiltonian(w: Matrix, s: seq<real>)
    requires IsSquare(w) && |s| == |w| && IsSpinVector(s)
    ensures ProductEval(OperatorTerms(w), s) + OperatorShift(w)
         == EdgePenalty(w, s) as real + SpinSum(s, |s|) * SpinSum(s, |s|)
  {
    OperatorTermsTwoLocal(w);
    ProductEvalIsEval(OperatorTerms(w), s);
    IsingIdentity(w, s);
    BalancePenaltyIsSquare(s);
  }

  /** The two-node, one-edge graph: one -0.5 term, two +1 terms, shift 2.5;
      at spins (+1, -1) the objective is 1 (one cut edge, no imbalance). */
  lemma TwoNodeExample()
    ensures OperatorTerms([[0.0, 1.0], [1.0, 0.0]])
         == [Term(-0.5, 1, 0), Term(1.0, 0, 1), Term(1.0, 1, 0)]
    ensures OperatorShift([[0.0, 1.0], [1.0, 0.0]]) == 2.5
    ensures Eval(OperatorTerms([[0.0, 1.0], [1.0, 0.0]]), [1.0, -1.0])
          + OperatorShift([[0.0, 1.0], [1.0, 0.0]]) == 1.0
  {
    var w := [[0.0, 1.0], [1.0, 0.0]];
    assert EdgeRow(w, 1, 1) == [Term(-0.5, 1, 0)];
    assert EdgeRows(w, 2) == [Term(-0.5, 1, 0)];
    assert BalanceRow(0, 2) == [Term(1.0, 0, 1)];
    assert BalanceRow(1, 2) == [Term(1.0, 1, 0)];
    assert BalanceRows(2, 2) == [Term(1.0, 0, 1), Term(1.0, 1, 0)];
    var ts := [Term(-0.5, 1, 0), Term(1.0, 0, 1), Term(1.0, 1, 0)];
    var s := [1.0, -1.0];
    assert Eval(ts[..1], s) == 0.5 by {
      assert ts[..1][..0] == [];
    }
    assert ts[..2][..1] == ts[..1];
    assert Eval(ts[..2], s) == -0.5;
    assert ts[..3][..2] == ts[..2];
    assert Eval(ts, s) == -1.5;
  }
}
