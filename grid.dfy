/** The playing grid shared by the engine and the evaluation tools.

    The engine works on a mutable N x N grid (an `array2<int>`) holding 0 for an
    empty cell, 1 for a black stone and 2 for a white one.  Specifications are
    stated over an immutable snapshot of that grid, a `Board`, and every method
    that reads or probes the grid is tied to the snapshot by `Snapshot`. */
module Grid {

  /** The engine's fixed board width (`GomokuAI.board_size`). */
  const BoardSize: nat := 15

  const Empty: int := 0
  const Black: int := 1
  const White: int := 2

  /** The two sides; the grid stores them as the cell values 1 and 2. */
  type Player = p: int | p == 1 || p == 2 witness 1

  /** The other side, defined by cases rather than by arithmetic on the encoding. */
  function Opponent(p: Player): (q: Player)
    ensures q != p && (q == Black <==> p == White)
  {
    if p == Black then White else Black
  }

  /** A (row, column) pair. */
  type Move = (int, int)

  /** An immutable snapshot of the grid: a sequence of rows. */
  type Board = seq<seq<int>>

  predicate IsSquare(b: Board)
  {
    forall i :: 0 <= i < |b| ==> |b[i]| == |b|
  }

  predicate InBounds(n: int, r: int, c: int)
  {
    0 <= r < n && 0 <= c < n
  }

  predicate OnBoard(b: Board, m: Move)
  {
    InBounds(|b|, m.0, m.1)
  }

  /** The cell at `m` is on the board and holds no stone. */
  predicate IsFree(b: Board, m: Move)
    requires IsSquare(b)
  {
    OnBoard(b, m) && b[m.0][m.1] == Empty
  }

  /** The board with cell (r, c) set to `v`: a stone placed or a cell cleared.
      Off the board nothing changes (the engine only ever writes on the board). */
  function Place(b: Board, r: int, c: int, v: int): (b': Board)
    requires IsSquare(b)
    ensures |b'| == |b| && IsSquare(b')
    ensures InBounds(|b|, r, c) ==> b'[r][c] == v
    ensures forall i, j :: InBounds(|b|, i, j) && (i != r || j != c) ==> b'[i][j] == b[i][j]
  {
    if InBounds(|b|, r, c) then b[r := b[r][c := v]] else b
  }

  /** Placing a stone on a free cell and clearing it again gives the board back. */
  lemma PlaceUndo(b: Board, r: int, c: int, v: int)
    requires IsSquare(b) && InBounds(|b|, r, c) && b[r][c] == Empty
    ensures Place(Place(b, r, c, v), r, c, Empty) == b
  {
    var b' := Place(Place(b, r, c, v), r, c, Empty);
    forall i | 0 <= i < |b| ensures b'[i] == b[i] {
      assert |b'[i]| == |b[i]|;
    }
  }

  /** The grid is square and `n` cells wide. */
  predicate GridOfSize(g: array2<int>, n: int)
  {
    g.Length0 == n && g.Length1 == n
  }

  /** The current contents of the grid as a `Board`. */
  function Snapshot(g: array2<int>): (b: Board)
    reads g
    requires g.Length0 == g.Length1
    ensures |b| == g.Length0 && IsSquare(b)
    ensures forall i, j :: InBounds(|b|, i, j) ==> b[i][j] == g[i, j]
  {
    seq(g.Length0, i requires 0 <= i < g.Length0 reads g =>
      seq(g.Length1, j requires 0 <= j < g.Length1 reads g => g[i, j]))
  }

  /** A board that agrees with the grid cell by cell is its snapshot. */
  lemma SnapshotIs(g: array2<int>, b: Board)
    requires g.Length0 == g.Length1 == |b| && IsSquare(b)
    requires forall i, j :: InBounds(|b|, i, j) ==> b[i][j] == g[i, j]
    ensures Snapshot(g) == b
  {
    var s := Snapshot(g);
    forall i | 0 <= i < |b| ensures s[i] == b[i] {
      assert |s[i]| == |b[i]|;
    }
  }

  // ---------------------------------------------------------------------------
  // Row-major order

  /** `m1` comes strictly before `m2` when the grid is read row by row. */
  predicate Before(m1: Move, m2: Move)
  {
    m1.0 < m2.0 || (m1.0 == m2.0 && m1.1 < m2.1)
  }

  /** Strictly increasing in row-major order (so also free of repetitions). */
  ghost predicate RowMajorSorted(s: seq<Move>)
  {
    forall k, l :: 0 <= k < l < |s| ==> Before(s[k], s[l])
  }

  /** The cells (r, 0), ..., (r, j - 1). */
  function RowCells(r: int, j: nat): (s: seq<Move>)
    ensures |s| == j
  {
    if j == 0 then [] else RowCells(r, j - 1) + [(r, j - 1)]
  }

  /** The cells of rows 0, ..., i - 1 of an n-wide grid, row by row. */
  function GridCells(n: nat, i: nat): seq<Move>
  {
    if i == 0 then [] else GridCells(n, i - 1) + RowCells(i - 1, n)
  }

  /** Every cell of an n x n grid, in the order of a nested row/column loop. */
  function AllCells(n: nat): seq<Move>
  {
    GridCells(n, n)
  }

  lemma {:induction false} RowCellsAt(r: int, j: nat)
    ensures forall k :: 0 <= k < j ==> RowCells(r, j)[k] == (r, k)
  {
    if j > 0 {
      RowCellsAt(r, j - 1);
    }
  }

  lemma SortedAppend(s: seq<Move>, t: seq<Move>)
    requires RowMajorSorted(s) && RowMajorSorted(t)
    requires forall k, l :: 0 <= k < |s| && 0 <= l < |t| ==> Before(s[k], t[l])
    ensures RowMajorSorted(s + t)
  {
  }

  /** The cells of the first i rows are sorted and are exactly the cells (r, c)
      with r < i and c < n. */
  lemma {:induction false} GridCellsSpec(n: nat, i: nat)
    ensures RowMajorSorted(GridCells(n, i))
    ensures forall m :: m in GridCells(n, i) <==> 0 <= m.0 < i && 0 <= m.1 < n
  {
    if i > 0 {
      GridCellsSpec(n, i - 1);
      RowCellsAt(i - 1, n);
      var s, t := GridCells(n, i - 1), RowCells(i - 1, n);
      assert forall k :: 0 <= k < |s| ==> s[k] in s;
      SortedAppend(s, t);
      forall m ensures m in s + t <==> 0 <= m.0 < i && 0 <= m.1 < n {
        if m.0 == i - 1 && 0 <= m.1 < n {
          assert t[m.1] == m;
        }
      }
    }
  }

  /** AllCells lists every cell of the board exactly once, in row-major order. */
  lemma AllCellsSpec(n: nat)
    ensures RowMajorSorted(AllCells(n))
    ensures forall m :: m in AllCells(n) <==> InBounds(n, m.0, m.1)
  {
    GridCellsSpec(n, n);
  }

  /** The cells a nested loop has visited before reaching (i, j) form a prefix of
      AllCells, so whatever a scan has found so far comes first in the full list. */
  lemma {:induction false} ScanPrefix(n: nat, i: nat, j: nat)
    requires i < n && j <= n
    ensures GridCells(n, i) + RowCells(i, j) <= AllCells(n)
  {
    var k := i + 1;
    assert GridCells(n, i) + RowCells(i, j) <= GridCells(n, k) by {
      RowCellsAt(i, n);
      RowCellsAt(i, j);
      assert RowCells(i, j) <= RowCells(i, n);
    }
    while k < n
      invariant i < k <= n
      invariant GridCells(n, i) + RowCells(i, j) <= GridCells(n, k)
    {
      k := k + 1;
    }
  }

  /** A row-major sorted list is determined by its members. */
  lemma {:induction false} SortedUnique(s: seq<Move>, t: seq<Move>)
    requires RowMajorSorted(s) && RowMajorSorted(t)
    requires forall m :: m in s <==> m in t
    ensures s == t
    decreases |s|
  {
    if s == [] {
      assert forall i :: 0 <= i < |t| ==> t[i] in t;
    } else {
      assert s[0] in t;
      assert t[0] in s;
      var k :| 0 <= k < |t| && t[k] == s[0];
      var l :| 0 <= l < |s| && s[l] == t[0];
      assert k == 0 || Before(t[0], t[k]);
      assert l == 0 || Before(s[0], s[l]);
      assert s[0] == t[0];
      forall m ensures m in s[1..] <==> m in t[1..] {
        if m in s[1..] {
          var i :| 0 <= i < |s[1..]| && s[1..][i] == m;
          assert Before(s[0], s[i + 1]);
          assert m in t;
        }
        if m in t[1..] {
          var i :| 0 <= i < |t[1..]| && t[1..][i] == m;
          assert Before(t[0], t[i + 1]);
          assert m in s;
        }
      }
      SortedUnique(s[1..], t[1..]);
      assert s == [s[0]] + s[1..] && t == [t[0]] + t[1..];
    }
  }
}
