/** Row-major scans of the board: the cell tests the engine and the evaluation
    tools filter by, a filter over lists of cells, and what a full scan lists. */
module Scans {
  import opened Grid
  import opened Wrappers
  import opened Lines

  function Abs(x: int): nat
  {
    if x < 0 then -x else x
  }

  /** A stone lies within Chebyshev distance 2 of (r, c), other than on (r, c). */
  ghost predicate HasNeighbours(b: Board, r: int, c: int)
    requires IsSquare(b)
  {
    exists i, j :: InBounds(|b|, i, j) && Abs(i - r) <= 2 && Abs(j - c) <= 2
      && (i != r || j != c) && b[i][j] != Empty
  }

  /** (r, c) lies in the 5 x 5 box around the centre cell (n / 2, n / 2). */
  predicate InCentreBox(n: int, r: int, c: int)
  {
    Abs(r - n / 2) <= 2 && Abs(c - n / 2) <= 2
  }

  /** Placing `p` on the free cell (r, c) completes five for `p`. */
  predicate CompletesFive(b: Board, r: int, c: int, p: Player)
    requires IsSquare(b)
  {
    IsFree(b, (r, c)) && FiveInRow(Place(b, r, c, p), r, c, p)
  }

  /** The properties of a cell that the scans select by. */
  datatype CellTest =
    | Free                                   // the cell is empty
    | Neighboured                            // a stone lies within distance 2
    | CentreBox                              // the cell is near the centre
    | Winning(p: Player)                     // placing p there makes five
    | MakesPattern(p: Player, target: int)   // placing p there passes `_check_pattern_at`
    | WinsBy(p: Player, checkWin: (Board, int, int) -> bool)  // the board's own win test
    | Both(first: CellTest, second: CellTest)

  ghost predicate Passes(b: Board, t: CellTest, m: Move)
    requires IsSquare(b)
  {
    match t
    case Free => IsFree(b, m)
    case Neighboured => HasNeighbours(b, m.0, m.1)
    case CentreBox => InCentreBox(|b|, m.0, m.1)
    case Winning(p) => CompletesFive(b, m.0, m.1, p)
    case MakesPattern(p, target) =>
      IsFree(b, m) && PatternAt(Place(b, m.0, m.1, p), m.0, m.1, p, target)
    case WinsBy(p, checkWin) => IsFree(b, m) && checkWin(Place(b, m.0, m.1, p), m.0, m.1)
    case Both(t1, t2) => Passes(b, t1, m) && Passes(b, t2, m)
  }

  /** The cells of `s` that pass `t`, in the order of `s`. */
  ghost function Keep(b: Board, t: CellTest, s: seq<Move>): seq<Move>
    requires IsSquare(b)
    decreases |s|
  {
    if s == [] then []
    else Keep(b, t, s[..|s| - 1]) + (if Passes(b, t, s[|s| - 1]) then [s[|s| - 1]] else [])
  }

  /** Every cell of the board that passes `t`, in row-major order. */
  ghost function Scan(b: Board, t: CellTest): seq<Move>
    requires IsSquare(b)
  {
    Keep(b, t, AllCells(|b|))
  }

  /** The cells a nested row/column loop has visited before reaching (i, j). */
  function Visited(n: nat, i: nat, j: nat): seq<Move>
  {
    GridCells(n, i) + RowCells(i, j)
  }

  lemma KeepSnoc(b: Board, t: CellTest, s: seq<Move>, x: Move)
    requires IsSquare(b)
    ensures Keep(b, t, s + [x]) == Keep(b, t, s) + (if Passes(b, t, x) then [x] else [])
  {
    assert (s + [x])[..|s|] == s;
  }

  /** One more element of a list looked at. */
  lemma KeepPrefix(b: Board, t: CellTest, s: seq<Move>, k: nat)
    requires IsSquare(b) && k < |s|
    ensures Keep(b, t, s[..k + 1]) == Keep(b, t, s[..k]) + (if Passes(b, t, s[k]) then [s[k]] else [])
  {
    assert s[..k + 1] == s[..k] + [s[k]];
    KeepSnoc(b, t, s[..k], s[k]);
  }

  /** One more cell visited: the scan result grows by that cell if it passes. */
  lemma ScanStep(b: Board, t: CellTest, i: nat, j: nat)
    requires IsSquare(b)
    ensures Keep(b, t, Visited(|b|, i, j + 1))
         == Keep(b, t, Visited(|b|, i, j)) + (if Passes(b, t, (i, j)) then [(i, j)] else [])
  {
    assert Visited(|b|, i, j + 1) == Visited(|b|, i, j) + [(i, j)];
    KeepSnoc(b, t, Visited(|b|, i, j), (i, j));
  }

  /** The end of a row is the start of the next one. */
  lemma NextRow(n: nat, i: nat)
    ensures Visited(n, i + 1, 0) == Visited(n, i, n)
  {
  }

  lemma {:induction false} KeepAppend(b: Board, t: CellTest, s: seq<Move>, u: seq<Move>)
    requires IsSquare(b)
    ensures Keep(b, t, s + u) == Keep(b, t, s) + Keep(b, t, u)
    decreases |u|
  {
    if u != [] {
      var u' := u[..|u| - 1];
      var x := u[|u| - 1];
      assert u == u' + [x];
      assert s + u == (s + u') + [x];
      KeepSnoc(b, t, s + u', x);
      KeepSnoc(b, t, u', x);
      KeepAppend(b, t, s, u');
    } else {
      assert s + u == s;
    }
  }

  /** A cell is kept exactly when it is in the list and passes the test. */
  lemma {:induction false} KeepMembers(b: Board, t: CellTest, s: seq<Move>)
    requires IsSquare(b)
    ensures forall m :: m in Keep(b, t, s) <==> m in s && Passes(b, t, m)
    decreases |s|
  {
    if s != [] {
      var s' := s[..|s| - 1];
      KeepMembers(b, t, s');
      assert s == s' + [s[|s| - 1]];
    }
  }

  /** Keeping preserves row-major order. */
  lemma {:induction false} KeepSorted(b: Board, t: CellTest, s: seq<Move>)
    requires IsSquare(b) && RowMajorSorted(s)
    ensures RowMajorSorted(Keep(b, t, s))
    decreases |s|
  {
    if s != [] {
      var s' := s[..|s| - 1];
      var x := s[|s| - 1];
      KeepSorted(b, t, s');
      KeepMembers(b, t, s');
      var k := Keep(b, t, s');
      forall i | 0 <= i < |k| ensures Before(k[i], x) {
        assert k[i] in s';
        var l :| 0 <= l < |s'| && s'[l] == k[i];
      }
    }
  }

  /** Filtering twice is filtering by both tests. */
  lemma {:induction false} KeepKeep(b: Board, t1: CellTest, t2: CellTest, s: seq<Move>)
    requires IsSquare(b)
    ensures Keep(b, t2, Keep(b, t1, s)) == Keep(b, Both(t1, t2), s)
    decreases |s|
  {
    if s != [] {
      var s' := s[..|s| - 1];
      var x := s[|s| - 1];
      KeepKeep(b, t1, t2, s');
      if Passes(b, t1, x) {
        assert Keep(b, t1, s) == Keep(b, t1, s') + [x];
        KeepSnoc(b, t2, Keep(b, t1, s'), x);
      } else {
        assert Keep(b, t1, s) == Keep(b, t1, s');
      }
    }
  }

  /** A list whose cells all fail the test keeps nothing. */
  lemma {:induction false} KeepNone(b: Board, t: CellTest, s: seq<Move>)
    requires IsSquare(b)
    requires forall k :: 0 <= k < |s| ==> !Passes(b, t, s[k])
    ensures Keep(b, t, s) == []
    decreases |s|
  {
    if s != [] {
      KeepNone(b, t, s[..|s| - 1]);
    }
  }

  /** A scan lists every board cell that passes the test, each once, in row-major
      order, and nothing else. */
  lemma ScanSpec(b: Board, t: CellTest)
    requires IsSquare(b)
    ensures RowMajorSorted(Scan(b, t))
    ensures forall m :: m in Scan(b, t) <==> OnBoard(b, m) && Passes(b, t, m)
  {
    AllCellsSpec(|b|);
    KeepSorted(b, t, AllCells(|b|));
    KeepMembers(b, t, AllCells(|b|));
  }

  /** The cells a scan lists lie on the board. */
  lemma ScanOnBoard(b: Board, t: CellTest)
    requires IsSquare(b)
    ensures forall k :: 0 <= k < |Scan(b, t)| ==> OnBoard(b, Scan(b, t)[k])
  {
    ScanSpec(b, t);
    forall k | 0 <= k < |Scan(b, t)| ensures OnBoard(b, Scan(b, t)[k]) {
      assert Scan(b, t)[k] in Scan(b, t);
    }
  }

  /** When every cell passing `t2` also passes `t1`, scanning for `t1` and then
      keeping `t2` is scanning for `t2`. */
  lemma ScanRefine(b: Board, t1: CellTest, t2: CellTest)
    requires IsSquare(b)
    requires forall m :: Passes(b, t2, m) ==> Passes(b, t1, m)
    ensures Keep(b, t2, Scan(b, t1)) == Scan(b, t2)
  {
    KeepKeep(b, t1, t2, AllCells(|b|));
    KeepSame(b, Both(t1, t2), t2, AllCells(|b|));
  }

  /** Two tests that agree on every cell keep the same cells. */
  lemma {:induction false} KeepSame(b: Board, t1: CellTest, t2: CellTest, s: seq<Move>)
    requires IsSquare(b)
    requires forall m :: Passes(b, t1, m) <==> Passes(b, t2, m)
    ensures Keep(b, t1, s) == Keep(b, t2, s)
    decreases |s|
  {
    if s != [] {
      KeepSame(b, t1, t2, s[..|s| - 1]);
    }
  }

  /** A scan's first cell, when the nested loop finds it at (i, j) having found
      nothing before: the prefix the loop has visited comes first in the full
      row-major listing. */
  lemma ScanFirst(b: Board, t: CellTest, i: nat, j: nat)
    requires IsSquare(b) && i < |b| && j < |b|
    requires Keep(b, t, Visited(|b|, i, j)) == [] && Passes(b, t, (i, j))
    ensures Scan(b, t) != [] && Scan(b, t)[0] == (i, j)
  {
    var n := |b|;
    ScanStep(b, t, i, j);
    ScanPrefix(n, i, j + 1);
    var pre := Visited(n, i, j + 1);
    var rest := AllCells(n)[|pre|..];
    assert AllCells(n) == pre + rest;
    KeepAppend(b, t, pre, rest);
  }

  /** The first cell of a list, if any. */
  function First(s: seq<Move>): (r: Option<Move>)
    ensures r.None? <==> s == []
    ensures r.Some? ==> r.value in s
  {
    if s == [] then None else Some(s[0])
  }

  /** The first cell a scan lists passes the test, and no cell before it in
      row-major order does; the scan lists nothing exactly when no cell passes. */
  lemma ScanFirstSpec(b: Board, t: CellTest)
    requires IsSquare(b)
    ensures First(Scan(b, t)).None? <==> forall m :: OnBoard(b, m) ==> !Passes(b, t, m)
    ensures First(Scan(b, t)).Some? ==>
      var m := First(Scan(b, t)).value;
      OnBoard(b, m) && Passes(b, t, m) && forall m' :: OnBoard(b, m') && Before(m', m) ==> !Passes(b, t, m')
  {
    ScanSpec(b, t);
    var s := Scan(b, t);
    if s != [] {
      assert forall l :: 0 <= l < |s| ==> !Before(s[l], s[0]);
      forall m' | OnBoard(b, m') && Before(m', s[0]) ensures !Passes(b, t, m') {
        assert m' !in s;
      }
    } else {
      forall m | OnBoard(b, m) ensures !Passes(b, t, m) {
        assert m !in s;
      }
    }
  }
}
