/** Candidate generation of the engine (ai_system.py, `_get_empty_positions`,
    `_has_neighbors`, `_get_candidate_moves`). */
module Moves {
  import opened Grid
  import opened Scans

  /** The moves the engine considers at a node: the empty cells with a stone
      within distance 2; failing that, the empty cells of the centre box; failing
      that, every empty cell. */
  ghost function CandidateMoves(b: Board): seq<Move>
    requires IsSquare(b)
  {
    var empties := Scan(b, Free);
    var near := Keep(b, Neighboured, empties);
    if near != [] then near
    else
      var centre := if empties != [] then Keep(b, CentreBox, empties) else [];
      if centre != [] then centre else empties
  }

  /** Candidates are free cells in row-major order, and which cells they are
      follows the three tiers: the free cells with neighbours if there are any,
      else the free cells of the centre box if there are any, else all free cells. */
  lemma CandidateMovesSpec(b: Board)
    requires IsSquare(b)
    ensures forall m :: m in CandidateMoves(b) ==> IsFree(b, m)
    ensures forall k :: 0 <= k < |CandidateMoves(b)| ==> IsFree(b, CandidateMoves(b)[k])
    ensures RowMajorSorted(CandidateMoves(b))
    ensures Scan(b, Both(Free, Neighboured)) != []
        ==> CandidateMoves(b) == Scan(b, Both(Free, Neighboured))
    ensures Scan(b, Both(Free, Neighboured)) == [] && Scan(b, Both(Free, CentreBox)) != []
        ==> CandidateMoves(b) == Scan(b, Both(Free, CentreBox))
    ensures Scan(b, Both(Free, Neighboured)) == [] && Scan(b, Both(Free, CentreBox)) == []
        ==> CandidateMoves(b) == Scan(b, Free)
  {
    var empties := Scan(b, Free);
    ScanSpec(b, Free);
    KeepKeep(b, Free, Neighboured, AllCells(|b|));
    KeepKeep(b, Free, CentreBox, AllCells(|b|));
    ScanSpec(b, Both(Free, Neighboured));
    ScanSpec(b, Both(Free, CentreBox));
    if empties == [] {
      assert Keep(b, Neighboured, empties) == [];
    }
  }

  /** There is a candidate exactly when the board has a free cell. */
  lemma CandidatesExist(b: Board)
    requires IsSquare(b)
    ensures CandidateMoves(b) != [] <==> exists m :: IsFree(b, m)
  {
    ScanSpec(b, Free);
    CandidateMovesSpec(b);
    if m :| IsFree(b, m) {
      assert m in Scan(b, Free);
    } else if Scan(b, Free) != [] {
      assert Scan(b, Free)[0] in Scan(b, Free);
    }
    if Scan(b, Free) == [] {
      assert Keep(b, Neighboured, Scan(b, Free)) == [];
    }
  }

  /** `_get_empty_positions`: every empty cell, row by row. */
  method GetEmptyPositions(g: array2<int>) returns (positions: seq<Move>)
    requires GridOfSize(g, BoardSize)
    ensures positions == Scan(Snapshot(g), Free)
  {
    ghost var b := Snapshot(g);
    positions := [];
    for i := 0 to BoardSize
      invariant positions == Keep(b, Free, Visited(BoardSize, i, 0))
    {
      for j := 0 to BoardSize
        invariant positions == Keep(b, Free, Visited(BoardSize, i, j))
      {
        ScanStep(b, Free, i, j);
        if g[i, j] == Empty {
          positions := positions + [(i, j)];
        }
      }
      NextRow(BoardSize, i);
    }
    assert Visited(BoardSize, BoardSize, 0) == AllCells(BoardSize);
  }

  /** `_has_neighbors`: looks through the 5 x 5 box around (row, col), clipped to
      the board, for a stone other than on (row, col) itself. */
  method HasNeighbors(g: array2<int>, row: int, col: int) returns (found: bool)
    requires GridOfSize(g, BoardSize) && InBounds(BoardSize, row, col)
    ensures found == HasNeighbours(Snapshot(g), row, col)
  {
    ghost var b := Snapshot(g);
    var rowLo, rowHi := MaxInt(0, row - 2), MinInt(BoardSize, row + 3);
    var colLo, colHi := MaxInt(0, col - 2), MinInt(BoardSize, col + 3);
    for i := rowLo to rowHi
      invariant forall i', j' ::
        rowLo <= i' < i && colLo <= j' < colHi && (i' != row || j' != col) ==> b[i'][j'] == Empty
    {
      for j := colLo to colHi
        invariant forall i', j' ::
          rowLo <= i' < i && colLo <= j' < colHi && (i' != row || j' != col) ==> b[i'][j'] == Empty
        invariant forall j' :: colLo <= j' < j && (i != row || j' != col) ==> b[i][j'] == Empty
      {
        if (i != row || j != col) && g[i, j] != Empty {
          return true;
        }
      }
    }
    return false;
  }

  function MaxInt(x: int, y: int): int
  {
    if x < y then y else x
  }

  function MinInt(x: int, y: int): int
  {
    if x < y then x else y
  }

  /** The comprehension of `_get_candidate_moves` that keeps the cells of `s`
      within distance 2 of (center, center) on both axes, in their order. */
  function NearCentre(s: seq<Move>, center: int): (r: seq<Move>)
    ensures forall m :: m in r ==> m in s && Abs(m.0 - center) <= 2 && Abs(m.1 - center) <= 2
    decreases |s|
  {
    if s == [] then []
    else
      var m := s[|s| - 1];
      NearCentre(s[..|s| - 1], center) + (if Abs(m.0 - center) <= 2 && Abs(m.1 - center) <= 2 then [m] else [])
  }

  /** On the engine's board the comprehension is the centre-box filter. */
  lemma {:induction false} NearCentreIsKeep(b: Board, s: seq<Move>)
    requires IsSquare(b) && |b| == BoardSize
    ensures NearCentre(s, BoardSize / 2) == Keep(b, CentreBox, s)
    decreases |s|
  {
    if s != [] {
      NearCentreIsKeep(b, s[..|s| - 1]);
    }
  }

  /** The loop of `_get_candidate_moves` that keeps the empty cells with a
      neighbour. */
  method KeepNeighboured(g: array2<int>, empties: seq<Move>) returns (near: seq<Move>)
    requires GridOfSize(g, BoardSize)
    requires forall k :: 0 <= k < |empties| ==> OnBoard(Snapshot(g), empties[k])
    ensures near == Keep(Snapshot(g), Neighboured, empties)
  {
    ghost var b := Snapshot(g);
    near := [];
    for k := 0 to |empties|
      invariant near == Keep(b, Neighboured, empties[..k])
    {
      KeepPrefix(b, Neighboured, empties, k);
      var found := HasNeighbors(g, empties[k].0, empties[k].1);
      if found {
        near := near + [empties[k]];
      }
    }
    assert empties[..|empties|] == empties;
  }

  /** `_get_candidate_moves`: the empty cells that have neighbours; if there are
      none, the empty cells of the centre box; if there are none of those either,
      every empty cell. */
  method GetCandidateMoves(g: array2<int>) returns (candidates: seq<Move>)
    requires GridOfSize(g, BoardSize)
    ensures candidates == CandidateMoves(Snapshot(g))
  {
    ghost var b := Snapshot(g);
    var empties := GetEmptyPositions(g);
    ScanOnBoard(b, Free);
    candidates := KeepNeighboured(g, empties);
    if candidates == [] && empties != [] {
      var center := BoardSize / 2;
      candidates := NearCentre(empties, center);
      NearCentreIsKeep(b, empties);
    }
    if candidates == [] {
      candidates := empties;
    }
  }
}
