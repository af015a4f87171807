/** Immediate wins and blocks (ai_system.py, `_find_winning_move`,
    `_find_defensive_move`). */
module Threats {
  import opened Wrappers
  import opened Grid
  import opened Lines
  import opened Scans

  /** Places `p` on the empty cell (i, j), tests for five through it and clears
      the cell again. */
  method ProbeFive(g: array2<int>, i: int, j: int, p: Player) returns (five: bool)
    requires GridOfSize(g, BoardSize) && InBounds(BoardSize, i, j) && g[i, j] == Empty
    modifies g
    ensures Snapshot(g) == old(Snapshot(g))
    ensures five == CompletesFive(old(Snapshot(g)), i, j, p)
  {
    ghost var b := Snapshot(g);
    g[i, j] := p;
    SnapshotIs(g, Place(b, i, j, p));
    five := CheckFiveInRow(g, i, j, p);
    g[i, j] := Empty;
    SnapshotIs(g, Place(Place(b, i, j, p), i, j, Empty));
    PlaceUndo(b, i, j, p);
  }

  /** `_find_winning_move`: the first empty cell, row by row, on which `player`
      completes five; the grid is restored on every path, including the early
      return. */
  method FindWinningMove(g: array2<int>, player: Player) returns (m: Option<Move>)
    requires GridOfSize(g, BoardSize)
    modifies g
    ensures Snapshot(g) == old(Snapshot(g))
    ensures m == First(Scan(old(Snapshot(g)), Winning(player)))
  {
    ghost var b := Snapshot(g);
    for i := 0 to BoardSize
      invariant Snapshot(g) == b
      invariant Keep(b, Winning(player), Visited(BoardSize, i, 0)) == []
    {
      for j := 0 to BoardSize
        invariant Snapshot(g) == b
        invariant Keep(b, Winning(player), Visited(BoardSize, i, j)) == []
      {
        ScanStep(b, Winning(player), i, j);
        if g[i, j] == Empty {
          var five := ProbeFive(g, i, j, player);
          if five {
            ScanFirst(b, Winning(player), i, j);
            return Some((i, j));
          }
        }
      }
      NextRow(BoardSize, i);
    }
    assert Visited(BoardSize, BoardSize, 0) == AllCells(BoardSize);
    return None;
  }

  /** What a win search returns: nothing exactly when no empty cell completes
      five, and otherwise a completing empty cell with no completing cell
      before it in row-major order. */
  lemma WinningMoveSpec(b: Board, p: Player)
    requires IsSquare(b)
    ensures First(Scan(b, Winning(p))).None? <==> forall m :: IsFree(b, m) ==> !CompletesFive(b, m.0, m.1, p)
    ensures First(Scan(b, Winning(p))).Some? ==>
      var m := First(Scan(b, Winning(p))).value;
      IsFree(b, m) && CompletesFive(b, m.0, m.1, p)
      && forall m' :: OnBoard(b, m') && Before(m', m) ==> !CompletesFive(b, m'.0, m'.1, p)
  {
    ScanFirstSpec(b, Winning(p));
  }

  /** `_find_defensive_move`: the first empty cell on which the opponent would
      complete five. The source repeats the loop of `_find_winning_move` with the
      opponent's colour; here it is that search run for the opponent. */
  method FindDefensiveMove(g: array2<int>, player: Player) returns (m: Option<Move>)
    requires GridOfSize(g, BoardSize)
    modifies g
    ensures Snapshot(g) == old(Snapshot(g))
    ensures m == First(Scan(old(Snapshot(g)), Winning(Opponent(player))))
  {
    var opponent := Opponent(player);
    m := FindWinningMove(g, opponent);
  }
}
