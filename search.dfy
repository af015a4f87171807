/** The depth-limited search of the engine (ai_system.py, `_minimax`): plain
    minimax as the reference, the alpha-beta search exactly as the source runs
    it (including the cut-off `break`), the proof that the two agree inside the
    search window, and the search itself over the mutable grid. */
module Search {
  import opened Grid
  import opened Lines
  import opened Scans
  import opened Moves
  import opened Scores
  import opened Heuristics

  /** The stone a node places: the searching player at a maximizing node, the
      opponent at a minimizing one. */
  function Mover(maximizing: bool, player: Player): (q: Player)
    ensures q == player <==> maximizing
  {
    if maximizing then player else Opponent(player)
  }

  /** The value a node starts from, and keeps when it has no move to try. */
  function Worst(maximizing: bool): Score
  {
    if maximizing then NegInf else PosInf
  }

  /** Max at a maximizing node, min at a minimizing one. */
  function Better(maximizing: bool, x: Score, y: Score): Score
  {
    if maximizing then Max(x, y) else Min(x, y)
  }

  // ---------------------------------------------------------------------------
  // Plain minimax, the reference

  /** The minimax value of a node over the engine's candidate generator, seen
      from `player`: a leaf (depth 0 or a finished game) is its static
      evaluation, an inner node the best of its children for the side to move. */
  ghost function Minimax(b: Board, depth: nat, maximizing: bool, player: Player): Score
    requires IsSquare(b)
    decreases depth, 1
  {
    if depth == 0 || GameOver(b) then Fin(BoardValue(b, player))
    else Children(b, CandidateMoves(b), depth, maximizing, player)
  }

  /** The best of the children reached by `moves`, each searched one level less
      deep. */
  ghost function Children(b: Board, moves: seq<Move>, depth: nat, maximizing: bool, player: Player): Score
    requires IsSquare(b) && depth >= 1
    decreases depth, 0, |moves|
  {
    if moves == [] then Worst(maximizing)
    else
      var m := moves[0];
      Better(maximizing,
        Minimax(Place(b, m.0, m.1, Mover(maximizing, player)), depth - 1, !maximizing, player),
        Children(b, moves[1..], depth, maximizing, player))
  }

  // ---------------------------------------------------------------------------
  // Alpha-beta as the source runs it

  /** `_minimax(board, depth, is_maximizing, player, alpha, beta)`. */
  ghost function AlphaBeta(b: Board, depth: nat, maximizing: bool, player: Player, alpha: Score, beta: Score): Score
    requires IsSquare(b)
    decreases depth, 1
  {
    if depth == 0 || GameOver(b) then Fin(BoardValue(b, player))
    else Cutoff(b, CandidateMoves(b), depth, maximizing, player, Worst(maximizing), alpha, beta)
  }

  /** The loop over the remaining `moves` with the running best value and
      window; it stops as soon as beta <= alpha. */
  ghost function Cutoff(b: Board, moves: seq<Move>, depth: nat, maximizing: bool, player: Player,
                        best: Score, alpha: Score, beta: Score): Score
    requires IsSquare(b) && depth >= 1
    decreases depth, 0, |moves|
  {
    if moves == [] then best
    else
      var m := moves[0];
      var v := AlphaBeta(Place(b, m.0, m.1, Mover(maximizing, player)), depth - 1, !maximizing, player, alpha, beta);
      if maximizing then
        var best', alpha' := Max(best, v), Max(alpha, v);
        if Le(beta, alpha') then best' else Cutoff(b, moves[1..], depth, maximizing, player, best', alpha', beta)
      else
        var best', beta' := Min(best, v), Min(beta, v);
        if Le(beta', alpha) then best' else Cutoff(b, moves[1..], depth, maximizing, player, best', alpha, beta')
  }

  /** Alpha-beta agrees with minimax inside any non-empty window: both are
      clamped to the same value (the fail-soft form of the Knuth-Moore theorem). */
  lemma {:induction false} AlphaBetaSound(b: Board, depth: nat, maximizing: bool, player: Player, alpha: Score, beta: Score)
    requires IsSquare(b) && Lt(alpha, beta)
    ensures Clamp(AlphaBeta(b, depth, maximizing, player, alpha, beta), alpha, beta)
         == Clamp(Minimax(b, depth, maximizing, player), alpha, beta)
    decreases depth, 1
  {
    if depth > 0 && !GameOver(b) {
      if maximizing {
        CutoffSoundMax(b, CandidateMoves(b), depth, player, NegInf, alpha, beta, alpha);
      } else {
        CutoffSoundMin(b, CandidateMoves(b), depth, player, PosInf, alpha, beta, beta);
      }
    }
  }

  /** The loop invariant behind AlphaBetaSound at a maximizing node: alpha is
      the larger of the original alpha and the best value so far, beta is
      unchanged, and the loop's answer clamps like the best of `best` and the
      minimax values of the remaining children. */
  lemma {:induction false} CutoffSoundMax(b: Board, moves: seq<Move>, depth: nat, player: Player,
                                          best: Score, alpha: Score, beta: Score, alpha0: Score)
    requires IsSquare(b) && depth >= 1
    requires alpha == Max(alpha0, best) && Lt(alpha, beta)
    ensures Clamp(Cutoff(b, moves, depth, true, player, best, alpha, beta), alpha0, beta)
         == Clamp(Max(best, Children(b, moves, depth, true, player)), alpha0, beta)
    decreases depth, 0, |moves|
  {
    if moves != [] {
      var m := moves[0];
      var child := Place(b, m.0, m.1, player);
      var v := AlphaBeta(child, depth - 1, false, player, alpha, beta);
      var w := Minimax(child, depth - 1, false, player);
      var rest := Children(b, moves[1..], depth, true, player);
      AlphaBetaSound(child, depth - 1, false, player, alpha, beta);
      assert Children(b, moves, depth, true, player) == Max(w, rest);
      MaxStep(best, v, w, rest, alpha0, alpha, beta);
      assert moves[0..] == moves;
      CutoffUnfold(b, moves, 0, depth, true, player, best, alpha, beta, v);
      if !Le(beta, Max(alpha, v)) {
        CutoffSoundMax(b, moves[1..], depth, player, Max(best, v), Max(alpha, v), beta, alpha0);
      }
    }
  }

  /** The same at a minimizing node, where beta is the smaller of the original
      beta and the best value so far. */
  lemma {:induction false} CutoffSoundMin(b: Board, moves: seq<Move>, depth: nat, player: Player,
                                          best: Score, alpha: Score, beta: Score, beta0: Score)
    requires IsSquare(b) && depth >= 1
    requires beta == Min(beta0, best) && Lt(alpha, beta)
    ensures Clamp(Cutoff(b, moves, depth, false, player, best, alpha, beta), alpha, beta0)
         == Clamp(Min(best, Children(b, moves, depth, false, player)), alpha, beta0)
    decreases depth, 0, |moves|
  {
    if moves != [] {
      var m := moves[0];
      var child := Place(b, m.0, m.1, Opponent(player));
      var v := AlphaBeta(child, depth - 1, true, player, alpha, beta);
      var w := Minimax(child, depth - 1, true, player);
      var rest := Children(b, moves[1..], depth, false, player);
      AlphaBetaSound(child, depth - 1, true, player, alpha, beta);
      assert Children(b, moves, depth, false, player) == Min(w, rest);
      MinStep(best, v, w, rest, beta0, alpha, beta);
      assert moves[0..] == moves;
      CutoffUnfold(b, moves, 0, depth, false, player, best, alpha, beta, v);
      if !Le(Min(beta, v), alpha) {
        CutoffSoundMin(b, moves[1..], depth, player, Min(best, v), alpha, Min(beta, v), beta0);
      }
    }
  }

  /** Searched with the full window (-inf, +inf), as every caller in the engine
      does, alpha-beta returns exactly the minimax value. */
  lemma AlphaBetaFullWindow(b: Board, depth: nat, maximizing: bool, player: Player)
    requires IsSquare(b)
    ensures AlphaBeta(b, depth, maximizing, player, NegInf, PosInf) == Minimax(b, depth, maximizing, player)
  {
    AlphaBetaSound(b, depth, maximizing, player, NegInf, PosInf);
    ClampFullWindow(AlphaBeta(b, depth, maximizing, player, NegInf, PosInf));
    ClampFullWindow(Minimax(b, depth, maximizing, player));
  }

  /** At depth 0, or once the game is over, the search is the static
      evaluation for `player`, whatever the window. */
  lemma LeafValue(b: Board, depth: nat, maximizing: bool, player: Player, alpha: Score, beta: Score)
    requires IsSquare(b) && (depth == 0 || GameOver(b))
    ensures AlphaBeta(b, depth, maximizing, player, alpha, beta) == Fin(BoardValue(b, player))
    ensures Minimax(b, depth, maximizing, player) == Fin(BoardValue(b, player))
  {
  }

  /** A score that is infinite or a whole number of hundreds. */
  predicate Hundreds(x: Score)
  {
    x.Fin? ==> x.n % 100 == 0
  }

  /** Every minimax value is infinite or a whole number of hundreds, because
      every evaluation at a leaf is (BoardValue). */
  lemma {:induction false} MinimaxHundreds(b: Board, depth: nat, maximizing: bool, player: Player)
    requires IsSquare(b)
    ensures Hundreds(Minimax(b, depth, maximizing, player))
    decreases depth, 1
  {
    if depth == 0 || GameOver(b) {
      BoardValueHundreds(b, player);
    } else {
      ChildrenHundreds(b, CandidateMoves(b), depth, maximizing, player);
    }
  }

  lemma {:induction false} ChildrenHundreds(b: Board, moves: seq<Move>, depth: nat, maximizing: bool, player: Player)
    requires IsSquare(b) && depth >= 1
    ensures Hundreds(Children(b, moves, depth, maximizing, player))
    decreases depth, 0, |moves|
  {
    if moves != [] {
      var m := moves[0];
      MinimaxHundreds(Place(b, m.0, m.1, Mover(maximizing, player)), depth - 1, !maximizing, player);
      ChildrenHundreds(b, moves[1..], depth, maximizing, player);
    }
  }

  // ---------------------------------------------------------------------------
  // The search over the grid

  /** `_minimax` on the grid whose contents are `b`: every stone it places is
      cleared again, on the cut-off path as well, so the grid is left as `b`; the
      value is that of the alpha-beta recursion above (see LeafValue for depth 0
      and finished games). */
  method MinimaxSearch(g: array2<int>, ghost b: Board, depth: nat, maximizing: bool, player: Player,
                       alpha: Score, beta: Score) returns (v: Score)
    requires GridOfSize(g, BoardSize) && Snapshot(g) == b
    modifies g
    ensures Snapshot(g) == b
    ensures v == AlphaBeta(b, depth, maximizing, player, alpha, beta)
    decreases depth, 2
  {
    var over := IsGameOver(g);
    if depth == 0 || over {
      var score := EvaluateBoard(g, player);
      return Fin(score);
    }
    var moves := GetCandidateMoves(g);
    CandidateMovesSpec(b);
    v := SearchChildren(g, b, moves, depth, maximizing, player, alpha, beta);
  }

  /** The loop of `_minimax` over the candidate moves, with the running best
      value and window and the `break` once beta <= alpha. */
  method SearchChildren(g: array2<int>, ghost b: Board, moves: seq<Move>, depth: nat, maximizing: bool,
                        player: Player, alpha: Score, beta: Score) returns (v: Score)
    requires GridOfSize(g, BoardSize) && Snapshot(g) == b && depth >= 1
    requires forall k :: 0 <= k < |moves| ==> IsFree(b, moves[k])
    modifies g
    ensures Snapshot(g) == b
    ensures v == Cutoff(b, moves, depth, maximizing, player, Worst(maximizing), alpha, beta)
    decreases depth, 1
  {
    var best := Worst(maximizing);
    var a, z := alpha, beta;
    var k := 0;
    while k < |moves|
      invariant 0 <= k <= |moves|
      invariant Snapshot(g) == b
      invariant Cutoff(b, moves[k..], depth, maximizing, player, best, a, z)
             == Cutoff(b, moves, depth, maximizing, player, Worst(maximizing), alpha, beta)
    {
      var cut;
      best, a, z, cut := SearchChild(g, b, moves, k, depth, maximizing, player, best, a, z);
      if cut {
        return best;
      }
      k := k + 1;
    }
    return best;
  }

  /** One pass of that loop: searches the k-th move's child, updates the best
      value and the window, and reports whether beta <= alpha now holds. */
  method SearchChild(g: array2<int>, ghost b: Board, moves: seq<Move>, k: nat, depth: nat, maximizing: bool,
                     player: Player, best: Score, alpha: Score, beta: Score)
    returns (best': Score, alpha': Score, beta': Score, cut: bool)
    requires GridOfSize(g, BoardSize) && Snapshot(g) == b
    requires depth >= 1 && k < |moves| && IsFree(b, moves[k])
    modifies g
    ensures Snapshot(g) == b
    ensures cut ==> best' == Cutoff(b, moves[k..], depth, maximizing, player, best, alpha, beta)
    ensures !cut ==> Cutoff(b, moves[k + 1..], depth, maximizing, player, best', alpha', beta')
                      == Cutoff(b, moves[k..], depth, maximizing, player, best, alpha, beta)
    decreases depth, 0
  {
    var e := ProbeChild(g, b, moves[k], Mover(maximizing, player), depth - 1, !maximizing, player, alpha, beta);
    CutoffUnfold(b, moves, k, depth, maximizing, player, best, alpha, beta, e);
    if maximizing {
      best', alpha', beta' := Max(best, e), Max(alpha, e), beta;
    } else {
      best', alpha', beta' := Min(best, e), alpha, Min(beta, e);
    }
    cut := Le(beta', alpha');
  }

  /** Unfolding one pass of the loop of `Cutoff`. */
  lemma CutoffUnfold(b: Board, moves: seq<Move>, k: nat, depth: nat, maximizing: bool, player: Player,
                     best: Score, alpha: Score, beta: Score, e: Score)
    requires IsSquare(b) && depth >= 1 && k < |moves|
    requires e == AlphaBeta(Place(b, moves[k].0, moves[k].1, Mover(maximizing, player)), depth - 1, !maximizing, player, alpha, beta)
    ensures var best', alpha', beta' := Better(maximizing, best, e),
                                        (if maximizing then Max(alpha, e) else alpha),
                                        (if maximizing then beta else Min(beta, e));
      Cutoff(b, moves[k..], depth, maximizing, player, best, alpha, beta)
      == if Le(beta', alpha') then best' else Cutoff(b, moves[k + 1..], depth, maximizing, player, best', alpha', beta')
  {
    assert moves[k..][1..] == moves[k + 1..];
  }

  /** One child of a node: places `stone` on the free cell `m`, searches the
      grid, and clears the cell again. */
  method ProbeChild(g: array2<int>, ghost b: Board, m: Move, stone: Player, depth: nat, maximizing: bool,
                    player: Player, alpha: Score, beta: Score) returns (v: Score)
    requires GridOfSize(g, BoardSize) && Snapshot(g) == b && IsFree(b, m)
    modifies g
    ensures Snapshot(g) == b
    ensures v == AlphaBeta(Place(b, m.0, m.1, stone), depth, maximizing, player, alpha, beta)
    decreases depth, 3
  {
    g[m.0, m.1] := stone;
    SnapshotIs(g, Place(b, m.0, m.1, stone));
    v := MinimaxSearch(g, Place(b, m.0, m.1, stone), depth, maximizing, player, alpha, beta);
    g[m.0, m.1] := Empty;
    SnapshotIs(g, Place(Place(b, m.0, m.1, stone), m.0, m.1, Empty));
    PlaceUndo(b, m.0, m.1, stone);
  }
}
