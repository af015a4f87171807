/** The difficulty tiers of the engine (ai_system.py, `GomokuAI`): the depth
    table, the random Beginner move, the three root searches of Intermediate,
    Advance and Expert, the threat ranking of Expert's candidates and the
    dispatch of `get_move`. */
module Policy {
  import opened Wrappers
  import opened Grid
  import opened Scans
  import opened Moves
  import opened Scores
  import opened Heuristics
  import opened Threats
  import opened Search
  import opened Ranking

  /** `AIDifficulty`. */
  datatype Difficulty = Beginner | Intermediate | Advance | Expert

  /** `_get_max_depth`: the search depth of a tier. */
  function MaxDepth(d: Difficulty): (depth: nat)
    ensures depth <= 6 && depth % 2 == 0
    ensures depth == 0 <==> d == Beginner
  {
    match d
    case Beginner => 0
    case Intermediate => 2
    case Advance => 4
    case Expert => 6
  }

  /** The tiers in increasing strength. */
  function Rank(d: Difficulty): nat
  {
    match d
    case Beginner => 0
    case Intermediate => 1
    case Advance => 2
    case Expert => 3
  }

  /** A stronger tier searches strictly deeper. */
  lemma MaxDepthIncreasing(d1: Difficulty, d2: Difficulty)
    ensures Rank(d1) < Rank(d2) <==> MaxDepth(d1) < MaxDepth(d2)
  {
  }

  // ---------------------------------------------------------------------------
  // Choosing the best root move

  /** What the root loops keep while scanning the scores: the index of the first
      score strictly greater than every score before it that no later score
      beats, with that score; no index while every score seen is -inf. */
  function Leader(scores: seq<Score>, n: nat): (r: (Option<nat>, Score))
    requires n <= |scores|
    ensures r.0.Some? ==> r.0.value < n && r.1 == scores[r.0.value]
    ensures r.0.None? ==> r.1 == NegInf
  {
    if n == 0 then (None, NegInf)
    else
      var prev := Leader(scores, n - 1);
      if Lt(prev.1, scores[n - 1]) then (Some(n - 1), scores[n - 1]) else prev
  }

  /** The index the root loops return: the leader, or index 0 (`best_move or
      candidate_moves[0]`) when no score beat -inf. */
  function Pick(scores: seq<Score>): (k: nat)
    requires |scores| > 0
    ensures k < |scores|
  {
    match Leader(scores, |scores|).0
    case None => 0
    case Some(i) => i
  }

  lemma {:induction false} LeaderSpec(scores: seq<Score>, n: nat)
    requires n <= |scores|
    ensures forall j :: 0 <= j < n ==> Le(scores[j], Leader(scores, n).1)
    ensures Leader(scores, n).0.Some? ==> forall j :: 0 <= j < Leader(scores, n).0.value ==> Lt(scores[j], Leader(scores, n).1)
    ensures Leader(scores, n).0.None? ==> forall j :: 0 <= j < n ==> scores[j] == NegInf
  {
    if n > 0 {
      LeaderSpec(scores, n - 1);
    }
  }

  /** The picked index holds the greatest score, and every score before it is
      strictly smaller: the first candidate with the strictly greatest score. */
  lemma PickIsFirstBest(scores: seq<Score>)
    requires |scores| > 0
    ensures forall j :: 0 <= j < |scores| ==> Le(scores[j], scores[Pick(scores)])
    ensures forall j :: 0 <= j < Pick(scores) ==> Lt(scores[j], scores[Pick(scores)])
  {
    LeaderSpec(scores, |scores|);
  }

  /** The score of a root move: the opponent-to-move minimax value of the board
      with `player` placed there, plus the move's position bonus. */
  ghost function RootScore(b: Board, m: Move, depth: nat, player: Player, weight: (int, int) -> int): Score
    requires IsSquare(b)
  {
    AddBonus(Minimax(Place(b, m.0, m.1, player), depth, false, player), weight(m.0, m.1))
  }

  ghost function RootScores(b: Board, moves: seq<Move>, depth: nat, player: Player, weight: (int, int) -> int): (s: seq<Score>)
    requires IsSquare(b)
    ensures |s| == |moves|
    ensures forall k :: 0 <= k < |moves| ==> s[k] == RootScore(b, moves[k], depth, player, weight)
  {
    seq(|moves|, k requires 0 <= k < |moves| => RootScore(b, moves[k], depth, player, weight))
  }

  /** The move a root loop returns; nothing when there is no move to try. */
  ghost function RootChoice(b: Board, moves: seq<Move>, depth: nat, player: Player, weight: (int, int) -> int): Option<Move>
    requires IsSquare(b)
  {
    if moves == [] then None else Some(moves[Pick(RootScores(b, moves, depth, player, weight))])
  }

  /** A root loop returns a move exactly when it has one, and then the first
      move whose score is the greatest. */
  lemma RootChoiceSpec(b: Board, moves: seq<Move>, depth: nat, player: Player, weight: (int, int) -> int)
    requires IsSquare(b)
    ensures RootChoice(b, moves, depth, player, weight).None? <==> moves == []
    ensures moves != [] ==>
      var k := Pick(RootScores(b, moves, depth, player, weight));
      RootChoice(b, moves, depth, player, weight) == Some(moves[k])
      && (forall j :: 0 <= j < |moves| ==> Le(RootScore(b, moves[j], depth, player, weight), RootScore(b, moves[k], depth, player, weight)))
      && (forall j :: 0 <= j < k ==> Lt(RootScore(b, moves[j], depth, player, weight), RootScore(b, moves[k], depth, player, weight)))
  {
    if moves != [] {
      PickIsFirstBest(RootScores(b, moves, depth, player, weight));
    }
  }

  /** Two position bonuses that order the given cells alike and each vary by
      less than 100 over them. */
  ghost predicate AlikeBonus(moves: seq<Move>, w1: (int, int) -> int, w2: (int, int) -> int)
  {
    forall i, j :: 0 <= i < |moves| && 0 <= j < |moves| ==>
      (w1(moves[i].0, moves[i].1) < w1(moves[j].0, moves[j].1) <==> w2(moves[i].0, moves[i].1) < w2(moves[j].0, moves[j].1))
      && -100 < w1(moves[i].0, moves[i].1) - w1(moves[j].0, moves[j].1) < 100
      && -100 < w2(moves[i].0, moves[i].1) - w2(moves[j].0, moves[j].1) < 100
  }

  /** On scores in whole hundreds a bonus that varies by less than 100 only
      breaks ties: the adjusted scores compare as the plain ones do, and equal
      finite scores compare as their bonuses. */
  lemma BonusBreaksTies(x: Score, y: Score, wx: int, wy: int)
    requires Hundreds(x) && Hundreds(y) && -100 < wx - wy < 100
    ensures Lt(AddBonus(x, wx), AddBonus(y, wy)) <==> Lt(x, y) || (x == y && x.Fin? && wx < wy)
  {
    if x.Fin? && y.Fin? {
      assert x.n == 100 * (x.n / 100) && y.n == 100 * (y.n / 100);
    }
  }

  /** The root loop's choice depends only on how the scores compare with each
      other and which of them are -inf. */
  lemma {:induction false} LeaderAlike(s1: seq<Score>, s2: seq<Score>, n: nat)
    requires n <= |s1| == |s2|
    requires forall i, j :: 0 <= i < n && 0 <= j < n ==> (Lt(s1[i], s1[j]) <==> Lt(s2[i], s2[j]))
    requires forall i :: 0 <= i < n ==> (s1[i] == NegInf <==> s2[i] == NegInf)
    ensures Leader(s1, n).0 == Leader(s2, n).0
  {
    if n > 0 {
      LeaderAlike(s1, s2, n - 1);
    }
  }

  /** Any two bonuses that order the candidates alike and vary by less than 100
      over them make the root loop choose the same move. */
  lemma RootChoiceBonusAlike(b: Board, moves: seq<Move>, depth: nat, player: Player,
                             w1: (int, int) -> int, w2: (int, int) -> int)
    requires IsSquare(b) && AlikeBonus(moves, w1, w2)
    ensures RootChoice(b, moves, depth, player, w1) == RootChoice(b, moves, depth, player, w2)
  {
    if moves != [] {
      var s1 := RootScores(b, moves, depth, player, w1);
      var s2 := RootScores(b, moves, depth, player, w2);
      forall i, j | 0 <= i < |moves| && 0 <= j < |moves|
        ensures Lt(s1[i], s1[j]) <==> Lt(s2[i], s2[j])
      {
        var mi, mj := moves[i], moves[j];
        var vi := Minimax(Place(b, mi.0, mi.1, player), depth, false, player);
        var vj := Minimax(Place(b, mj.0, mj.1, player), depth, false, player);
        MinimaxHundreds(Place(b, mi.0, mi.1, player), depth, false, player);
        MinimaxHundreds(Place(b, mj.0, mj.1, player), depth, false, player);
        BonusBreaksTies(vi, vj, w1(mi.0, mi.1), w1(mj.0, mj.1));
        BonusBreaksTies(vi, vj, w2(mi.0, mi.1), w2(mj.0, mj.1));
      }
      LeaderAlike(s1, s2, |moves|);
    }
  }

  /** The move of a `Leader` index, if any. */
  function MoveAt(moves: seq<Move>, i: Option<nat>): Option<Move>
    requires i.Some? ==> i.value < |moves|
  {
    match i
    case None => None
    case Some(k) => Some(moves[k])
  }

  /** One pass of a root loop: places `player` on `m`, searches the reply with
      the full window, clears the cell and adds the position bonus. */
  method ScoreRootMove(g: array2<int>, ghost b: Board, m: Move, depth: nat, player: Player,
                       weight: (int, int) -> int) returns (score: Score)
    requires GridOfSize(g, BoardSize) && Snapshot(g) == b && IsFree(b, m)
    modifies g
    ensures Snapshot(g) == b
    ensures score == RootScore(b, m, depth, player, weight)
  {
    var v := ProbeChild(g, b, m, player, depth, false, player, NegInf, PosInf);
    AlphaBetaFullWindow(Place(b, m.0, m.1, player), depth, false, player);
    score := AddBonus(v, weight(m.0, m.1));
  }

  /** The loop shared by `_intermediate_move`, `_advance_move` and
      `_enhanced_minimax_move`: each move is scored in turn and the best one
      replaced only by a strictly greater score. */
  method RootSearch(g: array2<int>, ghost b: Board, moves: seq<Move>, depth: nat, player: Player,
                    weight: (int, int) -> int) returns (r: Option<Move>)
    requires GridOfSize(g, BoardSize) && Snapshot(g) == b
    requires forall k :: 0 <= k < |moves| ==> IsFree(b, moves[k])
    modifies g
    ensures Snapshot(g) == b
    ensures r == RootChoice(b, moves, depth, player, weight)
  {
    ghost var scores := RootScores(b, moves, depth, player, weight);
    var bestScore := NegInf;
    var bestMove: Option<Move> := None;
    for k := 0 to |moves|
      invariant Snapshot(g) == b
      invariant bestScore == Leader(scores, k).1
      invariant bestMove == MoveAt(moves, Leader(scores, k).0)
    {
      var score := ScoreRootMove(g, b, moves[k], depth, player, weight);
      if Lt(bestScore, score) {
        bestScore := score;
        bestMove := Some(moves[k]);
      }
    }
    if bestMove.Some? {
      r := bestMove;
    } else if moves != [] {
      r := Some(moves[0]);
    } else {
      r := None;
    }
  }

  /** No position bonus: Intermediate and Advance add nothing to a score. */
  function NoBonus(r: int, c: int): int
  {
    0
  }

  /** `_intermediate_move` and `_advance_move`: the root search over the
      candidates with the reply searched to `depth` (2 and 4). */
  method PlainRootMove(g: array2<int>, player: Player, depth: nat) returns (r: Option<Move>)
    requires GridOfSize(g, BoardSize)
    modifies g
    ensures Snapshot(g) == old(Snapshot(g))
    ensures r == RootChoice(old(Snapshot(g)), CandidateMoves(old(Snapshot(g))), depth, player, NoBonus)
  {
    ghost var b := Snapshot(g);
    var candidates := GetCandidateMoves(g);
    CandidateMovesSpec(b);
    r := RootSearch(g, b, candidates, depth, player, NoBonus);
  }

  // ---------------------------------------------------------------------------
  // Expert

  /** A move paired with the threat weight `player` would get by playing it. */
  ghost function ScoredMove(b: Board, m: Move, player: Player): (Move, int)
    requires IsSquare(b) && IsFree(b, m)
  {
    (m, MoveThreat(b, m.0, m.1, player))
  }

  /** Each move paired with its threat weight (`scored_moves`). */
  ghost function Scored(b: Board, moves: seq<Move>, player: Player): (s: seq<(Move, int)>)
    requires IsSquare(b) && forall k :: 0 <= k < |moves| ==> IsFree(b, moves[k])
    ensures |s| == |moves|
    ensures forall k :: 0 <= k < |moves| ==> s[k] == ScoredMove(b, moves[k], player)
  {
    seq(|moves|, k requires 0 <= k < |moves| => ScoredMove(b, moves[k], player))
  }

  /** The scored moves ranked by threat, highest first, ties in move order. */
  ghost function Ranked(b: Board, moves: seq<Move>, player: Player): seq<(Move, int)>
    requires IsSquare(b) && forall k :: 0 <= k < |moves| ==> IsFree(b, moves[k])
  {
    SortDesc(Scored(b, moves, player))
  }

  /** The ranking holds every scored move once, in non-increasing threat order,
      and it is stable: moves of equal threat keep the order they were given in. */
  lemma RankedSpec(b: Board, moves: seq<Move>, player: Player)
    requires IsSquare(b) && forall k :: 0 <= k < |moves| ==> IsFree(b, moves[k])
    ensures |Ranked(b, moves, player)| == |moves|
    ensures NonIncreasing(Ranked(b, moves, player))
    ensures multiset(Ranked(b, moves, player)) == multiset(Scored(b, moves, player))
    ensures forall k :: 0 <= k < |moves| ==> Ranked(b, moves, player)[k].0 in moves
    ensures forall k :: 0 <= k < |moves| ==> Ranked(b, moves, player)[k] == ScoredMove(b, Ranked(b, moves, player)[k].0, player)
    ensures forall t :: WithKey(Ranked(b, moves, player), t) == WithKey(Scored(b, moves, player), t)
  {
    var scored := Scored(b, moves, player);
    var ranked := SortDesc(scored);
    SortDescSorted(scored);
    forall t {
      SortDescStable(scored, t);
    }
    forall k | 0 <= k < |moves|
      ensures ranked[k].0 in moves && ranked[k] == ScoredMove(b, ranked[k].0, player)
    {
      assert ranked[k] in multiset(scored);
      var l :| 0 <= l < |scored| && scored[l] == ranked[k];
      assert moves[l] in moves;
    }
  }

  /** The first ten of the ranked moves, as `[move for _, move in
      scored_moves[:10]]` takes them. */
  ghost function TopMoves(b: Board, moves: seq<Move>, player: Player): seq<Move>
    requires IsSquare(b) && forall k :: 0 <= k < |moves| ==> IsFree(b, moves[k])
  {
    ItemsOf(Take(Ranked(b, moves, player), 10))
  }

  /** At most ten of the given moves, in non-increasing threat order (with
      ties in the given order, by RankedSpec); none only when none were given. */
  lemma TopMovesSpec(b: Board, moves: seq<Move>, player: Player)
    requires IsSquare(b) && forall k :: 0 <= k < |moves| ==> IsFree(b, moves[k])
    ensures |TopMoves(b, moves, player)| == (if |moves| < 10 then |moves| else 10)
    ensures forall k :: 0 <= k < |TopMoves(b, moves, player)| ==> TopMoves(b, moves, player)[k] in moves
    ensures forall i, j :: 0 <= i < j < |TopMoves(b, moves, player)| ==>
      var mi, mj := TopMoves(b, moves, player)[i], TopMoves(b, moves, player)[j];
      MoveThreat(b, mi.0, mi.1, player) >= MoveThreat(b, mj.0, mj.1, player)
  {
    var ranked := Ranked(b, moves, player);
    RankedSpec(b, moves, player);
    var top := Take(ranked, 10);
    var r := ItemsOf(top);
    assert forall k :: 0 <= k < |top| ==> top[k] == ranked[k];
    forall i, j | 0 <= i < j < |r|
      ensures MoveThreat(b, r[i].0, r[i].1, player) >= MoveThreat(b, r[j].0, r[j].1, player)
    {
      assert ranked[i] == ScoredMove(b, r[i], player);
      assert ranked[j] == ScoredMove(b, r[j], player);
    }
  }

  /** `_get_priority_moves`: the candidates ranked by threat, cut to the first
      ten. */
  ghost function PriorityMoves(b: Board, player: Player): seq<Move>
    requires IsSquare(b)
  {
    CandidateMovesSpec(b);
    TopMoves(b, CandidateMoves(b), player)
  }

  /** Expert's moves are free candidate cells, at most ten, and there are some
      exactly when the board has a free cell. */
  lemma PriorityMovesSpec(b: Board, player: Player)
    requires IsSquare(b)
    ensures |PriorityMoves(b, player)| <= 10
    ensures forall k :: 0 <= k < |PriorityMoves(b, player)| ==> PriorityMoves(b, player)[k] in CandidateMoves(b)
    ensures forall k :: 0 <= k < |PriorityMoves(b, player)| ==> IsFree(b, PriorityMoves(b, player)[k])
    ensures PriorityMoves(b, player) == [] <==> forall m :: !IsFree(b, m)
  {
    CandidateMovesSpec(b);
    CandidatesExist(b);
    TopMovesSpec(b, CandidateMoves(b), player);
  }

  /** `_enhanced_minimax_move`: the root search over the priority moves, the
      reply searched to depth 6, with the position bonus added to each score. */
  method EnhancedMinimaxMove(g: array2<int>, player: Player, weight: (int, int) -> int) returns (r: Option<Move>)
    requires GridOfSize(g, BoardSize)
    modifies g
    ensures Snapshot(g) == old(Snapshot(g))
    ensures r == RootChoice(old(Snapshot(g)), PriorityMoves(old(Snapshot(g)), player), 6, player, weight)
  {
    ghost var b := Snapshot(g);
    var moves := GetPriorityMoves(g, b, player);
    PriorityMovesSpec(b, player);
    r := RootSearch(g, b, moves, 6, player, weight);
  }

  /** `_get_priority_moves` on the grid: the candidates, their threats, then
      the stable sort and the first ten. */
  method GetPriorityMoves(g: array2<int>, ghost b: Board, player: Player) returns (moves: seq<Move>)
    requires GridOfSize(g, BoardSize) && Snapshot(g) == b
    modifies g
    ensures Snapshot(g) == b
    ensures moves == PriorityMoves(b, player)
  {
    var candidates := GetCandidateMoves(g);
    CandidateMovesSpec(b);
    var scored := ScoreMoves(g, b, candidates, player);
    moves := ItemsOf(Take(SortDesc(scored), 10));
  }

  /** The loop of `_get_priority_moves` that pairs each move with its threat
      weight, probing the grid with `_evaluate_move_threat`. */
  method ScoreMoves(g: array2<int>, ghost b: Board, moves: seq<Move>, player: Player)
    returns (scored: seq<(Move, int)>)
    requires GridOfSize(g, BoardSize) && Snapshot(g) == b
    requires forall k :: 0 <= k < |moves| ==> IsFree(b, moves[k])
    modifies g
    ensures Snapshot(g) == b
    ensures scored == Scored(b, moves, player)
  {
    scored := [];
    for k := 0 to |moves|
      invariant Snapshot(g) == b
      invariant |scored| == k
      invariant forall l :: 0 <= l < k ==> scored[l] == ScoredMove(b, moves[l], player)
    {
      var entry := ScoreMove(g, b, moves[k], player);
      scored := scored + [entry];
    }
  }

  /** One `(score, move)` pair of the scoring loop; the probe leaves the free
      cell empty again. */
  method ScoreMove(g: array2<int>, ghost b: Board, m: Move, player: Player) returns (entry: (Move, int))
    requires GridOfSize(g, BoardSize) && Snapshot(g) == b && IsFree(b, m)
    modifies g
    ensures Snapshot(g) == b
    ensures entry == ScoredMove(b, m, player)
  {
    assert g[m.0, m.1] == Empty;
    var score := EvaluateMoveThreat(g, m.0, m.1, player);
    entry := (m, score);
  }

  /** `_expert_move` as a choice: the first winning cell for `player`, else the
      first cell where the opponent would win, else the enhanced root search. */
  ghost function ExpertChoice(b: Board, player: Player, weight: (int, int) -> int): Option<Move>
    requires IsSquare(b)
  {
    var win := First(Scan(b, Winning(player)));
    var block := First(Scan(b, Winning(Opponent(player))));
    if win.Some? then win
    else if block.Some? then block
    else RootChoice(b, PriorityMoves(b, player), 6, player, weight)
  }

  /** `_expert_move`: the immediate win and the block come before any search. */
  method ExpertMove(g: array2<int>, player: Player, weight: (int, int) -> int) returns (r: Option<Move>)
    requires GridOfSize(g, BoardSize)
    modifies g
    ensures Snapshot(g) == old(Snapshot(g))
    ensures r == ExpertChoice(old(Snapshot(g)), player, weight)
  {
    var win := FindWinningMove(g, player);
    if win.Some? {
      return win;
    }
    var block := FindWinningMove(g, Opponent(player));
    if block.Some? {
      return block;
    }
    r := EnhancedMinimaxMove(g, player, weight);
  }

  /** Expert plays a winning cell whenever one exists, the row-major-first one;
      failing that it blocks the opponent's row-major-first winning cell. */
  lemma ExpertWinsThenBlocks(b: Board, player: Player, weight: (int, int) -> int)
    requires IsSquare(b)
    ensures (exists m: Move :: CompletesFive(b, m.0, m.1, player)) ==>
      var r := ExpertChoice(b, player, weight);
      r.Some? && CompletesFive(b, r.value.0, r.value.1, player)
      && forall m :: OnBoard(b, m) && Before(m, r.value) ==> !CompletesFive(b, m.0, m.1, player)
    ensures (forall m: Move :: !CompletesFive(b, m.0, m.1, player)) && (exists m: Move :: CompletesFive(b, m.0, m.1, Opponent(player))) ==>
      var r := ExpertChoice(b, player, weight);
      r.Some? && CompletesFive(b, r.value.0, r.value.1, Opponent(player))
      && forall m :: OnBoard(b, m) && Before(m, r.value) ==> !CompletesFive(b, m.0, m.1, Opponent(player))
  {
    WinningMoveSpec(b, player);
    WinningMoveSpec(b, Opponent(player));
  }

  // ---------------------------------------------------------------------------
  // Beginner

  /** `_beginner_move` as a choice: with the coin below 0.3 the opponent's first
      winning cell if there is one, otherwise the empty cell the random index
      picks. */
  ghost function BeginnerChoice(b: Board, player: Player, coin: real, choice: nat): Option<Move>
    requires IsSquare(b)
  {
    var empties := Scan(b, Free);
    var defensive := First(Scan(b, Winning(Opponent(player))));
    if coin < 0.3 && defensive.Some? then defensive
    else if empties == [] then None
    else Some(empties[choice % |empties|])
  }

  /** `_beginner_move`; `random.random()` and `random.choice` become the
      parameters `coin` and `choice`. */
  method BeginnerMove(g: array2<int>, player: Player, coin: real, choice: nat) returns (r: Option<Move>)
    requires GridOfSize(g, BoardSize)
    modifies g
    ensures Snapshot(g) == old(Snapshot(g))
    ensures r == BeginnerChoice(old(Snapshot(g)), player, coin, choice)
  {
    var empties := GetEmptyPositions(g);
    if coin < 0.3 {
      var defensive := FindDefensiveMove(g, player);
      if defensive.Some? {
        return defensive;
      }
    }
    if empties == [] {
      return None;
    }
    return Some(empties[choice % |empties|]);
  }

  // ---------------------------------------------------------------------------
  // Dispatch

  /** `get_move` as a choice, tier by tier. */
  ghost function Choice(d: Difficulty, b: Board, player: Player, coin: real, choice: nat, weight: (int, int) -> int): Option<Move>
    requires IsSquare(b)
  {
    match d
    case Beginner => BeginnerChoice(b, player, coin, choice)
    case Intermediate => RootChoice(b, CandidateMoves(b), 2, player, NoBonus)
    case Advance => RootChoice(b, CandidateMoves(b), 4, player, NoBonus)
    case Expert => ExpertChoice(b, player, weight)
  }

  /** `get_move`. */
  method GetMove(d: Difficulty, g: array2<int>, player: Player, coin: real, choice: nat, weight: (int, int) -> int)
    returns (r: Option<Move>)
    requires GridOfSize(g, BoardSize)
    modifies g
    ensures Snapshot(g) == old(Snapshot(g))
    ensures r == Choice(d, old(Snapshot(g)), player, coin, choice, weight)
  {
    match d
    case Beginner => r := BeginnerMove(g, player, coin, choice);
    case Intermediate => r := PlainRootMove(g, player, 2);
    case Advance => r := PlainRootMove(g, player, 4);
    case Expert => r := ExpertMove(g, player, weight);
  }

  /** A root choice over free cells is a free cell. */
  lemma RootChoiceIsFree(b: Board, moves: seq<Move>, depth: nat, player: Player, weight: (int, int) -> int)
    requires IsSquare(b) && forall k :: 0 <= k < |moves| ==> IsFree(b, moves[k])
    ensures RootChoice(b, moves, depth, player, weight).Some? ==> IsFree(b, RootChoice(b, moves, depth, player, weight).value)
    ensures RootChoice(b, moves, depth, player, weight).None? <==> moves == []
  {
  }

  /** Beginner answers with an empty cell exactly when the board has one. */
  lemma BeginnerChoiceIsFree(b: Board, player: Player, coin: real, choice: nat)
    requires IsSquare(b)
    ensures BeginnerChoice(b, player, coin, choice).Some? ==> IsFree(b, BeginnerChoice(b, player, coin, choice).value)
    ensures BeginnerChoice(b, player, coin, choice).None? <==> forall m :: !IsFree(b, m)
  {
    var empties := Scan(b, Free);
    ScanSpec(b, Free);
    WinningMoveSpec(b, Opponent(player));
    if empties != [] {
      assert empties[choice % |empties|] in empties;
    } else {
      forall m ensures !IsFree(b, m) {
        assert m !in empties;
      }
    }
  }

  /** Expert answers with an empty cell exactly when the board has one. */
  lemma ExpertChoiceIsFree(b: Board, player: Player, weight: (int, int) -> int)
    requires IsSquare(b)
    ensures ExpertChoice(b, player, weight).Some? ==> IsFree(b, ExpertChoice(b, player, weight).value)
    ensures ExpertChoice(b, player, weight).None? <==> forall m :: !IsFree(b, m)
  {
    WinningMoveSpec(b, player);
    WinningMoveSpec(b, Opponent(player));
    PriorityMovesSpec(b, player);
    RootChoiceIsFree(b, PriorityMoves(b, player), 6, player, weight);
  }

  /** Whatever the tier, the engine answers with an empty cell, and it answers
      exactly when the board has one. */
  lemma ChoiceIsFree(d: Difficulty, b: Board, player: Player, coin: real, choice: nat, weight: (int, int) -> int)
    requires IsSquare(b)
    ensures Choice(d, b, player, coin, choice, weight).Some? ==> IsFree(b, Choice(d, b, player, coin, choice, weight).value)
    ensures Choice(d, b, player, coin, choice, weight).None? <==> forall m :: !IsFree(b, m)
  {
    match d
    case Beginner =>
      BeginnerChoiceIsFree(b, player, coin, choice);
    case Intermediate =>
      CandidateMovesSpec(b);
      CandidatesExist(b);
      RootChoiceIsFree(b, CandidateMoves(b), 2, player, NoBonus);
    case Advance =>
      CandidateMovesSpec(b);
      CandidatesExist(b);
      RootChoiceIsFree(b, CandidateMoves(b), 4, player, NoBonus);
    case Expert =>
      ExpertChoiceIsFree(b, player, weight);
  }
}
