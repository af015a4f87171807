# Gomoku engine: difficulty tiers and position-evaluation tools

This project is a Dafny model of the playing core of a Gomoku (five in a row)
program. The core has two parts:

- `ai_system.py`: the engine. It has four difficulty tiers:
  - *beginner*: a random empty cell, or with probability 0.3 the cell that
    stops the opponent's five.
  - *intermediate*: a depth-2 minimax over the candidate moves.
  - *advance*: the same search at depth 4.
  - *expert*: the immediate win, else the immediate block, else a depth-6
    search over the ten most threatening candidates, plus a positional bonus.

  It also includes the board evaluation, the line counting and the
  `HumanVsAI` session object that holds the chosen difficulty and colours.
- `tools/evaluation.py`: the analysis helpers behind the assistant's
  `suggest_moves` tool:
  - pattern detection and the scans for threats, attacks, wins and blocks;
  - the centre-box moves;
  - the merge-and-rank step of `suggest_moves`;
  - the hot-spot analysis of the move history.

The board is a square grid of integers: 0 for empty, 1 for black, 2 for white.

## How the model is built

- **Boards and grids.**
  - Every specification is a function on values. A board is a `Board =
    seq<seq<int>>`.
  - The engine writes stones into the board and erases them again. Those
    procedures are methods on an `array2<int>`.
  - `Grid.Snapshot` reads an array as a `Board`. Each method states its result
    as a specification function of the snapshot.
  - Each method that places and removes stones also states that the grid is
    afterwards exactly what it was before.
- **Scans.** A row-by-row scan is `Scans.Scan(b, test)`: the on-board cells that
  pass `test`, in row-major order. The tests are: free, has a neighbour, in the
  centre box, completes five, makes a pattern of a given length, and wins by a
  given win check.
- **Search.**
  - `Search.AlphaBeta` is the source's fail-soft alpha-beta search, transcribed.
  - `Search.Minimax` is a plain minimax over the same move lists. Scores are
    extended integers (−∞, finite, +∞), because the search starts from
    `-math.inf` and `math.inf`.
  - The soundness lemma shows that the alpha-beta result agrees with minimax
    inside the window. At the full window the two are equal.
- **Ranking.**
  - Python's stable `sort(reverse=True, key=…)` is `Ranking.SortDesc`, a stable
    insertion sort on (item, key) pairs. It is proved non-increasing, a
    permutation and stable: the entries with any one key keep their relative
    order.
  - Slicing with `[:k]` is `Ranking.Take`. `Take` also models Python's
    negative slice bound.
- **Dictionaries.** The dictionary of `suggest_moves` is a `Suggestions.Table`: its
  keys in insertion order plus a map.
- **The fixed fallback cells are occupied.** When nothing is tagged, `suggest_moves` falls
  back to three fixed cells around the centre. `Suggestions.FallbackOccupied`
  shows that on a board of size 3 or more all three fallback cells are then
  occupied. The reason: the centre-box scan found no free cell, and the three
  cells lie inside that box.

## Model

| member | source | states |
|---|---|---|
| Grid.Opponent | ai_system.py:179 | the opponent `3 - player` is the other colour: black exactly when the player is white |
| Grid.Place | ai_system.py:168-171 | writing a stone changes that one cell and no other, and keeps the board square |
| Grid.PlaceUndo | ai_system.py:168-171 | placing a stone on an empty cell and then resetting it to 0 gives back the original board |
| Grid.AllCellsSpec | ai_system.py:214-221 | the nested `for i`/`for j` visiting order lists exactly the on-board cells, in strictly increasing row-major order |
| Scans.Scan | ai_system.py:214-221 | definition: the cells visited by the nested row and column loops that pass the test, in visiting order |
| Scans.ScanSpec | ai_system.py:214-221 | a row-major scan lists exactly the on-board cells passing the test, sorted row-major and without repeats |
| Scans.ScanFirstSpec | ai_system.py:282-292 | the first hit of a scan is absent only when no cell passes; otherwise it passes and precedes every other passing cell |
| Scans.KeepKeep | ai_system.py:233-236 | filtering twice equals filtering once by both tests, as the centre fallback filters the empties |
| Scans.ScanRefine | tools/evaluation.py:194-207 | filtering the scan for a weaker test by a stronger one gives the scan for the stronger one |
| Lines.Axis | ai_system.py:401 | the four directions are unit steps, and so are their reverses |
| Lines.RunFromCells | ai_system.py:376-380 | every cell counted by a walk is on the board and holds the player's stone |
| Lines.RunLength | ai_system.py:370-389 | a line through a cell counts at least that cell |
| Lines.PatternCount | tools/evaluation.py:71-88 | the bounded count on one axis is between 1 and 9 |
| Lines.Walk | ai_system.py:376-380 | the walk loop counts the run of the player's stones from a cell in one direction |
| Lines.CountConsecutive | ai_system.py:370-389 | the count is 1 plus the forward and backward runs of the player's stones |
| Lines.FiveInRow | ai_system.py:397-421 | definition: some axis through the cell has a line of at least five of the player's stones |
| Lines.GameOver | ai_system.py:423-431 | definition: some occupied cell lies on a five of its own colour |
| Lines.PatternAt | tools/evaluation.py:67-93 | definition: some axis's bounded count reaches the target |
| Lines.CheckFiveInRow | ai_system.py:397-421 | true exactly when one of the four axes through the cell has a run of at least 5 |
| Lines.IsGameOver | ai_system.py:423-431 | true exactly when some occupied cell is part of a five of its own colour |
| Heuristics.DirectionScore | ai_system.py:319-343 | a line scores between 0 and 100000; exactly 100000 for five or more, at most 10000 for four or fewer, positive exactly from two stones up; always a multiple of 100 |
| Heuristics.PositionValue | ai_system.py:309-317 | a cell's value, summed over the four axes, lies in 0..400000 |
| Heuristics.PositionValueFive | ai_system.py:309-317 | the value reaches 100000 exactly when the cell is on a five; otherwise it is at most 40000 |
| Heuristics.AxesValueAtLeast | ai_system.py:314-316 | the sum over axes is at least the score of each axis in it |
| Heuristics.BoardValue | ai_system.py:294-307 | definition: the sum over all cells of the position value of each own stone, minus that of each opponent stone; empty cells add nothing |
| Heuristics.CellValue | ai_system.py:302-305 | one cell's share of the evaluation, always a multiple of 100 |
| Heuristics.BoardValueHundreds | ai_system.py:294-343 | every evaluation is a multiple of 100, the smallest non-zero line score |
| Heuristics.BoardValueBounds | ai_system.py:294-307 | the board evaluation lies within ±400000 per cell |
| Heuristics.BoardValueAntisymmetric | ai_system.py:294-307 | the evaluation for one colour is the negation of the evaluation for the other |
| Heuristics.RowsValueAntisymmetric | ai_system.py:300-305 | antisymmetry holds for every prefix of rows |
| Heuristics.RowValueAntisymmetric | ai_system.py:301-305 | antisymmetry holds for every prefix of a row |
| Heuristics.CellValueAntisymmetric | ai_system.py:302-305 | a cell adds its value for its owner and subtracts it for the other side, so swapping sides negates it |
| Heuristics.ThreatScore | ai_system.py:356-363 | a threat line scores 0..1000; exactly 1000 for four or more, positive exactly from two stones up |
| Heuristics.MoveThreat | ai_system.py:345-368 | a move's threat level is between 0 and 4000 |
| Heuristics.ThreatSumFull | ai_system.py:356-363 | the threat level is maximal exactly when every axis holds a run of at least four |
| Heuristics.EvaluateDirection | ai_system.py:319-343 | the loop's score is the direction score of the counted line |
| Heuristics.EvaluatePosition | ai_system.py:309-317 | the loop's score is the position value of the cell |
| Heuristics.EvaluateBoard | ai_system.py:294-307 | the double loop computes the board evaluation: own stones added, opponent stones subtracted |
| Heuristics.EvaluateMoveThreat | ai_system.py:345-368 | the threat level with the stone placed; afterwards the cell is reset to 0, so an empty cell leaves the grid unchanged |
| Moves.GetEmptyPositions | ai_system.py:214-221 | the empty cells, in row-major order |
| Moves.HasNeighbors | ai_system.py:256-263 | true exactly when another occupied cell lies within distance 2 on both axes |
| Moves.KeepNeighboured | ai_system.py:228-230 | the loop keeps exactly the empties with a neighbour, in order |
| Moves.NearCentre | ai_system.py:235-236 | every kept cell comes from the input and is within 2 of the centre on both axes |
| Moves.NearCentreIsKeep | ai_system.py:233-236 | the centre filter equals filtering the empties by the centre-box test |
| Moves.CandidateMoves | ai_system.py:223-238 | definition: the empty cells with a neighbour; if none, the empty cells within 2 of the centre; if none, all empty cells |
| Moves.GetCandidateMoves | ai_system.py:223-238 | the candidates are the neighboured empties, else the empties in the centre box, else all empties |
| Moves.CandidateMovesSpec | ai_system.py:223-238 | every candidate is empty; the list is row-major; each of the three fallbacks is taken exactly in its case |
| Moves.CandidatesExist | ai_system.py:233-238 | the candidate list is empty exactly when the board is full |
| Threats.ProbeFive | ai_system.py:286-290 | placing, testing for five and undoing reports whether the cell completes five, and restores the grid |
| Threats.FindWinningMove | ai_system.py:282-292 | the first empty cell in row-major order that completes five for the player; the grid is restored |
| Threats.WinningMoveSpec | ai_system.py:282-292 | no answer exactly when no empty cell wins; otherwise the answer is empty, wins, and precedes every other winning cell |
| Threats.FindDefensiveMove | ai_system.py:265-280 | the first cell where the opponent would complete five; the grid is restored |
| Scores.Max | ai_system.py:172-173 | `max` returns one of its arguments, and one at least both |
| Scores.Min | ai_system.py:185-186 | `min` returns one of its arguments, and one at most both |
| Scores.ClampFullWindow | ai_system.py:113 | clamping to the window (−∞, +∞) changes nothing |
| Scores.AddBonus | ai_system.py:204 | adding the positional bonus shifts a finite score by the bonus and leaves ±∞ as they are |
| Search.Mover | ai_system.py:169-182 | the searching player places on maximising levels and the opponent on minimising ones |
| Search.Minimax | ai_system.py:159-189 | reference definition: the same tree without pruning; a leaf is the evaluation, an inner node the max (own move) or min (opponent's move) over all candidate moves, −∞/+∞ with none |
| Search.AlphaBeta | ai_system.py:159-189 | definition of `_minimax`: the evaluation at depth 0 or on a finished board; otherwise the candidate loop started from −∞ (maximising) or +∞ (minimising) |
| Search.Cutoff | ai_system.py:165-189 | definition of the candidate loop: place the mover's stone, search one level less, fold `max`/`min` into the best value and into alpha/beta, and stop as soon as `beta <= alpha` |
| Search.MinimaxHundreds | ai_system.py:159-189 | every search value is infinite or a multiple of 100 |
| Search.AlphaBetaSound | ai_system.py:159-189 | clamped to any non-empty window, the pruned search and plain minimax agree |
| Search.CutoffSoundMax | ai_system.py:165-176 | the maximising loop with its `beta <= alpha` break agrees with minimax inside the window |
| Search.CutoffSoundMin | ai_system.py:177-189 | the minimising loop with its break agrees with minimax inside the window |
| Search.AlphaBetaFullWindow | ai_system.py:159-189 | started from (−∞, +∞), the pruned search returns exactly the minimax value |
| Search.LeafValue | ai_system.py:162-163 | at depth 0 or on a finished board both searches return the board evaluation |
| Search.MinimaxSearch | ai_system.py:159-189 | the recursive search computes the alpha-beta value and leaves the grid as it found it |
| Search.SearchChildren | ai_system.py:165-189 | the loop over candidates computes the pruned fold, stopping at the first cut-off, and restores the grid |
| Search.SearchChild | ai_system.py:167-175 | one iteration either cuts off with the fold's value or moves the fold on by one move |
| Search.ProbeChild | ai_system.py:168-171 | placing, searching and undoing gives the search value of the child board and restores the grid |
| Policy.MaxDepth | ai_system.py:67-75 | depths are even and at most 6, and 0 only for beginner |
| Policy.Leader | ai_system.py:208-210 | the `score > best_score` loop remembers the index of its current best, or none while all are −∞ |
| Policy.Pick | ai_system.py:212 | with at least one candidate, the chosen index is in range |
| Policy.LeaderSpec | ai_system.py:208-210 | the kept score is at least every score seen and strictly above every earlier one; with no index every score was −∞ |
| Policy.PickIsFirstBest | ai_system.py:117-121 | the chosen candidate has the greatest score and is the first one that has it |
| Policy.RootScores | ai_system.py:109-115 | one root score per candidate, each the search value after placing it |
| Policy.RootScore | ai_system.py:198-206 | definition: the minimax value (opponent to move, at the tier's depth) of the board with the player's stone on the cell, plus the cell's bonus |
| Policy.RootChoice | ai_system.py:101-121 | definition: no move without candidates; otherwise the candidate at the index the `score > best_score` loop keeps, or the first candidate when none beat −∞ |
| Policy.RootChoiceSpec | ai_system.py:101-121 | no move exactly when there are no candidates; otherwise the first candidate with the greatest root score |
| Policy.BonusBreaksTies | ai_system.py:204-210 | on scores in multiples of 100, a bonus varying by less than 100 only breaks ties between equal finite scores |
| Policy.LeaderAlike | ai_system.py:208-210 | the root loop's choice depends only on how the scores compare and which are −∞ |
| Policy.RootChoiceBonusAlike | ai_system.py:198-212 | two bonuses that order the candidates alike and vary by less than 100 over them choose the same move |
| Policy.ScoreRootMove | ai_system.py:198-206 | place, search at the tier's depth, add the bonus and undo: the root score, with the grid restored |
| Policy.RootSearch | ai_system.py:191-212 | the root loop returns the root choice and restores the grid |
| Policy.PlainRootMove | ai_system.py:101-142 | the intermediate and advance tiers choose among the candidate moves at their depth, without bonus |
| Policy.Scored | ai_system.py:245-248 | one (move, threat) pair per candidate, in candidate order |
| Policy.RankedSpec | ai_system.py:250-251 | the ranked list is non-increasing in threat, a permutation of the scored list, and ties keep candidate order |
| Policy.Ranked | ai_system.py:250-251 | definition: the scored moves sorted by threat, highest first, with Python's stable sort |
| Policy.TopMoves | ai_system.py:253-254 | definition: the moves of the first ten ranked pairs |
| Policy.TopMovesSpec | ai_system.py:253-254 | at most ten moves, all candidates, in non-increasing threat order |
| Policy.PriorityMoves | ai_system.py:240-254 | definition: the candidate moves, ranked by threat, cut to ten |
| Policy.PriorityMovesSpec | ai_system.py:240-254 | at most ten moves, all candidates and empty; none only on a full board |
| Policy.ScoreMove | ai_system.py:247-248 | one pair: the cell with its threat level; the probed cell is left empty again |
| Policy.ScoreMoves | ai_system.py:245-248 | the scoring loop yields the scored list and restores the grid |
| Policy.GetPriorityMoves | ai_system.py:240-254 | the method returns the priority moves and restores the grid |
| Policy.EnhancedMinimaxMove | ai_system.py:191-212 | the expert search chooses among the priority moves at depth 6 with the positional bonus; the grid is restored |
| Policy.ExpertChoice | ai_system.py:144-157 | definition: the first cell that completes the player's five, else the first that completes the opponent's, else the depth-6 root choice over the priority moves with the bonus |
| Policy.ExpertMove | ai_system.py:144-157 | the expert tier returns the first winning cell, else the first blocking cell, else the enhanced search's choice |
| Policy.ExpertWinsThenBlocks | ai_system.py:144-157 | if a win exists the answer wins; if none exists but the opponent has one, the answer blocks it |
| Policy.BeginnerChoice | ai_system.py:88-99 | definition: with the coin below 0.3 and a cell completing the opponent's five, the first such cell; otherwise the drawn empty cell; none on a full board |
| Policy.BeginnerMove | ai_system.py:88-99 | below 0.3 the defensive cell if any, else the drawn empty cell |
| Policy.Choice | ai_system.py:77-86 | definition: beginner's choice; the candidates' root choice at depth 2 or 4 without bonus; or the expert's choice |
| Policy.GetMove | ai_system.py:77-86 | each difficulty goes to its own tier; the grid is restored |
| Policy.RootChoiceIsFree | ai_system.py:191-212 | a root choice over empty candidates is empty, and absent only without candidates |
| Policy.BeginnerChoiceIsFree | ai_system.py:88-99 | the beginner's move is empty, and absent only on a full board |
| Policy.ExpertChoiceIsFree | ai_system.py:144-157 | the expert's move is empty, and absent only on a full board |
| Policy.ChoiceIsFree | ai_system.py:77-86 | at every difficulty the returned move is an empty cell, and absent only on a full board |
| Session.LowerChar | ai_system.py:34 | ASCII capitals map to their small letters; other characters (except the Kelvin sign) stay as they are |
| Session.Lower | ai_system.py:34 | `lower()` maps each character and keeps the length |
| Session.LowerIdempotent | ai_system.py:41 | lower-casing twice is the same as lower-casing once |
| Session.ParseDifficulty | ai_system.py:14-19 | a name parses exactly when it is one of the four enum values, and parses to that value |
| Session.ParseName | ai_system.py:33-35 | any spelling whose lower-case form is a difficulty's value selects that difficulty |
| Session.HumanVsAI.constructor | ai_system.py:24-29 | a new session is intermediate, AI white, human black, board 15, depth 2 |
| Session.HumanVsAI.SetDifficulty | ai_system.py:31-37 | accepted exactly when the lower-cased name is a difficulty; then it is selected, otherwise nothing changes; colours, size and depth never change, so the colours stay one black and one white |
| Session.HumanVsAI.SetAiColor | ai_system.py:39-48 | the AI is black exactly for the three black words and white otherwise; the human always gets the other colour |
| Evaluation.BoundedWalk | tools/evaluation.py:74-80 | the bounded walk counts the player's run from the next cell, stopping after four |
| Evaluation.AxisCount | tools/evaluation.py:71-88 | one axis's count is 1 plus the two bounded runs |
| Evaluation.CheckPatternAt | tools/evaluation.py:67-93 | true exactly when some axis count reaches the target; the board is only read |
| Evaluation.PatternCountIsRun | tools/evaluation.py:74-88 | for targets up to 5 the bounded count reaches the target exactly when the full run does |
| Evaluation.PatternAtIsRun | tools/evaluation.py:67-93 | for targets up to 5 the pattern holds exactly when some axis run reaches the target; at 5 it is the engine's five-in-row test |
| Evaluation.PatternAtMonotone | tools/evaluation.py:90-91 | a pattern of length n is also one of every smaller length |
| Evaluation.ProbePattern | tools/evaluation.py:58-62 | placing, testing the pattern and resetting the cell reports the pattern test and restores the grid |
| Evaluation.PatternRow | tools/evaluation.py:56-62 | one row of the scan appends that row's pattern cells, in order |
| Evaluation.FindPatternMoves | tools/evaluation.py:49-64 | the empty cells where the stone would make the pattern, in row-major order; the grid is restored |
| Evaluation.FindThreats | tools/evaluation.py:49-64 | the empty cells that would make a line of four, in row-major order; the grid is restored |
| Evaluation.FindAttackingMoves | tools/evaluation.py:194-207 | the empty cells that would make a line of three, in row-major order; the grid is restored |
| Evaluation.ThreatsAreAttacks | tools/evaluation.py:194-207 | every threat is an attacking move, and the threats are the attacks that also make four, in the same order |
| Evaluation.PatternMovesSpec | tools/evaluation.py:49-64 | a cell is listed exactly when it is empty and the stone would make the pattern; the list is row-major |
| Evaluation.ProbeWin | tools/evaluation.py:168-172 | placing, asking the win check and resetting reports the check and restores the grid |
| Evaluation.WinRow | tools/evaluation.py:167-172 | one row of the win scan appends that row's winning cells, in order |
| Evaluation.FindWinsBy | tools/evaluation.py:161-191 | the empty cells where a stone of the given colour wins, in row-major order; the grid is restored |
| Evaluation.FindWinningMoves | tools/evaluation.py:161-174 | the current player's winning cells, in row-major order; the grid is restored |
| Evaluation.FindBlockingMoves | tools/evaluation.py:177-191 | the opponent's winning cells, in row-major order; the grid is restored |
| Evaluation.FindCenterMoves | tools/evaluation.py:210-221 | exactly the empty cells within 2 of the centre, in row-major order; the board is only read |
| Evaluation.CenterMovesAreScan | tools/evaluation.py:216-219 | any row-major list of exactly those cells is the scan of empty centre-box cells |
| Ranking.Insert | tools/evaluation.py:148-152 | inserting one pair lengthens the list by one |
| Ranking.SortDesc | tools/evaluation.py:148-152 | sorting keeps the length |
| Ranking.ItemsOf | ai_system.py:254 | the list of moves taken from (move, score) pairs, position by position |
| Ranking.Take | tools/evaluation.py:152 | a slice `[:k]` is a prefix of length min(k, n), and for negative k of length max(n + k, 0) |
| Ranking.InsertPerm | tools/evaluation.py:148-152 | insertion adds exactly the new pair to the multiset |
| Ranking.InsertSorted | tools/evaluation.py:148-152 | inserting into a non-increasing list keeps it non-increasing |
| Ranking.InsertStable | tools/evaluation.py:148-152 | an inserted pair goes after every pair with the same key |
| Ranking.SortDescSorted | tools/evaluation.py:148-152 | the sorted list is non-increasing in its key and a permutation of the input |
| Ranking.SortDescStable | tools/evaluation.py:148-152 | for every key, the pairs with that key keep their original relative order |
| Ranking.TakeSorted | tools/evaluation.py:148-152 | a slice of a non-increasing list is non-increasing |
| Ranking.PermDistinct | tools/evaluation.py:148-152 | a permutation of a list without repeats has none either |
| Ranking.SortDescItems | tools/evaluation.py:371 | sorting a list whose items are distinct keeps them distinct |
| Ranking.SortDescMembers | tools/evaluation.py:371 | sorting keeps exactly the same pairs and the same items |
| Suggestions.Items | tools/evaluation.py:149 | `items()` yields one entry per key |
| Suggestions.Record | tools/evaluation.py:144-146 | definition of one merge step: a new cell is appended with its reason and priority; a known cell is overwritten only by a strictly higher priority and keeps its place |
| Suggestions.Dedupe | tools/evaluation.py:142-146 | definition: the merge steps applied to the suggestions in order, starting from the empty dictionary |
| Suggestions.DedupeCells | tools/evaluation.py:142-146 | the merged table has an entry exactly for each suggested cell, each key listed once |
| Suggestions.DedupeBest | tools/evaluation.py:144-146 | each cell keeps its highest priority and, among equal ones, the first suggestion's reason |
| Suggestions.DedupeOrder | tools/evaluation.py:142-146 | the keys appear in order of each cell's first suggestion |
| Suggestions.DedupeSpec | tools/evaluation.py:142-146 | the merge's entries, kept values and key order together |
| Suggestions.ItemsSpec | tools/evaluation.py:149 | the items are distinct and each is a key with its stored reason and priority |
| Suggestions.Tag | tools/evaluation.py:121 | each move is paired with the reason and priority, in order |
| Suggestions.MergeSuggestions | tools/evaluation.py:142-149 | the dictionary loop yields the items of the merged table |
| Suggestions.SuggestMoves | tools/evaluation.py:96-152 | finished on a finished game; else the first win; else the ranked merge of blocks, attacks and centre cells (or the fallback); the grid is restored |
| Suggestions.Rank | tools/evaluation.py:148-152 | definition: the merged items sorted by priority, highest first and stably, then sliced to `max_suggestions` |
| Suggestions.Tagged | tools/evaluation.py:117-131 | definition: the first three blocks at 10, the first three attacks at 8 and the first two centre cells at 5, in that order |
| Suggestions.Fallback | tools/evaluation.py:133-140 | definition: the centre at 3 and the cells below and right of it at 2 |
| Suggestions.Advise | tools/evaluation.py:105-152 | definition: finished when the game is over; else the first winning cell; else the ranked merge of the tagged moves, or of the fallback when none were tagged |
| Suggestions.RankSpec | tools/evaluation.py:142-152 | at most the requested number, non-increasing priority, one entry per cell, each the first suggestion with that cell's best priority |
| Suggestions.AdviseWin | tools/evaluation.py:107-115 | a reported win is an empty cell where the player's stone wins, and it is the first such cell in row-major order; conversely, when the game is not over and some empty cell wins, the answer is a win |
| Suggestions.SuggestedFree | tools/evaluation.py:117-131 | when anything was tagged, every ranked suggestion is an empty cell |
| Suggestions.TaggedFree | tools/evaluation.py:117-131 | every tagged block, attack and centre cell is empty |
| Suggestions.FallbackOccupied | tools/evaluation.py:133-140 | on boards of size 3 or more, if nothing was tagged then every fallback cell is on the board and occupied |
| HotSpots.Heat | tools/evaluation.py:356-363 | a cell's heat never exceeds the number of moves played |
| HotSpots.HeatPositive | tools/evaluation.py:356-363 | a cell is warm exactly when some move lies within one step of it on both axes |
| HotSpots.HeatSnoc | tools/evaluation.py:356-363 | each further move adds one to the heat of every cell next to it |
| HotSpots.CountNeighbourhoods | tools/evaluation.py:352-363 | the counting loops give each on-board cell next to a move its heat, each key listed once |
| HotSpots.CountAround | tools/evaluation.py:359-363 | the 3×3 loop around one move adds that move to the tally: afterwards every on-board cell's count is its heat including this move, and the keys are exactly the counted cells, each once |
| HotSpots.Touch | tools/evaluation.py:361-363 | one offset of the 3×3 loop keeps the tally: the offset's cell, if on the board, gains one, and the keys still list each counted cell once |
| HotSpots.FreeSpots | tools/evaluation.py:366-369 | the filter keeps exactly the empty counted cells with their counts, each once |
| HotSpots.RankHotSpots | tools/evaluation.py:371 | sorting keeps the hot-spot description and makes it non-increasing |
| HotSpots.AnalyzeHotSpots | tools/evaluation.py:348-371 | exactly the empty cells with positive heat, each with its heat, in non-increasing heat order |

## Left out

- `agent_builder.py` is not part of this model. It is the conversational
  wrapper that calls these tools.
- Randomness:
  - Policy.BeginnerMove: `random.random()` and `random.choice` become the
    parameters `coin` and `choice`.
  - The drawn index is taken modulo the number of empty cells, so it is not
    modelled as uniform.
- Policy.EnhancedMinimaxMove: the expert's root score adds `_position_weight`
  (ai_system.py:204, 391-395), a float built from a square root. It lies in
  (−29, 70] on a 15 × 15 board, so any two of its values differ by less than
  100. The model takes an integer-valued `weight` parameter instead and does
  not model the centre-preference formula.
  - Board values are Python integers: `_evaluate_board` starts from 0 and adds
    integer line scores, despite its `float` annotation.
  - They are multiples of 100 (Heuristics.BoardValueHundreds,
    Search.MinimaxHundreds).
  - So at ai_system.py:208 the bonus only breaks ties between equal search
    values (Policy.BonusBreaksTies).
  - Policy.RootChoiceBonusAlike proves that any two integer weights that order
    the candidates alike and vary by less than 100 choose the same move.
  - An integer weight with the float's order among the candidates therefore
    chooses as the source does. The argument for the float itself is not
    proved, since reals and square roots are not modelled.
- Scores: the only floats in the search are the infinities of `-math.inf` and
  `math.inf` (ai_system.py:103, 113, 166, 178). They are the extended `Score`
  values.
- Policy.GetMove: the `best_move or candidate_moves[0]` fallback and
  `random.choice` both raise an exception on a full board. The model returns
  `None` there.
- Grid sizes:
  - The engine's board size is fixed at 15. Engine methods require a 15 × 15
    grid.
  - The evaluation tools take any square grid.
- The `board` object of `tools/evaluation.py`:
  - `board.game_over` becomes a parameter of Suggestions.SuggestMoves.
  - `board._check_win` becomes the `checkWin` parameter. The model does not
    include the board class that defines it.
  - `board.current_player` and `board.move_history` become parameters.
- Output text: the Chinese messages built by `set_difficulty`, `set_ai_color`
  and `suggest_moves`.
  - SetDifficulty and SetAiColor return a boolean that says which branch ran.
  - SuggestMoves returns an `Advice` value. It carries the move or the ranked
    suggestions the text would list.
- Session.LowerChar: Python's Unicode `lower()` is modelled on ASCII letters
  and the Kelvin sign. Other cased non-ASCII letters are left unchanged. That
  is enough to decide the three black words and the four difficulty names.
- Instance state that is never updated:
  - `GomokuAI.__init__` (ai_system.py:62-65) only stores its difficulty, the
    size 15 and the depth.
  - The model passes the difficulty to Policy.GetMove. Like the source
    (ai_system.py:113, 134, 202), the tiers pass the literal depths 2, 4 and 6.
    The search never reads `max_depth`. Policy.MaxDepth models
    `_get_max_depth` only as the stored value.
- Session.HumanVsAI.SetDifficulty leaves `max_depth` unchanged, as the source
  does.
- HotSpots.AnalyzeHotSpots: the contract does not state the order among equal
  heats. That order comes from the dictionary's insertion order.
- Other callers and reports: `get_ai_move`, `is_ai_turn`, the
  `get_human_vs_ai` singleton, and the other analysis reports of
  `tools/evaluation.py`, such as the position evaluation and the game
  statistics.
- Grid.Place: players are the integers 1 and 2 rather than the `Player` enum.
  `Place` outside the board returns the board unchanged.
