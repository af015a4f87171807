/** `suggest_moves` of the evaluation tools (tools/evaluation.py): a winning
    move short-circuits; otherwise tagged blocking, attacking and centre moves
    are merged per cell, keeping each cell's highest priority, and ranked. */
module Suggestions {
  import opened Grid
  import opened Scans
  import opened Ranking
  import opened Evaluation

  /** The reason text attached to a suggestion. */
  datatype Reason = Defend | Attack | Centre | NearCentre

  /** A tagged move: the cell, why, and its priority. */
  type Suggestion = (Move, Reason, int)

  /** The dictionary `unique_suggestions`: its keys in insertion order and the
      (reason, priority) stored for each. */
  datatype Table = Table(keys: seq<Move>, entries: map<Move, (Reason, int)>)

  /** What the tool answers: the game is over, a winning cell, or the ranked
      suggestions as ((cell, reason), priority). */
  datatype Advice = Finished | Win(move: Move) | Suggest(ranked: seq<((Move, Reason), int)>)

  /** The keys are listed once each, and they are exactly the stored cells. */
  ghost predicate WellFormed(t: Table)
  {
    (forall i, j :: 0 <= i < j < |t.keys| ==> t.keys[i] != t.keys[j]) &&
    (forall m :: m in t.entries <==> m in t.keys)
  }

  /** One step of the merge loop: a new cell is added at the end; a known cell
      is overwritten only by a strictly higher priority. */
  function Record(t: Table, s: Suggestion): Table
  {
    if s.0 !in t.entries then Table(t.keys + [s.0], t.entries[s.0 := (s.1, s.2)])
    else if t.entries[s.0].1 < s.2 then Table(t.keys, t.entries[s.0 := (s.1, s.2)])
    else t
  }

  /** The merge loop over all suggestions, in order. */
  function Dedupe(s: seq<Suggestion>): Table
    decreases |s|
  {
    if s == [] then Table([], map[]) else Record(Dedupe(s[..|s| - 1]), s[|s| - 1])
  }

  /** `dict.items()`, as ((cell, reason), priority) pairs for the ranking. */
  function Items(t: Table): (r: seq<((Move, Reason), int)>)
    requires forall m :: m in t.keys ==> m in t.entries
    ensures |r| == |t.keys|
  {
    seq(|t.keys|, i requires 0 <= i < |t.keys| => ((t.keys[i], t.entries[t.keys[i]].0), t.entries[t.keys[i]].1))
  }

  /** The merged suggestions ranked by priority and cut to `maxSuggestions`
      (Python's `sorted(..., reverse=True)[:maxSuggestions]`). */
  function Rank(s: seq<Suggestion>, maxSuggestions: int): seq<((Move, Reason), int)>
  {
    DedupeSpec(s);
    Take(SortDesc(Items(Dedupe(s))), maxSuggestions)
  }

  /** (m, r, v) is the first suggestion for cell m that carries m's highest
      priority v. */
  ghost predicate FirstBest(s: seq<Suggestion>, m: Move, r: Reason, v: int)
  {
    exists i :: 0 <= i < |s| && s[i] == (m, r, v) &&
      (forall j :: 0 <= j < |s| && s[j].0 == m ==> s[j].2 <= v) &&
      (forall j :: 0 <= j < i && s[j].0 == m ==> s[j].2 < v)
  }

  /** The merge keeps one entry per suggested cell, listed once in its keys. */
  lemma {:induction false} DedupeCells(s: seq<Suggestion>)
    ensures WellFormed(Dedupe(s))
    ensures forall m :: m in Dedupe(s).entries <==> exists i :: 0 <= i < |s| && s[i].0 == m
    decreases |s|
  {
    if s != [] {
      var p := s[..|s| - 1];
      var x := s[|s| - 1];
      var t := Dedupe(p);
      var t' := Dedupe(s);
      DedupeCells(p);
      assert t' == Record(t, x);
      forall m ensures m in t'.entries <==> exists i :: 0 <= i < |s| && s[i].0 == m {
        if m in t'.entries && m != x.0 {
          var i :| 0 <= i < |p| && p[i].0 == m;
          assert s[i].0 == m;
        }
        if m != x.0 && (exists i :: 0 <= i < |s| && s[i].0 == m) {
          var i :| 0 <= i < |s| && s[i].0 == m;
          assert p[i].0 == m;
        }
        if m == x.0 {
          assert s[|s| - 1].0 == m;
        }
      }
    }
  }

  /** A suggestion that beats every earlier one for its cell is the first best. */
  lemma BestNew(p: seq<Suggestion>, x: Suggestion)
    requires forall j :: 0 <= j < |p| && p[j].0 == x.0 ==> p[j].2 < x.2
    ensures FirstBest(p + [x], x.0, x.1, x.2)
  {
    var s := p + [x];
    assert s[|p|] == x;
    assert forall j :: 0 <= j < |p| ==> s[j] == p[j];
  }

  /** A first best stays so when a suggestion that does not beat it follows. */
  lemma BestKept(p: seq<Suggestion>, x: Suggestion, m: Move, r: Reason, v: int)
    requires FirstBest(p, m, r, v) && (x.0 == m ==> x.2 <= v)
    ensures FirstBest(p + [x], m, r, v)
  {
    var s := p + [x];
    var i :| 0 <= i < |p| && p[i] == (m, r, v) &&
      (forall j :: 0 <= j < |p| && p[j].0 == m ==> p[j].2 <= v) &&
      (forall j :: 0 <= j < i && p[j].0 == m ==> p[j].2 < v);
    assert s[i] == p[i];
    assert forall j :: 0 <= j < |p| ==> s[j] == p[j];
    assert s[|p|] == x;
  }

  /** Each cell's entry is the first of its suggestions with its highest
      priority. */
  lemma {:induction false} DedupeBest(s: seq<Suggestion>)
    ensures forall m :: m in Dedupe(s).entries ==>
      FirstBest(s, m, Dedupe(s).entries[m].0, Dedupe(s).entries[m].1)
    decreases |s|
  {
    if s != [] {
      var p := s[..|s| - 1];
      var x := s[|s| - 1];
      var t := Dedupe(p);
      var t' := Dedupe(s);
      DedupeBest(p);
      DedupeCells(p);
      assert s == p + [x];
      assert t' == Record(t, x);
      forall m | m in t'.entries
        ensures FirstBest(s, m, t'.entries[m].0, t'.entries[m].1)
      {
        if m == x.0 && (x.0 !in t.entries || t.entries[x.0].1 < x.2) {
          forall j | 0 <= j < |p| && p[j].0 == x.0 ensures p[j].2 < x.2 {
            assert x.0 in t.entries;
            var i :| 0 <= i < |p| && p[i] == (x.0, t.entries[x.0].0, t.entries[x.0].1) &&
              (forall j :: 0 <= j < |p| && p[j].0 == x.0 ==> p[j].2 <= t.entries[x.0].1);
          }
          BestNew(p, x);
        } else {
          assert m in t.entries && t'.entries[m] == t.entries[m];
          BestKept(p, x, m, t.entries[m].0, t.entries[m].1);
        }
      }
    }
  }

  /** Each key of `keys` is first suggested in `s` before every later key. */
  ghost predicate InFirstOrder(s: seq<Suggestion>, keys: seq<Move>)
  {
    forall a, b, j :: 0 <= a < b < |keys| && 0 <= j < |s| && s[j].0 == keys[b] ==>
      exists i :: 0 <= i < j && s[i].0 == keys[a]
  }

  /** The stored cells are the suggested ones. */
  ghost predicate Covers(s: seq<Suggestion>, t: Table)
  {
    forall m :: m in t.entries <==> exists i :: 0 <= i < |s| && s[i].0 == m
  }

  /** Every key is suggested somewhere in `s`. */
  ghost predicate Suggested(s: seq<Suggestion>, keys: seq<Move>)
  {
    forall m :: m in keys ==> exists i :: 0 <= i < |s| && s[i].0 == m
  }

  lemma OrderKeep(p: seq<Suggestion>, x: Suggestion, keys: seq<Move>)
    requires InFirstOrder(p, keys) && Suggested(p, keys)
    ensures InFirstOrder(p + [x], keys)
  {
    var s := p + [x];
    forall a, b, j | 0 <= a < b < |keys| && 0 <= j < |s| && s[j].0 == keys[b]
      ensures exists i :: 0 <= i < j && s[i].0 == keys[a]
    {
      if j == |p| {
        assert keys[a] in keys;
        var i0 :| 0 <= i0 < |p| && p[i0].0 == keys[a];
        assert s[i0] == p[i0];
      } else {
        assert p[j] == s[j];
        var i :| 0 <= i < j && p[i].0 == keys[a];
        assert s[i] == p[i];
      }
    }
  }

  lemma OrderAppend(p: seq<Suggestion>, x: Suggestion, keys: seq<Move>)
    requires InFirstOrder(p, keys) && Suggested(p, keys)
    requires forall i :: 0 <= i < |p| ==> p[i].0 != x.0
    ensures InFirstOrder(p + [x], keys + [x.0])
  {
    var s := p + [x];
    var keys' := keys + [x.0];
    OrderKeep(p, x, keys);
    forall a, b, j | 0 <= a < b < |keys'| && 0 <= j < |s| && s[j].0 == keys'[b]
      ensures exists i :: 0 <= i < j && s[i].0 == keys'[a]
    {
      assert keys'[a] == keys[a];
      if b == |keys| {
        assert forall i :: 0 <= i < |p| ==> s[i].0 != x.0;
        assert j == |p|;
        assert keys[a] in keys;
        var i0 :| 0 <= i0 < |p| && p[i0].0 == keys[a];
        assert s[i0] == p[i0];
        assert exists i :: 0 <= i < j && s[i].0 == keys'[a];
      } else {
        assert keys'[b] == keys[b];
        assert exists i :: 0 <= i < j && s[i].0 == keys'[a];
      }
    }
  }

  lemma OrderStep(p: seq<Suggestion>, x: Suggestion, t: Table)
    requires WellFormed(t) && Covers(p, t) && InFirstOrder(p, t.keys)
    ensures InFirstOrder(p + [x], Record(t, x).keys)
  {
    assert Suggested(p, t.keys);
    if x.0 in t.entries {
      OrderKeep(p, x, t.keys);
    } else {
      OrderAppend(p, x, t.keys);
    }
  }

  /** The keys are in the order of each cell's first suggestion. */
  lemma {:induction false} DedupeOrder(s: seq<Suggestion>)
    ensures InFirstOrder(s, Dedupe(s).keys)
    decreases |s|
  {
    if s != [] {
      var p := s[..|s| - 1];
      var x := s[|s| - 1];
      DedupeOrder(p);
      DedupeCells(p);
      assert s == p + [x];
      OrderStep(p, x, Dedupe(p));
    }
  }

  /** What the merge computes: one entry per suggested cell, holding the first
      suggestion with that cell's highest priority, with the cells in the order
      of their first suggestion. */
  lemma DedupeSpec(s: seq<Suggestion>)
    ensures WellFormed(Dedupe(s))
    ensures forall m :: m in Dedupe(s).entries <==> exists i :: 0 <= i < |s| && s[i].0 == m
    ensures forall m :: m in Dedupe(s).entries ==>
      FirstBest(s, m, Dedupe(s).entries[m].0, Dedupe(s).entries[m].1)
    ensures InFirstOrder(s, Dedupe(s).keys)
  {
    DedupeCells(s);
    DedupeBest(s);
    DedupeOrder(s);
  }

  /** The entries of a well-formed table have distinct cells, each stored under
      its own cell. */
  lemma ItemsSpec(t: Table)
    requires WellFormed(t)
    ensures Distinct(Items(t))
    ensures forall e :: e in Items(t) ==> e.0.0 in t.entries && e == ((e.0.0, t.entries[e.0.0].0), t.entries[e.0.0].1)
  {
    var r := Items(t);
    forall i, j | 0 <= i < j < |r| ensures r[i] != r[j] {
      assert r[i].0.0 == t.keys[i] && r[j].0.0 == t.keys[j];
    }
  }

  // ---------------------------------------------------------------------------
  // The whole tool

  /** Tags each move with a reason and a priority. */
  function Tag(moves: seq<Move>, reason: Reason, priority: int): (r: seq<Suggestion>)
    ensures |r| == |moves|
    ensures forall i :: 0 <= i < |r| ==> r[i] == (moves[i], reason, priority)
  {
    seq(|moves|, i requires 0 <= i < |moves| => (moves[i], reason, priority))
  }

  /** The tagged moves: up to three blocks (10), three attacks (8) and two
      centre cells (5). */
  ghost function Tagged(b: Board, current: Player, checkWin: (Board, int, int) -> bool): seq<Suggestion>
    requires IsSquare(b)
  {
    Tag(Take(Scan(b, WinsBy(Opponent(current), checkWin)), 3), Defend, 10)
      + Tag(Take(Scan(b, MakesPattern(current, 3)), 3), Attack, 8)
      + Tag(Take(Scan(b, Both(Free, CentreBox)), 2), Centre, 5)
  }

  /** The fixed suggestions when nothing was tagged: the centre (3) and the
      cells below and to the right of it (2 each). */
  function Fallback(n: int): seq<Suggestion>
  {
    var c := n / 2;
    [((c, c), Centre, 3), ((c + 1, c), NearCentre, 2), ((c, c + 1), NearCentre, 2)]
  }

  ghost function Gathered(b: Board, current: Player, checkWin: (Board, int, int) -> bool): seq<Suggestion>
    requires IsSquare(b)
  {
    var tagged := Tagged(b, current, checkWin);
    if tagged == [] then Fallback(|b|) else tagged
  }

  /** What `suggest_moves` answers on board `b` with `current` to move. */
  ghost function Advise(b: Board, current: Player, gameOver: bool, maxSuggestions: int,
                        checkWin: (Board, int, int) -> bool): Advice
    requires IsSquare(b)
  {
    if gameOver then Finished
    else
      var wins := Scan(b, WinsBy(current, checkWin));
      if wins != [] then Win(wins[0])
      else Suggest(Rank(Gathered(b, current, checkWin), maxSuggestions))
  }

  /** The merge loop of `suggest_moves` over a dictionary (its keys in insertion
      order and its stored values), then `items()`. */
  method MergeSuggestions(suggestions: seq<Suggestion>) returns (items: seq<((Move, Reason), int)>)
    ensures (DedupeSpec(suggestions); items == Items(Dedupe(suggestions)))
  {
    var keys: seq<Move> := [];
    var entries: map<Move, (Reason, int)> := map[];
    for k := 0 to |suggestions|
      invariant Table(keys, entries) == Dedupe(suggestions[..k])
    {
      assert suggestions[..k + 1][..k] == suggestions[..k];
      var s := suggestions[k];
      if s.0 !in entries || entries[s.0].1 < s.2 {
        if s.0 !in entries {
          keys := keys + [s.0];
        }
        entries := entries[s.0 := (s.1, s.2)];
      }
    }
    assert suggestions[..|suggestions|] == suggestions;
    DedupeSpec(suggestions);
    items := Items(Table(keys, entries));
  }

  /** `suggest_moves`: the board is probed cell by cell and restored; the
      answer is `Advise` on the board as it was. */
  method SuggestMoves(g: array2<int>, current: Player, gameOver: bool, maxSuggestions: int,
                      checkWin: (Board, int, int) -> bool) returns (a: Advice)
    requires g.Length0 == g.Length1
    modifies g
    ensures Snapshot(g) == old(Snapshot(g))
    ensures a == Advise(old(Snapshot(g)), current, gameOver, maxSuggestions, checkWin)
  {
    ghost var b := Snapshot(g);
    if gameOver {
      return Finished;
    }
    var wins := FindWinningMoves(g, current, checkWin);
    if wins != [] {
      return Win(wins[0]);
    }
    var opponent := if current == Black then White else Black;
    var blocking := FindBlockingMoves(g, opponent, checkWin);
    var attacking := FindAttackingMoves(g, current);
    var centre := FindCenterMoves(g);
    CenterMovesAreScan(b, centre);
    var suggestions := Tag(Take(blocking, 3), Defend, 10) + Tag(Take(attacking, 3), Attack, 8)
      + Tag(Take(centre, 2), Centre, 5);
    if suggestions == [] {
      suggestions := Fallback(g.Length0);
    }
    var items := MergeSuggestions(suggestions);
    a := Suggest(Take(SortDesc(items), maxSuggestions));
  }

  /** The ranking lists at most `maxSuggestions` entries when that is not
      negative, in non-increasing priority, each cell once, each entry being
      the first of its cell's suggestions with the cell's highest priority. */
  lemma RankSpec(s: seq<Suggestion>, maxSuggestions: int)
    ensures maxSuggestions >= 0 ==> |Rank(s, maxSuggestions)| <= maxSuggestions
    ensures NonIncreasing(Rank(s, maxSuggestions))
    ensures forall i, j :: 0 <= i < j < |Rank(s, maxSuggestions)| ==>
      Rank(s, maxSuggestions)[i].0.0 != Rank(s, maxSuggestions)[j].0.0
    ensures forall e :: e in Rank(s, maxSuggestions) ==> FirstBest(s, e.0.0, e.0.1, e.1)
  {
    DedupeSpec(s);
    var t := Dedupe(s);
    var items := Items(t);
    ItemsSpec(t);
    SortDescSorted(items);
    var sorted := SortDesc(items);
    PermDistinct(sorted, items);
    var r := Take(sorted, maxSuggestions);
    TakeSorted(sorted, maxSuggestions);
    forall e | e in r ensures e in items {
      assert e in sorted;
      assert e in multiset(sorted);
    }
    forall i, j | 0 <= i < j < |r| ensures r[i].0.0 != r[j].0.0 {
      assert r[i] == sorted[i] && r[j] == sorted[j];
      assert r[i] in items && r[j] in items;
    }
  }

  /** A winning answer names the first empty cell, in row-major order, where
      the player to move wins; and unless the game is over, the answer is a win
      whenever such a cell exists. */
  lemma AdviseWin(b: Board, current: Player, gameOver: bool, maxSuggestions: int,
                  checkWin: (Board, int, int) -> bool)
    requires IsSquare(b)
    ensures Advise(b, current, gameOver, maxSuggestions, checkWin).Win? ==>
      var m := Advise(b, current, gameOver, maxSuggestions, checkWin).move;
      IsFree(b, m) && checkWin(Place(b, m.0, m.1, current), m.0, m.1) &&
      forall m' :: IsFree(b, m') && checkWin(Place(b, m'.0, m'.1, current), m'.0, m'.1) ==> m == m' || Before(m, m')
    ensures !gameOver && (exists m: Move :: IsFree(b, m) && checkWin(Place(b, m.0, m.1, current), m.0, m.1)) ==>
      Advise(b, current, gameOver, maxSuggestions, checkWin).Win?
  {
    var wins := Scan(b, WinsBy(current, checkWin));
    ScanSpec(b, WinsBy(current, checkWin));
    if !gameOver && exists m: Move :: IsFree(b, m) && checkWin(Place(b, m.0, m.1, current), m.0, m.1) {
      var m: Move :| IsFree(b, m) && checkWin(Place(b, m.0, m.1, current), m.0, m.1);
      assert Passes(b, WinsBy(current, checkWin), m);
      assert m in wins;
    }
    if !gameOver && wins != [] {
      assert wins[0] in wins;
      forall m' | IsFree(b, m') && checkWin(Place(b, m'.0, m'.1, current), m'.0, m'.1)
        ensures wins[0] == m' || Before(wins[0], m')
      {
        assert m' in wins;
        var k :| 0 <= k < |wins| && wins[k] == m';
      }
    }
  }

  /** Unless the fixed fallback was used, every suggested cell is empty. */
  lemma SuggestedFree(b: Board, current: Player, maxSuggestions: int, checkWin: (Board, int, int) -> bool)
    requires IsSquare(b)
    ensures Tagged(b, current, checkWin) != [] ==>
      forall e :: e in Rank(Gathered(b, current, checkWin), maxSuggestions) ==> IsFree(b, e.0.0)
  {
    var s := Gathered(b, current, checkWin);
    if Tagged(b, current, checkWin) != [] {
      RankSpec(s, maxSuggestions);
      TaggedFree(b, current, checkWin);
      DedupeSpec(s);
      forall e | e in Rank(s, maxSuggestions) ensures IsFree(b, e.0.0) {
        var i :| 0 <= i < |s| && s[i] == (e.0.0, e.0.1, e.1) &&
          (forall j :: 0 <= j < |s| && s[j].0 == e.0.0 ==> s[j].2 <= e.1);
        assert s[i] in s;
      }
    }
  }

  /** With no empty cell in the centre scan, every on-board cell of the centre
      box is occupied. */
  lemma CentreFull(b: Board, m: Move)
    requires IsSquare(b) && Scan(b, Both(Free, CentreBox)) == []
    requires OnBoard(b, m) && InCentreBox(|b|, m.0, m.1)
    ensures !IsFree(b, m)
  {
    ScanSpec(b, Both(Free, CentreBox));
    assert !Passes(b, Both(Free, CentreBox), m);
    assert Passes(b, CentreBox, m);
  }

  /** The fixed fallback is only reached when the centre box has no empty
      cell, and its three cells lie in that box: on a board at least three wide
      every one of them is occupied. */
  lemma FallbackOccupied(b: Board, current: Player, checkWin: (Board, int, int) -> bool)
    requires IsSquare(b) && |b| >= 3 && Tagged(b, current, checkWin) == []
    ensures forall x :: x in Fallback(|b|) ==> OnBoard(b, x.0) && !IsFree(b, x.0)
  {
    var centre := Scan(b, Both(Free, CentreBox));
    assert |Tag(Take(centre, 2), Centre, 5)| == 0;
    var c := |b| / 2;
    CentreFull(b, (c, c));
    CentreFull(b, (c + 1, c));
    CentreFull(b, (c, c + 1));
  }

  /** Every tagged cell is empty. */
  lemma TaggedFree(b: Board, current: Player, checkWin: (Board, int, int) -> bool)
    requires IsSquare(b)
    ensures forall x :: x in Tagged(b, current, checkWin) ==> IsFree(b, x.0)
  {
    ScanSpec(b, WinsBy(Opponent(current), checkWin));
    ScanSpec(b, MakesPattern(current, 3));
    ScanSpec(b, Both(Free, CentreBox));
    var d := Take(Scan(b, WinsBy(Opponent(current), checkWin)), 3);
    var a := Take(Scan(b, MakesPattern(current, 3)), 3);
    var c := Take(Scan(b, Both(Free, CentreBox)), 2);
    forall x | x in Tagged(b, current, checkWin) ensures IsFree(b, x.0) {
      if x in Tag(d, Defend, 10) {
        var i :| 0 <= i < |d| && Tag(d, Defend, 10)[i] == x;
        assert d[i] in Scan(b, WinsBy(Opponent(current), checkWin));
      } else if x in Tag(a, Attack, 8) {
        var i :| 0 <= i < |a| && Tag(a, Attack, 8)[i] == x;
        assert a[i] in Scan(b, MakesPattern(current, 3));
      } else {
        assert x in Tag(c, Centre, 5);
        var i :| 0 <= i < |c| && Tag(c, Centre, 5)[i] == x;
        assert c[i] in Scan(b, Both(Free, CentreBox));
        assert Passes(b, Free, c[i]);
      }
    }
  }
}
