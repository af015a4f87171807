/** The hot-spot analysis of the evaluation tools (tools/evaluation.py,
    `_analyze_hot_spots`): how many played stones lie in the 3 x 3
    neighbourhood of each empty cell, busiest cells first. */
module HotSpots {
  import opened Grid
  import opened Scans
  import opened Ranking

  /** m lies in the 3 x 3 square centred on h. */
  predicate Near(h: Move, m: Move)
  {
    Abs(h.0 - m.0) <= 1 && Abs(h.1 - m.1) <= 1
  }

  /** The heat of cell m: the number of moves of `history` near it. */
  function Heat(history: seq<Move>, m: Move): (n: nat)
    ensures n <= |history|
    decreases |history|
  {
    if history == [] then 0
    else Heat(history[..|history| - 1], m) + (if Near(history[|history| - 1], m) then 1 else 0)
  }

  /** A cell is hot exactly when some move of the history is next to it or
      on it. */
  lemma {:induction false} HeatPositive(history: seq<Move>, m: Move)
    ensures Heat(history, m) > 0 <==> exists k :: 0 <= k < |history| && Near(history[k], m)
    decreases |history|
  {
    if history != [] {
      var p := history[..|history| - 1];
      HeatPositive(p, m);
      if exists k :: 0 <= k < |p| && Near(p[k], m) {
        var k :| 0 <= k < |p| && Near(p[k], m);
        assert history[k] == p[k];
      }
      if exists k :: 0 <= k < |history| && Near(history[k], m) {
        var k :| 0 <= k < |history| && Near(history[k], m);
        if k < |p| {
          assert p[k] == history[k];
        }
      }
    }
  }

  /** m is near h at one of the offsets (dr', dc') the scan around h has
      passed when it reaches offset (dr, dc). */
  predicate Touched(h: Move, m: Move, dr: int, dc: int)
  {
    Near(h, m) && (m.0 - h.0 < dr || (m.0 - h.0 == dr && m.1 - h.1 < dc))
  }

  /** m's count once `done` is tallied and h is tallied up to offset (dr, dc). */
  function Partial(done: seq<Move>, h: Move, dr: int, dc: int, m: Move): int
  {
    Heat(done, m) + (if Touched(h, m, dr, dc) then 1 else 0)
  }

  /** The counter of the first loop: each touched cell once in `keys` (the
      dictionary's insertion order), and `counts` holding its partial count. */
  ghost predicate Tallied(n: int, keys: seq<Move>, counts: map<Move, int>,
                          done: seq<Move>, h: Move, dr: int, dc: int)
  {
    (forall i, j :: 0 <= i < j < |keys| ==> keys[i] != keys[j]) &&
    (forall m :: m in counts <==> m in keys) &&
    (forall m :: m in counts <==> InBounds(n, m.0, m.1) && Partial(done, h, dr, dc, m) > 0) &&
    (forall m :: m in counts ==> counts[m] == Partial(done, h, dr, dc, m))
  }

  /** The neighbourhood scan counts its centre cell's offsets in order. */
  lemma TouchedStep(h: Move, dr: int, dc: int, m: Move)
    requires -1 <= dr <= 1 && -1 <= dc <= 1
    ensures Touched(h, m, dr, dc + 1) == (Touched(h, m, dr, dc) || m == (h.0 + dr, h.1 + dc))
    ensures Touched(h, m, dr, 2) == Touched(h, m, dr + 1, -1)
    ensures !Touched(h, m, -1, -1) && (Touched(h, m, 2, -1) == Near(h, m))
  {
  }

  lemma HeatSnoc(history: seq<Move>, k: int, m: Move)
    requires 0 <= k < |history|
    ensures Heat(history[..k + 1], m) == Heat(history[..k], m) + (if Near(history[k], m) then 1 else 0)
  {
    assert history[..k + 1][..k] == history[..k];
  }

  /** `spots` lists each empty cell of `b` with positive heat exactly once,
      paired with its heat. */
  ghost predicate HotSpotsOf(b: Board, history: seq<Move>, spots: seq<(Move, int)>)
    requires IsSquare(b)
  {
    DistinctItems(spots) &&
    (forall e :: e in spots ==> IsFree(b, e.0) && e.1 == Heat(history, e.0)) &&
    (forall m :: m in ItemsOf(spots) <==> IsFree(b, m) && Heat(history, m) > 0)
  }

  /** Ranking the hot spots keeps them hot spots and orders them. */
  lemma RankHotSpots(b: Board, history: seq<Move>, spots: seq<(Move, int)>)
    requires IsSquare(b) && HotSpotsOf(b, history, spots)
    ensures HotSpotsOf(b, history, SortDesc(spots)) && NonIncreasing(SortDesc(spots))
  {
    SortDescSorted(spots);
    SortDescItems(spots);
    SortDescMembers(spots);
  }

  /** `_analyze_hot_spots`: every empty cell near at least one move of the
      history, once, with its heat, busiest first; the grid is only read. */
  method AnalyzeHotSpots(g: array2<int>, history: seq<Move>) returns (spots: seq<(Move, int)>)
    requires g.Length0 == g.Length1
    ensures NonIncreasing(spots)
    ensures HotSpotsOf(Snapshot(g), history, spots)
  {
    var keys, counts := CountNeighbourhoods(g.Length0, history);
    var free := FreeSpots(g, keys, counts);
    RankHotSpots(Snapshot(g), history, free);
    spots := SortDesc(free);
  }

  /** The first loop of `_analyze_hot_spots`: the on-board cells of each
      move's 3 x 3 neighbourhood, counted into a dictionary (its keys in
      insertion order and its values). */
  method CountNeighbourhoods(n: int, history: seq<Move>) returns (keys: seq<Move>, counts: map<Move, int>)
    ensures (forall i, j :: 0 <= i < j < |keys| ==> keys[i] != keys[j])
    ensures forall m :: m in counts <==> m in keys
    ensures forall m :: m in counts <==> InBounds(n, m.0, m.1) && Heat(history, m) > 0
    ensures forall m :: m in counts ==> counts[m] == Heat(history, m)
  {
    keys, counts := [], map[];
    for k := 0 to |history|
      invariant Tallied(n, keys, counts, history[..k], (0, 0), -1, -1)
    {
      var h := history[k];
      keys, counts := CountAround(n, h, history[..k], keys, counts);
      forall m ensures Partial(history[..k], h, 2, -1, m) == Partial(history[..k + 1], (0, 0), -1, -1, m) {
        TouchedStep(h, 0, 0, m);
        TouchedStep((0, 0), 0, 0, m);
        HeatSnoc(history, k, m);
      }
    }
    assert history[..|history|] == history;
    forall m ensures Partial(history, (0, 0), -1, -1, m) == Heat(history, m) {
      TouchedStep((0, 0), 0, 0, m);
    }
  }

  /** The 3 x 3 scan around one move h. */
  method CountAround(n: int, h: Move, ghost done: seq<Move>, keys: seq<Move>, counts: map<Move, int>)
    returns (keys': seq<Move>, counts': map<Move, int>)
    requires Tallied(n, keys, counts, done, (0, 0), -1, -1)
    ensures Tallied(n, keys', counts', done, h, 2, -1)
  {
    keys', counts' := keys, counts;
    forall m ensures Partial(done, (0, 0), -1, -1, m) == Partial(done, h, -1, -1, m) {
      TouchedStep((0, 0), 0, 0, m);
      TouchedStep(h, 0, 0, m);
    }
    for dr := -1 to 2
      invariant Tallied(n, keys', counts', done, h, dr, -1)
    {
      for dc := -1 to 2
        invariant Tallied(n, keys', counts', done, h, dr, dc)
      {
        keys', counts' := Touch(n, h, done, dr, dc, keys', counts');
      }
      forall m ensures Partial(done, h, dr, 2, m) == Partial(done, h, dr + 1, -1, m) {
        TouchedStep(h, dr, 0, m);
      }
    }
  }

  /** One `hot_spot_count[(nr, nc)] += 1`, for an on-board neighbour. */
  method Touch(n: int, h: Move, ghost done: seq<Move>, dr: int, dc: int, keys: seq<Move>, counts: map<Move, int>)
    returns (keys': seq<Move>, counts': map<Move, int>)
    requires -1 <= dr <= 1 && -1 <= dc <= 1
    requires Tallied(n, keys, counts, done, h, dr, dc)
    ensures Tallied(n, keys', counts', done, h, dr, dc + 1)
  {
    var nr, nc := h.0 + dr, h.1 + dc;
    forall m ensures Partial(done, h, dr, dc + 1, m) == Partial(done, h, dr, dc, m) + (if m == (nr, nc) then 1 else 0) {
      TouchedStep(h, dr, dc, m);
    }
    if 0 <= nr < n && 0 <= nc < n {
      if (nr, nc) !in counts {
        keys' := keys + [(nr, nc)];
        counts' := counts[(nr, nc) := 1];
      } else {
        keys' := keys;
        counts' := counts[(nr, nc) := counts[(nr, nc)] + 1];
      }
    } else {
      keys', counts' := keys, counts;
    }
  }

  /** The second loop of `_analyze_hot_spots`: the counted cells that are
      empty, with their counts, in the dictionary's order. */
  method FreeSpots(g: array2<int>, keys: seq<Move>, counts: map<Move, int>) returns (spots: seq<(Move, int)>)
    requires g.Length0 == g.Length1
    requires forall i, j :: 0 <= i < j < |keys| ==> keys[i] != keys[j]
    requires forall m :: m in counts <==> m in keys
    requires forall m :: m in counts ==> InBounds(g.Length0, m.0, m.1)
    ensures DistinctItems(spots)
    ensures forall e :: e in spots ==> IsFree(Snapshot(g), e.0) && e.0 in counts && e.1 == counts[e.0]
    ensures forall m :: m in ItemsOf(spots) <==> m in counts && IsFree(Snapshot(g), m)
  {
    ghost var b := Snapshot(g);
    spots := [];
    for k := 0 to |keys|
      invariant DistinctItems(spots)
      invariant forall i :: 0 <= i < |spots| ==>
        IsFree(b, spots[i].0) && spots[i].0 in counts && spots[i].1 == counts[spots[i].0]
      invariant forall m :: m in ItemsOf(spots) <==> m in keys[..k] && IsFree(b, m)
    {
      var pos := keys[k];
      assert pos in counts;
      if g[pos.0, pos.1] == Empty {
        assert pos !in keys[..k];
        assert ItemsOf(spots + [(pos, counts[pos])]) == ItemsOf(spots) + [pos];
        spots := spots + [(pos, counts[pos])];
      }
      assert keys[..k + 1] == keys[..k] + [pos];
    }
    assert keys[..|keys|] == keys;
  }
}
