/** Search scores: the integers extended with the two infinities that the engine
    uses as the initial bounds of a search and as the value of a node with no
    move to try (ai_system.py uses `math.inf` for them). */
module Scores {

  datatype Score = NegInf | Fin(n: int) | PosInf

  predicate Le(x: Score, y: Score)
  {
    x.NegInf? || y.PosInf? || (x.Fin? && y.Fin? && x.n <= y.n)
  }

  predicate Lt(x: Score, y: Score)
  {
    !Le(y, x)
  }

  /** The larger of two scores (Python's `max`). */
  function Max(x: Score, y: Score): (m: Score)
    ensures Le(x, m) && Le(y, m) && (m == x || m == y)
  {
    if Le(x, y) then y else x
  }

  /** The smaller of two scores (Python's `min`). */
  function Min(x: Score, y: Score): (m: Score)
    ensures Le(m, x) && Le(m, y) && (m == x || m == y)
  {
    if Le(x, y) then x else y
  }

  /** `x` forced into the window [lo, hi]; with lo = -inf and hi = +inf it is `x`. */
  function Clamp(x: Score, lo: Score, hi: Score): Score
  {
    Max(lo, Min(hi, x))
  }

  lemma ClampFullWindow(x: Score)
    ensures Clamp(x, NegInf, PosInf) == x
  {
  }

  /** A finite bonus added to a score; the infinities absorb it as in floating point. */
  function AddBonus(x: Score, bonus: int): (r: Score)
    ensures r.Fin? <==> x.Fin?
    ensures x.Fin? ==> r.n == x.n + bonus
  {
    match x
    case Fin(v) => Fin(v + bonus)
    case _ => x
  }

  // ---------------------------------------------------------------------------
  // Order facts used by the alpha-beta argument

  lemma MaxAssoc(x: Score, y: Score, z: Score)
    ensures Max(Max(x, y), z) == Max(x, Max(y, z))
  {
  }

  lemma MinAssoc(x: Score, y: Score, z: Score)
    ensures Min(Min(x, y), z) == Min(x, Min(y, z))
  {
  }

  /** Below the window a value makes no difference once the result is clamped:
      replacing `x` by anything no larger than max(lo, best) keeps the clamp. */
  lemma ClampAbsorbLow(x: Score, best: Score, rest: Score, lo: Score, hi: Score)
    requires Le(x, Max(lo, best))
    ensures Clamp(Max(Max(best, x), rest), lo, hi) == Clamp(Max(best, rest), lo, hi)
  {
  }

  /** Symmetrically above the window. */
  lemma ClampAbsorbHigh(x: Score, best: Score, rest: Score, lo: Score, hi: Score)
    requires Le(Min(hi, best), x)
    ensures Clamp(Min(Min(best, x), rest), lo, hi) == Clamp(Min(best, rest), lo, hi)
  {
  }

  /** One step of a maximizing alpha-beta loop against the minimax fold: `v` is
      the child's alpha-beta value, `w` its minimax value, agreeing inside the
      window (alpha, beta) where alpha = max(alpha0, best); `rest` is the minimax
      value of the remaining children. On a cut-off the loop's answer already
      clamps right; otherwise the updated best value still does. */
  lemma MaxStep(best: Score, v: Score, w: Score, rest: Score, alpha0: Score, alpha: Score, beta: Score)
    requires alpha == Max(alpha0, best) && Lt(alpha, beta)
    requires Clamp(v, alpha, beta) == Clamp(w, alpha, beta)
    ensures Le(beta, Max(alpha, v)) ==>
      Clamp(Max(best, v), alpha0, beta) == Clamp(Max(best, Max(w, rest)), alpha0, beta)
    ensures !Le(beta, Max(alpha, v)) ==>
      Clamp(Max(Max(best, v), rest), alpha0, beta) == Clamp(Max(best, Max(w, rest)), alpha0, beta)
  {
    MaxAssoc(best, w, rest);
    MaxAssoc(best, v, rest);
    if !Le(beta, Max(alpha, v)) {
      if Le(v, alpha) {
        ClampAbsorbLow(v, best, rest, alpha0, beta);
        ClampAbsorbLow(w, best, rest, alpha0, beta);
      } else {
        assert w == v;
      }
    }
  }

  /** The same step for a minimizing loop, where beta = min(beta0, best). */
  lemma MinStep(best: Score, v: Score, w: Score, rest: Score, beta0: Score, alpha: Score, beta: Score)
    requires beta == Min(beta0, best) && Lt(alpha, beta)
    requires Clamp(v, alpha, beta) == Clamp(w, alpha, beta)
    ensures Le(Min(beta, v), alpha) ==>
      Clamp(Min(best, v), alpha, beta0) == Clamp(Min(best, Min(w, rest)), alpha, beta0)
    ensures !Le(Min(beta, v), alpha) ==>
      Clamp(Min(Min(best, v), rest), alpha, beta0) == Clamp(Min(best, Min(w, rest)), alpha, beta0)
  {
    MinAssoc(best, w, rest);
    MinAssoc(best, v, rest);
    if !Le(Min(beta, v), alpha) {
      if Le(beta, v) {
        ClampAbsorbHigh(v, best, rest, alpha, beta0);
        ClampAbsorbHigh(w, best, rest, alpha, beta0);
      } else {
        assert w == v;
      }
    }
  }
}
