/**
 * The score of one movie column (movie.py:81-84): the similarity-weighted sum
 * of the ratings, divided by the summed similarity of the users who rated the
 * movie, plus a small epsilon.
 */
module Predictor {
  /** The `1e-9` added to every denominator, as an exact real. */
  const Epsilon: real := 1.0 / 1000000000.0

  predicate NonNegative(w: seq<real>)
  {
    forall v :: 0 <= v < |w| ==> w[v] >= 0.0
  }

  // ---------- Weighted sums ----------

  /** The dot product of a weight vector with a column, as `values.T.dot(sim_scores)` forms it. */
  function Dot(w: seq<real>, x: seq<real>): real
    requires |w| == |x|
  {
    if w == [] then 0.0 else w[0] * x[0] + Dot(w[1..], x[1..])
  }

  /** `values.T != 0`, with True read as 1 by the dot product. */
  function Indicator(x: seq<real>): (r: seq<real>)
    ensures |r| == |x|
  {
    seq(|x|, v requires 0 <= v < |x| => if x[v] != 0.0 then 1.0 else 0.0)
  }

  lemma {:induction false} DotNonNegative(w: seq<real>, x: seq<real>)
    requires |w| == |x| && NonNegative(w) && NonNegative(x)
    ensures Dot(w, x) >= 0.0
    decreases |w|
  {
    if w != [] {
      DotNonNegative(w[1..], x[1..]);
      assert w[0] * x[0] >= 0.0;
    }
  }

  lemma IndicatorTail(x: seq<real>)
    requires x != []
    ensures Indicator(x)[1..] == Indicator(x[1..])
    ensures Indicator(x)[0] == if x[0] != 0.0 then 1.0 else 0.0
  {
  }

  /** Only users who rated the movie enter either sum. */
  lemma {:induction false} DotIgnoresZeroEntries(w: seq<real>, w': seq<real>, x: seq<real>)
    requires |w| == |x| && |w'| == |x|
    requires forall v :: 0 <= v < |x| && x[v] != 0.0 ==> w[v] == w'[v]
    ensures Dot(w, x) == Dot(w', x)
    ensures Dot(w, Indicator(x)) == Dot(w', Indicator(x))
    decreases |x|
  {
    if x != [] {
      IndicatorTail(x);
      DotIgnoresZeroEntries(w[1..], w'[1..], x[1..]);
    }
  }

  /** A column with no rating sums to zero. */
  lemma {:induction false} DotOfZeroColumn(w: seq<real>, x: seq<real>)
    requires |w| == |x|
    requires forall v :: 0 <= v < |x| ==> x[v] == 0.0
    ensures Dot(w, x) == 0.0
    decreases |x|
  {
    if x != [] {
      DotOfZeroColumn(w[1..], x[1..]);
    }
  }

  /** With ratings in [0, hi], the weighted ratings are at most hi times the weights of the raters. */
  lemma {:induction false} DotBoundedByRaters(w: seq<real>, x: seq<real>, hi: real)
    requires |w| == |x| && NonNegative(w)
    requires forall v :: 0 <= v < |x| ==> 0.0 <= x[v] <= hi
    ensures Dot(w, x) <= hi * Dot(w, Indicator(x))
    decreases |x|
  {
    if x != [] {
      IndicatorTail(x);
      DotBoundedByRaters(w[1..], x[1..], hi);
      var ind := Indicator(x);
      var restX, restInd := Dot(w[1..], x[1..]), Dot(w[1..], ind[1..]);
      assert restX <= hi * restInd;
      RaterTermBound(w[0], x[0], hi);
      assert w[0] * x[0] <= hi * (w[0] * ind[0]);
      SumBound(w[0] * x[0], restX, w[0] * ind[0], restInd, hi);
      assert Dot(w, x) == w[0] * x[0] + restX;
      assert Dot(w, ind) == w[0] * ind[0] + restInd;
    }
  }

  lemma RaterTermBound(a: real, b: real, hi: real)
    requires 0.0 <= a && 0.0 <= b <= hi
    ensures a * b <= hi * (a * (if b != 0.0 then 1.0 else 0.0))
  {
    if b != 0.0 {
      assert a * b <= a * hi;
    }
  }

  lemma SumBound(p: real, q: real, pw: real, qw: real, hi: real)
    requires p <= hi * pw && q <= hi * qw
    ensures p + q <= hi * (pw + qw)
  {
  }

  // ---------- Scores ----------

  /** movie.py:81-84: numerator over (denominator + 1e-9) for one column. */
  function Score(w: seq<real>, col: seq<real>): real
    requires |w| == |col| && NonNegative(w)
  {
    DotNonNegative(w, Indicator(col));
    Dot(w, col) / (Dot(w, Indicator(col)) + Epsilon)
  }

  /** A movie nobody rated (a zero column) scores exactly 0. */
  lemma UnratedMovieScoresZero(w: seq<real>, col: seq<real>)
    requires |w| == |col| && NonNegative(w)
    requires forall v :: 0 <= v < |col| ==> col[v] == 0.0
    ensures Score(w, col) == 0.0
  {
    DotOfZeroColumn(w, col);
    DotNonNegative(w, Indicator(col));
  }

  /** Changing the weight of a user who did not rate the movie leaves its score unchanged. */
  lemma ScoreIgnoresNonRaters(w: seq<real>, w': seq<real>, col: seq<real>)
    requires |w| == |col| && |w'| == |col| && NonNegative(w) && NonNegative(w')
    requires forall v :: 0 <= v < |col| && col[v] != 0.0 ==> w[v] == w'[v]
    ensures Score(w, col) == Score(w', col)
  {
    DotIgnoresZeroEntries(w, w', col);
  }

  /** With non-negative weights and ratings in [0, hi], every score lies in [0, hi]. */
  lemma ScoreWithinRatingScale(w: seq<real>, col: seq<real>, hi: real)
    requires |w| == |col| && NonNegative(w)
    requires 0.0 <= hi
    requires forall v :: 0 <= v < |col| ==> 0.0 <= col[v] <= hi
    ensures 0.0 <= Score(w, col) <= hi
  {
    var num, den := Dot(w, col), Dot(w, Indicator(col));
    DotNonNegative(w, col);
    DotNonNegative(w, Indicator(col));
    DotBoundedByRaters(w, col, hi);
    var d := den + Epsilon;
    assert num <= hi * d;
    QuotientBounds(num, d, hi);
  }

  lemma QuotientBounds(num: real, d: real, hi: real)
    requires 0.0 < d && 0.0 <= num <= hi * d
    ensures 0.0 <= num / d <= hi
  {
    assert num / d * d == num;
  }
}
