/**
 * A worked example: three users and three movies. User 1 rated movie 1 as 5
 * and movie 2 as 1; user 2 rated movies 1, 2 and 3 as 4, 1 and 5; user 3
 * rated movies 2 and 3 as 5 and 4. User 1's only candidate is movie 3, and
 * its score draws on users 2 and 3 alone.
 */
module Scenario {
  import opened Wrappers
  import opened Seqs
  import opened Catalog
  import opened RatingStore
  import opened Similarity
  import opened Predictor
  import opened Recommender

  const ScenarioRatings: seq<Rating> := [
    Rating(1, 1, 5.0), Rating(1, 2, 1.0),
    Rating(2, 1, 4.0), Rating(2, 2, 1.0), Rating(2, 3, 5.0),
    Rating(3, 2, 5.0), Rating(3, 3, 4.0)]

  lemma ScenarioNoDuplicates()
    ensures NoDuplicatePairs(ScenarioRatings)
  {
    var rs := ScenarioRatings;
    forall i, j | 0 <= i < j < |rs| ensures !SamePair(rs[i], rs[j]) {
      assert i == 0 || i == 1 || i == 2 || i == 3 || i == 4 || i == 5;
    }
  }

  lemma ScenarioUserIds()
    ensures SortedDistinct(UserIds(ScenarioRatings)) == [1, 2, 3]
  {
    assert UserIds(ScenarioRatings) == [1, 1, 2, 2, 2, 3, 3];
    assert SortedDistinct([3]) == [3];
    assert SortedDistinct([3, 3]) == [3];
    assert SortedDistinct([2, 3, 3]) == [2, 3];
    assert SortedDistinct([2, 2, 3, 3]) == [2, 3];
    assert SortedDistinct([2, 2, 2, 3, 3]) == [2, 3];
    assert SortedDistinct([1, 2, 2, 2, 3, 3]) == [1, 2, 3];
    assert SortedDistinct([1, 1, 2, 2, 2, 3, 3]) == [1, 2, 3];
  }

  lemma ScenarioMovieIds()
    ensures SortedDistinct(MovieIds(ScenarioRatings)) == [1, 2, 3]
  {
    assert MovieIds(ScenarioRatings) == [1, 2, 1, 2, 3, 2, 3];
    assert SortedDistinct([3]) == [3];
    assert SortedDistinct([2, 3]) == [2, 3];
    assert SortedDistinct([3, 2, 3]) == [2, 3];
    assert SortedDistinct([2, 3, 2, 3]) == [2, 3];
    assert SortedDistinct([1, 2, 3, 2, 3]) == [1, 2, 3];
    assert SortedDistinct([2, 1, 2, 3, 2, 3]) == [1, 2, 3];
    assert SortedDistinct([1, 2, 1, 2, 3, 2, 3]) == [1, 2, 3];
  }

  lemma ScenarioPivot()
    ensures Pivot(ScenarioRatings).Ok?
    ensures Pivot(ScenarioRatings).value.users == [1, 2, 3]
    ensures Pivot(ScenarioRatings).value.movies == [1, 2, 3]
  {
    ScenarioNoDuplicates();
    ScenarioUserIds();
    ScenarioMovieIds();
  }

  lemma Dot3(w: seq<real>, x: seq<real>)
    requires |w| == 3 && |x| == 3
    ensures Dot(w, x) == w[0] * x[0] + w[1] * x[1] + w[2] * x[2]
  {
    assert Dot(w[2..], x[2..]) == w[2] * x[2] + Dot(w[3..], x[3..]);
    assert Dot(w[1..], x[1..]) == w[1] * x[1] + Dot(w[2..], x[2..]);
  }

  lemma ScenarioUserOneMovieThree()
    ensures Pivot(ScenarioRatings).Ok? && |Pivot(ScenarioRatings).value.cells| == 3
    ensures |Pivot(ScenarioRatings).value.cells[0]| == 3
    ensures Pivot(ScenarioRatings).value.cells[0][2] == 0.0
  {
    ScenarioPivot();
    var rs := ScenarioRatings;
    forall q | q in rs ensures !(q.userId == 1 && q.movieId == 3) {
    }
    PivotUnobserved(rs, 0, 2);
  }

  lemma ScenarioRatersOfMovieThree()
    ensures Pivot(ScenarioRatings).Ok? && |Pivot(ScenarioRatings).value.cells| == 3
    ensures |Pivot(ScenarioRatings).value.cells[1]| == 3 && |Pivot(ScenarioRatings).value.cells[2]| == 3
    ensures Pivot(ScenarioRatings).value.cells[1][2] == 5.0
    ensures Pivot(ScenarioRatings).value.cells[2][2] == 4.0
  {
    ScenarioPivot();
    PivotObserved(ScenarioRatings, 4, 1, 2);
    PivotObserved(ScenarioRatings, 6, 2, 2);
  }

  /** The column of movie 3: user 1 did not rate it, users 2 and 3 rated it 5 and 4. */
  lemma ScenarioMovieThreeColumn()
    ensures Pivot(ScenarioRatings).Ok?
    ensures WellFormed(Pivot(ScenarioRatings).value) && |Pivot(ScenarioRatings).value.movies| == 3
    ensures Column(Pivot(ScenarioRatings).value, 2) == [0.0, 5.0, 4.0]
  {
    ScenarioPivot();
    ScenarioUserOneMovieThree();
    ScenarioRatersOfMovieThree();
  }

  /** Users 2 and 3's ratings of movie 3 (5 and 4), weighted by their similarity to the target. */
  function MovieThreeScore(w: seq<real>): real
    requires |w| == 3 && NonNegative(w)
  {
    (w[1] * 5.0 + w[2] * 4.0) / (w[1] + w[2] + Epsilon)
  }

  lemma ScenarioScore(w: seq<real>)
    requires |w| == 3 && NonNegative(w)
    ensures Score(w, [0.0, 5.0, 4.0]) == MovieThreeScore(w)
  {
    var col := [0.0, 5.0, 4.0];
    assert Indicator(col) == [0.0, 1.0, 1.0];
    Dot3(w, col);
    Dot3(w, Indicator(col));
  }

  lemma ScenarioSeen()
    ensures SeenMovies(ScenarioRatings, 1) == [1, 2]
  {
    var rs := ScenarioRatings;
    assert SeenMovies(rs[2..], 1) == [] by {
      assert SeenMovies(rs[6..], 1) == [];
      assert SeenMovies(rs[5..], 1) == [];
      assert SeenMovies(rs[4..], 1) == [];
      assert SeenMovies(rs[3..], 1) == [];
    }
    assert SeenMovies(rs[1..], 1) == [2];
  }

  lemma ScenarioLoad(records: seq<MovieRecord>, sim: seq<seq<real>>)
    requires NonNegativeEntries(sim)
    requires |sim| == 3 && forall i :: 0 <= i < 3 ==> |sim[i]| == 3
    ensures Load(ScenarioRatings, records, sim).Ok?
    ensures var ctx := Load(ScenarioRatings, records, sim).value;
      && Valid(ctx) && ctx.ratings == ScenarioRatings && ctx.sim.values == sim
      && WellFormed(ctx.matrix) && ctx.matrix.users == [1, 2, 3] && ctx.matrix.movies == [1, 2, 3]
      && Column(ctx.matrix, 2) == [0.0, 5.0, 4.0]
  {
    ScenarioPivot();
    ScenarioMovieThreeColumn();
  }

  /** The prediction step on any matrix shaped like the example's. */
  lemma ScenarioPredictions(m: Matrix, w: seq<real>)
    requires WellFormed(m) && m.users == [1, 2, 3] && m.movies == [1, 2, 3]
    requires Column(m, 2) == [0.0, 5.0, 4.0]
    requires |w| == 3 && NonNegative(w)
    ensures DropSeen(Predictions(w, m), [1, 2]) == [Prediction(3, MovieThreeScore(w))]
  {
    ScenarioScore(w);
    var preds := Predictions(w, m);
    assert preds[0].movieId == 1 && preds[1].movieId == 2;
    assert preds[2] == Prediction(3, Score(w, Column(m, 2)));
    DropTwoSeen(preds, [1, 2]);
  }

  lemma DropTwoSeen(preds: seq<Prediction>, seen: seq<int>)
    requires |preds| == 3 && preds[0].movieId in seen && preds[1].movieId in seen && preds[2].movieId !in seen
    ensures DropSeen(preds, seen) == [preds[2]]
  {
    var r := DropSeen(preds, seen);
    assert preds == [preds[0], preds[1], preds[2]];
    assert multiset(preds) == multiset{preds[0], preds[1], preds[2]};
    assert multiset(r) == multiset{preds[2]} by {
      forall p ensures multiset(r)[p] == multiset{preds[2]}[p] {
        if p == preds[2] {
          assert preds[2] != preds[0] && preds[2] != preds[1];
        }
      }
    }
    assert |r| == 1;
    assert r[0] in multiset(r);
  }

  /**
   * User 1's candidate set holds movie 3 alone, scored from users 2 and 3:
   * movies 1 and 2, which user 1 rated, never appear, and user 1's own
   * similarity weight plays no part.
   */
  lemma ScenarioCandidates(records: seq<MovieRecord>, sim: seq<seq<real>>)
    requires NonNegativeEntries(sim)
    requires |sim| == 3 && forall i :: 0 <= i < 3 ==> |sim[i]| == 3
    ensures Load(ScenarioRatings, records, sim).Ok?
    ensures var ctx := Load(ScenarioRatings, records, sim).value;
      1 in ctx.matrix.users &&
      Unseen(ctx, 1) == [Prediction(3, MovieThreeScore(sim[0]))]
  {
    ScenarioLoad(records, sim);
    ScenarioSeen();
    var ctx := Load(ScenarioRatings, records, sim).value;
    var w := UserWeights(ctx, 1);
    assert ctx.matrix.users[0] == 1;
    assert w == sim[0];
    ScenarioPredictions(ctx.matrix, w);
    assert SeenMovies(ctx.ratings, 1) == [1, 2];
    assert Unseen(ctx, 1) == DropSeen(Predictions(w, ctx.matrix), [1, 2]);
  }
}
