/**
 * `recommend_user_based` (movie.py:79-93) over the state the load step builds
 * (movie.py:58-67): the raw ratings, the catalog with its `year` column, the
 * pivoted matrix and the similarity frame.
 */
module Recommender {
  import opened Wrappers
  import opened Seqs
  import opened Catalog
  import opened RatingStore
  import opened Similarity
  import opened Predictor

  /** The frames the load step leaves behind; they are never changed afterwards. */
  datatype Context = Context(ratings: seq<Rating>, catalog: seq<Movie>, matrix: Matrix, sim: SimFrame)

  /**
   * `pivot` rejects a repeated (userId, movieId) pair; `cosine_similarity`
   * rejects a matrix without rows; the similarity values must be square.
   */
  datatype LoadError = DuplicateRatings | NoRatings | SimilarityShape

  /** One entry of the `preds` Series: a movie column label and its score. */
  datatype Prediction = Prediction(movieId: int, score: real)

  /**
   * A row of the recommendation frame: a catalog row with the `score` column
   * written onto it, or a row that the score assignment adds to an empty
   * selection, whose catalog fields are all missing (NaN).
   */
  datatype ScoredMovie =
    | Listed(movieId: int, title: string, genres: string, year: Option<nat>, score: real)
    | Unlisted(score: real)

  /** `user_sim.loc` has no such label, or the score column does not fit the non-empty joined rows. */
  datatype RecommendError = UnknownUser | LengthMismatch(values: nat, rows: nat)

  function PredictionScore(p: Prediction): real { p.score }

  function RowScore(m: ScoredMovie): real { m.score }

  /** The catalog part of a scored row, absent for a row with missing catalog fields. */
  function CatalogPart(m: ScoredMovie): Option<Movie>
  {
    if m.Listed? then Some(Movie(m.movieId, m.title, m.genres, m.year)) else None
  }

  function Present(m: Movie): Option<Movie> { Some(m) }

  /**
   * What the load step guarantees: the matrix is the pivot of the ratings, the
   * similarity frame is square over the matrix's user index, and its weights
   * are non-negative (cosine similarity of non-negative rating vectors).
   */
  ghost predicate Valid(ctx: Context)
  {
    && Pivot(ctx.ratings) == Ok(ctx.matrix)
    && ctx.sim.index == ctx.matrix.users
    && Square(ctx.sim)
    && NonNegativeEntries(ctx.sim.values)
  }

  /** movie.py:58-67; `similarity` stands for what `cosine_similarity` returns for the pivoted matrix. */
  function Load(ratings: seq<Rating>, records: seq<MovieRecord>, similarity: seq<seq<real>>): (r: Result<Context, LoadError>)
    requires NonNegativeEntries(similarity)
    ensures r == Err(DuplicateRatings) <==> !NoDuplicatePairs(ratings)
    ensures r == Err(NoRatings) <==> ratings == []
    ensures r == Err(SimilarityShape) <==>
      NoDuplicatePairs(ratings) && ratings != [] && MakeFrame(Pivot(ratings).value, similarity).Err?
    ensures r.Ok? ==> Valid(r.value)
    ensures r.Ok? ==> r.value.ratings == ratings && r.value.catalog == WithYears(records)
    ensures r.Ok? ==> r.value.sim.values == similarity
  {
    match Pivot(ratings)
    case Err(_) => Err(DuplicateRatings)
    case Ok(m) =>
      if m.users == [] then
        assert ratings != [] ==> ratings[0].userId in m.users;
        Err(NoRatings)
      else
      assert m.users[0] in m.users;
      match MakeFrame(m, similarity)
      case Err(_) => Err(SimilarityShape)
      case Ok(f) => Ok(Context(ratings, WithYears(records), m, f))
  }

  // ---------- The steps of recommend_user_based ----------

  function Column(m: Matrix, j: nat): (col: seq<real>)
    requires WellFormed(m) && j < |m.movies|
    ensures |col| == |m.users|
    ensures forall v :: 0 <= v < |m.users| ==> col[v] == m.cells[v][j]
  {
    seq(|m.users|, v requires 0 <= v < |m.users| => m.cells[v][j])
  }

  /** movie.py:81-85: one prediction per matrix column, in column order. */
  function Predictions(w: seq<real>, m: Matrix): (preds: seq<Prediction>)
    requires WellFormed(m) && |w| == |m.users| && NonNegative(w)
    ensures |preds| == |m.movies|
    ensures forall j :: 0 <= j < |m.movies| ==> preds[j].movieId == m.movies[j]
  {
    seq(|m.movies|, j requires 0 <= j < |m.movies| => Prediction(m.movies[j], Score(w, Column(m, j))))
  }

  /** movie.py:88: `preds.drop(seen, errors="ignore")`; labels of `seen` that are not in `preds` are ignored. */
  function DropSeen(preds: seq<Prediction>, seen: seq<int>): (r: seq<Prediction>)
    ensures forall p :: p in r <==> p in preds && p.movieId !in seen
    ensures forall p :: multiset(r)[p] == if p.movieId in seen then 0 else multiset(preds)[p]
    ensures IsSubsequence(r, preds)
  {
    var r := Where(preds, (p: Prediction) => p.movieId !in seen);
    WhereIsSubsequence(preds, (p: Prediction) => p.movieId !in seen);
    assert forall p :: multiset(r)[p] == if p.movieId in seen then 0 else multiset(preds)[p] by {
      forall p ensures multiset(r)[p] == if p.movieId in seen then 0 else multiset(preds)[p] {
        WhereCount(preds, (p: Prediction) => p.movieId !in seen, p);
      }
    }
    r
  }

  /** The similarity row of a known user, with the facts `Valid` gives about it. */
  function UserWeights(ctx: Context, user: int): (w: seq<real>)
    requires Valid(ctx) && user in ctx.matrix.users
    ensures |w| == |ctx.matrix.users| && NonNegative(w)
    ensures forall i :: 0 <= i < |ctx.matrix.users| && ctx.matrix.users[i] == user ==> w == ctx.sim.values[i]
  {
    Row(ctx.sim, user).value
  }

  /** The candidate set: every matrix column the user has not rated, scored. */
  function Unseen(ctx: Context, user: int): (cands: seq<Prediction>)
    requires Valid(ctx) && user in ctx.matrix.users
  {
    DropSeen(Predictions(UserWeights(ctx, user), ctx.matrix), SeenMovies(ctx.ratings, user))
  }

  /** movie.py:90: `preds.sort_values(ascending=False).head(fetch_n)`. */
  function TopUnseen(ctx: Context, user: int, fetchN: int): (top: seq<Prediction>)
    requires Valid(ctx) && user in ctx.matrix.users
  {
    Head(SortDesc(Unseen(ctx, user), PredictionScore), fetchN)
  }

  function PredictionIds(ps: seq<Prediction>): (ids: seq<int>)
    ensures |ids| == |ps| && forall k :: 0 <= k < |ps| ==> ids[k] == ps[k].movieId
  {
    seq(|ps|, k requires 0 <= k < |ps| => ps[k].movieId)
  }

  /** movie.py:91: `movies[movies["movieId"].isin(top_movies)]`, in catalog order. */
  function SelectRows(catalog: seq<Movie>, ids: seq<int>): (rows: seq<Movie>)
    ensures forall m :: multiset(rows)[m] == if m.movieId in ids then multiset(catalog)[m] else 0
    ensures forall m :: m in rows <==> m in catalog && m.movieId in ids
    ensures IsSubsequence(rows, catalog)
  {
    WhereIsSubsequence(catalog, (m: Movie) => m.movieId in ids);
    var rows := Where(catalog, (m: Movie) => m.movieId in ids);
    assert forall m :: multiset(rows)[m] == if m.movieId in ids then multiset(catalog)[m] else 0 by {
      forall m ensures multiset(rows)[m] == if m.movieId in ids then multiset(catalog)[m] else 0 {
        WhereCount(catalog, (m: Movie) => m.movieId in ids, m);
      }
    }
    rows
  }

  /**
   * movie.py:92: `result["score"] = preds[top_movies].values` pastes the scores
   * onto the rows by position: row k receives the k-th score. On a selection
   * without rows pandas first grows the frame to one row per score, with
   * every catalog field missing.
   */
  function AttachScores(rows: seq<Movie>, scores: seq<real>): (r: seq<ScoredMovie>)
    requires rows == [] || |rows| == |scores|
    ensures |r| == |scores|
    ensures Keys(r, RowScore) == scores
    ensures rows != [] ==> Keys(r, CatalogPart) == Keys(rows, Present)
    ensures rows == [] ==> forall k :: 0 <= k < |r| ==> r[k].Unlisted?
  {
    if rows == [] then
      seq(|scores|, k requires 0 <= k < |scores| => Unlisted(scores[k]))
    else
      var r := seq(|rows|, k requires 0 <= k < |rows| =>
        Listed(rows[k].movieId, rows[k].title, rows[k].genres, rows[k].year, scores[k]));
      assert Keys(r, CatalogPart) == Keys(rows, Present);
      r
  }

  /**
   * movie.py:79-93, `recommend_user_based(user, fetch_n)`. The scores the rows
   * carry are, as a multiset, exactly the best `fetch_n` unseen predictions,
   * and the rows come back in non-increasing score order. When the catalog
   * has rows with the selected ids, the rows are, up to order, exactly those
   * catalog rows; when it has none, every row has missing catalog fields.
   */
  function Recommend(ctx: Context, user: int, fetchN: int): (r: Result<seq<ScoredMovie>, RecommendError>)
    requires Valid(ctx)
    ensures r == Err(UnknownUser) <==> user !in ctx.matrix.users
    ensures user in ctx.matrix.users ==>
      var top := TopUnseen(ctx, user, fetchN);
      var rows := SelectRows(ctx.catalog, PredictionIds(top));
      (r.Err? <==> rows != [] && |rows| != |top|)
    ensures r.Ok? ==> SortedDesc(r.value, RowScore)
    ensures r.Ok? && 0 <= fetchN ==> |r.value| <= fetchN
    ensures r.Ok? ==> |r.value| == HeadCount(|Unseen(ctx, user)|, fetchN)
    ensures r.Ok? ==>
      IsTopK(multiset(Keys(r.value, RowScore)), multiset(Keys(Unseen(ctx, user), PredictionScore)), |r.value|)
    ensures r.Ok? ==>
      var rows := SelectRows(ctx.catalog, PredictionIds(TopUnseen(ctx, user, fetchN)));
      && (rows != [] ==> multiset(Keys(r.value, CatalogPart)) == multiset(Keys(rows, Present)))
      && (rows == [] ==> forall row :: row in r.value ==> row.Unlisted?)
    ensures r.Ok? ==> forall row :: row in r.value && row.Listed? ==>
      && CatalogPart(row).value in ctx.catalog
      && row.movieId in PredictionIds(TopUnseen(ctx, user, fetchN))
      && row.movieId in ctx.matrix.movies
      && row.movieId !in SeenMovies(ctx.ratings, user)
  {
    if user !in ctx.matrix.users then Err(UnknownUser)
    else
      var top := TopUnseen(ctx, user, fetchN);
      var rows := SelectRows(ctx.catalog, PredictionIds(top));
      if rows != [] && |rows| != |top| then Err(LengthMismatch(|top|, |rows|))
      else
        RecommendFacts(ctx, user, fetchN);
        JoinedFacts(ctx.catalog, top);
        Ok(Joined(ctx.catalog, top))
  }

  /** Join and final sort (movie.py:91-93), once the score column fits the joined rows. */
  function Joined(catalog: seq<Movie>, top: seq<Prediction>): (r: seq<ScoredMovie>)
    requires var rows := SelectRows(catalog, PredictionIds(top)); rows == [] || |rows| == |top|
  {
    SortDesc(AttachScores(SelectRows(catalog, PredictionIds(top)), Keys(top, PredictionScore)), RowScore)
  }

  /**
   * The joined rows carry exactly the selected scores, in non-increasing
   * order. Up to order they are exactly the selected catalog rows, each shown
   * once per copy in the catalog, or, when nothing is selected, rows with
   * missing catalog fields.
   */
  lemma JoinedFacts(catalog: seq<Movie>, top: seq<Prediction>)
    requires var rows := SelectRows(catalog, PredictionIds(top)); rows == [] || |rows| == |top|
    ensures var r, rows := Joined(catalog, top), SelectRows(catalog, PredictionIds(top));
      && SortedDesc(r, RowScore)
      && |r| == |top|
      && multiset(Keys(r, RowScore)) == multiset(Keys(top, PredictionScore))
      && (rows != [] ==> multiset(Keys(r, CatalogPart)) == multiset(Keys(rows, Present)))
      && (rows == [] ==> forall row :: row in r ==> row.Unlisted?)
      && forall row :: row in r && row.Listed? ==> CatalogPart(row).value in catalog && row.movieId in PredictionIds(top)
  {
    var ids := PredictionIds(top);
    var rows := SelectRows(catalog, ids);
    var attached := AttachScores(rows, Keys(top, PredictionScore));
    var r := Joined(catalog, top);
    SortDescKeys(attached, RowScore);
    KeysPermutation(r, attached, CatalogPart);
    forall row | row in r
      ensures rows == [] ==> row.Unlisted?
      ensures row.Listed? ==> CatalogPart(row).value in catalog && row.movieId in ids
    {
      assert row in multiset(attached);
      var k :| 0 <= k < |attached| && attached[k] == row;
      if rows != [] {
        assert Keys(attached, CatalogPart)[k] == Keys(rows, Present)[k];
        assert CatalogPart(row) == Some(rows[k]);
        assert rows[k] in rows;
      }
    }
  }

  /** The first `fetch_n` of the sorted candidates: their scores are the top `fetch_n`, and they are candidates. */
  lemma TopFacts(cands: seq<Prediction>, fetchN: int)
    ensures var top := Head(SortDesc(cands, PredictionScore), fetchN);
      && |top| == HeadCount(|cands|, fetchN)
      && IsTopK(multiset(Keys(top, PredictionScore)), multiset(Keys(cands, PredictionScore)), |top|)
      && forall p :: p in top ==> p in cands
  {
    var sorted := SortDesc(cands, PredictionScore);
    var k := HeadCount(|cands|, fetchN);
    var top := Head(sorted, fetchN);
    SortedPrefixIsTopK(sorted, PredictionScore, k);
    SortDescKeys(cands, PredictionScore);
    forall p | p in top ensures p in cands {
      assert p in sorted;
      assert p in multiset(cands);
    }
  }

  /** The facts `Recommend` relies on, about the top predictions and the rows joined to them. */
  lemma RecommendFacts(ctx: Context, user: int, fetchN: int)
    requires Valid(ctx) && user in ctx.matrix.users
    ensures var top := TopUnseen(ctx, user, fetchN);
      && |top| == HeadCount(|Unseen(ctx, user)|, fetchN)
      && IsTopK(multiset(Keys(top, PredictionScore)), multiset(Keys(Unseen(ctx, user), PredictionScore)), |top|)
      && forall p :: p in top ==> p.movieId in ctx.matrix.movies && p.movieId !in SeenMovies(ctx.ratings, user)
  {
    var cands := Unseen(ctx, user);
    TopFacts(cands, fetchN);
    var preds := Predictions(UserWeights(ctx, user), ctx.matrix);
    forall p | p in cands
      ensures p.movieId in ctx.matrix.movies && p.movieId !in SeenMovies(ctx.ratings, user)
    {
      var j :| 0 <= j < |preds| && preds[j] == p;
    }
  }

  // ---------- Properties of the candidate set ----------

  /**
   * The candidates are exactly the matrix columns the user has not rated, each
   * with its own score.
   */
  lemma UnseenCharacterised(ctx: Context, user: int)
    requires Valid(ctx) && user in ctx.matrix.users
    ensures var m, w, seen := ctx.matrix, UserWeights(ctx, user), SeenMovies(ctx.ratings, user);
      && (forall j :: 0 <= j < |m.movies| ==>
            (Prediction(m.movies[j], Score(w, Column(m, j))) in Unseen(ctx, user) <==> m.movies[j] !in seen))
      && (forall p :: p in Unseen(ctx, user) ==>
            exists j :: 0 <= j < |m.movies| && p == Prediction(m.movies[j], Score(w, Column(m, j))))
  {
    var m, w := ctx.matrix, UserWeights(ctx, user);
    var preds := Predictions(w, m);
    assert forall j :: 0 <= j < |m.movies| ==> preds[j] == Prediction(m.movies[j], Score(w, Column(m, j)));
    forall p | p in Unseen(ctx, user)
      ensures exists j :: 0 <= j < |m.movies| && p == Prediction(m.movies[j], Score(w, Column(m, j)))
    {
      var j :| 0 <= j < |preds| && preds[j] == p;
    }
  }

  /** Every cell of the pivot is an observed rating or the fill value 0. */
  lemma PivotCellsWithinScale(rs: seq<Rating>, hi: real)
    requires Pivot(rs).Ok? && 0.0 <= hi
    requires forall q :: q in rs ==> 0.0 <= q.rating <= hi
    ensures var m := Pivot(rs).value;
      forall i, j :: 0 <= i < |m.users| && 0 <= j < |m.movies| ==> 0.0 <= m.cells[i][j] <= hi
  {
    var m := Pivot(rs).value;
    forall i, j | 0 <= i < |m.users| && 0 <= j < |m.movies|
      ensures 0.0 <= m.cells[i][j] <= hi
    {
      if exists k :: 0 <= k < |rs| && rs[k].userId == m.users[i] && rs[k].movieId == m.movies[j] {
        var k :| 0 <= k < |rs| && rs[k].userId == m.users[i] && rs[k].movieId == m.movies[j];
        PivotObserved(rs, k, i, j);
        assert rs[k] in rs;
      } else {
        PivotUnobserved(rs, i, j);
      }
    }
  }

  /**
   * The target's own similarity weight plays no part in the score of a movie
   * the target has not rated: the target's cell in that column is 0.
   */
  lemma OwnWeightIrrelevantForUnseen(ctx: Context, user: int, iu: nat, j: nat, w': seq<real>)
    requires Valid(ctx) && iu < |ctx.matrix.users| && ctx.matrix.users[iu] == user
    requires j < |ctx.matrix.movies| && ctx.matrix.movies[j] !in SeenMovies(ctx.ratings, user)
    requires |w'| == |ctx.matrix.users| && NonNegative(w')
    requires forall v :: 0 <= v < |w'| && v != iu ==> w'[v] == UserWeights(ctx, user)[v]
    ensures Score(w', Column(ctx.matrix, j)) == Score(UserWeights(ctx, user), Column(ctx.matrix, j))
  {
    var col := Column(ctx.matrix, j);
    forall q | q in ctx.ratings
      ensures !(q.userId == ctx.matrix.users[iu] && q.movieId == ctx.matrix.movies[j])
    {
    }
    PivotUnobserved(ctx.ratings, iu, j);
    assert col[iu] == 0.0;
    ScoreIgnoresNonRaters(w', UserWeights(ctx, user), col);
  }

  /** With every rating in [0, hi], every candidate's score lies in [0, hi]. */
  lemma UnseenScoresWithinScale(ctx: Context, user: int, hi: real)
    requires Valid(ctx) && user in ctx.matrix.users && 0.0 <= hi
    requires forall q :: q in ctx.ratings ==> 0.0 <= q.rating <= hi
    ensures forall p :: p in Unseen(ctx, user) ==> 0.0 <= p.score <= hi
  {
    var m, w := ctx.matrix, UserWeights(ctx, user);
    UnseenCharacterised(ctx, user);
    PivotCellsWithinScale(ctx.ratings, hi);
    forall p | p in Unseen(ctx, user)
      ensures 0.0 <= p.score <= hi
    {
      var j :| 0 <= j < |m.movies| && p == Prediction(m.movies[j], Score(w, Column(m, j)));
      ScoreWithinRatingScale(w, Column(m, j), hi);
    }
  }

  /** With every rating in [0, hi], every recommended score lies in [0, hi]. */
  lemma RecommendScoresWithinScale(ctx: Context, user: int, fetchN: int, hi: real)
    requires Valid(ctx) && 0.0 <= hi
    requires forall q :: q in ctx.ratings ==> 0.0 <= q.rating <= hi
    requires Recommend(ctx, user, fetchN).Ok?
    ensures forall row :: row in Recommend(ctx, user, fetchN).value ==> 0.0 <= row.score <= hi
  {
    var r := Recommend(ctx, user, fetchN).value;
    var cands := Unseen(ctx, user);
    UnseenScoresWithinScale(ctx, user, hi);
    var pool := multiset(Keys(cands, PredictionScore));
    assert multiset(Keys(r, RowScore)) <= pool;
    forall row | row in r
      ensures 0.0 <= row.score <= hi
    {
      var k :| 0 <= k < |r| && r[k] == row;
      assert Keys(r, RowScore)[k] == row.score;
      assert row.score in pool;
      var c :| 0 <= c < |cands| && Keys(cands, PredictionScore)[c] == row.score;
      assert cands[c] in cands;
    }
  }

  /**
   * The scores are pasted by position (movie.py:92): with the catalog listing
   * movie 10 before movie 20 and movie 20 predicted higher, movie 10 is
   * shown with movie 20's score.
   */
  lemma ScoresArePastedByPosition()
    ensures var catalog := [Movie(10, "A (1990)", "Drama", Some(1990)), Movie(20, "B (2000)", "Comedy", Some(2000))];
      var top := [Prediction(20, 4.0), Prediction(10, 2.0)];
      && |SelectRows(catalog, PredictionIds(top))| == |top|
      && Joined(catalog, top)[0] == Listed(10, "A (1990)", "Drama", Some(1990), 4.0)
  {
    var catalog := [Movie(10, "A (1990)", "Drama", Some(1990)), Movie(20, "B (2000)", "Comedy", Some(2000))];
    var top := [Prediction(20, 4.0), Prediction(10, 2.0)];
    assert PredictionIds(top) == [20, 10];
    BothSelected(catalog[0], catalog[1]);
    var attached := AttachScores(catalog, Keys(top, PredictionScore));
    assert Keys(top, PredictionScore) == [4.0, 2.0];
    var a0, a1 := Listed(10, "A (1990)", "Drama", Some(1990), 4.0), Listed(20, "B (2000)", "Comedy", Some(2000), 2.0);
    assert attached == [a0, a1];
    assert [a0, a1][1..] == [a1];
    assert SortDesc([a1], RowScore) == [a1];
    assert Joined(catalog, top) == [a0, a1];
  }

  /** Selecting both ids of a two-movie catalog keeps the catalog as it is, in catalog order. */
  lemma BothSelected(m0: Movie, m1: Movie)
    requires m0.movieId == 10 && m1.movieId == 20
    ensures SelectRows([m0, m1], [20, 10]) == [m0, m1]
  {
    assert [m0, m1][1..][1..] == [];
  }
}
