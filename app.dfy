/**
 * The request flow of the page (movie.py:70-76, 99-105, 130-149): resolve the
 * typed name through the fixed name table, fetch 300 recommendations, run the
 * filter chain, and show a table or the "no movies found" warning.
 */
module App {
  import opened Wrappers
  import opened Seqs
  import opened Catalog
  import opened RatingStore
  import opened Recommender
  import opened Filters

  /** movie.py:70-76: the hard-coded name table. */
  const UserMapping: map<string, int> := map["Hira" := 1, "Ali" := 2, "Rehan" := 3, "Shiza" := 4]

  /** movie.py:131: the number of candidates fetched before filtering. */
  const FetchCount: int := 300

  /** What the page shows once "Apply Filters" is pressed. */
  datatype Response =
    | AwaitingName                          // nothing typed yet: only the prompt
    | UserNotFound                          // movie.py:102-103
    | YearSliderFailed                      // movie.py:116-118: no dated title, so the bounds are NaN
    | RecommendFailed(error: RecommendError) // an exception escapes recommend_user_based
    | NoMatches                             // movie.py:148-149, a warning and not a failure
    | Table(rows: seq<ScoredMovie>)         // movie.py:144-146

  /** movie.py:101-105: the id for a typed name, or none for an unknown one. */
  function ResolveUser(name: string): (r: Option<int>)
    ensures r.Some? <==> name in UserMapping
    ensures r.Some? ==> r.value == UserMapping[name]
  {
    if name in UserMapping then Some(UserMapping[name]) else None
  }

  /**
   * The year slider's bounds (movie.py:116-118) are the least and greatest
   * catalog years; with no dated title both are NaN and `int` raises.
   */
  predicate HasDatedTitle(catalog: seq<Movie>)
  {
    exists m :: m in catalog && m.year.Some?
  }

  /** movie.py:99-149 with "Apply Filters" pressed. */
  function Respond(ctx: Context, name: string, f: FilterParams): (r: Response)
    requires Valid(ctx)
    ensures r == AwaitingName <==> name == ""
    ensures r == UserNotFound <==> name != "" && name !in UserMapping
    ensures r == YearSliderFailed <==> name in UserMapping && !HasDatedTitle(ctx.catalog)
    ensures r.RecommendFailed? <==>
      name in UserMapping && HasDatedTitle(ctx.catalog) && Recommend(ctx, UserMapping[name], FetchCount).Err?
    ensures r.RecommendFailed? && UserMapping[name] !in ctx.matrix.users ==> r.error == UnknownUser
    ensures r == NoMatches <==>
      name in UserMapping && HasDatedTitle(ctx.catalog) && Recommend(ctx, UserMapping[name], FetchCount).Ok? &&
      ApplyFilters(Recommend(ctx, UserMapping[name], FetchCount).value, f) == []
    ensures r.Table? ==> name in UserMapping && HasDatedTitle(ctx.catalog) && Recommend(ctx, UserMapping[name], FetchCount).Ok?
    ensures r.Table? ==> r.rows == ApplyFilters(Recommend(ctx, UserMapping[name], FetchCount).value, f) && r.rows != []
    ensures r.Table? ==> SortedDesc(r.rows, RowScore) && (0 <= f.topN ==> |r.rows| <= f.topN)
    ensures r.Table? ==> forall row :: row in r.rows ==>
      Passes(f, row) && row.Listed? && row.movieId !in SeenMovies(ctx.ratings, UserMapping[name])
  {
    if name == "" then AwaitingName
    else match ResolveUser(name)
      case None => UserNotFound
      case Some(user) =>
        if !HasDatedTitle(ctx.catalog) then YearSliderFailed
        else match Recommend(ctx, user, FetchCount)
        case Err(e) => RecommendFailed(e)
        case Ok(recs) =>
          var shown := ApplyFilters(recs, f);
          if shown == [] then NoMatches
          else
            assert forall row :: row in shown ==> row in recs by {
              SubsequenceElements(shown, recs);
            }
            Table(shown)
  }

  /**
   * With ratings on a 0-to-5 scale, a minimum rating above 5 can only end in
   * the "no movies found" warning (or an earlier rejection), never in a table.
   */
  lemma MinRatingAboveScaleShowsNoTable(ctx: Context, name: string, f: FilterParams)
    requires Valid(ctx)
    requires forall q :: q in ctx.ratings ==> 0.0 <= q.rating <= 5.0
    requires 5.0 < f.minRating
    ensures !Respond(ctx, name, f).Table?
  {
    if name in UserMapping && Recommend(ctx, UserMapping[name], FetchCount).Ok? {
      var recs := Recommend(ctx, UserMapping[name], FetchCount).value;
      RecommendScoresWithinScale(ctx, UserMapping[name], FetchCount, 5.0);
      MinRatingAboveAllScores(recs, f);
    }
  }

  /**
   * Once the page gets past the year slider (some title is dated), a catalog
   * with none of the selected movies leads the score assignment to fill rows
   * with missing catalog fields; the year filter drops them all, so the page
   * shows the "no movies found" warning rather than a failure.
   */
  lemma NoCatalogMatchShowsWarning(ctx: Context, name: string, f: FilterParams)
    requires Valid(ctx) && name in UserMapping && UserMapping[name] in ctx.matrix.users
    requires HasDatedTitle(ctx.catalog)
    requires SelectRows(ctx.catalog, PredictionIds(TopUnseen(ctx, UserMapping[name], FetchCount))) == []
    ensures Respond(ctx, name, f) == NoMatches
  {
    var recs := Recommend(ctx, UserMapping[name], FetchCount).value;
    UnlistedRowsShowNothing(recs, f);
  }
}
