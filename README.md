# Movie recommender: a Dafny model of the recommendation and filter pipeline

This project models the core of a small user-based movie recommender. The page itself is Streamlit code and is not modelled. The model covers five steps:

- The load step adds a `year` column to the movie catalog. The year is the first `(dddd)` group in the title.
- The load step pivots the `(userId, movieId, rating)` triples into a dense user-by-movie matrix, filling unobserved cells with 0. It then labels the similarity matrix with the matrix's user index.
- `recommend_user_based` scores every movie column as a similarity-weighted average of the ratings of the users who rated it. It drops the movies the user already rated and keeps the `fetch_n` best. It joins those with the catalog and sorts by score.
- The filter chain runs in a fixed order: genre, year range, minimum score, title search, then `head(top_n)`.
- The name typed on the page is resolved through a fixed name table. The page then shows a table, a "no movies found" warning, or a rejection.

Everything is pure Dafny functions over sequences, because the source has no loops. The two in-place column assignments (`movies["year"] = …`, `result["score"] = …`) are modelled as functions that build the new row sequence.

Modules follow the components:

- `Seqs` holds boolean-mask selection, `head`, a descending sort, top-k and literal substring search.
- `Catalog` holds the year regex.
- `RatingStore` holds the pivot.
- `Similarity` holds the similarity frame.
- `Predictor` holds the weighted sums and the score.
- `Recommender` holds the load context and `recommend_user_based`.
- `Filters` holds the filter chain.
- `App` holds the name lookup and the page response.
- `Scenario` holds a worked three-user example.

Scores and ratings are exact `real`s, and ε is `1/1000000000`.

How the source attaches scores is modelled as written. At movie.py:91 the selected catalog rows stay in catalog order. At movie.py:92 the top scores are pasted onto them by position, in score-descending order. So the k-th selected movie in catalog order receives the k-th highest score, not necessarily its own. `Recommender.ScoresArePastedByPosition` shows a two-movie catalog where this happens. The contracts therefore state only what the code guarantees:

- when the catalog has rows with the selected ids, the rows are, up to order, exactly those catalog rows, one row per catalog copy;
- when it has none, every row has missing catalog fields (see below);
- as a multiset, the scores are exactly the `fetch_n` best unseen predictions;
- there are at most `fetch_n` rows;
- the rows are sorted by score.

The `LengthMismatch` error happens exactly when the selection has at least one catalog row and its row count differs from the number of scores. A selected id missing from the catalog removes a row, and a catalog id listed twice adds one. Both together can cancel out, and then neither the source nor the model reports an error.

A selection with no catalog rows at all is not an error. Assigning the score column to a frame with an empty index first grows the frame to one row per score, with every catalog field NaN. The model represents such a row as `Unlisted(score)`. The year filter at movie.py:136 drops every such row, because a NaN year fails both bounds. So, once the page gets past the year slider, it shows the "no movies found" warning (`App.NoCatalogMatchShowsWarning`).

Points where movie.py behaves differently from what one might assume:

- Ties in the sorts are not guaranteed to keep their original order. `sort_values` uses pandas' default quicksort, which is not stable. The model sorts with one fixed insertion sort, which keeps the earlier row first at a tie.
- Predictions exist only for the matrix columns, meaning movies with at least one rating, not for every catalog movie.
- Rows are joined in catalog order with scores pasted by position, not in the predictor's rank order.
- An unknown user id is not checked up front. The `.loc` lookup fails, which the model reports as `UnknownUser`.
- The year slider's bounds at movie.py:116-118 are `int` of the least and greatest catalog year. They are computed for every known name, before any button is checked. With no dated title in the catalog, including an empty catalog, both are NaN and `int` raises. The model reports this as `YearSliderFailed`, and the later outcomes of `App.Respond` occur only when some title is dated.
- A repeated `(userId, movieId)` pair is rejected by `pivot` itself. The model reports it as `DuplicateRatings`.
- An empty ratings file gives a matrix without rows, which `cosine_similarity` rejects. The model reports it as `NoRatings`.
- The diagonal of the similarity matrix is whatever sklearn returns. The model takes the matrix as given.

## Model

| member | source | states |
|---|---|---|
| `Catalog.FirstYearIndex` | movie.py:62 | the result is the leftmost position at or after `from` where `\((\d{4})\)` matches; no position before it matches; none means no match at all |
| `Catalog.ExtractYear` | movie.py:62 | the year is absent exactly when the title contains no `(dddd)` group; a year is at most 9999 |
| `Catalog.ExtractYearIsFirstMatch` | movie.py:62 | when position i is the first match, the year is the value of its four digits, whatever later matches say |
| `Catalog.WithYears` | movie.py:62 | adding the year column keeps every row's id, title and genres and its position, and sets its year to the extracted one |
| `Catalog.ToyStoryYear` | movie.py:62 | "Toy Story (1995)" yields 1995 |
| `Catalog.NoParenthesisedYear` | movie.py:62 | a title with a bare year and no parentheses yields an absent year, not 0 |
| `Seqs.IsSubstring` | movie.py:134 | literal containment: the pattern is a prefix of the text or is contained in its tail |
| `Seqs.Lower` | movie.py:140 | the text with each ASCII capital replaced by its lower case, length unchanged |
| `Seqs.IsSubstringCharacterised` | movie.py:134 | the literal containment test holds exactly when the pattern occurs at some position |
| `Seqs.Where` | movie.py:136-137 | mask selection keeps at most the input's rows, and every row it keeps satisfies the predicate |
| `Seqs.WhereIsSubsequence` | movie.py:136-137 | mask selection returns a subsequence of its input in the original order |
| `Seqs.WhereCount` | movie.py:136-137 | every accepted row is kept as often as it occurs, and every rejected row is gone |
| `Seqs.WhereConcat` | movie.py:133-140 | selection distributes over concatenation |
| `Seqs.HeadCount` | movie.py:142 | `head(n)` keeps min(n, length) rows for n >= 0, never more than there are, and never more than n |
| `Seqs.Head` | movie.py:142 | `head(n)` is the prefix of that length |
| `Seqs.PrefixIsSubsequence` | movie.py:142 | a prefix is an order-preserving subsequence |
| `Seqs.SubsequenceTransitive` | movie.py:133-142 | a subsequence of a subsequence is a subsequence, so the chained filters still keep the input order |
| `Seqs.SubsequenceElements` | movie.py:133-142 | every row of a subsequence is a row of the original |
| `Seqs.InsertSorted` | movie.py:90 | inserting into a descending sequence keeps it descending |
| `Seqs.InsertPermutes` | movie.py:90 | inserting adds exactly that row and its key |
| `Seqs.SortDesc` | movie.py:90 | `sort_values(ascending=False)` returns a non-increasing permutation of its input |
| `Seqs.SortDescKeys` | movie.py:93 | sorting permutes the score column as well |
| `Seqs.KeysPermutation` | movie.py:93 | rearranging the rows rearranges every column of them, so the sort after the join keeps the joined catalog rows |
| `Seqs.SortedPrefixIsTopK` | movie.py:90 | the first k rows of a descending sequence carry the k largest scores: drawn from the pool, of size k, none left behind larger |
| `Seqs.SubsequenceOfSorted` | movie.py:133-142 | an order-preserving subsequence of a score-sorted list is score-sorted |
| `RatingStore.IndexOf` | movie.py:80 | the first position of a label, and none exactly when the label is absent |
| `RatingStore.IndexOfUnique` | movie.py:80 | in a strictly increasing index, a label's position is the only one |
| `RatingStore.SortedDistinct` | movie.py:65 | the pivot's axis labels are strictly increasing and are exactly the values that occur |
| `RatingStore.FindRating` | movie.py:65 | finds the first triple for a (user, movie) pair, and none exactly when no triple has that pair |
| `RatingStore.Pivot` | movie.py:65 | the pivot fails exactly when a (userId, movieId) pair repeats; otherwise it has sorted distinct row labels (the userIds) and column labels (the movieIds) and a rectangular body |
| `RatingStore.CellValue` | movie.py:65 | the rating of the first triple for the (user, movie) pair, or the fill value 0 when there is none |
| `RatingStore.PivotObserved` | movie.py:65 | every observed triple sits in the cell of its user's row and its movie's column |
| `RatingStore.PivotUnobserved` | movie.py:65 | a (user, movie) pair with no triple holds the fill value 0 |
| `RatingStore.SeenMovies` | movie.py:87 | the seen list holds exactly the movieIds of the user's own triples |
| `Similarity.MakeFrame` | movie.py:67 | the frame is built exactly when the values are square over the matrix's user index, and then both axes carry that index |
| `Similarity.Row` | movie.py:80 | a label outside the index gives no row; with a unique index a known user's row is the one at its label |
| `Predictor.Dot` | movie.py:81-82 | the sum over all users, the target included, of weight times entry |
| `Predictor.Indicator` | movie.py:82 | 1 where the column's entry is nonzero and 0 elsewhere, the `!= 0` mask of the ratings |
| `Predictor.Score` | movie.py:81-84 | the weighted rating sum divided by the summed weights of the raters plus ε, both sums over all users, the target included |
| `Predictor.DotNonNegative` | movie.py:82 | non-negative weights on non-negative entries give a non-negative sum, so the denominator is never negative |
| `Predictor.DotIgnoresZeroEntries` | movie.py:81-82 | users whose cell in the column is 0 contribute to neither the numerator nor the denominator |
| `Predictor.DotOfZeroColumn` | movie.py:81 | a column of zeros has numerator 0 |
| `Predictor.DotBoundedByRaters` | movie.py:81-82 | with ratings in [0, hi], the numerator is at most hi times the denominator |
| `Predictor.UnratedMovieScoresZero` | movie.py:81-84 | a movie with no nonzero rating scores exactly 0 |
| `Predictor.ScoreIgnoresNonRaters` | movie.py:81-84 | changing the similarity weight of a user who did not rate the movie leaves its score unchanged |
| `Predictor.ScoreWithinRatingScale` | movie.py:81-84 | with non-negative weights and ratings in [0, hi], the score lies in [0, hi] |
| `Recommender.Load` | movie.py:58-67 | loading fails with `DuplicateRatings` exactly when a pair repeats, with `NoRatings` exactly when there are no ratings, and with `SimilarityShape` exactly when the similarity values are not square over the user index; otherwise the context is valid, and the catalog is the records with their years |
| `Recommender.Predictions` | movie.py:85 | one prediction per matrix column, labelled by that column's movieId, in column order |
| `Recommender.Unseen` | movie.py:81-88 | the predictions for the user's weights over all matrix columns, with the movies the user rated dropped |
| `Recommender.TopUnseen` | movie.py:90 | the candidates sorted by score descending, then their first `fetch_n` |
| `Recommender.DropSeen` | movie.py:88 | dropping the seen ids keeps the predictions whose id is not seen, in order and with their counts; ids not among the predictions are ignored |
| `Recommender.UserWeights` | movie.py:80 | a known user's similarity row has one non-negative weight per matrix user and is the frame row at that user's label |
| `Recommender.UnseenCharacterised` | movie.py:81-88 | a matrix column is a candidate with its own score exactly when the user has not rated it, and every candidate is such a column |
| `Recommender.OwnWeightIrrelevantForUnseen` | movie.py:80-88 | for a movie the user has not rated, the user's own similarity weight does not affect its score |
| `Recommender.TopFacts` | movie.py:90 | the first `fetch_n` sorted candidates are candidates, and as a multiset their scores are the `fetch_n` best |
| `Recommender.RecommendFacts` | movie.py:87-90 | the selected top movies are matrix columns the user has not rated, and their scores are the best of the candidates |
| `Recommender.SelectRows` | movie.py:91 | `isin` keeps exactly the catalog rows whose id is selected, each as often as it occurs in the catalog, in catalog order; the rest are dropped |
| `Recommender.AttachScores` | movie.py:92 | the score column is exactly the given score list; on a non-empty selection row k keeps the k-th selected catalog row, and on an empty one every row has missing catalog fields |
| `Recommender.Joined` | movie.py:91-93 | the selected catalog rows with the top scores pasted by position, sorted by score descending |
| `Recommender.JoinedFacts` | movie.py:91-93 | the rows are sorted by score, and their scores are exactly the selected scores; up to order, their catalog parts are exactly the selected catalog rows, or, when nothing is selected, all of them are missing |
| `Recommender.Recommend` | movie.py:79-93 | fails with `UnknownUser` exactly when the user is not in the matrix, and with a length mismatch exactly when the selection is non-empty and its row count differs from the number of selected scores; otherwise the rows are sorted by score, number min(`fetch_n`, candidates), and carry as a multiset the `fetch_n` best unseen scores; they are, up to order, exactly the catalog rows of the selected movies, which are unrated matrix movies, or, when the catalog has none of them, rows with missing catalog fields |
| `Recommender.ScoresArePastedByPosition` | movie.py:91-92 | with movie 10 before movie 20 in the catalog and movie 20 predicted higher, movie 10 is shown with movie 20's score |
| `Recommender.PivotCellsWithinScale` | movie.py:65 | with ratings in [0, hi], every cell of the pivot lies in [0, hi] |
| `Recommender.UnseenScoresWithinScale` | movie.py:81-88 | with ratings in [0, hi], every candidate score lies in [0, hi] |
| `Recommender.RecommendScoresWithinScale` | movie.py:79-93 | with ratings in [0, hi], every recommended score lies in [0, hi] |
| `Filters.ByGenre` | movie.py:133-134 | "All" leaves the list unchanged; otherwise the result keeps, in order, exactly the rows whose genres contain the choice |
| `Filters.ByYear` | movie.py:136 | keeps, in order, exactly the rows with a year inside the inclusive range; rows without a year are dropped |
| `Filters.ByScore` | movie.py:137 | keeps, in order, exactly the rows whose score is at least the minimum |
| `Filters.ByTitle` | movie.py:139-140 | an empty search changes nothing; otherwise it keeps, in order, exactly the rows whose lower-cased title contains the lower-cased search text |
| `Filters.Chain` | movie.py:133-140 | genre, then year range, then minimum score, then title search, each applied to the previous result |
| `Filters.Filtered` | movie.py:133-140 | the reference definition: one mask keeping the rows that pass all four predicates |
| `Filters.ChainIsConjunction` | movie.py:133-140 | the four steps in their fixed order keep exactly the rows that pass all four predicates |
| `Filters.ApplyFilters` | movie.py:133-142 | the chain's result is the first `top_n` rows passing every predicate; it is an order-preserving subsequence of its input, has at most `top_n` rows, and stays score-sorted |
| `Filters.OnlyTheCutRemains` | movie.py:142 | when every row passes every predicate, the result is the first min(`top_n`, length) rows |
| `Filters.UnlistedRowsShowNothing` | movie.py:136 | rows with missing catalog fields never survive the chain, because a NaN year fails the range |
| `Filters.MinRatingAboveAllScores` | movie.py:137 | a minimum above every score yields the empty list |
| `Filters.MatrixTitleFound` | movie.py:140 | the search "Matrix" matches "The Matrix (1999)" case-insensitively |
| `Filters.MatriarchTitleNotFound` | movie.py:140 | the search "Matrix" does not match "Matriarch (2005)" |
| `App.ResolveUser` | movie.py:102-105 | a name resolves exactly when it is in the name table, and then to its id |
| `App.Respond` | movie.py:99-149 | an empty name shows only the prompt; an unknown name is rejected; a known name with no dated catalog title fails at the year slider; a failed recommendation is reported as such, as `UnknownUser` for an id missing from the matrix; an empty filtered list is the "no movies found" warning, distinct from a failure; a table is the non-empty filtered list, sorted by score, at most `top_n` rows, every row passing the filters, a catalog row, and unrated by the user |
| `App.MinRatingAboveScaleShowsNoTable` | movie.py:137-149 | with ratings on a 0-to-5 scale, a minimum rating above 5 never yields a table |
| `App.NoCatalogMatchShowsWarning` | movie.py:116-149 | once the page reaches the Apply branch (some catalog title is dated), a catalog with none of the selected movies gives the "no movies found" warning, not a failure |
| `Scenario.ScenarioPivot` | movie.py:65 | the example's seven triples pivot to users [1, 2, 3] and movies [1, 2, 3] |
| `Scenario.ScenarioMovieThreeColumn` | movie.py:65 | movie 3's column in the example is [0, 5, 4] |
| `Scenario.ScenarioCandidates` | movie.py:79-88 | in the example, user 1's only candidate is movie 3, scored (s2·5 + s3·4) / (s2 + s3 + ε) from users 2 and 3 alone |

## Left out

- Streamlit page code is not modelled: page configuration, CSS, widgets, layout, the subheader, and the informational messages at movie.py:7-55 and 96-154. The "Clear Filters" and no-button branches only print messages. `App.Respond` models the "Apply Filters" branch.
- CSV loading (movie.py:58-59) is I/O. The ratings and the movie records are input sequences. Missing values in the CSV columns (NaN genres or titles, which `na=False` treats as non-matching) are not modelled.
- `cosine_similarity` (movie.py:66) is a foreign call over floating point and square roots. Its result enters `Recommender.Load` as a given matrix. Its symmetry, its diagonal and its zero-norm behaviour are not modelled. Of its errors, only the rejection of a matrix without rows is modelled, as `NoRatings`.
- `Recommender.Load` requires non-negative similarity values, and `Predictor.Score` requires non-negative weights. Cosine similarity of non-negative rating vectors satisfies this, and it keeps the denominator plus ε positive. With negative ratings the floating-point division could reach 0 and give inf or NaN, which exact reals cannot represent.
- IEEE floating point is not modelled: the division, ε and `astype(float)` use exact reals and naturals.
- `str.contains` is used with its default `regex=True` (movie.py:134, 140). It is modelled as literal substring search. Patterns containing regex metacharacters behave differently in the source.
- Case-insensitive matching (movie.py:140) is modelled as ASCII lower-casing. Python's Unicode case folding is not modelled.
- The regex `\d` also matches non-ASCII decimal digits in Python. The model accepts only '0' to '9'.
- The tie order of `sort_values` (movie.py:90, 93) is not modelled. pandas' default quicksort is not stable. The model fixes one insertion sort, which keeps the earlier row first at a tie.
- Recommend: the contract names `TopUnseen`, which is built by the model's insertion sort. When several candidates tie at the `fetch_n` cut, the model keeps the earlier matrix column, and pandas' quicksort may keep another. So the selected ids, and with them whether `LengthMismatch` occurs, match the source only up to ties at the cut. The score multiset and the sortedness do not depend on it.
- Recommend: does not state that each row's score is that movie's own prediction, because movie.py:92 pastes scores by position and the source does not guarantee it.
- The genre dropdown list (movie.py:114) and the slider ranges (movie.py:112, 115-118) are not modelled as constraints on the filter parameters, which are inputs. The choices a widget offers are not enforced. The one failure these lines can cause is modelled: line 117 raises when no catalog title is dated (`YearSliderFailed`). The dropdown's `"|".join` would fail on a missing genre, which cannot occur because CSV missing values are not modelled.
- The column projection for display (movie.py:146) is left out because it is presentation.
