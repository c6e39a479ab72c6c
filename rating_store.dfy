/**
 * The rating store (movie.py:59, 65, 87): the raw `(userId, movieId, rating)`
 * triples and the dense user-by-movie matrix that `pivot(...).fillna(0)`
 * builds from them.
 */
module RatingStore {
  import opened Wrappers

  /** A row of `ratings.csv`. */
  datatype Rating = Rating(userId: int, movieId: int, rating: real)

  /** A dense frame: row labels, column labels and one row of cells per row label. */
  datatype Matrix = Matrix(users: seq<int>, movies: seq<int>, cells: seq<seq<real>>)

  /** `pivot` refuses to reshape when a (userId, movieId) pair occurs twice. */
  datatype PivotError = DuplicateEntries

  predicate StrictlyIncreasing(s: seq<int>)
  {
    forall i, j :: 0 <= i < j < |s| ==> s[i] < s[j]
  }

  /** Sorted, duplicate-free labels and a rectangular body. */
  predicate WellFormed(m: Matrix)
  {
    && StrictlyIncreasing(m.users)
    && StrictlyIncreasing(m.movies)
    && |m.cells| == |m.users|
    && forall i :: 0 <= i < |m.cells| ==> |m.cells[i]| == |m.movies|
  }

  /** The first position of `x` in `xs`. */
  function IndexOf(xs: seq<int>, x: int): (r: Option<nat>)
    ensures r.Some? ==> r.value < |xs| && xs[r.value] == x
    ensures r.Some? ==> forall j :: 0 <= j < r.value ==> xs[j] != x
    ensures r.None? <==> x !in xs
  {
    if xs == [] then None
    else if xs[0] == x then Some(0)
    else match IndexOf(xs[1..], x)
      case Some(i) => Some(i + 1)
      case None => None
  }

  lemma IndexOfUnique(xs: seq<int>, i: nat)
    requires StrictlyIncreasing(xs) && i < |xs|
    ensures IndexOf(xs, xs[i]) == Some(i)
  {
  }

  // ---------- Sorted distinct labels ----------

  function InsertUnique(x: int, s: seq<int>): (r: seq<int>)
    requires StrictlyIncreasing(s)
    ensures StrictlyIncreasing(r)
    ensures forall y :: y in r <==> y == x || y in s
  {
    if s == [] then [x]
    else if x < s[0] then [x] + s
    else if x == s[0] then s
    else
      var rest := InsertUnique(x, s[1..]);
      assert forall y :: y in s <==> y == s[0] || y in s[1..];
      assert forall j :: 0 <= j < |rest| ==> s[0] < rest[j] by {
        forall j | 0 <= j < |rest| ensures s[0] < rest[j] {
          assert rest[j] in rest;
        }
      }
      [s[0]] + rest
  }

  /** The distinct values of `xs` in increasing order, as pandas orders a pivot's axes. */
  function SortedDistinct(xs: seq<int>): (r: seq<int>)
    ensures StrictlyIncreasing(r)
    ensures forall y :: y in r <==> y in xs
  {
    if xs == [] then []
    else
      assert forall y :: y in xs <==> y == xs[0] || y in xs[1..];
      InsertUnique(xs[0], SortedDistinct(xs[1..]))
  }

  function UserIds(rs: seq<Rating>): (ids: seq<int>)
  {
    seq(|rs|, k requires 0 <= k < |rs| => rs[k].userId)
  }

  function MovieIds(rs: seq<Rating>): (ids: seq<int>)
  {
    seq(|rs|, k requires 0 <= k < |rs| => rs[k].movieId)
  }

  // ---------- pivot ----------

  predicate SamePair(a: Rating, b: Rating)
  {
    a.userId == b.userId && a.movieId == b.movieId
  }

  predicate NoDuplicatePairs(rs: seq<Rating>)
  {
    forall i, j :: 0 <= i < j < |rs| ==> !SamePair(rs[i], rs[j])
  }

  /** The first triple recording `user`'s rating of `movie`. */
  function FindRating(rs: seq<Rating>, user: int, movie: int): (r: Option<nat>)
    ensures r.Some? ==> r.value < |rs| && rs[r.value].userId == user && rs[r.value].movieId == movie
    ensures r.Some? ==> forall k :: 0 <= k < r.value ==> !(rs[k].userId == user && rs[k].movieId == movie)
    ensures r.None? ==> forall k :: 0 <= k < |rs| ==> !(rs[k].userId == user && rs[k].movieId == movie)
  {
    if rs == [] then None
    else if rs[0].userId == user && rs[0].movieId == movie then Some(0)
    else match FindRating(rs[1..], user, movie)
      case Some(k) => Some(k + 1)
      case None => None
  }

  /** The observed rating, or the `fillna(0)` value. */
  function CellValue(rs: seq<Rating>, user: int, movie: int): real
  {
    match FindRating(rs, user, movie)
    case Some(k) => rs[k].rating
    case None => 0.0
  }

  /** movie.py:65: `ratings.pivot(index="userId", columns="movieId", values="rating").fillna(0)`. */
  function Pivot(rs: seq<Rating>): (r: Result<Matrix, PivotError>)
    ensures r.Ok? <==> NoDuplicatePairs(rs)
    ensures r.Ok? ==> WellFormed(r.value)
    ensures r.Ok? ==> forall u :: u in r.value.users <==> exists q :: q in rs && q.userId == u
    ensures r.Ok? ==> forall m :: m in r.value.movies <==> exists q :: q in rs && q.movieId == m
  {
    if !NoDuplicatePairs(rs) then Err(DuplicateEntries)
    else
      var users := SortedDistinct(UserIds(rs));
      var movies := SortedDistinct(MovieIds(rs));
      assert forall u :: u in UserIds(rs) <==> exists q :: q in rs && q.userId == u by {
        forall u | u in UserIds(rs) ensures exists q :: q in rs && q.userId == u {
          var k :| 0 <= k < |rs| && UserIds(rs)[k] == u;
          assert rs[k] in rs;
        }
        forall u | exists q :: q in rs && q.userId == u ensures u in UserIds(rs) {
          var q :| q in rs && q.userId == u;
          var k :| 0 <= k < |rs| && rs[k] == q;
          assert UserIds(rs)[k] == u;
        }
      }
      assert forall m :: m in MovieIds(rs) <==> exists q :: q in rs && q.movieId == m by {
        forall m | m in MovieIds(rs) ensures exists q :: q in rs && q.movieId == m {
          var k :| 0 <= k < |rs| && MovieIds(rs)[k] == m;
          assert rs[k] in rs;
        }
        forall m | exists q :: q in rs && q.movieId == m ensures m in MovieIds(rs) {
          var q :| q in rs && q.movieId == m;
          var k :| 0 <= k < |rs| && rs[k] == q;
          assert MovieIds(rs)[k] == m;
        }
      }
      Ok(Matrix(users, movies,
        seq(|users|, i requires 0 <= i < |users| =>
          seq(|movies|, j requires 0 <= j < |movies| => CellValue(rs, users[i], movies[j])))))
  }

  /** Every observed triple lands in the cell of its user's row and its movie's column. */
  lemma PivotObserved(rs: seq<Rating>, k: nat, i: nat, j: nat)
    requires Pivot(rs).Ok? && k < |rs|
    requires i < |Pivot(rs).value.users| && j < |Pivot(rs).value.movies|
    requires Pivot(rs).value.users[i] == rs[k].userId && Pivot(rs).value.movies[j] == rs[k].movieId
    ensures Pivot(rs).value.cells[i][j] == rs[k].rating
  {
    var f := FindRating(rs, rs[k].userId, rs[k].movieId);
    assert f.Some?;
    if f.value != k {
      assert SamePair(rs[f.value], rs[k]);
    }
  }

  /** A (user, movie) pair with no triple holds the fill value 0. */
  lemma PivotUnobserved(rs: seq<Rating>, i: nat, j: nat)
    requires Pivot(rs).Ok?
    requires i < |Pivot(rs).value.users| && j < |Pivot(rs).value.movies|
    requires forall q :: q in rs ==> !(q.userId == Pivot(rs).value.users[i] && q.movieId == Pivot(rs).value.movies[j])
    ensures Pivot(rs).value.cells[i][j] == 0.0
  {
  }

  /** movie.py:87: the ids of the movies `user` rated, in file order. */
  function SeenMovies(rs: seq<Rating>, user: int): (seen: seq<int>)
    ensures forall m :: m in seen <==> exists q :: q in rs && q.userId == user && q.movieId == m
  {
    if rs == [] then []
    else
      var rest := SeenMovies(rs[1..], user);
      assert forall q :: q in rs <==> q == rs[0] || q in rs[1..];
      if rs[0].userId == user then [rs[0].movieId] + rest else rest
  }
}
