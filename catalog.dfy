/**
 * The movie catalog (movie.py:58-62): rows of `movies.csv` and the `year`
 * column that the load step adds by extracting the first `(dddd)` group of
 * each title.
 */
module Catalog {
  import opened Wrappers

  /** A row of `movies.csv` as read. */
  datatype MovieRecord = MovieRecord(movieId: int, title: string, genres: string)

  /** A catalog row after the load step added the `year` column (absent = NaN). */
  datatype Movie = Movie(movieId: int, title: string, genres: string, year: Option<nat>)

  predicate IsDigit(c: char)
  {
    '0' <= c <= '9'
  }

  function DigitValue(c: char): (d: nat)
    requires IsDigit(c)
    ensures d <= 9
  {
    c as int - '0' as int
  }

  /** The pattern `\((\d{4})\)` matches `t` starting at position `i`. */
  predicate YearAt(t: string, i: int)
  {
    0 <= i && i + 6 <= |t| &&
    t[i] == '(' && IsDigit(t[i + 1]) && IsDigit(t[i + 2]) && IsDigit(t[i + 3]) && IsDigit(t[i + 4]) &&
    t[i + 5] == ')'
  }

  /** The number written by the four digits of the match at `i` (as `astype(float)` reads them). */
  function YearValue(t: string, i: int): (y: nat)
    requires YearAt(t, i)
    ensures y <= 9999
  {
    1000 * DigitValue(t[i + 1]) + 100 * DigitValue(t[i + 2]) + 10 * DigitValue(t[i + 3]) + DigitValue(t[i + 4])
  }

  /** The leftmost position at or after `from` where the pattern matches, as a regex search finds it. */
  function FirstYearIndex(t: string, from: nat): (r: Option<nat>)
    requires from <= |t|
    ensures r.Some? ==> from <= r.value && YearAt(t, r.value)
    ensures r.Some? ==> forall j :: from <= j < r.value ==> !YearAt(t, j)
    ensures r.None? ==> forall j :: from <= j ==> !YearAt(t, j)
    decreases |t| - from
  {
    if YearAt(t, from) then Some(from)
    else if from + 6 >= |t| then None
    else FirstYearIndex(t, from + 1)
  }

  /** `str.extract(r'\((\d{4})\)')` followed by `astype(float)`: the year, or absent. */
  function ExtractYear(t: string): (r: Option<nat>)
    ensures r.None? <==> forall j :: !YearAt(t, j)
    ensures r.Some? ==> r.value <= 9999
  {
    match FirstYearIndex(t, 0)
    case Some(i) => Some(YearValue(t, i))
    case None => None
  }

  /** The year extracted is that of the leftmost match, whatever later matches say. */
  lemma ExtractYearIsFirstMatch(t: string, i: nat)
    requires YearAt(t, i)
    requires forall j :: 0 <= j < i ==> !YearAt(t, j)
    ensures ExtractYear(t) == Some(YearValue(t, i))
  {
  }

  /** movie.py:62: the load step adds the `year` column to every catalog row, in place and in order. */
  function WithYears(records: seq<MovieRecord>): (movies: seq<Movie>)
    ensures |movies| == |records|
    ensures forall k :: 0 <= k < |records| ==>
      && movies[k].movieId == records[k].movieId
      && movies[k].title == records[k].title
      && movies[k].genres == records[k].genres
      && movies[k].year == ExtractYear(records[k].title)
  {
    seq(|records|, k requires 0 <= k < |records| =>
      Movie(records[k].movieId, records[k].title, records[k].genres, ExtractYear(records[k].title)))
  }

  lemma ToyStoryYear()
    ensures ExtractYear("Toy Story (1995)") == Some(1995)
  {
    var t := "Toy Story (1995)";
    assert YearAt(t, 10);
    ExtractYearIsFirstMatch(t, 10);
  }

  lemma NoParenthesisedYear()
    ensures ExtractYear("Blade Runner 2049") == None
  {
  }
}
