/**
 * The filter chain applied to the recommendations when the user presses
 * "Apply Filters" (movie.py:133-142): genre, year range, minimum score,
 * title search, then `head(top_n)`, always in this order.
 */
module Filters {
  import opened Wrappers
  import opened Seqs
  import opened Recommender

  /** The widget values the chain reads (movie.py:112-120). */
  datatype FilterParams = FilterParams(topN: int, genre: string, minRating: real, yearLo: int, yearHi: int, search: string)

  /** The genre choice that switches the genre filter off. */
  const AllGenres: string := "All"

  /** A row with missing catalog fields has NaN genres, which `na=False` rejects. */
  predicate GenreMatches(genre: string, m: ScoredMovie)
  {
    genre == AllGenres || (m.Listed? && IsSubstring(genre, m.genres))
  }

  /** A row without a year compares false with both bounds (NaN), so it never passes. */
  predicate YearMatches(lo: int, hi: int, m: ScoredMovie)
  {
    m.Listed? && m.year.Some? && lo <= m.year.value <= hi
  }

  predicate ScoreMatches(minRating: real, m: ScoredMovie)
  {
    minRating <= m.score
  }

  /** Case-insensitive title search; an empty search text switches it off, and a NaN title never matches. */
  predicate TitleMatches(search: string, m: ScoredMovie)
  {
    search == "" || (m.Listed? && IsSubstring(Lower(search), Lower(m.title)))
  }

  /** All four predicates of the chain at once. */
  predicate Passes(f: FilterParams, m: ScoredMovie)
  {
    GenreMatches(f.genre, m) && YearMatches(f.yearLo, f.yearHi, m) &&
    ScoreMatches(f.minRating, m) && TitleMatches(f.search, m)
  }

  // ---------- The four steps ----------

  /** movie.py:133-134. */
  function ByGenre(recs: seq<ScoredMovie>, genre: string): (r: seq<ScoredMovie>)
    ensures genre == AllGenres ==> r == recs
    ensures IsSubsequence(r, recs)
    ensures forall m :: multiset(r)[m] == if GenreMatches(genre, m) then multiset(recs)[m] else 0
  {
    if genre == AllGenres then
      SubsequenceReflexive(recs);
      recs
    else
      var p := (m: ScoredMovie) => m.Listed? && IsSubstring(genre, m.genres);
      WhereIsSubsequence(recs, p);
      assert forall m :: multiset(Where(recs, p))[m] == if p(m) then multiset(recs)[m] else 0 by {
        forall m ensures multiset(Where(recs, p))[m] == if p(m) then multiset(recs)[m] else 0 {
          WhereCount(recs, p, m);
        }
      }
      Where(recs, p)
  }

  /** movie.py:136. */
  function ByYear(recs: seq<ScoredMovie>, lo: int, hi: int): (r: seq<ScoredMovie>)
    ensures IsSubsequence(r, recs)
    ensures forall m :: multiset(r)[m] == if YearMatches(lo, hi, m) then multiset(recs)[m] else 0
  {
    var p := (m: ScoredMovie) => YearMatches(lo, hi, m);
    WhereIsSubsequence(recs, p);
    assert forall m :: multiset(Where(recs, p))[m] == if p(m) then multiset(recs)[m] else 0 by {
      forall m ensures multiset(Where(recs, p))[m] == if p(m) then multiset(recs)[m] else 0 {
        WhereCount(recs, p, m);
      }
    }
    Where(recs, p)
  }

  /** movie.py:137. */
  function ByScore(recs: seq<ScoredMovie>, minRating: real): (r: seq<ScoredMovie>)
    ensures IsSubsequence(r, recs)
    ensures forall m :: multiset(r)[m] == if ScoreMatches(minRating, m) then multiset(recs)[m] else 0
  {
    var p := (m: ScoredMovie) => ScoreMatches(minRating, m);
    WhereIsSubsequence(recs, p);
    assert forall m :: multiset(Where(recs, p))[m] == if p(m) then multiset(recs)[m] else 0 by {
      forall m ensures multiset(Where(recs, p))[m] == if p(m) then multiset(recs)[m] else 0 {
        WhereCount(recs, p, m);
      }
    }
    Where(recs, p)
  }

  /** movie.py:139-140. */
  function ByTitle(recs: seq<ScoredMovie>, search: string): (r: seq<ScoredMovie>)
    ensures search == "" ==> r == recs
    ensures IsSubsequence(r, recs)
    ensures forall m :: multiset(r)[m] == if TitleMatches(search, m) then multiset(recs)[m] else 0
  {
    if search == "" then
      SubsequenceReflexive(recs);
      recs
    else
      var p := (m: ScoredMovie) => m.Listed? && IsSubstring(Lower(search), Lower(m.title));
      WhereIsSubsequence(recs, p);
      assert forall m :: multiset(Where(recs, p))[m] == if p(m) then multiset(recs)[m] else 0 by {
        forall m ensures multiset(Where(recs, p))[m] == if p(m) then multiset(recs)[m] else 0 {
          WhereCount(recs, p, m);
        }
      }
      Where(recs, p)
  }

  /** The four steps in the order the page applies them, before the cut. */
  function Chain(recs: seq<ScoredMovie>, f: FilterParams): seq<ScoredMovie>
  {
    ByTitle(ByScore(ByYear(ByGenre(recs, f.genre), f.yearLo, f.yearHi), f.minRating), f.search)
  }

  /** Reference definition: one pass keeping the rows that pass every predicate. */
  function Filtered(recs: seq<ScoredMovie>, f: FilterParams): seq<ScoredMovie>
  {
    Where(recs, (m: ScoredMovie) => Passes(f, m))
  }

  lemma ChainConcat(a: seq<ScoredMovie>, b: seq<ScoredMovie>, f: FilterParams)
    ensures Chain(a + b, f) == Chain(a, f) + Chain(b, f)
  {
    var g := ByGenre(a + b, f.genre);
    if f.genre != AllGenres {
      WhereConcat(a, b, (m: ScoredMovie) => m.Listed? && IsSubstring(f.genre, m.genres));
    }
    assert g == ByGenre(a, f.genre) + ByGenre(b, f.genre);
    WhereConcat(ByGenre(a, f.genre), ByGenre(b, f.genre), (m: ScoredMovie) => YearMatches(f.yearLo, f.yearHi, m));
    var y := ByYear(g, f.yearLo, f.yearHi);
    var ya, yb := ByYear(ByGenre(a, f.genre), f.yearLo, f.yearHi), ByYear(ByGenre(b, f.genre), f.yearLo, f.yearHi);
    assert y == ya + yb;
    WhereConcat(ya, yb, (m: ScoredMovie) => ScoreMatches(f.minRating, m));
    var sa, sb := ByScore(ya, f.minRating), ByScore(yb, f.minRating);
    assert ByScore(y, f.minRating) == sa + sb;
    if f.search != "" {
      WhereConcat(sa, sb, (m: ScoredMovie) => m.Listed? && IsSubstring(Lower(f.search), Lower(m.title)));
    }
  }

  lemma ChainSingle(x: ScoredMovie, f: FilterParams)
    ensures Chain([x], f) == if Passes(f, x) then [x] else []
  {
    assert [x][1..] == [];
  }

  /** The order of the four predicate steps does not matter: together they keep exactly the rows passing all four. */
  lemma {:induction false} ChainIsConjunction(recs: seq<ScoredMovie>, f: FilterParams)
    ensures Chain(recs, f) == Filtered(recs, f)
    decreases |recs|
  {
    if recs != [] {
      assert recs == [recs[0]] + recs[1..];
      ChainConcat([recs[0]], recs[1..], f);
      ChainSingle(recs[0], f);
      ChainIsConjunction(recs[1..], f);
    }
  }

  /** movie.py:133-142: the whole chain, ending with `recs.head(top_n)`. */
  function ApplyFilters(recs: seq<ScoredMovie>, f: FilterParams): (r: seq<ScoredMovie>)
    ensures r == Head(Filtered(recs, f), f.topN)
    ensures IsSubsequence(r, recs)
    ensures forall m :: m in r ==> Passes(f, m)
    ensures 0 <= f.topN ==> |r| <= f.topN
    ensures SortedDesc(recs, RowScore) ==> SortedDesc(r, RowScore)
  {
    var kept := Chain(recs, f);
    ChainIsConjunction(recs, f);
    WhereIsSubsequence(recs, (m: ScoredMovie) => Passes(f, m));
    var r := Head(kept, f.topN);
    PrefixIsSubsequence(kept, |r|);
    SubsequenceTransitive(r, kept, recs);
    SortednessInherited(r, recs);
    r
  }

  lemma SortednessInherited(r: seq<ScoredMovie>, recs: seq<ScoredMovie>)
    requires IsSubsequence(r, recs)
    ensures SortedDesc(recs, RowScore) ==> SortedDesc(r, RowScore)
  {
    if SortedDesc(recs, RowScore) {
      SubsequenceOfSorted(r, recs, RowScore);
    }
  }

  /** With every predicate satisfied by every row, only the cut remains: the first min(top_n, |recs|) rows. */
  lemma OnlyTheCutRemains(recs: seq<ScoredMovie>, f: FilterParams)
    requires forall m :: m in recs ==> Passes(f, m)
    ensures ApplyFilters(recs, f) == recs[..HeadCount(|recs|, f.topN)]
  {
    var p := (m: ScoredMovie) => Passes(f, m);
    assert Where(recs, p) == recs by {
      WhereAcceptsAll(recs, p);
    }
  }

  lemma {:induction false} WhereAcceptsAll(s: seq<ScoredMovie>, p: ScoredMovie -> bool)
    requires forall m :: m in s ==> p(m)
    ensures Where(s, p) == s
    decreases |s|
  {
    if s != [] {
      assert forall m :: m in s[1..] ==> m in s;
      WhereAcceptsAll(s[1..], p);
    }
  }

  lemma {:induction false} WhereRejectsAll(s: seq<ScoredMovie>, p: ScoredMovie -> bool)
    requires forall m :: m in s ==> !p(m)
    ensures Where(s, p) == []
    decreases |s|
  {
    if s != [] {
      assert forall m :: m in s[1..] ==> m in s;
      WhereRejectsAll(s[1..], p);
    }
  }

  /** A minimum score above every score leaves nothing: an empty table, which is not a failure. */
  lemma MinRatingAboveAllScores(recs: seq<ScoredMovie>, f: FilterParams)
    requires forall m :: m in recs ==> m.score < f.minRating
    ensures ApplyFilters(recs, f) == []
  {
  }

  /** Rows with missing catalog fields never reach the table: the year filter drops them. */
  lemma UnlistedRowsShowNothing(recs: seq<ScoredMovie>, f: FilterParams)
    requires forall m :: m in recs ==> m.Unlisted?
    ensures ApplyFilters(recs, f) == []
  {
    WhereRejectsAll(recs, (m: ScoredMovie) => Passes(f, m));
  }

  /** The search "Matrix" finds "The Matrix (1999)" whatever the case ... */
  lemma MatrixTitleFound()
    ensures TitleMatches("Matrix", Listed(2571, "The Matrix (1999)", "Action|Sci-Fi|Thriller", Some(1999), 4.0))
  {
    var t := Lower("The Matrix (1999)");
    assert t == "the matrix (1999)";
    assert Lower("Matrix") == "matrix";
    assert OccursAt("matrix", t, 4);
    IsSubstringCharacterised("matrix", t);
  }

  /** ... and does not find "Matriarch (2005)", which lacks the substring. */
  lemma MatriarchTitleNotFound()
    ensures !TitleMatches("Matrix", Listed(1, "Matriarch (2005)", "Drama", Some(2005), 4.0))
  {
    var u := Lower("Matriarch (2005)");
    assert u == "matriarch (2005)";
    assert Lower("Matrix") == "matrix";
    assert forall k :: 0 <= k < |u| ==> u[k] != 'x';
    forall i | 0 <= i && i + 6 <= |u| ensures !OccursAt("matrix", u, i) {
      assert u[i..i + 6][5] == u[i + 5];
    }
    IsSubstringCharacterised("matrix", u);
  }
}
