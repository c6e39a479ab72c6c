/**
 * Sequence operations that stand for the pandas primitives the recommender
 * uses on its frames: boolean-mask selection, `head`, `sort_values`, and the
 * literal substring test behind `str.contains`.
 */
module Seqs {

  // ---------- Subsequences ----------

  /** `a` can be obtained from `b` by deleting elements, keeping the order of the rest. */
  ghost predicate IsSubsequence<T>(a: seq<T>, b: seq<T>)
    decreases |b|
  {
    a == [] ||
    (b != [] && ((a[0] == b[0] && IsSubsequence(a[1..], b[1..])) || IsSubsequence(a, b[1..])))
  }

  lemma {:induction false} SubsequenceReflexive<T>(s: seq<T>)
    ensures IsSubsequence(s, s)
    decreases |s|
  {
    if s != [] { SubsequenceReflexive(s[1..]); }
  }

  lemma {:induction false} SubsequenceElements<T>(a: seq<T>, b: seq<T>)
    requires IsSubsequence(a, b)
    ensures forall x :: x in a ==> x in b
    decreases |b|
  {
    if a != [] {
      if a[0] == b[0] && IsSubsequence(a[1..], b[1..]) {
        SubsequenceElements(a[1..], b[1..]);
        assert forall x :: x in a ==> x == a[0] || x in a[1..];
      } else {
        SubsequenceElements(a, b[1..]);
      }
    }
  }

  lemma {:induction false} SubsequenceTransitive<T>(a: seq<T>, b: seq<T>, c: seq<T>)
    requires IsSubsequence(a, b) && IsSubsequence(b, c)
    ensures IsSubsequence(a, c)
    decreases |c|
  {
    if a != [] {
      if IsSubsequence(b, c[1..]) {
        SubsequenceTransitive(a, b, c[1..]);
      } else if a[0] == b[0] && IsSubsequence(a[1..], b[1..]) {
        SubsequenceTransitive(a[1..], b[1..], c[1..]);
      } else {
        SubsequenceTransitive(a, b[1..], c[1..]);
      }
    }
  }

  lemma {:induction false} PrefixIsSubsequence<T>(s: seq<T>, k: nat)
    requires k <= |s|
    ensures IsSubsequence(s[..k], s)
    decreases |s|
  {
    if k > 0 {
      PrefixIsSubsequence(s[1..], k - 1);
      assert s[..k][1..] == s[1..][..k - 1];
    }
  }

  // ---------- Boolean-mask selection: frame[mask] ----------

  /** The rows of `s` that `p` accepts, in their original order. */
  function Where<T>(s: seq<T>, p: T -> bool): (r: seq<T>)
    ensures |r| <= |s|
    ensures forall i :: 0 <= i < |r| ==> p(r[i])
  {
    if s == [] then []
    else if p(s[0]) then [s[0]] + Where(s[1..], p)
    else Where(s[1..], p)
  }

  /** `Where` keeps an order-preserving subsequence ... */
  lemma {:induction false} WhereIsSubsequence<T>(s: seq<T>, p: T -> bool)
    ensures IsSubsequence(Where(s, p), s)
    decreases |s|
  {
    if s != [] {
      WhereIsSubsequence(s[1..], p);
      var r := Where(s, p);
      if p(s[0]) {
        assert r[0] == s[0] && r[1..] == Where(s[1..], p);
      }
    }
  }

  /** ... holding every accepted row as often as the input does, and no rejected one. */
  lemma {:induction false} WhereCount<T>(s: seq<T>, p: T -> bool, x: T)
    ensures multiset(Where(s, p))[x] == if p(x) then multiset(s)[x] else 0
    decreases |s|
  {
    if s != [] {
      WhereCount(s[1..], p, x);
      assert s == [s[0]] + s[1..];
    }
  }

  lemma {:induction false} WhereConcat<T>(a: seq<T>, b: seq<T>, p: T -> bool)
    ensures Where(a + b, p) == Where(a, p) + Where(b, p)
    decreases |a|
  {
    if a != [] {
      assert (a + b)[1..] == a[1..] + b;
      WhereConcat(a[1..], b, p);
    } else {
      assert a + b == b;
    }
  }

  // ---------- head(n) ----------

  /** Number of rows pandas' `head(n)` keeps of `len` rows; a negative `n` drops the last `-n`. */
  function HeadCount(len: nat, n: int): (k: nat)
    ensures k <= len
    ensures 0 <= n ==> k <= n
    ensures 0 <= n <= len ==> k == n
    ensures len <= n ==> k == len
  {
    if 0 <= n then (if n < len then n else len)
    else if len + n > 0 then len + n else 0
  }

  function Head<T>(s: seq<T>, n: int): (r: seq<T>)
    ensures |r| == HeadCount(|s|, n)
    ensures r == s[..|r|]
  {
    s[..HeadCount(|s|, n)]
  }

  // ---------- sort_values(ascending=False) ----------

  /** Non-increasing by `key`. */
  ghost predicate SortedDesc<T>(s: seq<T>, key: T -> real)
  {
    forall i, j :: 0 <= i < j < |s| ==> key(s[j]) <= key(s[i])
  }

  /** One column of a sequence of rows: the sort key, the score, the catalog part. */
  function Keys<T, K>(s: seq<T>, key: T -> K): (r: seq<K>)
    ensures |r| == |s|
    ensures forall i :: 0 <= i < |s| ==> r[i] == key(s[i])
  {
    seq(|s|, i requires 0 <= i < |s| => key(s[i]))
  }

  /** Rearranging the rows rearranges any column of them the same way. */
  lemma {:induction false} KeysPermutation<T, K>(a: seq<T>, b: seq<T>, key: T -> K)
    requires multiset(a) == multiset(b)
    ensures multiset(Keys(a, key)) == multiset(Keys(b, key))
    decreases |a|
  {
    if a == [] {
      assert |b| == |multiset(b)| == 0;
    } else {
      assert a[0] in multiset(b);
      var i :| 0 <= i < |b| && b[i] == a[0];
      var x, rest := a[0], b[..i] + b[i + 1..];
      RemoveAt(b, i);
      RemoveAt(a, 0);
      assert a[..0] + a[1..] == a[1..];
      MultisetCancel(multiset(a[1..]), multiset(rest), x);
      KeysPermutation(a[1..], rest, key);
      PermutationStep(a, b, i, key);
    }
  }

  lemma PermutationStep<T, K>(a: seq<T>, b: seq<T>, i: nat, key: T -> K)
    requires 0 < |a| && i < |b| && b[i] == a[0]
    requires multiset(Keys(a[1..], key)) == multiset(Keys(b[..i] + b[i + 1..], key))
    ensures multiset(Keys(a, key)) == multiset(Keys(b, key))
  {
    var ka := Keys(a, key);
    assert ka == [key(a[0])] + Keys(a[1..], key);
    RemoveAtKeys(b, i, key);
  }

  lemma MultisetCancel<T>(p: multiset<T>, q: multiset<T>, x: T)
    requires p + multiset{x} == q + multiset{x}
    ensures p == q
  {
    assert p == (p + multiset{x}) - multiset{x};
    assert q == (q + multiset{x}) - multiset{x};
  }

  /** Removing the row at position i removes one copy of it. */
  lemma RemoveAt<T>(b: seq<T>, i: nat)
    requires i < |b|
    ensures multiset(b) == multiset(b[..i] + b[i + 1..]) + multiset{b[i]}
  {
    assert b == b[..i] + [b[i]] + b[i + 1..];
  }

  /** Removing the row at position i removes one copy of its column value. */
  lemma RemoveAtKeys<T, K>(b: seq<T>, i: nat, key: T -> K)
    requires i < |b|
    ensures multiset(Keys(b, key)) == multiset(Keys(b[..i] + b[i + 1..], key)) + multiset{key(b[i])}
  {
    var ks := Keys(b, key);
    assert Keys(b[..i] + b[i + 1..], key) == ks[..i] + ks[i + 1..];
    RemoveAt(ks, i);
  }

  lemma KeysConcat<T>(a: seq<T>, b: seq<T>, key: T -> real)
    ensures Keys(a + b, key) == Keys(a, key) + Keys(b, key)
  {
  }

  function Insert<T>(x: T, s: seq<T>, key: T -> real): (r: seq<T>)
    ensures |r| == |s| + 1
  {
    if s == [] then [x]
    else if key(s[0]) <= key(x) then [x] + s
    else [s[0]] + Insert(x, s[1..], key)
  }

  lemma {:induction false} InsertPermutes<T>(x: T, s: seq<T>, key: T -> real)
    ensures multiset(Insert(x, s, key)) == multiset(s) + multiset{x}
    ensures multiset(Keys(Insert(x, s, key), key)) == multiset(Keys(s, key)) + multiset{key(x)}
    decreases |s|
  {
    var r := Insert(x, s, key);
    if s == [] {
      assert Keys(r, key) == [key(x)];
    } else {
      KeysCons(r, key);
      if key(s[0]) <= key(x) {
        assert r[1..] == s;
      } else {
        assert r[1..] == Insert(x, s[1..], key);
        InsertPermutes(x, s[1..], key);
        KeysCons(s, key);
        assert s == [s[0]] + s[1..];
      }
    }
  }

  lemma {:induction false} InsertElements<T>(x: T, s: seq<T>, key: T -> real)
    ensures forall y :: y in Insert(x, s, key) ==> y == x || y in s
    decreases |s|
  {
    if s != [] && key(x) < key(s[0]) {
      InsertElements(x, s[1..], key);
    }
  }

  lemma {:induction false} InsertSorted<T>(x: T, s: seq<T>, key: T -> real)
    requires SortedDesc(s, key)
    ensures SortedDesc(Insert(x, s, key), key)
    decreases |s|
  {
    if s != [] && key(x) < key(s[0]) {
      var rest := Insert(x, s[1..], key);
      InsertSorted(x, s[1..], key);
      InsertElements(x, s[1..], key);
      var r := [s[0]] + rest;
      assert r == Insert(x, s, key);
      forall i, j | 0 <= i < j < |r| ensures key(r[j]) <= key(r[i]) {
        if i > 0 {
          assert r[i] == rest[i - 1] && r[j] == rest[j - 1];
        } else {
          assert r[j] in rest;
        }
      }
    }
  }

  /**
   * One particular descending sort. pandas' default quicksort does not fix the
   * order of equal keys, so only sortedness and the permutation property are
   * stated about it.
   */
  function SortDesc<T>(s: seq<T>, key: T -> real): (r: seq<T>)
    ensures SortedDesc(r, key)
    ensures multiset(r) == multiset(s)
    ensures |r| == |s|
  {
    if s == [] then []
    else
      var sortedRest := SortDesc(s[1..], key);
      InsertSorted(s[0], sortedRest, key);
      InsertPermutes(s[0], sortedRest, key);
      assert s == [s[0]] + s[1..];
      Insert(s[0], sortedRest, key)
  }

  /** Sorting rows permutes their key column too. */
  lemma {:induction false} SortDescKeys<T>(s: seq<T>, key: T -> real)
    ensures multiset(Keys(SortDesc(s, key), key)) == multiset(Keys(s, key))
    decreases |s|
  {
    if s != [] {
      var rest := SortDesc(s[1..], key);
      SortDescKeys(s[1..], key);
      InsertPermutes(s[0], rest, key);
      KeysCons(s, key);
    }
  }

  lemma KeysCons<T>(s: seq<T>, key: T -> real)
    requires s != []
    ensures multiset(Keys(s, key)) == multiset(Keys(s[1..], key)) + multiset{key(s[0])}
  {
    assert Keys(s, key) == [key(s[0])] + Keys(s[1..], key);
  }

  // ---------- Top-k ----------

  /**
   * `m` is the multiset of the `k` largest values of `pool` (or all of them when
   * there are fewer): it is drawn from `pool`, has the right size, and nothing
   * left behind exceeds anything taken.
   */
  ghost predicate IsTopK(m: multiset<real>, pool: multiset<real>, k: nat)
  {
    && m <= pool
    && |m| == (if k < |pool| then k else |pool|)
    && forall x, y :: x in m && y in pool - m ==> y <= x
  }

  lemma MultisetSplit(a: seq<real>, b: seq<real>)
    ensures multiset(a + b) - multiset(a) == multiset(b)
  {
    assert multiset(a + b) == multiset(a) + multiset(b);
  }

  lemma {:induction false} SortedPrefixIsTopK<T>(s: seq<T>, key: T -> real, k: nat)
    requires SortedDesc(s, key)
    requires k <= |s|
    ensures IsTopK(multiset(Keys(s[..k], key)), multiset(Keys(s, key)), k)
  {
    assert s == s[..k] + s[k..];
    KeysConcat(s[..k], s[k..], key);
    var top, low := Keys(s[..k], key), Keys(s[k..], key);
    var m, pool := multiset(top), multiset(Keys(s, key));
    assert Keys(s, key) == top + low;
    MultisetSplit(top, low);
    assert pool - m == multiset(low);
    assert m <= pool;
    assert |m| == k && |pool| == |s|;
    forall x, y | x in m && y in pool - m
      ensures y <= x
    {
      assert x in top && y in low;
      var i :| 0 <= i < |top| && top[i] == x;
      var j :| 0 <= j < |low| && low[j] == y;
      assert s[..k][i] == s[i] && s[k..][j] == s[k + j];
      assert x == key(s[i]) && y == key(s[k + j]);
    }
  }

  lemma {:induction false} SubsequenceOfSorted<T>(a: seq<T>, b: seq<T>, key: T -> real)
    requires IsSubsequence(a, b) && SortedDesc(b, key)
    ensures SortedDesc(a, key)
    decreases |b|
  {
    if a != [] {
      assert SortedDesc(b[1..], key);
      if a[0] == b[0] && IsSubsequence(a[1..], b[1..]) {
        SubsequenceOfSorted(a[1..], b[1..], key);
        SubsequenceElements(a[1..], b[1..]);
        forall i, j | 0 <= i < j < |a| ensures key(a[j]) <= key(a[i]) {
          if i > 0 {
            assert a[j] == a[1..][j - 1] && a[i] == a[1..][i - 1];
          } else {
            assert a[j] in a[1..];
            var m :| 0 <= m < |b[1..]| && b[1..][m] == a[j];
            assert b[m + 1] == a[j];
          }
        }
      } else {
        SubsequenceOfSorted(a, b[1..], key);
      }
    }
  }

  // ---------- Literal substring and ASCII lower-casing ----------

  /** `pat` occurs in `s` starting at position `i`. */
  ghost predicate OccursAt(pat: string, s: string, i: int)
  {
    0 <= i && i + |pat| <= |s| && s[i..i + |pat|] == pat
  }

  /** `pat` occurs somewhere in `s`: the literal reading of `str.contains`. */
  predicate IsSubstring(pat: string, s: string)
    decreases |s|
  {
    (|pat| <= |s| && s[..|pat|] == pat) || (s != [] && IsSubstring(pat, s[1..]))
  }

  lemma {:induction false} IsSubstringCharacterised(pat: string, s: string)
    ensures IsSubstring(pat, s) <==> exists i :: OccursAt(pat, s, i)
    decreases |s|
  {
    if |pat| <= |s| && s[..|pat|] == pat {
      assert OccursAt(pat, s, 0);
    }
    if s != [] {
      IsSubstringCharacterised(pat, s[1..]);
      if IsSubstring(pat, s[1..]) {
        var i :| OccursAt(pat, s[1..], i);
        assert s[1..][i..i + |pat|] == s[i + 1..i + 1 + |pat|];
        assert OccursAt(pat, s, i + 1);
      }
      if exists i :: OccursAt(pat, s, i) {
        var i :| OccursAt(pat, s, i);
        if i > 0 {
          assert s[1..][i - 1..i - 1 + |pat|] == s[i..i + |pat|];
          assert OccursAt(pat, s[1..], i - 1);
        }
      }
    }
  }

  function LowerChar(c: char): char
  {
    if 'A' <= c <= 'Z' then (c as int - 'A' as int + 'a' as int) as char else c
  }

  /** ASCII lower-casing of every character. */
  function Lower(s: string): (r: string)
    ensures |r| == |s|
    ensures forall i :: 0 <= i < |s| ==> r[i] == LowerChar(s[i])
  {
    seq(|s|, i requires 0 <= i < |s| => LowerChar(s[i]))
  }
}
