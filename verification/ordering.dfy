/** A stable sort by a numeric key. It stands for the two orderings the
    services ask for: `Array.prototype.sort` with a comparator (stable since
    ES2019) and a query's `orderBy`. */
module Ordering {

  /** Puts `x` before the first element whose key is not smaller than its own. */
  function InsertBy<T>(x: T, s: seq<T>, key: T -> real): seq<T> {
    if s == [] || key(x) <= key(s[0]) then [x] + s
    else [s[0]] + InsertBy(x, s[1..], key)
  }

  /** Insertion sort by ascending key; an element goes before every later
      element of equal key, so the sort is stable. */
  function SortBy<T>(s: seq<T>, key: T -> real): seq<T> {
    if s == [] then [] else InsertBy(s[0], SortBy(s[1..], key), key)
  }

  ghost predicate Ascending<T>(s: seq<T>, key: T -> real) {
    forall i, j :: 0 <= i < j < |s| ==> key(s[i]) <= key(s[j])
  }

  /** Elements of equal key appear in increasing `rank`. */
  ghost predicate TiesByRank<T>(s: seq<T>, key: T -> real, rank: T -> int) {
    forall i, j :: 0 <= i < j < |s| && key(s[i]) == key(s[j]) ==> rank(s[i]) < rank(s[j])
  }

  lemma {:induction false} InsertByPermutes<T>(x: T, s: seq<T>, key: T -> real)
    ensures multiset(InsertBy(x, s, key)) == multiset(s) + multiset{x}
    ensures |InsertBy(x, s, key)| == |s| + 1
  {
    if s != [] && key(x) > key(s[0]) {
      InsertByPermutes(x, s[1..], key);
      assert s == [s[0]] + s[1..];
    }
  }

  lemma AscendingCons<T>(x: T, u: seq<T>, key: T -> real)
    requires Ascending(u, key)
    requires forall y :: y in u ==> key(x) <= key(y)
    ensures Ascending([x] + u, key)
  {
    var r := [x] + u;
    forall i, j | 0 <= i < j < |r| ensures key(r[i]) <= key(r[j]) {
      if i == 0 { assert r[j] == u[j - 1]; assert r[j] in u; }
      else { assert r[i] == u[i - 1] && r[j] == u[j - 1]; }
    }
  }

  lemma {:induction false} InsertByAscending<T>(x: T, s: seq<T>, key: T -> real)
    requires Ascending(s, key)
    ensures Ascending(InsertBy(x, s, key), key)
  {
    if s != [] && key(x) > key(s[0]) {
      var t := s[1..];
      InsertByAscending(x, t, key);
      var u := InsertBy(x, t, key);
      forall y | y in u ensures key(s[0]) <= key(y) {
        InsertByMembers(x, t, key, y);
        if y != x {
          var k :| 0 <= k < |t| && t[k] == y;
          assert s[k + 1] == y;
        }
      }
      AscendingCons(s[0], u, key);
    } else {
      forall y | y in s ensures key(x) <= key(y) {
        var k :| 0 <= k < |s| && s[k] == y;
        if k > 0 { assert key(s[0]) <= key(s[k]); }
      }
      AscendingCons(x, s, key);
    }
  }

  lemma TiesByRankCons<T>(x: T, u: seq<T>, key: T -> real, rank: T -> int)
    requires TiesByRank(u, key, rank)
    requires forall y :: y in u && key(y) == key(x) ==> rank(x) < rank(y)
    ensures TiesByRank([x] + u, key, rank)
  {
    var r := [x] + u;
    forall i, j | 0 <= i < j < |r| && key(r[i]) == key(r[j]) ensures rank(r[i]) < rank(r[j]) {
      if i == 0 { assert r[j] == u[j - 1]; assert r[j] in u; }
      else { assert r[i] == u[i - 1] && r[j] == u[j - 1]; }
    }
  }

  lemma InsertByMembers<T>(x: T, s: seq<T>, key: T -> real, y: T)
    requires y in InsertBy(x, s, key)
    ensures y == x || y in s
  {
    InsertByPermutes(x, s, key);
    assert y in multiset(InsertBy(x, s, key));
  }

  lemma {:induction false} InsertByTies<T>(x: T, s: seq<T>, key: T -> real, rank: T -> int)
    requires TiesByRank(s, key, rank)
    requires forall y :: y in s ==> rank(x) < rank(y)
    ensures TiesByRank(InsertBy(x, s, key), key, rank)
  {
    if s != [] && key(x) > key(s[0]) {
      var t := s[1..];
      assert TiesByRank(t, key, rank) by {
        forall i, j | 0 <= i < j < |t| && key(t[i]) == key(t[j]) ensures rank(t[i]) < rank(t[j]) {
          assert t[i] == s[i + 1] && t[j] == s[j + 1];
        }
      }
      InsertByTies(x, t, key, rank);
      var u := InsertBy(x, t, key);
      forall y | y in u && key(y) == key(s[0]) ensures rank(s[0]) < rank(y) {
        InsertByMembers(x, t, key, y);
        var k :| 0 <= k < |t| && t[k] == y;
        assert s[k + 1] == y;
      }
      TiesByRankCons(s[0], u, key, rank);
    } else {
      TiesByRankCons(x, s, key, rank);
    }
  }

  /** The sort returns a permutation of its input. */
  lemma {:induction false} SortByPermutes<T>(s: seq<T>, key: T -> real)
    ensures multiset(SortBy(s, key)) == multiset(s)
    ensures |SortBy(s, key)| == |s|
  {
    if s != [] {
      SortByPermutes(s[1..], key);
      InsertByPermutes(s[0], SortBy(s[1..], key), key);
      assert s == [s[0]] + s[1..];
    }
  }

  /** The sort returns its input in ascending key order. */
  lemma {:induction false} SortByAscending<T>(s: seq<T>, key: T -> real)
    ensures Ascending(SortBy(s, key), key)
  {
    if s != [] {
      SortByAscending(s[1..], key);
      InsertByAscending(s[0], SortBy(s[1..], key), key);
    }
  }

  /** Stability: when the input is in increasing `rank` (for instance its
      original position or its start time), elements of equal key keep that
      order in the output. */
  lemma {:induction false} SortByStable<T>(s: seq<T>, key: T -> real, rank: T -> int)
    requires forall i, j :: 0 <= i < j < |s| ==> rank(s[i]) < rank(s[j])
    ensures TiesByRank(SortBy(s, key), key, rank)
  {
    if s != [] {
      var t := s[1..];
      forall i, j | 0 <= i < j < |t| ensures rank(t[i]) < rank(t[j]) {
        assert t[i] == s[i + 1] && t[j] == s[j + 1];
      }
      SortByStable(t, key, rank);
      SortByPermutes(t, key);
      forall y | y in SortBy(t, key) ensures rank(s[0]) < rank(y) {
        assert y in multiset(SortBy(t, key));
        var k :| 0 <= k < |t| && t[k] == y;
        assert t[k] == s[k + 1];
      }
      InsertByTies(s[0], SortBy(t, key), key, rank);
    }
  }
}
