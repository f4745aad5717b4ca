/** Stable sorting by a rank: sorted, a permutation, ties in their original order — and there is only
    one such sequence. */
module StableOrder {

  /** Places x behind everything that does not rank above it. */
  function Insert<T>(s: seq<T>, x: T, rank: T -> int): (r: seq<T>)
    ensures multiset(r) == multiset(s) + multiset{x} && |r| == |s| + 1
    decreases |s|
  {
    if s == [] || rank(s[|s| - 1]) <= rank(x) then s + [x]
    else
      assert s == s[..|s| - 1] + [s[|s| - 1]];
      Insert(s[..|s| - 1], x, rank) + [s[|s| - 1]]
  }

  function StableSort<T>(s: seq<T>, rank: T -> int): (r: seq<T>)
    ensures multiset(r) == multiset(s) && |r| == |s|
    decreases |s|
  {
    if s == [] then []
    else
      assert s == s[..|s| - 1] + [s[|s| - 1]];
      Insert(StableSort(s[..|s| - 1], rank), s[|s| - 1], rank)
  }

  predicate Sorted<T>(s: seq<T>, rank: T -> int) {
    forall i, j :: 0 <= i <= j < |s| ==> rank(s[i]) <= rank(s[j])
  }

  /** The elements of one rank, in order. */
  function OfRank<T>(s: seq<T>, rank: T -> int, k: int): seq<T>
    decreases |s|
  {
    if s == [] then []
    else OfRank(s[..|s| - 1], rank, k) + if rank(s[|s| - 1]) == k then [s[|s| - 1]] else []
  }

  lemma OfRankSnoc<T>(s: seq<T>, x: T, rank: T -> int, k: int)
    ensures OfRank(s + [x], rank, k) == OfRank(s, rank, k) + if rank(x) == k then [x] else []
  {
    assert (s + [x])[..|s|] == s;
  }

  lemma SortedSnoc<T>(s: seq<T>, x: T, rank: T -> int)
    requires Sorted(s, rank) && (s != [] ==> rank(s[|s| - 1]) <= rank(x))
    ensures Sorted(s + [x], rank)
  {
    forall i, j | 0 <= i <= j < |s| + 1 ensures rank((s + [x])[i]) <= rank((s + [x])[j]) {
      if s != [] && i < |s| { assert rank(s[i]) <= rank(s[|s| - 1]); }
    }
  }

  lemma {:induction false} InsertSorts<T>(s: seq<T>, x: T, rank: T -> int)
    requires Sorted(s, rank)
    ensures Sorted(Insert(s, x, rank), rank)
    ensures var r := Insert(s, x, rank); r[|r| - 1] == x || (s != [] && r[|r| - 1] == s[|s| - 1])
    decreases |s|
  {
    if s == [] || rank(s[|s| - 1]) <= rank(x) {
      SortedSnoc(s, x, rank);
    } else {
      var s0, y := s[..|s| - 1], s[|s| - 1];
      InsertSorts(s0, x, rank);
      if s0 != [] { assert rank(s0[|s0| - 1]) <= rank(s[|s| - 1]); }
      SortedSnoc(Insert(s0, x, rank), y, rank);
    }
  }

  lemma {:induction false} InsertKeepsTies<T>(s: seq<T>, x: T, rank: T -> int, k: int)
    requires Sorted(s, rank)
    ensures OfRank(Insert(s, x, rank), rank, k) == OfRank(s + [x], rank, k)
    decreases |s|
  {
    hide OfRank;
    if s != [] && rank(s[|s| - 1]) > rank(x) {
      var s0, y := s[..|s| - 1], s[|s| - 1];
      assert s == s0 + [y];
      InsertKeepsTies(s0, x, rank, k);
      OfRankSnoc(s0, y, rank, k);
      OfRankSnoc(Insert(s0, x, rank), y, rank, k);
      OfRankSnoc(s0, x, rank, k);
      OfRankSnoc(s, x, rank, k);
    }
  }

  /** The result is sorted and keeps the order of equal ranks. */
  lemma {:induction false} SortMeaning<T>(s: seq<T>, rank: T -> int, k: int)
    ensures Sorted(StableSort(s, rank), rank) && OfRank(StableSort(s, rank), rank, k) == OfRank(s, rank, k)
    decreases |s|
  {
    if s != [] {
      var s0, x := s[..|s| - 1], s[|s| - 1];
      SortMeaning(s0, rank, k);
      InsertSorts(StableSort(s0, rank), x, rank);
      InsertKeepsTies(StableSort(s0, rank), x, rank, k);
      OfRankSnoc(StableSort(s0, rank), x, rank, k);
    }
  }

  lemma {:induction false} LastOfRank<T>(s: seq<T>, rank: T -> int)
    requires s != []
    ensures var k := rank(s[|s| - 1]); var f := OfRank(s, rank, k); f != [] && f[|f| - 1] == s[|s| - 1]
  {}

  lemma {:induction false} OfRankFrom<T>(s: seq<T>, rank: T -> int, k: int)
    requires OfRank(s, rank, k) != []
    ensures exists i :: 0 <= i < |s| && rank(s[i]) == k
    decreases |s|
  {
    if rank(s[|s| - 1]) != k {
      OfRankFrom(s[..|s| - 1], rank, k);
      var i :| 0 <= i < |s| - 1 && rank(s[..|s| - 1][i]) == k;
      assert rank(s[i]) == k;
    }
  }

  lemma LastNotBelow<T>(s: seq<T>, t: seq<T>, rank: T -> int)
    requires Sorted(s, rank) && s != [] && t != []
    requires OfRank(s, rank, rank(t[|t| - 1])) == OfRank(t, rank, rank(t[|t| - 1]))
    ensures rank(t[|t| - 1]) <= rank(s[|s| - 1])
  {
    LastOfRank(t, rank);
    OfRankFrom(s, rank, rank(t[|t| - 1]));
  }

  lemma EmptyRanks<T>(t: seq<T>, rank: T -> int)
    requires forall k :: OfRank(t, rank, k) == []
    ensures t == []
  {
    if t != [] { LastOfRank(t, rank); }
  }

  lemma SameLast<T>(s: seq<T>, t: seq<T>, rank: T -> int)
    requires Sorted(s, rank) && Sorted(t, rank) && s != [] && t != [] && forall k :: OfRank(s, rank, k) == OfRank(t, rank, k)
    ensures s[|s| - 1] == t[|t| - 1]
  {
    hide OfRank;
    LastNotBelow(s, t, rank);
    LastNotBelow(t, s, rank);
    LastOfRank(s, rank);
    LastOfRank(t, rank);
  }

  lemma ButLast<T>(s: seq<T>, t: seq<T>, x: T, rank: T -> int, k: int)
    requires OfRank(s + [x], rank, k) == OfRank(t + [x], rank, k)
    ensures OfRank(s, rank, k) == OfRank(t, rank, k)
  {
    hide OfRank;
    OfRankSnoc(s, x, rank, k);
    OfRankSnoc(t, x, rank, k);
    var a, b, y := OfRank(s, rank, k), OfRank(t, rank, k), if rank(x) == k then [x] else [];
    assert a == (a + y)[..|a|] && b == (b + y)[..|b|];
  }

  /** Sorted sequences with the same elements of each rank are equal. */
  lemma {:induction false} SortUnique<T>(s: seq<T>, t: seq<T>, rank: T -> int)
    requires Sorted(s, rank) && Sorted(t, rank) && forall k :: OfRank(s, rank, k) == OfRank(t, rank, k)
    ensures s == t
    decreases |s|
  {
    if s == [] {
      EmptyRanks(t, rank);
    } else if t == [] {
      EmptyRanks(s, rank);
    } else {
      hide OfRank;
      SameLast(s, t, rank);
      var s0, t0, x := s[..|s| - 1], t[..|t| - 1], s[|s| - 1];
      assert s == s0 + [x] && t == t0 + [x];
      forall k ensures OfRank(s0, rank, k) == OfRank(t0, rank, k) { ButLast(s0, t0, x, rank, k); }
      SortUnique(s0, t0, rank);
    }
  }

  lemma SortOfSorted<T>(s: seq<T>, rank: T -> int)
    requires Sorted(s, rank)
    ensures StableSort(s, rank) == s
  {
    forall k ensures OfRank(StableSort(s, rank), rank, k) == OfRank(s, rank, k) { SortMeaning(s, rank, k); }
    SortMeaning(s, rank, 0);
    SortUnique(StableSort(s, rank), s, rank);
  }
}
