/** What sort.SliceStable does: sort by rank, keeping the order among equals. */
module Sorting {

  /** `x` goes after every element that does not outrank it. */
  function Insert<T>(s: seq<T>, x: T, rank: T -> int): seq<T> {
    if s == [] || rank(s[|s| - 1]) <= rank(x) then s + [x]
    else Insert(s[..|s| - 1], x, rank) + [s[|s| - 1]]
  }

  function SortBy<T>(s: seq<T>, rank: T -> int): seq<T> {
    if s == [] then [] else Insert(SortBy(s[..|s| - 1], rank), s[|s| - 1], rank)
  }

  ghost predicate Sorted<T>(s: seq<T>, rank: T -> int) {
    forall i, j :: 0 <= i < j < |s| ==> rank(s[i]) <= rank(s[j])
  }

  /** The elements of one rank, in order. */
  function OfRank<T>(s: seq<T>, rank: T -> int, k: int): seq<T> {
    if s == [] then []
    else OfRank(s[..|s| - 1], rank, k) + if rank(s[|s| - 1]) == k then [s[|s| - 1]] else []
  }

  /** Where an insertion lands: after everything that does not outrank it, before what does. */
  lemma {:induction false} InsertLands<T>(s: seq<T>, x: T, rank: T -> int, j: nat)
    requires j <= |s| && (j > 0 ==> rank(s[j - 1]) <= rank(x))
    requires forall k :: j <= k < |s| ==> rank(x) < rank(s[k])
    ensures Insert(s, x, rank) == s[..j] + [x] + s[j..]
  {
    if j < |s| {
      var init := s[..|s| - 1];
      InsertLands(init, x, rank, j);
      assert init[..j] == s[..j] && s[j..] == init[j..] + [s[|s| - 1]];
    }
  }

  lemma {:induction false} LandingPlace<T>(s: seq<T>, x: T, rank: T -> int) returns (j: nat)
    ensures j <= |s| && (j > 0 ==> rank(s[j - 1]) <= rank(x))
    ensures forall k :: j <= k < |s| ==> rank(x) < rank(s[k])
  {
    if s == [] || rank(s[|s| - 1]) <= rank(x) {
      j := |s|;
    } else {
      j := LandingPlace(s[..|s| - 1], x, rank);
    }
  }

  lemma {:induction false} InsertIsPermutation<T>(s: seq<T>, x: T, rank: T -> int)
    ensures multiset(Insert(s, x, rank)) == multiset(s) + multiset{x}
  {
    if s != [] && rank(s[|s| - 1]) > rank(x) {
      InsertIsPermutation(s[..|s| - 1], x, rank);
      assert s == s[..|s| - 1] + [s[|s| - 1]];
    }
  }

  lemma InsertIsSorted<T>(s: seq<T>, x: T, rank: T -> int)
    requires Sorted(s, rank)
    ensures Sorted(Insert(s, x, rank), rank)
  {
    var j := LandingPlace(s, x, rank);
    InsertLands(s, x, rank, j);
    var r := s[..j] + [x] + s[j..];
    forall i, k | 0 <= i < k < |r| ensures rank(r[i]) <= rank(r[k]) {
      SplicedOrder(s, x, rank, j, i, k);
    }
  }

  lemma SplicedOrder<T>(s: seq<T>, x: T, rank: T -> int, j: nat, i: nat, k: nat)
    requires Sorted(s, rank) && j <= |s| && i < k <= |s|
    requires j > 0 ==> rank(s[j - 1]) <= rank(x)
    requires forall m :: j <= m < |s| ==> rank(x) < rank(s[m])
    ensures var r := s[..j] + [x] + s[j..]; rank(r[i]) <= rank(r[k])
  {
    var r := s[..j] + [x] + s[j..];
    assert r[i] == if i < j then s[i] else if i == j then x else s[i - 1];
    assert r[k] == if k < j then s[k] else if k == j then x else s[k - 1];
  }

  lemma {:induction false} InsertIsStable<T>(s: seq<T>, x: T, rank: T -> int, k: int)
    ensures OfRank(Insert(s, x, rank), rank, k) == OfRank(s, rank, k) + if rank(x) == k then [x] else []
  {
    if s == [] || rank(s[|s| - 1]) <= rank(x) {
      assert (s + [x])[..|s|] == s;
    } else {
      InsertIsStable(s[..|s| - 1], x, rank, k);
      var rest := Insert(s[..|s| - 1], x, rank);
      assert (rest + [s[|s| - 1]])[..|rest|] == rest;
    }
  }

  /** The result is sorted, a permutation, and keeps every rank's elements in their order. */
  lemma {:induction false} SortByIsStableSort<T>(s: seq<T>, rank: T -> int)
    ensures Sorted(SortBy(s, rank), rank)
    ensures multiset(SortBy(s, rank)) == multiset(s)
    ensures SameRanks(SortBy(s, rank), s, rank)
  {
    if s != [] {
      var init, last := s[..|s| - 1], s[|s| - 1];
      assert s == init + [last];
      SortByIsStableSort(init, rank);
      InsertIsSorted(SortBy(init, rank), last, rank);
      InsertIsPermutation(SortBy(init, rank), last, rank);
      forall k ensures OfRank(SortBy(s, rank), rank, k) == OfRank(s, rank, k) {
        InsertIsStable(SortBy(init, rank), last, rank, k);
      }
    }
  }

  /** The elements satisfying `q`, in order. */
  function Where<T>(s: seq<T>, q: T -> bool): seq<T> {
    if s == [] then [] else Where(s[..|s| - 1], q) + if q(s[|s| - 1]) then [s[|s| - 1]] else []
  }

  lemma {:induction false} WhereWithinRank<T>(s: seq<T>, rank: T -> int, k: int, q: T -> bool)
    requires forall x :: q(x) ==> rank(x) == k
    ensures Where(OfRank(s, rank, k), q) == Where(s, q)
  {
    if s != [] {
      var before, last := OfRank(s[..|s| - 1], rank, k), s[|s| - 1];
      WhereWithinRank(s[..|s| - 1], rank, k, q);
      if rank(last) == k {
        assert (before + [last])[..|before|] == before;
      } else {
        assert OfRank(s, rank, k) == before;
      }
    }
  }

  /** Elements that tie keep their order. */
  lemma TiesKeepTheirOrder<T>(s: seq<T>, rank: T -> int, k: int, q: T -> bool)
    requires forall x :: q(x) ==> rank(x) == k
    ensures Where(SortBy(s, rank), q) == Where(s, q)
  {
    SortByIsStableSort(s, rank);
    WhereWithinRank(SortBy(s, rank), rank, k, q);
    WhereWithinRank(s, rank, k, q);
    assert OfRank(SortBy(s, rank), rank, k) == OfRank(s, rank, k);
  }

  lemma {:induction false} OfRankMembers<T>(s: seq<T>, rank: T -> int, k: int)
    ensures forall x :: x in OfRank(s, rank, k) <==> x in s && rank(x) == k
  {
    if s != [] {
      OfRankMembers(s[..|s| - 1], rank, k);
      assert s == s[..|s| - 1] + [s[|s| - 1]];
    }
  }

  ghost predicate SameRanks<T>(a: seq<T>, b: seq<T>, rank: T -> int) {
    forall k :: OfRank(a, rank, k) == OfRank(b, rank, k)
  }

  lemma NothingOfAnyRank<T>(s: seq<T>, rank: T -> int)
    requires SameRanks([], s, rank) || SameRanks(s, [], rank)
    ensures s == []
  {
    if s != [] {
      assert OfRank([], rank, rank(s[0])) == [];
      OfRankMembers(s, rank, rank(s[0]));
    }
  }

  lemma LastOfRank<T>(s: seq<T>, rank: T -> int)
    requires s != []
    ensures var init, x := s[..|s| - 1], s[|s| - 1];
            && OfRank(s, rank, rank(x)) == OfRank(init, rank, rank(x)) + [x]
            && forall k :: k != rank(x) ==> OfRank(s, rank, k) == OfRank(init, rank, k)
  {
  }

  /** The last element of a sorted list outranks nothing that any equally ranked list holds. */
  lemma LastIsGreatest<T>(a: seq<T>, b: seq<T>, rank: T -> int)
    requires a != [] && b != [] && Sorted(b, rank) && SameRanks(a, b, rank)
    ensures rank(a[|a| - 1]) <= rank(b[|b| - 1])
  {
    var x := a[|a| - 1];
    OfRankMembers(a, rank, rank(x));
    OfRankMembers(b, rank, rank(x));
    assert OfRank(a, rank, rank(x)) == OfRank(b, rank, rank(x));
    assert x in OfRank(b, rank, rank(x));
  }

  lemma SameRanksSameLast<T>(a: seq<T>, b: seq<T>, rank: T -> int)
    requires a != [] && b != [] && Sorted(a, rank) && Sorted(b, rank) && SameRanks(a, b, rank)
    ensures a[|a| - 1] == b[|b| - 1]
    ensures SameRanks(a[..|a| - 1], b[..|b| - 1], rank)
  {
    var x, y, a', b' := a[|a| - 1], b[|b| - 1], a[..|a| - 1], b[..|b| - 1];
    LastIsGreatest(a, b, rank);
    LastIsGreatest(b, a, rank);
    LastOfRank(a, rank);
    LastOfRank(b, rank);
    forall k ensures OfRank(a', rank, k) == OfRank(b', rank, k) && x == y {
      var top := rank(x);
      assert OfRank(a, rank, top) == OfRank(b, rank, top) && OfRank(a, rank, k) == OfRank(b, rank, k);
      SameEnds(OfRank(a', rank, top), x, OfRank(b', rank, top), y);
    }
  }

  lemma SameEnds<T>(p: seq<T>, x: T, q: seq<T>, y: T)
    requires p + [x] == q + [y]
    ensures p == q && x == y
  {
    assert (p + [x])[|p|] == (q + [y])[|q|];
    assert p == (p + [x])[..|p|] == (q + [y])[..|q|] == q;
  }

  /** No other sorted list keeps the order among equals, so any stable sort returns this one. */
  lemma {:induction false} StableSortIsUnique<T>(a: seq<T>, b: seq<T>, rank: T -> int)
    requires Sorted(a, rank) && Sorted(b, rank)
    requires SameRanks(a, b, rank)
    ensures a == b
  {
    if a == [] {
      NothingOfAnyRank(b, rank);
    } else if b == [] {
      NothingOfAnyRank(a, rank);
    } else {
      SameRanksSameLast(a, b, rank);
      StableSortIsUnique(a[..|a| - 1], b[..|b| - 1], rank);
      assert a == a[..|a| - 1] + [a[|a| - 1]] && b == b[..|b| - 1] + [b[|b| - 1]];
    }
  }

  /** a[i] sinks left past the elements that outrank it. */
  method Sink<T>(a: array<T>, i: nat, rank: T -> int)
    requires i < a.Length
    modifies a
    ensures a[..i + 1] == Insert(old(a[..i]), old(a[i]), rank)
    ensures a[i + 1..] == old(a[i + 1..])
  {
    ghost var s, x := a[..i], a[i];
    var j := i;
    while j > 0 && rank(a[j]) < rank(a[j - 1])
      invariant 0 <= j <= i && a[j] == x
      invariant forall k :: 0 <= k < j ==> a[k] == s[k]
      invariant forall k :: j < k <= i ==> a[k] == s[k - 1]
      invariant forall k :: j <= k < i ==> rank(x) < rank(s[k])
      invariant forall k :: i < k < a.Length ==> a[k] == old(a[k])
    {
      a[j], a[j - 1] := a[j - 1], a[j];
      j := j - 1;
    }
    InsertLands(s, x, rank, j);
    assert a[..i + 1] == s[..j] + [x] + s[j..];
  }

  /** Insertion sort in place. */
  method SortInPlace<T>(a: array<T>, rank: T -> int)
    modifies a
    ensures a[..] == SortBy(old(a[..]), rank)
  {
    ghost var was := a[..];
    for i := 0 to a.Length
      invariant a[..i] == SortBy(was[..i], rank) && a[i..] == was[i..]
    {
      assert a[i] == a[i..][0] == was[i] && a[i + 1..] == a[i..][1..] == was[i + 1..];
      Sink(a, i, rank);
      assert was[..i + 1][..i] == was[..i];
    }
    assert a[..] == a[..a.Length] && was[..a.Length] == was;
  }
}
