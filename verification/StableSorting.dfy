/** The stable descending sort that both host languages provide, with the facts
    its two callers rely on. `atMost(a, b)` says that a's key is no larger than b's. */
module StableSorting {

  ghost predicate TotalPreorder<T(!new)>(atMost: (T, T) -> bool) {
    && (forall a, b :: atMost(a, b) || atMost(b, a))
    && (forall a, b, c :: atMost(a, b) && atMost(b, c) ==> atMost(a, c))
  }

  function Insert<T>(x: T, sorted: seq<T>, atMost: (T, T) -> bool): seq<T> {
    if sorted == [] then [x]
    else if atMost(sorted[0], x) then [x] + sorted
    else [sorted[0]] + Insert(x, sorted[1..], atMost)
  }

  function Sort<T>(s: seq<T>, atMost: (T, T) -> bool): seq<T> {
    if s == [] then [] else Insert(s[0], Sort(s[1..], atMost), atMost)
  }

  ghost predicate Descending<T>(s: seq<T>, atMost: (T, T) -> bool) {
    forall i, j | 0 <= i < j < |s| :: atMost(s[j], s[i])
  }

  /** The elements with the same key as `x`, in the order in which `s` lists them. */
  ghost function Peers<T>(s: seq<T>, x: T, atMost: (T, T) -> bool): seq<T> {
    if s == [] then []
    else (if atMost(x, s[0]) && atMost(s[0], x) then [s[0]] else []) + Peers(s[1..], x, atMost)
  }

  lemma {:induction false} InsertIsPermutation<T>(x: T, sorted: seq<T>, atMost: (T, T) -> bool)
    ensures multiset(Insert(x, sorted, atMost)) == multiset(sorted) + multiset{x}
  {
    if sorted != [] && !atMost(sorted[0], x) {
      InsertIsPermutation(x, sorted[1..], atMost);
      assert sorted == [sorted[0]] + sorted[1..];
    }
  }

  lemma {:induction false} DescendingCons<T>(x: T, s: seq<T>, atMost: (T, T) -> bool)
    requires Descending(s, atMost) && forall k | 0 <= k < |s| :: atMost(s[k], x)
    ensures Descending([x] + s, atMost)
  {
  }

  lemma {:induction false} OneIsDescending<T>(x: T, atMost: (T, T) -> bool)
    ensures Descending([x], atMost)
  {
  }

  lemma {:induction false} InsertDescending<T(!new)>(x: T, sorted: seq<T>, atMost: (T, T) -> bool)
    requires TotalPreorder(atMost) && Descending(sorted, atMost)
    ensures Descending(Insert(x, sorted, atMost), atMost)
  {
    hide Descending;
    if sorted == [] {
      OneIsDescending(x, atMost);
    } else if atMost(sorted[0], x) {
      HeadIsHighest(sorted, atMost);
      DescendingCons(x, sorted, atMost);
    } else {
      HeadIsHighest(sorted, atMost);
      InsertDescending(x, sorted[1..], atMost);
      InsertIsPermutation(x, sorted[1..], atMost);
      var tail := Insert(x, sorted[1..], atMost);
      forall k | 0 <= k < |tail|
        ensures atMost(tail[k], sorted[0])
      {
        assert tail[k] in multiset(tail);
        assert tail[k] == x || tail[k] in sorted[1..];
      }
      DescendingCons(sorted[0], tail, atMost);
    }
  }

  lemma {:induction false} HeadIsHighest<T(!new)>(sorted: seq<T>, atMost: (T, T) -> bool)
    requires TotalPreorder(atMost) && Descending(sorted, atMost) && sorted != []
    ensures forall k | 0 <= k < |sorted| :: atMost(sorted[k], sorted[0])
    ensures Descending(sorted[1..], atMost)
  {
  }

  function Peer<T>(h: T, x: T, atMost: (T, T) -> bool): seq<T> {
    if atMost(x, h) && atMost(h, x) then [h] else []
  }

  lemma {:induction false} PeersCons<T>(h: T, t: seq<T>, x: T, atMost: (T, T) -> bool)
    ensures Peers([h] + t, x, atMost) == Peer(h, x, atMost) + Peers(t, x, atMost)
  {
    assert ([h] + t)[1..] == t;
  }

  lemma {:induction false} InsertStable<T(!new)>(x: T, sorted: seq<T>, y: T, atMost: (T, T) -> bool)
    requires TotalPreorder(atMost)
    ensures Peers(Insert(x, sorted, atMost), y, atMost) == Peer(x, y, atMost) + Peers(sorted, y, atMost)
  {
    hide Peers;
    if sorted == [] || atMost(sorted[0], x) {
      PeersCons(x, sorted, y, atMost);
      assert sorted == [] ==> [x] + sorted == [x];
    } else {
      var h, rest := sorted[0], sorted[1..];
      assert sorted == [h] + rest;
      InsertStable(x, rest, y, atMost);
      PeersCons(h, Insert(x, rest, atMost), y, atMost);
      PeersCons(h, rest, y, atMost);
      assert Peer(h, y, atMost) == [] || Peer(x, y, atMost) == [];
    }
  }

  /** The result is descending, a permutation, and keeps equal keys in input order. */
  lemma {:induction false} SortIsStable<T(!new)>(s: seq<T>, atMost: (T, T) -> bool)
    requires TotalPreorder(atMost)
    ensures Descending(Sort(s, atMost), atMost)
    ensures multiset(Sort(s, atMost)) == multiset(s)
    ensures forall y :: Peers(Sort(s, atMost), y, atMost) == Peers(s, y, atMost)
  {
    if s != [] {
      var rest := Sort(s[1..], atMost);
      SortIsStable(s[1..], atMost);
      InsertDescending(s[0], rest, atMost);
      InsertIsPermutation(s[0], rest, atMost);
      assert s == [s[0]] + s[1..];
      assert s == [s[0]] + s[1..];
      forall y
        ensures Peers(Sort(s, atMost), y, atMost) == Peers(s, y, atMost)
      {
        InsertStable(s[0], rest, y, atMost);
        PeersCons(s[0], s[1..], y, atMost);
      }
    }
  }

  /** If all keys are equal, sorting changes nothing. */
  lemma {:induction false} SortedAlready<T(!new)>(s: seq<T>, atMost: (T, T) -> bool)
    requires forall i, j | 0 <= i < |s| && 0 <= j < |s| :: atMost(s[i], s[j])
    ensures Sort(s, atMost) == s
  {
    if |s| > 0 {
      SortedAlready(s[1..], atMost);
      assert s == [s[0]] + s[1..];
      if |s| > 1 {
        assert atMost(s[1..][0], s[0]);
      }
    }
  }

  // ----- Sorting keeps what holds of any two elements in either order

  ghost predicate Pairwise<T>(s: seq<T>, apart: (T, T) -> bool) {
    forall i, j | 0 <= i < j < |s| :: apart(s[i], s[j]) && apart(s[j], s[i])
  }

  lemma {:induction false} InsertMembers<T(!new)>(x: T, sorted: seq<T>, atMost: (T, T) -> bool)
    ensures |Insert(x, sorted, atMost)| == |sorted| + 1
    ensures forall y :: y in Insert(x, sorted, atMost) <==> y == x || y in sorted
  {
    if sorted != [] && !atMost(sorted[0], x) {
      InsertMembers(x, sorted[1..], atMost);
      assert sorted[0] in sorted;
      assert sorted == [sorted[0]] + sorted[1..];
    }
  }

  lemma {:induction false} InsertKeepsPairwise<T(!new)>(x: T, sorted: seq<T>, atMost: (T, T) -> bool, apart: (T, T) -> bool)
    requires Pairwise(sorted, apart)
    requires forall y | y in sorted :: apart(x, y) && apart(y, x)
    ensures Pairwise(Insert(x, sorted, atMost), apart)
  {
    if sorted == [] {
    } else if atMost(sorted[0], x) {
      PairwiseCons(x, sorted, apart);
    } else {
      InsertKeepsPairwise(x, sorted[1..], atMost, apart);
      InsertMembers(x, sorted[1..], atMost);
      var tail := Insert(x, sorted[1..], atMost);
      forall y | y in tail
        ensures apart(sorted[0], y) && apart(y, sorted[0])
      {
        assert sorted[0] in sorted;
        if y != x {
          var k :| 0 <= k < |sorted[1..]| && sorted[1..][k] == y;
          assert sorted[k + 1] == y;
        }
      }
      PairwiseCons(sorted[0], Insert(x, sorted[1..], atMost), apart);
    }
  }

  lemma {:induction false} PairwiseCons<T>(x: T, s: seq<T>, apart: (T, T) -> bool)
    requires Pairwise(s, apart) && forall y | y in s :: apart(x, y) && apart(y, x)
    ensures Pairwise([x] + s, apart)
  {
    forall i, j | 0 <= i < j < |[x] + s|
      ensures apart(([x] + s)[i], ([x] + s)[j]) && apart(([x] + s)[j], ([x] + s)[i])
    {
      assert s[j - 1] in s;
    }
  }

  lemma {:induction false} SortKeepsPairwise<T(!new)>(s: seq<T>, atMost: (T, T) -> bool, apart: (T, T) -> bool)
    requires Pairwise(s, apart)
    ensures Pairwise(Sort(s, atMost), apart)
    ensures |Sort(s, atMost)| == |s| && forall x :: x in Sort(s, atMost) <==> x in s
  {
    if s != [] {
      SortKeepsPairwise(s[1..], atMost, apart);
      assert forall y | y in s[1..] :: apart(s[0], y) && apart(y, s[0]);
      InsertMembers(s[0], Sort(s[1..], atMost), atMost);
      InsertKeepsPairwise(s[0], Sort(s[1..], atMost), atMost, apart);
      assert s == [s[0]] + s[1..];
    }
  }
}
