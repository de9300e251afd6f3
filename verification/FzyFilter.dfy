/** `hasMatch` and `filter` of fzy.js. */
module FzyFilter {
  import opened FzyTables
  import opened FzyMatcher
  import opened StableSorting

  /** Some embedding of the whole needle exists. */
  ghost predicate HasEmbedding(needle: string, haystack: string) {
    exists e :: EmbedsAll(Query(needle, haystack, []), e)
  }

  /** The host's indexOf: the first position of `c` from `from` on, or -1. */
  function IndexOf(haystack: string, c: char, from: nat): (pos: int)
    requires from <= |haystack|
    ensures pos == -1 || (from <= pos < |haystack| && haystack[pos] == c)
    ensures forall p | from <= p < if pos == -1 then |haystack| else pos :: haystack[p] != c
    decreases |haystack| - from
  {
    if from == |haystack| then -1
    else if haystack[from] == c then from
    else IndexOf(haystack, c, from + 1)
  }

  /** Taking the leftmost position each time never loses an embedding. */
  method HasMatch(needle: string, haystack: string) returns (found: bool)
    ensures found <==> HasEmbedding(needle, haystack)
  {
    ghost var q := Query(needle, haystack, []);
    ghost var g: seq<nat> := [];
    var j := 0;
    for i := 0 to |needle|
      invariant j <= |haystack|
      invariant |g| == i && Embeds(q, g) && j == if i == 0 then 0 else g[i - 1] + 1
      invariant forall e | EmbedsAll(q, e) :: i > 0 ==> j <= e[i - 1] + 1
    {
      var pos := IndexOf(haystack, needle[i], j);
      forall e | EmbedsAll(q, e)
        ensures pos != -1 && pos <= e[i]
      {
        assert i > 0 ==> e[i - 1] < e[i];
        assert haystack[e[i]] == needle[i];
      }
      if pos == -1 {
        return false;
      }
      g := g + [pos];
      j := pos + 1;
    }
    assert EmbedsAll(q, g);
    return true;
  }

  /** The filter and the scorer agree on what matches. */
  lemma {:induction false} MatchedIffScored(casing: Casing, needle: string, haystack: string)
    requires Scored(needle, haystack)
    ensures HasEmbedding(needle, haystack) <==> ScoreOf(casing, needle, haystack) != Min
  {
    hide M, IsBestScore, EmbedsAll;
    var q := MakeQuery(casing, needle, haystack);
    FinalCellIsBest(q);
    BonusesDoNotMatter(q);
  }

  /** Which embeddings there are depends on the two strings alone. */
  lemma {:induction false} BonusesDoNotMatter(q: Query)
    ensures HasEmbedding(q.needle, q.haystack) <==> exists e :: EmbedsAll(q, e)
  {
    var bare := Query(q.needle, q.haystack, []);
    if e :| EmbedsAll(bare, e) {
      assert EmbedsAll(q, e);
    }
    if e :| EmbedsAll(q, e) {
      assert EmbedsAll(bare, e);
    }
  }

  lemma {:induction false} EmbeddingIsSpread(q: Query, e: seq<nat>, k: nat)
    requires Embeds(q, e) && k < |e|
    ensures k <= e[k]
    ensures e[k] <= |q.haystack| - |e| + k
    decreases |e| - k
  {
    if k > 0 {
      EmbeddingIsSpreadBelow(q, e, k);
    }
    if k + 1 < |e| {
      EmbeddingIsSpread(q, e, k + 1);
      assert e[(k + 1) - 1] < e[k + 1];
    }
  }

  lemma {:induction false} EmbeddingIsSpreadBelow(q: Query, e: seq<nat>, k: nat)
    requires Embeds(q, e) && k < |e|
    ensures k <= e[k]
  {
    if k > 0 {
      EmbeddingIsSpreadBelow(q, e, k - 1);
      assert e[k - 1] < e[k];
    }
  }

  /** Equal lengths leave only the identity embedding, which justifies SCORE_MAX
      and the identity answer of `positions`. */
  lemma {:induction false} EqualLengthsMatchOnlyThemselves(needle: string, haystack: string)
    requires |needle| == |haystack|
    ensures HasEmbedding(needle, haystack) <==> needle == haystack
  {
    var q := Query(needle, haystack, []);
    if HasEmbedding(needle, haystack) {
      var e :| EmbedsAll(q, e);
      forall k | 0 <= k < |needle|
        ensures needle[k] == haystack[k]
      {
        EmbeddingIsSpread(q, e, k);
      }
    } else if needle == haystack {
      var e := seq(|needle|, k requires 0 <= k < |needle| => k);
      assert EmbedsAll(q, e);
    }
  }

  // ----- filter

  datatype Ranked<T> = Ranked(item: T, score: Score)

  /** The order of the comparator b.score - a.score. */
  predicate ScoredAtMost<T>(a: Ranked<T>, b: Ranked<T>) {
    a.score.AtMost(b.score)
  }

  function Folded(casing: Casing, needle: string, s: string): string {
    if casing.toLower(needle) != needle then s else casing.toLower(s)
  }

  /** The matching items in input order, each with its score. */
  ghost function Kept<T>(casing: Casing, needle: string, items: seq<T>, selector: T -> string): seq<Ranked<T>> {
    if items == [] then []
    else
      var last := |items| - 1;
      var haystack := Folded(casing, needle, selector(items[last]));
      Kept(casing, needle, items[..last], selector)
      + (if HasEmbedding(needle, haystack) then [Ranked(items[last], ScoreOf(casing, needle, haystack))] else [])
  }

  /** A needle with a capital is matched as it is, any other against the lower-case item;
      scored is the same text. */
  ghost predicate IsHit<T>(casing: Casing, needle: string, item: T, selector: T -> string, r: Ranked<T>) {
    && r.item == item
    && if casing.toLower(needle) == needle then
         && HasEmbedding(needle, casing.toLower(selector(item)))
         && r.score == ScoreOf(casing, needle, casing.toLower(selector(item)))
       else
         HasEmbedding(needle, selector(item)) && r.score == ScoreOf(casing, needle, selector(item))
  }

  lemma {:induction false} KeptAreHits<T(!new)>(casing: Casing, needle: string, items: seq<T>, selector: T -> string)
    ensures forall r :: r in Kept(casing, needle, items, selector)
                   <==> exists i :: 0 <= i < |items| && IsHit(casing, needle, items[i], selector, r)
  {
    hide HasEmbedding, ScoreOf;
    if items != [] {
      var last := |items| - 1;
      KeptAreHits(casing, needle, items[..last], selector);
      forall r
        ensures r in Kept(casing, needle, items, selector)
           <==> exists i :: 0 <= i < |items| && IsHit(casing, needle, items[i], selector, r)
      {
        OneItemMore(casing, needle, items, selector, r);
      }
    }
  }

  lemma {:induction false} OneItemMore<T(!new)>(casing: Casing, needle: string, items: seq<T>, selector: T -> string, r: Ranked<T>)
    requires items != []
    requires var before := items[..|items| - 1];
             r in Kept(casing, needle, before, selector)
             <==> exists i :: 0 <= i < |before| && IsHit(casing, needle, before[i], selector, r)
    ensures r in Kept(casing, needle, items, selector)
       <==> exists i :: 0 <= i < |items| && IsHit(casing, needle, items[i], selector, r)
  {
    hide HasEmbedding, ScoreOf;
    var last := |items| - 1;
    var before := items[..last];
    if i :| 0 <= i < |before| && IsHit(casing, needle, before[i], selector, r) {
      assert IsHit(casing, needle, items[i], selector, r);
    }
    if i :| 0 <= i < |items| && IsHit(casing, needle, items[i], selector, r) {
      assert i < last ==> IsHit(casing, needle, before[i], selector, r);
    }
    assert r in Kept(casing, needle, items, selector)
      <==> r in Kept(casing, needle, before, selector) || IsHit(casing, needle, items[last], selector, r);
  }

  lemma {:induction false} SameMembers<T(!new)>(a: seq<T>, b: seq<T>)
    requires multiset(a) == multiset(b)
    ensures forall x :: x in a <==> x in b
  {
    forall x
      ensures x in a <==> x in b
    {
      assert x in a <==> x in multiset(a);
    }
  }

  /** The empty needle is in everything, with the lowest score. */
  lemma {:induction false} EmptyNeedleKeepsAll<T>(casing: Casing, items: seq<T>, selector: T -> string)
    requires casing.toLower("") == ""
    ensures var kept := Kept(casing, "", items, selector);
            |kept| == |items| && forall i | 0 <= i < |items| :: kept[i] == Ranked(items[i], Min)
  {
    if items != [] {
      var last := |items| - 1;
      EmptyNeedleKeepsAll(casing, items[..last], selector);
      var haystack := casing.toLower(selector(items[last]));
      assert EmbedsAll(Query("", haystack, []), []);
    }
  }

  /** Exactly the matching items survive, best score first, ties in input order. */
  method Filter<T(!new)>(casing: Casing, needle: string, items: seq<T>, selector: T -> string)
    returns (results: seq<Ranked<T>>)
    ensures Descending(results, ScoredAtMost)
    ensures multiset(results) == multiset(Kept(casing, needle, items, selector))
    ensures forall r :: Peers(results, r, ScoredAtMost) == Peers(Kept(casing, needle, items, selector), r, ScoredAtMost)
    ensures forall r :: r in results <==> exists i :: 0 <= i < |items| && IsHit(casing, needle, items[i], selector, r)
    ensures needle == "" && casing.toLower("") == "" ==>
              |results| == |items| && forall i | 0 <= i < |items| :: results[i] == Ranked(items[i], Min)
  {
    var isCaseSensitive := casing.toLower(needle) != needle;
    var actualNeedle := if isCaseSensitive then needle else casing.toLower(needle);
    results := [];
    for i := 0 to |items|
      invariant results == Kept(casing, needle, items[..i], selector)
    {
      assert items[..i + 1][..i] == items[..i];
      var haystack := if isCaseSensitive then selector(items[i]) else casing.toLower(selector(items[i]));
      var found := HasMatch(actualNeedle, haystack);
      if found {
        var score := ScoreMatch(casing, needle, haystack);
        results := results + [Ranked(items[i], score)];
      }
    }
    assert items[..|items|] == items;
    KeptAreHits(casing, needle, items, selector);
    ghost var kept := results;
    SortIsStable(results, ScoredAtMost);
    results := Sort(results, ScoredAtMost);
    SameMembers(results, kept);
    if needle == "" && casing.toLower("") == "" {
      EmptyNeedleKeepsAll(casing, items, selector);
      SortedAlready(kept, ScoredAtMost);
    }
  }
}
