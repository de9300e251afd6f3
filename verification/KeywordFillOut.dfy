/** The weighing pass of KeywordLookupGenerator.py: full prefixes, weights and
    sibling order, proved to keep every keyword whatever the weights are. */
module KeywordFillOut {
  import opened StableSorting
  import opened KeywordTrie

  predicate WeighsAtMost(a: Trie, b: Trie) { a.weight <= b.weight }

  function Weight(weights: map<Word, int>, w: Word): int {
    if w in weights then weights[w] else 0
  }

  function SumWeights(keys: seq<Trie>): int {
    if keys == [] then 0 else keys[0].weight + SumWeights(keys[1..])
  }

  function FillOut(t: Trie, prefix: Word, weights: map<Word, int>): (r: Trie)
    ensures r.prefix == t.prefix && r.value == t.value
    decreases t, 1
  {
    var full := prefix + t.prefix;
    var filled := FillEach(t.keys, full, weights);
    Trie(t.prefix, t.value, Sort(filled, WeighsAtMost), full, Weight(weights, full) + SumWeights(filled))
  }

  function FillEach(keys: seq<Trie>, prefix: Word, weights: map<Word, int>): (r: seq<Trie>)
    ensures |r| == |keys|
    decreases keys, 0
  {
    if keys == [] then [] else [FillOut(keys[0], prefix, weights)] + FillEach(keys[1..], prefix, weights)
  }

  /** Every node below `t` knows the keyword prefix that leads to it. */
  ghost predicate Labelled(t: Trie)
    decreases t
  {
    forall c | c in t.keys :: c.fullPrefix == t.fullPrefix + c.prefix && Labelled(c)
  }

  ghost predicate BelowCoalesced(t: Trie) {
    forall c | c in t.keys :: Coalesced(c)
  }

  /** Heavier children are tested first. */
  ghost predicate Ordered(t: Trie)
    decreases t
  {
    Descending(t.keys, WeighsAtMost) && forall c | c in t.keys :: Ordered(c)
  }

  /** COMPARE_n exists for no n above 8. */
  ghost predicate EdgesFit(t: Trie)
    decreases t
  {
    forall c | c in t.keys :: |c.prefix| <= 8 && EdgesFit(c)
  }

  ghost predicate EdgesIn(t: Trie, fits: Unit -> bool)
    decreases t
  {
    forall c | c in t.keys :: (forall k | 0 <= k < |c.prefix| :: fits(c.prefix[k])) && EdgesIn(c, fits)
  }

  /** What fillOut keeps and adds. */
  ghost predicate Filled(t: Trie, r: Trie, prefix: Word, fits: Unit -> bool) {
    && r.prefix == t.prefix && r.fullPrefix == prefix + t.prefix
    && WellFormed(r) && Labelled(r) && Ordered(r)
    && SameShape(t, r, fits)
    && forall w :: Get(r, w) == Get(t, w)
  }

  lemma {:induction false} FillEachAt(keys: seq<Trie>, prefix: Word, weights: map<Word, int>)
    ensures forall k | 0 <= k < |keys| :: FillEach(keys, prefix, weights)[k] == FillOut(keys[k], prefix, weights)
  {
    if keys != [] {
      FillEachAt(keys[1..], prefix, weights);
      forall k | 1 <= k < |keys|
        ensures FillEach(keys, prefix, weights)[k] == FillOut(keys[k], prefix, weights)
      {
        assert FillEach(keys, prefix, weights)[k] == FillEach(keys[1..], prefix, weights)[k - 1];
      }
    }
  }

  lemma {:induction false} FillOutKeeps(t: Trie, prefix: Word, weights: map<Word, int>, fits: Unit -> bool)
    requires WellFormed(t)
    ensures Filled(t, FillOut(t, prefix, weights), prefix, fits)
    decreases t
  {
    var r := FillOut(t, prefix, weights);
    var full := prefix + t.prefix;
    var filled := FillEach(t.keys, full, weights);
    forall k | 0 <= k < |t.keys|
      ensures filled[k] == FillOut(t.keys[k], full, weights) && Filled(t.keys[k], filled[k], full, fits)
    {
      assert t.keys[k] in t.keys;
      FillEachAt(t.keys, full, weights);
      FillOutKeeps(t.keys[k], full, weights, fits);
    }
    FillSorted(t, r, filled, prefix, fits);
  }

  /** `sorted` lists the filled children of `keys` in some order. */
  ghost predicate Reorders(keys: seq<Trie>, filled: seq<Trie>, sorted: seq<Trie>, full: Word, fits: Unit -> bool) {
    && |keys| == |filled|
    && (forall k | 0 <= k < |keys| :: Filled(keys[k], filled[k], full, fits))
    && Pairwise(sorted, Apart)
    && (forall c | c in sorted :: exists k :: 0 <= k < |filled| && filled[k] == c)
    && (forall k | 0 <= k < |filled| :: filled[k] in sorted)
    && |sorted| == |filled|
  }

  lemma {:induction false} SortReorders(keys: seq<Trie>, filled: seq<Trie>, full: Word, fits: Unit -> bool)
    requires |keys| == |filled| && Pairwise(keys, Apart)
    requires forall k | 0 <= k < |keys| :: Filled(keys[k], filled[k], full, fits)
    ensures Reorders(keys, filled, Sort(filled, WeighsAtMost), full, fits)
    ensures Descending(Sort(filled, WeighsAtMost), WeighsAtMost)
  {
    assert Pairwise(filled, Apart) by {
      assert forall k | 0 <= k < |keys| :: filled[k].prefix == keys[k].prefix;
    }
    SortKeepsPairwise(filled, WeighsAtMost, Apart);
    SortIsStable(filled, WeighsAtMost);
  }

  lemma {:induction false} ReorderedEdges(t: Trie, r: Trie, filled: seq<Trie>, fits: Unit -> bool)
    requires t.prefix == r.prefix && t.value == r.value && |t.keys| == |r.keys|
    requires |filled| == |t.keys| && forall k | 0 <= k < |filled| :: SameShape(t.keys[k], filled[k], fits)
    requires forall c | c in r.keys :: exists k :: 0 <= k < |filled| && filled[k] == c
    requires forall k | 0 <= k < |filled| :: filled[k] in r.keys
    ensures SameShape(t, r, fits)
  {
    assert forall k | 0 <= k < |t.keys| :: t.keys[k] in t.keys;
  }

  ghost predicate SameShape(t: Trie, r: Trie, fits: Unit -> bool) {
    && t.prefix == r.prefix
    && (Coalesced(t) ==> Coalesced(r))
    && (BelowCoalesced(t) ==> BelowCoalesced(r))
    && (EdgesFit(t) <==> EdgesFit(r))
    && (EdgesIn(t, fits) ==> EdgesIn(r, fits))
  }

  lemma {:induction false} ReorderedShape(t: Trie, r: Trie, filled: seq<Trie>, full: Word, fits: Unit -> bool)
    requires WellFormed(t) && Reorders(t.keys, filled, r.keys, full, fits)
    ensures WellFormed(r)
    ensures forall c | c in r.keys :: c.fullPrefix == full + c.prefix && Labelled(c) && Ordered(c)
  {
    hide Get, SameShape, Labelled, Ordered, Apart;
    forall c | c in r.keys
      ensures c.prefix != [] && WellFormed(c)
      ensures c.fullPrefix == full + c.prefix && Labelled(c) && Ordered(c)
    {
      var k :| 0 <= k < |filled| && filled[k] == c;
      assert t.keys[k] in t.keys && Filled(t.keys[k], filled[k], full, fits);
    }
  }

  /** Whatever order the sort chooses, the same words are found. */
  lemma {:induction false} ReorderedFinds(keys: seq<Trie>, filled: seq<Trie>, sorted: seq<Trie>, w: Word, full: Word, fits: Unit -> bool)
    requires w != [] && Pairwise(keys, Apart)
    requires Reorders(keys, filled, sorted, full, fits)
    ensures Among(sorted, w) == Among(keys, w)
  {
    if k :| 0 <= k < |keys| && StartsWith(keys[k], w[0]) {
      AmongFinds(keys, w, keys[k]);
      AmongFinds(sorted, w, filled[k]);
    } else {
      AmongMisses(keys, w);
      forall c | c in sorted
        ensures !StartsWith(c, w[0])
      {
        var k :| 0 <= k < |filled| && filled[k] == c;
        assert !StartsWith(keys[k], w[0]);
      }
      AmongMisses(sorted, w);
    }
  }

  lemma {:induction false} FillSorted(t: Trie, r: Trie, filled: seq<Trie>, prefix: Word, fits: Unit -> bool)
    requires WellFormed(t) && |filled| == |t.keys|
    requires forall k | 0 <= k < |t.keys| :: Filled(t.keys[k], filled[k], prefix + t.prefix, fits)
    requires r.prefix == t.prefix && r.value == t.value && r.fullPrefix == prefix + t.prefix
    requires r.keys == Sort(filled, WeighsAtMost)
    ensures Filled(t, r, prefix, fits)
  {
    SortReorders(t.keys, filled, prefix + t.prefix, fits);
    ReorderedEdges(t, r, filled, fits);
    ReorderedShape(t, r, filled, prefix + t.prefix, fits);
    forall w
      ensures Get(r, w) == Get(t, w)
    {
      if w != [] {
        ReorderedFinds(t.keys, filled, r.keys, w, prefix + t.prefix, fits);
      }
    }
  }
}
