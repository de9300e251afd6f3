/** KeywordLookupGenerator.py from end to end: from a keyword list to the
    behaviour of the generated parseKeyword. */
module KeywordGenerator {
  import opened Wrappers
  import opened KeywordTrie
  import opened KeywordFillOut
  import opened KeywordCompare
  import opened KeywordEmit
  import StableSorting
  import KeywordNodes

  /** All passes in the driver's order. */
  function Compile(keywords: seq<(Word, Token)>, weights: map<Word, int>): (t: Trie)
    ensures WellFormed(t) && Labelled(t) && Ordered(t) && t.fullPrefix == []
    ensures BelowCoalesced(t)
  {
    BuildHoldsKeywords(keywords);
    var coalesced := CoalesceRoot(Build(keywords));
    CoalesceRootPreserves(Build(keywords));
    var t := FillOut(coalesced, [], weights);
    FillOutKeeps(coalesced, [], weights, u => true);
    t
  }

  /** The driver, on the mutable nodes. What coalescing returns is discarded. */
  method CompileNodes(keywords: seq<(Word, Token)>, weights: map<Word, int>) returns (root: KeywordNodes.Node)
    ensures fresh(root) && root.Valid() && root.View() == Compile(keywords, weights)
  {
    hide Build, FillOut, KeywordTrie.CoalesceKeys, KeywordTrie.Coalesce;
    root := KeywordNodes.BuildNodes(keywords);
    var _ := root.Coalesce();
    root.FillOut([], weights);
  }

  /** One more than the longest keyword, so that the matcher needs no bounds checks. */
  function MaxTokenLength(keywords: seq<(Word, Token)>, weights: map<Word, int>): nat {
    MaxLength(Compile(keywords, weights)) + 1
  }

  /** Running the generated function; falling out of the chains returns IDENT. */
  function ParseKeyword(m: Machine, keywords: seq<(Word, Token)>, weights: map<Word, int>): Outcome {
    EvalBody(m, Emit(Compile(keywords, weights)))
  }

  // ----- Units survive every pass

  ghost predicate UnitsIn(w: Word, fits: Unit -> bool) {
    forall k | 0 <= k < |w| :: fits(w[k])
  }

  lemma {:induction false} InsertKeepsUnits(t: Trie, key: Word, value: Token, fits: Unit -> bool)
    requires EdgesIn(t, fits) && UnitsIn(key, fits)
    ensures EdgesIn(Insert(t, key, value), fits)
    decreases |key|
  {
    if key != [] {
      var i := Filed(t.keys, key[..1]);
      var child := if i < |t.keys| then t.keys[i] else NewTrie(key[..1]);
      InsertKeepsUnits(child, key[1..], value, fits);
      assert child.prefix == key[..1];
    }
  }

  lemma {:induction false} BuildKeepsUnits(keywords: seq<(Word, Token)>, fits: Unit -> bool)
    requires forall k | 0 <= k < |keywords| :: UnitsIn(keywords[k].0, fits)
    ensures EdgesIn(Build(keywords), fits)
  {
    if keywords != [] {
      var last := keywords[|keywords| - 1];
      BuildKeepsUnits(keywords[..|keywords| - 1], fits);
      InsertKeepsUnits(Build(keywords[..|keywords| - 1]), last.0, last.1, fits);
    }
  }

  lemma {:induction false} CoalesceKeepsUnits(t: Trie, fits: Unit -> bool)
    requires EdgesIn(t, fits)
    ensures EdgesIn(CoalesceRoot(t), fits)
    ensures UnitsIn(t.prefix, fits) ==> UnitsIn(Coalesce(t).prefix, fits)
    ensures EdgesIn(Coalesce(t), fits)
    decreases t, 1
  {
    CoalesceKeysKeepsUnits(t.keys, [], fits);
  }

  lemma {:induction false} CoalesceKeysKeepsUnits(keys: seq<Trie>, built: seq<Trie>, fits: Unit -> bool)
    requires forall c | c in keys + built :: UnitsIn(c.prefix, fits) && EdgesIn(c, fits)
    ensures forall c | c in CoalesceKeys(keys, built) :: UnitsIn(c.prefix, fits) && EdgesIn(c, fits)
    decreases keys, 0
  {
    if keys != [] {
      assert keys[0] in keys + built;
      CoalesceKeepsUnits(keys[0], fits);
      assert forall c | c in keys[1..] + Put(built, Coalesce(keys[0])) :: c in keys + built || c == Coalesce(keys[0]);
      CoalesceKeysKeepsUnits(keys[1..], Put(built, Coalesce(keys[0])), fits);
    }
  }

  // ----- The main results

  /** A listed keyword is exactly the first n units, and an identifier cannot go on. */
  ghost predicate EndsAt(m: Machine, keywords: seq<(Word, Token)>, n: nat) {
    n < |m.code| && TokenOf(keywords, m.code[..n]).Some? && m.stops(m.code[n])
  }

  /** The shortest keyword that ends in the buffer, with its listed token and the
      right shift; falling through only when no keyword ends. */
  ghost predicate IsShortestKeyword(m: Machine, keywords: seq<(Word, Token)>, o: Outcome) {
    match o
    case Return(token, keyword, n) =>
      && EndsAt(m, keywords, n)
      && keyword == m.code[..n] && TokenOf(keywords, keyword) == Some(token)
      && forall k: nat | k < n :: !EndsAt(m, keywords, k)
    case Continue => forall k: nat :: !EndsAt(m, keywords, k)
    case Fault => false
  }

  lemma {:induction false} CompileHoldsKeywords(keywords: seq<(Word, Token)>, weights: map<Word, int>, fits: Unit -> bool)
    requires forall k | 0 <= k < |keywords| :: UnitsIn(keywords[k].0, fits)
    ensures forall w :: Get(Compile(keywords, weights), w) == TokenOf(keywords, w)
    ensures EdgesIn(Compile(keywords, weights), fits)
    ensures EdgesFit(Compile(keywords, weights)) <==> EdgesFit(CoalesceRoot(Build(keywords)))
  {
    BuildHoldsKeywords(keywords);
    CoalesceRootPreserves(Build(keywords));
    BuildKeepsUnits(keywords, fits);
    CoalesceKeepsUnits(Build(keywords), fits);
    FillOutKeeps(CoalesceRoot(Build(keywords)), [], weights, fits);
  }

  /** For every keyword list, weighting, target, width and buffer, the generated
      function returns the shortest keyword that ends in the buffer, with the
      listed token and the right shift, and IDENT exactly when none does. No index
      it reads reaches maxTokenLength. */
  lemma {:induction false} ParseKeywordIsExact(m: Machine, keywords: seq<(Word, Token)>, weights: map<Word, int>)
    requires m.Valid() && forall k | 0 <= k < |keywords| :: UnitsIn(keywords[k].0, m.Fits)
    requires EdgesFit(CoalesceRoot(Build(keywords)))
    requires MaxTokenLength(keywords, weights) <= |m.code|
    ensures IsShortestKeyword(m, keywords, ParseKeyword(m, keywords, weights))
  {
    var t := Compile(keywords, weights);
    CompileHoldsKeywords(keywords, weights, m.Fits);
    EmitRecognises(t, m);
    forall n: nat
      ensures Hit(t, m, n) <==> EndsAt(m, keywords, n)
    {
      if n < |m.code| {
        assert m.code[0..n] == m.code[..n];
      }
    }
  }

  /** When keywords are made of units that continue an identifier, at most one can
      end in the buffer, and it is the one that is returned. */
  lemma {:induction false} ParseKeywordOfIdentifiers(m: Machine, keywords: seq<(Word, Token)>, weights: map<Word, int>, w: Word)
    requires m.Valid() && forall k | 0 <= k < |keywords| :: UnitsIn(keywords[k].0, m.Fits)
    requires forall k | 0 <= k < |keywords| :: UnitsIn(keywords[k].0, (u: Unit) => !m.stops(u))
    requires EdgesFit(CoalesceRoot(Build(keywords)))
    requires MaxTokenLength(keywords, weights) <= |m.code|
    requires TokenOf(keywords, w).Some?
    ensures ParseKeyword(m, keywords, weights) == Return(TokenOf(keywords, w).value, w, |w|)
            <==> w <= m.code && |w| < |m.code| && m.stops(m.code[|w|])
  {
    ParseKeywordIsExact(m, keywords, weights);
    if w <= m.code && |w| < |m.code| && m.stops(m.code[|w|]) {
      assert m.code[..|w|] == w;
      assert EndsAt(m, keywords, |w|);
      Listed(keywords, w);
      assert forall n | 0 <= n < |w| :: m.code[n] == w[n] && !m.stops(m.code[n]);
    }
  }

  lemma {:induction false} Listed(keywords: seq<(Word, Token)>, w: Word)
    requires TokenOf(keywords, w).Some?
    ensures exists k :: 0 <= k < |keywords| && keywords[k].0 == w
  {
    var last := |keywords| - 1;
    if keywords[last].0 != w {
      Listed(keywords[..last], w);
      var k :| 0 <= k < last && keywords[..last][k].0 == w;
      assert keywords[k].0 == w;
    }
  }

  // ----- maxTokenLength, and the weights

  /** The length of the longest keyword, 0 if there is none. */
  function Longest(keywords: seq<(Word, Token)>): nat {
    if keywords == [] then 0
    else
      var before := Longest(keywords[..|keywords| - 1]);
      var n := |keywords[|keywords| - 1].0|;
      if n > before then n else before
  }

  lemma {:induction false} LongestMeans(keywords: seq<(Word, Token)>)
    ensures forall w | TokenOf(keywords, w).Some? :: |w| <= Longest(keywords)
    ensures keywords != [] ==> exists w :: TokenOf(keywords, w).Some? && |w| == Longest(keywords)
  {
    if keywords != [] {
      var last := keywords[|keywords| - 1];
      LongestMeans(keywords[..|keywords| - 1]);
      if Longest(keywords) == |last.0| {
        assert TokenOf(keywords, last.0).Some?;
      } else {
        var w :| TokenOf(keywords[..|keywords| - 1], w).Some? && |w| == Longest(keywords[..|keywords| - 1]);
        assert TokenOf(keywords, w).Some?;
      }
    }
  }

  /** No branch ends in a node that has no token. */
  ghost predicate Grounded(t: Trie)
    decreases t
  {
    forall k {:trigger t.keys[k]} | 0 <= k < |t.keys| :: HasSomething(t.keys[k]) && Grounded(t.keys[k])
  }

  predicate HasSomething(t: Trie) { t.value.Some? || t.keys != [] }

  ghost predicate AllGrounded(keys: seq<Trie>) {
    forall k {:trigger keys[k]} | 0 <= k < |keys| :: HasSomething(keys[k]) && Grounded(keys[k])
  }

  lemma {:induction false} PutKeepsGround(keys: seq<Trie>, t: Trie)
    requires AllGrounded(keys) && HasSomething(t) && Grounded(t)
    ensures AllGrounded(Put(keys, t)) && Put(keys, t) != []
  {
    hide Grounded, HasSomething;
  }

  lemma {:induction false} InsertKeepsGround(t: Trie, key: Word, value: Token)
    requires Grounded(t)
    ensures Grounded(Insert(t, key, value)) && HasSomething(Insert(t, key, value))
    decreases |key|
  {
    if key != [] {
      var i := Filed(t.keys, key[..1]);
      var child := if i < |t.keys| then t.keys[i] else NewTrie(key[..1]);
      assert Grounded(child);
      InsertKeepsGround(child, key[1..], value);
      PutKeepsGround(t.keys, Insert(child, key[1..], value));
    }
  }

  lemma {:induction false} BuildIsGrounded(keywords: seq<(Word, Token)>)
    ensures Grounded(Build(keywords)) && (keywords != [] ==> HasSomething(Build(keywords)))
  {
    if keywords != [] {
      BuildIsGrounded(keywords[..|keywords| - 1]);
      InsertKeepsGround(Build(keywords[..|keywords| - 1]), keywords[|keywords| - 1].0, keywords[|keywords| - 1].1);
    }
  }

  lemma {:induction false} CoalesceKeepsGround(t: Trie)
    requires Grounded(t)
    ensures Grounded(CoalesceRoot(t)) && Grounded(Coalesce(t))
    ensures HasSomething(t) ==> HasSomething(CoalesceRoot(t)) && HasSomething(Coalesce(t))
    decreases t, 1
  {
    CoalesceKeysKeepGround(t.keys, []);
  }

  lemma {:induction false} CoalesceKeysKeepGround(keys: seq<Trie>, built: seq<Trie>)
    requires AllGrounded(keys) && AllGrounded(built)
    ensures AllGrounded(CoalesceKeys(keys, built))
    ensures keys != [] || built != [] ==> CoalesceKeys(keys, built) != []
    decreases keys, 0
  {
    if keys != [] {
      CoalesceKeepsGround(keys[0]);
      PutKeepsGround(built, Coalesce(keys[0]));
      CoalesceKeysKeepGround(keys[1..], Put(built, Coalesce(keys[0])));
    }
  }

  lemma {:induction false} FillKeepsGround(t: Trie, prefix: Word, weights: map<Word, int>)
    requires Grounded(t)
    ensures Grounded(FillOut(t, prefix, weights))
    ensures HasSomething(t) ==> HasSomething(FillOut(t, prefix, weights))
    decreases t
  {
    var full := prefix + t.prefix;
    var filled := FillEach(t.keys, full, weights);
    forall k {:trigger filled[k]} | 0 <= k < |filled|
      ensures HasSomething(filled[k]) && Grounded(filled[k])
    {
      FillEachAt(t.keys, full, weights);
      FillKeepsGround(t.keys[k], full, weights);
    }
    SortKeepsGround(filled);
  }

  lemma {:induction false} SortKeepsGround(keys: seq<Trie>)
    requires AllGrounded(keys)
    ensures AllGrounded(StableSorting.Sort(keys, WeighsAtMost)) && |StableSorting.Sort(keys, WeighsAtMost)| == |keys|
  {
    hide Grounded, HasSomething, StableSorting.Sort;
    StableSorting.SortKeepsPairwise(keys, WeighsAtMost, (a: Trie, b: Trie) => true);
    var sorted := StableSorting.Sort(keys, WeighsAtMost);
    forall k {:trigger sorted[k]} | 0 <= k < |sorted|
      ensures HasSomething(sorted[k]) && Grounded(sorted[k])
    {
      assert sorted[k] in keys;
    }
  }

  /** No keyword is longer than the longest path. */
  lemma {:induction false} KeywordIsNoLonger(t: Trie, w: Word)
    requires WellFormed(t) && Labelled(t) && Get(t, w).Some?
    ensures |t.fullPrefix| + |w| <= MaxLength(t)
    decreases t
  {
    if w != [] {
      if i :| 0 <= i < |t.keys| && StartsWith(t.keys[i], w[0]) {
        var c := t.keys[i];
        AmongFinds(t.keys, w, c);
        KeywordIsNoLonger(c, w[|c.prefix|..]);
        MaxAmongBounds(t.keys, |t.fullPrefix|, c);
      } else {
        AmongMisses(t.keys, w);
      }
    }
  }

  lemma {:induction false} MaxAmongAttained(keys: seq<Trie>, max: nat) returns (i: nat)
    ensures i <= |keys|
    ensures MaxAmong(keys, max) == if i < |keys| then MaxLength(keys[i]) else max
  {
    if keys == [] {
      i := 0;
    } else {
      var l := MaxLength(keys[0]);
      var j := MaxAmongAttained(keys[1..], if l > max then l else max);
      i := if j < |keys| - 1 then j + 1 else if l > max then 0 else |keys|;
    }
  }

  /** The longest path ends in a keyword. */
  lemma {:induction false} LongestPathIsKeyword(t: Trie) returns (w: Word)
    requires WellFormed(t) && Labelled(t) && Grounded(t) && HasSomething(t)
    ensures Get(t, w).Some? && |t.fullPrefix| + |w| == MaxLength(t)
    decreases t
  {
    if t.keys == [] {
      w := [];
    } else {
      var i := MaxAmongAttained(t.keys, |t.fullPrefix|);
      assert t.keys[0] in t.keys;
      MaxAmongBounds(t.keys, |t.fullPrefix|, t.keys[0]);
      assert i < |t.keys|;
      var c := t.keys[i];
      assert c in t.keys;
      var rest := LongestPathIsKeyword(c);
      w := c.prefix + rest;
      AmongFinds(t.keys, w, c);
      assert w[|c.prefix|..] == rest;
    }
  }

  /** So maxTokenLength is one more than the longest keyword, whatever the weights are. */
  lemma {:induction false} MaxTokenLengthIsExact(keywords: seq<(Word, Token)>, weights: map<Word, int>)
    ensures MaxTokenLength(keywords, weights) == Longest(keywords) + 1
  {
    var t := Compile(keywords, weights);
    CompileHoldsKeywords(keywords, weights, u => true);
    BuildIsGrounded(keywords);
    CoalesceKeepsGround(Build(keywords));
    FillKeepsGround(CoalesceRoot(Build(keywords)), [], weights);
    LongestMeans(keywords);
    if keywords != [] {
      var w := LongestPathIsKeyword(t);
      var v :| TokenOf(keywords, v).Some? && |v| == Longest(keywords);
      KeywordIsNoLonger(t, v);
    } else {
      assert t == Trie([], None, [], [], Weight(weights, []));
    }
  }

  /** The weights, and with them the order of siblings, change nothing of the result. */
  lemma {:induction false} WeightsDoNotMatter(m: Machine, keywords: seq<(Word, Token)>,
                                              weights: map<Word, int>, others: map<Word, int>)
    requires m.Valid() && forall k | 0 <= k < |keywords| :: UnitsIn(keywords[k].0, m.Fits)
    requires EdgesFit(CoalesceRoot(Build(keywords)))
    requires MaxTokenLength(keywords, weights) <= |m.code|
    ensures ParseKeyword(m, keywords, weights) == ParseKeyword(m, keywords, others)
  {
    hide ParseKeyword, MaxTokenLength;
    MaxTokenLengthIsExact(keywords, weights);
    MaxTokenLengthIsExact(keywords, others);
    ParseKeywordIsExact(m, keywords, weights);
    ParseKeywordIsExact(m, keywords, others);
    OnlyOneShortest(m, keywords, ParseKeyword(m, keywords, weights), ParseKeyword(m, keywords, others));
  }

  /** Nothing from maxTokenLength on is looked at: cutting the buffer there changes nothing. */
  lemma {:induction false} ReadsNoFurther(m: Machine, keywords: seq<(Word, Token)>, weights: map<Word, int>)
    requires m.Valid() && forall k | 0 <= k < |keywords| :: UnitsIn(keywords[k].0, m.Fits)
    requires EdgesFit(CoalesceRoot(Build(keywords)))
    requires MaxTokenLength(keywords, weights) <= |m.code|
    ensures var cut := m.(code := m.code[..MaxTokenLength(keywords, weights)]);
            ParseKeyword(cut, keywords, weights) == ParseKeyword(m, keywords, weights)
  {
    hide ParseKeyword, MaxTokenLength, EdgesFit, IsShortestKeyword;
    MaxTokenLengthIsExact(keywords, weights);
    LongestMeans(keywords);
    var cut := m.(code := m.code[..MaxTokenLength(keywords, weights)]);
    assert forall u :: cut.Fits(u) == m.Fits(u);
    forall k | 0 <= k < |keywords|
      ensures UnitsIn(keywords[k].0, cut.Fits)
    {
      assert UnitsIn(keywords[k].0, m.Fits);
    }
    ParseKeywordIsExact(m, keywords, weights);
    ParseKeywordIsExact(cut, keywords, weights);
    forall n: nat
      ensures EndsAt(cut, keywords, n) <==> EndsAt(m, keywords, n)
      ensures EndsAt(m, keywords, n) ==> cut.code[..n] == m.code[..n]
    {
      if n < |cut.code| {
        assert cut.code[..n] == m.code[..n];
      } else if n < |m.code| {
        assert |m.code[..n]| > Longest(keywords);
      }
    }
    SameShortest(m, cut, keywords, ParseKeyword(m, keywords, weights));
    OnlyOneShortest(cut, keywords, ParseKeyword(m, keywords, weights), ParseKeyword(cut, keywords, weights));
  }

  lemma {:induction false} SameShortest(m: Machine, cut: Machine, keywords: seq<(Word, Token)>, o: Outcome)
    requires forall n: nat :: EndsAt(cut, keywords, n) <==> EndsAt(m, keywords, n)
    requires forall n: nat | EndsAt(m, keywords, n) :: n < |cut.code| && cut.code[..n] == m.code[..n]
    requires IsShortestKeyword(m, keywords, o)
    ensures IsShortestKeyword(cut, keywords, o)
  {
  }

  lemma {:induction false} OnlyOneShortest(m: Machine, keywords: seq<(Word, Token)>, o: Outcome, p: Outcome)
    requires IsShortestKeyword(m, keywords, o) && IsShortestKeyword(m, keywords, p)
    ensures o == p
  {
    if o.Return? && p.Return? {
      assert !(o.shift < p.shift) && !(p.shift < o.shift);
    }
  }

  // ----- Which lists compile at all

  predicate Defined(test: Test) {
    test.One? || 2 <= |test.units| <= 8
  }

  ghost predicate AllDefined(body: seq<Stmt>)
    decreases body
  {
    forall s | s in body && s.IfChain? :: forall a | a in s.arms :: ArmDefined(a)
  }

  ghost predicate ArmDefined(a: Arm)
    decreases a
  {
    Defined(a.test) && AllDefined(a.body)
  }

  /** The edge bound is exactly what makes every emitted macro exist. */
  lemma {:induction false} DefinedIffEdgesFit(t: Trie)
    requires WellFormed(t) && Labelled(t)
    ensures AllDefined(Emit(t)) <==> EdgesFit(t)
    decreases t
  {
    var arms := EmitArms(t.keys, t.fullPrefix);
    EmitArmsAt(t.keys, t.fullPrefix);
    forall k | 0 <= k < |t.keys|
      ensures arms[k] == Arm(MakeTest(t.keys[k], |t.fullPrefix|), Emit(t.keys[k]))
      ensures ArmDefined(arms[k]) <==> |t.keys[k].prefix| <= 8 && EdgesFit(t.keys[k])
    {
      assert t.keys[k] in t.keys;
      DefinedIffEdgesFit(t.keys[k]);
    }
    assert EdgesFit(t) <==> forall k | 0 <= k < |t.keys| :: |t.keys[k].prefix| <= 8 && EdgesFit(t.keys[k]) by {
      assert forall k | 0 <= k < |t.keys| :: t.keys[k] in t.keys;
    }
    BodyDefined(t);
  }

  lemma {:induction false} EmitShape(t: Trie)
    requires Labelled(t)
    ensures forall s | s in Emit(t) && s.IfChain? :: t.keys != [] && s == IfChain(EmitArms(t.keys, t.fullPrefix))
    ensures t.keys != [] ==> IfChain(EmitArms(t.keys, t.fullPrefix)) in Emit(t)
  {
    hide EmitArms;
    assert t.keys != [] ==> Emit(t)[|Emit(t)| - 1] == IfChain(EmitArms(t.keys, t.fullPrefix));
  }

  lemma {:induction false} BodyDefined(t: Trie)
    requires Labelled(t)
    ensures AllDefined(Emit(t)) <==> var arms := EmitArms(t.keys, t.fullPrefix);
              forall k | 0 <= k < |arms| :: ArmDefined(arms[k])
  {
    hide Emit, EmitArms, ArmDefined;
    EmitShape(t);
    var arms := EmitArms(t.keys, t.fullPrefix);
    assert forall k | 0 <= k < |arms| :: arms[k] in arms;
  }
}
