/** What `positions` returns: an embedding whenever there is one, and the exact
    circumstances in which that embedding earns the score that `score` reports. */
module FzyBacktrack {
  import opened FzyTables
  import opened FzyMatcher

  /** Line 170 compares M[k][j] instead of D[k][j]. The two differ at a cell that was
      taken only because the row below required it; the requirement is then dropped,
      which costs something exactly when the cell owes its value to an adjacent match
      that is not itself the best so far. */
  predicate DropsRequirement(q: Query, k: nat, j: nat)
    requires q.Valid() && 0 < k < |q.needle| && 0 < j < |q.haystack|
  {
    && D(q, k, j) != M(q, k, j)
    && D(q, k - 1, j - 1) != M(q, k - 1, j - 1)
    && D(q, k, j) != M(q, k - 1, j - 1).Plus(q.bonus[j])
  }

  ghost predicate NeverDrops(q: Query, e: seq<nat>)
    requires q.Valid() && Embeds(q, e)
  {
    forall k {:trigger e[k]} | 1 <= k < |e| :: e[k] > 0 ==> !DropsRequirement(q, k, e[k])
  }

  lemma {:induction false} Dominates(q: Query, i: nat, j: nat)
    requires q.Valid() && i < |q.needle| && j < |q.haystack|
    ensures D(q, i, j).AtMost(M(q, i, j))
    ensures M(q, i, j) != D(q, i, j) ==> j > 0 && M(q, i, j) == M(q, i, j - 1).Plus(q.Gap(i))
  {
  }

  /** The facts kept while the loop walks from (i, j) towards the origin. */
  ghost predicate Recovered(q: Query, i: nat, j: nat, required: bool, e: seq<nat>)
    requires q.Valid() && i < |q.needle| && j < |q.haystack|
  {
    && EndsBy(q, i, j, e)
    && D(q, i, e[i]).Points?
    && (required || D(q, i, j) == M(q, i, j) ==> e[i] == j)
    && (!required ==> D(q, i, e[i]) == M(q, i, e[i])
                      && M(q, i, j) == Points(D(q, i, e[i]).v + q.Skipping(i, j - e[i])))
    && Earned(q, e) <= D(q, i, e[i]).v
    && (Earned(q, e) == D(q, i, e[i]).v <==> NeverDrops(q, e))
    && WeakCellsAreAdjacent(q, e)
  }

  /** A cell that is not the best so far was taken only to be adjacent to the next. */
  ghost predicate WeakCellsAreAdjacent(q: Query, e: seq<nat>)
    requires q.Valid() && Embeds(q, e)
  {
    forall k {:trigger e[k]} | 0 <= k < |e| - 1 :: D(q, k, e[k]) != M(q, k, e[k]) ==> e[k + 1] == e[k] + 1
  }

  lemma {:induction false} ExtendAdjacent(q: Query, i: nat, j: nat, before: seq<nat>)
    requires q.Valid() && 0 < i < |q.needle| && 0 < j < |q.haystack|
    requires |before| == i && EndsAt(q, i, j, before + [j]) && Embeds(q, before) && WeakCellsAreAdjacent(q, before)
    requires D(q, i - 1, before[i - 1]) != M(q, i - 1, before[i - 1]) ==> j == before[i - 1] + 1
    ensures WeakCellsAreAdjacent(q, before + [j])
  {
    var e := before + [j];
    assert e[i] == j;
    assert forall k | 0 <= k < i :: e[k] == before[k];
  }

  /** One accepted cell on top of a recovered prefix that ends right before it. */
  lemma {:induction false} AcceptAdjacent(q: Query, i: nat, j: nat)
    requires q.Valid() && 0 < i < |q.needle| && 0 < j < |q.haystack|
    requires D(q, i, j).Points? && D(q, i - 1, j - 1).Points?
    requires RequiresPrevious(q, i, j) || D(q, i - 1, j - 1) == M(q, i - 1, j - 1)
    ensures D(q, i, j).v == D(q, i - 1, j - 1).v + MATCH_CONSECUTIVE
    ensures !DropsRequirement(q, i, j)
  {
    Dominates(q, i, j);
    Dominates(q, i - 1, j - 1);
  }

  /** One accepted cell on top of a recovered prefix that ends earlier. */
  lemma {:induction false} AcceptDistant(q: Query, i: nat, j: nat)
    requires q.Valid() && 0 < i < |q.needle| && 0 < j < |q.haystack|
    requires D(q, i, j).Points? && M(q, i - 1, j - 1).Points?
    requires !RequiresPrevious(q, i, j) && D(q, i - 1, j - 1) != M(q, i - 1, j - 1)
    ensures M(q, i - 1, j - 1).v + q.bonus[j] <= D(q, i, j).v
    ensures M(q, i - 1, j - 1).v + q.bonus[j] == D(q, i, j).v <==> !DropsRequirement(q, i, j)
  {
  }

  lemma {:induction false} AcceptCell(q: Query, i: nat, j: nat, before: seq<nat>)
    requires q.Valid() && 0 < i < |q.needle| && 0 < j < |q.haystack|
    requires D(q, i, j).Points?
    requires Recovered(q, i - 1, j - 1, RequiresPrevious(q, i, j), before)
    ensures EndsAt(q, i, j, before + [j])
    ensures Earned(q, before + [j]) <= D(q, i, j).v
    ensures Earned(q, before + [j]) == D(q, i, j).v <==>
            Earned(q, before) == D(q, i - 1, before[i - 1]).v && !DropsRequirement(q, i, j)
  {
    ExtendEmbedding(q, i, j, before);
    if before[i - 1] == j - 1 {
      AcceptAdjacent(q, i, j);
    } else {
      AcceptDistant(q, i, j);
    }
  }

  lemma {:induction false} ExtendNeverDrops(q: Query, i: nat, j: nat, before: seq<nat>)
    requires q.Valid() && 0 < i < |q.needle| && 0 < j < |q.haystack|
    requires |before| == i && EndsAt(q, i, j, before + [j]) && Embeds(q, before)
    ensures NeverDrops(q, before + [j]) <==> NeverDrops(q, before) && !DropsRequirement(q, i, j)
  {
    var e := before + [j];
    assert e[i] == j;
    assert forall k | 0 <= k < i :: e[k] == before[k];
  }

  /** Taking a cell keeps what is known of the slots before it. */
  lemma {:induction false} RecoverByTaking(q: Query, i: nat, j: nat, required: bool, before: seq<nat>)
    requires q.Valid() && 0 < i < |q.needle| && 0 < j < |q.haystack|
    requires Accepts(q, i, j, required)
    requires Recovered(q, i - 1, j - 1, RequiresPrevious(q, i, j), before)
    ensures Recovered(q, i, j, required, before + [j])
  {
    AcceptCell(q, i, j, before);
    ExtendNeverDrops(q, i, j, before);
    ExtendAdjacent(q, i, j, before);
  }

  /** So does passing one over. */
  lemma {:induction false} RecoverBySkipping(q: Query, i: nat, j: nat, e: seq<nat>)
    requires q.Valid() && i < |q.needle| && j < |q.haystack|
    requires M(q, i, j) != Min && !Accepts(q, i, j, false)
    ensures j > 0 && M(q, i, j - 1) != Min
    ensures Recovered(q, i, j - 1, false, e) ==> Recovered(q, i, j, false, e)
  {
    Dominates(q, i, j);
  }

  lemma {:induction false} PreviousReachable(q: Query, i: nat, j: nat)
    requires q.Valid() && 0 < i < |q.needle| && j < |q.haystack| && D(q, i, j) != Min
    ensures j > 0
    ensures if RequiresPrevious(q, i, j) then D(q, i - 1, j - 1) != Min else M(q, i - 1, j - 1) != Min
  {
    if j > 0 {
      Dominates(q, i, j);
      Dominates(q, i - 1, j - 1);
    }
  }

  lemma {:induction false} RecoverFirst(q: Query, j: nat, required: bool)
    requires q.Valid() && 0 < |q.needle| && j < |q.haystack|
    requires Accepts(q, 0, j, required)
    ensures Recovered(q, 0, j, required, [j])
  {
  }

  function Filled(e: seq<nat>): (slots: seq<Slot>)
    ensures |slots| == |e| && forall k | 0 <= k < |e| :: slots[k] == At(e[k])
  {
    seq(|e|, k requires 0 <= k < |e| => At(e[k]))
  }

  lemma {:induction false} BacktrackRecovers(q: Query, i: nat, j: nat, required: bool) returns (e: seq<nat>)
    requires q.Valid() && i < |q.needle| && j < |q.haystack|
    requires if required then D(q, i, j) != Min else M(q, i, j) != Min
    ensures Backtrack(q, i, j, required) == Filled(e)
    ensures Recovered(q, i, j, required, e)
    decreases j
  {
    hide Recovered;
    if !Accepts(q, i, j, required) {
      RecoverBySkipping(q, i, j, []);
      e := BacktrackRecovers(q, i, j - 1, false);
      RecoverBySkipping(q, i, j, e);
    } else if i == 0 {
      e := [j];
      RecoverFirst(q, j, required);
    } else {
      PreviousReachable(q, i, j);
      var before := BacktrackRecovers(q, i - 1, j - 1, RequiresPrevious(q, i, j));
      RecoverByTaking(q, i, j, required, before);
      e := before + [j];
    }
  }

  lemma {:induction false} BacktrackMisses(q: Query, i: nat, j: int)
    requires q.Valid() && i < |q.needle| && -1 <= j < |q.haystack|
    requires j >= 0 ==> M(q, i, j) == Min
    ensures Backtrack(q, i, j, false) == Holes(i + 1)
    decreases j
  {
    if j >= 0 {
      Dominates(q, i, j);
      BacktrackMisses(q, i, j - 1);
    }
  }

  // ----- The main results on `positions`

  lemma {:induction false} RecoveredScore(q: Query, e: seq<nat>)
    requires q.Valid() && |q.needle| > 0 && |q.haystack| > 0
    requires Recovered(q, |q.needle| - 1, |q.haystack| - 1, false, e)
    ensures EmbedsAll(q, e)
    ensures Points(EmbeddingScore(q, e)).AtMost(M(q, |q.needle| - 1, |q.haystack| - 1))
    ensures Points(EmbeddingScore(q, e)) == M(q, |q.needle| - 1, |q.haystack| - 1) <==> NeverDrops(q, e)
    ensures WeakCellsAreAdjacent(q, e)
    ensures D(q, |e| - 1, e[|e| - 1]) == M(q, |e| - 1, e[|e| - 1])
  {
  }

  /** Every slot is filled, by an embedding that earns at most `score`, whenever
      some embedding exists; otherwise no slot is filled. The embedding earns
      exactly `score` if and only if no accepted cell drops its requirement. */
  lemma {:induction false} PositionsAreAnEmbedding(casing: Casing, needle: string, haystack: string)
    requires Scored(needle, haystack)
    ensures var q, slots := MakeQuery(casing, needle, haystack), PositionsOf(casing, needle, haystack);
            && ((exists e :: EmbedsAll(q, e)) ==>
                exists e :: IsRecoveredBy(q, slots, ScoreOf(casing, needle, haystack), e))
            && ((forall e :: !EmbedsAll(q, e)) ==> slots == Holes(|needle|))
  {
    hide Recovered, IsRecoveredBy, EmbedsAll, Backtrack, D, M;
    var q := MakeQuery(casing, needle, haystack);
    FinalCellIsBest(q);
    if M(q, |needle| - 1, |haystack| - 1) == Min {
      BacktrackMisses(q, |needle| - 1, |haystack| - 1);
    } else {
      var e := PositionsRecovered(q);
      assert IsRecoveredBy(q, PositionsOf(casing, needle, haystack), ScoreOf(casing, needle, haystack), e);
    }
  }

  lemma {:induction false} PositionsRecovered(q: Query) returns (e: seq<nat>)
    requires q.Valid() && |q.needle| > 0 && |q.haystack| > 0
    requires M(q, |q.needle| - 1, |q.haystack| - 1) != Min
    ensures IsRecoveredBy(q, Backtrack(q, |q.needle| - 1, |q.haystack| - 1, false),
                          M(q, |q.needle| - 1, |q.haystack| - 1), e)
  {
    hide Recovered;
    e := BacktrackRecovers(q, |q.needle| - 1, |q.haystack| - 1, false);
    RecoveredScore(q, e);
  }

  ghost predicate IsRecoveredBy(q: Query, slots: seq<Slot>, score: Score, e: seq<nat>)
    requires q.Valid() && |q.needle| > 0
  {
    && slots == Filled(e)
    && EmbedsAll(q, e)
    && Points(EmbeddingScore(q, e)).AtMost(score)
    && (Points(EmbeddingScore(q, e)) == score <==> NeverDrops(q, e))
  }

  /** In particular the positions are optimal when every accepted cell has D == M. */
  lemma {:induction false} OptimalWhenCellsAreBest(casing: Casing, needle: string, haystack: string, e: seq<nat>)
    requires Scored(needle, haystack)
    requires PositionsOf(casing, needle, haystack) == Filled(e)
    requires var q := MakeQuery(casing, needle, haystack);
             forall k | 0 <= k < |e| && k < |needle| && e[k] < |haystack| :: D(q, k, e[k]) == M(q, k, e[k])
    ensures EmbedsAll(MakeQuery(casing, needle, haystack), e)
    ensures Points(EmbeddingScore(MakeQuery(casing, needle, haystack), e)) == ScoreOf(casing, needle, haystack)
  {
    PositionsAreAnEmbedding(casing, needle, haystack);
    var q := MakeQuery(casing, needle, haystack);
    assert Filled(e)[0] == At(e[0]);
    var e' :| IsRecoveredBy(q, Filled(e), ScoreOf(casing, needle, haystack), e');
    FilledInjective(e, e');
  }

  /** No three characters in a row of the needle stand in a row in the haystack. */
  predicate NoRunOfThree(needle: string, haystack: string) {
    forall k, j | 0 <= k < |needle| && 0 <= j < |haystack| :: !IsRunOfThree(needle, haystack, k, j)
  }

  predicate IsRunOfThree(needle: string, haystack: string, k: nat, j: nat) {
    k + 3 <= |needle| && j + 3 <= |haystack| && needle[k..k + 3] == haystack[j..j + 3]
  }

  /** A requirement is only ever dropped in the middle of such a run. */
  lemma {:induction false} DropNeedsRunOfThree(q: Query, e: seq<nat>, k: nat)
    requires q.Valid() && EmbedsAll(q, e) && WeakCellsAreAdjacent(q, e)
    requires 1 <= k < |e| && e[k] > 0 && DropsRequirement(q, k, e[k])
    requires D(q, |e| - 1, e[|e| - 1]) == M(q, |e| - 1, e[|e| - 1])
    requires D(q, k, e[k]) != Min
    ensures IsRunOfThree(q.needle, q.haystack, k - 1, e[k] - 1)
  {
    hide D, M;
    DroppedMatches(q, k, e[k]);
    assert e[k + 1] == e[k] + 1 && q.needle[k + 1] == q.haystack[e[k] + 1];
    assert q.needle[k - 1..k + 2] == [q.needle[k - 1], q.needle[k], q.needle[k + 1]];
    assert q.haystack[e[k] - 1..e[k] + 2] == [q.haystack[e[k] - 1], q.haystack[e[k]], q.haystack[e[k] + 1]];
  }

  lemma {:induction false} DroppedMatches(q: Query, k: nat, j: nat)
    requires q.Valid() && 0 < k < |q.needle| && 0 < j < |q.haystack|
    requires DropsRequirement(q, k, j) && D(q, k, j) != Min
    ensures q.needle[k] == q.haystack[j] && q.needle[k - 1] == q.haystack[j - 1]
    ensures D(q, k, j) != M(q, k, j)
  {
  }

  /** A caller can rule it out beforehand: without such a run, as for a needle of two
      characters, the positions earn exactly `score`. */
  lemma {:induction false} OptimalWithoutRuns(casing: Casing, needle: string, haystack: string)
    requires Scored(needle, haystack) && NoRunOfThree(needle, haystack)
    requires exists e :: EmbedsAll(MakeQuery(casing, needle, haystack), e)
    ensures var q := MakeQuery(casing, needle, haystack);
            exists e :: PositionsOf(casing, needle, haystack) == Filled(e) && EmbedsAll(q, e)
                        && Points(EmbeddingScore(q, e)) == ScoreOf(casing, needle, haystack)
  {
    hide Recovered, D, M, NoRunOfThree, Backtrack;
    var q := MakeQuery(casing, needle, haystack);
    FinalCellIsBest(q);
    var e := BacktrackRecovers(q, |needle| - 1, |haystack| - 1, false);
    RecoveredScore(q, e);
    NoRunNoDrop(q, e);
    assert PositionsOf(casing, needle, haystack) == Filled(e);
  }

  lemma {:induction false} NoRunNoDrop(q: Query, e: seq<nat>)
    requires q.Valid() && EmbedsAll(q, e) && |e| > 0 && WeakCellsAreAdjacent(q, e)
    requires D(q, |e| - 1, e[|e| - 1]) == M(q, |e| - 1, e[|e| - 1])
    requires NoRunOfThree(q.needle, q.haystack)
    ensures NeverDrops(q, e)
  {
    hide D, M, WeakCellsAreAdjacent, DropsRequirement;
    forall k {:trigger e[k]} | 1 <= k < |e|
      ensures e[k] > 0 ==> !DropsRequirement(q, k, e[k])
    {
      TakenIsReachable(q, e, k);
      if e[k] > 0 && DropsRequirement(q, k, e[k]) {
        DropNeedsRunOfThree(q, e, k);
      }
    }
  }

  /** Where an embedding puts a character, the cell is not empty. */
  lemma {:induction false} TakenIsReachable(q: Query, e: seq<nat>, k: nat)
    requires q.Valid() && Embeds(q, e) && k < |e|
    ensures D(q, k, e[k]) != Min
  {
    assert EndsAt(q, k, e[k], e[..k + 1]);
    DBounds(q, k, e[k], e[..k + 1]);
  }

  lemma {:induction false} FilledInjective(e: seq<nat>, e': seq<nat>)
    requires Filled(e) == Filled(e')
    ensures e == e'
  {
    assert |Filled(e)| == |e| == |e'|;
    forall k | 0 <= k < |e|
      ensures e[k] == e'[k]
    {
      assert Filled(e)[k] == At(e[k]) && Filled(e')[k] == At(e'[k]);
    }
  }

  // ----- A corrected variant, which is not what the source does

  /** Line 168 as its comment means it: D in place of M. */
  predicate OwesToPrevious(q: Query, i: nat, j: nat)
    requires q.Valid() && i < |q.needle| && j < |q.haystack|
  {
    i > 0 && j > 0 && D(q, i, j) == D(q, i - 1, j - 1).Plus(MATCH_CONSECUTIVE)
  }

  function CorrectedBacktrack(q: Query, i: int, j: int, required: bool): (slots: seq<Slot>)
    requires q.Valid() && -1 <= i < |q.needle| && -1 <= j < |q.haystack|
    ensures |slots| == i + 1
    decreases j
  {
    if i < 0 then []
    else if j < 0 then Holes(i + 1)
    else if Accepts(q, i, j, required) then CorrectedBacktrack(q, i - 1, j - 1, OwesToPrevious(q, i, j)) + [At(j)]
    else CorrectedBacktrack(q, i, j - 1, required)
  }

  /** As Recovered, but with nothing lost on the way. */
  ghost predicate FullyRecovered(q: Query, i: nat, j: nat, required: bool, e: seq<nat>)
    requires q.Valid() && i < |q.needle| && j < |q.haystack|
  {
    && EndsBy(q, i, j, e)
    && D(q, i, e[i]) == Points(Earned(q, e))
    && (required || D(q, i, j) == M(q, i, j) ==> e[i] == j)
    && (!required ==> D(q, i, e[i]) == M(q, i, e[i]) && M(q, i, j) == Points(SeenFrom(q, i, j, e)))
  }

  lemma {:induction false} CorrectedTaking(q: Query, i: nat, j: nat, required: bool, before: seq<nat>)
    requires q.Valid() && 0 < i < |q.needle| && 0 < j < |q.haystack|
    requires Accepts(q, i, j, required)
    requires FullyRecovered(q, i - 1, j - 1, OwesToPrevious(q, i, j), before)
    ensures FullyRecovered(q, i, j, required, before + [j])
  {
    ExtendEmbedding(q, i, j, before);
    Dominates(q, i - 1, j - 1);
  }

  lemma {:induction false} CorrectedSkipping(q: Query, i: nat, j: nat, e: seq<nat>)
    requires q.Valid() && i < |q.needle| && j < |q.haystack|
    requires M(q, i, j) != Min && !Accepts(q, i, j, false)
    ensures j > 0 && M(q, i, j - 1) != Min
    ensures FullyRecovered(q, i, j - 1, false, e) ==> FullyRecovered(q, i, j, false, e)
  {
    Dominates(q, i, j);
  }

  lemma {:induction false} CorrectedPrevious(q: Query, i: nat, j: nat)
    requires q.Valid() && 0 < i < |q.needle| && j < |q.haystack| && D(q, i, j) != Min
    ensures j > 0
    ensures if OwesToPrevious(q, i, j) then D(q, i - 1, j - 1) != Min else M(q, i - 1, j - 1) != Min
  {
    if j > 0 {
      Dominates(q, i - 1, j - 1);
    }
  }

  lemma {:induction false} CorrectedFirst(q: Query, j: nat, required: bool)
    requires q.Valid() && 0 < |q.needle| && j < |q.haystack|
    requires Accepts(q, 0, j, required)
    ensures FullyRecovered(q, 0, j, required, [j])
  {
  }

  lemma {:induction false} CorrectedRecovers(q: Query, i: nat, j: nat, required: bool) returns (e: seq<nat>)
    requires q.Valid() && i < |q.needle| && j < |q.haystack|
    requires if required then D(q, i, j) != Min else M(q, i, j) != Min
    ensures CorrectedBacktrack(q, i, j, required) == Filled(e)
    ensures FullyRecovered(q, i, j, required, e)
    decreases j
  {
    hide FullyRecovered;
    if !Accepts(q, i, j, required) {
      CorrectedSkipping(q, i, j, []);
      e := CorrectedRecovers(q, i, j - 1, false);
      CorrectedSkipping(q, i, j, e);
    } else if i == 0 {
      e := [j];
      CorrectedFirst(q, j, required);
    } else {
      CorrectedPrevious(q, i, j);
      var before := CorrectedRecovers(q, i - 1, j - 1, OwesToPrevious(q, i, j));
      CorrectedTaking(q, i, j, required, before);
      e := before + [j];
    }
  }

  /** With that one change the positions always earn exactly what `score` reports. */
  lemma {:induction false} CorrectedIsOptimal(casing: Casing, needle: string, haystack: string)
    requires Scored(needle, haystack)
    requires exists e :: EmbedsAll(MakeQuery(casing, needle, haystack), e)
    ensures var q := MakeQuery(casing, needle, haystack);
            exists e :: CorrectedBacktrack(q, |needle| - 1, |haystack| - 1, false) == Filled(e) && EmbedsAll(q, e)
                        && Points(EmbeddingScore(q, e)) == ScoreOf(casing, needle, haystack)
  {
    hide D, M, CorrectedBacktrack, FullyRecovered, EmbedsAll;
    var q := MakeQuery(casing, needle, haystack);
    FinalCellIsBest(q);
    var e := CorrectedRecovers(q, |needle| - 1, |haystack| - 1, false);
    CorrectedScore(q, e);
  }

  lemma {:induction false} CorrectedScore(q: Query, e: seq<nat>)
    requires q.Valid() && |q.needle| > 0 && |q.haystack| > 0
    requires FullyRecovered(q, |q.needle| - 1, |q.haystack| - 1, false, e)
    ensures EmbedsAll(q, e) && Points(EmbeddingScore(q, e)) == M(q, |q.needle| - 1, |q.haystack| - 1)
  {
  }

  // ----- The failing input: "abc" in "a/babc"

  /** The letters of the example are not upper-case; nothing else is assumed of `casing`. */
  predicate OrdinaryLetters(casing: Casing) {
    !casing.IsUpper('a') && !casing.IsUpper('b') && !casing.IsUpper('c')
  }

  lemma {:induction false} ExampleTables(casing: Casing, q: Query)
    requires OrdinaryLetters(casing) && q == MakeQuery(casing, "abc", "a/babc")
    ensures D(q, 0, 0) == Points(180) && M(q, 0, 3) == Points(174) && D(q, 0, 3) == Points(-3)
    ensures D(q, 0, 1) == Min && D(q, 0, 2) == Min && M(q, 0, 0) == Points(180)
    ensures D(q, 1, 4) == Points(197) && M(q, 1, 4) == Points(354)
    ensures D(q, 2, 5) == Points(397) && M(q, 2, 5) == Points(397)
  {
    assert q.bonus[0] == 180 && q.bonus[2] == 180;
    assert q.bonus[3] == 0 && q.bonus[4] == 0 && q.bonus[5] == 0;
    assert M(q, 0, 1) == Points(178);
    assert M(q, 0, 2) == Points(176);
    assert M(q, 1, 0) == Min && M(q, 1, 1) == Min;
    assert D(q, 1, 2) == Points(358);
    assert M(q, 1, 3) == Points(356);
    assert M(q, 2, 1) == Min && M(q, 2, 2) == Min && M(q, 2, 3) == Min && M(q, 2, 4) == Min;
  }

  /** `positions` is not always optimal: here it returns [0, 4, 5], worth 1.87, where `score` is 1.985. */
  lemma {:induction false} PositionsCanBeSuboptimal(casing: Casing)
    requires OrdinaryLetters(casing)
    ensures var q, e := MakeQuery(casing, "abc", "a/babc"), [0, 4, 5];
            PositionsOf(casing, "abc", "a/babc") == Filled(e) && EmbedsAll(q, e) && EmbeddingScore(q, e) == 374
    ensures ScoreOf(casing, "abc", "a/babc") == Points(397)
  {
    var q := MakeQuery(casing, "abc", "a/babc");
    ExampleTables(casing, q);
    assert Backtrack(q, 0, 0, false) == [At(0)];
    assert Backtrack(q, 0, 3, false) == [At(0)] by {
      assert Backtrack(q, 0, 3, false) == Backtrack(q, 0, 2, false);
      assert Backtrack(q, 0, 2, false) == Backtrack(q, 0, 1, false);
    }
    assert Backtrack(q, 1, 4, true) == [At(0), At(4)];
    assert Backtrack(q, 2, 5, false) == [At(0), At(4), At(5)];
    var e: seq<nat> := [0, 4, 5];
    assert e[..1] == [0] && e[..2] == [0, 4];
    assert Earned(q, e[..1]) == 180;
    assert e[..2][..1] == [0];
    assert Earned(q, e[..2]) == 174;
  }
}
