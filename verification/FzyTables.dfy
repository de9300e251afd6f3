/** The scoring side of fzy.js: the two score tables, and the proof that they
    hold a maximum over all embeddings of the needle in the haystack.

    Scores are exact integers in units of 0.005, so the constants of lines 9-16
    become -1, -1, -2, 200, 180, 160, 140 and 120. */
module FzyTables {

  const GAP_LEADING := -1
  const GAP_TRAILING := -1
  const GAP_INNER := -2
  const MATCH_CONSECUTIVE := 200
  const MATCH_SLASH := 180
  const MATCH_WORD := 160
  const MATCH_CAPITAL := 140
  const MATCH_DOT := 120

  /** `Min` and `Max` are the two infinities, SCORE_MIN and SCORE_MAX. */
  datatype Score = Min | Points(v: int) | Max {
    function Plus(k: int): Score {
      match this
      case Points(v) => Points(v + k)
      case _ => this
    }

    predicate AtMost(that: Score) {
      match this
      case Min => true
      case Points(v) => that.Max? || (that.Points? && v <= that.v)
      case Max => that.Max?
    }

    function Higher(that: Score): Score {
      if this.AtMost(that) then that else this
    }
  }

  /** The two case conversions of the host language, left uninterpreted. */
  datatype Casing = Casing(toLower: string -> string, toUpper: string -> string) {
    predicate IsLower(c: char) { toLower([c]) == [c] }

    predicate IsUpper(c: char) { toUpper([c]) == [c] }
  }

  function BonusBetween(casing: Casing, last: char, ch: char): (bonus: int)
    ensures 0 <= bonus < MATCH_CONSECUTIVE
  {
    if last == '/' then MATCH_SLASH
    else if last == '-' || last == '_' || last == ' ' then MATCH_WORD
    else if last == '.' then MATCH_DOT
    else if casing.IsLower(last) && casing.IsUpper(ch) then MATCH_CAPITAL
    else 0
  }

  /** One call of the scorer: a haystack with the bonus of each position. */
  datatype Query = Query(needle: string, haystack: string, bonus: seq<int>) {
    predicate Valid() {
      && |bonus| == |haystack|
      && forall i | 0 <= i < |bonus| :: 0 <= bonus[i] < MATCH_CONSECUTIVE
    }

    /** The gap penalty of row i, and its cost over several skipped positions. */
    function Gap(i: nat): int {
      if i == |needle| - 1 then GAP_TRAILING else GAP_INNER
    }

    function Skipping(i: nat, count: nat): int {
      if i == |needle| - 1 then GAP_TRAILING * count else GAP_INNER * count
    }
  }

  /** The haystack is read as if it followed a slash. */
  function BonusAt(casing: Casing, haystack: string, i: nat): (bonus: int)
    requires i < |haystack|
    ensures 0 <= bonus < MATCH_CONSECUTIVE
  {
    BonusBetween(casing, if i == 0 then '/' else haystack[i - 1], haystack[i])
  }

  function BonusTable(casing: Casing, haystack: string): (bonus: seq<int>)
    ensures |bonus| == |haystack|
    ensures forall i | 0 <= i < |haystack| :: bonus[i] == BonusAt(casing, haystack, i)
  {
    seq(|haystack|, i requires 0 <= i < |haystack| => BonusAt(casing, haystack, i))
  }

  function MakeQuery(casing: Casing, needle: string, haystack: string): (q: Query)
    ensures q.Valid() && q.needle == needle && q.haystack == haystack
  {
    Query(needle, haystack, BonusTable(casing, haystack))
  }

  // ----- The recurrences that the table-filling loops compute

  function D(q: Query, i: nat, j: nat): (score: Score)
    requires q.Valid() && i < |q.needle| && j < |q.haystack|
    ensures !score.Max?
    decreases i, j, 0
  {
    if q.needle[i] != q.haystack[j] then Min
    else if i == 0 then Points(j * GAP_LEADING + q.bonus[j])
    else if j == 0 then Min
    else M(q, i - 1, j - 1).Plus(q.bonus[j]).Higher(D(q, i - 1, j - 1).Plus(MATCH_CONSECUTIVE))
  }

  function M(q: Query, i: nat, j: nat): (score: Score)
    requires q.Valid() && i < |q.needle| && j < |q.haystack|
    ensures !score.Max?
    decreases i, j, 1
  {
    D(q, i, j).Higher(if j == 0 then Min else M(q, i, j - 1).Plus(q.Gap(i)))
  }

  // ----- What a table cell ought to mean

  /** `e` places the first |e| needle characters at increasing positions. */
  ghost predicate Embeds(q: Query, e: seq<nat>) {
    && |e| <= |q.needle|
    && (forall k | 0 <= k < |e| :: e[k] < |q.haystack| && q.haystack[e[k]] == q.needle[k])
    && (forall k | 1 <= k < |e| :: e[k - 1] < e[k])
  }

  /** What placing one more character at `at` earns when the previous is at `prev`. */
  function Reward(q: Query, prev: nat, at: nat): int
    requires q.Valid() && prev < at < |q.haystack|
  {
    if at == prev + 1 then MATCH_CONSECUTIVE
    else GAP_INNER * (at - prev - 1) + q.bonus[at]
  }

  /** Leading gap, first bonus and all rewards of an embedding. */
  ghost function Earned(q: Query, e: seq<nat>): int
    requires q.Valid() && Embeds(q, e) && |e| > 0
  {
    var last := |e| - 1;
    if last == 0 then GAP_LEADING * e[0] + q.bonus[e[0]]
    else Earned(q, e[..last]) + Reward(q, e[last - 1], e[last])
  }

  ghost predicate EmbedsAll(q: Query, e: seq<nat>) {
    Embeds(q, e) && |e| == |q.needle|
  }

  ghost function EmbeddingScore(q: Query, e: seq<nat>): int
    requires q.Valid() && EmbedsAll(q, e) && |e| > 0
  {
    Earned(q, e) + GAP_TRAILING * (|q.haystack| - 1 - e[|e| - 1])
  }

  /** `e` places needle[..i + 1] with its last character at position j. */
  ghost predicate EndsAt(q: Query, i: nat, j: nat, e: seq<nat>) {
    Embeds(q, e) && |e| == i + 1 && e[i] == j
  }

  /** `e` places needle[..i + 1] with its last character no later than position j. */
  ghost predicate EndsBy(q: Query, i: nat, j: nat, e: seq<nat>) {
    Embeds(q, e) && |e| == i + 1 && e[i] <= j
  }

  /** The value of `e` seen from position j: the skipped positions cost the row's gap. */
  ghost function SeenFrom(q: Query, i: nat, j: nat, e: seq<nat>): int
    requires q.Valid() && EndsBy(q, i, j, e)
  {
    Earned(q, e) + q.Skipping(i, j - e[i])
  }

  // ----- Upper bounds: no embedding beats the tables

  lemma {:induction false} DropLast(q: Query, i: nat, j: nat, e: seq<nat>)
    requires q.Valid() && 0 < i < |q.needle| && EndsAt(q, i, j, e)
    ensures 0 < j < |q.haystack| && q.needle[i] == q.haystack[j]
    ensures EndsBy(q, i - 1, j - 1, e[..i])
    ensures Earned(q, e) == Earned(q, e[..i]) + Reward(q, e[i - 1], j)
    ensures e[i - 1] < j - 1 ==>
              Earned(q, e) == SeenFrom(q, i - 1, j - 1, e[..i]) + q.bonus[j]
  {
    assert e[i - 1] < e[i];
  }

  lemma {:induction false} DBounds(q: Query, i: nat, j: nat, e: seq<nat>)
    requires q.Valid() && i < |q.needle| && j < |q.haystack|
    requires EndsAt(q, i, j, e)
    ensures D(q, i, j).Points? && Earned(q, e) <= D(q, i, j).v
    decreases i, j, 0
  {
    if i > 0 {
      DropLast(q, i, j, e);
      if e[i - 1] == j - 1 {
        DBounds(q, i - 1, j - 1, e[..i]);
      } else {
        MBounds(q, i - 1, j - 1, e[..i]);
      }
    }
  }

  lemma {:induction false} MBounds(q: Query, i: nat, j: nat, e: seq<nat>)
    requires q.Valid() && i < |q.needle| && j < |q.haystack|
    requires EndsBy(q, i, j, e)
    ensures M(q, i, j).Points? && SeenFrom(q, i, j, e) <= M(q, i, j).v
    decreases i, j, 1
  {
    if e[i] == j {
      DBounds(q, i, j, e);
    } else {
      MBounds(q, i, j - 1, e);
    }
  }

  // ----- Witnesses: the tables are attained

  lemma {:induction false} ExtendEmbedding(q: Query, i: nat, j: nat, before: seq<nat>)
    requires q.Valid() && 0 < i < |q.needle| && 0 < j < |q.haystack|
    requires EndsBy(q, i - 1, j - 1, before)
    requires q.needle[i] == q.haystack[j]
    ensures EndsAt(q, i, j, before + [j])
    ensures Earned(q, before + [j]) == Earned(q, before) + Reward(q, before[i - 1], j)
  {
    var e := before + [j];
    assert e[..i] == before;
  }

  lemma {:induction false} DAttained(q: Query, i: nat, j: nat) returns (e: seq<nat>)
    requires q.Valid() && i < |q.needle| && j < |q.haystack|
    requires D(q, i, j) != Min
    ensures EndsAt(q, i, j, e)
    ensures Earned(q, e) == D(q, i, j).v
    decreases i, j, 0
  {
    if i == 0 {
      e := [j];
    } else if D(q, i, j) == D(q, i - 1, j - 1).Plus(MATCH_CONSECUTIVE) {
      var before := DAttained(q, i - 1, j - 1);
      ExtendEmbedding(q, i, j, before);
      e := before + [j];
    } else {
      var before := MAttained(q, i - 1, j - 1);
      if before[i - 1] == j - 1 {
        // An adjacent match would have earned the consecutive reward.
        DBounds(q, i - 1, j - 1, before);
        assert false;
      }
      ExtendEmbedding(q, i, j, before);
      e := before + [j];
    }
  }

  lemma {:induction false} MAttained(q: Query, i: nat, j: nat) returns (e: seq<nat>)
    requires q.Valid() && i < |q.needle| && j < |q.haystack|
    requires M(q, i, j) != Min
    ensures EndsBy(q, i, j, e)
    ensures SeenFrom(q, i, j, e) == M(q, i, j).v
    decreases i, j, 1
  {
    if M(q, i, j) == D(q, i, j) {
      e := DAttained(q, i, j);
    } else {
      e := MAttained(q, i, j - 1);
    }
  }

  // ----- The main results on the tables

  /** D[i][j] is the best score of placing needle[..i + 1] with the last
      character at j, and SCORE_MIN exactly when that cannot be done. */
  lemma {:induction false} DIsBestEndingAt(q: Query, i: nat, j: nat)
    requires q.Valid() && i < |q.needle| && j < |q.haystack|
    ensures forall e | EndsAt(q, i, j, e) :: Points(Earned(q, e)).AtMost(D(q, i, j))
    ensures D(q, i, j) != Min ==> exists e :: EndsAt(q, i, j, e) && Points(Earned(q, e)) == D(q, i, j)
  {
    if D(q, i, j) != Min {
      var e := DAttained(q, i, j);
      assert EndsAt(q, i, j, e) && Points(Earned(q, e)) == D(q, i, j);
    }
    forall e | EndsAt(q, i, j, e)
      ensures Points(Earned(q, e)).AtMost(D(q, i, j))
    {
      DBounds(q, i, j, e);
    }
  }

  /** M[i][j] is the best score of placing needle[..i + 1] no later than j,
      paying the row's gap for every position skipped after the last match. */
  lemma {:induction false} MIsBestUpTo(q: Query, i: nat, j: nat)
    requires q.Valid() && i < |q.needle| && j < |q.haystack|
    ensures forall e | EndsBy(q, i, j, e) :: Points(SeenFrom(q, i, j, e)).AtMost(M(q, i, j))
    ensures M(q, i, j) != Min ==> exists e :: EndsBy(q, i, j, e) && Points(SeenFrom(q, i, j, e)) == M(q, i, j)
  {
    if M(q, i, j) != Min {
      var e := MAttained(q, i, j);
      assert EndsBy(q, i, j, e) && Points(SeenFrom(q, i, j, e)) == M(q, i, j);
    }
    forall e | EndsBy(q, i, j, e)
      ensures Points(SeenFrom(q, i, j, e)).AtMost(M(q, i, j))
    {
      MBounds(q, i, j, e);
    }
  }

  /** `best` is the maximum of EmbeddingScore, or SCORE_MIN if there is nothing to score. */
  ghost predicate IsBestScore(q: Query, best: Score)
    requires q.Valid() && |q.needle| > 0
  {
    && (forall e | EmbedsAll(q, e) :: Points(EmbeddingScore(q, e)).AtMost(best))
    && (best != Min ==> exists e :: EmbedsAll(q, e) && Points(EmbeddingScore(q, e)) == best)
  }

  lemma {:induction false} FinalCellIsBest(q: Query)
    requires q.Valid() && |q.needle| > 0 && |q.haystack| > 0
    ensures IsBestScore(q, M(q, |q.needle| - 1, |q.haystack| - 1))
    ensures M(q, |q.needle| - 1, |q.haystack| - 1) != Min <==> exists e :: EmbedsAll(q, e)
  {
    var i, j := |q.needle| - 1, |q.haystack| - 1;
    if M(q, i, j) != Min {
      var e := MAttained(q, i, j);
      assert EmbedsAll(q, e) && Points(EmbeddingScore(q, e)) == M(q, i, j);
    }
    forall e | EmbedsAll(q, e)
      ensures M(q, i, j) != Min && Points(EmbeddingScore(q, e)).AtMost(M(q, i, j))
    {
      assert EndsBy(q, i, j, e);
      MBounds(q, i, j, e);
    }
  }
}
