/** The functions of fzy.js in their own imperative form, proved against the
    tables and the embeddings of FzyTables. */
module FzyMatcher {
  import opened FzyTables

  const LONGEST_SCORED := 1024

  method PrecomputeBonus(casing: Casing, haystack: string) returns (matchBonus: array<int>)
    ensures fresh(matchBonus)
    ensures matchBonus.Length == |haystack|
    ensures forall i | 0 <= i < |haystack| :: matchBonus[i] == BonusAt(casing, haystack, i)
  {
    var m := |haystack|;
    matchBonus := new int[m];
    var lastCh := '/';
    for i := 0 to m
      invariant lastCh == if i == 0 then '/' else haystack[i - 1]
      invariant forall k | 0 <= k < i :: matchBonus[k] == BonusAt(casing, haystack, k)
    {
      var ch := haystack[i];
      var bonus := 0;
      if lastCh == '/' {
        bonus := MATCH_SLASH;
      } else if lastCh == '-' || lastCh == '_' || lastCh == ' ' {
        bonus := MATCH_WORD;
      } else if lastCh == '.' {
        bonus := MATCH_DOT;
      } else if casing.IsLower(lastCh) && casing.IsUpper(ch) {
        bonus := MATCH_CAPITAL;
      }
      matchBonus[i] := bonus;
      lastCh := ch;
    }
  }

  /** One completed row of each table. */
  ghost predicate RowFilled(q: Query, i: nat, dRow: seq<Score>, mRow: seq<Score>)
    requires q.Valid() && i < |q.needle|
  {
    && |dRow| == |mRow| == |q.haystack|
    && forall j {:trigger dRow[j]} {:trigger mRow[j]} | 0 <= j < |q.haystack| ::
         dRow[j] == D(q, i, j) && mRow[j] == M(q, i, j)
  }

  /** The inner loop of `compute`: row i from the row above. */
  method FillRow(needle: string, haystack: string, matchBonus: array<int>,
                 i: nat, dAbove: seq<Score>, mAbove: seq<Score>, ghost q: Query)
    returns (dRow: array<Score>, mRow: array<Score>)
    requires q.Valid() && q.needle == needle && q.haystack == haystack
    requires matchBonus.Length == |haystack|
    requires forall j | 0 <= j < |haystack| :: matchBonus[j] == q.bonus[j]
    requires i < |needle|
    requires i > 0 ==> RowFilled(q, i - 1, dAbove, mAbove)
    ensures fresh(dRow) && fresh(mRow)
    ensures RowFilled(q, i, dRow[..], mRow[..])
  {
    var m := |haystack|;
    dRow, mRow := new Score[m], new Score[m];
    var prevScore := Min;
    var gapScore := if i == |needle| - 1 then GAP_TRAILING else GAP_INNER;
    for j := 0 to m
      invariant forall k {:trigger dRow[k]} {:trigger mRow[k]} | 0 <= k < j ::
                  dRow[k] == D(q, i, k) && mRow[k] == M(q, i, k)
      invariant prevScore == if j == 0 then Min else M(q, i, j - 1)
    {
      if needle[i] == haystack[j] {
        var score := Min;
        if i == 0 {
          score := Points(j * GAP_LEADING + matchBonus[j]);
        } else if j > 0 {
          score := mAbove[j - 1].Plus(matchBonus[j]).Higher(dAbove[j - 1].Plus(MATCH_CONSECUTIVE));
        }
        dRow[j] := score;
        prevScore := score.Higher(prevScore.Plus(gapScore));
      } else {
        dRow[j] := Min;
        prevScore := prevScore.Plus(gapScore);
      }
      mRow[j] := prevScore;
    }
  }

  /** Fills both tables row by row; every cell ends up with its recurrence value. */
  method Compute(casing: Casing, needle: string, haystack: string,
                 d: array<seq<Score>>, best: array<seq<Score>>)
    requires d != best && d.Length == best.Length == |needle|
    modifies d, best
    ensures TablesFilled(MakeQuery(casing, needle, haystack), d[..], best[..])
  {
    var matchBonus := PrecomputeBonus(casing, haystack);
    ghost var q := MakeQuery(casing, needle, haystack);
    for i := 0 to |needle|
      invariant forall j | 0 <= j < |haystack| :: matchBonus[j] == q.bonus[j]
      invariant forall r | 0 <= r < i :: RowFilled(q, r, d[r], best[r])
    {
      var dAbove, mAbove := [], [];
      if i > 0 {
        dAbove, mAbove := d[i - 1], best[i - 1];
      }
      var dRow, mRow := FillRow(needle, haystack, matchBonus, i, dAbove, mAbove, q);
      d[i], best[i] := dRow[..], mRow[..];
    }
  }

  ghost predicate TablesFilled(q: Query, d: seq<seq<Score>>, best: seq<seq<Score>>)
    requires q.Valid()
  {
    && |d| == |best| == |q.needle|
    && forall i | 0 <= i < |q.needle| :: RowFilled(q, i, d[i], best[i])
  }

  // ----- score

  /** The sizes for which the tables are consulted at all. */
  predicate Scored(needle: string, haystack: string) {
    0 < |needle| != |haystack| && 0 < |haystack| <= LONGEST_SCORED
  }

  /** The value `score` returns, used where functions need it. */
  function ScoreOf(casing: Casing, needle: string, haystack: string): Score {
    if needle == "" || haystack == "" then Min
    else if |needle| == |haystack| then Max
    else if |haystack| > LONGEST_SCORED then Min
    else M(MakeQuery(casing, needle, haystack), |needle| - 1, |haystack| - 1)
  }

  /** Scored haystacks get the best score over every embedding. */
  method ScoreMatch(casing: Casing, needle: string, haystack: string) returns (score: Score)
    ensures score == ScoreOf(casing, needle, haystack)
    ensures Scored(needle, haystack) ==> IsBestScore(MakeQuery(casing, needle, haystack), score)
    ensures score.Max? <==> 0 < |needle| == |haystack|
    ensures needle == "" || haystack == "" || (|haystack| > LONGEST_SCORED && |needle| != |haystack|) ==> score == Min
  {
    var n, m := |needle|, |haystack|;
    if n == 0 || m == 0 {
      return Min;
    }
    if n == m {
      return Max;
    }
    if m > LONGEST_SCORED {
      return Min;
    }
    var d, best := new seq<Score>[n], new seq<Score>[n];
    Compute(casing, needle, haystack, d, best);
    FinalCellIsBest(MakeQuery(casing, needle, haystack));
    return best[n - 1][m - 1];
  }

  // ----- positions

  /** Line 162 of the source: may row i's character be taken at j? */
  predicate Accepts(q: Query, i: nat, j: nat, required: bool)
    requires q.Valid() && i < |q.needle| && j < |q.haystack|
  {
    D(q, i, j) != Min && (required || D(q, i, j) == M(q, i, j))
  }

  /** Line 168: must the next row up match right before j? It compares M, not D. */
  predicate RequiresPrevious(q: Query, i: nat, j: nat)
    requires q.Valid() && i < |q.needle| && j < |q.haystack|
  {
    i > 0 && j > 0 && M(q, i, j) == D(q, i - 1, j - 1).Plus(MATCH_CONSECUTIVE)
  }

  datatype Slot = Hole | At(pos: nat)

  /** The slots of rows 0..i when the backtracking loop stands at column j. */
  function Backtrack(q: Query, i: int, j: int, required: bool): (slots: seq<Slot>)
    requires q.Valid() && -1 <= i < |q.needle| && -1 <= j < |q.haystack|
    ensures |slots| == i + 1
    decreases j
  {
    if i < 0 then []
    else if j < 0 then seq(i + 1, _ => Hole)
    else if Accepts(q, i, j, required) then Backtrack(q, i - 1, j - 1, RequiresPrevious(q, i, j)) + [At(j)]
    else Backtrack(q, i, j - 1, required)
  }

  function Holes(n: nat): (slots: seq<Slot>)
    ensures |slots| == n && forall k | 0 <= k < n :: slots[k] == Hole
  {
    seq(n, _ => Hole)
  }

  function FirstPositions(n: nat): (slots: seq<Slot>)
    ensures |slots| == n && forall k | 0 <= k < n :: slots[k] == At(k)
  {
    seq(n, i requires 0 <= i < n => At(i))
  }

  /** The slots `positions` fills, used where functions need them. */
  function PositionsOf(casing: Casing, needle: string, haystack: string): (slots: seq<Slot>)
    ensures |slots| == |needle|
  {
    var n, m := |needle|, |haystack|;
    if n == 0 || m == 0 then Holes(n)
    else if n == m then FirstPositions(n)
    else if m > LONGEST_SCORED then Holes(n)
    else Backtrack(MakeQuery(casing, needle, haystack), n - 1, m - 1, false)
  }

  method Positions(casing: Casing, needle: string, haystack: string) returns (positions: array<Slot>)
    ensures fresh(positions)
    ensures positions[..] == PositionsOf(casing, needle, haystack)
    ensures 0 < |needle| == |haystack| ==> forall k | 0 <= k < |needle| :: positions[k] == At(k)
    ensures needle == "" || haystack == "" || (|haystack| > LONGEST_SCORED && |needle| != |haystack|) ==>
              positions.Length == |needle| && forall k | 0 <= k < |needle| :: positions[k] == Hole
  {
    var n, m := |needle|, |haystack|;
    positions := new Slot[n](_ => Hole);
    if n == 0 || m == 0 {
      return;
    }
    if n == m {
      for i := 0 to n
        invariant forall k | 0 <= k < i :: positions[k] == At(k)
      {
        positions[i] := At(i);
      }
      return;
    }
    if m > LONGEST_SCORED {
      return;
    }
    var d, best := new seq<Score>[n], new seq<Score>[n];
    Compute(casing, needle, haystack, d, best);
    FillPositions(MakeQuery(casing, needle, haystack), n, m, d[..], best[..], positions);
  }

  /** The backtracking loops of `positions`, from the last cell of filled tables. */
  method FillPositions(ghost q: Query, n: nat, m: nat,
                       d: seq<seq<Score>>, best: seq<seq<Score>>, positions: array<Slot>)
    requires q.Valid() && n == |q.needle| > 0 && m == |q.haystack| > 0
    requires TablesFilled(q, d, best)
    requires positions.Length == n && forall k | 0 <= k < n :: positions[k] == Hole
    modifies positions
    ensures positions[..] == Backtrack(q, n - 1, m - 1, false)
  {
    ghost var whole := Backtrack(q, n - 1, m - 1, false);
    var matchRequired := false;
    var i, j := n - 1, m - 1;
    while i >= 0
      invariant -1 <= i < n && -1 <= j < m
      invariant forall k | 0 <= k < n :: positions[k] == if k <= i then Hole else whole[k]
      invariant whole[..i + 1] == Backtrack(q, i, j, matchRequired)
    {
      assert RowFilled(q, i, d[i], best[i]);
      assert i > 0 ==> RowFilled(q, i - 1, d[i - 1], best[i - 1]);
      while j >= 0
        invariant -1 <= j < m
        invariant whole[..i + 1] == Backtrack(q, i, j, matchRequired)
      {
        if d[i][j] != Min && (matchRequired || d[i][j] == best[i][j]) {
          assert Accepts(q, i, j, matchRequired);
          matchRequired := i > 0 && j > 0 && best[i][j] == d[i - 1][j - 1].Plus(MATCH_CONSECUTIVE);
          positions[i] := At(j);
          j := j - 1;
          break;
        }
        j := j - 1;
      }
      assert whole[..i] == whole[..i + 1][..i];
      i := i - 1;
    }
  }
}
