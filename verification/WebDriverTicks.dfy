/** Transposing action sequences into ticks, section 17.5 of W3C WebDriver. */
module WebDriverTicks {

  /** What happens in tick t: the t-th action of every sequence that has one, in order. */
  function TickOf<T>(rows: seq<seq<T>>, t: nat): seq<T> {
    if rows == [] then []
    else
      var last := rows[|rows| - 1];
      TickOf(rows[..|rows| - 1], t) + Cell(last, t)
  }

  /** The length of the longest sequence. */
  function Height<T>(rows: seq<seq<T>>): nat {
    if rows == [] then 0
    else
      var before := Height(rows[..|rows| - 1]);
      if |rows[|rows| - 1]| > before then |rows[|rows| - 1]| else before
  }

  ghost predicate AreTicksOf<T>(ticks: seq<seq<T>>, rows: seq<seq<T>>) {
    |ticks| == Height(rows) && forall t | 0 <= t < |ticks| :: ticks[t] == TickOf(rows, t)
  }

  lemma {:induction false} EmptyBeyondHeight<T>(rows: seq<seq<T>>, t: nat)
    requires t >= Height(rows)
    ensures TickOf(rows, t) == []
  {
    if rows != [] {
      EmptyBeyondHeight(rows[..|rows| - 1], t);
    }
  }

  lemma {:induction false} NoTicks<T>()
    ensures AreTicksOf<T>([], [])
  {
  }

  /** The inner loop: the actions of one more sequence go to the ends of the ticks,
      and a tick is added whenever the sequence is longer than all before it. */
  method AppendRow<T>(ticks: seq<seq<T>>, row: seq<T>, ghost rows: seq<seq<T>>) returns (more: seq<seq<T>>)
    requires AreTicksOf(ticks, rows)
    ensures AreTicksOf(more, rows + [row])
  {
    more := ticks;
    assert (rows + [row])[..|rows|] == rows;
    for i := 0 to |row|
      invariant |more| == if i > |ticks| then i else |ticks|
      invariant forall t | 0 <= t < |more| :: more[t] == if t < i then TickOf(rows + [row], t) else TickOf(rows, t)
    {
      if |more| < i + 1 {
        more := more + [[]];
        EmptyBeyondHeight(rows, i);
      }
      more := more[i := more[i] + [row[i]]];
    }
  }

  // ----- Nothing is lost

  /** Where the t-th action of sequence i sits in its tick. */
  function Rank<T>(rows: seq<seq<T>>, i: nat, t: nat): nat
    requires i <= |rows|
  {
    |TickOf(rows[..i], t)|
  }

  /** Every action of every sequence is in its tick, after those of earlier sequences. */
  lemma {:induction false} EveryActionHasItsPlace<T>(rows: seq<seq<T>>, i: nat, t: nat)
    requires i < |rows| && t < |rows[i]|
    ensures t < Height(rows)
    ensures Rank(rows, i, t) < |TickOf(rows, t)| && TickOf(rows, t)[Rank(rows, i, t)] == rows[i][t]
    decreases |rows|
  {
    var before := rows[..|rows| - 1];
    if i < |before| {
      EveryActionHasItsPlace(before, i, t);
      assert before[..i] == rows[..i];
    }
  }

  /** Nothing else is in a tick. */
  lemma {:induction false} OnlyActionsHavePlaces<T>(rows: seq<seq<T>>, t: nat, place: nat) returns (i: nat)
    requires place < |TickOf(rows, t)|
    ensures i < |rows| && t < |rows[i]| && place == Rank(rows, i, t)
  {
    var before := rows[..|rows| - 1];
    i := |before|;
    if place < |TickOf(before, t)| {
      i := OnlyActionsHavePlaces(before, t, place);
      assert before[..i] == rows[..i];
    }
  }

  lemma {:induction false} NoTickIsEmpty<T>(rows: seq<seq<T>>, t: nat)
    requires t < Height(rows)
    ensures TickOf(rows, t) != []
  {
    if t < Height(rows[..|rows| - 1]) {
      NoTickIsEmpty(rows[..|rows| - 1], t);
    }
  }

  /** Later sequences sit later in the tick. */
  lemma {:induction false} PlacesIncrease<T>(rows: seq<seq<T>>, i: nat, j: nat, t: nat)
    requires i < j < |rows| && t < |rows[i]|
    ensures Rank(rows, i, t) < Rank(rows, j, t)
  {
    assert rows[..j][..i] == rows[..i];
    EveryActionHasItsPlace(rows[..j], i, t);
  }

  function SumLengths<T>(rows: seq<seq<T>>): nat {
    if rows == [] then 0 else SumLengths(rows[..|rows| - 1]) + |rows[|rows| - 1]|
  }

  function SumTicks<T>(rows: seq<seq<T>>, h: nat): nat {
    if h == 0 then 0 else SumTicks(rows, h - 1) + |TickOf(rows, h - 1)|
  }

  lemma {:induction false} OneMoreRow<T>(rows: seq<seq<T>>, h: nat)
    requires rows != []
    ensures SumTicks(rows, h) == SumTicks(rows[..|rows| - 1], h)
                                 + if h < |rows[|rows| - 1]| then h else |rows[|rows| - 1]|
  {
    if h > 0 {
      OneMoreRow(rows, h - 1);
    }
  }

  lemma {:induction false} NoRows<T>(h: nat)
    ensures SumTicks<T>([], h) == 0
  {
    if h > 0 {
      NoRows<T>(h - 1);
    }
  }

  /** There are as many actions in the ticks as in the sequences. */
  lemma {:induction false} CountsAreConserved<T>(rows: seq<seq<T>>, h: nat)
    requires h >= Height(rows)
    ensures SumTicks(rows, h) == SumLengths(rows)
  {
    if rows == [] {
      NoRows<T>(h);
    } else {
      OneMoreRow(rows, h);
      CountsAreConserved(rows[..|rows| - 1], h);
    }
  }

  // ----- Reading one source back

  function Flatten<T>(ticks: seq<seq<T>>): seq<T> {
    if ticks == [] then [] else Flatten(ticks[..|ticks| - 1]) + ticks[|ticks| - 1]
  }

  lemma {:induction false} FlattenStep<T>(ticks: seq<seq<T>>, t: nat)
    requires t < |ticks|
    ensures Flatten(ticks[..t + 1]) == Flatten(ticks[..t]) + ticks[t]
  {
    assert ticks[..t + 1][..t] == ticks[..t];
  }

  lemma {:induction false} IndexInFlatten<T>(ticks: seq<seq<T>>, t: nat, r: nat) returns (k: nat)
    requires t < |ticks| && r < |ticks[t]|
    ensures k < |Flatten(ticks)| && Flatten(ticks)[k] == ticks[t][r]
  {
    var before := ticks[..|ticks| - 1];
    if t < |before| {
      k := IndexInFlatten(before, t, r);
    } else {
      k := |Flatten(before)| + r;
    }
  }

  lemma {:induction false} TickOfIndex<T>(ticks: seq<seq<T>>, k: nat) returns (t: nat, r: nat)
    requires k < |Flatten(ticks)|
    ensures t < |ticks| && r < |ticks[t]| && Flatten(ticks)[k] == ticks[t][r]
  {
    var before := ticks[..|ticks| - 1];
    if k < |Flatten(before)| {
      t, r := TickOfIndex(before, k);
    } else {
      t, r := |before|, k - |Flatten(before)|;
    }
  }

  /** The elements that `of` assigns to `key`. */
  function Only<T, K(==)>(s: seq<T>, of: T -> K, key: K): seq<T> {
    if s == [] then []
    else Only(s[..|s| - 1], of, key) + if of(s[|s| - 1]) == key then [s[|s| - 1]] else []
  }

  lemma {:induction false} OnlyConcat<T, K>(a: seq<T>, b: seq<T>, of: T -> K, key: K)
    ensures Only(a + b, of, key) == Only(a, of, key) + Only(b, of, key)
  {
    if b == [] {
      assert a + b == a;
    } else {
      var c := a + b;
      assert c[..|c| - 1] == a + b[..|b| - 1];
      OnlyConcat(a, b[..|b| - 1], of, key);
    }
  }

  /** The part of one sequence in tick t. */
  function Cell<T>(row: seq<T>, t: nat): seq<T> {
    if t < |row| then [row[t]] else []
  }

  lemma {:induction false} OnlyCell<T, K>(row: seq<T>, t: nat, of: T -> K, key: K)
    ensures (forall k | 0 <= k < |row| :: of(row[k]) == key) ==> Only(Cell(row, t), of, key) == Cell(row, t)
    ensures (forall k | 0 <= k < |row| :: of(row[k]) != key) ==> Only(Cell(row, t), of, key) == []
  {
    if t < |row| {
      assert Cell(row, t)[..0] == [];
    }
  }

  /** In one tick, the only action of a source is that of its own sequence. */
  lemma {:induction false} OnlyInTick<T, K>(rows: seq<seq<T>>, of: T -> K, i: nat, key: K, t: nat)
    requires i < |rows|
    requires forall j, k | 0 <= j < |rows| && 0 <= k < |rows[j]| :: of(rows[j][k]) == key <==> j == i
    ensures Only(TickOf(rows, t), of, key) == Cell(rows[i], t)
    decreases |rows|
  {
    hide Only;
    var before, last := rows[..|rows| - 1], rows[|rows| - 1];
    OnlyConcat(TickOf(before, t), Cell(last, t), of, key);
    OnlyCell(last, t, of, key);
    if i < |before| {
      OnlyInTick(before, of, i, key, t);
    } else {
      NoneInTick(before, of, key, t);
    }
  }

  lemma {:induction false} NoneInTick<T, K>(rows: seq<seq<T>>, of: T -> K, key: K, t: nat)
    requires forall j, k | 0 <= j < |rows| && 0 <= k < |rows[j]| :: of(rows[j][k]) != key
    ensures Only(TickOf(rows, t), of, key) == []
  {
    if rows == [] {
      OnlyNothing(of, key);
    } else {
      hide Only;
      var before, last := rows[..|rows| - 1], rows[|rows| - 1];
      NoneInTick(before, of, key, t);
      OnlyConcat(TickOf(before, t), Cell(last, t), of, key);
      OnlyCell(last, t, of, key);
    }
  }

  /** Running the ticks in order performs every source's own sequence, in its order. */
  lemma {:induction false} SequenceRecovered<T, K>(ticks: seq<seq<T>>, rows: seq<seq<T>>, of: T -> K, i: nat, key: K, h: nat)
    requires AreTicksOf(ticks, rows) && h <= |ticks|
    requires i < |rows|
    requires forall j, k | 0 <= j < |rows| && 0 <= k < |rows[j]| :: of(rows[j][k]) == key <==> j == i
    ensures Only(Flatten(ticks[..h]), of, key) == if h < |rows[i]| then rows[i][..h] else rows[i]
  {
    hide Only, TickOf, Height;
    if h == 0 {
      OnlyNothing(of, key);
      assert ticks[..0] == [] && rows[i][..0] == [];
    } else {
      SequenceRecovered(ticks, rows, of, i, key, h - 1);
      assert ticks[..h][..h - 1] == ticks[..h - 1];
      OnlyConcat(Flatten(ticks[..h - 1]), ticks[h - 1], of, key);
      OnlyInTick(rows, of, i, key, h - 1);
      if h - 1 < |rows[i]| {
        assert rows[i][..h] == rows[i][..h - 1] + [rows[i][h - 1]];
        assert h == |rows[i]| ==> rows[i][..h] == rows[i];
      }
    }
  }

  lemma {:induction false} OnlyNothing<T, K>(of: T -> K, key: K)
    ensures Only([], of, key) == []
  {
  }

  lemma {:induction false} WholeSequenceRecovered<T, K>(ticks: seq<seq<T>>, rows: seq<seq<T>>, of: T -> K, i: nat, key: K)
    requires AreTicksOf(ticks, rows) && i < |rows|
    requires forall j, k | 0 <= j < |rows| && 0 <= k < |rows[j]| :: of(rows[j][k]) == key <==> j == i
    ensures Only(Flatten(ticks), of, key) == rows[i]
  {
    SequenceRecovered(ticks, rows, of, i, key, |ticks|);
    assert ticks[..|ticks|] == ticks;
    RowBelowHeight(rows, i);
  }

  lemma {:induction false} RowBelowHeight<T>(rows: seq<seq<T>>, i: nat)
    requires i < |rows|
    ensures |rows[i]| <= Height(rows)
  {
    if i < |rows| - 1 {
      RowBelowHeight(rows[..|rows| - 1], i);
    }
  }

  // ----- Reading one source back that has several sequences

  /** The sequences of source `key`, in order. */
  function OwnRows<T, K(==)>(rows: seq<seq<T>>, keys: seq<K>, key: K): seq<seq<T>>
    requires |rows| == |keys|
  {
    if rows == [] then []
    else
      var last := |rows| - 1;
      var own := OwnRows(rows[..last], keys[..last], key);
      if keys[last] == key then own + [rows[last]] else own
  }

  /** The first actions of all sequences, then the second ones, and so on. */
  function Interleaved<T>(rows: seq<seq<T>>, h: nat): seq<T> {
    if h == 0 then [] else Interleaved(rows, h - 1) + TickOf(rows, h - 1)
  }

  ghost predicate AreSequencesOf<T, K>(rows: seq<seq<T>>, keys: seq<K>, of: T -> K) {
    |rows| == |keys| && forall i, k | 0 <= i < |rows| && 0 <= k < |rows[i]| :: of(rows[i][k]) == keys[i]
  }

  lemma {:induction false} OnlyOwnInTick<T, K>(rows: seq<seq<T>>, keys: seq<K>, of: T -> K, key: K, t: nat)
    requires AreSequencesOf(rows, keys, of)
    ensures Only(TickOf(rows, t), of, key) == TickOf(OwnRows(rows, keys, key), t)
  {
    if rows == [] {
      OnlyNothing(of, key);
    } else {
      hide Only;
      var last := |rows| - 1;
      var before, own := rows[..last], OwnRows(rows[..last], keys[..last], key);
      OnlyOwnInTick(before, keys[..last], of, key, t);
      OnlyConcat(TickOf(before, t), Cell(rows[last], t), of, key);
      OnlyCell(rows[last], t, of, key);
      assert (own + [rows[last]])[..|own|] == own;
    }
  }

  lemma {:induction false} OnlyOwnSoFar<T, K>(ticks: seq<seq<T>>, rows: seq<seq<T>>, keys: seq<K>, of: T -> K, key: K, h: nat)
    requires AreTicksOf(ticks, rows) && AreSequencesOf(rows, keys, of) && h <= |ticks|
    ensures Only(Flatten(ticks[..h]), of, key) == Interleaved(OwnRows(rows, keys, key), h)
  {
    hide Only, TickOf, Height, OwnRows, AreSequencesOf;
    if h == 0 {
      OnlyNothing(of, key);
      assert ticks[..0] == [];
    } else {
      OnlyOwnSoFar(ticks, rows, keys, of, key, h - 1);
      assert ticks[..h][..h - 1] == ticks[..h - 1];
      OnlyConcat(Flatten(ticks[..h - 1]), ticks[h - 1], of, key);
      OnlyOwnInTick(rows, keys, of, key, h - 1);
    }
  }

  lemma {:induction false} NothingBeyondHeight<T>(rows: seq<seq<T>>, h: nat)
    requires h >= Height(rows)
    ensures Interleaved(rows, h) == Interleaved(rows, Height(rows))
  {
    hide Height, TickOf;
    if h > Height(rows) {
      NothingBeyondHeight(rows, h - 1);
      EmptyBeyondHeight(rows, h - 1);
    }
  }

  lemma {:induction false} OwnRowsAreNoHigher<T, K>(rows: seq<seq<T>>, keys: seq<K>, key: K)
    requires |rows| == |keys|
    ensures Height(OwnRows(rows, keys, key)) <= Height(rows)
  {
    if rows != [] {
      var last := |rows| - 1;
      var own := OwnRows(rows[..last], keys[..last], key);
      OwnRowsAreNoHigher(rows[..last], keys[..last], key);
      assert (own + [rows[last]])[..|own|] == own;
    }
  }

  /** Whatever sequences share a source: its actions, read off the ticks in order, are its
      own sequences, transposed. */
  lemma {:induction false} SourceRecovered<T, K>(ticks: seq<seq<T>>, rows: seq<seq<T>>, keys: seq<K>, of: T -> K, key: K)
    requires AreTicksOf(ticks, rows) && AreSequencesOf(rows, keys, of)
    ensures var own := OwnRows(rows, keys, key);
            Only(Flatten(ticks), of, key) == Interleaved(own, Height(own))
  {
    hide Only, TickOf, Height, OwnRows, Interleaved;
    OnlyOwnSoFar(ticks, rows, keys, of, key, |ticks|);
    assert ticks[..|ticks|] == ticks;
    OwnRowsAreNoHigher(rows, keys, key);
    NothingBeyondHeight(OwnRows(rows, keys, key), |ticks|);
  }
}
