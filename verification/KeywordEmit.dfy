/** The back end of KeywordLookupGenerator.py: the emitted matcher as a small
    program with its own evaluator, and the proof that the program recognises
    exactly the keywords. */
module KeywordEmit {
  import opened Wrappers
  import opened KeywordTrie
  import opened KeywordFillOut
  import opened KeywordCompare
  import opened StableSorting

  /** `code[at] == unit`, or COMPARE_n(code + at, units). */
  datatype Test = One(at: nat, unit: Unit) | Packed(at: nat, units: Word)

  /** A matcher: checks that a keyword ends here, and if/else-if chains. */
  datatype Stmt =
    | IfStops(at: nat, shift: nat, keyword: Word, token: Token)
    | IfChain(arms: seq<Arm>)

  datatype Arm = Arm(test: Test, body: seq<Stmt>)

  // ----- printSubTreeAsC

  /** A three-unit test is widened backwards over the unit before it. */
  function MakeTest(c: Trie, rootIndex: nat): Test
    requires rootIndex <= |c.fullPrefix|
  {
    var widen := rootIndex > 0 && |c.prefix| == 3;
    var baseIndex := if widen then rootIndex - 1 else rootIndex;
    var k := if widen then [c.fullPrefix[baseIndex]] + c.prefix else c.prefix;
    if |k| == 1 then One(baseIndex, k[0]) else Packed(baseIndex, k)
  }

  function Emit(t: Trie): seq<Stmt>
    requires Labelled(t)
    decreases t, 1
  {
    (match t.value
     case Some(token) => [IfStops(|t.fullPrefix|, |t.fullPrefix|, t.fullPrefix, token)]
     case None => [])
    + (if t.keys == [] then [] else [IfChain(EmitArms(t.keys, t.fullPrefix))])
  }

  function EmitArms(keys: seq<Trie>, full: Word): (arms: seq<Arm>)
    requires forall c | c in keys :: c.fullPrefix == full + c.prefix && Labelled(c)
    ensures |arms| == |keys|
    decreases keys, 0
  {
    if keys == [] then []
    else
      assert keys[0] in keys;
      [Arm(MakeTest(keys[0], |full|), Emit(keys[0]))] + EmitArms(keys[1..], full)
  }

  lemma {:induction false} EmitArmsAt(keys: seq<Trie>, full: Word)
    requires forall c | c in keys :: c.fullPrefix == full + c.prefix && Labelled(c)
    ensures forall k | 0 <= k < |keys| ::
              keys[k] in keys && EmitArms(keys, full)[k] == Arm(MakeTest(keys[k], |full|), Emit(keys[k]))
  {
    if keys != [] {
      EmitArmsAt(keys[1..], full);
      forall k | 1 <= k < |keys|
        ensures keys[k] in keys && EmitArms(keys, full)[k] == Arm(MakeTest(keys[k], |full|), Emit(keys[k]))
      {
        assert keys[k] == keys[1..][k - 1];
      }
    }
  }

  /** The printing loop itself, one arm after another. */
  method PrintSubTree(t: Trie) returns (code: seq<Stmt>)
    requires Labelled(t)
    ensures code == Emit(t)
    decreases t
  {
    code := [];
    if t.value.Some? {
      code := [IfStops(|t.fullPrefix|, |t.fullPrefix|, t.fullPrefix, t.value.value)];
    }
    EmitArmsAt(t.keys, t.fullPrefix);
    var arms := [];
    for i := 0 to |t.keys|
      invariant arms == EmitArms(t.keys, t.fullPrefix)[..i]
    {
      assert t.keys[i] in t.keys;
      var body := PrintSubTree(t.keys[i]);
      arms := arms + [Arm(MakeTest(t.keys[i], |t.fullPrefix|), body)];
    }
    assert arms == EmitArms(t.keys, t.fullPrefix);
    if t.keys != [] {
      code := code + [IfChain(arms)];
    }
  }

  // ----- What the emitted program does

  /** A return of `token` after shifting `shift` units and interning `keyword`;
      Fault is a read past the buffer or a macro that does not exist. */
  datatype Outcome = Return(token: Token, keyword: Word, shift: nat) | Continue | Fault

  function Holds(m: Machine, test: Test): Option<bool> {
    match test
    case One(at, unit) =>
      if at < |m.code| then Some(m.code[at] == unit) else None
    case Packed(at, units) =>
      if 2 <= |units| <= 8 && at + |units| <= |m.code| then Some(m.Compare(at, units)) else None
  }

  function EvalBody(m: Machine, body: seq<Stmt>): Outcome
    decreases body, 0
  {
    if body == [] then Continue
    else
      var first := EvalStmt(m, body[0]);
      if first.Continue? then EvalBody(m, body[1..]) else first
  }

  function EvalStmt(m: Machine, s: Stmt): Outcome
    decreases s, 1
  {
    match s
    case IfStops(at, shift, keyword, token) =>
      if at >= |m.code| then Fault
      else if m.stops(m.code[at]) then Return(token, keyword, shift)
      else Continue
    case IfChain(arms) => EvalArms(m, arms)
  }

  function EvalArms(m: Machine, arms: seq<Arm>): Outcome
    decreases arms, 0
  {
    if arms == [] then Continue
    else
      match Holds(m, arms[0].test)
      case None => Fault
      case Some(true) => EvalBody(m, arms[0].body)
      case Some(false) => EvalArms(m, arms[1..])
  }

  // ----- maxLength

  function MaxLength(t: Trie): (n: nat)
    ensures |t.fullPrefix| <= n
    decreases t, 1
  {
    MaxAmong(t.keys, |t.fullPrefix|)
  }

  function MaxAmong(keys: seq<Trie>, max: nat): (n: nat)
    ensures max <= n
    decreases keys, 0
  {
    if keys == [] then max
    else
      var l := MaxLength(keys[0]);
      MaxAmong(keys[1..], if l > max then l else max)
  }

  method LongestPrefix(t: Trie) returns (max: nat)
    ensures max == MaxLength(t)
    decreases t
  {
    max := |t.fullPrefix|;
    for i := 0 to |t.keys|
      invariant MaxAmong(t.keys[i..], max) == MaxLength(t)
    {
      var l := LongestPrefix(t.keys[i]);
      assert t.keys[i..][1..] == t.keys[i + 1..];
      if l > max {
        max := l;
      }
    }
  }

  lemma {:induction false} MaxAmongBounds(keys: seq<Trie>, max: nat, c: Trie)
    requires c in keys
    ensures MaxLength(c) <= MaxAmong(keys, max)
    decreases |keys|
  {
    if c != keys[0] {
      var l := MaxLength(keys[0]);
      MaxAmongBounds(keys[1..], if l > max then l else max, c);
    }
  }

  // ----- Correctness of one node

  /** A keyword of `t` ends right before position n, where an identifier cannot go on. */
  ghost predicate Hit(t: Trie, m: Machine, n: nat) {
    && |t.fullPrefix| <= n < |m.code|
    && Get(t, m.code[|t.fullPrefix|..n]).Some?
    && m.stops(m.code[n])
  }

  /** The first hit is what is returned; falling through means there is none. */
  ghost predicate Recognises(t: Trie, m: Machine, o: Outcome) {
    match o
    case Return(token, keyword, n) =>
      && Hit(t, m, n)
      && Get(t, m.code[|t.fullPrefix|..n]) == Some(token)
      && keyword == m.code[..n]
      && forall k: nat | k < n :: !Hit(t, m, k)
    case Continue => forall k: nat :: !Hit(t, m, k)
    case Fault => false
  }

  /** What a node may rely on when control reaches it. */
  ghost predicate Reached(t: Trie, m: Machine) {
    && m.Valid()
    && WellFormed(t) && Labelled(t) && EdgesFit(t) && EdgesIn(t, m.Fits)
    && m.Reads(0, t.fullPrefix)
    && (forall k | 0 <= k < |t.fullPrefix| :: m.Fits(t.fullPrefix[k]))
    && MaxLength(t) < |m.code|
  }

  /** An edge's test, widened or not, says whether the edge is what comes next. */
  lemma {:induction false} TestIsExact(m: Machine, full: Word, c: Trie)
    requires m.Valid() && m.Reads(0, full) && (forall k | 0 <= k < |full| :: m.Fits(full[k]))
    requires c.fullPrefix == full + c.prefix && 1 <= |c.prefix| <= 8
    requires forall k | 0 <= k < |c.prefix| :: m.Fits(c.prefix[k])
    requires |c.fullPrefix| <= |m.code|
    ensures Holds(m, MakeTest(c, |full|)) == Some(m.Reads(|full|, c.prefix))
  {
    if |full| > 0 && |c.prefix| == 3 {
      var k := [full[|full| - 1]] + c.prefix;
      assert MakeTest(c, |full|) == Packed(|full| - 1, k);
      CompareIsEquality(m, |full| - 1, k);
      ReadsSplit(m, |full| - 1, k, 1);
      assert k[1..] == c.prefix;
      assert m.code[0 + (|full| - 1)] == full[|full| - 1];
    } else if |c.prefix| == 1 {
      assert m.Reads(|full|, c.prefix) <==> m.code[|full| + 0] == c.prefix[0];
    } else {
      CompareIsEquality(m, |full|, c.prefix);
    }
  }

  ghost predicate ArmsReady(m: Machine, full: Word, keys: seq<Trie>) {
    && m.Valid() && m.Reads(0, full) && (forall k | 0 <= k < |full| :: m.Fits(full[k]))
    && Pairwise(keys, Apart)
    && forall c | c in keys ::
         && c.fullPrefix == full + c.prefix && Labelled(c)
         && 1 <= |c.prefix| <= 8 && |c.fullPrefix| <= |m.code|
         && forall k | 0 <= k < |c.prefix| :: m.Fits(c.prefix[k])
  }

  /** The chain runs the body of the one child whose edge comes next, if any. */
  lemma {:induction false} ChainSelects(m: Machine, full: Word, keys: seq<Trie>, i: nat)
    requires ArmsReady(m, full, keys)
    requires i < |keys| ==> m.Reads(|full|, keys[i].prefix)
    requires i >= |keys| ==> forall k | 0 <= k < |keys| :: !m.Reads(|full|, keys[k].prefix)
    ensures EvalArms(m, EmitArms(keys, full)) == if i < |keys| then EvalBody(m, Emit(keys[i])) else Continue
    decreases |keys|
  {
    if keys != [] {
      var arms := EmitArms(keys, full);
      assert keys[0] in keys;
      TestIsExact(m, full, keys[0]);
      if i != 0 {
        if i < |keys| {
          assert keys[i] in keys && Apart(keys[0], keys[i]);
          assert m.code[|full| + 0] == keys[i].prefix[0];
        }
        assert !m.Reads(|full|, keys[0].prefix);
        assert arms[1..] == EmitArms(keys[1..], full);
        ChainSelects(m, full, keys[1..], i - 1);
      }
    }
  }

  lemma {:induction false} ReadsPrefix(m: Machine, at: nat, c: Word, n: nat)
    requires at <= n <= |m.code|
    ensures c <= m.code[at..n] <==> m.Reads(at, c) && at + |c| <= n
  {
    var w := m.code[at..n];
    if m.Reads(at, c) && at + |c| <= n {
      forall k | 0 <= k < |c|
        ensures w[k] == c[k]
      {
        assert m.code[at + k] == c[k];
      }
    }
    if c <= w {
      forall k | 0 <= k < |c|
        ensures m.code[at + k] == c[k]
      {
        assert w[k] == c[k];
      }
    }
  }

  /** Beyond the node itself, the hits are those of the child that comes next. */
  lemma {:induction false} HitsOfChild(t: Trie, m: Machine, c: Trie, n: nat)
    requires Reached(t, m) && c in t.keys && m.Reads(|t.fullPrefix|, c.prefix)
    requires n > |t.fullPrefix|
    ensures Hit(t, m, n) <==> Hit(c, m, n)
    ensures |c.fullPrefix| <= n < |m.code| ==>
              Get(t, m.code[|t.fullPrefix|..n]) == Get(c, m.code[|c.fullPrefix|..n])
  {
    if n < |m.code| {
      var f := |t.fullPrefix|;
      var w := m.code[f..n];
      assert m.code[f + 0] == c.prefix[0];
      AmongFinds(t.keys, w, c);
      ReadsPrefix(m, f, c.prefix, n);
      if |c.fullPrefix| <= n {
        assert w[|c.prefix|..] == m.code[|c.fullPrefix|..n];
      }
    }
  }

  lemma {:induction false} NoHitsBelow(t: Trie, m: Machine, n: nat)
    requires Reached(t, m) && n > |t.fullPrefix|
    requires forall c | c in t.keys :: !m.Reads(|t.fullPrefix|, c.prefix)
    ensures !Hit(t, m, n)
  {
    if n < |m.code| {
      var w := m.code[|t.fullPrefix|..n];
      if c :| c in t.keys && StartsWith(c, w[0]) {
        AmongFinds(t.keys, w, c);
        ReadsPrefix(m, |t.fullPrefix|, c.prefix, n);
      } else {
        AmongMisses(t.keys, w);
      }
    }
  }

  lemma {:induction false} ChildReached(t: Trie, m: Machine, c: Trie)
    requires Reached(t, m) && c in t.keys
    requires m.Reads(|t.fullPrefix|, c.prefix)
    ensures Reached(c, m)
  {
    MaxAmongBounds(t.keys, |t.fullPrefix|, c);
    ReadsSplit(m, 0, c.fullPrefix, |t.fullPrefix|);
    assert c.fullPrefix[..|t.fullPrefix|] == t.fullPrefix;
    assert c.fullPrefix[|t.fullPrefix|..] == c.prefix;
  }

  lemma {:induction false} NodeReadiesArms(t: Trie, m: Machine)
    requires Reached(t, m)
    ensures ArmsReady(m, t.fullPrefix, t.keys)
  {
    forall c | c in t.keys
      ensures |c.fullPrefix| <= |m.code| && 1 <= |c.prefix|
    {
      MaxAmongBounds(t.keys, |t.fullPrefix|, c);
    }
  }

  /** How a node's two statements run one after the other. */
  lemma {:induction false} BodyRuns(t: Trie, m: Machine)
    requires Labelled(t) && |t.fullPrefix| < |m.code|
    ensures EvalBody(m, Emit(t)) ==
            if t.value.Some? && m.stops(m.code[|t.fullPrefix|])
            then Return(t.value.value, t.fullPrefix, |t.fullPrefix|)
            else EvalArms(m, EmitArms(t.keys, t.fullPrefix))
  {
    var n := |t.fullPrefix|;
    var chain := if t.keys == [] then [] else [IfChain(EmitArms(t.keys, t.fullPrefix))];
    assert EvalBody(m, chain) == EvalArms(m, EmitArms(t.keys, t.fullPrefix)) by {
      if t.keys != [] {
        assert chain[1..] == [];
      }
    }
    if t.value.Some? {
      assert Emit(t) == [IfStops(n, n, t.fullPrefix, t.value.value)] + chain;
      assert Emit(t)[1..] == chain;
    } else {
      assert Emit(t) == chain;
    }
  }

  lemma {:induction false} EmitRecognises(t: Trie, m: Machine)
    requires Reached(t, m)
    ensures Recognises(t, m, EvalBody(m, Emit(t)))
    decreases t
  {
    hide Emit, EmitArms, EvalBody, EvalArms, EdgesFit, EdgesIn, MaxLength;
    var n := |t.fullPrefix|;
    BodyRuns(t, m);
    assert Get(t, m.code[n..n]) == t.value;
    assert m.code[..n] == t.fullPrefix by {
      assert forall k | 0 <= k < n :: m.code[0 + k] == t.fullPrefix[k];
    }
    if !(t.value.Some? && m.stops(m.code[n])) {
      assert !Hit(t, m, n);
      NodeReadiesArms(t, m);
      if i :| 0 <= i < |t.keys| && m.Reads(n, t.keys[i].prefix) {
        var c := t.keys[i];
        ChainSelects(m, t.fullPrefix, t.keys, i);
        ChildReached(t, m, c);
        EmitRecognises(c, m);
        ChildAnswers(t, m, c, EvalBody(m, Emit(c)));
      } else {
        ChainSelects(m, t.fullPrefix, t.keys, |t.keys|);
        forall k: nat
          ensures !Hit(t, m, k)
        {
          if k > n {
            NoHitsBelow(t, m, k);
          }
        }
      }
    }
  }

  lemma {:induction false} ChildAnswers(t: Trie, m: Machine, c: Trie, o: Outcome)
    requires Reached(t, m) && c in t.keys && m.Reads(|t.fullPrefix|, c.prefix)
    requires !Hit(t, m, |t.fullPrefix|) && Recognises(c, m, o)
    ensures Recognises(t, m, o)
  {
    forall k: nat | k > |t.fullPrefix|
      ensures Hit(t, m, k) <==> Hit(c, m, k)
    {
      HitsOfChild(t, m, c, k);
    }
    if o.Return? {
      HitsOfChild(t, m, c, o.shift);
    }
  }
}
