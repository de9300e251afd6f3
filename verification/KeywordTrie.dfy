/** The trie of KeywordLookupGenerator.py: insertion, coalescing and weighing,
    each proved to keep the map from keywords to tokens. */
module KeywordTrie {
  import opened Wrappers
  import opened StableSorting

  /** A code unit of the source text, and a keyword as a string of them. */
  type Unit = nat
  type Word = seq<Unit>
  type Token = string

  /** A node. The dictionary of children lists its values in insertion order;
      each child is filed under its own prefix. `fullPrefix` and `weight` are
      what fillOut adds. */
  datatype Trie = Trie(prefix: Word, value: Option<Token>, keys: seq<Trie>, fullPrefix: Word, weight: int)

  function NewTrie(prefix: Word): Trie {
    Trie(prefix, None, [], [], 0)
  }

  // ----- What a trie means

  /** The token of `w`, read below the prefix of `t`. */
  function Get(t: Trie, w: Word): Option<Token>
    decreases t, 1
  {
    if w == [] then t.value else Among(t.keys, w)
  }

  function Among(keys: seq<Trie>, w: Word): Option<Token>
    requires w != []
    decreases keys, 0
  {
    if keys == [] then None
    else if StartsWith(keys[0], w[0]) then Find(keys[0], w)
    else Among(keys[1..], w)
  }

  /** The token of `w`, read from the start of the prefix of `t`. */
  function Find(t: Trie, w: Word): Option<Token>
    decreases t, 2
  {
    if t.prefix <= w then Get(t, w[|t.prefix|..]) else None
  }

  predicate StartsWith(t: Trie, u: Unit) {
    t.prefix != [] && t.prefix[0] == u
  }

  predicate Apart(a: Trie, b: Trie) {
    a.prefix != [] && b.prefix != [] && a.prefix[0] != b.prefix[0]
  }

  /** Below the root prefixes are non-empty and siblings differ in their first unit. */
  ghost predicate WellFormed(t: Trie)
    decreases t
  {
    && Pairwise(t.keys, Apart)
    && forall c | c in t.keys :: c.prefix != [] && WellFormed(c)
  }

  lemma {:induction false} AmongFinds(keys: seq<Trie>, w: Word, c: Trie)
    requires w != [] && Pairwise(keys, Apart)
    requires c in keys && StartsWith(c, w[0])
    ensures Among(keys, w) == Find(c, w)
  {
    if c == keys[0] {
    } else {
      var k :| 0 <= k < |keys| && keys[k] == c;
      assert Apart(keys[0], keys[k]);
      AmongFinds(keys[1..], w, c);
    }
  }

  lemma {:induction false} AmongMisses(keys: seq<Trie>, w: Word)
    requires w != [] && forall c | c in keys :: !StartsWith(c, w[0])
    ensures Among(keys, w) == None
  {
    if keys != [] {
      AmongMisses(keys[1..], w);
    }
  }

  // ----- insert

  /** Position of the child filed under `prefix`, or |keys|. */
  function Filed(keys: seq<Trie>, prefix: Word): (i: nat)
    ensures i <= |keys|
    ensures i < |keys| ==> keys[i].prefix == prefix
    ensures forall k | 0 <= k < i :: keys[k].prefix != prefix
  {
    if keys == [] then 0
    else if keys[0].prefix == prefix then 0
    else 1 + Filed(keys[1..], prefix)
  }

  /** Assignment to the dictionary: an existing key keeps its place. */
  function Put(keys: seq<Trie>, t: Trie): seq<Trie> {
    var i := Filed(keys, t.prefix);
    if i < |keys| then keys[i := t] else keys + [t]
  }

  function Insert(t: Trie, key: Word, value: Token): (r: Trie)
    ensures r.prefix == t.prefix
    decreases |key|
  {
    if key == [] then t.(value := Some(value))
    else
      var i := Filed(t.keys, key[..1]);
      var child := if i < |t.keys| then t.keys[i] else NewTrie(key[..1]);
      t.(keys := Put(t.keys, Insert(child, key[1..], value)))
  }

  /** Before coalescing every edge is a single unit. */
  ghost predicate SingleUnits(t: Trie)
    decreases t
  {
    forall c | c in t.keys :: |c.prefix| == 1 && SingleUnits(c)
  }

  lemma {:induction false} PutKeepsShape(keys: seq<Trie>, t: Trie)
    requires |t.prefix| == 1 && forall c | c in keys :: |c.prefix| == 1
    requires Pairwise(keys, Apart)
    ensures Pairwise(Put(keys, t), Apart)
    ensures t in Put(keys, t)
    ensures forall c | c in Put(keys, t) :: c == t || (c in keys && c.prefix != t.prefix)
    ensures forall c | c in keys && c.prefix != t.prefix :: c in Put(keys, t)
  {
    var i := Filed(keys, t.prefix);
    var out := Put(keys, t);
    forall k | 0 <= k < |keys| && k != i
      ensures keys[k].prefix != t.prefix && keys[k].prefix[0] != t.prefix[0]
    {
      if i < |keys| {
        assert Apart(keys[i], keys[k]);
      } else {
        assert keys[k].prefix != t.prefix;
      }
    }
    forall c | c in out
      ensures c == t || (c in keys && c.prefix != t.prefix)
    {
      var k :| 0 <= k < |out| && out[k] == c;
    }
    forall c | c in keys && c.prefix != t.prefix
      ensures c in out
    {
      var k :| 0 <= k < |keys| && keys[k] == c;
      assert out[k] == c;
    }
    assert out[i] == t;
  }

  lemma {:induction false} InsertKeepsShape(t: Trie, key: Word, value: Token)
    requires WellFormed(t) && SingleUnits(t)
    ensures WellFormed(Insert(t, key, value)) && SingleUnits(Insert(t, key, value))
    decreases |key|
  {
    if key != [] {
      var i := Filed(t.keys, key[..1]);
      var child := if i < |t.keys| then t.keys[i] else NewTrie(key[..1]);
      InsertKeepsShape(child, key[1..], value);
      PutKeepsShape(t.keys, Insert(child, key[1..], value));
    }
  }

  lemma {:induction false} InsertThenGet(t: Trie, key: Word, value: Token, w: Word)
    requires WellFormed(t) && SingleUnits(t)
    ensures Get(Insert(t, key, value), w) == if w == key then Some(value) else Get(t, w)
    decreases |key|
  {
    if key != [] && w != [] {
      var i := Filed(t.keys, key[..1]);
      var child := if i < |t.keys| then t.keys[i] else NewTrie(key[..1]);
      var child' := Insert(child, key[1..], value);
      if w[0] == key[0] {
        InsertThenGet(child, key[1..], value, w[1..]);
        SameBranch(t, key, w, child, child');
        assert w == key <==> w[1..] == key[1..] by {
          assert w == [w[0]] + w[1..] && key == [key[0]] + key[1..];
        }
      } else {
        OtherBranch(t.keys, w, child');
      }
    }
  }

  /** Below the first unit of the key it is the child that decides. */
  lemma {:induction false} SameBranch(t: Trie, key: Word, w: Word, child: Trie, child': Trie)
    requires WellFormed(t) && SingleUnits(t) && key != [] && w != [] && w[0] == key[0]
    requires var i := Filed(t.keys, key[..1]); child == if i < |t.keys| then t.keys[i] else NewTrie(key[..1])
    requires child'.prefix == key[..1]
    ensures Among(Put(t.keys, child'), w) == Get(child', w[1..])
    ensures Among(t.keys, w) == Get(child, w[1..])
  {
    hide Get, Among, Insert, Put;
    PutKeepsShape(t.keys, child');
    AmongFinds(Put(t.keys, child'), w, child');
    assert child.prefix == key[..1] && child.prefix <= w;
    if Filed(t.keys, key[..1]) < |t.keys| {
      AmongFinds(t.keys, w, child);
    } else {
      NotFiled(t.keys, key, w);
      NothingInNewTrie(key[..1], w[1..]);
    }
  }

  lemma {:induction false} NothingInNewTrie(prefix: Word, w: Word)
    ensures Get(NewTrie(prefix), w) == None
  {
  }

  lemma {:induction false} NotFiled(keys: seq<Trie>, key: Word, w: Word)
    requires key != [] && w != [] && w[0] == key[0] && Filed(keys, key[..1]) == |keys|
    requires forall c | c in keys :: |c.prefix| == 1
    ensures Among(keys, w) == None
  {
    forall c | c in keys
      ensures !StartsWith(c, w[0])
    {
      assert c.prefix == [c.prefix[0]];
    }
    AmongMisses(keys, w);
  }

  /** Other first units are not concerned. */
  lemma {:induction false} OtherBranch(keys: seq<Trie>, w: Word, child': Trie)
    requires Pairwise(keys, Apart) && (forall c | c in keys :: |c.prefix| == 1)
    requires |child'.prefix| == 1 && w != [] && w[0] != child'.prefix[0]
    ensures Among(Put(keys, child'), w) == Among(keys, w)
  {
    hide Among, Put;
    var keys' := Put(keys, child');
    PutKeepsShape(keys, child');
    if c :| c in keys && StartsWith(c, w[0]) {
      AmongFinds(keys, w, c);
      AmongFinds(keys', w, c);
    } else {
      AmongMisses(keys, w);
      AmongMisses(keys', w);
    }
  }

  /** The trie of a keyword list: one insertion after another into an empty root. */
  function Build(keywords: seq<(Word, Token)>): Trie {
    if keywords == [] then NewTrie([])
    else
      var last := keywords[|keywords| - 1];
      Insert(Build(keywords[..|keywords| - 1]), last.0, last.1)
  }

  /** What the list itself says of a word: its last entry wins. */
  function TokenOf(keywords: seq<(Word, Token)>, w: Word): Option<Token> {
    if keywords == [] then None
    else
      var last := keywords[|keywords| - 1];
      if last.0 == w then Some(last.1) else TokenOf(keywords[..|keywords| - 1], w)
  }

  /** The trie holds exactly the keyword list. */
  lemma {:induction false} BuildHoldsKeywords(keywords: seq<(Word, Token)>)
    ensures WellFormed(Build(keywords)) && SingleUnits(Build(keywords)) && Build(keywords).prefix == []
    ensures forall w :: Get(Build(keywords), w) == TokenOf(keywords, w)
  {
    if keywords != [] {
      var last := keywords[|keywords| - 1];
      var before := keywords[..|keywords| - 1];
      BuildHoldsKeywords(before);
      InsertKeepsShape(Build(before), last.0, last.1);
      forall w
        ensures Get(Build(keywords), w) == TokenOf(keywords, w)
      {
        InsertThenGet(Build(before), last.0, last.1, w);
      }
    }
  }

  // ----- coalesce

  /** The rebuilt dictionary of a node, starting from `built`. */
  function CoalesceKeys(keys: seq<Trie>, built: seq<Trie>): seq<Trie>
    decreases keys, 0
  {
    if keys == [] then built
    else CoalesceKeys(keys[1..], Put(built, Coalesce(keys[0])))
  }

  function Coalesce(t: Trie): Trie
    decreases t, 1
  {
    var keys := CoalesceKeys(t.keys, []);
    if t.value != None || |keys| != 1 then t.(keys := keys)
    else Trie(t.prefix + keys[0].prefix, keys[0].value, keys[0].keys, [], 0)
  }

  /** The driver discards what the root's coalesce returns and keeps the root itself. */
  function CoalesceRoot(t: Trie): Trie {
    t.(keys := CoalesceKeys(t.keys, []))
  }

  function CoalesceEach(keys: seq<Trie>): (r: seq<Trie>)
    ensures |r| == |keys| && forall i | 0 <= i < |keys| :: r[i] == Coalesce(keys[i])
  {
    seq(|keys|, i requires 0 <= i < |keys| => Coalesce(keys[i]))
  }

  /** No valueless node with a single child. */
  ghost predicate Coalesced(t: Trie)
    decreases t
  {
    (t.value != None || |t.keys| != 1) && forall c | c in t.keys :: Coalesced(c)
  }

  /** What coalescing promises of one node. */
  ghost predicate Preserved(t: Trie, r: Trie) {
    && t.prefix <= r.prefix
    && WellFormed(r)
    && Coalesced(r)
    && forall w :: Find(r, w) == Find(t, w)
  }

  lemma {:induction false} PutAppends(keys: seq<Trie>, t: Trie)
    requires forall k | 0 <= k < |keys| :: Apart(keys[k], t)
    ensures Put(keys, t) == keys + [t]
  {
  }

  ghost predicate AllApart(built: seq<Trie>, keys: seq<Trie>) {
    forall i, k | 0 <= i < |built| && 0 <= k < |keys| :: Apart(built[i], keys[k])
  }

  lemma {:induction false} ApartFromRest(keys: seq<Trie>, built: seq<Trie>, t: Trie)
    requires keys != [] && keys[0].prefix != [] && Pairwise(keys, Apart) && AllApart(built, keys)
    requires t.prefix != [] && t.prefix[0] == keys[0].prefix[0]
    ensures forall k | 0 <= k < |built| :: Apart(built[k], t)
    ensures AllApart(built + [t], keys[1..]) && Pairwise(keys[1..], Apart)
  {
    forall k | 0 <= k < |built|
      ensures Apart(built[k], t)
    {
      assert Apart(built[k], keys[0]);
    }
  }

  /** Distinct first units stay distinct, so the rebuilt dictionary overwrites nothing. */
  lemma {:induction false} NothingOverwritten(keys: seq<Trie>, built: seq<Trie>)
    requires forall k | 0 <= k < |keys| :: keys[k].prefix != [] && keys[k].prefix <= Coalesce(keys[k]).prefix
    requires Pairwise(keys, Apart) && AllApart(built, keys)
    ensures CoalesceKeys(keys, built) == built + CoalesceEach(keys)
    decreases |keys|
  {
    hide Coalesce, Pairwise, Apart, Put, AllApart;
    if keys == [] {
      assert built + CoalesceEach(keys) == built;
    } else {
      var t := Coalesce(keys[0]);
      ApartFromRest(keys, built, t);
      PutAppends(built, t);
      NothingOverwritten(keys[1..], built + [t]);
      assert built + CoalesceEach(keys) == (built + [t]) + CoalesceEach(keys[1..]);
    }
  }

  ghost predicate EachPreserved(keys: seq<Trie>) {
    forall k | 0 <= k < |keys| :: keys[k].prefix != [] && Preserved(keys[k], Coalesce(keys[k]))
  }

  /** Replacing every child by one that finds the same words changes nothing. */
  lemma {:induction false} AmongPreserved(keys: seq<Trie>, w: Word)
    requires w != [] && Pairwise(keys, Apart) && EachPreserved(keys)
    ensures Among(CoalesceEach(keys), w) == Among(keys, w)
  {
    hide Coalesce;
    var each := CoalesceEach(keys);
    EachShaped(keys);
    if i :| 0 <= i < |keys| && StartsWith(keys[i], w[0]) {
      AmongFinds(keys, w, keys[i]);
      AmongFinds(each, w, each[i]);
    } else {
      AmongMisses(keys, w);
      AmongMisses(each, w);
    }
  }

  lemma {:induction false} EachShaped(keys: seq<Trie>)
    requires Pairwise(keys, Apart) && EachPreserved(keys)
    ensures forall i | 0 <= i < |keys| :: var c := CoalesceEach(keys)[i];
              c.prefix != [] && c.prefix[0] == keys[i].prefix[0] && WellFormed(c) && Coalesced(c)
    ensures Pairwise(CoalesceEach(keys), Apart)
  {
    hide Coalesce, Coalesced;
  }

  lemma {:induction false} KeysPreserved(t: Trie)
    requires WellFormed(t) && EachPreserved(t.keys)
    ensures CoalesceKeys(t.keys, []) == CoalesceEach(t.keys)
    ensures WellFormed(t.(keys := CoalesceEach(t.keys)))
    ensures forall c | c in CoalesceEach(t.keys) :: c.prefix != [] && Coalesced(c)
    ensures forall w :: Get(t.(keys := CoalesceEach(t.keys)), w) == Get(t, w)
  {
    hide Coalesce, CoalesceKeys, Coalesced;
    NothingOverwritten(t.keys, []);
    assert [] + CoalesceEach(t.keys) == CoalesceEach(t.keys);
    EachShaped(t.keys);
    forall w
      ensures Get(t.(keys := CoalesceEach(t.keys)), w) == Get(t, w)
    {
      if w != [] {
        AmongPreserved(t.keys, w);
      }
    }
  }

  /** Merging a valueless node with its only child finds the same words. */
  lemma {:induction false} MergeFinds(t: Trie, c: Trie, w: Word)
    requires t.value == None && t.keys == [c] && c.prefix != []
    ensures Find(Trie(t.prefix + c.prefix, c.value, c.keys, [], 0), w) == Find(t, w)
  {
    if t.prefix <= w {
      var rest := w[|t.prefix|..];
      assert w == t.prefix + rest;
      if rest != [] && StartsWith(c, rest[0]) {
        AmongFinds(t.keys, rest, c);
      } else if rest != [] {
        AmongMisses(t.keys, rest);
      }
      assert t.prefix + c.prefix <= w <==> c.prefix <= rest;
      if c.prefix <= rest {
        assert w[|t.prefix + c.prefix|..] == rest[|c.prefix|..];
      }
    }
  }

  lemma {:induction false} CoalescePreserves(t: Trie)
    requires WellFormed(t)
    ensures Preserved(t, Coalesce(t))
    decreases t
  {
    forall k | 0 <= k < |t.keys|
      ensures t.keys[k].prefix != [] && Preserved(t.keys[k], Coalesce(t.keys[k]))
    {
      assert t.keys[k] in t.keys;
      CoalescePreserves(t.keys[k]);
    }
    KeysPreserved(t);
    var kept := t.(keys := CoalesceEach(t.keys));
    assert forall w :: Find(kept, w) == Find(t, w);
    if t.value == None && |t.keys| == 1 {
      var c := kept.keys[0];
      forall w
        ensures Find(Coalesce(t), w) == Find(t, w)
      {
        MergeFinds(kept, c, w);
      }
    }
  }

  /** The whole pass: same keywords, distinct siblings, nothing left to merge below the root. */
  lemma {:induction false} CoalesceRootPreserves(t: Trie)
    requires WellFormed(t)
    ensures WellFormed(CoalesceRoot(t)) && CoalesceRoot(t).prefix == t.prefix
    ensures |CoalesceRoot(t).keys| == |t.keys|
    ensures forall c | c in CoalesceRoot(t).keys :: Coalesced(c)
    ensures forall w :: Get(CoalesceRoot(t), w) == Get(t, w)
  {
    forall k | 0 <= k < |t.keys|
      ensures t.keys[k].prefix != [] && Preserved(t.keys[k], Coalesce(t.keys[k]))
    {
      assert t.keys[k] in t.keys;
      CoalescePreserves(t.keys[k]);
    }
    KeysPreserved(t);
  }
}
