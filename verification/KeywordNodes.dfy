/** The trie of KeywordLookupGenerator.py as the mutable objects it is made of,
    proved to stay in step with the values of KeywordTrie and KeywordFillOut. */
module KeywordNodes {
  import opened Wrappers
  import opened KeywordTrie
  import opened KeywordFillOut
  import opened StableSorting

  class Node {
    var prefix: Word
    var keys: seq<Node>
    var value: Option<Token>
    var fullPrefix: Word
    var weight: int
    ghost var Repr: set<Node>

    ghost predicate Valid()
      reads this, Repr
      decreases Repr
    {
      && this in Repr
      && (forall i | 0 <= i < |keys| ::
            keys[i] in Repr && keys[i].Repr <= Repr && this !in keys[i].Repr && keys[i].Valid())
      && (forall i, j | 0 <= i < j < |keys| :: keys[i].Repr !! keys[j].Repr)
    }

    /** The tree of values below this node. */
    ghost function View(): (t: Trie)
      requires Valid()
      reads this, Repr
      ensures t.prefix == prefix && t.value == value && |t.keys| == |keys|
      ensures t.fullPrefix == fullPrefix && t.weight == weight
      ensures forall i | 0 <= i < |keys| :: t.keys[i] == keys[i].View()
      decreases Repr
    {
      Trie(prefix, value,
           seq(|keys|, i requires 0 <= i < |keys| && Valid() reads this, Repr => keys[i].View()), fullPrefix, weight)
    }

    constructor (prefix: Word)
      ensures Valid() && fresh(Repr) && View() == NewTrie(prefix)
    {
      this.prefix := prefix;
      keys := [];
      value := None;
      fullPrefix, weight := [], 0;
      Repr := {this};
    }

    /** Dictionary lookup: the place of the child filed under `p`, or |keys|. */
    method Lookup(p: Word) returns (i: nat)
      requires Valid()
      ensures i == Filed(View().keys, p)
    {
      i := 0;
      while i < |keys| && keys[i].prefix != p
        invariant i <= |keys|
        invariant forall k | 0 <= k < i :: View().keys[k].prefix != p
      {
        i := i + 1;
      }
    }

    method SetValue(value: Token)
      requires Valid()
      modifies this
      ensures Valid() && Repr == old(Repr) && View() == old(View()).(value := Some(value))
    {
      ghost var was := View();
      this.value := Some(value);
      assert View().keys == was.keys;
    }

    /** A new leaf under a prefix that is not filed yet. */
    method AddLeaf(p: Word)
      requires Valid()
      modifies this
      ensures Valid() && fresh(Repr - old(Repr)) && keys != []
      ensures View() == old(View()).(keys := old(View()).keys + [NewTrie(p)])
    {
      hide KeywordTrie.Insert;
      ghost var was := View();
      var leaf := new Node(p);
      keys := keys + [leaf];
      Repr := Repr + leaf.Repr;
      assert forall i | 0 <= i < |was.keys| :: keys[i].View() == was.keys[i];
      assert View().keys == was.keys + [NewTrie(p)];
    }

    /** Inserting below the i-th child leaves its siblings alone. */
    method InsertBelow(i: nat, key: Word, value: Token)
      requires Valid() && i < |keys|
      modifies Repr
      ensures Valid() && fresh(Repr - old(Repr))
      ensures View() == old(View()).(keys := old(View()).keys[i := KeywordTrie.Insert(old(View()).keys[i], key, value)])
      decreases |key|, 1
    {
      hide KeywordTrie.Insert;
      ghost var was := View();
      var child := keys[i];
      assert forall k | 0 <= k < |keys| && k != i :: keys[k].Repr !! child.Repr;
      child.Insert(key, value);
      Repr := Repr + child.Repr;
      assert forall k | 0 <= k < |keys| && k != i :: keys[k].Valid() && keys[k].View() == was.keys[k];
      assert View().keys == was.keys[i := child.View()];
    }

    method Insert(key: Word, value: Token)
      requires Valid()
      modifies Repr
      ensures Valid() && fresh(Repr - old(Repr))
      ensures View() == KeywordTrie.Insert(old(View()), key, value)
      decreases |key|, 0
    {
      hide KeywordTrie.Insert;
      InsertByPlace(View(), key, value);
      if |key| == 0 {
        SetValue(value);
        return;
      }
      var i := Lookup(key[..1]);
      if i == |keys| {
        AddLeaf(key[..1]);
      }
      InsertBelow(i, key[1..], value);
    }

    /** Rebuilds the dictionary out of what coalescing the children returns. */
    method CoalesceKeys()
      requires Valid()
      modifies Repr
      ensures Valid() && fresh(Repr - old(Repr))
      ensures View() == old(View()).(keys := KeywordTrie.CoalesceKeys(old(View()).keys, []))
      decreases Repr, 0
    {
      hide KeywordTrie.Coalesce, Put, KeywordTrie.CoalesceKeys, Shows, NewTrie;
      ghost var was := View();
      ghost var all: set<Node>, values: seq<Trie> := {}, [];
      var kids, built: seq<Node> := keys, [];
      NothingShown(built, values, all);
      var i := 0;
      while i < |kids|
        invariant i <= |kids| && keys == kids && Repr == old(Repr)
        invariant prefix == old(prefix) && value == old(value) && fullPrefix == old(fullPrefix) && weight == old(weight)
        invariant this !in all && fresh(all - old(Repr))
        invariant Forest(built, all) && Shows(built, values, all)
        invariant forall k | i <= k < |kids| ::
                    && kids[k].Repr == old(kids[k].Repr) && kids[k].Repr !! all
                    && kids[k].Valid() && kids[k].View() == was.keys[k]
        invariant KeywordTrie.CoalesceKeys(was.keys[i..], values) == KeywordTrie.CoalesceKeys(was.keys, [])
      {
        var t := kids[i].Coalesce();
        CoalesceOneKey(was.keys, i, values);
        built, values, all := PutNode(built, t, values, all);
        i := i + 1;
      }
      CoalesceNoKeys(was.keys, values);
      keys := built;
      Repr := {this} + all;
      ShownIsView(built, values, all);
      assert View().keys == values;
    }

    /** The node itself keeps its place even where its child is merged into what is
        returned; the driver relies on that at the root. */
    method Coalesce() returns (r: Node)
      requires Valid()
      modifies Repr
      ensures Valid() && fresh(Repr - old(Repr))
      ensures View() == old(View()).(keys := KeywordTrie.CoalesceKeys(old(View()).keys, []))
      ensures r.Valid() && fresh(r.Repr - old(Repr))
      ensures r.View() == KeywordTrie.Coalesce(old(View()))
      decreases Repr, 1
    {
      hide KeywordTrie.CoalesceKeys;
      CoalesceKeys();
      if value != None || |keys| != 1 {
        return this;
      }
      r := keys[0].Prefixed(prefix);
    }

    /** A node of its own with a longer prefix, which shares this node's children. */
    method Prefixed(before: Word) returns (r: Node)
      requires Valid()
      ensures r.Valid() && fresh(r.Repr - Repr)
      ensures r.View() == Trie(before + prefix, value, View().keys, [], 0)
    {
      r := new Node(before + prefix);
      r.value := value;
      r.keys := keys;
      r.Repr := Repr - {this} + {r};
      forall k | 0 <= k < |keys|
        ensures keys[k] in r.Repr && keys[k].Repr <= r.Repr && r !in keys[k].Repr && keys[k].Valid()
      {
        assert keys[k].Valid() && this !in keys[k].Repr;
      }
      assert r.View().keys == View().keys;
    }

    /** Weighs the children, and then sorts them. No node is added. */
    method FillOut(before: Word, weights: map<Word, int>)
      requires Valid()
      modifies Repr
      ensures Valid() && Repr == old(Repr)
      ensures View() == KeywordFillOut.FillOut(old(View()), before, weights)
      decreases Repr, 2
    {
      hide KeywordFillOut.FillOut, FillEach, SumWeights, StableSorting.Sort;
      ghost var was := View();
      fullPrefix := before + prefix;
      assert View().keys == was.keys;
      var total := FillChildren(weights);
      total := Weight(weights, fullPrefix) + total;
      ghost var filled := View().keys;
      assert filled == FillEach(was.keys, before + prefix, weights);
      SortKeys();
      weight := total;
      FilledBy(was, before, weights);
      assert View().keys == Sort(filled, WeighsAtMost);
    }

    method SortKeys()
      requires Valid()
      modifies this`keys
      ensures Valid() && View() == old(View()).(keys := Sort(old(View()).keys, WeighsAtMost))
    {
      hide StableSorting.Sort;
      ghost var was := View().keys;
      keys := SortNodes(keys, was, Repr - {this});
      ShownIsView(keys, Sort(was, WeighsAtMost), Repr - {this});
      assert View().keys == Sort(was, WeighsAtMost);
    }

    /** The loop over the children; returns the sum of their weights. */
    method FillChildren(weights: map<Word, int>) returns (total: int)
      requires Valid()
      modifies Repr - {this}
      ensures Valid() && total == SumWeights(View().keys)
      ensures View() == old(View()).(keys := FillEach(old(View()).keys, fullPrefix, weights))
      decreases Repr, 1
    {
      hide KeywordFillOut.FillOut, FillEach, SumWeights;
      ghost var was := View().keys;
      ghost var filled := FillEach(was, fullPrefix, weights);
      FillEachAt(was, fullPrefix, weights);
      SumOfFirst(filled, 0);
      total := 0;
      for i := 0 to |keys|
        invariant Valid()
        invariant forall k | 0 <= k < |keys| :: keys[k].View() == if k < i then filled[k] else was[k]
        invariant total == SumWeights(filled[..i])
      {
        FillChild(i, weights);
        SumOfFirst(filled, i);
        total := total + keys[i].weight;
      }
      assert filled[..|keys|] == filled;
      assert View().keys == filled;
    }

    /** Filling out one child leaves its siblings alone. */
    method FillChild(i: nat, weights: map<Word, int>)
      requires Valid() && i < |keys|
      modifies Repr - {this}
      ensures Valid()
      ensures forall k | 0 <= k < |keys| :: keys[k].View()
                == if k == i then KeywordFillOut.FillOut(old(keys[k].View()), fullPrefix, weights) else old(keys[k].View())
      decreases Repr, 0
    {
      hide KeywordFillOut.FillOut;
      ghost var was := View();
      var child := keys[i];
      assert forall k | 0 <= k < |keys| && k != i :: keys[k].Repr !! child.Repr;
      child.FillOut(fullPrefix, weights);
      assert forall k | 0 <= k < |keys| && k != i :: keys[k].Valid() && keys[k].View() == was.keys[k];
    }
  }

  /** Insertion first makes sure of a child, and then goes on below it. */
  lemma {:induction false} InsertByPlace(t: Trie, key: Word, value: Token)
    ensures key == [] ==> KeywordTrie.Insert(t, key, value) == t.(value := Some(value))
    ensures key != [] ==>
              var i := Filed(t.keys, key[..1]);
              var keys := if i < |t.keys| then t.keys else t.keys + [NewTrie(key[..1])];
              KeywordTrie.Insert(t, key, value) == t.(keys := keys[i := KeywordTrie.Insert(keys[i], key[1..], value)])
  {
  }

  /** Trees that share no node, all of them within `all`. */
  ghost predicate Forest(nodes: seq<Node>, all: set<Node>)
    reads all
  {
    && (forall i | 0 <= i < |nodes| :: nodes[i] in all && nodes[i].Repr <= all && nodes[i].Valid())
    && (forall i, j | 0 <= i < j < |nodes| :: nodes[i].Repr !! nodes[j].Repr)
  }

  ghost predicate Shows(nodes: seq<Node>, values: seq<Trie>, all: set<Node>)
    requires Forest(nodes, all)
    reads all
  {
    |nodes| == |values| && forall i | 0 <= i < |nodes| :: nodes[i].View() == values[i]
  }

  lemma {:induction false} NothingShown(nodes: seq<Node>, values: seq<Trie>, all: set<Node>)
    requires nodes == [] && values == []
    ensures Forest(nodes, all) && Shows(nodes, values, all)
  {
  }

  lemma {:induction false} ShownIsView(nodes: seq<Node>, values: seq<Trie>, all: set<Node>)
    requires Forest(nodes, all) && Shows(nodes, values, all)
    ensures |nodes| == |values| && forall i | 0 <= i < |nodes| :: nodes[i].View() == values[i]
  {
  }

  lemma {:induction false} CoalesceOneKey(keys: seq<Trie>, i: nat, built: seq<Trie>)
    requires i < |keys|
    ensures KeywordTrie.CoalesceKeys(keys[i..], built)
            == KeywordTrie.CoalesceKeys(keys[i + 1..], Put(built, KeywordTrie.Coalesce(keys[i])))
  {
    assert keys[i..][1..] == keys[i + 1..];
  }

  lemma {:induction false} CoalesceNoKeys(keys: seq<Trie>, built: seq<Trie>)
    ensures KeywordTrie.CoalesceKeys(keys[|keys|..], built) == built
  {
  }

  /** Assignment to a dictionary of nodes, filed under their prefixes. */
  method PutNode(nodes: seq<Node>, t: Node, ghost values: seq<Trie>, ghost all: set<Node>)
    returns (more: seq<Node>, ghost moreValues: seq<Trie>, ghost moreAll: set<Node>)
    requires Forest(nodes, all) && Shows(nodes, values, all)
    requires t.Valid() && t.Repr !! all
    ensures moreAll == all + t.Repr && Forest(more, moreAll)
    ensures moreValues == Put(values, t.View()) && Shows(more, moreValues, moreAll)
  {
    var i := 0;
    while i < |nodes| && nodes[i].prefix != t.prefix
      invariant i <= |nodes|
      invariant forall k | 0 <= k < i :: values[k].prefix != t.prefix
    {
      i := i + 1;
    }
    assert i == Filed(values, t.View().prefix) by {
      var f := Filed(values, t.View().prefix);
    }
    moreAll := all + t.Repr;
    moreValues := Put(values, t.View());
    more := if i < |nodes| then nodes[i := t] else nodes + [t];
  }

  lemma {:induction false} SumOfFirst(filled: seq<Trie>, n: nat)
    requires n <= |filled|
    ensures SumWeights(filled[..0]) == 0
    ensures n < |filled| ==> SumWeights(filled[..n + 1]) == SumWeights(filled[..n]) + filled[n].weight
  {
    if 0 < n < |filled| {
      SumOfFirst(filled[1..], n - 1);
      assert filled[..n + 1][1..] == filled[1..][..n] && filled[..n][1..] == filled[1..][..n - 1];
    }
  }

  lemma {:induction false} FilledBy(t: Trie, before: Word, weights: map<Word, int>)
    ensures var filled := FillEach(t.keys, before + t.prefix, weights);
            KeywordFillOut.FillOut(t, before, weights)
            == Trie(t.prefix, t.value, Sort(filled, WeighsAtMost), before + t.prefix,
                    Weight(weights, before + t.prefix) + SumWeights(filled))
  {
  }

  lemma {:induction false} OneNodeMore(x: Node, nodes: seq<Node>, values: seq<Trie>, all: set<Node>)
    requires Forest(nodes, all) && Shows(nodes, values, all) && x.Valid() && x.Repr !! all
    ensures Forest([x] + nodes, all + x.Repr) && Shows([x] + nodes, [x.View()] + values, all + x.Repr)
  {
  }

  lemma {:induction false} OneNodeLess(nodes: seq<Node>, values: seq<Trie>, all: set<Node>)
    requires Forest(nodes, all) && Shows(nodes, values, all) && nodes != []
    ensures values != [] && nodes[0] in all && nodes[0].Repr <= all && nodes[0].Valid() && nodes[0].View() == values[0]
    ensures Forest(nodes[1..], all - nodes[0].Repr) && Shows(nodes[1..], values[1..], all - nodes[0].Repr)
  {
  }

  /** The host's stable sort by weight, heaviest first, on the nodes themselves. */
  method SortNodes(nodes: seq<Node>, ghost values: seq<Trie>, ghost all: set<Node>) returns (sorted: seq<Node>)
    requires Forest(nodes, all) && Shows(nodes, values, all)
    ensures Forest(sorted, all) && Shows(sorted, Sort(values, WeighsAtMost), all)
    decreases |nodes|
  {
    if nodes == [] {
      assert values == [];
      return [];
    }
    OneNodeLess(nodes, values, all);
    ghost var others := all - nodes[0].Repr;
    sorted := SortNodes(nodes[1..], values[1..], others);
    sorted := InsertNode(nodes[0], sorted, Sort(values[1..], WeighsAtMost), others);
    assert others + nodes[0].Repr == all;
  }

  method InsertNode(x: Node, sorted: seq<Node>, ghost values: seq<Trie>, ghost all: set<Node>) returns (more: seq<Node>)
    requires Forest(sorted, all) && Shows(sorted, values, all)
    requires x.Valid() && x.Repr !! all
    ensures Forest(more, all + x.Repr)
    ensures Shows(more, StableSorting.Insert(x.View(), values, WeighsAtMost), all + x.Repr)
    decreases |sorted|
  {
    OneNodeMore(x, sorted, values, all);
    if sorted == [] {
      ShownIsView(sorted, values, all);
      assert [x] + sorted == [x];
      return [x];
    }
    OneNodeLess(sorted, values, all);
    if sorted[0].weight <= x.weight {
      return [x] + sorted;
    }
    hide Forest, Shows;
    ghost var others := all - sorted[0].Repr;
    more := InsertNode(x, sorted[1..], values[1..], others);
    OneNodeMore(sorted[0], more, StableSorting.Insert(x.View(), values[1..], WeighsAtMost), others + x.Repr);
    assert others + x.Repr + sorted[0].Repr == all + x.Repr;
    more := [sorted[0]] + more;
  }

  /** The driver's loop: the objects end up holding the keyword list. */
  method BuildNodes(keywords: seq<(Word, Token)>) returns (root: Node)
    ensures fresh(root) && root.Valid() && fresh(root.Repr)
    ensures root.View() == Build(keywords)
  {
    root := new Node([]);
    for i := 0 to |keywords|
      invariant root.Valid() && fresh(root.Repr)
      invariant root.View() == Build(keywords[..i])
    {
      assert keywords[..i + 1][..i] == keywords[..i];
      root.Insert(keywords[i].0, keywords[i].1);
    }
    assert keywords[..|keywords|] == keywords;
  }
}
