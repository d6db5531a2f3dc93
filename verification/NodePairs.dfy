/**
 The `node_pair` setting of the cslide engine: which NUMA nodes exchange pages, and the check that
 every node takes part exactly once.
 */
module NodePairs {
  datatype NodePair = NodePair(index: int, hotNode: int, coldNode: int)

  /** Each pair carries its own position, and no node occurs twice among the pairs. */
  ghost predicate Paired(pairs: seq<NodePair>) {
    && (forall j :: 0 <= j < |pairs| ==> pairs[j].index == j && pairs[j].hotNode != pairs[j].coldNode)
    && (forall j, k :: 0 <= j < |pairs| && 0 <= k < |pairs| && j != k ==>
          && pairs[j].hotNode != pairs[k].hotNode && pairs[j].coldNode != pairs[k].coldNode
          && pairs[j].hotNode != pairs[k].coldNode)
  }

  ghost predicate IsNode(pairs: seq<NodePair>, n: int) {
    exists j :: 0 <= j < |pairs| && (pairs[j].hotNode == n || pairs[j].coldNode == n)
  }

  /** One `;`-separated part of the setting: two integers, the first the hot node, or anything else. */
  datatype Token = Nodes(hot: int, cold: int) | Malformed

  datatype FillResult = Filled | BadToken | BadNode | TooManyPairs | NodeUnmapped

  /** The node numbers in the order they are checked. */
  ghost function Flat(tokens: seq<Token>): seq<int> {
    if tokens == [] then []
    else
      var t := tokens[|tokens| - 1];
      Flat(tokens[..|tokens| - 1]) + if t.Nodes? then [t.hot, t.cold] else []
  }

  ghost predicate NoDup(s: seq<int>) {
    forall i, j :: 0 <= i < j < |s| ==> s[i] != s[j]
  }

  ghost predicate Below(s: seq<int>, n: int) {
    forall x :: x in s ==> 0 <= x < n
  }

  ghost predicate Covering(s: seq<int>, n: int) {
    forall x :: 0 <= x < n ==> x in s
  }

  ghost predicate AllParsed(tokens: seq<Token>) {
    forall i :: 0 <= i < |tokens| ==> tokens[i].Nodes?
  }

  ghost predicate Acceptable(tokens: seq<Token>, n: int) {
    AllParsed(tokens) && NoDup(Flat(tokens)) && Below(Flat(tokens), n)
  }

  /** The setting names each of the nodes 0..n-1 exactly once and nothing else. */
  ghost predicate Perfect(tokens: seq<Token>, n: int) {
    Acceptable(tokens, n) && Covering(Flat(tokens), n)
  }

  lemma {:induction false} FlatLen(tokens: seq<Token>)
    requires AllParsed(tokens)
    ensures |Flat(tokens)| == 2 * |tokens|
  {
    if tokens != [] {
      FlatLen(tokens[..|tokens| - 1]);
    }
  }

  lemma {:induction false} FlatAt(tokens: seq<Token>, j: nat)
    requires AllParsed(tokens)
    requires j < |tokens|
    ensures |Flat(tokens)| == 2 * |tokens|
    ensures Flat(tokens)[2 * j] == tokens[j].hot && Flat(tokens)[2 * j + 1] == tokens[j].cold
  {
    FlatLen(tokens);
    FlatLen(tokens[..|tokens| - 1]);
    if j < |tokens| - 1 {
      FlatAt(tokens[..|tokens| - 1], j);
    }
  }

  /** A repetition-free list of numbers below `n` has at most `n` members. */
  lemma {:induction false} Pigeonhole(s: seq<int>, n: nat)
    requires NoDup(s) && Below(s, n)
    ensures |s| <= n
    decreases n
  {
    assert |s| > 0 ==> s[0] in s;
    if n > 0 {
      if n - 1 in s {
        var i :| 0 <= i < |s| && s[i] == n - 1;
        var t := s[..i] + s[i + 1..];
        forall k | 0 <= k < |t|
          ensures 0 <= t[k] < n - 1
        {
          assert t[k] == s[if k < i then k else k + 1];
          assert t[k] in s && t[k] != s[i];
        }
        Pigeonhole(t, n - 1);
      } else {
        Pigeonhole(s, n - 1);
      }
    }
  }

  /** A prefix of a perfect setting is a good one, so no prefix names too many pairs. */
  lemma {:induction false} GoodPrefix(tokens: seq<Token>, n: int, k: nat)
    requires Acceptable(tokens, n) && k <= |tokens|
    ensures Acceptable(tokens[..k], n)
    decreases |tokens| - k
  {
    if k == |tokens| {
      assert tokens[..k] == tokens;
    } else {
      GoodPrefix(tokens, n, k + 1);
      var t := tokens[..k + 1];
      assert t[..|t| - 1] == tokens[..k];
      assert Flat(t) == Flat(tokens[..k]) + [tokens[k].hot, tokens[k].cold];
      var f, g := Flat(t), Flat(tokens[..k]);
      assert forall i :: 0 <= i < |g| ==> g[i] == f[i];
      forall x | x in g
        ensures 0 <= x < n
      {
        assert x in f;
      }
    }
  }

  /** Good tokens, in the order given, make pairs on distinct nodes. */
  lemma GoodIsPaired(tokens: seq<Token>, n: int, pairs: seq<NodePair>)
    requires Acceptable(tokens, n) && |pairs| == |tokens|
    requires forall j :: 0 <= j < |pairs| ==> pairs[j] == NodePair(j, tokens[j].hot, tokens[j].cold)
    ensures Paired(pairs)
  {
    FlatLen(tokens);
    forall j, k | 0 <= j < |pairs| && 0 <= k < |pairs|
      ensures pairs[j].hotNode != pairs[k].coldNode
      ensures j != k ==> pairs[j].hotNode != pairs[k].hotNode && pairs[j].coldNode != pairs[k].coldNode
    {
      FlatAt(tokens, j);
      FlatAt(tokens, k);
      var a, b, c, d := 2 * j, 2 * j + 1, 2 * k, 2 * k + 1;
      assert Flat(tokens)[a] != Flat(tokens)[d];
      assert j != k ==> Flat(tokens)[a] != Flat(tokens)[c] && Flat(tokens)[b] != Flat(tokens)[d];
    }
  }

  /** `struct node_verifier`: how often each node has been named. */
  class NodeVerifier {
    const nodeNum: nat
    const count: array<int>

    constructor (nodeNum: nat)
      ensures this.nodeNum == nodeNum && fresh(count) && count.Length == nodeNum
      ensures forall i :: 0 <= i < nodeNum ==> count[i] == 0
    {
      this.nodeNum := nodeNum;
      count := new int[nodeNum](_ => 0);
    }

    ghost predicate Seen(s: seq<int>)
      reads count
    {
      count.Length == nodeNum && forall i :: 0 <= i < nodeNum ==> (count[i] != 0 <==> i in s)
    }

    /** `is_node_valid`. */
    method IsNodeValid(node: int, ghost s: seq<int>) returns (ok: bool)
      requires Seen(s)
      modifies count
      ensures ok <==> 0 <= node < nodeNum && node !in s
      ensures ok ==> Seen(s + [node])
    {
      if node < 0 || node >= nodeNum || count[node] != 0 {
        return false;
      }
      count[node] := count[node] + 1;
      return true;
    }

    /** `has_node_unmap`. */
    method HasNodeUnmap(ghost s: seq<int>) returns (unmapped: bool)
      requires Seen(s)
      ensures !unmapped <==> Covering(s, nodeNum)
    {
      unmapped := false;
      for i := 0 to nodeNum
        invariant !unmapped <==> forall x :: 0 <= x < i ==> x in s
      {
        if count[i] == 0 {
          unmapped := true;
        }
      }
    }
  }

  /** `struct node_map`. */
  class NodeMap {
    var pair: seq<NodePair>
    const totalNum: nat

    constructor (nodeNum: nat)
      requires nodeNum % 2 == 0
      ensures pair == [] && totalNum == nodeNum / 2
    {
      pair, totalNum := [], nodeNum / 2;
    }

    /** `add_node_pair`. */
    method Add(coldNode: int, hotNode: int) returns (ok: bool)
      modifies this
      ensures ok <==> |old(pair)| != totalNum
      ensures pair == if ok then old(pair) + [NodePair(|old(pair)|, hotNode, coldNode)] else old(pair)
    {
      if |pair| == totalNum {
        return false;
      }
      pair := pair + [NodePair(|pair|, hotNode, coldNode)];
      return true;
    }
  }

  /** Reading one more token: it is good exactly when both its nodes are new and in range, and then
      there is still room for its pair. */
  lemma NextToken(tokens: seq<Token>, n: nat, i: nat)
    requires i < |tokens| && Acceptable(tokens[..i], n)
    ensures var f := Flat(tokens[..i]); var t := tokens[i];
      && (Acceptable(tokens[..i + 1], n) <==>
          t.Nodes? && 0 <= t.hot < n && t.hot !in f && 0 <= t.cold < n && t.cold !in f + [t.hot])
      && (Acceptable(tokens[..i + 1], n) && t.Nodes? ==>
          Flat(tokens[..i + 1]) == f + [t.hot] + [t.cold] && 2 * (i + 1) <= n)
    ensures Perfect(tokens, n) ==> Acceptable(tokens[..i + 1], n)
  {
    var f := Flat(tokens[..i]);
    var more := tokens[..i + 1];
    assert more[..i] == tokens[..i] && more[i] == tokens[i];
    assert forall j :: 0 <= j < i ==> more[j] == tokens[j] == tokens[..i][j];
    if Perfect(tokens, n) {
      GoodPrefix(tokens, n, i + 1);
    }
    if tokens[i].Nodes? {
      var t := tokens[i];
      assert Flat(more) == f + [t.hot, t.cold] == f + [t.hot] + [t.cold];
      if 0 <= t.hot < n && t.hot !in f && 0 <= t.cold < n && t.cold !in f + [t.hot] {
        NamesGood(f, t.hot, t.cold, n);
        FlatLen(more);
        Pigeonhole(Flat(more), n);
      } else {
        NamesBad(f, t.hot, t.cold, n);
      }
    }
  }

  /** `fill_node_pair`: accepts exactly the settings that are a perfect matching of the nodes. */
  method FillNodePair(map_: NodeMap, nodeNum: nat, tokens: seq<Token>) returns (r: FillResult)
    requires map_.pair == [] && nodeNum == 2 * map_.totalNum
    modifies map_
    ensures r == Filled <==> Perfect(tokens, nodeNum)
    ensures r != TooManyPairs
    ensures r == Filled ==>
      && |map_.pair| == |tokens| == map_.totalNum && Paired(map_.pair)
      && (forall j :: 0 <= j < |tokens| ==> map_.pair[j] == NodePair(j, tokens[j].hot, tokens[j].cold))
      && (forall x :: 0 <= x < nodeNum ==> IsNode(map_.pair, x))
  {
    hide NoDup;
    hide Below;
    hide Covering;
    hide Paired;
    hide Flat;
    var nv := new NodeVerifier(nodeNum);
    var i := 0;
    NoTokens(tokens, nodeNum);
    while i < |tokens|
      invariant 0 <= i <= |tokens| && |map_.pair| == i
      invariant Acceptable(tokens[..i], nodeNum) && nv.Seen(Flat(tokens[..i]))
      invariant forall j :: 0 <= j < i ==> map_.pair[j] == NodePair(j, tokens[j].hot, tokens[j].cold)
    {
      ghost var f := Flat(tokens[..i]);
      NextToken(tokens, nodeNum, i);
      if tokens[i].Malformed? {
        return BadToken;
      }
      var hotOk := nv.IsNodeValid(tokens[i].hot, f);
      if !hotOk {
        return BadNode;
      }
      var coldOk := nv.IsNodeValid(tokens[i].cold, f + [tokens[i].hot]);
      if !coldOk {
        return BadNode;
      }
      var added := map_.Add(tokens[i].cold, tokens[i].hot);
      if !added {
        return TooManyPairs;
      }
      i := i + 1;
    }
    assert tokens[..i] == tokens;
    var unmapped := nv.HasNodeUnmap(Flat(tokens));
    if unmapped {
      return NodeUnmapped;
    }
    FullMatching(tokens, nodeNum, map_.pair);
    return Filled;
  }

  lemma NamesBad(f: seq<int>, hot: int, cold: int, n: int)
    requires !(0 <= hot < n) || hot in f || !(0 <= cold < n) || cold in f + [hot]
    ensures !(NoDup(f + [hot, cold]) && Below(f + [hot, cold], n))
  {
    var g := f + [hot, cold];
    assert g[|f|] == hot && g[|f| + 1] == cold;
    assert hot in g && cold in g;
    if hot in f {
      var i :| 0 <= i < |f| && f[i] == hot;
      assert g[i] == g[|f|];
    } else if cold in f + [hot] {
      var i :| 0 <= i < |f| + 1 && (f + [hot])[i] == cold;
      assert g[i] == g[|f| + 1];
    }
  }

  lemma NamesGood(f: seq<int>, hot: int, cold: int, n: int)
    requires NoDup(f) && Below(f, n)
    requires 0 <= hot < n && hot !in f && 0 <= cold < n && cold !in f + [hot]
    ensures NoDup(f + [hot, cold]) && Below(f + [hot, cold], n)
  {
    assert (f + [hot])[|f|] == hot;
    assert forall i :: 0 <= i < |f| ==> (f + [hot])[i] == f[i];
  }

  lemma NoTokens(tokens: seq<Token>, n: int)
    ensures Acceptable(tokens[..0], n) && Flat(tokens[..0]) == []
  {
  }

  lemma FullMatching(tokens: seq<Token>, n: nat, pairs: seq<NodePair>)
    requires Perfect(tokens, n) && |pairs| == |tokens| && n % 2 == 0
    requires forall j :: 0 <= j < |pairs| ==> pairs[j] == NodePair(j, tokens[j].hot, tokens[j].cold)
    ensures 2 * |tokens| == n && Paired(pairs)
    ensures forall x :: 0 <= x < n ==> IsNode(pairs, x)
  {
    GoodIsPaired(tokens, n, pairs);
    FlatLen(tokens);
    Pigeonhole(Flat(tokens), n);
    CountUp(Flat(tokens), n);
    forall x | 0 <= x < n
      ensures IsNode(pairs, x)
    {
      assert x in Flat(tokens);
      var i :| 0 <= i < |Flat(tokens)| && Flat(tokens)[i] == x;
      FlatAt(tokens, i / 2);
    }
  }

  /** A list that contains all of 0..n-1 has at least `n` members. */
  lemma {:induction false} CountUp(s: seq<int>, n: nat)
    requires Covering(s, n)
    ensures n <= |s|
    decreases n
  {
    if n > 0 {
      assert n - 1 in s;
      var i :| 0 <= i < |s| && s[i] == n - 1;
      var t := s[..i] + s[i + 1..];
      forall x | 0 <= x < n - 1
        ensures x in t
      {
        assert x in s;
        var k :| 0 <= k < |s| && s[k] == x;
        assert t[if k < i then k else k - 1] == x;
      }
      CountUp(t, n - 1);
    }
  }
}
