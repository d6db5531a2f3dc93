/**
 The byte ledger of one hot/cold node pair (`struct node_ctrl`) and the controller that keeps one
 ledger per pair (`struct flow_ctrl`). A round runs three passes over the ledger: move hot pages to
 the hot node, prefetch further pages into free space of the hot node, move cold pages away.
 */
module FlowControl {

  datatype Pass = HotMove | Prefetch | ColdMove

  datatype Cap = Cap(cap: int, used: int) {
    predicate Avail() { used < cap }

    /** `cap_cost`: charge `cost`, or whatever is left when that is not more than `cost`. */
    function Cost(cost: int): (r: (Cap, int))
      ensures r.0.cap == cap && r.0.used == used + r.1
      ensures used <= cap && 0 <= cost ==> r.1 == Min(cost, cap - used)
      ensures r.0.Avail() <==> cost < cap - used
    {
      if cost < cap - used then (Cap(cap, used + cost), cost) else (Cap(cap, cap), cap - used)
    }
  }

  datatype NodeCtrl = NodeCtrl(
    hotMove: Cap, prefetch: Cap, coldMove: Cap,
    coldReplaced: int, // cold bytes of the hot node replaced by hot bytes of the cold node
    coldFree: int,     // free bytes of the cold node
    free: int,         // free bytes of the hot node
    cold: int,         // cold bytes of the hot node
    quota: int,
    reserve: int)      // bytes of the hot node that prefetching leaves free

  function Min(a: int, b: int): int { if a < b then a else b }

  function Max(a: int, b: int): int { if a < b then b else a }

  function CapOf(n: NodeCtrl, pass: Pass): Cap {
    match pass
    case HotMove => n.hotMove
    case Prefetch => n.prefetch
    case ColdMove => n.coldMove
  }

  function WithCap(n: NodeCtrl, pass: Pass, c: Cap): NodeCtrl {
    match pass
    case HotMove => n.(hotMove := c)
    case Prefetch => n.(prefetch := c)
    case ColdMove => n.(coldMove := c)
  }

  /** `node_cal_hot_can_move`. */
  function CalHot(n: NodeCtrl): NodeCtrl {
    var m0 :=
      if n.quota < n.free then n.quota
      else
        var m := n.free + (n.quota - n.free) / 2;
        if m > n.free + n.coldFree then n.free + n.coldFree else m;
    var m1 := if m0 > n.cold + n.free then n.cold + n.free else m0;
    n.(hotMove := n.hotMove.(cap := m1))
  }

  /** `node_update_hot_move`. */
  function UpdateHot(n: NodeCtrl): NodeCtrl {
    var hotMove := n.hotMove.used;
    if hotMove > n.free then
      n.(coldReplaced := n.coldReplaced + (hotMove - n.free),
         quota := n.quota - (n.free + (hotMove - n.free) * 2),
         coldFree := n.coldFree + n.free,
         free := 0)
    else
      n.(free := n.free - hotMove, quota := n.quota - hotMove, coldFree := n.coldFree + hotMove)
  }

  /** `node_cal_hot_can_prefetch`. */
  function CalPrefetch(n: NodeCtrl): NodeCtrl {
    var m :=
      if n.free <= n.reserve then 0
      else if n.free - n.reserve > n.quota then n.quota
      else n.free - n.reserve;
    n.(prefetch := n.prefetch.(cap := m))
  }

  /** `node_update_hot_prefetch`. */
  function UpdatePrefetch(n: NodeCtrl): NodeCtrl {
    var p := n.prefetch.used;
    n.(free := n.free - p, quota := n.quota - p, coldFree := n.coldFree + p)
  }

  /** `node_cal_cold_can_move`. */
  function CalCold(n: NodeCtrl): NodeCtrl {
    var m0 := if n.quota < n.reserve - n.free then n.quota else n.reserve - n.free;
    var m1 := if m0 > n.coldFree then n.coldFree else m0;
    var m2 := if m1 < 0 then 0 else m1;
    n.(coldMove := n.coldMove.(cap := m2 + n.coldReplaced))
  }

  /** The ledger after the calculation that opens a pass. */
  function Cal(n: NodeCtrl, pass: Pass): NodeCtrl {
    match pass
    case HotMove => CalHot(n)
    case Prefetch => CalPrefetch(UpdateHot(n))
    case ColdMove => CalCold(UpdatePrefetch(n))
  }

  /** How many pairs have used up their budget for this pass. */
  ghost function Exhausted(nodes: seq<NodeCtrl>, pass: Pass): nat {
    if nodes == [] then 0
    else Exhausted(nodes[..|nodes| - 1], pass) + if CapOf(nodes[|nodes| - 1], pass).Avail() then 0 else 1
  }

  lemma {:induction false} ExhaustedAll(nodes: seq<NodeCtrl>, pass: Pass)
    ensures Exhausted(nodes, pass) <= |nodes|
    ensures Exhausted(nodes, pass) == |nodes| <==> forall i :: 0 <= i < |nodes| ==> !CapOf(nodes[i], pass).Avail()
  {
    if nodes != [] {
      ExhaustedAll(nodes[..|nodes| - 1], pass);
    }
  }

  lemma {:induction false} ExhaustedUpdate(nodes: seq<NodeCtrl>, pass: Pass, j: nat, n: NodeCtrl)
    requires j < |nodes| && CapOf(nodes[j], pass).Avail()
    ensures Exhausted(nodes[j := n], pass) == Exhausted(nodes, pass) + if CapOf(n, pass).Avail() then 0 else 1
  {
    var rest := nodes[..|nodes| - 1];
    if j < |nodes| - 1 {
      ExhaustedUpdate(rest, pass, j, n);
      assert nodes[j := n][..|nodes| - 1] == rest[j := n];
    } else {
      assert nodes[j := n][..|nodes| - 1] == rest;
    }
  }

  class FlowCtrl {
    var nodes: seq<NodeCtrl>
    var hotEnough: int
    var prefetchEnough: int
    var coldEnough: int

    ghost function Enough(pass: Pass): int
      reads this
    {
      match pass
      case HotMove => hotEnough
      case Prefetch => prefetchEnough
      case ColdMove => coldEnough
    }

    /** During a pass its counter is the number of exhausted pairs. */
    ghost predicate Counts(pass: Pass)
      reads this
    {
      Enough(pass) == Exhausted(nodes, pass)
    }

    /** `init_flow_ctrl`: calloc'ed ledgers with the pair's figures filled in. */
    constructor (figures: seq<NodeCtrl>)
      ensures nodes == figures && hotEnough == 0 && prefetchEnough == 0 && coldEnough == 0
    {
      nodes, hotEnough, prefetchEnough, coldEnough := figures, 0, 0, 0;
    }

    /** `flow_cal_hot_can_move`, `flow_cal_hot_can_prefetch`, `flow_cal_cold_can_move`. */
    method CalPass(pass: Pass)
      requires Enough(pass) == 0
      modifies this
      ensures |nodes| == |old(nodes)| && forall i :: 0 <= i < |nodes| ==> nodes[i] == Cal(old(nodes)[i], pass)
      ensures Counts(pass)
      ensures forall p :: p != pass ==> Enough(p) == old(Enough(p))
    {
      hide Cal;
      var i := 0;
      while i < |nodes|
        invariant 0 <= i <= |nodes| == |old(nodes)|
        invariant forall k :: 0 <= k < i ==> nodes[k] == Cal(old(nodes)[k], pass)
        invariant forall k :: i <= k < |nodes| ==> nodes[k] == old(nodes)[k]
        invariant Enough(pass) == Exhausted(nodes[..i], pass)
        invariant forall p :: p != pass ==> Enough(p) == old(Enough(p))
      {
        var n := Cal(nodes[i], pass);
        ghost var done := nodes[..i];
        nodes := nodes[i := n];
        assert nodes[..i + 1][..i] == done;
        if !CapOf(n, pass).Avail() {
          Bump(pass);
        }
        i := i + 1;
      }
      assert nodes[..i] == nodes;
    }

    method Bump(pass: Pass)
      modifies this`hotEnough, this`prefetchEnough, this`coldEnough
      ensures Enough(pass) == old(Enough(pass)) + 1
      ensures forall p :: p != pass ==> Enough(p) == old(Enough(p))
    {
      match pass
      case HotMove => hotEnough := hotEnough + 1;
      case Prefetch => prefetchEnough := prefetchEnough + 1;
      case ColdMove => coldEnough := coldEnough + 1;
    }

    /** `is_hot_enough`, `is_prefetch_enough`, `is_cold_enough`. */
    method IsEnough(pass: Pass) returns (b: bool)
      requires Counts(pass)
      ensures b <==> forall i :: 0 <= i < |nodes| ==> !CapOf(nodes[i], pass).Avail()
    {
      ExhaustedAll(nodes, pass);
      match pass
      case HotMove => b := hotEnough == |nodes|;
      case Prefetch => b := prefetchEnough == |nodes|;
      case ColdMove => b := coldEnough == |nodes|;
    }

    /** `ctrl_hot_move`, `ctrl_prefetch_hot`, `ctrl_cold_move`: how many of `target` bytes pair `j` may move. */
    method Grant(pass: Pass, target: int, j: nat) returns (granted: int)
      requires Counts(pass) && j < |nodes| && 0 <= target
      requires CapOf(nodes[j], pass).used <= CapOf(nodes[j], pass).cap
      modifies this
      ensures Counts(pass)
      ensures forall p :: p != pass ==> Enough(p) == old(Enough(p))
      ensures var c := CapOf(old(nodes)[j], pass);
        && granted == Min(target, c.cap - c.used)
        && nodes == old(nodes)[j := WithCap(old(nodes)[j], pass, Cap(c.cap, c.used + granted))]
    {
      var c := CapOf(nodes[j], pass);
      if !c.Avail() {
        assert nodes == nodes[j := WithCap(nodes[j], pass, c)];
        return 0;
      }
      var r := c.Cost(target);
      ExhaustedUpdate(nodes, pass, j, WithCap(nodes[j], pass, r.0));
      nodes := nodes[j := WithCap(nodes[j], pass, r.0)];
      if !r.0.Avail() {
        Bump(pass);
      }
      granted := r.1;
    }
  }
}
