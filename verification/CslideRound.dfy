/**
 One round of page selection in the cslide engine: the three filter passes of `cslide_filter_pfs`
 run over the linked lists and the per-pair ledgers.
 */
module CslideRound {
  import opened Pages
  import opened PageStores
  import opened FlowControl
  import opened FlowSafety
  import opened NodePairs
  import opened PassSpec

  /** Lists a pass may change: the offered buckets and the lists it collects into. */
  ghost predicate Touched(cfg: Config, pass: Pass, id: ListId) {
    id.pid in cfg.pids &&
    match id
    case Bucket(_, count, node) =>
      && (if pass == HotMove then cfg.threshold <= count else count < cfg.threshold)
      && exists j :: 0 <= j < |cfg.pairs| && node == SrcNode(cfg, pass, j)
    case Hot(_, _) => pass != ColdMove
    case Cold(_, _) => pass == ColdMove
  }

  ghost predicate RestKept(ls0: Lists, ls: Lists, cfg: Config, pass: Pass) {
    ls.Keys == ls0.Keys && forall id :: id in ls0 && !Touched(cfg, pass, id) ==> ls[id] == ls0[id]
  }

  /** All pairs' states while row `ci`, process `pi` is offered and pairs below `j` have been served. */
  ghost predicate AllProgress(ls0: Lists, ls: Lists, cfg: Config, pass: Pass, nodes: seq<NodeCtrl>, ci: int, pi: int, j: int)
    requires |nodes| == |cfg.pairs| && 0 <= ci && 0 <= pi <= |cfg.pids|
    requires pi == |cfg.pids| ==> j == 0
  {
    forall k :: 0 <= k < |cfg.pairs| ==>
      Progress(ls0, ls, cfg, pass, k, CapOf(nodes[k], pass), ci, if k < j then pi + 1 else pi)
  }

  /** A pass changes nothing of the ledgers but its own charge. */
  ghost predicate OnlyCharged(n0: seq<NodeCtrl>, nodes: seq<NodeCtrl>, pass: Pass) {
    && |nodes| == |n0|
    && forall k :: 0 <= k < |n0| ==>
         nodes[k] == WithCap(n0[k], pass, Cap(CapOf(n0[k], pass).cap, CapOf(nodes[k], pass).used))
         && 0 <= CapOf(n0[k], pass).cap
  }

  lemma ServedRow(ls0: Lists, ls: Lists, cfg: Config, pass: Pass, nodes: seq<NodeCtrl>, ci: int, pi: int)
    requires |nodes| == |cfg.pairs| && 0 <= ci && 0 <= pi < |cfg.pids|
    requires AllProgress(ls0, ls, cfg, pass, nodes, ci, pi, |cfg.pairs|)
    ensures AllProgress(ls0, ls, cfg, pass, nodes, ci, pi + 1, 0)
  {
    hide Progress;
  }

  lemma NextRow(ls0: Lists, ls: Lists, cfg: Config, pass: Pass, nodes: seq<NodeCtrl>, ci: int)
    requires |nodes| == |cfg.pairs| && 0 <= ci
    requires AllProgress(ls0, ls, cfg, pass, nodes, ci, |cfg.pids|, 0)
    ensures AllProgress(ls0, ls, cfg, pass, nodes, ci + 1, 0, 0)
  {
    hide Progress;
    forall k | 0 <= k < |cfg.pairs|
      ensures Progress(ls0, ls, cfg, pass, k, CapOf(nodes[k], pass), ci + 1, 0)
    {
      ProgressNextRow(ls0, ls, cfg, pass, k, CapOf(nodes[k], pass), ci);
    }
  }

  /** Where a pass stands: lists and ledgers while row `ci`, process `pi` is offered to pair `j`. */
  ghost predicate Standing(ls0: Lists, ls: Lists, cfg: Config, pass: Pass, n0: seq<NodeCtrl>, nodes: seq<NodeCtrl>,
                           ci: int, pi: int, j: int)
  {
    && ValidConfig(cfg) && Complete(ls, cfg)
    && |nodes| == |cfg.pairs| && 0 <= ci && 0 <= pi <= |cfg.pids| && (pi == |cfg.pids| ==> j == 0)
    && OnlyCharged(n0, nodes, pass) && RestKept(ls0, ls, cfg, pass)
    && AllProgress(ls0, ls, cfg, pass, nodes, ci, pi, j)
  }

  ghost function Charged(nodes: seq<NodeCtrl>, pass: Pass, j: int, granted: int): seq<NodeCtrl>
    requires 0 <= j < |nodes|
  {
    var c := CapOf(nodes[j], pass);
    nodes[j := WithCap(nodes[j], pass, Cap(c.cap, c.used + granted))]
  }

  lemma ServedProgress(ls0: Lists, ls: Lists, cfg: Config, pass: Pass, nodes: seq<NodeCtrl>, ci: int, pi: int, j: int)
    requires ValidConfig(cfg) && |nodes| == |cfg.pairs| && InPass(cfg, pass, j, ci, pi)
    requires 0 <= CapOf(nodes[j], pass).cap
    requires AllProgress(ls0, ls, cfg, pass, nodes, ci, pi, j)
    ensures var src := Src(cfg, pass, j, ci, pi); var dst := Dst(cfg, pass, j, pi); var c := CapOf(nodes[j], pass);
      && src in ls && dst in ls
      && var granted := Min(Total(ls[src]), c.cap - c.used);
      && 0 <= granted
      && AllProgress(ls0, Spliced(ls, src, dst, FitLen(ls[src], granted)), cfg, pass,
                     Charged(nodes, pass, j, granted), ci, pi, j + 1)
  {
    hide Progress;
    hide Total;
    hide FitLen;
    hide ValidConfig;
    var c := CapOf(nodes[j], pass);
    var ls' := ProgressStep(ls0, ls, cfg, pass, j, c, ci, pi);
    var src := Src(cfg, pass, j, ci, pi);
    var granted := Min(Total(ls[src]), c.cap - c.used);
    var nodes' := Charged(nodes, pass, j, granted);
    forall k | 0 <= k < |cfg.pairs|
      ensures Progress(ls0, ls', cfg, pass, k, CapOf(nodes'[k], pass), ci, if k < j + 1 then pi + 1 else pi)
    {
      if k != j {
        ProgressFrame(ls0, ls, ls', cfg, pass, k, CapOf(nodes[k], pass), ci, if k < j then pi + 1 else pi,
                      j, ci, pi, FitLen(ls[src], granted));
      }
    }
  }

  /** Serving pair `j` from one bucket, in terms of lists and ledgers only. */
  lemma Served(ls0: Lists, ls: Lists, cfg: Config, pass: Pass, n0: seq<NodeCtrl>, nodes: seq<NodeCtrl>,
               ci: int, pi: int, j: int)
    requires Standing(ls0, ls, cfg, pass, n0, nodes, ci, pi, j) && InPass(cfg, pass, j, ci, pi)
    ensures |nodes| == |cfg.pairs| && cfg.pairs[j].index == j
    ensures var src := Src(cfg, pass, j, ci, pi); var dst := Dst(cfg, pass, j, pi); var c := CapOf(nodes[j], pass);
      && src in ls && dst in ls && c.used <= c.cap
      && var granted := Min(Total(ls[src]), c.cap - c.used);
      && 0 <= granted
      && Standing(ls0, Spliced(ls, src, dst, FitLen(ls[src], granted)), cfg, pass,
                  n0, Charged(nodes, pass, j, granted), ci, pi, j + 1)
  {
    hide AllProgress;
    hide Total;
    hide FitLen;
    ServedProgress(ls0, ls, cfg, pass, nodes, ci, pi, j);
    CellsExist(ls, cfg, pass, j, ci, pi);
    UsedWithinCap(ls0, ls, cfg, pass, nodes, ci, pi, j);
    assert Touched(cfg, pass, Src(cfg, pass, j, ci, pi)) && Touched(cfg, pass, Dst(cfg, pass, j, pi));
  }

  lemma UsedWithinCap(ls0: Lists, ls: Lists, cfg: Config, pass: Pass, nodes: seq<NodeCtrl>, ci: int, pi: int, j: int)
    requires |nodes| == |cfg.pairs| && InPass(cfg, pass, j, ci, pi) && AllProgress(ls0, ls, cfg, pass, nodes, ci, pi, j)
    ensures CapOf(nodes[j], pass).used <= CapOf(nodes[j], pass).cap
  {
    assert Progress(ls0, ls, cfg, pass, j, CapOf(nodes[j], pass), ci, pi);
  }

  /** When every pair is exhausted the rest of the loops would change nothing. */
  lemma EarlyExit(ls0: Lists, ls: Lists, cfg: Config, pass: Pass, nodes: seq<NodeCtrl>, ci: int, pi: int, j: int)
    requires ValidConfig(cfg) && |nodes| == |cfg.pairs| && 0 <= ci < Rows(cfg, pass) && 0 <= pi <= |cfg.pids|
    requires pi == |cfg.pids| ==> j == 0
    requires AllProgress(ls0, ls, cfg, pass, nodes, ci, pi, j)
    requires forall k :: 0 <= k < |nodes| ==> 0 <= CapOf(nodes[k], pass).cap && !CapOf(nodes[k], pass).Avail()
    ensures AllProgress(ls0, ls, cfg, pass, nodes, Rows(cfg, pass), 0, 0)
  {
    forall k | 0 <= k < |cfg.pairs|
      ensures Progress(ls0, ls, cfg, pass, k, CapOf(nodes[k], pass), Rows(cfg, pass), 0)
    {
      ProgressSaturated(ls0, ls, cfg, pass, k, CapOf(nodes[k], pass), ci, if k < j then pi + 1 else pi);
    }
  }

  lemma Begin(ls0: Lists, cfg: Config, pass: Pass, n0: seq<NodeCtrl>)
    requires ValidConfig(cfg) && Complete(ls0, cfg) && |n0| == |cfg.pairs|
    requires forall k :: 0 <= k < |n0| ==> CapOf(n0[k], pass).used == 0 <= CapOf(n0[k], pass).cap
    ensures Standing(ls0, ls0, cfg, pass, n0, n0, 0, 0, 0)
  {
    hide Progress;
    forall k | 0 <= k < |cfg.pairs|
      ensures Progress(ls0, ls0, cfg, pass, k, CapOf(n0[k], pass), 0, 0)
    {
      ProgressStart(ls0, cfg, pass, k, CapOf(n0[k], pass).cap);
    }
  }

  lemma StandingServed(ls0: Lists, ls: Lists, cfg: Config, pass: Pass, n0: seq<NodeCtrl>, nodes: seq<NodeCtrl>, ci: int, pi: int)
    requires pi < |cfg.pids| && Standing(ls0, ls, cfg, pass, n0, nodes, ci, pi, |cfg.pairs|)
    ensures Standing(ls0, ls, cfg, pass, n0, nodes, ci, pi + 1, 0)
  {
    ServedRow(ls0, ls, cfg, pass, nodes, ci, pi);
  }

  lemma StandingNextRow(ls0: Lists, ls: Lists, cfg: Config, pass: Pass, n0: seq<NodeCtrl>, nodes: seq<NodeCtrl>, ci: int)
    requires Standing(ls0, ls, cfg, pass, n0, nodes, ci, |cfg.pids|, 0)
    ensures Standing(ls0, ls, cfg, pass, n0, nodes, ci + 1, 0, 0)
  {
    NextRow(ls0, ls, cfg, pass, nodes, ci);
  }

  lemma StandingExit(ls0: Lists, ls: Lists, cfg: Config, pass: Pass, n0: seq<NodeCtrl>, nodes: seq<NodeCtrl>,
                     ci: int, pi: int, j: int)
    requires Standing(ls0, ls, cfg, pass, n0, nodes, ci, pi, j)
    requires ci < Rows(cfg, pass) || (ci == Rows(cfg, pass) && pi == 0 && j == 0)
    requires forall k :: 0 <= k < |nodes| ==> !CapOf(nodes[k], pass).Avail()
    ensures Standing(ls0, ls, cfg, pass, n0, nodes, Rows(cfg, pass), 0, 0)
  {
    hide Progress;
    if ci < Rows(cfg, pass) {
      EarlyExit(ls0, ls, cfg, pass, nodes, ci, pi, j);
    }
  }

  lemma StandingDone(ls0: Lists, ls: Lists, cfg: Config, pass: Pass, before: seq<NodeCtrl>, n0: seq<NodeCtrl>, nodes: seq<NodeCtrl>)
    requires 0 <= Rows(cfg, pass) && Standing(ls0, ls, cfg, pass, n0, nodes, Rows(cfg, pass), 0, 0)
    requires |before| == |n0| && forall k :: 0 <= k < |n0| ==> n0[k] == Cal(before[k], pass)
    ensures Complete(ls, cfg) && RestKept(ls0, ls, cfg, pass) && |nodes| == |cfg.pairs|
    ensures forall k :: 0 <= k < |cfg.pairs| ==>
      && nodes[k] == RunPass(before[k], pass, Total(Offered(ls0, cfg, pass, k)))
      && Progress(ls0, ls, cfg, pass, k, CapOf(nodes[k], pass), Rows(cfg, pass), 0)
  {
    hide Cal;
    forall k | 0 <= k < |cfg.pairs|
      ensures nodes[k] == RunPass(before[k], pass, Total(Offered(ls0, cfg, pass, k)))
    {
      assert Progress(ls0, ls, cfg, pass, k, CapOf(nodes[k], pass), Rows(cfg, pass), 0);
    }
  }

  lemma RowsNonNegative(cfg: Config, pass: Pass)
    requires ValidConfig(cfg)
    ensures 0 <= Rows(cfg, pass)
  {
  }

  class Round {
    const store: PageStore
    const ctrl: FlowCtrl
    const cfg: Config

    constructor (store: PageStore, ctrl: FlowCtrl, cfg: Config)
      ensures this.store == store && this.ctrl == ctrl && this.cfg == cfg
    {
      this.store, this.ctrl, this.cfg := store, ctrl, cfg;
    }

    /** `to_hot_policy`, `to_cold_policy`: serve pair `j` from one bucket. */
    method Policy(pass: Pass, j: nat, i: int, pi: nat, ghost ci: nat, ghost ls0: Lists, ghost n0: seq<NodeCtrl>)
      requires store.Valid() && ctrl.Counts(pass)
      requires InPass(cfg, pass, j, ci, pi) && i == CountAt(cfg, pass, ci)
      requires Standing(ls0, store.lists, cfg, pass, n0, ctrl.nodes, ci, pi, j)
      modifies store`head, store`tail, store`size, store`lists, store`owner, store.pages, ctrl
      ensures store.Valid() && ctrl.Counts(pass)
      ensures Standing(ls0, store.lists, cfg, pass, n0, ctrl.nodes, ci, pi, j + 1)
      ensures forall p :: p != pass ==> ctrl.Enough(p) == old(ctrl.Enough(p))
    {
      hide Good;
      hide Standing;
      hide Exhausted;
      hide Total;
      hide FitLen;
      hide Spliced;
      Served(ls0, store.lists, cfg, pass, n0, ctrl.nodes, ci, pi, j);
      var pair := cfg.pairs[j];
      var src := Bucket(cfg.pids[pi], i, if pass == ColdMove then pair.hotNode else pair.coldNode);
      var dst := if pass == ColdMove then Cold(cfg.pids[pi], j) else Hot(cfg.pids[pi], j);
      BucketFields(store.Now(), src);
      var canMove := ctrl.Grant(pass, store.size[src], pair.index);
      store.MoveToList(src, dst, canMove);
    }

    /** `do_filter`: offer the buckets row by row, process by process, to every pair, until all pairs
        are exhausted. */
    method DoFilter(pass: Pass)
      requires store.Valid() && ValidConfig(cfg) && Complete(store.lists, cfg)
      requires |ctrl.nodes| == |cfg.pairs| && ctrl.Enough(pass) == 0
      requires forall k :: 0 <= k < |ctrl.nodes| ==>
        CapOf(Cal(ctrl.nodes[k], pass), pass).used == 0 <= CapOf(Cal(ctrl.nodes[k], pass), pass).cap
      modifies store`head, store`tail, store`size, store`lists, store`owner, store.pages, ctrl
      ensures store.Valid() && Complete(store.lists, cfg)
      ensures RestKept(old(store.lists), store.lists, cfg, pass)
      ensures forall p :: p != pass ==> ctrl.Enough(p) == old(ctrl.Enough(p))
      ensures |ctrl.nodes| == |cfg.pairs|
      ensures forall k :: 0 <= k < |cfg.pairs| ==>
        && ctrl.nodes[k] == RunPass(old(ctrl.nodes)[k], pass, Total(Offered(old(store.lists), cfg, pass, k)))
        && Progress(old(store.lists), store.lists, cfg, pass, k, CapOf(ctrl.nodes[k], pass), Rows(cfg, pass), 0)
    {
      hide Good;
      hide Standing;
      hide Exhausted;
      hide Progress;
      hide RunPass;
      hide Cal;
      hide Complete;
      hide ValidConfig;
      hide RestKept;
      ghost var ls0, before := store.lists, ctrl.nodes;
      RowsNonNegative(cfg, pass);
      ctrl.CalPass(pass);
      ghost var n0 := ctrl.nodes;
      Begin(ls0, cfg, pass, n0);
      var enough := ctrl.IsEnough(pass);
      if enough {
        StandingExit(ls0, store.lists, cfg, pass, n0, ctrl.nodes, 0, 0, 0);
        StandingDone(ls0, store.lists, cfg, pass, before, n0, ctrl.nodes);
        return;
      }
      var i := CountStart(cfg, pass);
      ghost var ci := 0;
      while i != CountEnd(cfg, pass)
        invariant 0 <= ci <= Rows(cfg, pass) && i == CountAt(cfg, pass, ci)
        invariant store.Valid() && ctrl.Counts(pass) && store.pages == old(store.pages)
        invariant Standing(ls0, store.lists, cfg, pass, n0, ctrl.nodes, ci, 0, 0)
        invariant forall p :: p != pass ==> ctrl.Enough(p) == old(ctrl.Enough(p))
        decreases Rows(cfg, pass) - ci
      {
        var pi := 0;
        while pi < |cfg.pids|
          invariant 0 <= pi <= |cfg.pids|
          invariant store.Valid() && ctrl.Counts(pass)
          invariant Standing(ls0, store.lists, cfg, pass, n0, ctrl.nodes, ci, pi, 0)
          invariant forall p :: p != pass ==> ctrl.Enough(p) == old(ctrl.Enough(p))
        {
          var j := 0;
          while j < |cfg.pairs|
            invariant 0 <= j <= |cfg.pairs|
            invariant store.Valid() && ctrl.Counts(pass)
            invariant Standing(ls0, store.lists, cfg, pass, n0, ctrl.nodes, ci, pi, j)
            invariant forall p :: p != pass ==> ctrl.Enough(p) == old(ctrl.Enough(p))
          {
            Policy(pass, j, i, pi, ci, ls0, n0);
            enough := ctrl.IsEnough(pass);
            if enough {
              StandingExit(ls0, store.lists, cfg, pass, n0, ctrl.nodes, ci, pi, j + 1);
              StandingDone(ls0, store.lists, cfg, pass, before, n0, ctrl.nodes);
              return;
            }
            j := j + 1;
          }
          StandingServed(ls0, store.lists, cfg, pass, n0, ctrl.nodes, ci, pi);
          pi := pi + 1;
        }
        StandingNextRow(ls0, store.lists, cfg, pass, n0, ctrl.nodes, ci);
        i := i + CountStep(pass);
        ci := ci + 1;
      }
      StandingDone(ls0, store.lists, cfg, pass, before, n0, ctrl.nodes);
    }
  }
}
