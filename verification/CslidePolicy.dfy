/**
 `cslide_policy` after counting: page statistics per node, the ledger figures taken from them, and
 the selection round run with those figures.
 */
module CslidePolicy {
  import opened Pages
  import opened PageStores
  import opened FlowControl
  import opened FlowSafety
  import opened NodePairs
  import opened PassSpec
  import opened CslideFilter
  import opened CslideLaw

  const HUGE_2M := 0x20_0000
  const HUGE_2M_KB := 2048

  /** Pages of process `p` on `node` with a count in [0, hi). */
  ghost function Column(ls: Lists, cfg: Config, p: int, node: int, hi: int): nat
    requires 0 <= p < |cfg.pids| && 0 <= hi
  {
    if hi == 0 then 0 else Column(ls, cfg, p, node, hi - 1) + |ListAt(ls, Bucket(cfg.pids[p], hi - 1, node))|
  }

  /** The same over the first `n` processes. */
  ghost function Columns(ls: Lists, cfg: Config, n: int, node: int, hi: int): nat
    requires 0 <= n <= |cfg.pids| && 0 <= hi
  {
    if n == 0 then 0 else Columns(ls, cfg, n - 1, node, hi) + Column(ls, cfg, n - 1, node, hi)
  }

  /** Counting column by column, as the statistics do, or row by row, as the cold pass offers pages. */
  lemma {:induction false} RowsAreColumns(ls: Lists, cfg: Config, j: int, ci: int, pi: int)
    requires 0 <= j < |cfg.pairs| && 0 <= ci && 0 <= pi <= |cfg.pids|
    ensures |Before(ls, cfg, ColdMove, j, ci, pi)|
         == Columns(ls, cfg, pi, cfg.pairs[j].hotNode, ci + 1)
          + (Columns(ls, cfg, |cfg.pids|, cfg.pairs[j].hotNode, ci) - Columns(ls, cfg, pi, cfg.pairs[j].hotNode, ci))
    decreases ci, pi
  {
    if pi > 0 {
      RowsAreColumns(ls, cfg, j, ci, pi - 1);
    } else if ci > 0 {
      RowsAreColumns(ls, cfg, j, ci - 1, |cfg.pids|);
    } else {
      NoRows(ls, cfg, |cfg.pids|, cfg.pairs[j].hotNode);
    }
  }

  lemma {:induction false} NoRows(ls: Lists, cfg: Config, n: int, node: int)
    requires 0 <= n <= |cfg.pids|
    ensures Columns(ls, cfg, n, node, 0) == 0
  {
    if n > 0 {
      NoRows(ls, cfg, n - 1, node);
    }
  }

  /** The number of pages the cold pass may offer for pair `j` is what the statistics counted as cold. */
  lemma ColdPagesCounted(ls: Lists, cfg: Config, j: int)
    requires 0 <= j < |cfg.pairs| && 0 <= cfg.threshold
    ensures |Offered(ls, cfg, ColdMove, j)| == Columns(ls, cfg, |cfg.pids|, cfg.pairs[j].hotNode, cfg.threshold)
  {
    RowsAreColumns(ls, cfg, j, cfg.threshold, 0);
  }

  /** `update_pages_info` for one process and node: cold and hot kilobytes, two megabytes a page. */
  method TaskPages(store: PageStore, cfg: Config, p: nat, node: int) returns (cold: int, hot: int)
    requires store.Numbered() && ValidConfig(cfg) && Complete(store.lists, cfg)
    requires p < |cfg.pids| && IsNode(cfg.pairs, node)
    ensures cold == HUGE_2M_KB * Column(store.lists, cfg, p, node, cfg.threshold)
    ensures cold + hot == HUGE_2M_KB * Column(store.lists, cfg, p, node, cfg.maxCount + 1)
  {
    hide Paired;
    var t := if cfg.threshold > cfg.maxCount then cfg.maxCount + 1 else cfg.threshold;
    assert cfg.pids[p] in cfg.pids;
    cold, hot := 0, 0;
    var c := 0;
    while c < t
      invariant 0 <= c <= t == cfg.threshold
      invariant cold == HUGE_2M_KB * Column(store.lists, cfg, p, node, c)
    {
      cold := cold + store.num[Bucket(cfg.pids[p], c, node)] * HUGE_2M_KB;
      c := c + 1;
    }
    while c <= cfg.maxCount
      invariant t <= c <= cfg.maxCount + 1
      invariant cold + hot == HUGE_2M_KB * Column(store.lists, cfg, p, node, c)
    {
      hot := hot + store.num[Bucket(cfg.pids[p], c, node)] * HUGE_2M_KB;
      c := c + 1;
    }
  }

  /** `cslide_stat` for one node: the sums over all working processes. */
  method HostPages(store: PageStore, cfg: Config, node: int) returns (cold: int, hot: int)
    requires store.Numbered() && ValidConfig(cfg) && Complete(store.lists, cfg) && IsNode(cfg.pairs, node)
    ensures cold == HUGE_2M_KB * Columns(store.lists, cfg, |cfg.pids|, node, cfg.threshold)
    ensures cold + hot == HUGE_2M_KB * Columns(store.lists, cfg, |cfg.pids|, node, cfg.maxCount + 1)
  {
    hide PageStore.Numbered;
    hide Complete;
    hide Column;
    hide IsNode;
    hide Paired;
    cold, hot := 0, 0;
    var p := 0;
    while p < |cfg.pids|
      invariant 0 <= p <= |cfg.pids|
      invariant cold == HUGE_2M_KB * Columns(store.lists, cfg, p, node, cfg.threshold)
      invariant cold + hot == HUGE_2M_KB * Columns(store.lists, cfg, p, node, cfg.maxCount + 1)
    {
      var c, h := TaskPages(store, cfg, p, node);
      cold, hot := cold + c, hot + h;
      p := p + 1;
    }
  }

  /** What `init_flow_ctrl` puts into the ledger of a pair. */
  function Figures(coldFree: int, free: int, coldKb: int, quotaMb: int, reserveMb: int): NodeCtrl {
    NodeCtrl(Cap(0, 0), Cap(0, 0), Cap(0, 0), 0, coldFree, free, coldKb * 1024, quotaMb * MB, reserveMb * MB)
  }

  ghost predicate NothingSelected(ls: Lists) {
    forall id :: id in ls && !id.Bucket? ==> ls[id] == []
  }

  lemma {:induction false} NoBytes(ls: Lists, cfg: Config, pass: Pass, j: int, n: int)
    requires 0 <= j < |cfg.pairs| && 0 <= n <= |cfg.pids| && NothingSelected(ls)
    ensures Bytes(ls, cfg, pass, j, n) == 0
  {
    if n > 0 {
      NoBytes(ls, cfg, pass, j, n - 1);
    }
  }

  /** Free huge-page bytes of every node, as read at the start of the round, and the engine's settings. */
  datatype Host = Host(free: seq<nat>, quotaMb: nat, reserveMb: nat)

  ghost predicate Within(cfg: Config, host: Host) {
    forall j :: 0 <= j < |cfg.pairs| ==> 0 <= cfg.pairs[j].hotNode < |host.free| && 0 <= cfg.pairs[j].coldNode < |host.free|
  }

  /** Pages of one size, of at least two megabytes, and room on both nodes that fits them. */
  ghost predicate PagesFit(ls: Lists, cfg: Config, host: Host, j: int, size: nat)
    requires Within(cfg, host) && 0 <= j < |cfg.pairs|
  {
    && HUGE_2M <= size && AllOfSize(ls, size)
    && RoomFits(host.free[cfg.pairs[j].hotNode], host.free[cfg.pairs[j].coldNode], size)
  }

  /** What a round promises for pair `j`: the quota bounds all moves of the round together, and the
      moves fit into both nodes. */
  ghost predicate PairSafe(ls0: Lists, ls: Lists, cfg: Config, host: Host, j: int)
    requires Within(cfg, host) && 0 <= j < |cfg.pairs|
  {
    var toHot, toCold := HotBytes(ls, cfg, j), ColdBytes(ls, cfg, j);
    && toHot + toCold <= host.quotaMb * MB
    && forall size :: PagesFit(ls0, cfg, host, j, size) ==>
         && toHot - toCold <= host.free[cfg.pairs[j].hotNode]
         && toCold - toHot <= host.free[cfg.pairs[j].coldNode]
  }

  lemma SafeResult(ls0: Lists, ls: Lists, cfg: Config, host: Host, j: int, coldKb: nat)
    requires ValidConfig(cfg) && Within(cfg, host) && 0 <= j < |cfg.pairs| && NothingSelected(ls0)
    requires coldKb == HUGE_2M_KB * Columns(ls0, cfg, |cfg.pids|, cfg.pairs[j].hotNode, cfg.threshold)
    requires var n := Figures(host.free[cfg.pairs[j].coldNode], host.free[cfg.pairs[j].hotNode], coldKb, host.quotaMb, host.reserveMb);
      PairResult(ls0, ls, cfg, j, FinalLedger(n, ls0, cfg, j))
    ensures PairSafe(ls0, ls, cfg, host, j)
  {
    hide PairResult;
    hide FinalLedger;
    hide AllOfSize;
    hide RoomFits;
    hide ValidConfig;
    hide Columns;
    var n := Figures(host.free[cfg.pairs[j].coldNode], host.free[cfg.pairs[j].hotNode], coldKb, host.quotaMb, host.reserveMb);
    NoBytes(ls0, cfg, HotMove, j, |cfg.pids|);
    NoBytes(ls0, cfg, ColdMove, j, |cfg.pids|);
    QuotaNeverExceeded(n, ls0, ls, cfg, j);
    forall size | PagesFit(ls0, cfg, host, j, size)
      ensures HotBytes(ls, cfg, j) - ColdBytes(ls, cfg, j) <= n.free
      ensures ColdBytes(ls, cfg, j) - HotBytes(ls, cfg, j) <= n.coldFree
    {
      ColdCovered(ls0, cfg, j, coldKb, size);
      NodesNeverOverfilled(n, ls0, ls, cfg, j, size);
    }
  }

  /** Each counted page has at least the two megabytes the statistics give it. */
  lemma ColdCovered(ls0: Lists, cfg: Config, j: int, coldKb: nat, size: nat)
    requires ValidConfig(cfg) && 0 <= j < |cfg.pairs| && HUGE_2M <= size && AllOfSize(ls0, size)
    requires coldKb == HUGE_2M_KB * Columns(ls0, cfg, |cfg.pids|, cfg.pairs[j].hotNode, cfg.threshold)
    ensures coldKb * 1024 <= Total(Offered(ls0, cfg, ColdMove, j))
  {
    ColdPagesCounted(ls0, cfg, j);
    OfferedUniform(ls0, cfg, ColdMove, j, cfg.threshold, 0, size);
    var offered := Offered(ls0, cfg, ColdMove, j);
    UniformTotal(offered, size);
    assert coldKb * 1024 == HUGE_2M * |offered|;
    Scaled(HUGE_2M, size, |offered|);
  }

  lemma Scaled(a: nat, b: nat, n: nat)
    requires a <= b
    ensures a * n <= b * n
  {
    var d := b - a;
    assert b * n == a * n + d * n;
  }

  /** `cslide_stat` and `init_flow_ctrl`: the figures every pair's ledger starts with. */
  method InitFigures(store: PageStore, cfg: Config, host: Host) returns (figures: seq<NodeCtrl>)
    requires store.Numbered() && ValidConfig(cfg) && Complete(store.lists, cfg) && Within(cfg, host)
    ensures |figures| == |cfg.pairs|
    ensures forall k :: 0 <= k < |figures| ==> PairFigures(store.lists, cfg, host, k, figures[k])
  {
    hide PageStore.Numbered;
    hide Complete;
    hide ValidConfig;
    hide Columns;
    figures := [];
    var j := 0;
    while j < |cfg.pairs|
      invariant 0 <= j <= |cfg.pairs| && |figures| == j
      invariant forall k :: 0 <= k < j ==> PairFigures(store.lists, cfg, host, k, figures[k])
    {
      var pair := cfg.pairs[j];
      IndexInRange(cfg, host, j);
      assert IsNode(cfg.pairs, pair.hotNode);
      var cold, hot := HostPages(store, cfg, pair.hotNode);
      figures := figures + [Figures(host.free[pair.coldNode], host.free[pair.hotNode], cold, host.quotaMb, host.reserveMb)];
      j := j + 1;
    }
  }

  /** `cslide_policy` once the pages are counted. */
  method SelectPages(store: PageStore, cfg: Config, host: Host)
    requires store.Valid() && store.Numbered() && ValidConfig(cfg) && Complete(store.lists, cfg)
    requires NothingSelected(store.lists) && Within(cfg, host)
    modifies store`head, store`tail, store`size, store`lists, store`owner, store.pages
    ensures store.Valid() && store.lists.Keys == old(store.lists).Keys
    ensures OthersKept(old(store.lists), store.lists, cfg)
    ensures forall j :: 0 <= j < |cfg.pairs| ==>
      && PairSafe(old(store.lists), store.lists, cfg, host, j)
      && PairFiltered(old(store.lists), store.lists, cfg, host, j)
      && RoundLaw(old(store.lists), store.lists, cfg, RoomFor(old(store.lists), cfg, host, j), j)
  {
    hide Good;
    hide PageStore.Numbered;
    hide Complete;
    hide ValidConfig;
    hide NothingSelected;
    hide Within;
    hide PairResult;
    hide PairSafe;
    hide Columns;
    hide FinalLedger;
    hide OthersKept;
    hide RoundLaw;
    hide Figures;
    ghost var ls0 := store.lists;
    var figures := InitFigures(store, cfg, host);
    var ledgers := FilterPages(store, cfg, figures);
    forall k | 0 <= k < |cfg.pairs|
      ensures PairSafe(ls0, store.lists, cfg, host, k) && PairFiltered(ls0, store.lists, cfg, host, k)
      ensures RoundLaw(ls0, store.lists, cfg, RoomFor(ls0, cfg, host, k), k)
    {
      assert PairFigures(ls0, cfg, host, k, figures[k]);
      SafeResult(ls0, store.lists, cfg, host, k, ColdKb(ls0, cfg, k));
      ResultObeysLaw(figures[k], ls0, store.lists, cfg, k);
      FiguresAre(ls0, cfg, host, k, figures[k]);
    }
  }

  ghost function ColdKb(ls: Lists, cfg: Config, k: int): nat
    requires 0 <= k < |cfg.pairs| && 0 <= cfg.threshold
  {
    HUGE_2M_KB * Columns(ls, cfg, |cfg.pids|, cfg.pairs[k].hotNode, cfg.threshold)
  }

  ghost predicate PairFigures(ls0: Lists, cfg: Config, host: Host, k: int, n: NodeCtrl)
    requires 0 <= k < |cfg.pairs|
  {
    && 0 <= cfg.threshold
    && 0 <= cfg.pairs[k].hotNode < |host.free| && 0 <= cfg.pairs[k].coldNode < |host.free|
    && n == Figures(host.free[cfg.pairs[k].coldNode], host.free[cfg.pairs[k].hotNode], ColdKb(ls0, cfg, k), host.quotaMb, host.reserveMb)
    && Fresh(n)
  }

  /** The three passes over pair `j`, run with the pair's figures, left what is there now. */
  ghost predicate PairFiltered(ls0: Lists, ls: Lists, cfg: Config, host: Host, j: int)
    requires ValidConfig(cfg) && 0 <= j < |cfg.pairs|
  {
    exists n :: PairFigures(ls0, cfg, host, j, n) && PairResult(ls0, ls, cfg, j, FinalLedger(n, ls0, cfg, j))
  }

  /** The room of pair `j`: what both nodes have free, two megabytes for every page below the threshold on the
      hot node, and the settings in megabytes. */
  ghost function RoomFor(ls0: Lists, cfg: Config, host: Host, j: int): Room
    requires ValidConfig(cfg) && Within(cfg, host) && 0 <= j < |cfg.pairs|
  {
    Room(host.free[cfg.pairs[j].hotNode], host.free[cfg.pairs[j].coldNode],
         0x20_0000 * Columns(ls0, cfg, |cfg.pids|, cfg.pairs[j].hotNode, cfg.threshold),
         0x10_0000 * host.quotaMb, 0x10_0000 * host.reserveMb)
  }

  lemma FiguresAre(ls0: Lists, cfg: Config, host: Host, j: int, n: NodeCtrl)
    requires ValidConfig(cfg) && Within(cfg, host) && 0 <= j < |cfg.pairs| && PairFigures(ls0, cfg, host, j, n)
    ensures RoomOf(n) == RoomFor(ls0, cfg, host, j)
  {
    hide Columns;
    hide Paired;
  }

  lemma IndexInRange(cfg: Config, host: Host, j: int)
    requires Within(cfg, host) && ValidConfig(cfg) && 0 <= j < |cfg.pairs|
    ensures 0 <= cfg.threshold
    ensures 0 <= cfg.pairs[j].hotNode < |host.free| && 0 <= cfg.pairs[j].coldNode < |host.free|
  {
  }

  /** `get_node_huge_total`: the free huge pages of a node are counted in two-megabyte pages. */
  function HugeFree(nr: seq<nat>): (free: seq<nat>)
    ensures |free| == |nr| && forall i :: 0 <= i < |nr| ==> free[i] == HUGE_2M * nr[i]
  {
    seq(|nr|, i requires 0 <= i < |nr| => HUGE_2M * nr[i])
  }

  /** With two-megabyte pages the room always fits, so neither node of any pair overfills. */
  lemma TwoMegabytePagesFit(ls0: Lists, ls: Lists, cfg: Config, nr: seq<nat>, host: Host, j: int)
    requires host.free == HugeFree(nr) && Within(cfg, host) && 0 <= j < |cfg.pairs| && AllOfSize(ls0, HUGE_2M)
    requires PairSafe(ls0, ls, cfg, host, j)
    ensures HotBytes(ls, cfg, j) - ColdBytes(ls, cfg, j) <= host.free[cfg.pairs[j].hotNode]
    ensures ColdBytes(ls, cfg, j) - HotBytes(ls, cfg, j) <= host.free[cfg.pairs[j].coldNode]
  {
    hide AllOfSize;
    hide HotBytes;
    hide ColdBytes;
    WholeNumber(nr[cfg.pairs[j].hotNode]);
    WholeNumber(nr[cfg.pairs[j].coldNode]);
    assert PagesFit(ls0, cfg, host, j, HUGE_2M);
  }

  lemma WholeNumber(k: nat)
    ensures HUGE_2M * k % HUGE_2M == 0
  {
  }
}
