/**
 What the law of a selection round means for single pages: a page that stays behind would have broken a
 limit, and no page goes before one that has a better claim.
 */
module CslidePriority {
  import opened Pages
  import opened PageStores
  import opened FlowSafety
  import opened NodePairs
  import opened PassSpec
  import opened CslideLaw

  // ----- bytes of a region

  lemma {:induction false} RowShrinks(ls0: Lists, ls: Lists, cfg: Config, g: Region, c: int, n: int)
    requires 0 <= n <= |cfg.pids| && g.lo <= c < g.hi && FromFront(ls0, ls, cfg, g)
    ensures RowBytes(ls, cfg, g.node, c, n) <= RowBytes(ls0, cfg, g.node, c, n)
    ensures RowBytes(ls, cfg, g.node, c, n) == RowBytes(ls0, cfg, g.node, c, n) ==>
      forall p :: 0 <= p < n ==> CellAt(ls, cfg, g, c, p) == CellAt(ls0, cfg, g, c, p)
  {
    hide FromFront;
    hide Total;
    if n > 0 {
      RowShrinks(ls0, ls, cfg, g, c, n - 1);
      CellShrinks(ls0, ls, cfg, g, c, n - 1);
    }
  }

  lemma CellShrinks(ls0: Lists, ls: Lists, cfg: Config, g: Region, c: int, p: int)
    requires InCells(cfg, g, c, p) && FromFront(ls0, ls, cfg, g)
    ensures var all, left := CellAt(ls0, cfg, g, c, p), CellAt(ls, cfg, g, c, p);
      && Shortened(all, left) && Total(left) <= Total(all) && (Total(left) == Total(all) ==> left == all)
  {
    hide CellAt;
    var all, left := CellAt(ls0, cfg, g, c, p), CellAt(ls, cfg, g, c, p);
    assert Shortened(all, left);
    TotalSplit(all, |all| - |left|);
  }

  lemma {:induction false} RegionShrinks(ls0: Lists, ls: Lists, cfg: Config, g: Region, hi: int)
    requires g.lo <= hi <= g.hi && FromFront(ls0, ls, cfg, g)
    ensures RegionBytes(ls, cfg, g.node, g.lo, hi) <= RegionBytes(ls0, cfg, g.node, g.lo, hi)
    ensures RegionBytes(ls, cfg, g.node, g.lo, hi) == RegionBytes(ls0, cfg, g.node, g.lo, hi) ==>
      forall c, p :: g.lo <= c < hi && InCells(cfg, g, c, p) ==> CellAt(ls, cfg, g, c, p) == CellAt(ls0, cfg, g, c, p)
    decreases hi - g.lo
  {
    hide FromFront;
    hide RowBytes;
    hide CellAt;
    if g.lo < hi {
      RegionShrinks(ls0, ls, cfg, g, hi - 1);
      RowShrinks(ls0, ls, cfg, g, hi - 1, |cfg.pids|);
    }
  }

  lemma {:induction false} RowHolds(ls: Lists, cfg: Config, g: Region, c: int, n: int, p: int)
    requires 0 <= p < n <= |cfg.pids|
    ensures Total(CellAt(ls, cfg, g, c, p)) <= RowBytes(ls, cfg, g.node, c, n)
  {
    hide Total;
    if p < n - 1 {
      RowHolds(ls, cfg, g, c, n - 1, p);
    }
  }

  lemma {:induction false} RegionHolds(ls: Lists, cfg: Config, g: Region, hi: int, c: int, p: int)
    requires g.lo <= c < hi <= g.hi && InCells(cfg, g, c, p)
    ensures Total(CellAt(ls, cfg, g, c, p)) <= RegionBytes(ls, cfg, g.node, g.lo, hi)
    decreases hi - c
  {
    hide Total;
    hide RowBytes;
    hide CellAt;
    if c < hi - 1 {
      RegionHolds(ls, cfg, g, hi - 1, c, p);
    } else {
      RowHolds(ls, cfg, g, c, |cfg.pids|, p);
    }
  }

  /** A page of the region is part of its bytes. */
  lemma PageInDemand(ls: Lists, cfg: Config, g: Region, c: int, p: int)
    requires InCells(cfg, g, c, p) && CellAt(ls, cfg, g, c, p) != []
    ensures 0 < CellAt(ls, cfg, g, c, p)[0].size <= DemandOf(ls, cfg, g)
  {
    hide CellAt;
    RegionHolds(ls, cfg, g, g.hi, c, p);
  }

  /** A bucket gets shorter only when bytes move. */
  lemma NothingMoved(ls0: Lists, ls: Lists, cfg: Config, g: Region, c: int, p: int)
    requires FromFront(ls0, ls, cfg, g) && DemandOf(ls, cfg, g) == DemandOf(ls0, cfg, g) && InCells(cfg, g, c, p)
    ensures CellAt(ls, cfg, g, c, p) == CellAt(ls0, cfg, g, c, p)
  {
    hide FromFront;
    hide CellAt;
    hide RegionBytes;
    RegionShrinks(ls0, ls, cfg, g, g.hi);
  }

  /** When any page of the region is left, some page is the next one. */
  lemma {:induction false} NextExists(ls: Lists, cfg: Config, g: Region, c: int, p: int) returns (d: int, q: int)
    requires InCells(cfg, g, c, p) && CellAt(ls, cfg, g, c, p) != []
    ensures NextLeft(ls, cfg, g, d, q)
    decreases if g.hottestFirst then g.hi - c else c - g.lo, p
  {
    hide CellAt;
    if NextLeft(ls, cfg, g, c, p) {
      d, q := c, p;
    } else {
      d, q :| InCells(cfg, g, d, q) && Earlier(g, d, q, c, p) && CellAt(ls, cfg, g, d, q) != [];
      d, q := NextExists(ls, cfg, g, d, q);
    }
  }

  // ----- why pages stay behind

  function Moved(ls0: Lists, ls: Lists, cfg: Config, g: Region): int {
    DemandOf(ls0, cfg, g) - DemandOf(ls, cfg, g)
  }

  /** The size of the next page of the region, when it has one. */
  ghost predicate NextSize(ls: Lists, cfg: Config, g: Region, size: nat) {
    exists c, p :: NextLeft(ls, cfg, g, c, p) && size == CellAt(ls, cfg, g, c, p)[0].size
  }

  lemma NextBeyond(ls0: Lists, ls: Lists, cfg: Config, g: Region, charge: nat, size: nat)
    requires PassLaw(ls0, ls, cfg, g, charge) && NextSize(ls, cfg, g, size)
    ensures 0 <= Moved(ls0, ls, cfg, g) && charge < Moved(ls0, ls, cfg, g) + size <= DemandOf(ls0, cfg, g)
    ensures charge < DemandOf(ls0, cfg, g)
  {
    hide CellAt;
    hide DemandOf;
    hide FromFront;
    hide InOrder;
    var c, p :| NextLeft(ls, cfg, g, c, p) && size == CellAt(ls, cfg, g, c, p)[0].size;
    PageInDemand(ls, cfg, g, c, p);
  }

  /**
   A hot page left on the cold node: with one more page, the quota would be exceeded, or more would be
   replaced than the hot node has cold bytes, or than the cold node has room for.
   */
  lemma HotLeftBehind(ls0: Lists, ls: Lists, cfg: Config, room: Room, j: int, size: nat)
    requires 0 <= j < |cfg.pairs| && RoundLaw(ls0, ls, cfg, room, j) && NextSize(ls, cfg, HotRegion(cfg, j), size)
    ensures 0 <= Moved(ls0, ls, cfg, HotRegion(cfg, j))
    ensures var m := Moved(ls0, ls, cfg, HotRegion(cfg, j)) + size;
      m + Replaced(room, m) > room.quota || m > room.free + room.cold || m > room.free + room.coldFree
  {
    hide PassLaw;
    hide Arrived;
    hide DemandOf;
    hide NextSize;
    var u: nat, y: nat, z: nat :| RoundWith(ls0, ls, cfg, room, j, u, y, z);
    NextBeyond(ls0, ls, cfg, HotRegion(cfg, j), u, size);
    assert !HotMay(room, Moved(ls0, ls, cfg, HotRegion(cfg, j)) + size);
  }

  /** While hot pages are left, nothing is prefetched. */
  lemma HotBeforePrefetch(ls0: Lists, ls: Lists, cfg: Config, room: Room, j: int, size: nat)
    requires 0 <= j < |cfg.pairs| && RoundLaw(ls0, ls, cfg, room, j) && NextSize(ls, cfg, HotRegion(cfg, j), size)
    ensures Moved(ls0, ls, cfg, PrefetchRegion(cfg, j)) == 0
  {
    hide DemandOf;
    hide Arrived;
    hide NextSize;
    hide FromFront;
    hide InOrder;
    hide NextLeft;
    var u: nat, y: nat, z: nat :| RoundWith(ls0, ls, cfg, room, j, u, y, z);
    NextBeyond(ls0, ls, cfg, HotRegion(cfg, j), u, size);
    assert !HotMay(room, u + 1);
    assert PrefetchMay(room, u, y);
    assert AsMuch(ls0, ls, cfg, PrefetchRegion(cfg, j), y);
  }

  /**
   A page below the threshold left on the cold node: a hot page is left there too, or with one more page the
   quota would be exceeded or the reserve of the hot node be used.
   */
  lemma PrefetchLeftBehind(ls0: Lists, ls: Lists, cfg: Config, room: Room, j: int, size: nat)
    requires 0 <= j < |cfg.pairs| && RoundLaw(ls0, ls, cfg, room, j) && NextSize(ls, cfg, PrefetchRegion(cfg, j), size)
    ensures var h, m := Moved(ls0, ls, cfg, HotRegion(cfg, j)), Moved(ls0, ls, cfg, PrefetchRegion(cfg, j)) + size;
      && 0 <= h && size <= m
      && (|| DemandOf(ls, cfg, HotRegion(cfg, j)) > 0
          || h + Replaced(room, h) + m > room.quota
          || room.free - (h - Replaced(room, h)) - m < room.reserve)
  {
    hide DemandOf;
    hide Arrived;
    hide NextSize;
    hide FromFront;
    hide InOrder;
    hide NextLeft;
    var u: nat, y: nat, z: nat :| RoundWith(ls0, ls, cfg, room, j, u, y, z);
    NextBeyond(ls0, ls, cfg, PrefetchRegion(cfg, j), y, size);
    assert AsMuch(ls0, ls, cfg, HotRegion(cfg, j), u);
    if DemandOf(ls, cfg, HotRegion(cfg, j)) == 0 {
      assert u == Moved(ls0, ls, cfg, HotRegion(cfg, j));
      assert !PrefetchMay(room, u, Moved(ls0, ls, cfg, PrefetchRegion(cfg, j)) + size);
    }
  }

  /**
   A page below the threshold left on the hot node: one more page would go beyond the bytes that were replaced
   and exceed the quota, raise the free space above the reserve, or exceed the room of the cold node.
   */
  lemma ColdLeftBehind(ls0: Lists, ls: Lists, cfg: Config, room: Room, j: int, size: nat, u: nat, y: nat)
    requires 0 <= j < |cfg.pairs| && RoundLaw(ls0, ls, cfg, room, j) && NextSize(ls, cfg, ColdRegion(cfg, j), size)
    requires HotCharge(room, DemandOf(ls0, cfg, HotRegion(cfg, j)), u)
    requires PrefetchCharge(room, u, DemandOf(ls0, cfg, PrefetchRegion(cfg, j)), y)
    ensures var r := Replaced(room, u); var m := Moved(ls0, ls, cfg, ColdRegion(cfg, j)) + size;
      && r < m
      && (|| u + y + m > room.quota
          || room.free - u - y + m > room.reserve
          || m > room.coldFree + u + y)
  {
    hide PassLaw;
    hide Arrived;
    hide DemandOf;
    hide NextSize;
    var u0: nat, y0: nat, z: nat :| RoundWith(ls0, ls, cfg, room, j, u0, y0, z);
    assert u0 == u && y0 == y;
    NextBeyond(ls0, ls, cfg, ColdRegion(cfg, j), z, size);
    assert !ColdMay(room, u, y, Moved(ls0, ls, cfg, ColdRegion(cfg, j)) + size);
  }

  // ----- who goes first

  /** Every page of the node is in the bucket of its own count. */
  ghost predicate GradedOn(ls: Lists, cfg: Config, node: int) {
    forall p, c, x :: 0 <= p < |cfg.pids| && 0 <= c <= cfg.maxCount && x in ListAt(ls, Bucket(cfg.pids[p], c, node)) ==>
      x.count == c
  }

  /** No page was selected for the hot node while a page of a larger count stays on the cold node. */
  ghost predicate HottestSelected(ls0: Lists, ls: Lists, cfg: Config, j: int)
    requires 0 <= j < |cfg.pairs|
  {
    forall p, q, c, x, y ::
      && 0 <= p < |cfg.pids| && 0 <= q < |cfg.pids| && 0 <= c <= cfg.maxCount
      && x in ListAt(ls, Hot(cfg.pids[p], j)) && x !in ListAt(ls0, Hot(cfg.pids[p], j))
      && y in ListAt(ls, Bucket(cfg.pids[q], c, cfg.pairs[j].coldNode))
      ==> y.count <= x.count
  }

  /** Only pages below the threshold were selected for the cold node, and none while a page of a smaller count
      stays on the hot node. */
  ghost predicate ColdestSelected(ls0: Lists, ls: Lists, cfg: Config, j: int)
    requires 0 <= j < |cfg.pairs|
  {
    && (forall p, x :: 0 <= p < |cfg.pids|
         && x in ListAt(ls, Cold(cfg.pids[p], j)) && x !in ListAt(ls0, Cold(cfg.pids[p], j))
         ==> x.count < cfg.threshold)
    && (forall p, q, c, x, y ::
         && 0 <= p < |cfg.pids| && 0 <= q < |cfg.pids| && 0 <= c <= cfg.maxCount
         && x in ListAt(ls, Cold(cfg.pids[p], j)) && x !in ListAt(ls0, Cold(cfg.pids[p], j))
         && y in ListAt(ls, Bucket(cfg.pids[q], c, cfg.pairs[j].hotNode))
         ==> x.count <= y.count)
  }

  lemma {:induction false} GoneFrom(ls0: Lists, ls: Lists, pid: int, node: int, lo: int, hi: int, x: PageRef) returns (c: int)
    requires x in Gone(ls0, ls, pid, node, lo, hi)
    ensures lo <= c < hi && x in Lost(ls0, ls, Bucket(pid, c, node))
    decreases hi - lo
  {
    hide Lost;
    c := hi - 1;
    if x !in Lost(ls0, ls, Bucket(pid, c, node)) {
      c := GoneFrom(ls0, ls, pid, node, lo, hi - 1, x);
    }
  }

  /** A page that left a bucket was in it, and the bucket is shorter. */
  lemma LostPage(ls0: Lists, ls: Lists, cfg: Config, g: Region, c: int, p: int, x: PageRef)
    requires InCells(cfg, g, c, p) && FromFront(ls0, ls, cfg, g) && x in Lost(ls0, ls, Bucket(cfg.pids[p], c, g.node))
    ensures x in CellAt(ls0, cfg, g, c, p) && |CellAt(ls, cfg, g, c, p)| < |CellAt(ls0, cfg, g, c, p)|
  {
    assert Shortened(CellAt(ls0, cfg, g, c, p), CellAt(ls, cfg, g, c, p));
  }

  lemma KeptPage(ls0: Lists, ls: Lists, cfg: Config, g: Region, c: int, p: int, x: PageRef)
    requires InCells(cfg, g, c, p) && FromFront(ls0, ls, cfg, g) && x in CellAt(ls, cfg, g, c, p)
    ensures x in CellAt(ls0, cfg, g, c, p)
  {
    assert Shortened(CellAt(ls0, cfg, g, c, p), CellAt(ls, cfg, g, c, p));
  }

  /** Of a region, a page that went has no larger bucket than one that stays, or no smaller one. */
  lemma RegionOrder(ls0: Lists, ls: Lists, cfg: Config, g: Region, c: int, p: int, x: PageRef, d: int, q: int, y: PageRef)
    requires FromFront(ls0, ls, cfg, g) && InOrder(ls0, ls, cfg, g) && InCells(cfg, g, c, p) && InCells(cfg, g, d, q)
    requires x in Lost(ls0, ls, Bucket(cfg.pids[p], c, g.node)) && y in CellAt(ls, cfg, g, d, q)
    ensures if g.hottestFirst then d <= c else c <= d
  {
    hide FromFront;
    hide Lost;
    hide CellAt;
    LostPage(ls0, ls, cfg, g, c, p, x);
    var left := CellAt(ls, cfg, g, d, q);
    assert Earlier(g, d, q, c, p) ==> left == [];
  }

  lemma ColdNodeOrder(ls0: Lists, ls: Lists, cfg: Config, room: Room, j: int,
                      c: int, p: int, x: PageRef, d: int, q: int, y: PageRef)
    requires ValidConfig(cfg) && 0 <= j < |cfg.pairs| && RoundLaw(ls0, ls, cfg, room, j)
    requires 0 <= p < |cfg.pids| && 0 <= q < |cfg.pids| && 0 <= c <= cfg.maxCount && 0 <= d <= cfg.maxCount
    requires x in Lost(ls0, ls, Bucket(cfg.pids[p], c, cfg.pairs[j].coldNode))
    requires y in ListAt(ls, Bucket(cfg.pids[q], d, cfg.pairs[j].coldNode))
    ensures d <= c
    ensures x in ListAt(ls0, Bucket(cfg.pids[p], c, cfg.pairs[j].coldNode))
    ensures y in ListAt(ls0, Bucket(cfg.pids[q], d, cfg.pairs[j].coldNode))
  {
    hide ValidConfig;
    hide FromFront;
    hide InOrder;
    hide AsMuch;
    hide Arrived;
    hide Lost;
    hide HotCharge;
    hide PrefetchCharge;
    hide ColdCharge;
    var hot, low := HotRegion(cfg, j), PrefetchRegion(cfg, j);
    var u: nat, v: nat, z: nat :| RoundWith(ls0, ls, cfg, room, j, u, v, z);
    assert PassLaw(ls0, ls, cfg, hot, u) && PassLaw(ls0, ls, cfg, low, v);
    var from, at := if c < cfg.threshold then low else hot, if d < cfg.threshold then low else hot;
    LostPage(ls0, ls, cfg, from, c, p, x);
    KeptPage(ls0, ls, cfg, at, d, q, y);
    if from == at {
      RegionOrder(ls0, ls, cfg, from, c, p, x, d, q, y);
    } else if c < d {
      var e, n := NextExists(ls, cfg, hot, d, q);
      assert NextSize(ls, cfg, hot, CellAt(ls, cfg, hot, e, n)[0].size) by { NextCell(ls, cfg, hot, e, n); }
      HotBeforePrefetch(ls0, ls, cfg, room, j, CellAt(ls, cfg, hot, e, n)[0].size);
      NothingMoved(ls0, ls, cfg, low, c, p);
    }
  }

  lemma HotterPair(ls0: Lists, ls: Lists, cfg: Config, room: Room, j: int, p: int, x: PageRef, d: int, q: int, y: PageRef)
    requires ValidConfig(cfg) && 0 <= j < |cfg.pairs| && RoundLaw(ls0, ls, cfg, room, j)
    requires GradedOn(ls0, cfg, cfg.pairs[j].coldNode)
    requires 0 <= p < |cfg.pids| && 0 <= q < |cfg.pids| && 0 <= d <= cfg.maxCount
    requires x in ListAt(ls, Hot(cfg.pids[p], j)) && x !in ListAt(ls0, Hot(cfg.pids[p], j))
    requires y in ListAt(ls, Bucket(cfg.pids[q], d, cfg.pairs[j].coldNode))
    ensures y.count <= x.count
  {
    hide ValidConfig;
    hide PassLaw;
    hide Gone;
    hide Lost;
    hide ListAt;
    var cold := cfg.pairs[j].coldNode;
    assert x in multiset(ListAt(ls, Hot(cfg.pids[p], j)));
    assert x in Gone(ls0, ls, cfg.pids[p], cold, 0, cfg.maxCount + 1);
    var c := GoneFrom(ls0, ls, cfg.pids[p], cold, 0, cfg.maxCount + 1, x);
    ColdNodeOrder(ls0, ls, cfg, room, j, c, p, x, d, q, y);
  }

  /** The most used pages of the cold node go first, over hot pages and prefetched ones together. */
  lemma HottestFirst(ls0: Lists, ls: Lists, cfg: Config, room: Room, j: int)
    requires ValidConfig(cfg) && 0 <= j < |cfg.pairs| && RoundLaw(ls0, ls, cfg, room, j)
    requires GradedOn(ls0, cfg, cfg.pairs[j].coldNode)
    ensures HottestSelected(ls0, ls, cfg, j)
  {
    hide ValidConfig;
    hide RoundLaw;
    hide GradedOn;
    hide ListAt;
    forall p, q, d, x, y |
      && 0 <= p < |cfg.pids| && 0 <= q < |cfg.pids| && 0 <= d <= cfg.maxCount
      && x in ListAt(ls, Hot(cfg.pids[p], j)) && x !in ListAt(ls0, Hot(cfg.pids[p], j))
      && y in ListAt(ls, Bucket(cfg.pids[q], d, cfg.pairs[j].coldNode))
      ensures y.count <= x.count
    {
      HotterPair(ls0, ls, cfg, room, j, p, x, d, q, y);
    }
  }

  /** A page in a cold list came from a bucket below the threshold on the hot node. */
  lemma ColdFrom(ls0: Lists, ls: Lists, cfg: Config, room: Room, j: int, p: int, x: PageRef) returns (c: int)
    requires ValidConfig(cfg) && 0 <= j < |cfg.pairs| && RoundLaw(ls0, ls, cfg, room, j) && 0 <= p < |cfg.pids|
    requires x in ListAt(ls, Cold(cfg.pids[p], j)) && x !in ListAt(ls0, Cold(cfg.pids[p], j))
    ensures 0 <= c < cfg.threshold && x in Lost(ls0, ls, Bucket(cfg.pids[p], c, cfg.pairs[j].hotNode))
    ensures x in ListAt(ls0, Bucket(cfg.pids[p], c, cfg.pairs[j].hotNode))
  {
    hide PassLaw;
    hide Gone;
    hide Paired;
    assert x in multiset(ListAt(ls, Cold(cfg.pids[p], j)));
    assert x in Gone(ls0, ls, cfg.pids[p], cfg.pairs[j].hotNode, 0, cfg.threshold);
    c := GoneFrom(ls0, ls, cfg.pids[p], cfg.pairs[j].hotNode, 0, cfg.threshold, x);
  }

  lemma HotNodeOrder(ls0: Lists, ls: Lists, cfg: Config, room: Room, j: int,
                     c: int, p: int, x: PageRef, d: int, q: int, y: PageRef)
    requires ValidConfig(cfg) && 0 <= j < |cfg.pairs| && RoundLaw(ls0, ls, cfg, room, j)
    requires 0 <= p < |cfg.pids| && 0 <= q < |cfg.pids| && 0 <= c < cfg.threshold && 0 <= d <= cfg.maxCount
    requires x in Lost(ls0, ls, Bucket(cfg.pids[p], c, cfg.pairs[j].hotNode))
    requires y in ListAt(ls, Bucket(cfg.pids[q], d, cfg.pairs[j].hotNode))
    ensures c <= d
    ensures x in ListAt(ls0, Bucket(cfg.pids[p], c, cfg.pairs[j].hotNode))
    ensures y in ListAt(ls0, Bucket(cfg.pids[q], d, cfg.pairs[j].hotNode))
  {
    hide ValidConfig;
    hide FromFront;
    hide InOrder;
    hide AsMuch;
    hide Gone;
    hide Lost;
    hide HotCharge;
    hide PrefetchCharge;
    hide ColdCharge;
    var g := ColdRegion(cfg, j);
    var u: nat, v: nat, z: nat :| RoundWith(ls0, ls, cfg, room, j, u, v, z);
    assert PassLaw(ls0, ls, cfg, g, z);
    LostPage(ls0, ls, cfg, g, c, p, x);
    if d < cfg.threshold {
      KeptPage(ls0, ls, cfg, g, d, q, y);
      RegionOrder(ls0, ls, cfg, g, c, p, x, d, q, y);
    } else {
      assert Arrived(ls0, ls, cfg, j);
    }
  }

  lemma ColderPair(ls0: Lists, ls: Lists, cfg: Config, room: Room, j: int, p: int, x: PageRef, d: int, q: int, y: PageRef)
    requires ValidConfig(cfg) && 0 <= j < |cfg.pairs| && RoundLaw(ls0, ls, cfg, room, j)
    requires GradedOn(ls0, cfg, cfg.pairs[j].hotNode)
    requires 0 <= p < |cfg.pids| && 0 <= q < |cfg.pids| && 0 <= d <= cfg.maxCount
    requires x in ListAt(ls, Cold(cfg.pids[p], j)) && x !in ListAt(ls0, Cold(cfg.pids[p], j))
    requires y in ListAt(ls, Bucket(cfg.pids[q], d, cfg.pairs[j].hotNode))
    ensures x.count <= y.count
  {
    hide RoundLaw;
    hide Lost;
    hide ListAt;
    hide Paired;
    var c := ColdFrom(ls0, ls, cfg, room, j, p, x);
    HotNodeOrder(ls0, ls, cfg, room, j, c, p, x, d, q, y);
  }

  lemma ColdIsLow(ls0: Lists, ls: Lists, cfg: Config, room: Room, j: int, p: int, x: PageRef)
    requires ValidConfig(cfg) && 0 <= j < |cfg.pairs| && RoundLaw(ls0, ls, cfg, room, j) && 0 <= p < |cfg.pids|
    requires GradedOn(ls0, cfg, cfg.pairs[j].hotNode)
    requires x in ListAt(ls, Cold(cfg.pids[p], j)) && x !in ListAt(ls0, Cold(cfg.pids[p], j))
    ensures x.count < cfg.threshold
  {
    hide RoundLaw;
    hide Lost;
    hide ListAt;
    hide Paired;
    var c := ColdFrom(ls0, ls, cfg, room, j, p, x);
  }

  /** The least used pages of the hot node go first, and only pages below the threshold go at all. */
  lemma ColdestFirst(ls0: Lists, ls: Lists, cfg: Config, room: Room, j: int)
    requires ValidConfig(cfg) && 0 <= j < |cfg.pairs| && RoundLaw(ls0, ls, cfg, room, j)
    requires GradedOn(ls0, cfg, cfg.pairs[j].hotNode)
    ensures ColdestSelected(ls0, ls, cfg, j)
  {
    hide ValidConfig;
    hide RoundLaw;
    hide GradedOn;
    hide ListAt;
    forall p, x | 0 <= p < |cfg.pids|
      && x in ListAt(ls, Cold(cfg.pids[p], j)) && x !in ListAt(ls0, Cold(cfg.pids[p], j))
      ensures x.count < cfg.threshold
    {
      ColdIsLow(ls0, ls, cfg, room, j, p, x);
    }
    forall p, q, d, x, y |
      && 0 <= p < |cfg.pids| && 0 <= q < |cfg.pids| && 0 <= d <= cfg.maxCount
      && x in ListAt(ls, Cold(cfg.pids[p], j)) && x !in ListAt(ls0, Cold(cfg.pids[p], j))
      && y in ListAt(ls, Bucket(cfg.pids[q], d, cfg.pairs[j].hotNode))
      ensures x.count <= y.count
    {
      ColderPair(ls0, ls, cfg, room, j, p, x, d, q, y);
    }
  }
}
